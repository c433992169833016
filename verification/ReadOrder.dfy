/** The order of a bounded read: rank under two floors, fold restatements, cut to the
    budget, group into blocks. */
module ReadOrder {
  import opened Ids

  datatype FactKind = Rule | Is | Attribute | Unsure

  datatype Belief = Fact(kind: FactKind, words: set<string>) | Edge(typ: string, outgoing: bool, words: set<string>)

  /** A belief offered for a read, with the line it renders to. `measured` is
      similarity times the policy's weights times reinforcement. */
  datatype Candidate = Candidate(node: string, name: string, belief: Belief, line: string, measured: real)

  const CONSTRAINT_FLOOR: real := 1000000.0
  const EXACT_FLOOR: real := 2000000.0

  predicate IsRule(c: Candidate) { c.belief.Fact? && c.belief.kind.Rule? }

  function Floor(c: Candidate, exact: set<string>): real {
    (if IsRule(c) then CONSTRAINT_FLOOR else 0.0) + (if c.node in exact then EXACT_FLOOR else 0.0)
  }

  function Score(c: Candidate, exact: set<string>): real { c.measured + Floor(c, exact) }

  /** The sort key: best score, then node name, then line. */
  predicate Before(a: Candidate, b: Candidate, exact: set<string>) {
    Score(a, exact) > Score(b, exact)
    || (Score(a, exact) == Score(b, exact) && (Less(a.name, b.name) || (a.name == b.name && Less(a.line, b.line))))
  }

  predicate SameKey(a: Candidate, b: Candidate, exact: set<string>) {
    Score(a, exact) == Score(b, exact) && a.name == b.name && a.line == b.line
  }

  lemma BeforeTotal(a: Candidate, b: Candidate, exact: set<string>)
    ensures Before(a, b, exact) || Before(b, a, exact) || SameKey(a, b, exact)
    ensures !(Before(a, b, exact) && Before(b, a, exact))
    ensures !(Before(a, b, exact) && SameKey(a, b, exact))
  {
    hide Less, Score;
    LessTotal(a.name, b.name);
    LessTotal(a.line, b.line);
    LessIrreflexive(a.name);
    LessIrreflexive(a.line);
    if Less(a.name, b.name) { LessAsymmetric(a.name, b.name); }
    if Less(a.line, b.line) { LessAsymmetric(a.line, b.line); }
  }

  lemma BeforeTransitive(a: Candidate, b: Candidate, c: Candidate, exact: set<string>)
    requires !Before(b, a, exact) && !Before(c, b, exact)
    ensures !Before(c, a, exact)
  {
    hide Less, Score;
    LessTotal(a.name, b.name);
    LessTotal(b.name, c.name);
    LessTotal(a.line, b.line);
    LessTotal(b.line, c.line);
    if Before(c, a, exact) {
      if Less(c.name, a.name) && Less(a.name, b.name) { LessTransitive(c.name, a.name, b.name); }
      if Less(c.name, a.name) && Less(b.name, c.name) { LessTransitive(b.name, c.name, a.name); }
      if Less(c.line, a.line) && Less(a.line, b.line) { LessTransitive(c.line, a.line, b.line); }
      if Less(c.line, a.line) && Less(b.line, c.line) { LessTransitive(b.line, c.line, a.line); }
    }
  }

  // ------------------------------------------------------------------ ranking

  ghost predicate InOrder(ranked: seq<Candidate>, exact: set<string>) {
    forall i, j :: 0 <= i < j < |ranked| ==> !Before(ranked[j], ranked[i], exact)
  }

  /** A stable sort: the new line goes after everything it does not come before. */
  function Placed(ranked: seq<Candidate>, c: Candidate, exact: set<string>): seq<Candidate> {
    if ranked == [] then [c]
    else if Before(c, ranked[|ranked| - 1], exact) then
      Placed(ranked[..|ranked| - 1], c, exact) + [ranked[|ranked| - 1]]
    else ranked + [c]
  }

  function Ranked(candidates: seq<Candidate>, exact: set<string>): seq<Candidate> {
    if candidates == [] then []
    else Placed(Ranked(candidates[..|candidates| - 1], exact), candidates[|candidates| - 1], exact)
  }

  lemma {:induction false} PlacedIsSorted(ranked: seq<Candidate>, c: Candidate, exact: set<string>)
    requires InOrder(ranked, exact)
    ensures InOrder(Placed(ranked, c, exact), exact)
    ensures multiset(Placed(ranked, c, exact)) == multiset(ranked) + multiset{c}
  {
    hide Before;
    if ranked != [] {
      var front, last := ranked[..|ranked| - 1], ranked[|ranked| - 1];
      assert ranked == front + [last];
      if Before(c, last, exact) {
        PlacedIsSorted(front, c, exact);
        BeforeTotal(c, last, exact);
        forall x | x in Placed(front, c, exact)
          ensures !Before(last, x, exact)
        {
          assert x in multiset(front) + multiset{c};
        }
      } else {
        forall i | 0 <= i < |ranked|
          ensures !Before(c, ranked[i], exact)
        {
          if i < |ranked| - 1 { BeforeTransitive(ranked[i], last, c, exact); }
        }
      }
    }
  }

  lemma {:induction false} RankedIsSorted(candidates: seq<Candidate>, exact: set<string>)
    ensures InOrder(Ranked(candidates, exact), exact)
    ensures multiset(Ranked(candidates, exact)) == multiset(candidates)
  {
    hide Before;
    if candidates != [] {
      var front := candidates[..|candidates| - 1];
      assert candidates == front + [candidates[|candidates| - 1]];
      RankedIsSorted(front, exact);
      PlacedIsSorted(Ranked(front, exact), candidates[|candidates| - 1], exact);
    }
  }

  /** No two different candidates share the whole key. */
  ghost predicate KeysTell(candidates: seq<Candidate>, exact: set<string>) {
    forall a, b :: a in candidates && b in candidates && SameKey(a, b, exact) ==> a == b
  }

  lemma SameMembers(a: seq<Candidate>, b: seq<Candidate>)
    requires multiset(a) == multiset(b)
    ensures forall x :: x in a <==> x in b
  {
    forall x: Candidate
      ensures x in a <==> x in b
    {
      assert x in a <==> x in multiset(a);
      assert x in b <==> x in multiset(b);
    }
  }

  lemma SameRest(a: seq<Candidate>, b: seq<Candidate>)
    requires multiset(a) == multiset(b) && a != [] && b != [] && a[0] == b[0]
    ensures multiset(a[1..]) == multiset(b[1..])
  {
    assert a == [a[0]] + a[1..] && b == [b[0]] + b[1..];
    assert multiset(a) == multiset{a[0]} + multiset(a[1..]);
    assert multiset(b) == multiset{b[0]} + multiset(b[1..]);
    assert multiset(a[1..]) == multiset(a) - multiset{a[0]};
  }

  lemma FirstAgrees(a: seq<Candidate>, b: seq<Candidate>, exact: set<string>)
    requires InOrder(a, exact) && InOrder(b, exact) && KeysTell(a, exact) && a != [] && b != []
    requires forall x :: x in a <==> x in b
    ensures a[0] == b[0]
  {
    hide Before, SameKey;
    assert a[0] in b && b[0] in a;
    var i :| 0 <= i < |b| && b[i] == a[0];
    var j :| 0 <= j < |a| && a[j] == b[0];
    BeforeTotal(a[0], b[0], exact);
  }

  lemma {:induction false} OneSortedOrder(a: seq<Candidate>, b: seq<Candidate>, exact: set<string>)
    requires InOrder(a, exact) && InOrder(b, exact) && multiset(a) == multiset(b) && KeysTell(a, exact)
    ensures a == b
  {
    SameMembers(a, b);
    hide Before, SameKey;
    if a == [] {
      assert b == [] by { assert |multiset(a)| == 0 == |multiset(b)|; }
    } else {
      assert a[0] in b;
      FirstAgrees(a, b, exact);
      SameRest(a, b);
      assert forall x :: x in a[1..] ==> x in a;
      OneSortedOrder(a[1..], b[1..], exact);
      assert a == [a[0]] + a[1..] && b == [b[0]] + b[1..];
    }
  }

  /** However the read path assembled them, the same candidates rank the same. */
  lemma RankIgnoresAssembly(a: seq<Candidate>, b: seq<Candidate>, exact: set<string>)
    requires multiset(a) == multiset(b) && KeysTell(a, exact)
    ensures Ranked(a, exact) == Ranked(b, exact)
  {
    RankedIsSorted(a, exact);
    RankedIsSorted(b, exact);
    SameMembers(Ranked(a, exact), a);
    OneSortedOrder(Ranked(a, exact), Ranked(b, exact), exact);
  }

  /** The order is free of assembly exactly when keys tell candidates apart. Two
      nodes of one name holding one line are enough to lose it. */
  lemma RankIgnoresAssemblyExactly(candidates: seq<Candidate>, exact: set<string>)
    ensures (forall other :: multiset(other) == multiset(candidates) ==> Ranked(other, exact) == Ranked(candidates, exact))
      <==> KeysTell(candidates, exact)
  {
    hide Before, SameKey, Ranked;
    if KeysTell(candidates, exact) {
      forall other | multiset(other) == multiset(candidates)
        ensures Ranked(other, exact) == Ranked(candidates, exact)
      {
        RankIgnoresAssembly(candidates, other, exact);
      }
    } else {
      var a, b :| a in candidates && b in candidates && SameKey(a, b, exact) && a != b;
      var one, two := TwinsSwapped(candidates, a, b, exact);
      assert Ranked(one, exact) != Ranked(two, exact);
    }
  }

  lemma TwinsSwapped(candidates: seq<Candidate>, a: Candidate, b: Candidate, exact: set<string>)
    returns (one: seq<Candidate>, two: seq<Candidate>)
    requires a in candidates && b in candidates && SameKey(a, b, exact) && a != b
    ensures multiset(one) == multiset(candidates) == multiset(two) && Ranked(one, exact) != Ranked(two, exact)
  {
    hide Ranked, SameKey, Without;
    WithoutIsLess(candidates, a);
    WithoutIsLess(Without(candidates, a), b);
    var rest := Without(Without(candidates, a), b);
    one, two := rest + [a, b], rest + [b, a];
    TwinsKeepPlace(rest, a, b, exact);
    WithPair(rest, a, b);
    WithPair(rest, b, a);
  }

  function Without(s: seq<Candidate>, x: Candidate): seq<Candidate> {
    if s == [] then [] else if s[0] == x then s[1..] else [s[0]] + Without(s[1..], x)
  }

  lemma {:induction false} WithoutIsLess(s: seq<Candidate>, x: Candidate)
    requires x in s
    ensures multiset(Without(s, x)) + multiset{x} == multiset(s)
    ensures forall y :: y in s && y != x ==> y in Without(s, x)
  {
    assert s == [s[0]] + s[1..];
    if s[0] != x { WithoutIsLess(s[1..], x); }
  }

  lemma WithPair(rest: seq<Candidate>, a: Candidate, b: Candidate)
    ensures multiset(rest + [a, b]) == multiset(rest) + multiset{b} + multiset{a}
  {
  }

  lemma {:induction false} PlacedAfter(ranked: seq<Candidate>, c: Candidate, exact: set<string>, k: nat)
    requires k <= |ranked| && (forall i :: 0 <= i < k ==> !Before(c, ranked[i], exact))
    requires forall i :: k <= i < |ranked| ==> Before(c, ranked[i], exact)
    ensures Placed(ranked, c, exact) == ranked[..k] + [c] + ranked[k..]
  {
    hide Before;
    if ranked != [] && k < |ranked| {
      PlacedAfter(ranked[..|ranked| - 1], c, exact, k);
      assert ranked[..|ranked| - 1][..k] == ranked[..k];
      assert ranked[k..] == ranked[..|ranked| - 1][k..] + [ranked[|ranked| - 1]];
    }
  }

  /** Where a line lands in a ranked list. */
  lemma {:induction false} Landing(ranked: seq<Candidate>, c: Candidate, exact: set<string>) returns (k: nat)
    requires InOrder(ranked, exact)
    ensures k <= |ranked| && (forall i :: 0 <= i < k ==> !Before(c, ranked[i], exact))
    ensures forall i :: k <= i < |ranked| ==> Before(c, ranked[i], exact)
  {
    hide Before;
    k := |ranked|;
    while k > 0 && Before(c, ranked[k - 1], exact)
      invariant 0 <= k <= |ranked| && forall i :: k <= i < |ranked| ==> Before(c, ranked[i], exact)
    {
      k := k - 1;
    }
    forall i | 0 <= i < k
      ensures !Before(c, ranked[i], exact)
    {
      if i < k - 1 { BeforeTransitive(ranked[i], ranked[k - 1], c, exact); }
    }
  }

  lemma TwinsAlike(a: Candidate, b: Candidate, x: Candidate, exact: set<string>)
    requires SameKey(a, b, exact)
    ensures Before(a, x, exact) <==> Before(b, x, exact)
    ensures SameKey(b, a, exact)
  {
  }

  lemma TwoLast(rest: seq<Candidate>, a: Candidate, b: Candidate, exact: set<string>)
    ensures Ranked(rest + [a, b], exact) == Placed(Placed(Ranked(rest, exact), a, exact), b, exact)
  {
    hide Placed;
    assert (rest + [a, b])[..|rest| + 1] == rest + [a] && (rest + [a])[..|rest|] == rest;
  }

  /** Twins come out in the order they were offered. */
  lemma TwinsKeepPlace(rest: seq<Candidate>, a: Candidate, b: Candidate, exact: set<string>)
    requires SameKey(a, b, exact) && a != b
    ensures Ranked(rest + [a, b], exact) != Ranked(rest + [b, a], exact)
  {
    hide Before, SameKey, Ranked, Placed, InOrder;
    RankedIsSorted(rest, exact);
    var ranked := Ranked(rest, exact);
    var k := Landing(ranked, a, exact);
    forall i | 0 <= i < |ranked|
      ensures Before(a, ranked[i], exact) <==> Before(b, ranked[i], exact)
    {
      TwinsAlike(a, b, ranked[i], exact);
    }
    TwinsAlike(a, b, a, exact);
    TwoPlaced(ranked, a, b, exact, k);
    TwoPlaced(ranked, b, a, exact, k);
    TwoLast(rest, a, b, exact);
    TwoLast(rest, b, a, exact);
    assert (ranked[..k] + [a, b] + ranked[k..])[k] == a && (ranked[..k] + [b, a] + ranked[k..])[k] == b;
  }

  lemma TwoPlaced(ranked: seq<Candidate>, a: Candidate, b: Candidate, exact: set<string>, k: nat)
    requires SameKey(a, b, exact) && k <= |ranked|
    requires forall i :: 0 <= i < k ==> !Before(a, ranked[i], exact)
    requires forall i :: k <= i < |ranked| ==> Before(a, ranked[i], exact)
    ensures Placed(Placed(ranked, a, exact), b, exact) == ranked[..k] + [a, b] + ranked[k..]
  {
    PlacedAfter(ranked, a, exact, k);
    var once := ranked[..k] + [a] + ranked[k..];
    hide Before, SameKey, Placed;
    assert |once| == |ranked| + 1 && once[k] == a;
    assert forall i :: 0 <= i < k ==> once[i] == ranked[i];
    forall i | 0 <= i < |once|
      ensures i < k + 1 ==> !Before(b, once[i], exact)
      ensures i >= k + 1 ==> Before(b, once[i], exact)
    {
      TwinsAlike(a, b, once[i], exact);
      BeforeTotal(a, a, exact);
      if i > k { assert once[i] == ranked[i - 1]; }
    }
    PlacedAfter(once, b, exact, k + 1);
    assert once[..k + 1] == ranked[..k] + [a] && once[k + 1..] == ranked[k..];
  }

  // ------------------------------------------------------------- the two floors

  /** 0: on a node the query named; 1: a rule elsewhere; 2: the rest. */
  function Tier(c: Candidate, exact: set<string>): nat {
    if c.node in exact then 0 else if IsRule(c) then 1 else 2
  }

  ghost predicate ByTier(ranked: seq<Candidate>, exact: set<string>) {
    forall i, j :: 0 <= i < j < |ranked| ==> Tier(ranked[i], exact) <= Tier(ranked[j], exact)
  }

  /** Measured ranks no further apart than a floor. */
  ghost predicate Measured(candidates: seq<Candidate>) {
    forall a, b :: a in candidates && b in candidates ==> a.measured - b.measured < CONSTRAINT_FLOOR
  }

  /** A lower tier can only come first on a measured rank a whole floor higher. */
  lemma OvertakingNeedsAFloor(a: Candidate, b: Candidate, exact: set<string>)
    requires Tier(a, exact) < Tier(b, exact) && Before(b, a, exact)
    ensures b.measured - a.measured >= CONSTRAINT_FLOOR
  {
    hide Less;
  }

  lemma FloorsHold(candidates: seq<Candidate>, exact: set<string>)
    requires forall a, b :: a in candidates && b in candidates && Tier(a, exact) < Tier(b, exact) ==> Before(a, b, exact)
    ensures ByTier(Ranked(candidates, exact), exact)
  {
    RankedIsSorted(candidates, exact);
    var ranked := Ranked(candidates, exact);
    SameMembers(ranked, candidates);
    hide Before, Tier, SameKey, Ranked;
    forall i, j | 0 <= i < j < |ranked|
      ensures Tier(ranked[i], exact) <= Tier(ranked[j], exact)
    {
      assert ranked[i] in candidates && ranked[j] in candidates;
      BeforeTotal(ranked[i], ranked[j], exact);
    }
  }

  /** Measured ranks closer together than a floor are enough. */
  lemma MeasuredKeepsFloors(candidates: seq<Candidate>, exact: set<string>)
    requires Measured(candidates)
    ensures ByTier(Ranked(candidates, exact), exact)
  {
    forall a, b | a in candidates && b in candidates && Tier(a, exact) < Tier(b, exact)
      ensures Before(a, b, exact)
    {
      hide Less;
    }
    FloorsHold(candidates, exact);
  }

  lemma TieredIsBefore(candidates: seq<Candidate>, exact: set<string>, a: Candidate, b: Candidate)
    requires KeysTell(candidates, exact) && ByTier(Ranked(candidates, exact), exact)
    requires a in candidates && b in candidates && Tier(a, exact) < Tier(b, exact)
    ensures Before(a, b, exact)
  {
    RankedIsSorted(candidates, exact);
    var ranked := Ranked(candidates, exact);
    SameMembers(ranked, candidates);
    hide Before, Tier, SameKey, Ranked;
    BeforeTotal(a, b, exact);
    assert a in ranked && b in ranked;
    var i :| 0 <= i < |ranked| && ranked[i] == a;
    var j :| 0 <= j < |ranked| && ranked[j] == b;
    assert i < j;
  }

  /** The ranking keeps to the floors exactly when no lower-tier line beats a
      higher-tier one on the key. */
  lemma FloorsHoldExactly(candidates: seq<Candidate>, exact: set<string>)
    requires KeysTell(candidates, exact)
    ensures ByTier(Ranked(candidates, exact), exact) <==>
      forall a, b :: a in candidates && b in candidates && Tier(a, exact) < Tier(b, exact) ==> Before(a, b, exact)
  {
    hide Before, Tier, SameKey, Ranked, ByTier, KeysTell;
    if ByTier(Ranked(candidates, exact), exact) {
      forall a, b | a in candidates && b in candidates && Tier(a, exact) < Tier(b, exact)
        ensures Before(a, b, exact)
      {
        TieredIsBefore(candidates, exact, a, b);
      }
    }
    if forall a, b :: a in candidates && b in candidates && Tier(a, exact) < Tier(b, exact) ==> Before(a, b, exact) {
      FloorsHold(candidates, exact);
    }
  }

  /** Within a tier the better measured line comes first; of equals the one of the first node
      name, and of those the first line. */
  lemma WithinATier(candidates: seq<Candidate>, exact: set<string>, i: nat, j: nat)
    requires i < j < |Ranked(candidates, exact)|
    requires Tier(Ranked(candidates, exact)[i], exact) == Tier(Ranked(candidates, exact)[j], exact)
    requires IsRule(Ranked(candidates, exact)[i]) <==> IsRule(Ranked(candidates, exact)[j])
    ensures var a, b := Ranked(candidates, exact)[i], Ranked(candidates, exact)[j];
            && a.measured >= b.measured
            && (a.measured == b.measured ==> !Less(b.name, a.name))
            && (a.measured == b.measured && a.name == b.name ==> !Less(b.line, a.line))
  {
    hide Less, Ranked;
    RankedIsSorted(candidates, exact);
  }
}
