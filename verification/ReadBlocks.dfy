/** What a ranked list becomes: restatements folded, the budget cut, one block per
    node with its rules first. */
module ReadBlocks {
  import opened Ids
  import opened ReadOrder

  // ----------------------------------------------------------- restatements

  /** A coded identifier: a leading hash, a digit, or a joining character. */
  predicate IsIdentifier(token: string) {
    (token != "" && token[0] == '#')
    || exists i :: 0 <= i < |token| && ('0' <= token[i] <= '9' || token[i] in "-._/")
  }

  function Identifiers(words: set<string>): set<string> { set w | w in words && IsIdentifier(w) }

  predicate SameKind(a: Belief, b: Belief) {
    match (a, b)
    case (Fact(k, _), Fact(l, _)) => k == l
    case (Edge(t, _, _), Edge(u, _, _)) => t == u
    case _ => false
  }

  /** At least 0.6 of the words in common, and some words at all. */
  predicate Overlap(a: set<string>, b: set<string>) { a != {} && b != {} && 10 * |a * b| >= 6 * |a + b| }

  predicate Restates(a: Candidate, b: Candidate) {
    && SameKind(a.belief, b.belief)
    && Identifiers(a.belief.words) == Identifiers(b.belief.words)
    && Overlap(a.belief.words, b.belief.words)
  }

  /** Line `i` stands unless a line kept before it says the same. */
  predicate Stands(ranked: seq<Candidate>, i: nat)
    requires i < |ranked|
    decreases i
  {
    forall j: nat :: j < i && Stands(ranked, j) ==> !Restates(ranked[j], ranked[i])
  }

  function Standing(ranked: seq<Candidate>, n: nat): (places: seq<nat>)
    requires n <= |ranked|
    ensures forall k :: 0 <= k < |places| ==> places[k] < n
  {
    if n == 0 then []
    else
      var before := Standing(ranked, n - 1);
      if Stands(ranked, n - 1) then before + [n - 1] else before
  }

  lemma {:induction false} StandingIsSorted(ranked: seq<Candidate>, n: nat)
    requires n <= |ranked|
    ensures forall k :: 0 <= k < |Standing(ranked, n)| ==> Stands(ranked, Standing(ranked, n)[k])
    ensures forall k, l :: 0 <= k < l < |Standing(ranked, n)| ==> Standing(ranked, n)[k] < Standing(ranked, n)[l]
  {
    hide Stands;
    if n > 0 { StandingIsSorted(ranked, n - 1); }
  }

  lemma {:induction false} StandingHas(ranked: seq<Candidate>, n: nat, i: nat) returns (k: nat)
    requires i < n <= |ranked| && Stands(ranked, i)
    ensures k < |Standing(ranked, n)| && Standing(ranked, n)[k] == i
  {
    hide Stands;
    if i == n - 1 { k := |Standing(ranked, n)| - 1; } else { k := StandingHas(ranked, n - 1, i); }
  }

  function At(ranked: seq<Candidate>, places: seq<nat>): (lines: seq<Candidate>)
    requires forall k :: 0 <= k < |places| ==> places[k] < |ranked|
    ensures |lines| == |places|
  {
    seq(|places|, k requires 0 <= k < |places| => ranked[places[k]])
  }

  function Folded(ranked: seq<Candidate>): seq<Candidate> { At(ranked, Standing(ranked, |ranked|)) }

  /** Every folded line has a higher-ranked kept line that says the same. */
  lemma FoldKeepsAVoice(ranked: seq<Candidate>, i: nat)
    requires i < |ranked|
    ensures Stands(ranked, i) || exists j: nat :: j < i && Stands(ranked, j) && Restates(ranked[j], ranked[i])
    ensures Stands(ranked, i) ==> ranked[i] in Folded(ranked)
  {
    hide Restates;
    if Stands(ranked, i) {
      var k := StandingHas(ranked, |ranked|, i);
      assert Folded(ranked)[k] == ranked[i];
    }
  }

  /** A word that names something by a code: it starts with a hash, or holds a digit or a
      joining character. */
  predicate Coded(w: string) {
    (|w| > 0 && w[0] == '#')
    || exists i :: 0 <= i < |w| && (w[i] in "0123456789" || w[i] == '-' || w[i] == '.' || w[i] == '_' || w[i] == '/')
  }

  lemma CodedIs(w: string)
    ensures Coded(w) <==> IsIdentifier(w)
  {
    assert forall c: char :: c in "0123456789" <==> '0' <= c <= '9';
    if i :| 0 <= i < |w| && (w[i] in "0123456789" || w[i] == '-' || w[i] == '.' || w[i] == '_' || w[i] == '/') {
      assert '0' <= w[i] <= '9' || w[i] in "-._/";
    }
    if i :| 0 <= i < |w| && ('0' <= w[i] <= '9' || w[i] in "-._/") {
      assert w[i] in "0123456789" || w[i] == '-' || w[i] == '.' || w[i] == '_' || w[i] == '/';
    }
  }

  /** Two lines are one exactly when they are of one kind, hold the same coded words, and
      share at least six in ten of their words. */
  lemma RestatesExactly(a: Candidate, b: Candidate)
    ensures var x, y := a.belief, b.belief;
            Restates(a, b) <==>
            && (if x.Fact? then y.Fact? && x.kind == y.kind else y.Edge? && x.typ == y.typ)
            && (forall w | Coded(w) :: w in x.words <==> w in y.words)
            && x.words != {} && y.words != {} && 10 * |x.words * y.words| >= 6 * |x.words + y.words|
  {
    var x, y := a.belief.words, b.belief.words;
    forall w ensures Coded(w) <==> IsIdentifier(w) { CodedIs(w); }
    hide Coded, IsIdentifier;
    if forall w | Coded(w) :: w in x <==> w in y {
      assert Identifiers(x) == Identifiers(y);
    } else {
      var w :| Coded(w) && !(w in x <==> w in y);
      assert w in Identifiers(x) <==> w in x;
      assert w in Identifiers(y) <==> w in y;
    }
  }

  /** So a line is dropped only for one ranked above it that is kept and says the same, coded
      word for coded word: lines on two issues never fold, however alike their wording. */
  lemma DroppedForItsLike(ranked: seq<Candidate>, i: nat)
    requires i < |ranked| && !Stands(ranked, i)
    ensures exists j: nat :: j < i && Stands(ranked, j) && Restates(ranked[j], ranked[i])
                             && forall w | Coded(w) :: w in ranked[j].belief.words <==> w in ranked[i].belief.words
  {
    hide Coded;
    FoldKeepsAVoice(ranked, i);
    var j: nat :| j < i && Stands(ranked, j) && Restates(ranked[j], ranked[i]);
    RestatesExactly(ranked[j], ranked[i]);
  }

  lemma FoldedPlaces(ranked: seq<Candidate>) returns (places: seq<nat>)
    ensures |places| == |Folded(ranked)|
    ensures forall k :: 0 <= k < |places| ==>
      places[k] < |ranked| && Stands(ranked, places[k]) && Folded(ranked)[k] == ranked[places[k]]
    ensures forall k, l :: 0 <= k < l < |places| ==> places[k] < places[l]
  {
    hide Stands;
    StandingIsSorted(ranked, |ranked|);
    places := Standing(ranked, |ranked|);
  }

  /** No two kept lines restate one another, and rank order survives. */
  lemma FoldKeepsOrder(ranked: seq<Candidate>, exact: set<string>)
    ensures forall k, l :: 0 <= k < l < |Folded(ranked)| ==> !Restates(Folded(ranked)[k], Folded(ranked)[l])
    ensures InOrder(ranked, exact) ==> InOrder(Folded(ranked), exact)
    ensures ByTier(ranked, exact) ==> ByTier(Folded(ranked), exact)
  {
    hide Restates, Before, Tier, Folded;
    var places := FoldedPlaces(ranked);
    forall k, l | 0 <= k < l < |places|
      ensures !Restates(Folded(ranked)[k], Folded(ranked)[l])
      ensures places[k] < places[l]
    {
      assert Stands(ranked, places[l]) && Stands(ranked, places[k]);
    }
    hide Stands;
  }

  /** Folding what is folded changes nothing. */
  lemma {:induction false} AllStand(lines: seq<Candidate>, n: nat)
    requires n <= |lines|
    requires forall k, l :: 0 <= k < l < |lines| ==> !Restates(lines[k], lines[l])
    ensures Standing(lines, n) == seq(n, k requires 0 <= k < n => k)
  {
    hide Restates;
    if n > 0 {
      AllStand(lines, n - 1);
      assert Stands(lines, n - 1);
    }
  }

  lemma FoldIsIdempotent(ranked: seq<Candidate>)
    ensures Folded(Folded(ranked)) == Folded(ranked)
  {
    hide Restates;
    var lines := Folded(ranked);
    FoldKeepsOrder(ranked, {});
    AllStand(lines, |lines|);
  }

  lemma StandsMeans(ranked: seq<Candidate>, i: nat)
    requires i < |ranked|
    ensures Stands(ranked, i) <==> forall j: nat :: j < i && Stands(ranked, j) ==> !Restates(ranked[j], ranked[i])
  {
    hide Restates;
  }

  /** Comparing against the kept lines decides it. */
  lemma SaidExactly(ranked: seq<Candidate>, i: nat)
    requires i < |ranked|
    ensures Stands(ranked, i) <==>
      forall l :: 0 <= l < |Standing(ranked, i)| ==> !Restates(At(ranked, Standing(ranked, i))[l], ranked[i])
  {
    hide Restates, Stands, Standing, At;
    StandsMeans(ranked, i);
    StandingIsSorted(ranked, i);
    var places := Standing(ranked, i);
    forall l | 0 <= l < |places| ensures At(ranked, places)[l] == ranked[places[l]] { PlaceAt(ranked, places, l); }
    if forall l :: 0 <= l < |places| ==> !Restates(At(ranked, places)[l], ranked[i]) {
      forall j: nat | j < i && Stands(ranked, j)
        ensures !Restates(ranked[j], ranked[i])
      {
        var l := StandingHas(ranked, i, j);
        assert At(ranked, places)[l] == ranked[j];
      }
    }
  }

  lemma PlaceAt(ranked: seq<Candidate>, places: seq<nat>, l: nat)
    requires (forall k :: 0 <= k < |places| ==> places[k] < |ranked|) && l < |places|
    ensures At(ranked, places)[l] == ranked[places[l]]
  {
  }

  method SaidBy(kept: seq<Candidate>, c: Candidate) returns (said: bool)
    ensures said <==> exists l :: 0 <= l < |kept| && Restates(kept[l], c)
  {
    hide Restates;
    said := false;
    for k := 0 to |kept|
      invariant said <==> exists l :: 0 <= l < k && Restates(kept[l], c)
    {
      said := said || Restates(kept[k], c);
    }
  }

  lemma StandingGrows(ranked: seq<Candidate>, i: nat)
    requires i < |ranked|
    ensures At(ranked, Standing(ranked, i + 1))
      == At(ranked, Standing(ranked, i)) + if Stands(ranked, i) then [ranked[i]] else []
  {
    hide Restates, Stands;
  }

  method DedupeLines(ranked: seq<Candidate>) returns (kept: seq<Candidate>, dropped: seq<Candidate>)
    ensures kept == Folded(ranked)
    ensures multiset(kept) + multiset(dropped) == multiset(ranked)
  {
    hide Restates, Stands, At;
    kept, dropped := [], [];
    for i := 0 to |ranked|
      invariant kept == At(ranked, Standing(ranked, i))
      invariant multiset(kept) + multiset(dropped) == multiset(ranked[..i])
    {
      assert ranked[..i + 1] == ranked[..i] + [ranked[i]];
      var said := SaidBy(kept, ranked[i]);
      SaidExactly(ranked, i);
      StandingGrows(ranked, i);
      if said { dropped := dropped + [ranked[i]]; } else { kept := kept + [ranked[i]]; }
    }
    assert ranked[..|ranked|] == ranked;
  }

  // ----------------------------------------------------------------- the cut

  /** About four characters a token, rounded up. */
  function Tokens(line: string): nat { (|line| + 3) / 4 }

  function Spent(lines: seq<Candidate>): nat {
    if lines == [] then 0 else Spent(lines[..|lines| - 1]) + Tokens(lines[|lines| - 1].line)
  }

  /** The longest prefix both budgets allow. */
  ghost predicate IsCut(lines: seq<Candidate>, n: nat, lineBudget: nat, tokenBudget: nat) {
    && n <= |lines| && n <= lineBudget && Spent(lines[..n]) <= tokenBudget
    && (n < |lines| ==> n == lineBudget || Spent(lines[..n + 1]) > tokenBudget)
  }

  lemma {:induction false} SpentGrows(lines: seq<Candidate>, m: nat, n: nat)
    requires m <= n <= |lines|
    ensures Spent(lines[..m]) <= Spent(lines[..n])
  {
    if m < n {
      SpentGrows(lines, m, n - 1);
      assert lines[..n][..n - 1] == lines[..n - 1];
    }
  }

  /** No longer prefix fits, so the cut is the only one. */
  lemma CutIsLongest(lines: seq<Candidate>, n: nat, m: nat, lineBudget: nat, tokenBudget: nat)
    requires IsCut(lines, n, lineBudget, tokenBudget) && n < m <= |lines|
    ensures m > lineBudget || Spent(lines[..m]) > tokenBudget
  {
    SpentGrows(lines, n + 1, m);
  }

  method CutToBudget(lines: seq<Candidate>, lineBudget: nat, tokenBudget: nat)
    returns (kept: Option<seq<Candidate>>, saturated: bool)
    ensures kept.None? <==> lineBudget < 1 || tokenBudget < 1
    ensures kept.Some? ==> |kept.value| <= |lines| && kept.value == lines[..|kept.value|]
    ensures kept.Some? ==> IsCut(lines, |kept.value|, lineBudget, tokenBudget)
    ensures kept.Some? ==> (saturated <==> |kept.value| < |lines|)
  {
    if lineBudget < 1 || tokenBudget < 1 { return None, false; }
    var n, spent := 0, 0;
    while n < |lines| && n < lineBudget && spent + Tokens(lines[n].line) <= tokenBudget
      invariant 0 <= n <= |lines| && n <= lineBudget && spent == Spent(lines[..n]) <= tokenBudget
    {
      assert lines[..n + 1][..n] == lines[..n];
      spent := spent + Tokens(lines[n].line);
      n := n + 1;
    }
    if n < |lines| { assert lines[..n + 1][..n] == lines[..n]; }
    assert lines[..n] == lines[..|lines[..n]|];
    return Some(lines[..n]), n < |lines|;
  }

  // ------------------------------------------------------------------ blocks

  function LinesOf(kept: seq<Candidate>, node: string): seq<Candidate> {
    if kept == [] then []
    else
      var before, last := LinesOf(kept[..|kept| - 1], node), kept[|kept| - 1];
      if last.node == node then before + [last] else before
  }

  /** The nodes in the order they first appear. */
  function BlockOrder(kept: seq<Candidate>): seq<string> {
    if kept == [] then []
    else
      var before, last := BlockOrder(kept[..|kept| - 1]), kept[|kept| - 1];
      if last.node in before then before else before + [last.node]
  }

  lemma {:induction false} EveryNodeOnce(kept: seq<Candidate>)
    ensures forall i :: 0 <= i < |kept| ==> kept[i].node in BlockOrder(kept)
    ensures forall k, l :: 0 <= k < l < |BlockOrder(kept)| ==> BlockOrder(kept)[k] != BlockOrder(kept)[l]
  {
    if kept != [] {
      var front := kept[..|kept| - 1];
      EveryNodeOnce(front);
      assert forall i :: 0 <= i < |front| ==> front[i] == kept[i];
    }
  }

  /** Where a line of each kind reads inside its block. */
  function Place(c: Candidate): nat {
    match c.belief
    case Fact(Rule, _) => 0
    case Fact(Is, _) => 1
    case Fact(Attribute, _) => 2
    case Edge(_, true, _) => 3
    case Edge(_, false, _) => 4
    case Fact(Unsure, _) => 5
  }

  function AtPlace(lines: seq<Candidate>, place: nat): seq<Candidate> {
    if lines == [] then []
    else
      var before, last := AtPlace(lines[..|lines| - 1], place), lines[|lines| - 1];
      if Place(last) == place then before + [last] else before
  }

  /** One block's body: rules, definition, attributes, edges out, edges in, doubts. */
  function Body(lines: seq<Candidate>): seq<Candidate> {
    AtPlace(lines, 0) + AtPlace(lines, 1) + AtPlace(lines, 2) + AtPlace(lines, 3) + AtPlace(lines, 4) + AtPlace(lines, 5)
  }

  lemma {:induction false} AtPlaceCounts(lines: seq<Candidate>, place: nat, x: Candidate)
    ensures multiset(AtPlace(lines, place))[x] == if Place(x) == place then multiset(lines)[x] else 0
  {
    if lines != [] {
      AtPlaceCounts(lines[..|lines| - 1], place, x);
      assert lines == lines[..|lines| - 1] + [lines[|lines| - 1]];
    }
  }

  lemma {:induction false} AtPlaceIsThere(lines: seq<Candidate>, place: nat)
    ensures forall i :: 0 <= i < |AtPlace(lines, place)| ==> Place(AtPlace(lines, place)[i]) == place
  {
    if lines != [] { AtPlaceIsThere(lines[..|lines| - 1], place); }
  }

  lemma BodyCounts(lines: seq<Candidate>, x: Candidate)
    ensures multiset(Body(lines))[x] == multiset(lines)[x]
  {
    AtPlaceCounts(lines, 0, x);
    AtPlaceCounts(lines, 1, x);
    AtPlaceCounts(lines, 2, x);
    AtPlaceCounts(lines, 3, x);
    AtPlaceCounts(lines, 4, x);
    AtPlaceCounts(lines, 5, x);
    assert Place(x) <= 5;
    hide AtPlace, Place;
  }

  lemma OthersFollow(lines: seq<Candidate>) returns (others: seq<Candidate>)
    ensures Body(lines) == AtPlace(lines, 0) + others
    ensures forall i :: 0 <= i < |others| ==> Place(others[i]) != 0
  {
    AtPlaceIsThere(lines, 1);
    AtPlaceIsThere(lines, 2);
    AtPlaceIsThere(lines, 3);
    AtPlaceIsThere(lines, 4);
    AtPlaceIsThere(lines, 5);
    hide AtPlace, Place;
    others := AtPlace(lines, 1) + AtPlace(lines, 2) + AtPlace(lines, 3) + AtPlace(lines, 4) + AtPlace(lines, 5);
  }

  /** The fixed reading order loses no line and repeats none, and rules lead. */
  lemma BodyIsTheLines(lines: seq<Candidate>)
    ensures multiset(Body(lines)) == multiset(lines)
    ensures forall i, j :: 0 <= i < j < |Body(lines)| && IsRule(Body(lines)[j]) ==> IsRule(Body(lines)[i])
  {
    hide Body, AtPlace, Place, IsRule;
    forall x
      ensures multiset(Body(lines))[x] == multiset(lines)[x]
    {
      BodyCounts(lines, x);
    }
    AtPlaceIsThere(lines, 0);
    var others := OthersFollow(lines);
    RulesLead(AtPlace(lines, 0), others);
  }

  lemma RulesLead(rules: seq<Candidate>, others: seq<Candidate>)
    requires forall i :: 0 <= i < |rules| ==> Place(rules[i]) == 0
    requires forall i :: 0 <= i < |others| ==> Place(others[i]) != 0
    ensures forall i, j :: 0 <= i < j < |rules + others| && IsRule((rules + others)[j]) ==> IsRule((rules + others)[i])
  {
    assert forall c: Candidate :: IsRule(c) <==> Place(c) == 0;
  }

  /** The tier a reader sees: named exactly, holding an emitted rule, or neither. */
  ghost function BlockTier(kept: seq<Candidate>, node: string, exact: set<string>): nat {
    if node in exact then 0
    else if exists i :: 0 <= i < |kept| && kept[i].node == node && IsRule(kept[i]) then 1
    else 2
  }

  /** A node's first kept line. */
  lemma {:induction false} FirstLine(kept: seq<Candidate>, k: nat) returns (p: nat)
    requires k < |BlockOrder(kept)|
    ensures p < |kept| && kept[p].node == BlockOrder(kept)[k]
    ensures forall i :: 0 <= i < p ==> kept[i].node != kept[p].node && kept[i].node in BlockOrder(kept)[..k]
  {
    var front, last := kept[..|kept| - 1], kept[|kept| - 1];
    EveryNodeOnce(front);
    if k < |BlockOrder(front)| {
      p := FirstLine(front, k);
      assert BlockOrder(kept)[..k] == BlockOrder(front)[..k];
      assert forall i :: 0 <= i <= p ==> kept[i] == front[i];
    } else {
      p := |kept| - 1;
      assert BlockOrder(kept)[..k] == BlockOrder(front);
      assert forall i :: 0 <= i < p ==> kept[i] == front[i];
    }
  }

  lemma FirstLineSetsTier(kept: seq<Candidate>, k: nat, exact: set<string>) returns (p: nat)
    requires k < |BlockOrder(kept)| && ByTier(kept, exact)
    ensures p < |kept| && kept[p].node == BlockOrder(kept)[k]
    ensures forall i :: 0 <= i < p ==> kept[i].node in BlockOrder(kept)[..k]
    ensures BlockTier(kept, BlockOrder(kept)[k], exact) == Tier(kept[p], exact)
  {
    p := FirstLine(kept, k);
    var node := kept[p].node;
    if node !in exact && exists i :: 0 <= i < |kept| && kept[i].node == node && IsRule(kept[i]) {
      var i :| 0 <= i < |kept| && kept[i].node == node && IsRule(kept[i]);
      assert Tier(kept[p], exact) <= Tier(kept[i], exact);
    }
  }

  /** Blocks come as the exactly named, then those showing a rule, then the rest. */
  lemma BlocksInFloorOrder(kept: seq<Candidate>, exact: set<string>, k: nat, l: nat)
    requires ByTier(kept, exact) && k < l < |BlockOrder(kept)|
    ensures BlockTier(kept, BlockOrder(kept)[k], exact) <= BlockTier(kept, BlockOrder(kept)[l], exact)
  {
    var p := FirstLineSetsTier(kept, k, exact);
    var q := FirstLineSetsTier(kept, l, exact);
    EveryNodeOnce(kept);
    hide BlockTier, Tier;
    assert !(q < p);
  }

  lemma PrefixKeepsTiers(lines: seq<Candidate>, n: nat, exact: set<string>)
    requires n <= |lines| && ByTier(lines, exact)
    ensures ByTier(lines[..n], exact)
  {
    hide Tier;
  }

  /** The whole read: with measured ranks less than a floor apart, whatever is
      folded and wherever the budget falls, the blocks keep the floor order. */
  lemma ReadKeepsFloorOrder(candidates: seq<Candidate>, exact: set<string>, n: nat, k: nat, l: nat)
    requires Measured(candidates) && n <= |Folded(Ranked(candidates, exact))|
    requires k < l < |BlockOrder(Folded(Ranked(candidates, exact))[..n])|
    ensures var kept := Folded(Ranked(candidates, exact))[..n];
      BlockTier(kept, BlockOrder(kept)[k], exact) <= BlockTier(kept, BlockOrder(kept)[l], exact)
  {
    hide Measured, Ranked, Folded, BlockOrder, BlockTier, ByTier;
    MeasuredKeepsFloors(candidates, exact);
    var ranked := Ranked(candidates, exact);
    FoldedTiers(ranked, exact);
    PrefixKeepsTiers(Folded(ranked), n, exact);
    BlocksInFloorOrder(Folded(ranked)[..n], exact, k, l);
  }

  lemma FoldedTiers(ranked: seq<Candidate>, exact: set<string>)
    requires ByTier(ranked, exact)
    ensures ByTier(Folded(ranked), exact)
  {
    FoldKeepsOrder(ranked, exact);
  }

  // ------------------------------------------------------------- conservation

  lemma {:induction false} LinesOfCounts(kept: seq<Candidate>, node: string, x: Candidate)
    ensures multiset(LinesOf(kept, node))[x] == if x.node == node then multiset(kept)[x] else 0
  {
    if kept != [] {
      LinesOfCounts(kept[..|kept| - 1], node, x);
      assert kept == kept[..|kept| - 1] + [kept[|kept| - 1]];
    }
  }

  /** Every kept line is emitted as often as it was kept, in its own node's block and
      in no other. */
  lemma BlocksEmitTheKept(kept: seq<Candidate>, x: Candidate, node: string)
    ensures x in kept ==> x.node in BlockOrder(kept)
    ensures multiset(Body(LinesOf(kept, node)))[x] == if x.node == node then multiset(kept)[x] else 0
  {
    EveryNodeOnce(kept);
    LinesOfCounts(kept, node, x);
    BodyIsTheLines(LinesOf(kept, node));
  }

  lemma OrderGrows(kept: seq<Candidate>, i: nat)
    requires i < |kept|
    ensures BlockOrder(kept[..i + 1])
      == BlockOrder(kept[..i]) + if kept[i].node in BlockOrder(kept[..i]) then [] else [kept[i].node]
  {
    assert kept[..i + 1][..i] == kept[..i] && kept[..i + 1][i] == kept[i];
  }

  lemma LinesGrow(kept: seq<Candidate>, i: nat)
    requires i < |kept|
    ensures forall node ::
      LinesOf(kept[..i + 1], node) == LinesOf(kept[..i], node) + if kept[i].node == node then [kept[i]] else []
  {
    assert kept[..i + 1][..i] == kept[..i] && kept[..i + 1][i] == kept[i];
  }

  lemma {:induction false} UnseenHasNoLines(kept: seq<Candidate>, node: string)
    requires node !in BlockOrder(kept)
    ensures LinesOf(kept, node) == []
  {
    if kept != [] {
      var front := kept[..|kept| - 1];
      EveryNodeOnce(kept);
      assert kept[|kept| - 1].node in BlockOrder(kept);
      assert node !in BlockOrder(front);
      UnseenHasNoLines(front, node);
    }
  }

  method GroupByNode(kept: seq<Candidate>) returns (order: seq<string>, grouped: map<string, seq<Candidate>>)
    ensures order == BlockOrder(kept)
    ensures forall node :: node in grouped <==> node in order
    ensures forall node :: node in grouped ==> grouped[node] == LinesOf(kept, node)
  {
    hide BlockOrder, LinesOf;
    order, grouped := [], map[];
    assert BlockOrder(kept[..0]) == [] by { EmptyOrder(kept[..0]); }
    for i := 0 to |kept|
      invariant order == BlockOrder(kept[..i])
      invariant forall node :: node in grouped <==> node in order
      invariant forall node :: node in grouped ==> grouped[node] == LinesOf(kept[..i], node)
    {
      var c := kept[i];
      OrderGrows(kept, i);
      LinesGrow(kept, i);
      if c.node !in grouped {
        UnseenHasNoLines(kept[..i], c.node);
        order := order + [c.node];
        grouped := grouped[c.node := [c]];
      } else {
        grouped := grouped[c.node := grouped[c.node] + [c]];
      }
    }
    assert kept[..|kept|] == kept;
  }

  lemma EmptyOrder(kept: seq<Candidate>)
    requires kept == []
    ensures BlockOrder(kept) == []
  {
  }

  // ------------------------------------------------------------------- limit

  function SharedRule(node: string, measured: real): Candidate {
    Candidate(node, node, Fact(Rule, {"stub"}), "rule: never a stub", measured)
  }

  function Trait(node: string, word: string, measured: real): Candidate {
    Candidate(node, node, Fact(Attribute, {word}), "attribute: " + word, measured)
  }

  ghost function TwoHolders(): seq<Candidate> {
    [SharedRule("a", 3.0), SharedRule("b", 2.0), Trait("c", "fast", 1.5), Trait("b", "old", 1.0)]
  }

  lemma HoldersRestate()
    ensures Restates(TwoHolders()[0], TwoHolders()[1])
    ensures !Restates(TwoHolders()[0], TwoHolders()[2]) && !Restates(TwoHolders()[0], TwoHolders()[3])
    ensures !Restates(TwoHolders()[2], TwoHolders()[3])
  {
    hide IsIdentifier;
    assert {"stub"} * {"stub"} == {"stub"} == {"stub"} + {"stub"};
    assert !Overlap({"fast"}, {"old"}) by { assert {"fast"} * {"old"} == {}; }
  }

  lemma StandsInFour(r: seq<Candidate>)
    requires |r| == 4 && Restates(r[0], r[1])
    requires !Restates(r[0], r[2]) && !Restates(r[0], r[3]) && !Restates(r[2], r[3])
    ensures Stands(r, 0) && !Stands(r, 1) && Stands(r, 2) && Stands(r, 3)
  {
    StandsMeans(r, 0);
    StandsMeans(r, 1);
    StandsMeans(r, 2);
    StandsMeans(r, 3);
    hide Restates, Stands;
  }

  lemma FoldOfFour(r: seq<Candidate>)
    requires |r| == 4 && Restates(r[0], r[1])
    requires !Restates(r[0], r[2]) && !Restates(r[0], r[3]) && !Restates(r[2], r[3])
    ensures Folded(r) == [r[0], r[2], r[3]]
  {
    StandsInFour(r);
    hide Restates, Stands;
    StandingGrows(r, 0);
    StandingGrows(r, 1);
    StandingGrows(r, 2);
    StandingGrows(r, 3);
    assert At(r, Standing(r, 0)) == [];
    hide At, Standing;
  }

  lemma HoldersFold()
    ensures Folded(TwoHolders()) == [TwoHolders()[0], TwoHolders()[2], TwoHolders()[3]]
  {
    HoldersRestate();
    hide Restates, Folded;
    FoldOfFour(TwoHolders());
  }

  lemma HoldersOrder(kept: seq<Candidate>)
    requires |kept| == 3 && kept[0].node == "a" && kept[1].node == "c" && kept[2].node == "b"
    ensures BlockOrder(kept) == ["a", "c", "b"]
  {
    hide BlockOrder, LinesOf;
    EmptyOrder(kept[..0]);
    OrderGrows(kept, 0);
    assert BlockOrder(kept[..1]) == ["a"];
    OrderGrows(kept, 1);
    assert BlockOrder(kept[..2]) == ["a", "c"];
    OrderGrows(kept, 2);
    assert kept[..3] == kept;
  }

  lemma HoldersRanked()
    ensures InOrder(TwoHolders(), {}) && ByTier(TwoHolders(), {}) && IsRule(TwoHolders()[1])
  {
    hide Less;
  }

  /** Two nodes hold one rule. The fold keeps it on the first, and the second node's
      block then reads after one that holds no rule at all. */
  lemma FoldTakesAnOnlyRule()
    ensures InOrder(TwoHolders(), {}) && ByTier(TwoHolders(), {})
    ensures IsRule(TwoHolders()[1]) && TwoHolders()[1] !in Folded(TwoHolders())
    ensures BlockOrder(Folded(TwoHolders())) == ["a", "c", "b"]
  {
    HoldersRanked();
    HoldersFold();
    hide Folded, BlockOrder, InOrder, ByTier;
    HoldersOrder(Folded(TwoHolders()));
  }
}
