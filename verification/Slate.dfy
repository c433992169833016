/** The forced-merge slate: which nodes go, into which, on what evidence. */
module Slate {
  import opened Ids
  import opened GraphModel

  datatype ValuedNode = ValuedNode(id: Id, value: real)

  datatype MergePair = MergePair(doomed: Id, survivor: Id, linkWeight: nat, turns: nat, similarity: real)

  /** What the ledger and the vectors say about pairs of nodes. */
  datatype Ties = Ties(cooccurrence: map<Id, map<Id, nat>>, turnLinks: map<(Id, Id), nat>, similarity: map<(Id, Id), real>)

  function PairKey(a: Id, b: Id): (Id, Id) { if Less(a, b) then (a, b) else (b, a) }

  function Entries(t: Ties, doomed: Id, c: Id): nat {
    if doomed in t.cooccurrence && c in t.cooccurrence[doomed] then t.cooccurrence[doomed][c] else 0
  }

  function Turns(t: Ties, doomed: Id, c: Id): nat {
    if PairKey(doomed, c) in t.turnLinks then t.turnLinks[PairKey(doomed, c)] else 0
  }

  function Similarity(t: Ties, doomed: Id, c: Id): real {
    if (doomed, c) in t.similarity then t.similarity[(doomed, c)] else 0.0
  }

  function Pressure(count: int, maxNodes: int): Outcome<nat> {
    if count < 0 || maxNodes < 1 then Err(ValueError) else Ok(if count > maxNodes then count - maxNodes else 0)
  }

  // ------------------------------------------------------------- the orders

  /** Value ascending, then id: who is doomed, and which half of a pair survives. */
  predicate Lower(a: ValuedNode, b: ValuedNode) { a.value < b.value || (a.value == b.value && Less(a.id, b.id)) }

  /** The peer order: shared entries, then shared turns, then resemblance, then the lower id. */
  predicate Closer(t: Ties, doomed: Id, a: Id, b: Id) {
    var ea, eb := Entries(t, doomed, a), Entries(t, doomed, b);
    var ta, tb := Turns(t, doomed, a), Turns(t, doomed, b);
    var sa, sb := Similarity(t, doomed, a), Similarity(t, doomed, b);
    ea > eb || (ea == eb && (ta > tb || (ta == tb && (sa > sb || (sa == sb && Less(a, b))))))
  }

  ghost predicate IsLowest(v: ValuedNode, from: set<ValuedNode>) {
    v in from && forall o :: o in from && o != v ==> Lower(v, o)
  }

  ghost predicate IsPeer(t: Ties, doomed: Id, v: ValuedNode, from: set<ValuedNode>) {
    v in from && forall o :: o in from && o != v ==> Closer(t, doomed, v.id, o.id)
  }

  ghost predicate OneNodeEach(nodes: set<ValuedNode>) { forall a, b :: a in nodes && b in nodes && a.id == b.id ==> a == b }

  lemma LowestIsUnique(a: ValuedNode, b: ValuedNode, from: set<ValuedNode>)
    requires IsLowest(a, from) && IsLowest(b, from)
    ensures a == b
  {
    hide Less;
    if a != b { assert Lower(a, b) && Lower(b, a); LessAsymmetricTo(a.id, b.id); }
  }

  lemma PeerIsUnique(t: Ties, doomed: Id, a: ValuedNode, b: ValuedNode, from: set<ValuedNode>)
    requires IsPeer(t, doomed, a, from) && IsPeer(t, doomed, b, from)
    ensures a == b
  {
    hide Less, Entries, Turns, Similarity;
    if a != b { assert Closer(t, doomed, a.id, b.id) && Closer(t, doomed, b.id, a.id); LessAsymmetricTo(a.id, b.id); }
  }

  lemma LessAsymmetricTo(a: Id, b: Id)
    ensures Less(a, b) ==> !Less(b, a)
  {
    if Less(a, b) { LessAsymmetric(a, b); }
  }

  /** The pair the two nodes make: the lower-valued half is folded into the other. */
  function PairOf(t: Ties, doomed: ValuedNode, peer: ValuedNode): MergePair {
    var e, n, s := Entries(t, doomed.id, peer.id), Turns(t, doomed.id, peer.id), Similarity(t, doomed.id, peer.id);
    if Lower(peer, doomed) then MergePair(peer.id, doomed.id, e, n, s) else MergePair(doomed.id, peer.id, e, n, s)
  }

  /** *pairs* is the slate over *nodes*: repeatedly the lowest node and its closest peer. */
  ghost predicate IsSlate(t: Ties, nodes: set<ValuedNode>, pairs: seq<MergePair>)
    decreases |pairs|
  {
    pairs == [] ||
    exists doomed, peer ::
      IsLowest(doomed, nodes) && IsPeer(t, doomed.id, peer, nodes - {doomed}) && pairs[0] == PairOf(t, doomed, peer)
      && IsSlate(t, nodes - {doomed, peer}, pairs[1..])
  }

  // ------------------------------------------------- what the slate promises

  ghost predicate ValueOf(nodes: set<ValuedNode>, id: Id, value: real) { ValuedNode(id, value) in nodes }

  /** The pair joins two different nodes, and what survives is worth at least what goes. */
  ghost predicate Sensible(nodes: set<ValuedNode>, p: MergePair) {
    p.doomed != p.survivor &&
    exists d, s :: ValueOf(nodes, p.doomed, d) && ValueOf(nodes, p.survivor, s) && d <= s
  }

  predicate Apart(p: MergePair, q: MergePair) { {p.doomed, p.survivor} !! {q.doomed, q.survivor} }

  lemma SensibleAmong(nodes: set<ValuedNode>, fewer: set<ValuedNode>, p: MergePair)
    requires fewer <= nodes && Sensible(fewer, p)
    ensures Sensible(nodes, p)
  {
    var d, s :| ValueOf(fewer, p.doomed, d) && ValueOf(fewer, p.survivor, s) && d <= s;
    assert ValueOf(nodes, p.doomed, d) && ValueOf(nodes, p.survivor, s);
  }

  lemma PairSensible(t: Ties, nodes: set<ValuedNode>, doomed: ValuedNode, peer: ValuedNode)
    requires OneNodeEach(nodes) && IsLowest(doomed, nodes) && peer in nodes && peer != doomed
    ensures Sensible(nodes, PairOf(t, doomed, peer)) && doomed.id != peer.id
  {
    hide Less, Entries, Turns, Similarity;
    assert ValueOf(nodes, doomed.id, doomed.value) && ValueOf(nodes, peer.id, peer.value);
    assert Lower(doomed, peer);
    LessAsymmetricTo(doomed.id, peer.id);
  }

  lemma PairApart(t: Ties, nodes: set<ValuedNode>, doomed: ValuedNode, peer: ValuedNode, p: MergePair)
    requires OneNodeEach(nodes) && doomed in nodes && peer in nodes && Sensible(nodes - {doomed, peer}, p)
    ensures Apart(PairOf(t, doomed, peer), p)
  {
    hide Less, Entries, Turns, Similarity;
    var rest := nodes - {doomed, peer};
    var d, s :| ValueOf(rest, p.doomed, d) && ValueOf(rest, p.survivor, s) && d <= s;
    assert ValuedNode(p.doomed, d) in nodes && ValuedNode(p.survivor, s) in nodes;
  }

  /** Every pair of the slate is sensible, and no node is in two of them. */
  lemma {:induction false} SlateIsDisjoint(t: Ties, nodes: set<ValuedNode>, pairs: seq<MergePair>)
    requires OneNodeEach(nodes) && IsSlate(t, nodes, pairs)
    ensures forall i :: 0 <= i < |pairs| ==> Sensible(nodes, pairs[i])
    ensures forall i, j :: 0 <= i < j < |pairs| ==> Apart(pairs[i], pairs[j])
    decreases |pairs|
  {
    hide Less, Closer, Sensible, Apart, PairOf, Lower;
    if pairs != [] {
      var doomed, peer :|
        IsLowest(doomed, nodes) && IsPeer(t, doomed.id, peer, nodes - {doomed}) && pairs[0] == PairOf(t, doomed, peer)
        && IsSlate(t, nodes - {doomed, peer}, pairs[1..]);
      SlateIsDisjoint(t, nodes - {doomed, peer}, pairs[1..]);
      PairSensible(t, nodes, doomed, peer);
      forall i | 0 < i < |pairs| ensures Sensible(nodes, pairs[i]) && Apart(pairs[0], pairs[i]) {
        assert pairs[i] == pairs[1..][i - 1];
        PairApart(t, nodes, doomed, peer, pairs[i]);
        SensibleAmong(nodes, nodes - {doomed, peer}, pairs[i]);
      }
      forall i, j | 0 <= i < j < |pairs| ensures Apart(pairs[i], pairs[j]) {
        if i > 0 { assert pairs[i] == pairs[1..][i - 1] && pairs[j] == pairs[1..][j - 1]; }
      }
    }
  }

  /** The slate is a function of the nodes, not of the order they were listed in. */
  lemma {:induction false} SlateIsUnique(t: Ties, nodes: set<ValuedNode>, a: seq<MergePair>, b: seq<MergePair>)
    requires IsSlate(t, nodes, a) && IsSlate(t, nodes, b) && |a| == |b|
    ensures a == b
    decreases |a|
  {
    hide Less, Closer, Lower, PairOf;
    if a != [] {
      var d, p :| IsLowest(d, nodes) && IsPeer(t, d.id, p, nodes - {d}) && a[0] == PairOf(t, d, p)
                  && IsSlate(t, nodes - {d, p}, a[1..]);
      var e, q :| IsLowest(e, nodes) && IsPeer(t, e.id, q, nodes - {e}) && b[0] == PairOf(t, e, q)
                  && IsSlate(t, nodes - {e, q}, b[1..]);
      LowestIsUnique(d, e, nodes);
      PeerIsUnique(t, d.id, p, q, nodes - {d});
      SlateIsUnique(t, nodes - {d, p}, a[1..], b[1..]);
      assert a == [a[0]] + a[1..] && b == [b[0]] + b[1..];
    }
  }

  // -------------------------------------------------------------- computing

  ghost function SetOf(nodes: seq<ValuedNode>): set<ValuedNode> { set v | v in nodes }

  predicate DistinctIds(nodes: seq<ValuedNode>) { forall i, j :: 0 <= i < j < |nodes| ==> nodes[i].id != nodes[j].id }

  predicate Ordered(nodes: seq<ValuedNode>) { forall i, j :: 0 <= i < j < |nodes| ==> Lower(nodes[i], nodes[j]) }

  lemma LowerTotal(a: ValuedNode, b: ValuedNode)
    requires a.id != b.id
    ensures Lower(a, b) <==> !Lower(b, a)
  {
    hide Less;
    LessTotal(a.id, b.id);
    LessAsymmetricTo(a.id, b.id);
  }

  lemma LowerTransitive(a: ValuedNode, b: ValuedNode, c: ValuedNode)
    requires Lower(a, b) && Lower(b, c)
    ensures Lower(a, c)
  {
    hide Less;
    if a.value == b.value == c.value { LessTransitive(a.id, b.id, c.id); }
  }

  method InsertByValue(v: ValuedNode, sorted: seq<ValuedNode>) returns (out: seq<ValuedNode>)
    requires Ordered(sorted) && forall o :: o in sorted ==> o.id != v.id
    ensures Ordered(out) && multiset(out) == multiset(sorted) + multiset{v}
  {
    hide Less, Lower;
    var k := 0;
    while k < |sorted| && Lower(sorted[k], v)
      invariant k <= |sorted| && forall j :: 0 <= j < k ==> Lower(sorted[j], v)
    {
      k := k + 1;
    }
    forall j | k <= j < |sorted| ensures Lower(v, sorted[j]) {
      LowerTotal(v, sorted[k]);
      if j > k { LowerTransitive(v, sorted[k], sorted[j]); }
    }
    out := sorted[..k] + [v] + sorted[k..];
    assert sorted == sorted[..k] + sorted[k..];
  }

  method SortByValue(nodes: seq<ValuedNode>) returns (sorted: seq<ValuedNode>)
    requires DistinctIds(nodes)
    ensures Ordered(sorted) && multiset(sorted) == multiset(nodes)
  {
    hide Less, Lower;
    sorted := [];
    for i := 0 to |nodes|
      invariant Ordered(sorted) && multiset(sorted) == multiset(nodes[..i])
    {
      forall o | o in sorted ensures o.id != nodes[i].id {
        assert o in multiset(nodes[..i]);
        var k :| 0 <= k < i && nodes[k] == o;
      }
      sorted := InsertByValue(nodes[i], sorted);
      assert nodes[..i + 1] == nodes[..i] + [nodes[i]];
    }
    assert nodes[..|nodes|] == nodes;
  }

  method TopEntries(t: Ties, doomed: Id, remaining: seq<ValuedNode>) returns (top: nat)
    requires remaining != []
    ensures forall o :: o in remaining ==> Entries(t, doomed, o.id) <= top
    ensures exists o :: o in remaining && Entries(t, doomed, o.id) == top
  {
    hide Entries;
    top := Entries(t, doomed, remaining[0].id);
    for i := 1 to |remaining|
      invariant forall o :: o in remaining[..i] ==> Entries(t, doomed, o.id) <= top
      invariant exists o :: o in remaining[..i] && Entries(t, doomed, o.id) == top
    {
      assert remaining[..i + 1] == remaining[..i] + [remaining[i]];
      if Entries(t, doomed, remaining[i].id) > top {
        top := Entries(t, doomed, remaining[i].id);
        assert remaining[i] in remaining[..i + 1];
      }
    }
    assert remaining[..|remaining|] == remaining;
  }

  /** The most turns shared by a candidate at the top entry count. */
  method TopTurns(t: Ties, doomed: Id, remaining: seq<ValuedNode>, top: nat) returns (shared: nat)
    requires exists o :: o in remaining && Entries(t, doomed, o.id) == top
    ensures forall o :: o in remaining && Entries(t, doomed, o.id) == top ==> Turns(t, doomed, o.id) <= shared
    ensures exists o :: o in remaining && Tops(t, doomed, o.id, top, shared)
  {
    hide Entries, Turns;
    var best: int := -1;
    for i := 0 to |remaining|
      invariant forall o :: o in remaining[..i] && Entries(t, doomed, o.id) == top ==> Turns(t, doomed, o.id) <= best
      invariant best >= 0 ==> exists o :: o in remaining[..i] && Tops(t, doomed, o.id, top, best)
    {
      assert remaining[..i + 1] == remaining[..i] + [remaining[i]];
      if Entries(t, doomed, remaining[i].id) == top && Turns(t, doomed, remaining[i].id) > best {
        best := Turns(t, doomed, remaining[i].id);
        assert remaining[i] in remaining[..i + 1] && Tops(t, doomed, remaining[i].id, top, best);
      }
    }
    assert remaining[..|remaining|] == remaining;
    shared := best;
  }

  /** Of the candidates still tied, the one that resembles most; the lower id on a tie. */
  method Nearest(t: Ties, doomed: Id, remaining: seq<ValuedNode>, top: nat, shared: nat) returns (k: nat)
    requires DistinctIds(remaining) && exists o :: o in remaining && Tops(t, doomed, o.id, top, shared)
    ensures k < |remaining| && Tops(t, doomed, remaining[k].id, top, shared)
    ensures forall j :: 0 <= j < |remaining| && j != k && Tops(t, doomed, remaining[j].id, top, shared) ==>
                          NearerTie(t, doomed, remaining[k].id, remaining[j].id)
  {
    hide Tops, NearerTie;
    var best: int := -1;
    for i := 0 to |remaining|
      invariant -1 <= best < i
      invariant best == -1 ==> forall j :: 0 <= j < i ==> !Tops(t, doomed, remaining[j].id, top, shared)
      invariant best >= 0 ==> Tops(t, doomed, remaining[best].id, top, shared)
      invariant best >= 0 ==> forall j :: 0 <= j < i && j != best && Tops(t, doomed, remaining[j].id, top, shared) ==>
                                            NearerTie(t, doomed, remaining[best].id, remaining[j].id)
    {
      if Tops(t, doomed, remaining[i].id, top, shared) {
        if best == -1 {
          best := i;
        } else {
          TieTotal(t, doomed, remaining[i].id, remaining[best].id);
          if NearerTie(t, doomed, remaining[i].id, remaining[best].id) {
            forall j | 0 <= j < i && j != best && Tops(t, doomed, remaining[j].id, top, shared)
              ensures NearerTie(t, doomed, remaining[i].id, remaining[j].id)
            {
              TieTransitive(t, doomed, remaining[i].id, remaining[best].id, remaining[j].id);
            }
            best := i;
          }
        }
      }
    }
    k := best;
  }

  /** The closest candidate, criterion by criterion. */
  method ChoosePeer(t: Ties, doomed: Id, remaining: seq<ValuedNode>) returns (k: nat)
    requires remaining != [] && DistinctIds(remaining)
    ensures k < |remaining| && IsPeer(t, doomed, remaining[k], SetOf(remaining))
  {
    hide Less, Entries, Turns, Similarity;
    var top := TopEntries(t, doomed, remaining);
    var shared := TopTurns(t, doomed, remaining, top);
    k := Nearest(t, doomed, remaining, top, shared);
    forall o | o in SetOf(remaining) && o != remaining[k] ensures Closer(t, doomed, remaining[k].id, o.id) {
      var j :| 0 <= j < |remaining| && remaining[j] == o;
    }
  }

  /** Exactly *pressure* pairs, or the reason there can be none. */
  method MergeSlate(nodes: seq<ValuedNode>, pressure: int, t: Ties) returns (out: Outcome<seq<MergePair>>)
    ensures out.Err? <==> pressure < 0 || (pressure > 0 && (!DistinctIds(nodes) || |nodes| < 2 * pressure))
    ensures out.Ok? ==> |out.value| == pressure && IsSlate(t, SetOf(nodes), out.value)
  {
    hide Less, Lower, Closer, IsSlate, IsLowest, IsPeer;
    if pressure < 0 { return Err(ValueError); }
    if pressure == 0 {
      EmptySlate(t, SetOf(nodes));
      return Ok([]);
    }
    if !DistinctIds(nodes) || |nodes| < 2 * pressure { return Err(ValueError); }
    var remaining := SortByValue(nodes);
    SortedSame(nodes, remaining);
    var pairs: seq<MergePair> := [];
    assert forall rest: seq<MergePair> :: pairs + rest == rest;
    while |pairs| < pressure
      invariant |pairs| <= pressure && |remaining| == |nodes| - 2 * |pairs|
      invariant Ordered(remaining) && DistinctIds(remaining)
      invariant forall rest :: IsSlate(t, SetOf(remaining), rest) && |pairs| + |rest| == pressure ==>
                                 IsSlate(t, SetOf(nodes), pairs + rest)
    {
      var doomed, others := remaining[0], remaining[1..];
      FirstIsLowest(remaining);
      var k := ChoosePeer(t, doomed.id, others);
      var peer := others[k];
      var left := others[..k] + others[k + 1..];
      Consumed(remaining, k);
      assert SetOf(others) == SetOf(remaining) - {doomed} by { Consumed(remaining, k); }
      forall rest | IsSlate(t, SetOf(left), rest) && |pairs| + 1 + |rest| == pressure
        ensures IsSlate(t, SetOf(nodes), pairs + [PairOf(t, doomed, peer)] + rest)
      {
        SlateCons(t, SetOf(remaining), doomed, peer, rest);
        assert pairs + ([PairOf(t, doomed, peer)] + rest) == pairs + [PairOf(t, doomed, peer)] + rest;
      }
      remaining := left;
      pairs := pairs + [PairOf(t, doomed, peer)];
    }
    EmptySlate(t, SetOf(remaining));
    assert pairs + [] == pairs;
    return Ok(pairs);
  }

  lemma EmptySlate(t: Ties, nodes: set<ValuedNode>)
    ensures IsSlate(t, nodes, [])
  {
  }

  lemma SlateCons(t: Ties, nodes: set<ValuedNode>, doomed: ValuedNode, peer: ValuedNode, rest: seq<MergePair>)
    requires IsLowest(doomed, nodes) && IsPeer(t, doomed.id, peer, nodes - {doomed})
    requires IsSlate(t, nodes - {doomed, peer}, rest)
    ensures IsSlate(t, nodes, [PairOf(t, doomed, peer)] + rest)
  {
    hide IsLowest, IsPeer, PairOf;
    assert ([PairOf(t, doomed, peer)] + rest)[1..] == rest;
  }

  lemma SortedSame(nodes: seq<ValuedNode>, sorted: seq<ValuedNode>)
    requires multiset(sorted) == multiset(nodes) && DistinctIds(nodes) && Ordered(sorted)
    ensures |sorted| == |nodes| && SetOf(sorted) == SetOf(nodes) && DistinctIds(sorted)
  {
    hide Lower;
    assert |multiset(sorted)| == |sorted| && |multiset(nodes)| == |nodes|;
    forall v ensures v in SetOf(sorted) <==> v in SetOf(nodes) {
      assert v in sorted <==> v in multiset(sorted);
      assert v in nodes <==> v in multiset(nodes);
    }
    OrderedDistinct(sorted);
    forall i, j | 0 <= i < j < |sorted| ensures sorted[i].id != sorted[j].id {
      assert sorted[i] in multiset(nodes) && sorted[j] in multiset(nodes);
      assert sorted[i] != sorted[j];
    }
  }

  lemma OrderedDistinct(sorted: seq<ValuedNode>)
    requires Ordered(sorted)
    ensures forall i, j :: 0 <= i < j < |sorted| ==> sorted[i] != sorted[j]
  {
    hide Less;
    forall i, j | 0 <= i < j < |sorted| ensures sorted[i] != sorted[j] {
      assert Lower(sorted[i], sorted[j]);
      LessIrreflexive(sorted[i].id);
    }
  }

  lemma FirstIsLowest(remaining: seq<ValuedNode>)
    requires remaining != [] && Ordered(remaining)
    ensures IsLowest(remaining[0], SetOf(remaining))
  {
    hide Lower;
  }

  lemma Consumed(remaining: seq<ValuedNode>, k: nat)
    requires Ordered(remaining) && DistinctIds(remaining) && 1 + k < |remaining|
    ensures var others := remaining[1..];
            var left := others[..k] + others[k + 1..];
            && SetOf(others) == SetOf(remaining) - {remaining[0]}
            && SetOf(left) == SetOf(remaining) - {remaining[0], others[k]}
            && Ordered(left) && DistinctIds(left) && DistinctIds(others) && |left| == |remaining| - 2
  {
    hide Lower;
    var others := remaining[1..];
    var left := others[..k] + others[k + 1..];
    assert forall i :: 0 <= i < |others| ==> others[i] == remaining[i + 1];
    assert forall i :: 0 <= i < |left| ==> left[i] == remaining[if i < k then i + 1 else i + 2];
    forall v | v in SetOf(remaining) - {remaining[0], others[k]} ensures v in SetOf(left) {
      var i :| 0 <= i < |remaining| && remaining[i] == v;
      assert left[if i - 1 < k then i - 1 else i - 2] == v;
    }
    forall v | v in SetOf(remaining) - {remaining[0]} ensures v in SetOf(others) {
      var i :| 0 <= i < |remaining| && remaining[i] == v;
      assert others[i - 1] == v;
    }
  }

  predicate Tops(t: Ties, doomed: Id, c: Id, top: nat, shared: int) {
    Entries(t, doomed, c) == top && Turns(t, doomed, c) == shared
  }

  predicate NearerTie(t: Ties, doomed: Id, a: Id, b: Id) {
    Similarity(t, doomed, a) > Similarity(t, doomed, b) ||
    (Similarity(t, doomed, a) == Similarity(t, doomed, b) && Less(a, b))
  }

  lemma TieTotal(t: Ties, doomed: Id, a: Id, b: Id)
    requires a != b
    ensures NearerTie(t, doomed, a, b) <==> !NearerTie(t, doomed, b, a)
  {
    hide Less, Similarity;
    LessTotal(a, b);
    LessAsymmetricTo(a, b);
  }

  lemma TieTransitive(t: Ties, doomed: Id, a: Id, b: Id, c: Id)
    requires NearerTie(t, doomed, a, b) && NearerTie(t, doomed, b, c)
    ensures NearerTie(t, doomed, a, c)
  {
    hide Less, Similarity;
    if Less(a, b) && Less(b, c) { LessTransitive(a, b, c); }
  }
}
