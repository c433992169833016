/** What the slate reads: for each pair in turn, the numbers the ledger and the vectors hold
    for it, and that no node left over had better ones. */
module SlateEvidence {
  import opened Ids
  import opened GraphModel
  import opened Slate

  function Lookup<K, V>(m: map<K, V>, k: K, none: V): V { if k in m then m[k] else none }

  /** The nodes the first *i* pairs leave. */
  ghost function Left(nodes: set<ValuedNode>, pairs: seq<MergePair>, i: nat): set<ValuedNode>
    requires i <= |pairs|
  {
    set v | v in nodes && forall k :: 0 <= k < i ==> v.id != pairs[k].doomed && v.id != pairs[k].survivor
  }

  /** Ledger entries naming both, as stored under the doomed node. */
  function SharedEntries(t: Ties, doomed: Id, peer: Id): nat { Lookup(Lookup(t.cooccurrence, doomed, map[]), peer, 0) }

  /** Turns they share, as stored under the two ids in order. */
  function SharedTurns(t: Ties, a: Id, b: Id): nat { Lookup(t.turnLinks, if Less(a, b) then (a, b) else (b, a), 0) }

  function Likeness(t: Ties, a: Id, b: Id): real { Lookup(t.similarity, (a, b), 0.0) }

  /** The pair carries the stored numbers, its doomed node is the least worth of those left,
      and of the rest none had more shared entries with it than the survivor, none of the
      equals more shared turns, none of those a greater likeness, none of those a lower id. */
  ghost predicate Warranted(t: Ties, left: set<ValuedNode>, p: MergePair) {
    && p.linkWeight == SharedEntries(t, p.doomed, p.survivor)
    && p.turns == SharedTurns(t, p.doomed, p.survivor)
    && p.similarity == Likeness(t, p.doomed, p.survivor)
    && (exists d, s :: d in left && s in left && d.id == p.doomed && s.id == p.survivor && LeastWorth(left, d))
    && forall o :: o in left && o.id != p.doomed && o.id != p.survivor ==> NoBetter(t, p, o.id)
  }

  ghost predicate LeastWorth(left: set<ValuedNode>, d: ValuedNode) {
    forall o :: o in left && o != d ==> d.value < o.value || (d.value == o.value && Less(d.id, o.id))
  }

  predicate NoBetter(t: Ties, p: MergePair, o: Id) {
    var e, n, l := SharedEntries(t, p.doomed, o), SharedTurns(t, p.doomed, o), Likeness(t, p.doomed, o);
    && e <= p.linkWeight
    && (e == p.linkWeight ==> n <= p.turns)
    && (e == p.linkWeight && n == p.turns ==> l <= p.similarity)
    && (e == p.linkWeight && n == p.turns && l == p.similarity ==> Less(p.survivor, o))
  }

  lemma ReadsTheMaps(t: Ties, doomed: Id, c: Id)
    ensures Entries(t, doomed, c) == SharedEntries(t, doomed, c)
    ensures Turns(t, doomed, c) == SharedTurns(t, doomed, c)
    ensures Similarity(t, doomed, c) == Likeness(t, doomed, c)
  {
    hide Less;
  }

  lemma FirstWarranted(t: Ties, nodes: set<ValuedNode>, doomed: ValuedNode, peer: ValuedNode)
    requires OneNodeEach(nodes) && IsLowest(doomed, nodes) && IsPeer(t, doomed.id, peer, nodes - {doomed})
    ensures PairOf(t, doomed, peer).doomed == doomed.id && PairOf(t, doomed, peer).survivor == peer.id
    ensures Warranted(t, nodes, PairOf(t, doomed, peer))
  {
    hide Less, Entries, Turns, Similarity, SharedEntries, SharedTurns, Likeness;
    var p := PairOf(t, doomed, peer);
    assert Lower(doomed, peer);
    LessAsymmetricTo(doomed.id, peer.id);
    ReadsTheMaps(t, doomed.id, peer.id);
    LowestIsLeast(nodes, doomed);
    forall o | o in nodes && o.id != p.doomed && o.id != p.survivor ensures NoBetter(t, p, o.id) {
      assert Closer(t, doomed.id, peer.id, o.id);
      ReadsTheMaps(t, doomed.id, o.id);
    }
  }

  lemma LowestIsLeast(nodes: set<ValuedNode>, d: ValuedNode)
    requires IsLowest(d, nodes)
    ensures LeastWorth(nodes, d)
  {
    hide Less;
    forall o | o in nodes && o != d ensures d.value < o.value || (d.value == o.value && Less(d.id, o.id)) { assert Lower(d, o); }
  }

  lemma LeftCons(nodes: set<ValuedNode>, doomed: ValuedNode, peer: ValuedNode, pairs: seq<MergePair>, i: nat)
    requires OneNodeEach(nodes) && doomed in nodes && peer in nodes && 0 < i <= |pairs|
    requires pairs[0].doomed == doomed.id && pairs[0].survivor == peer.id
    ensures Left(nodes, pairs, i) == Left(nodes - {doomed, peer}, pairs[1..], i - 1)
  {
    forall v ensures v in Left(nodes, pairs, i) <==> v in Left(nodes - {doomed, peer}, pairs[1..], i - 1) {
      assert forall k :: 0 <= k < i - 1 ==> pairs[1..][k] == pairs[k + 1];
      if v in Left(nodes - {doomed, peer}, pairs[1..], i - 1) {
        forall k | 0 <= k < i ensures v.id != pairs[k].doomed && v.id != pairs[k].survivor {
          if k > 0 { assert pairs[k] == pairs[1..][k - 1]; }
        }
      }
    }
  }

  /** Every pair of a slate is warranted by what is stored, among the nodes the pairs before
      it left. */
  lemma {:induction false} SlateIsWarranted(t: Ties, nodes: set<ValuedNode>, pairs: seq<MergePair>, i: nat)
    requires OneNodeEach(nodes) && IsSlate(t, nodes, pairs) && i < |pairs|
    ensures Warranted(t, Left(nodes, pairs, i), pairs[i])
    decreases |pairs|
  {
    hide Less, Closer, Lower, PairOf, Warranted, IsLowest, IsPeer;
    var doomed, peer :|
      IsLowest(doomed, nodes) && IsPeer(t, doomed.id, peer, nodes - {doomed}) && pairs[0] == PairOf(t, doomed, peer)
      && IsSlate(t, nodes - {doomed, peer}, pairs[1..]);
    FirstWarranted(t, nodes, doomed, peer);
    if i == 0 {
      assert Left(nodes, pairs, 0) == nodes;
    } else {
      BothIn(t, nodes, doomed, peer);
      LeftCons(nodes, doomed, peer, pairs, i);
      SlateIsWarranted(t, nodes - {doomed, peer}, pairs[1..], i - 1);
    }
  }

  lemma BothIn(t: Ties, nodes: set<ValuedNode>, doomed: ValuedNode, peer: ValuedNode)
    requires IsLowest(doomed, nodes) && IsPeer(t, doomed.id, peer, nodes - {doomed})
    ensures doomed in nodes && peer in nodes
  {
  }

  /** What a scope must shed: nothing within its bound, otherwise what brings it exactly there;
      a negative count or a bound below one is refused. */
  lemma PressureBringsDown(count: int, maxNodes: int)
    ensures Pressure(count, maxNodes).Err? <==> count < 0 || maxNodes < 1
    ensures Pressure(count, maxNodes).Ok? ==>
              var shed := Pressure(count, maxNodes).value;
              count - shed <= maxNodes && (shed > 0 ==> count - shed == maxNodes)
  {
  }
}
