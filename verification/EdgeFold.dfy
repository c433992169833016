/** Moving a batch of edges onto new addresses, folding the ones that collide.

    A merge and a split re-point edges at another node, a vocabulary compaction
    re-labels them; all three are one loop over the affected edges in id order.
    `Gathered` says, per address, what that loop must leave behind. */
module EdgeFold {
  import opened Ids
  import opened Surfaces
  import opened GraphModel

  datatype Move =
    | Repoint(moved: set<Id>, onto: Id, only: Option<set<Id>>, now: int)
    | Relabel(scope: string, was: string, becomes: string)

  function Min(a: int, b: int): int { if a <= b then a else b }
  function Max(a: int, b: int): int { if a <= b then b else a }

  predicate Affected(m: Move, id: Id, r: Relation) {
    match m
    case Repoint(moved, _, only, _) => (only.Some? ==> id in only.value) && (r.source in moved || r.target in moved)
    case Relabel(scope, was, _) => r.scope == scope && r.typ == was
  }

  /** Where an affected edge goes; `None` for the self-loop that is dropped. */
  function Readdressed(m: Move, r: Relation): Option<Relation> {
    match m
    case Repoint(moved, onto, _, now) =>
      var source := if r.source in moved then onto else r.source;
      var target := if r.target in moved then onto else r.target;
      if source == target then None else Some(r.(source := source, target := target, lastSeen := now))
    case Relabel(_, _, becomes) => Some(r.(typ := becomes))
  }

  /** *e* keeps its claim and marker and takes over *r*'s evidence. */
  function Absorbed(m: Move, e: Relation, r: Relation): Relation {
    var last := Max(e.lastSeen, r.lastSeen);
    e.(entryIds := Union(e.entryIds, r.entryIds),
       firstSeen := Min(e.firstSeen, r.firstSeen),
       lastSeen := if m.Repoint? then Max(last, m.now) else last)
  }

  predicate Settles(m: Move) {
    match m
    case Repoint(moved, onto, _, _) => onto !in moved
    case Relabel(_, was, becomes) => was != becomes
  }

  /** One iteration of the loop. */
  ghost function Step(rels: map<Id, Relation>, id: Id, m: Move): map<Id, Relation> {
    if id !in rels || !Affected(m, id, rels[id]) then rels
    else
      var rest := rels - {id};
      match Readdressed(m, rels[id])
      case None => rest
      case Some(r) =>
        match ByTriple(rest, TripleOf(r))
        case None => rest[id := r]
        case Some(e) => if e in rest then rest[e := Absorbed(m, rest[e], rels[id])] else rest
  }

  /** The loop over *order*. */
  ghost function FoldAll(rels: map<Id, Relation>, order: seq<Id>, m: Move): map<Id, Relation> {
    if order == [] then rels else FoldAll(Step(rels, order[0], m), order[1..], m)
  }

  ghost predicate Enumerates(order: seq<Id>, rels: map<Id, Relation>, m: Move) {
    && NoRepeats(order)
    && forall x :: x in order <==> x in rels && Affected(m, x, rels[x])
  }

  // ------------------------------------------- what one address ends up with

  /** An edge with its id, or nothing. */
  type Held = Option<(Id, Relation)>

  /** The edge already at *t* that the move leaves alone. */
  ghost function HolderAt(rels: map<Id, Relation>, m: Move, t: Triple): Held {
    match ByTriple(rels, t)
    case None => None
    case Some(x) => if x in rels && !Affected(m, x, rels[x]) then Some((x, rels[x])) else None
  }

  function Joined(m: Move, held: Held, id: Id, r: Relation, moved: Relation): Held {
    match held
    case None => Some((id, moved))
    case Some(h) => Some((h.0, Absorbed(m, h.1, r)))
  }

  predicate Lands(rels: map<Id, Relation>, m: Move, id: Id, t: Triple) {
    id in rels && Readdressed(m, rels[id]).Some? && TripleOf(Readdressed(m, rels[id]).value) == t
  }

  /** Fold, in order, the edges of *order* that land on *t* into what is held there. */
  function Gathered(rels: map<Id, Relation>, order: seq<Id>, m: Move, t: Triple, held: Held): Held {
    if order == [] then held
    else if Lands(rels, m, order[0], t) then
      Gathered(rels, order[1..], m, t,
               Joined(m, held, order[0], rels[order[0]], Readdressed(m, rels[order[0]]).value))
    else Gathered(rels, order[1..], m, t, held)
  }

  lemma LandingUnaffected(m: Move, id: Id, r: Relation, other: Id, e: Relation)
    requires Settles(m) && Affected(m, id, r) && Readdressed(m, r).Some?
    requires TripleOf(e) == TripleOf(Readdressed(m, r).value)
    ensures !Affected(m, other, e)
  {
  }

  lemma StepFacts(rels: map<Id, Relation>, id: Id, m: Move)
    requires UniqueTriples(rels) && Settles(m)
    requires id in rels && Affected(m, id, rels[id])
    ensures UniqueTriples(Step(rels, id, m))
    ensures forall x :: x in rels && x != id && Affected(m, x, rels[x]) ==>
                          x in Step(rels, id, m) && Step(rels, id, m)[x] == rels[x]
    ensures forall x :: x in Step(rels, id, m) && Affected(m, x, Step(rels, id, m)[x]) ==>
                          x != id && x in rels && Affected(m, x, rels[x])
    ensures Step(rels, id, m).Keys <= rels.Keys
  {
    var rest := rels - {id};
    assert UniqueTriples(rest);
    if Readdressed(m, rels[id]).Some? {
      var r := Readdressed(m, rels[id]).value;
      ByTripleUnique(rest, TripleOf(r));
      LandingUnaffected(m, id, rels[id], id, r);
      if ByTriple(rest, TripleOf(r)).Some? {
        var e := ByTriple(rest, TripleOf(r)).value;
        LandingUnaffected(m, id, rels[id], e, rest[e]);
        assert TripleOf(Absorbed(m, rest[e], rels[id])) == TripleOf(rest[e]);
      }
    }
  }

  lemma HolderIs(rels: map<Id, Relation>, m: Move, t: Triple, x: Id)
    requires UniqueTriples(rels) && x in rels && TripleOf(rels[x]) == t && !Affected(m, x, rels[x])
    ensures HolderAt(rels, m, t) == Some((x, rels[x]))
  {
    ByTripleUnique(rels, t);
  }

  lemma HolderAbsent(rels: map<Id, Relation>, m: Move, t: Triple)
    requires UniqueTriples(rels)
    requires forall x :: x in rels && TripleOf(rels[x]) == t ==> Affected(m, x, rels[x])
    ensures HolderAt(rels, m, t) == None
  {
    ByTripleUnique(rels, t);
  }

  /** Two stores that agree on the unaffected edges at *t* hold the same there. */
  lemma HolderAgrees(before: map<Id, Relation>, after: map<Id, Relation>, m: Move, t: Triple)
    requires UniqueTriples(before) && UniqueTriples(after)
    requires forall x :: x in before && TripleOf(before[x]) == t && !Affected(m, x, before[x]) ==>
                           x in after && after[x] == before[x]
    requires forall x :: x in after && TripleOf(after[x]) == t && !Affected(m, x, after[x]) ==>
                           x in before && after[x] == before[x]
    ensures HolderAt(before, m, t) == HolderAt(after, m, t)
  {
    if x :| x in before && TripleOf(before[x]) == t && !Affected(m, x, before[x]) {
      HolderIs(before, m, t, x);
      HolderIs(after, m, t, x);
    } else {
      HolderAbsent(before, m, t);
      HolderAbsent(after, m, t);
    }
  }

  lemma StepHolder(rels: map<Id, Relation>, id: Id, m: Move, t: Triple)
    requires UniqueTriples(rels) && Settles(m)
    requires id in rels && Affected(m, id, rels[id])
    ensures HolderAt(Step(rels, id, m), m, t) ==
            if Lands(rels, m, id, t)
            then Joined(m, HolderAt(rels, m, t), id, rels[id], Readdressed(m, rels[id]).value)
            else HolderAt(rels, m, t)
  {
    hide Union, HolderAt, Readdressed, UniqueTriples;
    var rest := rels - {id};
    var after := Step(rels, id, m);
    StepFacts(rels, id, m);
    if Readdressed(m, rels[id]).None? {
      HolderAgrees(rels, after, m, t);
    } else {
      var r := Readdressed(m, rels[id]).value;
      StaysUnique(rels, id);
      ByTripleUnique(rest, TripleOf(r));
      LandingUnaffected(m, id, rels[id], id, r);
      match ByTriple(rest, TripleOf(r)) {
        case None =>
          assert after == rest[id := r];
          if TripleOf(r) == t {
            HolderIs(after, m, t, id);
            HolderAbsent(rels, m, t);
          } else {
            HolderAgrees(rels, after, m, t);
          }
        case Some(e) =>
          LandingUnaffected(m, id, rels[id], e, rest[e]);
          assert after == rest[e := Absorbed(m, rels[e], rels[id])];
          LandingUnaffected(m, id, rels[id], e, after[e]);
          if TripleOf(r) == t {
            HolderIs(rels, m, t, e);
            HolderIs(after, m, t, e);
          } else {
            HolderAgrees(rels, after, m, t);
          }
      }
    }
  }

  lemma StaysUnique(rels: map<Id, Relation>, id: Id)
    requires UniqueTriples(rels)
    ensures UniqueTriples(rels - {id})
  {
  }

  lemma {:induction false} GatheredAgrees(before: map<Id, Relation>, after: map<Id, Relation>, order: seq<Id>, m: Move,
                                          t: Triple, held: Held)
    requires forall x :: x in order ==> x in before && x in after && before[x] == after[x]
    ensures Gathered(before, order, m, t, held) == Gathered(after, order, m, t, held)
  {
    if order != [] {
      assert order[0] in order;
      assert forall x :: x in order[1..] ==> x in order;
      var next := if Lands(before, m, order[0], t)
                  then Joined(m, held, order[0], before[order[0]], Readdressed(m, before[order[0]]).value) else held;
      GatheredAgrees(before, after, order[1..], m, t, next);
    }
  }

  predicate Entry(rels: map<Id, Relation>, x: Id, r: Relation) { x in rels && rels[x] == r }

  /** What is left to settle after the first edge. */
  lemma StepEnumerates(rels: map<Id, Relation>, order: seq<Id>, m: Move)
    requires UniqueTriples(rels) && Settles(m) && order != [] && Enumerates(order, rels, m)
    ensures Enumerates(order[1..], Step(rels, order[0], m), m)
  {
    var id, after := order[0], Step(rels, order[0], m);
    assert id in order && order == [id] + order[1..];
    StepFacts(rels, id, m);
    assert NoRepeats(order[1..]);
    forall x ensures x in order[1..] <==> x in after && Affected(m, x, after[x]) {
      if x in order[1..] {
        var i :| 0 <= i < |order[1..]| && order[1..][i] == x;
        assert order[i + 1] == x && order[0] != order[i + 1];
      }
    }
  }

  /** The loop leaves at every address exactly what `Gathered` computes for it,
      whatever the order, and never two edges at one address. */
  lemma {:induction false} FoldCharacterized(rels: map<Id, Relation>, order: seq<Id>, m: Move)
    requires UniqueTriples(rels) && Settles(m) && Enumerates(order, rels, m)
    ensures UniqueTriples(FoldAll(rels, order, m))
    ensures FoldAll(rels, order, m).Keys <= rels.Keys
    ensures forall x, r :: Entry(FoldAll(rels, order, m), x, r) <==>
                             Gathered(rels, order, m, TripleOf(r), HolderAt(rels, m, TripleOf(r))) == Some((x, r))
    decreases |order|
  {
    if order == [] {
      assert forall y :: y in rels ==> !Affected(m, y, rels[y]);
      forall x, r ensures Entry(rels, x, r) <==> HolderAt(rels, m, TripleOf(r)) == Some((x, r)) {
        ByTripleUnique(rels, TripleOf(r));
      }
    } else {
      var id := order[0];
      assert id in order && order == [id] + order[1..];
      var after := Step(rels, id, m);
      StepFacts(rels, id, m);
      StepEnumerates(rels, order, m);
      FoldCharacterized(after, order[1..], m);
      forall x, r ensures Entry(FoldAll(rels, order, m), x, r) <==>
                            Gathered(rels, order, m, TripleOf(r), HolderAt(rels, m, TripleOf(r))) == Some((x, r))
      {
        var t := TripleOf(r);
        StepHolder(rels, id, m, t);
        assert forall y :: y in order[1..] ==> y in rels && y in after && rels[y] == after[y];
        GatheredAgrees(rels, after, order[1..], m, t, HolderAt(after, m, t));
      }
    }
  }

  // ------------------------------------------------ when order does not matter

  /** No two affected edges land on one address. */
  ghost predicate ClashFree(rels: map<Id, Relation>, m: Move) {
    forall x, y | x in rels && y in rels && Affected(m, x, rels[x]) && Affected(m, y, rels[y]) && x != y &&
                  Readdressed(m, rels[x]).Some? && Readdressed(m, rels[y]).Some? ::
      TripleOf(Readdressed(m, rels[x]).value) != TripleOf(Readdressed(m, rels[y]).value)
  }

  lemma {:induction false} GatheredNone(rels: map<Id, Relation>, order: seq<Id>, m: Move, t: Triple, held: Held)
    requires forall x :: x in order ==> !Lands(rels, m, x, t)
    ensures Gathered(rels, order, m, t, held) == held
  {
    if order != [] {
      assert order[0] in order;
      assert forall x :: x in order[1..] ==> x in order;
      GatheredNone(rels, order[1..], m, t, held);
    }
  }

  lemma {:induction false} GatheredOne(rels: map<Id, Relation>, order: seq<Id>, m: Move, t: Triple, held: Held, id: Id)
    requires NoRepeats(order) && id in order && Lands(rels, m, id, t)
    requires forall x :: x in order && x != id ==> !Lands(rels, m, x, t)
    ensures Gathered(rels, order, m, t, held) == Joined(m, held, id, rels[id], Readdressed(m, rels[id]).value)
  {
    assert order[0] in order;
    assert forall x :: x in order[1..] ==> x in order;
    if order[0] == id {
      forall x | x in order[1..] ensures x != id {
        var i :| 0 <= i < |order[1..]| && order[1..][i] == x;
        assert order[i + 1] == x;
      }
      GatheredNone(rels, order[1..], m, t, Joined(m, held, id, rels[id], Readdressed(m, rels[id]).value));
    } else {
      assert order == [order[0]] + order[1..];
      GatheredOne(rels, order[1..], m, t, held, id);
    }
  }

  /** What a clash-free move leaves at *t*, with no order in sight. */
  ghost function Direct(rels: map<Id, Relation>, m: Move, t: Triple): Held {
    if exists x :: x in rels && Affected(m, x, rels[x]) && Lands(rels, m, x, t) then
      var x :| x in rels && Affected(m, x, rels[x]) && Lands(rels, m, x, t);
      Joined(m, HolderAt(rels, m, t), x, rels[x], Readdressed(m, rels[x]).value)
    else HolderAt(rels, m, t)
  }

  lemma ClashFreeGathers(rels: map<Id, Relation>, order: seq<Id>, m: Move, t: Triple)
    requires Enumerates(order, rels, m) && ClashFree(rels, m)
    ensures Gathered(rels, order, m, t, HolderAt(rels, m, t)) == Direct(rels, m, t)
  {
    if exists x :: x in rels && Affected(m, x, rels[x]) && Lands(rels, m, x, t) {
      var x :| x in rels && Affected(m, x, rels[x]) && Lands(rels, m, x, t);
      GatheredOne(rels, order, m, t, HolderAt(rels, m, t), x);
    } else {
      GatheredNone(rels, order, m, t, HolderAt(rels, m, t));
    }
  }

  lemma SameEntries(a: map<Id, Relation>, b: map<Id, Relation>)
    requires forall x, r :: Entry(a, x, r) <==> Entry(b, x, r)
    ensures a == b
  {
    forall x | x in a ensures x in b && b[x] == a[x] { assert Entry(a, x, a[x]); }
    forall x | x in b ensures x in a && b[x] == a[x] { assert Entry(b, x, b[x]); }
  }

  /** A clash-free move gives one outcome in every order. */
  lemma OrderIrrelevant(rels: map<Id, Relation>, order: seq<Id>, other: seq<Id>, m: Move)
    requires UniqueTriples(rels) && Settles(m) && ClashFree(rels, m)
    requires Enumerates(order, rels, m) && Enumerates(other, rels, m)
    ensures FoldAll(rels, order, m) == FoldAll(rels, other, m)
  {
    var a, b := FoldAll(rels, order, m), FoldAll(rels, other, m);
    FoldCharacterized(rels, order, m);
    FoldCharacterized(rels, other, m);
    forall x, r ensures Entry(a, x, r) <==> Entry(b, x, r) {
      ClashFreeGathers(rels, order, m, TripleOf(r));
      ClashFreeGathers(rels, other, m, TripleOf(r));
    }
    SameEntries(a, b);
  }

  /** Re-labelling never clashes: two edges of one type at one address are one edge. */
  lemma RelabelClashFree(rels: map<Id, Relation>, m: Move)
    requires UniqueTriples(rels) && m.Relabel?
    ensures ClashFree(rels, m)
  {
  }

  /** Re-pointing the edges of a single node never clashes. */
  lemma SingleClashFree(rels: map<Id, Relation>, m: Move)
    requires UniqueTriples(rels) && m.Repoint? && |m.moved| <= 1 && Settles(m)
    requires forall x :: x in rels ==> rels[x].source != rels[x].target
    ensures ClashFree(rels, m)
  {
    forall x, y | x in rels && y in rels && Affected(m, x, rels[x]) && Affected(m, y, rels[y]) && x != y &&
                  Readdressed(m, rels[x]).Some? && Readdressed(m, rels[y]).Some?
      ensures TripleOf(Readdressed(m, rels[x]).value) != TripleOf(Readdressed(m, rels[y]).value)
    {
      var a := if rels[x].source in m.moved then rels[x].source else rels[x].target;
      assert a in m.moved;
      assert m.moved == {a} by {
        if exists b :: b in m.moved && b != a {
          var b :| b in m.moved && b != a;
          assert {a, b} <= m.moved && |{a, b}| == 2;
          CardinalityMonotone({a, b}, m.moved);
          assert false;
        }
      }
    }
  }

  lemma CardinalityMonotone<T>(a: set<T>, b: set<T>)
    requires a <= b
    ensures |a| <= |b|
  {
    assert b == a + (b - a);
    assert |b| == |a| + |b - a|;
  }

  // -------------------------------------------------- evidence is conserved

  predicate Evidences(held: Held, e: Id) { held.Some? && e in held.value.1.entryIds }

  ghost predicate Brings(rels: map<Id, Relation>, order: seq<Id>, m: Move, t: Triple, e: Id) {
    exists x :: x in order && Lands(rels, m, x, t) && e in rels[x].entryIds
  }

  lemma JoinedEvidence(m: Move, held: Held, id: Id, r: Relation, moved: Relation, e: Id)
    requires moved.entryIds == r.entryIds
    ensures Evidences(Joined(m, held, id, r, moved), e) <==> Evidences(held, e) || e in r.entryIds
  {
    if held.Some? { UnionHolds(held.value.1.entryIds, r.entryIds); }
  }

  lemma {:induction false} GatheredEvidence(rels: map<Id, Relation>, order: seq<Id>, m: Move, t: Triple, held: Held, e: Id)
    ensures Evidences(Gathered(rels, order, m, t, held), e) <==> Evidences(held, e) || Brings(rels, order, m, t, e)
  {
    if order != [] {
      var id, rest := order[0], order[1..];
      assert order == [id] + rest;
      assert Brings(rels, order, m, t, e) <==>
             Brings(rels, rest, m, t, e) || (Lands(rels, m, id, t) && e in rels[id].entryIds) by {
        if x :| x in order && Lands(rels, m, x, t) && e in rels[x].entryIds {
          assert x == id || x in rest;
        }
        assert id in order && forall x :: x in rest ==> x in order;
      }
      if Lands(rels, m, id, t) {
        var moved := Readdressed(m, rels[id]).value;
        JoinedEvidence(m, held, id, rels[id], moved, e);
        GatheredEvidence(rels, rest, m, t, Joined(m, held, id, rels[id], moved), e);
      } else {
        GatheredEvidence(rels, rest, m, t, held, e);
      }
    }
  }

  /** The evidence behind every surviving edge is exactly the union of the
      entries of all edges that stood at, or moved onto, its address. */
  lemma EvidenceConserved(rels: map<Id, Relation>, order: seq<Id>, m: Move, id: Id, e: Id)
    requires UniqueTriples(rels) && Settles(m) && Enumerates(order, rels, m)
    requires id in FoldAll(rels, order, m)
    ensures var t := TripleOf(FoldAll(rels, order, m)[id]);
            e in FoldAll(rels, order, m)[id].entryIds <==>
            exists x :: x in rels && e in rels[x].entryIds &&
                        (if Affected(m, x, rels[x]) then Lands(rels, m, x, t) else TripleOf(rels[x]) == t)
  {
    FoldCharacterized(rels, order, m);
    var r := FoldAll(rels, order, m)[id];
    var t := TripleOf(r);
    var held := HolderAt(rels, m, t);
    assert Entry(FoldAll(rels, order, m), id, r);
    GatheredEvidence(rels, order, m, t, held, e);
    ByTripleUnique(rels, t);
    if e in r.entryIds {
      if Evidences(held, e) {
        var x := held.value.0;
        assert x in rels && e in rels[x].entryIds && TripleOf(rels[x]) == t && !Affected(m, x, rels[x]);
      } else {
        var x :| x in order && Lands(rels, m, x, t) && e in rels[x].entryIds;
        assert Affected(m, x, rels[x]);
      }
    }
    if x :| x in rels && e in rels[x].entryIds &&
            (if Affected(m, x, rels[x]) then Lands(rels, m, x, t) else TripleOf(rels[x]) == t) {
      if Affected(m, x, rels[x]) {
        assert x in order;
        assert Brings(rels, order, m, t, e);
      } else {
        HolderIs(rels, m, t, x);
        assert Evidences(held, e);
      }
    }
  }
}
