/** When does replaying an edge move give the edges the live move gave?

    The store folds colliding edges in the order of its OWN relation ids, and a
    replay mints its own.  `MoveReplaysExactly` states when that is harmless. */
module ReplayEdges {
  import opened Ids
  import opened Surfaces
  import opened GraphModel
  import opened EdgeFold
  import opened GraphOps
  import opened Replay

  /** Where two stores meet: the node set the renaming is injective on. */
  datatype Frame = Frame(scope: string, nodes: map<Id, Id>, ids: map<Id, Id>, live: set<Id>)

  ghost predicate Injective(f: Frame) {
    && f.live <= f.nodes.Keys
    && forall a, b :: a in f.live && b in f.live && f.nodes[a] == f.nodes[b] ==> a == b
  }

  ghost predicate EndsInside(f: Frame, rels: map<Id, Relation>) {
    forall x :: EdgeInScope(rels, f.scope, x) ==> rels[x].source in f.live && rels[x].target in f.live
  }

  /** The same move, in the replayed store's ids. */
  ghost predicate SameMove(f: Frame, m: Move, m': Move) {
    match m
    case Repoint(moved, onto, only, _) =>
      && m'.Repoint? && only == None && m'.only == None
      && moved <= f.live && onto in f.live && onto in f.nodes && m'.onto == f.nodes[onto]
      && (forall n :: n in moved ==> n in f.nodes && f.nodes[n] in m'.moved)
      && (forall n :: n in f.live && n in f.nodes && f.nodes[n] in m'.moved ==> n in moved)
    case Relabel(scope, _, _) => m' == m && scope == f.scope
  }

  ghost predicate Setting(f: Frame, rels: map<Id, Relation>, m: Move, rels': map<Id, Relation>, m': Move) {
    && Injective(f) && EndsInside(f, rels) && SameMove(f, m, m') && Settles(m) && Settles(m')
    && UniqueTriples(rels) && UniqueTriples(rels')
    && EdgeSim(rels, f.scope, rels', f.nodes, f.ids)
    && forall x :: x in rels && Affected(m, x, rels[x]) ==> rels[x].scope == f.scope
  }

  predicate Inside(f: Frame, t: Triple) { t.scope == f.scope && t.source in f.live && t.target in f.live }

  function Renamed(f: Frame, t: Triple): Triple
    requires t.source in f.nodes && t.target in f.nodes
  {
    Triple(t.scope, f.nodes[t.source], t.typ, f.nodes[t.target])
  }

  /** The two stores hold corresponding edges, or both nothing. */
  predicate HeldSim(f: Frame, h: Held, h': Held) {
    match h
    case None => h' == None
    case Some(e) => h'.Some? && e.0 in f.ids && h'.value.0 == f.ids[e.0] && Mirrors(e.1, h'.value.1, f.nodes)
  }

  // ------------------------------------------------------ edge by edge

  lemma AffectedAlike(f: Frame, rels: map<Id, Relation>, m: Move, rels': map<Id, Relation>, m': Move, x: Id)
    requires Setting(f, rels, m, rels', m') && EdgeInScope(rels, f.scope, x)
    ensures x in f.ids && f.ids[x] in rels' && Mirrors(rels[x], rels'[f.ids[x]], f.nodes)
    ensures Affected(m, x, rels[x]) <==> Affected(m', f.ids[x], rels'[f.ids[x]])
    ensures var a, a' := Readdressed(m, rels[x]), Readdressed(m', rels'[f.ids[x]]);
            (a.Some? <==> a'.Some?) && (a.Some? ==> Mirrors(a.value, a'.value, f.nodes) && Inside(f, TripleOf(a.value)))
  {
    hide UniqueTriples, Union;
  }

  lemma LandsAlike(f: Frame, rels: map<Id, Relation>, m: Move, rels': map<Id, Relation>, m': Move, x: Id, t: Triple)
    requires Setting(f, rels, m, rels', m') && EdgeInScope(rels, f.scope, x) && Inside(f, t)
    ensures x in f.ids && (Lands(rels, m, x, t) <==> Lands(rels', m', f.ids[x], Renamed(f, t)))
  {
    hide UniqueTriples, SameMove;
    AffectedAlike(f, rels, m, rels', m', x);
  }

  lemma TripleAlike(f: Frame, r: Relation, r': Relation, t: Triple)
    requires Injective(f) && Inside(f, TripleOf(r)) && Inside(f, t) && Mirrors(r, r', f.nodes)
    ensures TripleOf(r) == t <==> TripleOf(r') == Renamed(f, t)
  {
  }

  lemma HolderAlike(f: Frame, rels: map<Id, Relation>, m: Move, rels': map<Id, Relation>, m': Move, t: Triple)
    requires Setting(f, rels, m, rels', m') && Inside(f, t)
    ensures HeldSim(f, HolderAt(rels, m, t), HolderAt(rels', m', Renamed(f, t)))
  {
    hide SameMove, HolderAt, Affected;
    if x :| x in rels && TripleOf(rels[x]) == t && !Affected(m, x, rels[x]) {
      AffectedAlike(f, rels, m, rels', m', x);
      HolderIs(rels, m, t, x);
      HolderIs(rels', m', Renamed(f, t), f.ids[x]);
    } else {
      HolderAbsent(rels, m, t);
      forall x' | x' in rels' && TripleOf(rels'[x']) == Renamed(f, t) ensures Affected(m', x', rels'[x']) {
        var x :| EdgeInScope(rels, f.scope, x) && f.ids[x] == x';
        AffectedAlike(f, rels, m, rels', m', x);
        TripleAlike(f, rels[x], rels'[x'], t);
      }
      HolderAbsent(rels', m', Renamed(f, t));
    }
  }

  lemma JoinedAlike(f: Frame, m: Move, m': Move, h: Held, h': Held, x: Id, r: Relation, r': Relation,
                    moved: Relation, moved': Relation)
    requires HeldSim(f, h, h') && x in f.ids
    requires Mirrors(moved, moved', f.nodes) && r.entryIds == r'.entryIds
    ensures HeldSim(f, Joined(m, h, x, r, moved), Joined(m', h', f.ids[x], r', moved'))
  {
  }

  // ------------------------------------------------- one address at a time

  /** Live and replayed loops leave corresponding edges at *t*. */
  ghost predicate AgreeAt(f: Frame, rels: map<Id, Relation>, m: Move, rels': map<Id, Relation>, m': Move, t: Triple)
    requires Injective(f) && Inside(f, t)
  {
    HeldSim(f, Gathered(rels, Sorted(AffectedIds(rels, m)), m, t, HolderAt(rels, m, t)),
            Gathered(rels', Sorted(AffectedIds(rels', m')), m', Renamed(f, t), HolderAt(rels', m', Renamed(f, t))))
  }

  lemma MovedAt(rels: map<Id, Relation>, m: Move, x: Id, r: Relation)
    requires UniqueTriples(rels) && Settles(m)
    ensures Entry(Moved(rels, m), x, r) <==>
            Gathered(rels, Sorted(AffectedIds(rels, m)), m, TripleOf(r), HolderAt(rels, m, TripleOf(r))) == Some((x, r))
  {
    hide UniqueTriples, Gathered, HolderAt, FoldAll;
    SortedEnumerates(rels, m);
    FoldCharacterized(rels, Sorted(AffectedIds(rels, m)), m);
  }

  lemma GatheredAt(rels: map<Id, Relation>, m: Move, t: Triple)
    requires UniqueTriples(rels) && Settles(m)
    ensures var h := Gathered(rels, Sorted(AffectedIds(rels, m)), m, t, HolderAt(rels, m, t));
            h.Some? ==> TripleOf(h.value.1) == t && Came(rels, m, h.value.0, h.value.1)
                        && Entry(Moved(rels, m), h.value.0, h.value.1)
  {
    hide UniqueTriples, Gathered;
    SortedEnumerates(rels, m);
    ByTripleUnique(rels, t);
    GatheredCame(rels, Sorted(AffectedIds(rels, m)), m, t, HolderAt(rels, m, t));
    var h := Gathered(rels, Sorted(AffectedIds(rels, m)), m, t, HolderAt(rels, m, t));
    if h.Some? { MovedAt(rels, m, h.value.0, h.value.1); }
  }

  lemma MovedInside(f: Frame, rels: map<Id, Relation>, m: Move, rels': map<Id, Relation>, m': Move, x: Id)
    requires Setting(f, rels, m, rels', m') && EdgeInScope(Moved(rels, m), f.scope, x)
    ensures EdgeInScope(rels, f.scope, x) && Inside(f, TripleOf(Moved(rels, m)[x]))
  {
    hide UniqueTriples, EdgeSim, Moved;
    MovedFacts(rels, m);
    assert Came(rels, m, x, Moved(rels, m)[x]);
    if Affected(m, x, rels[x]) {
      assert rels[x].scope == f.scope && EdgeInScope(rels, f.scope, x);
    }
  }

  lemma AgreementGivesSimulation(f: Frame, rels: map<Id, Relation>, m: Move, rels': map<Id, Relation>, m': Move)
    requires Setting(f, rels, m, rels', m')
    requires forall t :: Inside(f, t) ==> AgreeAt(f, rels, m, rels', m', t)
    ensures EdgeSim(Moved(rels, m), f.scope, Moved(rels', m'), f.nodes, f.ids)
  {
    hide UniqueTriples, Gathered, HolderAt, Moved, SameMove;
    var out, out' := Moved(rels, m), Moved(rels', m');
    forall x | EdgeInScope(out, f.scope, x)
      ensures x in f.ids && f.ids[x] in out' && Mirrors(out[x], out'[f.ids[x]], f.nodes)
    {
      MovedInside(f, rels, m, rels', m', x);
      var t := TripleOf(out[x]);
      assert Entry(out, x, out[x]);
      MovedAt(rels, m, x, out[x]);
      assert AgreeAt(f, rels, m, rels', m', t);
      GatheredAt(rels', m', Renamed(f, t));
    }
    forall a, b | EdgeInScope(out, f.scope, a) && EdgeInScope(out, f.scope, b) && f.ids[a] == f.ids[b]
      ensures a == b
    {
      MovedInside(f, rels, m, rels', m', a);
      MovedInside(f, rels, m, rels', m', b);
    }
    forall x' | x' in out' ensures exists x :: EdgeInScope(out, f.scope, x) && f.ids[x] == x' {
      var t := OriginOf(f, rels, m, rels', m', x');
      assert Entry(out', x', out'[x']);
      MovedAt(rels', m', x', out'[x']);
      assert AgreeAt(f, rels, m, rels', m', t);
      GatheredAt(rels, m, t);
      var h := Gathered(rels, Sorted(AffectedIds(rels, m)), m, t, HolderAt(rels, m, t));
      assert EdgeInScope(out, f.scope, h.value.0);
    }
  }

  /** Every replayed edge stands at the image of a live address. */
  lemma OriginOf(f: Frame, rels: map<Id, Relation>, m: Move, rels': map<Id, Relation>, m': Move, x': Id)
    returns (t: Triple)
    requires Setting(f, rels, m, rels', m') && x' in Moved(rels', m')
    ensures Inside(f, t) && TripleOf(Moved(rels', m')[x']) == Renamed(f, t)
  {
    hide UniqueTriples, Moved, SameMove;
    MovedFacts(rels', m');
    var r' := Moved(rels', m')[x'];
    assert Came(rels', m', x', r');
    var x :| EdgeInScope(rels, f.scope, x) && f.ids[x] == x';
    AffectedAlike(f, rels, m, rels', m', x);
    if Affected(m', x', rels'[x']) {
      t := TripleOf(Readdressed(m, rels[x]).value);
    } else {
      t := TripleOf(rels[x]);
    }
  }

  lemma SimulationGivesAgreement(f: Frame, rels: map<Id, Relation>, m: Move, rels': map<Id, Relation>, m': Move,
                                 t: Triple)
    requires Setting(f, rels, m, rels', m') && Inside(f, t)
    requires EdgeSim(Moved(rels, m), f.scope, Moved(rels', m'), f.nodes, f.ids)
    ensures AgreeAt(f, rels, m, rels', m', t)
  {
    hide UniqueTriples, Gathered, HolderAt, Moved, SameMove;
    var out, out' := Moved(rels, m), Moved(rels', m');
    var h := Gathered(rels, Sorted(AffectedIds(rels, m)), m, t, HolderAt(rels, m, t));
    var t' := Renamed(f, t);
    var h' := Gathered(rels', Sorted(AffectedIds(rels', m')), m', t', HolderAt(rels', m', t'));
    GatheredAt(rels, m, t);
    GatheredAt(rels', m', t');
    if h.Some? {
      var x := h.value.0;
      assert EdgeInScope(out, f.scope, x);
      assert Entry(out', f.ids[x], out'[f.ids[x]]);
      MovedAt(rels', m', f.ids[x], out'[f.ids[x]]);
    } else if h'.Some? {
      var x :| EdgeInScope(out, f.scope, x) && f.ids[x] == h'.value.0;
      MovedInside(f, rels, m, rels', m', x);
      TripleAlike(f, out[x], out'[f.ids[x]], t);
      assert Entry(out, x, out[x]);
      MovedAt(rels, m, x, out[x]);
      assert false;
    }
  }

  // ------------------------------------------------------ the exact condition

  /** The first edge of *order* that lands on *t*. */
  function FirstLanding(rels: map<Id, Relation>, order: seq<Id>, m: Move, t: Triple): Option<Id> {
    if order == [] then None
    else if Lands(rels, m, order[0], t) then Some(order[0])
    else FirstLanding(rels, order[1..], m, t)
  }

  /** The evidence list the landing edges build up, in *order*, on top of *base*. */
  function Accumulated(rels: map<Id, Relation>, order: seq<Id>, m: Move, t: Triple, base: seq<Id>): seq<Id> {
    if order == [] then base
    else if Lands(rels, m, order[0], t) then
      Accumulated(rels, order[1..], m, t, if base == [] then rels[order[0]].entryIds else Union(base, rels[order[0]].entryIds))
    else Accumulated(rels, order[1..], m, t, base)
  }

  function BaseOf(h: Held): seq<Id> { if h.None? then [] else h.value.1.entryIds }

  predicate Evidenced(rels: map<Id, Relation>) { forall x :: x in rels ==> rels[x].entryIds != [] }

  /** The statement at *t* is the holder's, else the first landing edge's; the
      evidence is what accumulated. */
  lemma {:induction false} GatheredSays(rels: map<Id, Relation>, order: seq<Id>, m: Move, t: Triple, held: Held)
    requires Evidenced(rels) && (held.Some? ==> held.value.1.entryIds != [])
    ensures var h := Gathered(rels, order, m, t, held);
            && BaseOf(h) == Accumulated(rels, order, m, t, BaseOf(held))
            && (h.None? <==> held.None? && FirstLanding(rels, order, m, t).None?)
            && (held.Some? ==> h.Some? && h.value.0 == held.value.0 && SaysLike(h.value.1, held.value.1))
            && (held.None? && h.Some? ==>
                  FirstLanding(rels, order, m, t) == Some(h.value.0) && h.value.0 in rels
                  && Lands(rels, m, h.value.0, t) && SaysLike(h.value.1, Readdressed(m, rels[h.value.0]).value))
  {
    hide Union;
    if order != [] {
      if Lands(rels, m, order[0], t) {
        var r := rels[order[0]];
        if held.Some? { UnionNotEmpty(BaseOf(held), r.entryIds); }
        GatheredSays(rels, order[1..], m, t, Joined(m, held, order[0], r, Readdressed(m, r).value));
      } else {
        GatheredSays(rels, order[1..], m, t, held);
      }
    }
  }

  lemma UnionNotEmpty(a: seq<Id>, b: seq<Id>)
    requires a != []
    ensures Union(a, b) != []
  {
  }

  predicate SaysLike(a: Relation, b: Relation) {
    a.claim == b.claim && a.until == b.until && TripleOf(a) == TripleOf(b)
  }

  /** What a caller can check before the move: where edges collide with no edge
      already there, the same one comes first in both id orders; and the
      evidence lists come out alike in both orders. */
  ghost predicate CollisionsAgree(f: Frame, rels: map<Id, Relation>, m: Move, rels': map<Id, Relation>, m': Move,
                                  t: Triple)
    requires Injective(f) && Inside(f, t)
  {
    var order, order' := Sorted(AffectedIds(rels, m)), Sorted(AffectedIds(rels', m'));
    var t' := Renamed(f, t);
    var held, held' := HolderAt(rels, m, t), HolderAt(rels', m', t');
    && (held.None? && FirstLanding(rels, order, m, t).Some? ==>
          FirstLanding(rels, order, m, t).value in f.ids &&
          FirstLanding(rels', order', m', t') == Some(f.ids[FirstLanding(rels, order, m, t).value]))
    && Accumulated(rels, order, m, t, BaseOf(held)) == Accumulated(rels', order', m', t', BaseOf(held'))
  }

  lemma {:induction false} LandingsAlike(f: Frame, rels: map<Id, Relation>, m: Move, rels': map<Id, Relation>, m': Move,
                                         t: Triple)
    requires Setting(f, rels, m, rels', m') && Inside(f, t)
    requires FirstLanding(rels, Sorted(AffectedIds(rels, m)), m, t).None?
    ensures FirstLanding(rels', Sorted(AffectedIds(rels', m')), m', Renamed(f, t)).None?
  {
    hide UniqueTriples, SameMove;
    var order, order' := Sorted(AffectedIds(rels, m)), Sorted(AffectedIds(rels', m'));
    FirstIsLanding(rels', order', m', Renamed(f, t));
    if FirstLanding(rels', order', m', Renamed(f, t)).Some? {
      var x' := FirstLanding(rels', order', m', Renamed(f, t)).value;
      var x :| EdgeInScope(rels, f.scope, x) && f.ids[x] == x';
      AffectedAlike(f, rels, m, rels', m', x);
      LandsAlike(f, rels, m, rels', m', x, t);
      assert x in AffectedIds(rels, m);
      LandingFound(rels, order, m, t, x);
      assert false;
    }
  }

  lemma {:induction false} FirstIsLanding(rels: map<Id, Relation>, order: seq<Id>, m: Move, t: Triple)
    ensures var x := FirstLanding(rels, order, m, t);
            x.Some? ==> x.value in order && Lands(rels, m, x.value, t)
  {
    if order != [] && !Lands(rels, m, order[0], t) { FirstIsLanding(rels, order[1..], m, t); }
  }

  lemma {:induction false} LandingFound(rels: map<Id, Relation>, order: seq<Id>, m: Move, t: Triple, x: Id)
    requires x in order && Lands(rels, m, x, t)
    ensures FirstLanding(rels, order, m, t).Some?
  {
    if !Lands(rels, m, order[0], t) {
      assert order == [order[0]] + order[1..];
      LandingFound(rels, order[1..], m, t, x);
    }
  }

  lemma AgreeIffCollisions(f: Frame, rels: map<Id, Relation>, m: Move, rels': map<Id, Relation>, m': Move, t: Triple)
    requires Setting(f, rels, m, rels', m') && Inside(f, t) && Evidenced(rels) && Evidenced(rels')
    ensures AgreeAt(f, rels, m, rels', m', t) <==> CollisionsAgree(f, rels, m, rels', m', t)
  {
    hide UniqueTriples, SameMove, Gathered, HolderAt, FirstLanding, Accumulated;
    var order, order' := Sorted(AffectedIds(rels, m)), Sorted(AffectedIds(rels', m'));
    var t' := Renamed(f, t);
    var held, held' := HolderAt(rels, m, t), HolderAt(rels', m', t');
    HolderAlike(f, rels, m, rels', m', t);
    HolderEvidenced(rels, m, t);
    HolderEvidenced(rels', m', t');
    GatheredSays(rels, order, m, t, held);
    GatheredSays(rels', order', m', t', held');
    var h, h' := Gathered(rels, order, m, t, held), Gathered(rels', order', m', t', held');
    if h.None? {
      LandingsAlike(f, rels, m, rels', m', t);
    } else if held.None? {
      var x := h.value.0;
      FirstIsLanding(rels, order, m, t);
      assert x in AffectedIds(rels, m) && EdgeInScope(rels, f.scope, x);
      AffectedAlike(f, rels, m, rels', m', x);
    }
  }

  lemma HolderEvidenced(rels: map<Id, Relation>, m: Move, t: Triple)
    requires Evidenced(rels)
    ensures var h := HolderAt(rels, m, t); h.Some? ==> h.value.1.entryIds != []
  {
  }

  /** A replayed move leaves the live edges, up to the ids already recorded, if
      and only if every collision agrees. */
  lemma MoveReplaysExactly(f: Frame, rels: map<Id, Relation>, m: Move, rels': map<Id, Relation>, m': Move)
    requires Setting(f, rels, m, rels', m') && Evidenced(rels) && Evidenced(rels')
    ensures EdgeSim(Moved(rels, m), f.scope, Moved(rels', m'), f.nodes, f.ids) <==>
            forall t :: Inside(f, t) ==> CollisionsAgree(f, rels, m, rels', m', t)
  {
    hide UniqueTriples, SameMove, Moved, EdgeSim, CollisionsAgree, AgreeAt;
    forall t | Inside(f, t)
      ensures AgreeAt(f, rels, m, rels', m', t) <==> CollisionsAgree(f, rels, m, rels', m', t)
    {
      AgreeIffCollisions(f, rels, m, rels', m', t);
    }
    if forall t :: Inside(f, t) ==> CollisionsAgree(f, rels, m, rels', m', t) {
      AgreementGivesSimulation(f, rels, m, rels', m');
    }
    if EdgeSim(Moved(rels, m), f.scope, Moved(rels', m'), f.nodes, f.ids) {
      forall t | Inside(f, t) ensures CollisionsAgree(f, rels, m, rels', m', t) {
        SimulationGivesAgreement(f, rels, m, rels', m', t);
      }
    }
  }

  // ------------------------------------------------- two ways to satisfy it

  /** (a) No two moved edges collide, as when a single node is absorbed. */
  lemma ClashFreeAgrees(f: Frame, rels: map<Id, Relation>, m: Move, rels': map<Id, Relation>, m': Move, t: Triple)
    requires Setting(f, rels, m, rels', m') && Inside(f, t) && ClashFree(rels, m)
    ensures AgreeAt(f, rels, m, rels', m', t)
  {
    hide UniqueTriples, SameMove, HolderAt, Gathered, ClashFree;
    var order, order' := Sorted(AffectedIds(rels, m)), Sorted(AffectedIds(rels', m'));
    HolderAlike(f, rels, m, rels', m', t);
    if x :| x in order && Lands(rels, m, x, t) {
      LoneLander(f, rels, m, rels', m', t, x);
    } else {
      GatheredNone(rels, order, m, t, HolderAt(rels, m, t));
      forall y' | y' in order' ensures !Lands(rels', m', y', Renamed(f, t)) {
        var y :| EdgeInScope(rels, f.scope, y) && f.ids[y] == y';
        AffectedAlike(f, rels, m, rels', m', y);
        LandsAlike(f, rels, m, rels', m', y, t);
        assert y in order;
      }
      GatheredNone(rels', order', m', Renamed(f, t), HolderAt(rels', m', Renamed(f, t)));
    }
  }

  lemma LoneLander(f: Frame, rels: map<Id, Relation>, m: Move, rels': map<Id, Relation>, m': Move, t: Triple, x: Id)
    requires Setting(f, rels, m, rels', m') && Inside(f, t) && ClashFree(rels, m)
    requires x in AffectedIds(rels, m) && Lands(rels, m, x, t)
    ensures AgreeAt(f, rels, m, rels', m', t)
  {
    hide UniqueTriples, SameMove, HolderAt, Gathered, Affected;
    var order, order' := Sorted(AffectedIds(rels, m)), Sorted(AffectedIds(rels', m'));
    var t' := Renamed(f, t);
    SortedEnumerates(rels, m);
    SortedEnumerates(rels', m');
    HolderAlike(f, rels, m, rels', m', t);
    assert EdgeInScope(rels, f.scope, x);
    AffectedAlike(f, rels, m, rels', m', x);
    LandsAlike(f, rels, m, rels', m', x, t);
    GatheredOne(rels, order, m, t, HolderAt(rels, m, t), x);
    forall y' | y' in order' && y' != f.ids[x] ensures !Lands(rels', m', y', t') {
      var y :| EdgeInScope(rels, f.scope, y) && f.ids[y] == y';
      AffectedAlike(f, rels, m, rels', m', y);
      LandsAlike(f, rels, m, rels', m', y, t);
    }
    GatheredOne(rels', order', m', t', HolderAt(rels', m', t'), f.ids[x]);
    JoinedAlike(f, m, m', HolderAt(rels, m, t), HolderAt(rels', m', t'), x, rels[x], rels'[f.ids[x]],
                Readdressed(m, rels[x]).value, Readdressed(m', rels'[f.ids[x]]).value);
  }

  /** (b) The replay's ids sort the scope's edges as the live ids do. */
  ghost predicate OrderKept(rels: map<Id, Relation>, scope: string, ids: map<Id, Id>) {
    forall a, b :: EdgeInScope(rels, scope, a) && EdgeInScope(rels, scope, b) && a in ids && b in ids ==>
                     (Less(a, b) <==> Less(ids[a], ids[b]))
  }

  function MapIds(order: seq<Id>, ids: map<Id, Id>): seq<Id>
    requires forall x :: x in order ==> x in ids
  {
    if order == [] then [] else [ids[order[0]]] + MapIds(order[1..], ids)
  }

  lemma {:induction false} MapIdsAt(order: seq<Id>, ids: map<Id, Id>)
    requires forall x :: x in order ==> x in ids
    ensures |MapIds(order, ids)| == |order|
    ensures forall i :: 0 <= i < |order| ==> MapIds(order, ids)[i] == ids[order[i]]
  {
    if order != [] {
      assert forall x :: x in order[1..] ==> x in order;
      MapIdsAt(order[1..], ids);
    }
  }

  lemma MappedAscends(order: seq<Id>, rels: map<Id, Relation>, scope: string, ids: map<Id, Id>)
    requires Ascending(order) && OrderKept(rels, scope, ids)
    requires forall x :: x in order ==> EdgeInScope(rels, scope, x) && x in ids
    ensures Ascending(MapIds(order, ids))
  {
    hide Less, MapIds;
    MapIdsAt(order, ids);
    var mapped := MapIds(order, ids);
    forall i, j | 0 <= i < j < |mapped| ensures Less(mapped[i], mapped[j]) {
      assert order[i] in order && order[j] in order && Less(order[i], order[j]);
    }
  }

  lemma AffectedImage(f: Frame, rels: map<Id, Relation>, m: Move, rels': map<Id, Relation>, m': Move, x': Id)
    requires Setting(f, rels, m, rels', m')
    ensures x' in AffectedIds(rels', m') <==> exists x :: x in AffectedIds(rels, m) && x in f.ids && f.ids[x] == x'
  {
    hide UniqueTriples, SameMove, Affected;
    if x' in AffectedIds(rels', m') {
      var x :| EdgeInScope(rels, f.scope, x) && f.ids[x] == x';
      AffectedAlike(f, rels, m, rels', m', x);
      assert x in AffectedIds(rels, m);
    }
    if x :| x in AffectedIds(rels, m) && x in f.ids && f.ids[x] == x' {
      assert EdgeInScope(rels, f.scope, x);
      AffectedAlike(f, rels, m, rels', m', x);
    }
  }

  lemma OrderKeptMaps(f: Frame, rels: map<Id, Relation>, m: Move, rels': map<Id, Relation>, m': Move)
    requires Setting(f, rels, m, rels', m') && OrderKept(rels, f.scope, f.ids)
    ensures forall x :: x in Sorted(AffectedIds(rels, m)) ==> EdgeInScope(rels, f.scope, x) && x in f.ids
    ensures Sorted(AffectedIds(rels', m')) == MapIds(Sorted(AffectedIds(rels, m)), f.ids)
  {
    hide UniqueTriples, SameMove, Less, Affected, MapIds, OrderKept;
    var order := Sorted(AffectedIds(rels, m));
    forall x | x in order ensures EdgeInScope(rels, f.scope, x) && x in f.ids { assert x in AffectedIds(rels, m); }
    MappedAscends(order, rels, f.scope, f.ids);
    MapIdsAt(order, f.ids);
    var mapped := MapIds(order, f.ids);
    forall x' ensures x' in mapped <==> x' in AffectedIds(rels', m') {
      AffectedImage(f, rels, m, rels', m', x');
      if x' in mapped {
        var i :| 0 <= i < |mapped| && mapped[i] == x';
        assert order[i] in order && order[i] in AffectedIds(rels, m);
      }
      if x :| x in AffectedIds(rels, m) && x in f.ids && f.ids[x] == x' {
        var i :| 0 <= i < |order| && order[i] == x;
        assert mapped[i] == x';
      }
    }
    ListingIsSorted(mapped, AffectedIds(rels', m'));
  }

  lemma {:induction false} Lockstep(f: Frame, rels: map<Id, Relation>, m: Move, rels': map<Id, Relation>, m': Move,
                                    order: seq<Id>, t: Triple, h: Held, h': Held)
    requires Setting(f, rels, m, rels', m') && Inside(f, t) && HeldSim(f, h, h')
    requires forall x :: x in order ==> EdgeInScope(rels, f.scope, x) && x in f.ids
    ensures HeldSim(f, Gathered(rels, order, m, t, h), Gathered(rels', MapIds(order, f.ids), m', Renamed(f, t), h'))
  {
    hide UniqueTriples, SameMove, EdgeSim;
    if order != [] {
      var x, rest := order[0], order[1..];
      assert x in order && forall y :: y in rest ==> y in order;
      AffectedAlike(f, rels, m, rels', m', x);
      LandsAlike(f, rels, m, rels', m', x, t);
      assert MapIds(order, f.ids)[1..] == MapIds(rest, f.ids);
      if Lands(rels, m, x, t) {
        var r, r' := rels[x], rels'[f.ids[x]];
        JoinedAlike(f, m, m', h, h', x, r, r', Readdressed(m, r).value, Readdressed(m', r').value);
        Lockstep(f, rels, m, rels', m', rest, t, Joined(m, h, x, r, Readdressed(m, r).value),
                 Joined(m', h', f.ids[x], r', Readdressed(m', r').value));
      } else {
        Lockstep(f, rels, m, rels', m', rest, t, h, h');
      }
    }
  }

  lemma OrderKeptAgrees(f: Frame, rels: map<Id, Relation>, m: Move, rels': map<Id, Relation>, m': Move, t: Triple)
    requires Setting(f, rels, m, rels', m') && Inside(f, t) && OrderKept(rels, f.scope, f.ids)
    ensures AgreeAt(f, rels, m, rels', m', t)
  {
    hide UniqueTriples, SameMove, EdgeSim, Gathered, HolderAt, OrderKept;
    OrderKeptMaps(f, rels, m, rels', m');
    HolderAlike(f, rels, m, rels', m', t);
    var order := Sorted(AffectedIds(rels, m));
    Lockstep(f, rels, m, rels', m', order, t, HolderAt(rels, m, t), HolderAt(rels', m', Renamed(f, t)));
  }
}
