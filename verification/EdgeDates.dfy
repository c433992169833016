/** What an edge says after a move, besides its evidence: its claim and marker are those of
    the edge whose id it keeps, its dates span those of every edge that came to it. */
module EdgeDates {
  import opened Ids
  import opened Surfaces
  import opened GraphModel
  import opened EdgeFold
  import opened GraphOps

  /** The edge stands at *t* after the move: it stayed there or landed there. */
  predicate Comes(rels: map<Id, Relation>, m: Move, x: Id, t: Triple) {
    x in rels && if Affected(m, x, rels[x]) then Lands(rels, m, x, t) else TripleOf(rels[x]) == t
  }

  // ------------------------------------------------------------ first and last

  ghost predicate SomeFirst(rels: map<Id, Relation>, order: seq<Id>, m: Move, t: Triple, first: int) {
    exists y :: y in order && Lands(rels, m, y, t) && rels[y].firstSeen == first
  }

  ghost predicate SomeLast(rels: map<Id, Relation>, order: seq<Id>, m: Move, t: Triple, last: int) {
    exists y :: y in order && Lands(rels, m, y, t) && (rels[y].lastSeen == last || (m.Repoint? && m.now == last))
  }

  /** Nothing that lands is earlier than the edge's first date, or later than its last. A
      re-pointed edge is seen now; the one that lands first is seen now whatever it was. */
  ghost predicate Spans(rels: map<Id, Relation>, order: seq<Id>, m: Move, t: Triple, h: (Id, Relation), stood: bool) {
    forall y :: y in order && Lands(rels, m, y, t) ==>
      && h.1.firstSeen <= rels[y].firstSeen
      && (m.Repoint? ==> m.now <= h.1.lastSeen)
      && (m.Relabel? || stood || y != h.0 ==> rels[y].lastSeen <= h.1.lastSeen)
  }

  /** What is held after folding *order* in, against what was held before it. */
  ghost predicate Follows(rels: map<Id, Relation>, order: seq<Id>, m: Move, t: Triple, held: Held, h: (Id, Relation)) {
    && Spans(rels, order, m, t, h, held.Some?)
    && (held.Some? ==>
          && h.0 == held.value.0 && h.1.claim == held.value.1.claim && h.1.until == held.value.1.until
          && h.1.firstSeen <= held.value.1.firstSeen && held.value.1.lastSeen <= h.1.lastSeen
          && (h.1.firstSeen == held.value.1.firstSeen || SomeFirst(rels, order, m, t, h.1.firstSeen))
          && (h.1.lastSeen == held.value.1.lastSeen || SomeLast(rels, order, m, t, h.1.lastSeen)))
    && (held.None? ==>
          && h.0 in order && Lands(rels, m, h.0, t) && h.1.claim == rels[h.0].claim && h.1.until == rels[h.0].until
          && SomeFirst(rels, order, m, t, h.1.firstSeen) && SomeLast(rels, order, m, t, h.1.lastSeen))
  }

  lemma LandedSays(rels: map<Id, Relation>, m: Move, x: Id, t: Triple)
    requires Lands(rels, m, x, t)
    ensures var r := Readdressed(m, rels[x]).value;
            && r.claim == rels[x].claim && r.until == rels[x].until && r.firstSeen == rels[x].firstSeen
            && r.lastSeen == if m.Repoint? then m.now else rels[x].lastSeen
  {
  }

  lemma AbsorbedSays(m: Move, e: Relation, r: Relation)
    ensures var a := Absorbed(m, e, r);
            && a.claim == e.claim && a.until == e.until
            && a.firstSeen <= e.firstSeen && a.firstSeen <= r.firstSeen && (a.firstSeen == e.firstSeen || a.firstSeen == r.firstSeen)
            && e.lastSeen <= a.lastSeen && r.lastSeen <= a.lastSeen && (m.Repoint? ==> m.now <= a.lastSeen)
            && (a.lastSeen == e.lastSeen || a.lastSeen == r.lastSeen || (m.Repoint? && a.lastSeen == m.now))
  {
    hide Union;
  }

  lemma {:induction false} GatheredFollows(rels: map<Id, Relation>, order: seq<Id>, m: Move, t: Triple, held: Held)
    requires NoRepeats(order) && (held.Some? ==> held.value.0 !in order || !Lands(rels, m, held.value.0, t))
    ensures var h := Gathered(rels, order, m, t, held);
            && (held.None? && h.None? ==> forall y :: y in order ==> !Lands(rels, m, y, t))
            && (held.Some? ==> h.Some?) && (h.Some? ==> Follows(rels, order, m, t, held, h.value))
    decreases |order|
  {
    hide Absorbed, Readdressed, Lands, Union;
    if order != [] {
      var x, rest := order[0], order[1..];
      assert order == [x] + rest && x !in rest && NoRepeats(rest) by {
        forall i | 0 <= i < |rest| ensures rest[i] != x { assert order[i + 1] != order[0]; }
        forall i, j | 0 <= i < j < |rest| ensures rest[i] != rest[j] { assert order[i + 1] != order[j + 1]; }
      }
      var next := if LandsHere(rels, m, x, t) then Joined(m, held, x, rels[x], Readdressed(m, rels[x]).value) else held;
      NextIs(rels, m, x, t);
      GatheredFollows(rels, rest, m, t, next);
      var h := Gathered(rels, order, m, t, held);
      assert h == Gathered(rels, rest, m, t, next);
      if h.Some? { FollowsOn(rels, x, rest, m, t, held, next, h.value); }
    }
  }

  predicate LandsHere(rels: map<Id, Relation>, m: Move, x: Id, t: Triple)
    ensures LandsHere(rels, m, x, t) ==> x in rels && Readdressed(m, rels[x]).Some?
  {
    Lands(rels, m, x, t)
  }

  lemma NextIs(rels: map<Id, Relation>, m: Move, x: Id, t: Triple)
    ensures LandsHere(rels, m, x, t) <==> Lands(rels, m, x, t)
  {
  }

  lemma FollowsOn(rels: map<Id, Relation>, x: Id, rest: seq<Id>, m: Move, t: Triple, held: Held, next: Held, h: (Id, Relation))
    requires x !in rest && (held.Some? ==> x != held.value.0 || !Lands(rels, m, x, t))
    requires next == if LandsHere(rels, m, x, t) then Joined(m, held, x, rels[x], Readdressed(m, rels[x]).value) else held
    requires Follows(rels, rest, m, t, next, h)
    ensures Follows(rels, [x] + rest, m, t, held, h)
  {
    hide Absorbed, Readdressed, Lands;
    NextIs(rels, m, x, t);
    var all := [x] + rest;
    assert forall y :: y in all <==> y == x || y in rest;
    SomeGrow(rels, x, rest, m, t, h);
    if Lands(rels, m, x, t) {
      LandedSays(rels, m, x, t);
      if held.Some? { AbsorbedSays(m, held.value.1, rels[x]); }
    }
  }

  lemma SomeGrow(rels: map<Id, Relation>, x: Id, rest: seq<Id>, m: Move, t: Triple, h: (Id, Relation))
    ensures SomeFirst(rels, rest, m, t, h.1.firstSeen) ==> SomeFirst(rels, [x] + rest, m, t, h.1.firstSeen)
    ensures SomeLast(rels, rest, m, t, h.1.lastSeen) ==> SomeLast(rels, [x] + rest, m, t, h.1.lastSeen)
    ensures Lands(rels, m, x, t) && rels[x].firstSeen == h.1.firstSeen ==> SomeFirst(rels, [x] + rest, m, t, h.1.firstSeen)
    ensures Lands(rels, m, x, t) && (rels[x].lastSeen == h.1.lastSeen || (m.Repoint? && m.now == h.1.lastSeen)) ==>
              SomeLast(rels, [x] + rest, m, t, h.1.lastSeen)
  {
    hide Lands;
    assert forall y :: y in [x] + rest <==> y == x || y in rest;
  }

  // --------------------------------------------------------------- the move

  /** After a move every edge keeps the claim and marker it had under its id. Its first date
      is the earliest of all the edges that came to it; its last date is at least that of
      every one, now if any was re-pointed, and no later than those. Only of the edge that
      was itself re-pointed is the date it had forgotten: it is seen now. */
  lemma MovedSays(rels: map<Id, Relation>, m: Move, id: Id)
    requires UniqueTriples(rels) && Settles(m) && id in Moved(rels, m)
    ensures id in rels
    ensures var r := Moved(rels, m)[id];
            var t := TripleOf(r);
            && Comes(rels, m, id, t) && r.claim == rels[id].claim && r.until == rels[id].until
            && (forall x :: Comes(rels, m, x, t) ==> r.firstSeen <= rels[x].firstSeen)
            && (exists x :: Comes(rels, m, x, t) && rels[x].firstSeen == r.firstSeen)
            && (forall x :: Comes(rels, m, x, t) && !(m.Repoint? && x == id && Affected(m, x, rels[x])) ==>
                  rels[x].lastSeen <= r.lastSeen)
            && (forall x :: Comes(rels, m, x, t) && m.Repoint? && Affected(m, x, rels[x]) ==> m.now <= r.lastSeen)
            && (exists x :: Comes(rels, m, x, t)
                            && (rels[x].lastSeen == r.lastSeen
                                || (m.Repoint? && Affected(m, x, rels[x]) && m.now == r.lastSeen)))
  {
    hide UniqueTriples, FoldAll, Gathered, Affected, Lands, HolderAt, Spans, Absorbed;
    var order := Sorted(AffectedIds(rels, m));
    SortedEnumerates(rels, m);
    FoldCharacterized(rels, order, m);
    var r := Moved(rels, m)[id];
    var t := TripleOf(r);
    assert Entry(FoldAll(rels, order, m), id, r);
    var held := HolderAt(rels, m, t);
    HolderIsThere(rels, m, t);
    GatheredFollows(rels, order, m, t, held);
    SpansAll(rels, order, m, t, (id, r), held.Some?);
    forall x | Comes(rels, m, x, t) && !Affected(m, x, rels[x]) ensures held == Some((x, rels[x])) { HolderIs(rels, m, t, x); }
    FirstCame(rels, order, m, t, held, r);
  }

  lemma HolderIsThere(rels: map<Id, Relation>, m: Move, t: Triple)
    requires UniqueTriples(rels)
    ensures var held := HolderAt(rels, m, t);
            held.Some? ==> var (x, e) := held.value;
                           x in rels && rels[x] == e && TripleOf(e) == t && !Affected(m, x, e) && Comes(rels, m, x, t)
  {
    ByTripleUnique(rels, t);
  }

  lemma SpansAll(rels: map<Id, Relation>, order: seq<Id>, m: Move, t: Triple, h: (Id, Relation), stood: bool)
    requires Spans(rels, order, m, t, h, stood) && Enumerates(order, rels, m)
    ensures forall x :: Comes(rels, m, x, t) && Affected(m, x, rels[x]) ==>
              && h.1.firstSeen <= rels[x].firstSeen && (m.Repoint? ==> m.now <= h.1.lastSeen)
              && (m.Relabel? || stood || x != h.0 ==> rels[x].lastSeen <= h.1.lastSeen)
  {
    hide Affected, Lands;
  }

  /** Whose dates they are. */
  lemma FirstCame(rels: map<Id, Relation>, order: seq<Id>, m: Move, t: Triple, held: Held, r: Relation)
    requires Enumerates(order, rels, m)
    requires held.Some? ==> Comes(rels, m, held.value.0, t) && rels[held.value.0] == held.value.1
    requires (held.Some? && r.firstSeen == held.value.1.firstSeen) || SomeFirst(rels, order, m, t, r.firstSeen)
    requires (held.Some? && r.lastSeen == held.value.1.lastSeen) || SomeLast(rels, order, m, t, r.lastSeen)
    ensures exists x :: Comes(rels, m, x, t) && rels[x].firstSeen == r.firstSeen
    ensures exists x :: Comes(rels, m, x, t)
                        && (rels[x].lastSeen == r.lastSeen || (m.Repoint? && Affected(m, x, rels[x]) && m.now == r.lastSeen))
  {
    hide Affected, Lands;
    if SomeFirst(rels, order, m, t, r.firstSeen) {
      var y :| y in order && Lands(rels, m, y, t) && rels[y].firstSeen == r.firstSeen;
      assert Comes(rels, m, y, t);
    }
    if SomeLast(rels, order, m, t, r.lastSeen) {
      var y :| y in order && Lands(rels, m, y, t) && (rels[y].lastSeen == r.lastSeen || (m.Repoint? && m.now == r.lastSeen));
      assert Comes(rels, m, y, t);
    }
  }
}
