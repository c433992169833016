/** The in-memory store itself, updated in place, proved write by write against
    the state functions of `GraphOps`. */
module GraphStore {
  import opened Ids
  import opened Surfaces
  import opened GraphModel
  import opened EdgeFold
  import opened GraphOps
  import opened Journal

  // --------------------------------------------- loops over the edge map

  lemma LeastIs(ids: set<Id>, x: Id)
    requires x in ids && forall y :: y in ids ==> y == x || Less(x, y)
    ensures x == Least(ids)
  {
    hide Less;
    if x != Least(ids) { LessAsymmetric(x, Least(ids)); }
  }

  function AffectedOf(order: seq<Id>, rels: map<Id, Relation>, m: Move): seq<Id> {
    if order == [] then []
    else (if order[0] in rels && Affected(m, order[0], rels[order[0]]) then [order[0]] else []) +
         AffectedOf(order[1..], rels, m)
  }

  lemma {:induction false} AffectedOfHolds(order: seq<Id>, rels: map<Id, Relation>, m: Move)
    requires Ascending(order)
    ensures Ascending(AffectedOf(order, rels, m))
    ensures forall x :: x in AffectedOf(order, rels, m) <==> x in order && x in rels && Affected(m, x, rels[x])
  {
    hide Less, Affected;
    if order != [] {
      assert order == [order[0]] + order[1..];
      AscendingTail(order);
      AffectedOfHolds(order[1..], rels, m);
      var rest := AffectedOf(order[1..], rels, m);
      assert forall j :: 0 <= j < |rest| ==> rest[j] in order[1..];
    }
  }

  lemma AscendingTail(order: seq<Id>)
    requires order != [] && Ascending(order)
    ensures Ascending(order[1..]) && forall x :: x in order[1..] ==> Less(order[0], x)
  {
    hide Less;
    var rest := order[1..];
    forall i, j | 0 <= i < j < |rest| ensures Less(rest[i], rest[j]) { assert Less(order[i + 1], order[j + 1]); }
    forall i | 0 <= i < |rest| ensures Less(order[0], rest[i]) { assert Less(order[0], order[i + 1]); }
  }

  /** Walking every edge and skipping the unaffected ones folds the affected ones. */
  lemma WalkFoldsAffected(rels: map<Id, Relation>, order: seq<Id>, m: Move)
    requires UniqueTriples(rels) && Settles(m) && NoRepeats(order)
    ensures FoldAll(rels, order, m) == FoldAll(rels, AffectedOf(order, rels, m), m)
    decreases |order|
  {
    hide UniqueTriples, Affected, Readdressed;
    if order != [] {
      var id, rest := order[0], order[1..];
      assert NoRepeats(rest);
      var after := Step(rels, id, m);
      if id in rels && Affected(m, id, rels[id]) {
        StepFacts(rels, id, m);
        assert id !in rest by {
          forall i | 0 <= i < |rest| ensures rest[i] != id { assert order[i + 1] == rest[i]; }
        }
        SameAffected(rest, rels, after, m);
        WalkFoldsAffected(after, rest, m);
        assert AffectedOf(order, rels, m)[1..] == AffectedOf(rest, rels, m);
      } else {
        WalkFoldsAffected(rels, rest, m);
        assert AffectedOf(order, rels, m) == AffectedOf(rest, rels, m);
      }
    }
  }

  lemma {:induction false} SameAffected(order: seq<Id>, rels: map<Id, Relation>, after: map<Id, Relation>, m: Move)
    requires forall x :: x in order ==> ((x in rels && Affected(m, x, rels[x])) <==> (x in after && Affected(m, x, after[x])))
    ensures AffectedOf(order, rels, m) == AffectedOf(order, after, m)
  {
    if order != [] {
      assert order == [order[0]] + order[1..];
      assert order[0] in order;
      SameAffected(order[1..], rels, after, m);
    }
  }

  /** The whole sorted walk is the move. */
  lemma WalkMoves(rels: map<Id, Relation>, m: Move)
    requires UniqueTriples(rels) && Settles(m)
    ensures FoldAll(rels, Sorted(rels.Keys), m) == Moved(rels, m)
  {
    hide Less, UniqueTriples, FoldAll, Affected;
    var order := Sorted(rels.Keys);
    AscendingDistinct(order);
    WalkFoldsAffected(rels, order, m);
    AffectedOfHolds(order, rels, m);
    ListingIsSorted(AffectedOf(order, rels, m), AffectedIds(rels, m));
  }

  lemma {:induction false} FoldAppend(rels: map<Id, Relation>, order: seq<Id>, x: Id, m: Move)
    ensures FoldAll(rels, order + [x], m) == Step(FoldAll(rels, order, m), x, m)
    decreases |order|
  {
    hide Step;
    if order == [] {
      assert [] + [x] == [x] && [x][1..] == [];
    } else {
      assert (order + [x])[1..] == order[1..] + [x];
      FoldAppend(Step(rels, order[0], m), order[1..], x, m);
    }
  }

  // ------------------------------------------------------------ the store

  class InMemoryGraph {
    var nodes: map<Id, Node>
    var relations: map<Id, Relation>
    var sequence: nat
    var relationSequence: nat

    ghost function State(): Graph
      reads this
    {
      Graph(nodes, relations, sequence, relationSequence)
    }

    /** What every write keeps even when it fails. */
    ghost predicate Valid()
      reads this
    {
      UniqueTriples(relations) && IdsMinted(State())
    }

    constructor ()
      ensures Valid() && State() == EMPTY
    {
      nodes, relations, sequence, relationSequence := map[], map[], 0, 0;
    }

    // ---------------------------------------------------------- reads

    method FindByTriple(t: Triple) returns (found: Option<Id>)
      ensures found == ByTriple(relations, t)
    {
      var matches := set x | x in relations && TripleOf(relations[x]) == t;
      assert matches == Matches(relations, t);
      if matches == {} { return None; }
      var x := PickLeast(matches);
      LeastIs(matches, x);
      return Some(x);
    }

    // ---------------------------------------------------- node writes

    method CreateNode(scope: string, name: string, typ: string, facts: seq<Fact>, embedding: seq<real>, now: int,
                      aliases: seq<string>) returns (out: Outcome<Id>)
      modifies this
      ensures Done(State(), out) == GraphOps.CreateNode(old(State()), scope, name, typ, facts, embedding, now, aliases)
    {
      if !UnitNorm(embedding) { return Err(BudgetExceeded); }
      sequence := sequence + 1;
      var id := NodeId(sequence);
      var canonical := NormalizeAliases(name, aliases);
      if canonical.None? { return Err(ValueError); }
      if !NodeOk(scope, name, typ) { return Err(ValidationError); }
      nodes := nodes[id := Node(scope, name, canonical.value, typ, facts, embedding, true, 0, now, now, None)];
      return Ok(id);
    }

    method AddAliases(id: Id, names: seq<string>) returns (out: Outcome<()>)
      modifies this
      ensures Done(State(), out) == GraphOps.AddAliases(old(State()), id, names)
    {
      if id !in nodes { return Err(NodeNotFound); }
      var canonical := NormalizeAliases(nodes[id].name, nodes[id].aliases + names);
      if canonical.None? { return Err(ValueError); }
      nodes := nodes[id := nodes[id].(aliases := canonical.value)];
      return Ok(());
    }

    method ReplaceFacts(id: Id, facts: seq<Fact>, typ: string, embedding: seq<real>, now: int) returns (out: Outcome<()>)
      modifies this
      ensures Done(State(), out) == GraphOps.ReplaceFacts(old(State()), id, facts, typ, embedding, now)
    {
      if id !in nodes { return Err(NodeNotFound); }
      if !UnitNorm(embedding) { return Err(BudgetExceeded); }
      nodes := nodes[id := nodes[id].(facts := facts, typ := typ, embedding := embedding, touchedAt := now)];
      return Ok(());
    }

    // ----------------------------------------------------- edge moves

    /** One edge of a move: dropped, folded into the edge already there, or moved. */
    method RepointOne(id: Id, moved: set<Id>, onto: Id, now: int, ghost m: Move)
      requires UniqueTriples(relations) && m.Repoint? && m.moved == moved && m.onto == onto && m.now == now && Settles(m)
      requires id in relations && Affected(m, id, relations[id])
      modifies this`relations
      ensures relations == Step(old(relations), id, m)
    {
      hide UniqueTriples, ByTriple, Union;
      var r := relations[id];
      var source := if r.source in moved then onto else r.source;
      var target := if r.target in moved then onto else r.target;
      relations := relations - {id};
      if source == target { return; }
      var existing := FindByTriple(Triple(r.scope, source, r.typ, target));
      RestUnique(old(relations), id);
      ByTripleUnique(relations, Triple(r.scope, source, r.typ, target));
      if existing.None? {
        relations := relations[id := r.(source := source, target := target, lastSeen := now)];
        return;
      }
      var e := relations[existing.value];
      var evidence := MergeEvidence(e.entryIds, r.entryIds);
      relations := relations[existing.value :=
        e.(entryIds := evidence, firstSeen := Min(e.firstSeen, r.firstSeen),
           lastSeen := Max(Max(e.lastSeen, r.lastSeen), now))];
    }

    /** Re-point every edge of *moved* at *onto*, in relation-id order, folding what collides. */
    method Repoint(moved: set<Id>, onto: Id, now: int, only: Option<set<Id>>)
      requires Valid() && onto !in moved
      modifies this`relations
      ensures relations == Moved(old(relations), Move.Repoint(moved, onto, only, now))
      ensures Valid()
    {
      hide UniqueTriples, Moved, Step, FoldAll, IdsMinted, Walking, Less, Readdressed;
      ghost var m := Move.Repoint(moved, onto, only, now);
      var snapshot := relations;
      var order := SortIds(relations.Keys);
      WalkStarts(snapshot, order, m);
      for i := 0 to |order|
        invariant Walking(snapshot, relations, order, m, i)
      {
        var id := order[i];
        WalkStep(snapshot, relations, order, m, i);
        if !(only.Some? && id !in only.value) && (snapshot[id].source in moved || snapshot[id].target in moved) {
          RepointOne(id, moved, onto, now, m);
        }
      }
      WalkEnds(snapshot, relations, order, m);
      WalkMoves(snapshot, m);
      MovedFacts(snapshot, m);
      MovedKeepsMinted(old(State()), m);
    }

    method DropRelationsTouching(ids: set<Id>)
      modifies this`relations
      ensures relations == DropTouching(old(relations), ids)
    {
      var rest := set x | x in relations && Touches(relations[x], ids);
      while rest != {}
        invariant forall x :: x in rest ==> x in old(relations) && Touches(old(relations)[x], ids)
        invariant relations == map x | x in old(relations) && (x in rest || !Touches(old(relations)[x], ids)) :: old(relations)[x]
        decreases rest
      {
        var x :| x in rest;
        relations := relations - {x};
        rest := rest - {x};
      }
    }

    // -------------------------------------------------------- merging

    /** Delete one by one; a repeated id is found missing the second time. */
    method RemoveAll(ids: seq<Id>) returns (complete: bool)
      modifies this`nodes
      ensures (nodes, complete) == Deleting(old(nodes), ids)
    {
      for i := 0 to |ids|
        invariant Deleting(nodes, ids[i..]) == Deleting(old(nodes), ids)
      {
        assert ids[i..][0] == ids[i] && ids[i..][1..] == ids[i + 1..];
        if ids[i] !in nodes { return false; }
        nodes := nodes - {ids[i]};
      }
      assert ids[|ids|..] == [];
      return true;
    }

    static method SurfacesOf(nodes: map<Id, Node>, absorbed: seq<Id>) returns (surfaces: seq<string>)
      requires forall a :: a in absorbed ==> a in nodes
      ensures surfaces == AbsorbedSurfaces(nodes, absorbed)
    {
      surfaces := [];
      for i := 0 to |absorbed|
        invariant surfaces + AbsorbedSurfaces(nodes, absorbed[i..]) == AbsorbedSurfaces(nodes, absorbed)
      {
        assert absorbed[i..][0] == absorbed[i] && absorbed[i..][1..] == absorbed[i + 1..] && absorbed[i] in absorbed;
        surfaces := surfaces + [nodes[absorbed[i]].name] + nodes[absorbed[i]].aliases;
      }
      assert absorbed[|absorbed|..] == [];
    }

    method MergeNodes(survivor: Id, absorbed: seq<Id>, name: string, typ: string, facts: seq<Fact>,
                      embedding: seq<real>, now: int) returns (out: Outcome<()>)
      requires Valid()
      modifies this
      ensures Done(State(), out) == GraphOps.MergeNodes(old(State()), survivor, absorbed, name, typ, facts, embedding, now)
      ensures Valid()
    {
      hide UniqueTriples, Moved, MintedNode, MintedRelation, UnitNorm, Canonical, AnyBlank, Deleting, AbsorbedSurfaces;
      if survivor !in nodes { return Err(NodeNotFound); }
      for i := 0 to |absorbed|
        invariant forall j :: 0 <= j < i ==> absorbed[j] in nodes
      {
        if absorbed[i] !in nodes { return Err(NodeNotFound); }
      }
      if survivor in absorbed { return Err(ValueError); }
      for i := 0 to |absorbed|
        invariant forall j :: 0 <= j < i ==> nodes[absorbed[j]].scope == nodes[survivor].scope
      {
        if nodes[absorbed[i]].scope != nodes[survivor].scope { return Err(ValueError); }
      }
      if !UnitNorm(embedding) { return Err(BudgetExceeded); }
      var held := nodes;
      DeletingKeeps(nodes, absorbed);
      var complete := RemoveAll(absorbed);
      if !complete { return Err(KeyError); }
      var surfaces := SurfacesOf(held, absorbed);
      var canonical := NormalizeAliases(name, held[survivor].aliases + surfaces);
      if canonical.None? { return Err(ValueError); }
      nodes := nodes[survivor := held[survivor].(name := name, aliases := canonical.value, typ := typ, facts := facts,
                                                 embedding := embedding, touchedAt := now)];
      Repoint((set a | a in absorbed), survivor, now, None);
      return Ok(());
    }

    // ------------------------------------------------------ splitting

    /** Whether the parts claim edges of the node only, each at most once. */
    method CheckClaims(id: Id, parts: seq<SplitPart>) returns (ok: bool)
      ensures ok == ClaimsOk(State(), id, parts)
    {
      hide Touches;
      var claimed: seq<Id> := [];
      for i := 0 to |parts|
        invariant claimed == Claims(parts[..i]) && ClaimsOk(State(), id, parts[..i])
      {
        ClaimsAppend(parts, i);
        var wanted := parts[i].relationIds;
        for j := 0 to |wanted|
          invariant claimed == Claims(parts[..i]) + wanted[..j] && NoRepeats(claimed)
          invariant forall x :: x in claimed ==> x in relations && Touches(relations[x], {id})
        {
          assert wanted[..j + 1] == wanted[..j] + [wanted[j]];
          assert claimed + [wanted[j]] <= Claims(parts) by {
            assert claimed + [wanted[j]] == Claims(parts[..i]) + wanted[..j + 1];
            assert wanted[..j + 1] <= wanted;
          }
          PrefixClaims(State(), id, parts, claimed, wanted[j]);
          if wanted[j] !in relations || !Touches(relations[wanted[j]], {id}) || wanted[j] in claimed { return false; }
          claimed := claimed + [wanted[j]];
        }
        assert wanted[..|wanted|] == wanted;
      }
      assert parts[..|parts|] == parts;
      return true;
    }

    method SplitNode(id: Id, parts: seq<SplitPart>, now: int) returns (out: Outcome<seq<Id>>)
      requires Valid()
      modifies this
      ensures Done(State(), out) == GraphOps.SplitNode(old(State()), id, parts, now)
      ensures Valid()
    {
      hide UniqueTriples, Moved, MintedNode, MintedRelation, NodeId, PartNode, Claims, NoRepeats;
      if parts == [] { return Err(ValueError); }
      if id !in nodes { return Err(NodeNotFound); }
      var ok := CheckClaims(id, parts);
      if !ok { return Err(ValueError); }
      var scope := nodes[id].scope;
      nodes := nodes - {id};
      ghost var start := State();
      var created: seq<Id> := [];
      assert parts[0..] == parts && forall ids: seq<Id> :: [] + ids == ids;
      for i := 0 to |parts|
        invariant Valid() && MintedNode(id, sequence)
        invariant SplitInto(start, id, scope, parts, now).0 == SplitInto(State(), id, scope, parts[i..], now).0
        invariant SplitInto(start, id, scope, parts, now).1 == created + SplitInto(State(), id, scope, parts[i..], now).1
      {
        assert parts[i..][0] == parts[i] && parts[i..][1..] == parts[i + 1..];
        FreshNode(State());
        MintedIsNotFresh(id, sequence);
        MintedMonotone(id, sequence, sequence + 1);
        ghost var before := State();
        sequence := sequence + 1;
        var part := NodeId(sequence);
        nodes := nodes[part := PartNode(scope, parts[i], now)];
        Repoint({id}, part, now, Some(set x | x in parts[i].relationIds));
        assert State() == SplitFirst(before, id, scope, parts[i], now);
        ghost var rest := SplitInto(State(), id, scope, parts[i + 1..], now).1;
        assert created + ([part] + rest) == created + [part] + rest;
        created := created + [part];
      }
      assert parts[|parts|..] == [] && created + [] == created;
      FewerUnique(relations, DropTouching(relations, {id}));
      DropRelationsTouching({id});
      return Ok(created);
    }

    // ------------------------------------------------------- deleting

    method DeleteNodes(ids: seq<Id>)
      requires Valid()
      modifies this
      ensures State() == GraphOps.DeleteNodes(old(State()), ids) && Valid()
    {
      hide UniqueTriples, MintedNode, MintedRelation;
      var removed := {};
      for i := 0 to |ids|
        invariant removed == set x | x in ids[..i] && x in old(nodes)
        invariant nodes == old(nodes) - removed
        invariant relations == old(relations) && sequence == old(sequence) && relationSequence == old(relationSequence)
      {
        assert ids[..i + 1] == ids[..i] + [ids[i]];
        if ids[i] in nodes {
          removed := removed + {ids[i]};
          nodes := nodes - {ids[i]};
        }
      }
      assert ids[..|ids|] == ids;
      if removed != {} {
        FewerUnique(relations, DropTouching(relations, removed));
        DropRelationsTouching(removed);
      }
    }

    // ------------------------------------------------------ relations

    method UpsertRelation(scope: string, source: Id, target: Id, typ: string, claim: Option<string>, entryIds: seq<Id>,
                          until: Option<string>, now: int) returns (out: Outcome<Id>)
      modifies this
      ensures Done(State(), out) ==
              GraphOps.UpsertRelation(old(State()), scope, source, target, typ, claim, entryIds, until, now)
    {
      hide ByTriple, StatementOk, EdgeTypeOk, Union, RelationId;
      if !EdgeTypeOk(typ) || entryIds == [] { return Err(ValueError); }
      if source !in nodes || target !in nodes { return Err(NodeNotFound); }
      if source == target { return Err(ValueError); }
      if nodes[source].scope != scope || nodes[target].scope != scope { return Err(ValueError); }
      var existing := FindByTriple(Triple(scope, source, typ, target));
      FoundIsThere(relations, Triple(scope, source, typ, target));
      if existing.Some? {
        var e := relations[existing.value];
        var evidence := MergeEvidence(e.entryIds, entryIds);
        relations := relations[existing.value :=
          e.(claim := if claim.Some? then claim.value else e.claim, entryIds := evidence,
             until := if claim.Some? then until else e.until, lastSeen := now)];
        return Ok(existing.value);
      }
      if claim.None? { return Err(ValueError); }
      relationSequence := relationSequence + 1;
      var id := RelationId(relationSequence);
      if !StatementOk(typ, claim.value, entryIds, until) { return Err(ValidationError); }
      relations := relations[id := Relation(scope, source, target, typ, claim.value, entryIds, until, now, now)];
      return Ok(id);
    }

    method RetireRelation(id: Id) returns (out: Outcome<()>)
      modifies this
      ensures Done(State(), out) == GraphOps.RetireRelation(old(State()), id)
    {
      if id !in relations { return Err(NodeNotFound); }
      relations := relations - {id};
      return Ok(());
    }

    /** One edge of a rename. */
    method RelabelOne(id: Id, was: string, becomes: string)
      requires UniqueTriples(relations) && was != becomes && id in relations && relations[id].typ == was
      modifies this`relations
      ensures relations == Step(old(relations), id, Relabel(old(relations)[id].scope, was, becomes))
    {
      hide UniqueTriples, ByTriple, Union;
      var r := relations[id];
      RestUnique(relations, id);
      SameFind(relations, id, Triple(r.scope, r.source, becomes, r.target));
      ByTripleUnique(relations - {id}, Triple(r.scope, r.source, becomes, r.target));
      var target := FindByTriple(Triple(r.scope, r.source, becomes, r.target));
      relations := relations - {id};
      if target.None? {
        relations := relations[id := r.(typ := becomes)];
        return;
      }
      var e := relations[target.value];
      var evidence := MergeEvidence(e.entryIds, r.entryIds);
      relations := relations[target.value :=
        e.(entryIds := evidence, firstSeen := Min(e.firstSeen, r.firstSeen), lastSeen := Max(e.lastSeen, r.lastSeen))];
    }

    /** Re-label the edges one at a time, in any order: no two of them can collide. */
    method RenameEdgeType(scope: string, was: string, becomes: string) returns (out: Outcome<nat>)
      requires Valid()
      modifies this`relations
      ensures Done(State(), out) == GraphOps.RenameEdgeType(old(State()), scope, was, becomes)
      ensures Valid()
    {
      hide UniqueTriples, Moved, Step, FoldAll, IdsMinted, EdgeTypeOk, Relabelling;
      if !EdgeTypeOk(becomes) || was == becomes { return Err(ValueError); }
      ghost var m := Relabel(scope, was, becomes);
      ghost var order: seq<Id> := [];
      var snapshot := relations;
      var rest := set x | x in relations && relations[x].scope == scope && relations[x].typ == was;
      var renamed := 0;
      RelabelStarts(snapshot, rest, m);
      while rest != {}
        invariant Relabelling(snapshot, relations, order, rest, m) && renamed == |order|
        decreases rest
      {
        var x :| x in rest;
        RelabelStep(snapshot, relations, order, rest, m, x);
        RelabelOne(x, was, becomes);
        rest := rest - {x};
        order := order + [x];
        renamed := renamed + 1;
      }
      RelabelEnds(snapshot, relations, order, m);
      MovedFacts(snapshot, m);
      MovedKeepsMinted(old(State()), m);
      return Ok(renamed);
    }

    // ---------------------------------------------------- bookkeeping

    method MarkDirty(ids: seq<Id>)
      modifies this`nodes
      ensures State() == GraphOps.MarkDirty(old(State()), ids)
    {
      for i := 0 to |ids|
        invariant nodes == map n | n in old(nodes) ::
                    if n in ids[..i] then old(nodes)[n].(dirty := true) else old(nodes)[n]
      {
        assert ids[..i + 1] == ids[..i] + [ids[i]];
        if ids[i] in nodes && !nodes[ids[i]].dirty { nodes := nodes[ids[i] := nodes[ids[i]].(dirty := true)]; }
      }
      assert ids[..|ids|] == ids;
    }

    method ClearDirty(ids: seq<Id>, now: int)
      modifies this`nodes
      ensures State() == GraphOps.ClearDirty(old(State()), ids, now)
    {
      for i := 0 to |ids|
        invariant nodes == map n | n in old(nodes) ::
                    if n in ids[..i] then old(nodes)[n].(dirty := false, dreamedAt := Some(now)) else old(nodes)[n]
      {
        assert ids[..i + 1] == ids[..i] + [ids[i]];
        if ids[i] in nodes { nodes := nodes[ids[i] := nodes[ids[i]].(dirty := false, dreamedAt := Some(now))]; }
      }
      assert ids[..|ids|] == ids;
    }

    method RecordRead(ids: seq<Id>)
      modifies this`nodes
      ensures State() == GraphOps.RecordRead(old(State()), ids)
    {
      for i := 0 to |ids|
        invariant nodes.Keys == old(nodes).Keys
        invariant forall n :: n in nodes ==> Counted(nodes[n], Times(n, ids[i..]), old(nodes)[n], Times(n, ids))
      {
        assert ids[i..][0] == ids[i] && ids[i..][1..] == ids[i + 1..];
        if ids[i] in nodes { nodes := nodes[ids[i] := nodes[ids[i]].(readCount := nodes[ids[i]].readCount + 1)]; }
      }
      assert ids[|ids|..] == [];
    }
  }

  /** What the walk has done so far, and that the rest of it still reads what the snapshot held. */
  ghost predicate Walking(snapshot: map<Id, Relation>, rels: map<Id, Relation>, order: seq<Id>, m: Move, i: nat)
    requires i <= |order|
  {
    && UniqueTriples(rels) && FoldAll(rels, order[i..], m) == FoldAll(snapshot, order, m)
    && forall x :: x in order[i..] ==>
         x in snapshot && if Affected(m, x, snapshot[x]) then x in rels && rels[x] == snapshot[x]
                          else x in rels ==> !Affected(m, x, rels[x])
  }

  lemma WalkStep(snapshot: map<Id, Relation>, rels: map<Id, Relation>, order: seq<Id>, m: Move, i: nat)
    requires i < |order| && Walking(snapshot, rels, order, m, i) && NoRepeats(order) && Settles(m)
    ensures order[i] in snapshot
    ensures Affected(m, order[i], snapshot[order[i]]) ==>
              order[i] in rels && rels[order[i]] == snapshot[order[i]] && UniqueTriples(rels)
    ensures Walking(snapshot, if Affected(m, order[i], snapshot[order[i]]) then Step(rels, order[i], m) else rels, order, m, i + 1)
  {
    hide UniqueTriples, Affected, Readdressed;
    var id := order[i];
    assert order[i..][0] == id && order[i..][1..] == order[i + 1..];
    assert id in order[i..] && forall x :: x in order[i + 1..] ==> x in order[i..];
    var rest := order[i + 1..];
    forall x | x in rest ensures x != id {
      var k :| 0 <= k < |rest| && rest[k] == x;
      assert order[i + 1 + k] == x;
    }
    if Affected(m, id, snapshot[id]) { StepFacts(rels, id, m); }
  }

  lemma WalkStarts(snapshot: map<Id, Relation>, order: seq<Id>, m: Move)
    requires UniqueTriples(snapshot) && order == Sorted(snapshot.Keys)
    ensures NoRepeats(order) && Walking(snapshot, snapshot, order, m, 0)
  {
    hide UniqueTriples, FoldAll, Less, Affected;
    AscendingDistinct(order);
    assert order[0..] == order;
  }

  lemma WalkEnds(snapshot: map<Id, Relation>, rels: map<Id, Relation>, order: seq<Id>, m: Move)
    requires Walking(snapshot, rels, order, m, |order|)
    ensures rels == FoldAll(snapshot, order, m)
  {
    assert order[|order|..] == [];
  }

  lemma RestUnique(rels: map<Id, Relation>, id: Id)
    requires UniqueTriples(rels)
    ensures UniqueTriples(rels - {id})
  {
  }

  lemma MovedKeepsMinted(g: Graph, m: Move)
    requires UniqueTriples(g.rels) && Settles(m) && IdsMinted(g)
    ensures IdsMinted(g.(rels := Moved(g.rels, m)))
  {
    hide Moved, UniqueTriples, MintedNode, MintedRelation;
    MovedFacts(g.rels, m);
  }

  predicate Counted(n: Node, left: nat, was: Node, all: nat) {
    n == was.(readCount := n.readCount) && n.readCount + left == was.readCount + all
  }

  lemma {:induction false} DeletingKeeps(nodes: map<Id, Node>, ids: seq<Id>)
    ensures forall n :: n in Deleting(nodes, ids).0 ==> n in nodes
  {
    if ids != [] && ids[0] in nodes { DeletingKeeps(nodes - {ids[0]}, ids[1..]); }
  }

  lemma FewerUnique(rels: map<Id, Relation>, fewer: map<Id, Relation>)
    requires UniqueTriples(rels) && forall x :: x in fewer ==> x in rels && fewer[x] == rels[x]
    ensures UniqueTriples(fewer)
  {
  }

  lemma FoundIsThere(rels: map<Id, Relation>, t: Triple)
    ensures ByTriple(rels, t).Some? ==> ByTriple(rels, t).value in rels && TripleOf(rels[ByTriple(rels, t).value]) == t
  {
  }

  lemma SameFind(rels: map<Id, Relation>, id: Id, t: Triple)
    requires id in rels && TripleOf(rels[id]) != t
    ensures ByTriple(rels - {id}, t) == ByTriple(rels, t)
  {
    assert Matches(rels - {id}, t) == Matches(rels, t);
  }

  /** The edges of *order* are re-labelled, those of *rest* still to come. */
  ghost predicate Relabelling(snapshot: map<Id, Relation>, rels: map<Id, Relation>, order: seq<Id>, rest: set<Id>, m: Move) {
    && UniqueTriples(rels) && rels == FoldAll(snapshot, order, m) && NoRepeats(order)
    && (forall x :: x in order ==> x in AffectedIds(snapshot, m) && x !in rest)
    && (forall x :: x in AffectedIds(snapshot, m) ==> x in order || x in rest)
    && (forall x :: x in rest ==> x in snapshot && Affected(m, x, snapshot[x]) && x in rels && rels[x] == snapshot[x])
  }

  lemma RelabelStarts(snapshot: map<Id, Relation>, rest: set<Id>, m: Move)
    requires UniqueTriples(snapshot) && rest == AffectedIds(snapshot, m)
    ensures Relabelling(snapshot, snapshot, [], rest, m)
  {
    hide UniqueTriples, Affected;
  }

  lemma RelabelStep(snapshot: map<Id, Relation>, rels: map<Id, Relation>, order: seq<Id>, rest: set<Id>, m: Move, x: Id)
    requires Relabelling(snapshot, rels, order, rest, m) && x in rest && Settles(m)
    ensures x in rels && x in snapshot && Affected(m, x, rels[x]) && UniqueTriples(rels)
    ensures Relabelling(snapshot, Step(rels, x, m), order + [x], rest - {x}, m)
  {
    hide UniqueTriples, Affected, FoldAll, Step;
    StepFacts(rels, x, m);
    FoldAppend(snapshot, order, x, m);
  }

  lemma RelabelEnds(snapshot: map<Id, Relation>, rels: map<Id, Relation>, order: seq<Id>, m: Move)
    requires Relabelling(snapshot, rels, order, {}, m) && m.Relabel? && Settles(m) && UniqueTriples(snapshot)
    ensures rels == Moved(snapshot, m) && |order| == |AffectedIds(snapshot, m)|
  {
    hide UniqueTriples, Affected, FoldAll, Less, ClashFree;
    RelabelClashFree(snapshot, m);
    SortedEnumerates(snapshot, m);
    assert Enumerates(order, snapshot, m);
    OrderIrrelevant(snapshot, order, Sorted(AffectedIds(snapshot, m)), m);
    DistinctCount(order, AffectedIds(snapshot, m));
  }

  lemma {:induction false} DistinctCount(order: seq<Id>, ids: set<Id>)
    requires NoRepeats(order) && forall x :: x in order <==> x in ids
    ensures |order| == |ids|
  {
    if order == [] {
      assert ids == {};
    } else {
      var x, rest := order[0], order[1..];
      assert order == [x] + rest;
      assert x in ids && x !in rest by { forall i | 0 <= i < |rest| ensures rest[i] != x { assert order[i + 1] == rest[i]; } }
      assert forall i, j :: 0 <= i < j < |rest| ==> order[i + 1] == rest[i] && order[j + 1] == rest[j];
      DistinctCount(rest, ids - {x});
    }
  }

  lemma {:induction false} ClaimsAppend(parts: seq<SplitPart>, i: nat)
    requires i < |parts|
    ensures Claims(parts[..i + 1]) == Claims(parts[..i]) + parts[i].relationIds
    ensures Claims(parts[..i + 1]) <= Claims(parts)
    decreases |parts|
  {
    if i == 0 {
      assert parts[..1][1..] == [] && parts[..0] == [];
    } else {
      ClaimsAppend(parts[1..], i - 1);
      assert parts[..i + 1][1..] == parts[1..][..i] && parts[..i][1..] == parts[1..][..i - 1];
    }
  }

  lemma PrefixClaims(g: Graph, id: Id, parts: seq<SplitPart>, prefix: seq<Id>, x: Id)
    requires prefix + [x] <= Claims(parts)
    ensures ClaimsOk(g, id, parts) ==> x in g.rels && Touches(g.rels[x], {id}) && x !in prefix
  {
    hide Claims, Touches;
    var all := Claims(parts);
    assert all[|prefix|] == (prefix + [x])[|prefix|] == x;
    forall i | 0 <= i < |prefix| && ClaimsOk(g, id, parts) ensures prefix[i] != x {
      assert all[i] == (prefix + [x])[i] == prefix[i];
    }
  }
}
