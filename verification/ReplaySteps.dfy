/** One journalled call, then the replay of its event: the simulation is kept. */
module ReplaySteps {
  import opened Ids
  import opened Surfaces
  import opened GraphModel
  import opened EdgeFold
  import opened GraphOps
  import opened Journal
  import opened Replay
  import opened ReplayEdges

  /** Everything a step may assume about the live store and the replay so far. */
  ghost predicate Synced(g: Graph, scope: string, st: State) {
    WellFormed(g) && WellFormed(st.graph) && Simulates(g, scope, st)
  }

  /** The event replays, and leaves live and replayed store in step again. */
  ghost predicate Follows(g: Graph, scope: string, st: State, op: Op, ts: int) {
    var e := EventFor(g, op, ts);
    e.Some? && e.value.scope == scope &&
    var next := ApplyEvent(st, e.value);
    next.Ok? && Synced(After(g, op), scope, next.value)
  }

  lemma PlaceholderIsUnit()
    ensures UnitNorm(REPLAY_EMBEDDING)
  {
    assert REPLAY_EMBEDDING[1..] == [];
    assert SquaredNorm(REPLAY_EMBEDDING) == 1.0;
  }

  lemma TwinOf(g: Graph, scope: string, st: State, id: Id)
    requires Simulates(g, scope, st) && InScope(g.nodes, scope, id)
    ensures id in st.nodes && st.nodes[id] in st.graph.nodes
    ensures SameNodeBeliefs(g.nodes[id], st.graph.nodes[st.nodes[id]])
  {
  }

  lemma ReplayedScope(g: Graph, scope: string, st: State, n': Id)
    requires Simulates(g, scope, st) && n' in st.graph.nodes
    ensures st.graph.nodes[n'].scope == scope
  {
    var n :| InScope(g.nodes, scope, n) && st.nodes[n] == n';
    assert SameNodeBeliefs(g.nodes[n], st.graph.nodes[st.nodes[n]]);
  }

  lemma EndpointsInScope(g: Graph, scope: string, x: Id)
    requires WellFormed(g) && EdgeInScope(g.rels, scope, x)
    ensures InScope(g.nodes, scope, g.rels[x].source) && InScope(g.nodes, scope, g.rels[x].target)
  {
    assert EdgeOk(g, g.rels[x]);
  }

  // --------------------------------------------------------------- creating

  /** Mint corresponding nodes on both sides. */
  lemma AddedSimulates(g: Graph, scope: string, st: State, n: Node, n': Node)
    requires Synced(g, scope, st) && n.scope == scope && SameNodeBeliefs(n, n')
    ensures var id, minted := NodeId(g.sequence + 1), NodeId(st.graph.sequence + 1);
            Simulates(g.(sequence := g.sequence + 1, nodes := g.nodes[id := n]), scope,
                      State(st.graph.(sequence := st.graph.sequence + 1, nodes := st.graph.nodes[minted := n']),
                            st.nodes[id := minted], st.rels))
  {
    hide NodeId, NodeSim, EdgeSim, SameNodeBeliefs, EdgesSound, NodesSound, UniqueTriples, MintedNode;
    FreshNode(g);
    FreshNode(st.graph);
    var id, minted := NodeId(g.sequence + 1), NodeId(st.graph.sequence + 1);
    NodeSimAdd(g.nodes, scope, st.graph.nodes, st.nodes, id, minted, n, n');
    forall x | EdgeInScope(g.rels, scope, x) ensures NamesKept(g.rels[x], st.nodes, st.nodes[id := minted]) {
      EndpointsInScope(g, scope, x);
    }
    EdgeSimRenamed(g.rels, scope, st.graph.rels, st.nodes, st.rels, st.nodes[id := minted]);
  }

  lemma StepCreated(g: Graph, scope: string, st: State, op: Op, ts: int)
    requires Synced(g, scope, st) && op.Create? && op.scope == scope && EventFor(g, op, ts).Some?
    ensures Follows(g, scope, st, op, ts)
  {
    hide WellFormed, Canonical, UnitNorm, NodeId, Simulates, NodeOk;
    PlaceholderIsUnit();
    CreateKeepsWellFormed(g, op.scope, op.name, op.typ, op.facts, op.embedding, op.now, op.aliases);
    CanonicalRoutes(op.name, op.aliases);
    CanonicalIdempotent(op.name, op.aliases);
    var n := After(g, op).nodes[NodeId(g.sequence + 1)];
    CreateKeepsWellFormed(st.graph, op.scope, op.name, op.typ, op.facts, REPLAY_EMBEDDING, ts, n.aliases);
    AddedSimulates(g, scope, st, n, n.(embedding := REPLAY_EMBEDDING, createdAt := ts, touchedAt := ts));
  }

  // ----------------------------------------------------- one-node rewrites

  lemma PutSimulates(g: Graph, scope: string, st: State, id: Id, n: Node, n': Node)
    requires Simulates(g, scope, st) && InScope(g.nodes, scope, id)
    requires n.scope == scope && SameNodeBeliefs(n, n')
    ensures id in st.nodes
    ensures Simulates(g.(nodes := g.nodes[id := n]), scope,
                      st.(graph := st.graph.(nodes := st.graph.nodes[st.nodes[id] := n'])))
  {
    NodeSimPut(g.nodes, scope, st.graph.nodes, st.nodes, id, n, n');
  }

  lemma SoundAliases(g: Graph, id: Id)
    requires WellFormed(g) && id in g.nodes
    ensures g.nodes[id].aliases == Canonical(g.nodes[id].name, g.nodes[id].aliases) && !AnyBlank(g.nodes[id].aliases)
  {
    assert NodeSound(g.nodes[id]);
  }

  lemma StepAliased(g: Graph, scope: string, st: State, op: Op, ts: int)
    requires Synced(g, scope, st) && op.Alias? && InScope(g.nodes, scope, op.id) && EventFor(g, op, ts).Some?
    ensures Follows(g, scope, st, op, ts)
  {
    hide WellFormed, Canonical, Simulates;
    var id, n := op.id, g.nodes[op.id];
    SoundAliases(g, id);
    TwinOf(g, scope, st, id);
    var n' := st.graph.nodes[st.nodes[id]];
    var named := Canonical(n.name, n.aliases + op.names);
    CanonicalRoutes(n.name, n.aliases + op.names);
    CanonicalRestates(n.name, n.aliases, op.names);
    assert !AnyBlank(n'.aliases + named);
    AliasesKeepWellFormed(g, id, op.names);
    AliasesKeepWellFormed(st.graph, st.nodes[id], named);
    PutSimulates(g, scope, st, id, n.(aliases := named), n'.(aliases := named));
  }

  lemma StepRewritten(g: Graph, scope: string, st: State, op: Op, ts: int)
    requires Synced(g, scope, st) && op.Rewrite? && InScope(g.nodes, scope, op.id) && EventFor(g, op, ts).Some?
    ensures Follows(g, scope, st, op, ts)
  {
    hide WellFormed, UnitNorm, Simulates;
    PlaceholderIsUnit();
    var id := op.id;
    TwinOf(g, scope, st, id);
    var n, n' := g.nodes[id], st.graph.nodes[st.nodes[id]];
    FactsKeepWellFormed(g, id, op.facts, op.typ, op.embedding, op.now);
    FactsKeepWellFormed(st.graph, st.nodes[id], op.facts, op.typ, REPLAY_EMBEDDING, ts);
    PutSimulates(g, scope, st, id, n.(facts := op.facts, typ := op.typ, embedding := op.embedding, touchedAt := op.now),
                 n'.(facts := op.facts, typ := op.typ, embedding := REPLAY_EMBEDDING, touchedAt := ts));
  }

  // ---------------------------------------------------------------- deleting

  lemma {:induction false} TranslateMembers(st: State, ids: seq<Id>)
    requires Known(st, ids)
    ensures |Translate(st, ids)| == |ids|
    ensures forall i :: 0 <= i < |ids| ==> Translate(st, ids)[i] == st.nodes[ids[i]]
  {
    if ids != [] {
      assert ids == [ids[0]] + ids[1..];
      TranslateMembers(st, ids[1..]);
    }
  }

  lemma TranslateTwins(st: State, ids: seq<Id>, gone: set<Id>, gone': set<Id>)
    requires Known(st, ids)
    requires forall x :: x in gone <==> x in ids
    requires forall x' :: x' in gone' <==> x' in Translate(st, ids)
    ensures Twins(gone, gone', st.nodes)
  {
    hide Translate;
    TranslateMembers(st, ids);
    forall x' ensures x' in gone' <==> exists x :: x in gone && x in st.nodes && st.nodes[x] == x' {
      if x :| x in gone && x in st.nodes && st.nodes[x] == x' {
        var i :| 0 <= i < |ids| && ids[i] == x;
        assert Translate(st, ids)[i] == x';
      }
      if x' in gone' {
        var i :| 0 <= i < |ids| && Translate(st, ids)[i] == x';
        assert ids[i] in ids;
      }
    }
  }

  /** Dropping nodes with their edges on one side, and their twins with theirs on the other. */
  lemma DroppedSimulates(g: Graph, scope: string, st: State, gone: set<Id>, gone': set<Id>)
    requires WellFormed(g) && Simulates(g, scope, st) && Twins(gone, gone', st.nodes)
    requires forall n :: n in gone ==> InScope(g.nodes, scope, n)
    ensures Simulates(g.(nodes := g.nodes - gone, rels := DropTouching(g.rels, gone)), scope,
                      st.(graph := st.graph.(nodes := st.graph.nodes - gone',
                                             rels := DropTouching(st.graph.rels, gone'))))
  {
    hide WellFormed, Twins;
    NodeSimDrop(g.nodes, scope, st.graph.nodes, st.nodes, gone, gone');
    forall x | EdgeInScope(g.rels, scope, x)
      ensures x in DropTouching(g.rels, gone) <==> st.rels[x] in DropTouching(st.graph.rels, gone')
    {
      EndpointsInScope(g, scope, x);
      assert Mirrors(g.rels[x], st.graph.rels[st.rels[x]], st.nodes);
      TwinGone(g.nodes, scope, st.graph.nodes, st.nodes, gone, gone', g.rels[x].source);
      TwinGone(g.nodes, scope, st.graph.nodes, st.nodes, gone, gone', g.rels[x].target);
    }
    EdgeSimKeep(g.rels, scope, st.graph.rels, st.nodes, st.rels, DropTouching(g.rels, gone),
                DropTouching(st.graph.rels, gone'));
  }

  lemma {:induction false} PresentMembers(g: Graph, ids: seq<Id>)
    ensures forall x :: x in Present(g, ids) <==> x in ids && x in g.nodes
  {
    if ids != [] {
      assert ids == [ids[0]] + ids[1..];
      PresentMembers(g, ids[1..]);
    }
  }

  /** The replayed ids of live nodes are live in the replay, and their twins. */
  lemma TranslatedLive(g: Graph, scope: string, st: State, ids: seq<Id>, gone: set<Id>)
    requires Simulates(g, scope, st) && forall n :: n in ids ==> InScope(g.nodes, scope, n)
    requires forall x :: x in gone <==> x in ids
    ensures Known(st, ids) && |Translate(st, ids)| == |ids|
    ensures forall x' :: x' in Translate(st, ids) ==> x' in st.graph.nodes
    ensures Twins(gone, Members(Translate(st, ids)), st.nodes)
  {
    hide Simulates, Translate, Twins;
    forall n | n in ids ensures n in st.nodes && st.nodes[n] in st.graph.nodes { TwinOf(g, scope, st, n); }
    TranslateMembers(st, ids);
    forall x' | x' in Translate(st, ids) ensures x' in st.graph.nodes {
      var i :| 0 <= i < |ids| && Translate(st, ids)[i] == x';
      assert ids[i] in ids;
    }
    TranslateTwins(st, ids, gone, Members(Translate(st, ids)));
  }

  lemma DeletesWhole(g: Graph, ids: seq<Id>, gone: set<Id>)
    requires ids != [] && (forall x :: x in ids && x in g.nodes <==> x in gone) && gone != {}
    ensures DeleteNodes(g, ids) == g.(nodes := g.nodes - gone, rels := DropTouching(g.rels, gone))
  {
    hide DropTouching;
    assert (set x | x in ids && x in g.nodes) == gone;
  }

  lemma StepDeleted(g: Graph, scope: string, st: State, op: Op, ts: int)
    requires Synced(g, scope, st) && op.Delete?
    requires Present(g, op.ids) != [] && forall n :: n in Present(g, op.ids) ==> InScope(g.nodes, scope, n)
    ensures Follows(g, scope, st, op, ts)
  {
    hide WellFormed, Simulates, Translate, Present, DropTouching, Twins, DeleteNodes;
    var present := Present(g, op.ids);
    PresentMembers(g, op.ids);
    assert present[0] in present;
    var gone := Members(present);
    TranslatedLive(g, scope, st, present, gone);
    var ids' := Translate(st, present);
    var gone' := Members(ids');
    assert present[0] in gone && ids'[0] in gone';
    DroppedSimulates(g, scope, st, gone, gone');
    DeletesWhole(g, op.ids, gone);
    DeletesWhole(st.graph, ids', gone');
    DeleteKeepsWellFormed(g, op.ids);
    DeleteKeepsWellFormed(st.graph, ids');
  }

  // ------------------------------------------------------------------ edges

  lemma StepRetired(g: Graph, scope: string, st: State, op: Op, ts: int)
    requires Synced(g, scope, st) && op.Retire? && EdgeInScope(g.rels, scope, op.id)
    ensures Follows(g, scope, st, op, ts)
  {
    hide WellFormed, NodeSim, Mirrors;
    var x' := st.rels[op.id];
    RetireKeepsWellFormed(g, op.id);
    RetireKeepsWellFormed(st.graph, x');
    EdgeSimKeep(g.rels, scope, st.graph.rels, st.nodes, st.rels, g.rels - {op.id}, st.graph.rels - {x'});
  }

  // ------------------------------------------------------ restoring an edge

  function FrameOf(g: Graph, scope: string, st: State): Frame {
    Frame(scope, st.nodes, st.rels, set n | n in g.nodes && g.nodes[n].scope == scope)
  }

  lemma FrameHolds(g: Graph, scope: string, st: State)
    requires Synced(g, scope, st)
    ensures Injective(FrameOf(g, scope, st)) && EndsInside(FrameOf(g, scope, st), g.rels)
  {
    hide EdgeSim, SameNodeBeliefs, NodesSound, IdsMinted, UniqueTriples, EdgesSound;
    var f := FrameOf(g, scope, st);
    assert forall n :: n in f.live <==> InScope(g.nodes, scope, n);
    forall x | EdgeInScope(g.rels, scope, x) ensures g.rels[x].source in f.live && g.rels[x].target in f.live {
      EndpointsInScope(g, scope, x);
    }
  }

  /** The replayed store finds the twin of whatever the live store finds at *t*. */
  lemma MatchAlike(g: Graph, scope: string, st: State, t: Triple)
    requires Synced(g, scope, st) && t.scope == scope
    requires InScope(g.nodes, scope, t.source) && InScope(g.nodes, scope, t.target)
    ensures t.source in st.nodes && t.target in st.nodes
    ensures var t' := Triple(scope, st.nodes[t.source], t.typ, st.nodes[t.target]);
            match ByTriple(g.rels, t)
            case Some(x) => EdgeInScope(g.rels, scope, x) && x in st.rels && ByTriple(st.graph.rels, t') == Some(st.rels[x])
            case None => ByTriple(st.graph.rels, t') == None
  {
    hide ByTriple, NodesSound, IdsMinted, SameNodeBeliefs;
    var f := FrameOf(g, scope, st);
    FrameHolds(g, scope, st);
    ByTripleUnique(g.rels, t);
    var t' := Renamed(f, t);
    ByTripleUnique(st.graph.rels, t');
    match ByTriple(g.rels, t)
    case Some(x) =>
      TripleAlike(f, g.rels[x], st.graph.rels[st.rels[x]], t);
    case None =>
      forall x' | x' in st.graph.rels ensures TripleOf(st.graph.rels[x']) != t' {
        var x :| EdgeInScope(g.rels, scope, x) && st.rels[x] == x';
        TripleAlike(f, g.rels[x], st.graph.rels[x'], t);
      }
  }

  /** Restoring an edge no earlier edge stands in for mints its twin. */
  lemma RestoreNew(g: Graph, scope: string, st: State, x: Id, r: Relation, ts: int)
    requires Synced(g, scope, st) && r.scope == scope && r.source != r.target && x !in g.rels
    requires InScope(g.nodes, scope, r.source) && InScope(g.nodes, scope, r.target)
    requires StatementOk(r.typ, r.claim, r.entryIds, r.until)
    requires ByTriple(g.rels, TripleOf(r)) == None
    ensures var next := Restore(st, x, r, ts);
            && next.Ok? && next.value.nodes == st.nodes && WellFormed(next.value.graph)
            && next.value.rels == st.rels[x := RelationId(st.graph.relSequence + 1)]
            && next.value.graph.relSequence == st.graph.relSequence + 1
            && Simulates(g.(rels := g.rels[x := r]), scope, next.value)
  {
    hide ByTriple, StatementOk, RelationId, NodesSound, IdsMinted, EdgesSound, UniqueTriples, EdgeSim;
    assert EdgeTypeOk(r.typ) && r.entryIds != [] by { StatementNeeds(r); }
    MatchAlike(g, scope, st, TripleOf(r));
    TwinOf(g, scope, st, r.source);
    TwinOf(g, scope, st, r.target);
    var source', target' := st.nodes[r.source], st.nodes[r.target];
    UpsertKeepsWellFormed(st.graph, scope, source', target', r.typ, Some(r.claim), r.entryIds, r.until, ts);
    FreshRelation(st.graph);
    var x' := RelationId(st.graph.relSequence + 1);
    var r' := Relation(scope, source', target', r.typ, r.claim, r.entryIds, r.until, ts, ts);
    assert source' != target';
    EdgeSimPut(g.rels, scope, st.graph.rels, st.nodes, st.rels, x, r, x', r');
  }

  lemma StatementNeeds(r: Relation)
    requires StatementOk(r.typ, r.claim, r.entryIds, r.until)
    ensures EdgeTypeOk(r.typ) && r.entryIds != []
  {
  }

  /** Restating an edge the replay already holds makes it say what the live edge says. */
  lemma RestoreHeld(g: Graph, scope: string, st: State, x: Id, r: Relation, ts: int)
    requires Synced(g, scope, st) && EdgeInScope(g.rels, scope, x) && TripleOf(g.rels[x]) == TripleOf(r)
    requires EdgeTypeOk(r.typ) && r.entryIds != [] && Union(g.rels[x].entryIds, r.entryIds) == r.entryIds
    ensures var next := Restore(st, x, r, ts);
            && next.Ok? && next.value.nodes == st.nodes && WellFormed(next.value.graph)
            && next.value.rels == st.rels && next.value.graph.relSequence == st.graph.relSequence
            && Simulates(g.(rels := g.rels[x := r]), scope, next.value)
  {
    hide ByTriple, EdgeTypeOk, NodesSound, IdsMinted, UniqueTriples, Union;
    EndpointsInScope(g, scope, x);
    MatchAlike(g, scope, st, TripleOf(r));
    ByTripleUnique(g.rels, TripleOf(r));
    TwinOf(g, scope, st, r.source);
    TwinOf(g, scope, st, r.target);
    var source', target' := st.nodes[r.source], st.nodes[r.target];
    UpsertKeepsWellFormed(st.graph, scope, source', target', r.typ, Some(r.claim), r.entryIds, r.until, ts);
    var x' := st.rels[x];
    var e' := st.graph.rels[x'];
    assert EdgeOk(g, g.rels[x]) && source' != target';
    assert st.rels[x := x'] == st.rels;
    EdgeSimPut(g.rels, scope, st.graph.rels, st.nodes, st.rels, x, r, x',
               e'.(claim := r.claim, entryIds := r.entryIds, until := r.until, lastSeen := ts));
  }

  /** A held edge keeps its twin, a new one gets the next id. */
  ghost predicate Restated(g: Graph, op: Op, st: State, next: State)
    requires op.Upsert?
  {
    Upserted(g, op).result.Ok? &&
    var x := Upserted(g, op).result.value;
    && x in Upserted(g, op).graph.rels
    && (if x in g.rels then next.rels == st.rels && next.graph.relSequence == st.graph.relSequence
        else next.rels == st.rels[x := RelationId(st.graph.relSequence + 1)]
             && next.graph.relSequence == st.graph.relSequence + 1)
  }

  lemma StepUpserted(g: Graph, scope: string, st: State, op: Op, ts: int)
    requires Synced(g, scope, st) && op.Upsert? && op.scope == scope && EventFor(g, op, ts).Some?
    ensures Follows(g, scope, st, op, ts)
    ensures match ApplyEvent(st, EventFor(g, op, ts).value) case Err(_) => false case Ok(next) => Restated(g, op, st, next)
  {
    hide Synced, RelationId, Restore, Upserted, EventFor, ApplyEvent, After;
    UpsertEvent(g, op, ts);
    UpsertRestored(g, scope, st, op, ts);
    var done := Upserted(g, op);
    UpsertApplied(st, op.scope, ts, done.result.value, done.graph.rels[done.result.value]);
  }

  lemma UpsertRestored(g: Graph, scope: string, st: State, op: Op, ts: int)
    requires Synced(g, scope, st) && op.Upsert? && op.scope == scope && Upserted(g, op).result.Ok?
    ensures var done := Upserted(g, op);
            var x := done.result.value;
            && x in done.graph.rels && WellFormed(done.graph)
            && var next := Restore(st, x, done.graph.rels[x], ts);
            && next.Ok? && Synced(done.graph, scope, next.value)
            && (if x in g.rels then next.value.rels == st.rels && next.value.graph.relSequence == st.graph.relSequence
                else next.value.rels == st.rels[x := RelationId(st.graph.relSequence + 1)]
                     && next.value.graph.relSequence == st.graph.relSequence + 1)
  {
    hide WellFormed, Simulates, EdgeTypeOk, RelationId, Restore, UpsertRelation, StatementOk, Union, ByTriple;
    UpsertKeepsWellFormed(g, op.scope, op.source, op.target, op.typ, op.claim, op.entryIds, op.until, op.now);
    UpsertedEdge(g, op.scope, op.source, op.target, op.typ, op.claim, op.entryIds, op.until, op.now);
    var done := Upserted(g, op);
    var x := done.result.value;
    var r := done.graph.rels[x];
    if x in g.rels {
      HeldStatement(g, op, x);
      RestoreHeld(g, scope, st, x, r, ts);
    } else {
      NewStatement(g, op, x);
      RestoreNew(g, scope, st, x, r, ts);
    }
    SimulatesContent(g.(rels := g.rels[x := r]), done.graph, scope, Restore(st, x, r, ts).value);
  }

  lemma UpsertEvent(g: Graph, op: Op, ts: int)
    requires op.Upsert? && EventFor(g, op, ts).Some?
    ensures var done := Upserted(g, op);
            && done.result.Ok? && done.result.value in done.graph.rels
            && After(g, op) == done.graph
            && EventFor(g, op, ts) == Some(RelationUpserted(op.scope, ts, done.result.value, done.graph.rels[done.result.value]))
  {
    hide UpsertRelation;
  }

  lemma UpsertApplied(st: State, scope: string, ts: int, x: Id, r: Relation)
    ensures ApplyEvent(st, RelationUpserted(scope, ts, x, r)) == Restore(st, x, r, ts)
  {
    hide Restore;
  }

  /** The minting counters are no part of what is simulated. */
  lemma SimulatesContent(g: Graph, g': Graph, scope: string, st: State)
    requires Simulates(g, scope, st) && g'.nodes == g.nodes && g'.rels == g.rels
    ensures Simulates(g', scope, st)
  {
  }

  ghost function Upserted(g: Graph, op: Op): Done<Id>
    requires op.Upsert?
  {
    UpsertRelation(g, op.scope, op.source, op.target, op.typ, op.claim, op.entryIds, op.until, op.now)
  }

  /** A reinforced edge holds the old evidence first, so restating it adds nothing. */
  lemma HeldStatement(g: Graph, op: Op, x: Id)
    requires WellFormed(g) && op.Upsert? && Upserted(g, op).result == Ok(x) && x in g.rels
    ensures x in Upserted(g, op).graph.rels
    ensures var r := Upserted(g, op).graph.rels[x];
            r.entryIds != [] && Union(g.rels[x].entryIds, r.entryIds) == r.entryIds
  {
    hide StatementOk, Union, RelationId, EdgeTypeOk, NodesSound, EdgesSound, ByTriple, MintedRelation, MintedNode;
    FreshRelation(g);
    ByTripleUnique(g.rels, Triple(op.scope, op.source, op.typ, op.target));
    UnionRestates(g.rels[x].entryIds, op.entryIds);
    UnionHolds(g.rels[x].entryIds, op.entryIds);
    assert op.entryIds[0] in op.entryIds;
  }

  lemma NewStatement(g: Graph, op: Op, x: Id)
    requires WellFormed(g) && op.Upsert? && Upserted(g, op).result == Ok(x) && x !in g.rels
    ensures x in Upserted(g, op).graph.rels
    ensures var r := Upserted(g, op).graph.rels[x];
            StatementOk(r.typ, r.claim, r.entryIds, r.until) && ByTriple(g.rels, TripleOf(r)) == None
  {
    hide StatementOk, Union, RelationId, EdgeTypeOk, NodesSound, EdgesSound, ByTriple, MintedRelation, MintedNode;
    ByTripleUnique(g.rels, Triple(op.scope, op.source, op.typ, op.target));
  }

  // --------------------------------------------------------------- renaming

  lemma MoveSetting(g: Graph, scope: string, st: State, m: Move, m': Move)
    requires Synced(g, scope, st) && SameMove(FrameOf(g, scope, st), m, m') && Settles(m) && Settles(m')
    requires forall x :: x in g.rels && Affected(m, x, g.rels[x]) ==> g.rels[x].scope == scope
    ensures Setting(FrameOf(g, scope, st), g.rels, m, st.graph.rels, m')
  {
    hide SameMove, NodeSim, EdgeSim, UniqueTriples, EdgesSound, IdsMinted, NodesSound;
    FrameHolds(g, scope, st);
  }

  lemma StepRenamed(g: Graph, scope: string, st: State, op: Op, ts: int)
    requires Synced(g, scope, st) && op.Rename? && op.scope == scope && EventFor(g, op, ts).Some?
    ensures Follows(g, scope, st, op, ts)
  {
    hide WellFormed, NodeSim, EdgeSim, EdgeTypeOk, Moved;
    var m := Relabel(scope, op.was, op.becomes);
    var f := FrameOf(g, scope, st);
    MoveSetting(g, scope, st, m, m);
    RenameKeepsWellFormed(g, scope, op.was, op.becomes);
    RenameKeepsWellFormed(st.graph, scope, op.was, op.becomes);
    assert UniqueTriples(g.rels) by { UniqueOf(g); }
    RelabelClashFree(g.rels, m);
    forall t | Inside(f, t) ensures AgreeAt(f, g.rels, m, st.graph.rels, m, t) {
      ClashFreeAgrees(f, g.rels, m, st.graph.rels, m, t);
    }
    AgreementGivesSimulation(f, g.rels, m, st.graph.rels, m);
  }

  lemma UniqueOf(g: Graph)
    requires WellFormed(g)
    ensures UniqueTriples(g.rels)
  {
  }
}
