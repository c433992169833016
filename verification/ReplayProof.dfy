/** The replay proof over whole runs: rebuilding a scope from its journal gives
    the live scope back, belief for belief, exactly while every call was safe. */
module ReplayProof {
  import opened Ids
  import opened Surfaces
  import opened GraphModel
  import opened EdgeFold
  import opened GraphOps
  import opened Journal
  import opened Replay
  import opened ReplayEdges
  import opened ReplaySteps
  import opened ReplayMerge
  import opened ReplaySplit
  import opened ReplayScopes

  // ------------------------------------------------------ one call, exactly

  /** Journalled ids the replay knows are not live nodes of other scopes. */
  ghost predicate Named(g: Graph, scope: string, st: State) {
    forall n :: n in st.nodes ==> MintedNode(n, g.sequence) && (n in g.nodes ==> g.nodes[n].scope == scope)
  }

  ghost predicate Invariant(g: Graph, scope: string, st: State) {
    Synced(g, scope, st) && Evidenced(g.rels) && Named(g, scope, st)
  }

  /** The condition on a call the scope journals. */
  ghost predicate StepSafe(g: Graph, scope: string, st: State, op: Op, ts: int) {
    match op
    case Merge(_, _, _, _, _, _, _) =>
      var f := FrameOf(g, scope, st);
      Known(st, op.absorbed) && op.survivor in st.nodes && Injective(f) &&
      forall t :: Inside(f, t) ==>
        CollisionsAgree(f, g.rels, LiveMove(op), st.graph.rels, ReplayedMove(st, op, ts), t)
    case Split(_, _, _) => forall x :: x in Claims(op.parts) ==> x in g.rels && Statement(g.rels[x])
    case Delete(ids) => OneScope(g, ids)
    case _ => true
  }

  lemma TwinsEvidenced(g: Graph, scope: string, st: State)
    requires Simulates(g, scope, st) && Evidenced(g.rels)
    ensures Evidenced(st.graph.rels)
  {
    forall x' | x' in st.graph.rels ensures st.graph.rels[x'].entryIds != [] {
      var x :| EdgeInScope(g.rels, scope, x) && st.rels[x] == x';
    }
  }

  /** A deletion that reaches into another scope leaves a gap in this one's journal. */
  lemma ForeignDeletion(g: Graph, scope: string, st: State, op: Op, ts: int)
    requires Named(g, scope, st) && op.Delete? && !OneScope(g, op.ids)
    requires EventFor(g, op, ts).Some? && EventFor(g, op, ts).value.scope == scope
    ensures ApplyEvent(st, EventFor(g, op, ts).value) == Err(JournalGap)
  {
    hide Present, MintedNode, CreateNode, AddAliases, ReplaceFacts, MergeNodes, UpsertRelation, RenameEdgeType, DeleteNodes,
      RetireRelation, Restore, CreateParts, RestoreEdges, Translate, SplitNode;
    PresentMembers(g, op.ids);
    var present := Present(g, op.ids);
    var a, b :| a in op.ids && b in op.ids && a in g.nodes && b in g.nodes && g.nodes[a].scope != g.nodes[b].scope;
    assert a in present && b in present;
    assert a !in st.nodes || b !in st.nodes;
  }

  predicate Writes(op: Op) { !op.Dirty? && !op.Clean? && !op.Read? }

  lemma EventMeansWrite(g: Graph, op: Op, ts: int)
    ensures EventFor(g, op, ts).Some? ==> Writes(op)
  {
    hide CreateNode, AddAliases, ReplaceFacts, MergeNodes, SplitNode, UpsertRelation, RenameEdgeType, Present, Sorted,
      EdgePayloads, PartPayloads;
  }

  /** Which scope the events of node writes carry. */
  lemma NodeEventScope(g: Graph, op: Op, ts: int)
    requires op.Create? || op.Alias? || op.Rewrite?
    ensures EventFor(g, op, ts).Some? ==>
              if op.Create? then EventFor(g, op, ts).value.scope == op.scope
              else InScope(g.nodes, EventFor(g, op, ts).value.scope, op.id)
  {
    hide UnitNorm, Canonical, NodeId, AnyBlank, NodeOk;
  }

  lemma MergeExact(g: Graph, scope: string, st: State, op: Op, ts: int)
    requires Invariant(g, scope, st) && op.Merge?
    requires EventFor(g, op, ts).Some? && EventFor(g, op, ts).value.scope == scope
    ensures Follows(g, scope, st, op, ts) <==> StepSafe(g, scope, st, op, ts)
  {
    hide WellFormed, Simulates, MergeNodes, Follows, Setting, CollisionsAgree, Evidenced, Named, Injective, Known,
      ReplayedMove, LiveMove, FrameOf;
    MergeEventScope(g, op, ts);
    TwinsEvidenced(g, scope, st);
    MergeReplaysExactly(g, scope, st, op, ts);
    SettingInjective(FrameOf(g, scope, st), g.rels, LiveMove(op), st.graph.rels, ReplayedMove(st, op, ts));
  }

  lemma SettingInjective(f: Frame, rels: map<Id, Relation>, m: Move, rels': map<Id, Relation>, m': Move)
    requires Setting(f, rels, m, rels', m')
    ensures Injective(f)
  {
  }

  lemma SplitExact(g: Graph, scope: string, st: State, op: Op, ts: int)
    requires Invariant(g, scope, st) && op.Split?
    requires EventFor(g, op, ts).Some? && EventFor(g, op, ts).value.scope == scope
    ensures Follows(g, scope, st, op, ts) <==> StepSafe(g, scope, st, op, ts)
  {
    hide WellFormed, Simulates, SplitNode, Follows, Evidenced, Named, Claims, Statement, PartContents, Recorded, EdgePayloads,
      PartPayloads, Sorted;
    SplitEventIs(g, op, ts);
    StepSplit(g, scope, st, op, ts);
  }

  lemma DeleteExact(g: Graph, scope: string, st: State, op: Op, ts: int)
    requires Invariant(g, scope, st) && op.Delete?
    requires EventFor(g, op, ts).Some? && EventFor(g, op, ts).value.scope == scope
    ensures Follows(g, scope, st, op, ts) <==> StepSafe(g, scope, st, op, ts)
  {
    hide WellFormed, Simulates, Named, Evidenced, Present, ApplyEvent;
    if OneScope(g, op.ids) {
      PresentMembers(g, op.ids);
      var present := Present(g, op.ids);
      assert present[0] in present;
      StepDeleted(g, scope, st, op, ts);
    } else {
      ForeignDeletion(g, scope, st, op, ts);
    }
  }

  /** Replay applies a journalled call exactly when the call was safe. */
  lemma StepExact(g: Graph, scope: string, st: State, op: Op, ts: int)
    requires Invariant(g, scope, st) && EventFor(g, op, ts).Some? && EventFor(g, op, ts).value.scope == scope
    ensures Follows(g, scope, st, op, ts) <==> StepSafe(g, scope, st, op, ts)
  {
    hide WellFormed, Simulates, Named, Follows, Evidenced, EventFor, Known, CollisionsAgree, Statement,
      ApplyEvent, OneScope, Claims, Inside, Injective;
    EventMeansWrite(g, op, ts);
    if op.Create? || op.Alias? || op.Rewrite? {
      NodeEventScope(g, op, ts);
      if op.Create? { StepCreated(g, scope, st, op, ts); }
      if op.Alias? { StepAliased(g, scope, st, op, ts); }
      if op.Rewrite? { StepRewritten(g, scope, st, op, ts); }
    } else if op.Merge? {
      MergeExact(g, scope, st, op, ts);
    } else if op.Split? {
      SplitExact(g, scope, st, op, ts);
    } else if op.Delete? {
      DeleteExact(g, scope, st, op, ts);
    } else if op.Upsert? {
      UpsertEventScope(g, op, ts);
      StepUpserted(g, scope, st, op, ts);
    } else if op.Retire? {
      RetireEventScope(g, op, ts);
      StepRetired(g, scope, st, op, ts);
    } else {
      RenameEventScope(g, op, ts);
      StepRenamed(g, scope, st, op, ts);
    }
  }

  // ---------------------------------------------------- the invariant is kept

  lemma {:induction false} GatheredEvidenced(rels: map<Id, Relation>, order: seq<Id>, m: Move, t: Triple, held: Held)
    requires Evidenced(rels) && (held.Some? ==> held.value.1.entryIds != [])
    ensures var h := Gathered(rels, order, m, t, held); h.Some? ==> h.value.1.entryIds != []
  {
    hide Union;
    if order != [] {
      if Lands(rels, m, order[0], t) {
        var r := rels[order[0]];
        if held.Some? { UnionNotEmpty(held.value.1.entryIds, r.entryIds); }
        GatheredEvidenced(rels, order[1..], m, t, Joined(m, held, order[0], r, Readdressed(m, r).value));
      } else {
        GatheredEvidenced(rels, order[1..], m, t, held);
      }
    }
  }

  lemma MovedEvidenced(rels: map<Id, Relation>, m: Move)
    requires UniqueTriples(rels) && Settles(m) && Evidenced(rels)
    ensures Evidenced(Moved(rels, m))
  {
    hide UniqueTriples, Moved, Gathered;
    forall x | x in Moved(rels, m) ensures Moved(rels, m)[x].entryIds != [] {
      var r := Moved(rels, m)[x];
      assert Entry(Moved(rels, m), x, r);
      MovedAt(rels, m, x, r);
      HolderEvidenced(rels, m, TripleOf(r));
      GatheredEvidenced(rels, Sorted(AffectedIds(rels, m)), m, TripleOf(r), HolderAt(rels, m, TripleOf(r)));
    }
  }

  /** No call ever leaves an edge without evidence. */
  lemma EvidenceNeverEmpty(g: Graph, op: Op)
    requires WellFormed(g) && Evidenced(g.rels)
    ensures Evidenced(After(g, op).rels)
  {
    hide WellFormed, Moved, UnitNorm, AnyBlank, Canonical, AbsorbedSurfaces, Deleting, NodeId, SplitNode, UpsertRelation;
    UniqueOf(g);
    if op.Merge? {
      if Merged(g, op).result.Ok? { MovedEvidenced(g.rels, Repoint((set a | a in op.absorbed), op.survivor, None, op.now)); }
    } else if op.Rename? {
      if op.was != op.becomes { MovedEvidenced(g.rels, Relabel(op.scope, op.was, op.becomes)); }
    } else if op.Split? {
      SplitEvidenced(g, op);
    } else if op.Upsert? {
      UpsertEvidenced(g, op);
    }
  }

  lemma SplitEvidenced(g: Graph, op: Op)
    requires WellFormed(g) && Evidenced(g.rels) && op.Split?
    ensures Evidenced(Divided(g, op).graph.rels)
  {
    hide WellFormed, SplitInto, Claims;
    if Divided(g, op).result.Ok? {
      SplitEdgeFacts(g, op.id, op.parts, op.now);
      forall x | x in Divided(g, op).graph.rels ensures Divided(g, op).graph.rels[x].entryIds != [] {
        if x in Claims(op.parts) { var i := ClaimantExists(op.parts, x); }
      }
    }
  }

  lemma UpsertEvidenced(g: Graph, op: Op)
    requires WellFormed(g) && Evidenced(g.rels) && op.Upsert?
    ensures Evidenced(Upserted(g, op).graph.rels)
  {
    hide WellFormed, UpsertRelation;
    var done := Upserted(g, op);
    if done.result.Ok? {
      var x := done.result.value;
      UpsertedEdge(g, op.scope, op.source, op.target, op.typ, op.claim, op.entryIds, op.until, op.now);
      if x in g.rels { HeldStatement(g, op, x); } else { NewStatement(g, op, x); StatementHolds(done.graph.rels[x]); }
    } else {
      FailedUpsert(g, op);
    }
  }

  lemma StatementHolds(r: Relation)
    requires StatementOk(r.typ, r.claim, r.entryIds, r.until)
    ensures r.entryIds != []
  {
  }

  lemma FailedUpsert(g: Graph, op: Op)
    requires op.Upsert? && Upserted(g, op).result.Err?
    ensures Upserted(g, op).graph.rels == g.rels && Upserted(g, op).graph.nodes == g.nodes
    ensures Upserted(g, op).graph.sequence == g.sequence
  {
    hide ByTriple, StatementOk, Union, RelationId, EdgeTypeOk;
  }

  ghost function PartNames(parts: seq<(Id, NodeContent)>): set<Id> { set i | 0 <= i < |parts| :: parts[i].0 }

  /** The nodes an event introduces. */
  ghost function NewIds(e: Option<Event>): set<Id> {
    match e
    case Some(NodeCreated(_, _, id, _)) => {id}
    case Some(NodeSplit(_, _, _, parts, _)) => PartNames(parts)
    case _ => {}
  }

  /** Nodes stay in their scope, and only freshly minted ids appear. */
  ghost predicate Persists(g: Graph, g': Graph, e: Option<Event>) {
    && g.sequence <= g'.sequence && NewIds(e) <= g'.nodes.Keys
    && forall n :: n in g'.nodes ==>
         if n in NewIds(e) then g.sequence < Num(n) && e.Some? && g'.nodes[n].scope == e.value.scope
         else n in g.nodes && g'.nodes[n].scope == g.nodes[n].scope
  }

  lemma NodesPersist(g: Graph, op: Op, ts: int)
    requires WellFormed(g) && (op.Merge? ==> !FailsMidway(g, op.survivor, op.absorbed, op.embedding))
    ensures Persists(g, After(g, op), EventFor(g, op, ts))
  {
    hide WellFormed, Num, NodeId, EventFor, Persists, MergeNodes, SplitNode, UpsertRelation, CreateNode, Moved;
    if op.Create? {
      CreatedPersists(g, op, ts);
    } else if op.Merge? {
      MergedPersists(g, op, ts);
    } else if op.Split? {
      SplitPersists(g, op, ts);
    } else if op.Upsert? {
      UpsertedPersists(g, op, ts);
    } else {
      OthersPersist(g, op, ts);
    }
  }

  lemma CreatedPersists(g: Graph, op: Op, ts: int)
    requires op.Create?
    ensures Persists(g, After(g, op), EventFor(g, op, ts))
  {
    hide Num, NodeId, UnitNorm, Canonical, AnyBlank, NodeOk;
    NumOfRendered(g.sequence + 1);
  }

  lemma MergedPersists(g: Graph, op: Op, ts: int)
    requires WellFormed(g) && op.Merge? && !FailsMidway(g, op.survivor, op.absorbed, op.embedding)
    ensures Persists(g, After(g, op), EventFor(g, op, ts))
  {
    hide WellFormed, Num, MergeNodes, FailsMidway, Moved, Present, ContentOf, NodesSound, IdsMinted;
    MergeKeepsWellFormed(g, op.survivor, op.absorbed, op.name, op.typ, op.facts, op.embedding, op.now);
    if Merged(g, op).result.Ok? {
      MergedFacts(g, op.survivor, op.absorbed, op.name, op.typ, op.facts, op.embedding, op.now);
    }
  }

  lemma SplitPersists(g: Graph, op: Op, ts: int)
    requires WellFormed(g) && op.Split?
    ensures Persists(g, After(g, op), EventFor(g, op, ts))
  {
    hide WellFormed, Num, NodeId, SplitNode, PartContents, Recorded, EdgePayloads, PartNames, EventFor;
    if Divided(g, op).result.Ok? {
      Minted(g);
      SplitNodeFacts(g, op.id, op.parts, op.now);
      SplitEventIs(g, op, ts);
      PartContentNames(g.nodes[op.id].scope, op.parts, op.now, g.sequence, Divided(g, op).result.value);
      forall n | n in Divided(g, op).result.value
        ensures g.sequence < Num(n) && Divided(g, op).graph.nodes[n].scope == g.nodes[op.id].scope
      {
        PartIsFresh(g, op, n);
      }
    } else {
      FailedSplit(g, op, ts);
    }
  }

  lemma PartIsFresh(g: Graph, op: Op, n: Id)
    requires WellFormed(g) && op.Split? && Divided(g, op).result.Ok? && n in Divided(g, op).result.value
    ensures op.id in g.nodes && n in Divided(g, op).graph.nodes && g.sequence < Num(n)
    ensures Divided(g, op).graph.nodes[n].scope == g.nodes[op.id].scope
  {
    hide WellFormed, Num, NodeId, SplitNode;
    Minted(g);
    SplitNodeFacts(g, op.id, op.parts, op.now);
    var ids := Divided(g, op).result.value;
    var i :| 0 <= i < |ids| && ids[i] == n;
    NumOfRendered(g.sequence + 1 + i);
    PartScope(g.nodes[op.id].scope, op.parts[i], op.now);
  }

  lemma FailedSplit(g: Graph, op: Op, ts: int)
    requires op.Split? && Divided(g, op).result.Err?
    ensures After(g, op) == g && EventFor(g, op, ts) == None
  {
    hide Claims, SplitInto;
  }

  lemma PartScope(scope: string, p: SplitPart, now: int)
    ensures PartNode(scope, p, now).scope == scope
  {
  }

  lemma PartContentNames(scope: string, parts: seq<SplitPart>, now: int, sequence: nat, ids: seq<Id>)
    requires |ids| == |parts| && MintedFrom(ids, sequence)
    ensures PartNames(PartContents(scope, parts, now, sequence)) == Members(ids)
  {
    hide NodeId, MintedFrom, PartContents;
    PartContentIds(scope, parts, now, sequence, ids);
    var contents := PartContents(scope, parts, now, sequence);
    forall n | n in Members(ids) ensures n in PartNames(contents) {
      var i :| 0 <= i < |ids| && ids[i] == n;
      assert contents[i].0 == n;
    }
  }

  lemma {:induction false} PartContentIds(scope: string, parts: seq<SplitPart>, now: int, sequence: nat, ids: seq<Id>)
    requires |ids| == |parts| && MintedFrom(ids, sequence)
    ensures |PartContents(scope, parts, now, sequence)| == |ids|
    ensures forall i :: 0 <= i < |ids| ==> PartContents(scope, parts, now, sequence)[i].0 == ids[i]
    decreases |parts|
  {
    hide NodeId, MintedFrom;
    if parts != [] {
      MintedTail(ids, sequence);
      PartContentIds(scope, parts[1..], now, sequence + 1, ids[1..]);
      var rest := PartContents(scope, parts[1..], now, sequence + 1);
      forall i | 0 <= i < |ids| ensures PartContents(scope, parts, now, sequence)[i].0 == ids[i] {
        if i > 0 { assert ids[i] == ids[1..][i - 1] && PartContents(scope, parts, now, sequence)[i] == rest[i - 1]; }
      }
    }
  }

  lemma UpsertedPersists(g: Graph, op: Op, ts: int)
    requires WellFormed(g) && op.Upsert?
    ensures Persists(g, After(g, op), EventFor(g, op, ts))
  {
    hide WellFormed, Num, UpsertRelation;
    if Upserted(g, op).result.Ok? {
      UpsertedEdge(g, op.scope, op.source, op.target, op.typ, op.claim, op.entryIds, op.until, op.now);
    } else {
      FailedUpsert(g, op);
    }
  }

  lemma OthersPersist(g: Graph, op: Op, ts: int)
    requires !op.Create? && !op.Merge? && !op.Split? && !op.Upsert?
    ensures Persists(g, After(g, op), EventFor(g, op, ts))
  {
    hide Num, Canonical, AnyBlank, UnitNorm, Moved, Present, EdgeTypeOk, DropTouching;
  }

  lemma {:induction false} CreatedNames(st: State, parts: seq<(Id, NodeContent)>, ts: int)
    ensures CreateParts(st, parts, ts).Ok? ==>
              forall n :: n in CreateParts(st, parts, ts).value.nodes ==> n in st.nodes || n in PartNames(parts)
    decreases |parts|
  {
    hide CreateNode, PartNames;
    if parts != [] {
      PartNamesCons(parts);
      var first := CreateFrom(st, parts[0].0, parts[0].1, ts);
      if first.Ok? { CreatedNames(first.value, parts[1..], ts); }
    }
  }

  lemma PartNamesCons(parts: seq<(Id, NodeContent)>)
    requires parts != []
    ensures PartNames(parts) == {parts[0].0} + PartNames(parts[1..])
  {
    forall i | 0 <= i < |parts| ensures parts[i].0 in {parts[0].0} + PartNames(parts[1..]) {
      if i > 0 { assert parts[1..][i - 1] == parts[i]; }
    }
    forall i | 0 <= i < |parts[1..]| ensures parts[1..][i].0 in PartNames(parts) { assert parts[i + 1] == parts[1..][i]; }
  }

  lemma {:induction false} RestoredNames(st: State, edges: seq<(Id, Relation)>, ts: int)
    ensures RestoreEdges(st, edges, ts).Ok? ==> RestoreEdges(st, edges, ts).value.nodes == st.nodes
    decreases |edges|
  {
    hide UpsertRelation;
    if edges != [] && Restore(st, edges[0].0, edges[0].1, ts).Ok? {
      RestoredNames(Restore(st, edges[0].0, edges[0].1, ts).value, edges[1..], ts);
    }
  }

  /** A replayed event names no node it does not introduce. */
  lemma AppliedNames(st: State, e: Event)
    requires ApplyEvent(st, e).Ok?
    ensures forall n :: n in ApplyEvent(st, e).value.nodes ==> n in st.nodes || n in NewIds(Some(e))
  {
    hide CreateNode, MergeNodes, UpsertRelation, DeleteNodes, AddAliases, ReplaceFacts, RenameEdgeType, RetireRelation,
      CreateParts, RestoreEdges, Known;
    if e.NodeSplit? {
      var cleared := st.(graph := DeleteNodes(st.graph, [st.nodes[e.parent]]));
      CreatedNames(cleared, e.parts, e.ts);
      RestoredNames(CreateParts(cleared, e.parts, e.ts).value, e.edges, e.ts);
    }
  }

  /** Any event that replays leaves a well-formed store. */
  lemma {:induction false} PartsKeepWellFormed(st: State, parts: seq<(Id, NodeContent)>, ts: int)
    requires WellFormed(st.graph)
    ensures CreateParts(st, parts, ts).Ok? ==> WellFormed(CreateParts(st, parts, ts).value.graph)
    decreases |parts|
  {
    hide WellFormed, CreateNode;
    if parts != [] {
      var c := parts[0].1;
      CreateKeepsWellFormed(st.graph, c.scope, c.name, c.typ, c.facts, REPLAY_EMBEDDING, ts, c.aliases);
      if CreateFrom(st, parts[0].0, c, ts).Ok? { PartsKeepWellFormed(CreateFrom(st, parts[0].0, c, ts).value, parts[1..], ts); }
    }
  }

  lemma RestoreKeepsWellFormed(st: State, id: Id, r: Relation, ts: int)
    requires WellFormed(st.graph)
    ensures Restore(st, id, r, ts).Ok? ==> WellFormed(Restore(st, id, r, ts).value.graph)
  {
    hide WellFormed, UpsertRelation;
    if r.source in st.nodes && r.target in st.nodes {
      UpsertKeepsWellFormed(st.graph, r.scope, st.nodes[r.source], st.nodes[r.target], r.typ, Some(r.claim), r.entryIds,
                            r.until, ts);
    }
  }

  lemma {:induction false} RestoresKeepWellFormed(st: State, edges: seq<(Id, Relation)>, ts: int)
    requires WellFormed(st.graph)
    ensures RestoreEdges(st, edges, ts).Ok? ==> WellFormed(RestoreEdges(st, edges, ts).value.graph)
    decreases |edges|
  {
    hide WellFormed, Restore;
    if edges != [] {
      RestoreKeepsWellFormed(st, edges[0].0, edges[0].1, ts);
      if Restore(st, edges[0].0, edges[0].1, ts).Ok? {
        RestoresKeepWellFormed(Restore(st, edges[0].0, edges[0].1, ts).value, edges[1..], ts);
      }
    }
  }

  lemma MidwayIsError(g: Graph, survivor: Id, absorbed: seq<Id>, name: string, typ: string, facts: seq<Fact>,
                      embedding: seq<real>, now: int)
    requires FailsMidway(g, survivor, absorbed, embedding)
    ensures MergeNodes(g, survivor, absorbed, name, typ, facts, embedding, now).result.Err?
  {
    hide UnitNorm, AnyBlank, AbsorbedSurfaces, Canonical, Moved, Deleting;
    DeletingAll(g.nodes, absorbed);
  }

  lemma AppliedKeepsWellFormed(st: State, e: Event)
    requires WellFormed(st.graph) && ApplyEvent(st, e).Ok?
    ensures WellFormed(ApplyEvent(st, e).value.graph)
  {
    hide WellFormed, MergeNodes, UpsertRelation, CreateNode, Moved, Restore, CreateParts, RestoreEdges, DeleteNodes,
      RenameEdgeType, FailsMidway, Known, Translate, AddAliases, ReplaceFacts, RetireRelation;
    match e
    case NodeCreated(_, ts, _, c) =>
      CreateKeepsWellFormed(st.graph, c.scope, c.name, c.typ, c.facts, REPLAY_EMBEDDING, ts, c.aliases);
    case AliasesAdded(_, _, id, c) => AliasesKeepWellFormed(st.graph, st.nodes[id], c.aliases);
    case NodeRewritten(_, ts, id, c) => FactsKeepWellFormed(st.graph, st.nodes[id], c.facts, c.typ, REPLAY_EMBEDDING, ts);
    case NodeRetyped(_, ts, id, c) => FactsKeepWellFormed(st.graph, st.nodes[id], c.facts, c.typ, REPLAY_EMBEDDING, ts);
    case NodeMerged(_, ts, survivor, absorbed, c) =>
      var ids' := Translate(st, absorbed);
      if FailsMidway(st.graph, st.nodes[survivor], ids', REPLAY_EMBEDDING) {
        MidwayIsError(st.graph, st.nodes[survivor], ids', c.name, c.typ, c.facts, REPLAY_EMBEDDING, ts);
      } else {
        MergeKeepsWellFormed(st.graph, st.nodes[survivor], ids', c.name, c.typ, c.facts, REPLAY_EMBEDDING, ts);
      }
    case NodeSplit(_, ts, parent, parts, edges) =>
      DeleteKeepsWellFormed(st.graph, [st.nodes[parent]]);
      var cleared := st.(graph := DeleteNodes(st.graph, [st.nodes[parent]]));
      PartsKeepWellFormed(cleared, parts, ts);
      RestoresKeepWellFormed(CreateParts(cleared, parts, ts).value, edges, ts);
    case NodeDeleted(_, _, ids) => DeleteKeepsWellFormed(st.graph, Translate(st, ids));
    case RelationUpserted(_, ts, id, edge) => RestoreKeepsWellFormed(st, id, edge, ts);
    case RelationRetired(_, _, id) => RetireKeepsWellFormed(st.graph, st.rels[id]);
    case EdgeTypeRenamed(scope, _, was, becomes) => RenameKeepsWellFormed(st.graph, scope, was, becomes);
  }

  // ---------------------------------------------------------- whole runs

  /** What the replay of *scope* has rebuilt after the given calls. */
  ghost function Rebuilt(calls: seq<Call>, scope: string): Outcome<State> {
    ApplyAll(BLANK, OfScope(Run(calls).events, scope))
  }

  /** The condition on one call, whether or not the scope journals it. */
  ghost predicate CallSafe(g: Graph, scope: string, st: State, op: Op, ts: int) {
    var e := EventFor(g, op, ts);
    if e.Some? && e.value.scope == scope then StepSafe(g, scope, st, op, ts)
    else op.Delete? ==> forall n :: n in op.ids ==> !InScope(g.nodes, scope, n)
  }

  ghost predicate CallsSafe(calls: seq<Call>, scope: string) {
    calls == [] ||
    (var before, last := calls[..|calls| - 1], calls[|calls| - 1];
     CallsSafe(before, scope) && Rebuilt(before, scope).Ok? &&
     CallSafe(Run(before).graph, scope, Rebuilt(before, scope).value, last.op, last.ts))
  }

  /** After every one of the calls, the rebuilt scope is the live scope. */
  ghost predicate Tracks(calls: seq<Call>, scope: string) {
    && (calls == [] || Tracks(calls[..|calls| - 1], scope))
    && Rebuilt(calls, scope).Ok?
    && Simulates(Run(calls).graph, scope, Rebuilt(calls, scope).value)
  }

  ghost predicate NoneMidway(calls: seq<Call>) {
    calls == [] ||
    (var before, last := calls[..|calls| - 1], calls[|calls| - 1];
     NoneMidway(before) &&
     (last.op.Merge? ==> !FailsMidway(Run(before).graph, last.op.survivor, last.op.absorbed, last.op.embedding)))
  }

  /** Over every run in which no merge fails midway, the graph stays well formed and no
      edge is ever without evidence. */
  lemma {:induction false} RunsKeepInvariants(calls: seq<Call>)
    requires NoneMidway(calls)
    ensures WellFormed(Run(calls).graph) && Evidenced(Run(calls).graph.rels)
  {
    hide WellFormed, After, EventFor, FailsMidway, Evidenced;
    if calls == [] {
      BlankKept();
    } else {
      var before, last := calls[..|calls| - 1], calls[|calls| - 1];
      RunsKeepInvariants(before);
      PerformKeepsWellFormed(Run(before).graph, last.op);
      EvidenceNeverEmpty(Run(before).graph, last.op);
    }
  }

  lemma BlankKept()
    ensures WellFormed(EMPTY) && Evidenced(EMPTY.rels)
  {
  }

  /** A call that journals nothing for the scope keeps the scope in step unless it
      deletes one of its nodes behind the journal's back. */
  lemma Unjournalled(g: Graph, scope: string, st: State, op: Op, ts: int)
    requires Synced(g, scope, st) && WellFormed(g)
    requires op.Merge? ==> !FailsMidway(g, op.survivor, op.absorbed, op.embedding)
    requires EventFor(g, op, ts).Some? ==> EventFor(g, op, ts).value.scope != scope
    ensures Simulates(After(g, op), scope, st) <==> CallSafe(g, scope, st, op, ts)
  {
    hide WellFormed, Simulates, EventFor, After, StepSafe;
    if op.Delete? {
      DeletionNoticed(g, scope, st, op);
    } else {
      Elsewhere(g, op, ts, scope);
      UnchangedSimulates(g, After(g, op), scope, st);
    }
  }

  /** Deleting a node of the scope is visible: its twin has no counterpart left. */
  lemma DeletionNoticed(g: Graph, scope: string, st: State, op: Op)
    requires Synced(g, scope, st) && op.Delete?
    ensures Simulates(After(g, op), scope, st) <==> forall n :: n in op.ids ==> !InScope(g.nodes, scope, n)
  {
    hide WellFormed, EdgeSim, SameNodeBeliefs;
    if n :| n in op.ids && InScope(g.nodes, scope, n) {
      forall m | InScope(After(g, op).nodes, scope, m) ensures st.nodes[m] != st.nodes[n] {
        assert InScope(g.nodes, scope, m);
      }
    } else {
      DeletedElsewhere(g, op.ids, scope);
      UnchangedSimulates(g, After(g, op), scope, st);
    }
  }

  lemma NamedKept(g: Graph, scope: string, st: State, op: Op, ts: int, st': State)
    requires WellFormed(g) && Named(g, scope, st) && WellFormed(After(g, op))
    requires op.Merge? ==> !FailsMidway(g, op.survivor, op.absorbed, op.embedding)
    requires forall n :: n in st'.nodes ==>
               n in st.nodes || (n in NewIds(EventFor(g, op, ts)) && EventFor(g, op, ts).value.scope == scope)
    ensures Named(After(g, op), scope, st')
  {
    hide WellFormed, Num, NodeId, After, EventFor, NewIds;
    var g' := After(g, op);
    NodesPersist(g, op, ts);
    Minted(g');
    forall n | n in st'.nodes ensures MintedNode(n, g'.sequence) && (n in g'.nodes ==> g'.nodes[n].scope == scope) {
      if n in st.nodes { MintedMonotone(n, g.sequence, g'.sequence); }
    }
  }

  lemma RebuiltStep(calls: seq<Call>, scope: string)
    requires calls != []
    ensures var before, last := calls[..|calls| - 1], calls[|calls| - 1];
            var e := EventFor(Run(before).graph, last.op, last.ts);
            && Run(calls).graph == After(Run(before).graph, last.op)
            && (if e.Some? && e.value.scope == scope
                then Rebuilt(calls, scope) == (match Rebuilt(before, scope)
                                               case Ok(st) => ApplyEvent(st, e.value)
                                               case Err(error) => Err(error))
                else Rebuilt(calls, scope) == Rebuilt(before, scope))
  {
    hide After, EventFor, ApplyEvent;
    var before, last := calls[..|calls| - 1], calls[|calls| - 1];
    var events := Run(before).events;
    var e := EventFor(Run(before).graph, last.op, last.ts);
    if e.Some? {
      OfScopeAppend(events, [e.value], scope);
      var mine := OfScope(events, scope);
      assert OfScope([e.value], scope) == if e.value.scope == scope then [e.value] else [];
      if e.value.scope == scope {
        assert (mine + [e.value])[..|mine + [e.value]| - 1] == mine;
      } else {
        assert mine + [] == mine;
      }
    }
  }

  /** One call from a state in step: it stays in step exactly when the call was safe. */
  lemma CallExact(calls: seq<Call>, scope: string)
    requires calls != [] && NoneMidway(calls)
    requires var before := calls[..|calls| - 1];
             Rebuilt(before, scope).Ok? && Invariant(Run(before).graph, scope, Rebuilt(before, scope).value)
    ensures var before, last := calls[..|calls| - 1], calls[|calls| - 1];
            var safe := CallSafe(Run(before).graph, scope, Rebuilt(before, scope).value, last.op, last.ts);
            && (safe <==> Rebuilt(calls, scope).Ok? && Simulates(Run(calls).graph, scope, Rebuilt(calls, scope).value))
            && (safe ==> Invariant(Run(calls).graph, scope, Rebuilt(calls, scope).value))
  {
    hide WellFormed, Simulates, After, EventFor, ApplyEvent, FailsMidway, Run, Rebuilt, StepSafe, Named, Evidenced, NewIds;
    var before, last := calls[..|calls| - 1], calls[|calls| - 1];
    var g, op, ts := Run(before).graph, last.op, last.ts;
    var st := Rebuilt(before, scope).value;
    var e := EventFor(g, op, ts);
    RebuiltStep(calls, scope);
    PerformKeepsWellFormed(g, op);
    EvidenceNeverEmpty(g, op);
    if e.Some? && e.value.scope == scope {
      StepExact(g, scope, st, op, ts);
      if ApplyEvent(st, e.value).Ok? {
        AppliedKeepsWellFormed(st, e.value);
        AppliedNames(st, e.value);
        NamedKept(g, scope, st, op, ts, ApplyEvent(st, e.value).value);
      }
    } else {
      Unjournalled(g, scope, st, op, ts);
      NamedKept(g, scope, st, op, ts, st);
    }
  }

  lemma BlankInvariant(scope: string)
    ensures Invariant(EMPTY, scope, BLANK)
  {
  }

  /** Taking the events as they were appended, the rebuilt scope tracks the live one
      through a whole run if and only if every call of it was safe. */
  lemma {:induction false} AppendedTracksExactly(calls: seq<Call>, scope: string)
    requires NoneMidway(calls)
    ensures Tracks(calls, scope) <==> CallsSafe(calls, scope)
    ensures Tracks(calls, scope) ==> Invariant(Run(calls).graph, scope, Rebuilt(calls, scope).value)
  {
    hide Simulates, Invariant, CallSafe, Rebuilt, Run;
    if calls == [] {
      StartsBlank(scope);
    } else {
      var before := calls[..|calls| - 1];
      AppendedTracksExactly(before, scope);
      if Tracks(before, scope) { CallExact(calls, scope); }
    }
  }

  // ------------------------------------------------- as the ledger orders them

  /** After every one of the calls, replaying the ledger gives the live scope. */
  ghost predicate ReplayFollows(calls: seq<Call>, scope: string) {
    && (calls == [] || ReplayFollows(calls[..|calls| - 1], scope))
    && ReplayOf(Run(calls).events, scope).Ok?
    && Simulates(Run(calls).graph, scope, ReplayOf(Run(calls).events, scope).value)
  }

  /** The scope's events never run back in time. */
  ghost predicate InOrder(calls: seq<Call>, scope: string) { InTimeOrder(OfScope(Run(calls).events, scope)) }

  lemma OrderedReplay(calls: seq<Call>, scope: string)
    requires InOrder(calls, scope)
    ensures ReplayOf(Run(calls).events, scope) == Rebuilt(calls, scope)
  {
    hide Run, InTimeOrder;
    ReplayOrderIsAppendOrder(Run(calls).events, scope);
  }

  lemma OrderedBefore(calls: seq<Call>, scope: string)
    requires calls != [] && InOrder(calls, scope)
    ensures InOrder(calls[..|calls| - 1], scope)
  {
    hide After, EventFor;
    var before, last := calls[..|calls| - 1], calls[|calls| - 1];
    var e := EventFor(Run(before).graph, last.op, last.ts);
    var events := Run(before).events;
    if e.Some? {
      OfScopeAppend(events, [e.value], scope);
      OrderedPrefix(OfScope(events, scope), OfScope([e.value], scope));
    }
  }

  lemma OrderedPrefix(a: seq<Event>, b: seq<Event>)
    requires InTimeOrder(a + b)
    ensures InTimeOrder(a)
  {
    forall i, j | 0 <= i < j < |a| ensures a[i].ts <= a[j].ts { assert (a + b)[i] == a[i] && (a + b)[j] == a[j]; }
  }

  lemma {:induction false} FollowsIsTracks(calls: seq<Call>, scope: string)
    requires InOrder(calls, scope)
    ensures ReplayFollows(calls, scope) <==> Tracks(calls, scope)
  {
    hide Run, InOrder, ReplayOf, Rebuilt, Simulates;
    OrderedReplay(calls, scope);
    if calls != [] {
      OrderedBefore(calls, scope);
      FollowsIsTracks(calls[..|calls| - 1], scope);
    }
  }

  /** THE replay theorem, exactly: on a clock that never runs back within the scope,
      replaying the ledger gives the live scope throughout a run if and only if every
      call of it was safe. */
  lemma ReplayTracksExactly(calls: seq<Call>, scope: string)
    requires NoneMidway(calls) && InTimeOrder(OfScope(Run(calls).events, scope))
    ensures ReplayFollows(calls, scope) <==> CallsSafe(calls, scope)
    ensures ReplayFollows(calls, scope) ==>
              Invariant(Run(calls).graph, scope, ReplayOf(Run(calls).events, scope).value)
  {
    hide Run, ReplayOf, Rebuilt, Simulates, Invariant, CallSafe, NoneMidway;
    assert InOrder(calls, scope);
    FollowsIsTracks(calls, scope);
    OrderedReplay(calls, scope);
    AppendedTracksExactly(calls, scope);
  }

  lemma StartsBlank(scope: string)
    ensures Run([]).graph == EMPTY && Rebuilt([], scope) == Ok(BLANK) && Invariant(EMPTY, scope, BLANK)
    ensures Simulates(EMPTY, scope, BLANK)
  {
    BlankInvariant(scope);
  }
}
