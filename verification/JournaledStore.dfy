/** The journalling wrapper and the replay, as the programs that run over the store. */
module JournaledStore {
  import opened Ids
  import opened Surfaces
  import opened GraphModel
  import opened EdgeFold
  import opened GraphOps
  import opened GraphStore
  import opened Journal
  import opened Replay
  import opened ReplaySteps
  import opened ReplayGuarantee

  /** Delegates every write, then appends one event to the ledger if the write
      succeeded; *ts* is the wrapper's own clock reading. */
  class JournaledGraph {
    const inner: InMemoryGraph
    var ledger: seq<Event>

    ghost function State(): Journalled
      reads this, inner
    {
      Journalled(inner.State(), ledger)
    }

    constructor ()
      ensures State() == START && inner.Valid() && fresh(inner)
    {
      inner := new InMemoryGraph();
      ledger := [];
    }

    // -------------------------------------------------- bookkeeping

    method MarkDirty(ids: seq<Id>, ts: int)
      modifies inner
      ensures State() == Perform(old(State()), Dirty(ids), ts)
    {
      inner.MarkDirty(ids);
    }

    method ClearDirty(ids: seq<Id>, now: int, ts: int)
      modifies inner
      ensures State() == Perform(old(State()), Clean(ids, now), ts)
    {
      inner.ClearDirty(ids, now);
    }

    method RecordRead(ids: seq<Id>, ts: int)
      modifies inner
      ensures State() == Perform(old(State()), Read(ids), ts)
    {
      inner.RecordRead(ids);
    }

    // ------------------------------------------------ journalled writes

    method CreateNode(scope: string, name: string, typ: string, facts: seq<Fact>, embedding: seq<real>, now: int,
                      aliases: seq<string>, ts: int) returns (out: Outcome<Id>)
      modifies this, inner
      ensures State() == Perform(old(State()), Create(scope, name, typ, facts, embedding, now, aliases), ts)
      ensures out == GraphOps.CreateNode(old(inner.State()), scope, name, typ, facts, embedding, now, aliases).result
    {
      hide UnitNorm, Canonical, AnyBlank, NodeId, NodeOk;
      out := inner.CreateNode(scope, name, typ, facts, embedding, now, aliases);
      if out.Ok? { ledger := ledger + [NodeCreated(scope, ts, out.value, ContentOf(inner.nodes[out.value]))]; }
    }

    method AddAliases(id: Id, names: seq<string>, ts: int) returns (out: Outcome<()>)
      modifies this, inner
      ensures State() == Perform(old(State()), Alias(id, names), ts)
      ensures out == GraphOps.AddAliases(old(inner.State()), id, names).result
    {
      hide Canonical, AnyBlank;
      out := inner.AddAliases(id, names);
      if out.Ok? { ledger := ledger + [AliasesAdded(inner.nodes[id].scope, ts, id, ContentOf(inner.nodes[id]))]; }
    }

    method ReplaceFacts(id: Id, facts: seq<Fact>, typ: string, embedding: seq<real>, now: int, ts: int)
      returns (out: Outcome<()>)
      modifies this, inner
      ensures State() == Perform(old(State()), Rewrite(id, facts, typ, embedding, now), ts)
      ensures out == GraphOps.ReplaceFacts(old(inner.State()), id, facts, typ, embedding, now).result
    {
      hide UnitNorm;
      if id !in inner.nodes { return Err(NodeNotFound); }
      var before := inner.nodes[id];
      out := inner.ReplaceFacts(id, facts, typ, embedding, now);
      if out.Ok? {
        var after := inner.nodes[id];
        if before.facts == after.facts && before.typ != after.typ {
          ledger := ledger + [NodeRetyped(after.scope, ts, id, ContentOf(after))];
        } else {
          ledger := ledger + [NodeRewritten(after.scope, ts, id, ContentOf(after))];
        }
      }
    }

    /** The ids of the list the store holds, in the list's order. */
    method Held(ids: seq<Id>) returns (present: seq<Id>)
      ensures present == Present(inner.State(), ids)
    {
      present := [];
      for i := 0 to |ids|
        invariant present + Present(inner.State(), ids[i..]) == Present(inner.State(), ids)
      {
        assert ids[i..][0] == ids[i] && ids[i..][1..] == ids[i + 1..];
        if ids[i] in inner.nodes { present := present + [ids[i]]; }
      }
      assert ids[|ids|..] == [];
    }

    method MergeNodes(survivor: Id, absorbed: seq<Id>, name: string, typ: string, facts: seq<Fact>,
                      embedding: seq<real>, now: int, ts: int) returns (out: Outcome<()>)
      requires inner.Valid()
      modifies this, inner
      ensures State() == Perform(old(State()), Merge(survivor, absorbed, name, typ, facts, embedding, now), ts)
      ensures out == GraphOps.MergeNodes(old(inner.State()), survivor, absorbed, name, typ, facts, embedding, now).result
      ensures inner.Valid()
    {
      hide Moved, UnitNorm, Canonical, AnyBlank, Deleting, AbsorbedSurfaces, Present, UniqueTriples, IdsMinted;
      if survivor !in inner.nodes { return Err(NodeNotFound); }
      var present := Held(absorbed);
      out := inner.MergeNodes(survivor, absorbed, name, typ, facts, embedding, now);
      if out.Ok? {
        var after := inner.nodes[survivor];
        ledger := ledger + [NodeMerged(after.scope, ts, survivor, present, ContentOf(after))];
      }
    }

    method SplitNode(id: Id, parts: seq<SplitPart>, now: int, ts: int) returns (out: Outcome<seq<Id>>)
      requires inner.Valid()
      modifies this, inner
      ensures State() == Perform(old(State()), Split(id, parts, now), ts)
      ensures out == if id !in old(inner.nodes) then Err(NodeNotFound)
                     else GraphOps.SplitNode(old(inner.State()), id, parts, now).result
      ensures inner.Valid()
    {
      hide Moved, SplitInto, UniqueTriples, IdsMinted, Claims, PartPayloads, EdgePayloads;
      if id !in inner.nodes { return Err(NodeNotFound); }
      var scope := inner.nodes[id].scope;
      out := inner.SplitNode(id, parts, now);
      if out.Ok? {
        var created := set i | i in out.value;
        var touching := set x | x in inner.relations && Touches(inner.relations[x], created);
        assert touching == EdgesTouching(inner.relations, created);
        var order := SortIds(touching);
        ledger := ledger + [NodeSplit(scope, ts, id, PartPayloads(inner.nodes, out.value),
                                      EdgePayloads(inner.relations, order))];
      }
    }

    method DeleteNodes(ids: seq<Id>, ts: int)
      requires inner.Valid()
      modifies this, inner
      ensures State() == Perform(old(State()), Delete(ids), ts)
      ensures inner.Valid()
    {
      hide Present, UniqueTriples, IdsMinted, DropTouching;
      var present := Held(ids);
      PresentHead(inner.State(), ids);
      if present == [] {
        inner.DeleteNodes(ids);
        return;
      }
      var scope := inner.nodes[present[0]].scope;
      inner.DeleteNodes(ids);
      ledger := ledger + [NodeDeleted(scope, ts, present)];
    }

    method UpsertRelation(scope: string, source: Id, target: Id, typ: string, claim: Option<string>, entryIds: seq<Id>,
                          until: Option<string>, now: int, ts: int) returns (out: Outcome<Id>)
      modifies this, inner
      ensures State() == Perform(old(State()), Upsert(scope, source, target, typ, claim, entryIds, until, now), ts)
      ensures out == GraphOps.UpsertRelation(old(inner.State()), scope, source, target, typ, claim, entryIds, until,
                                             now).result
    {
      hide ByTriple, StatementOk, EdgeTypeOk, Union, RelationId;
      out := inner.UpsertRelation(scope, source, target, typ, claim, entryIds, until, now);
      if out.Ok? { ledger := ledger + [RelationUpserted(scope, ts, out.value, inner.relations[out.value])]; }
    }

    method RetireRelation(id: Id, ts: int) returns (out: Outcome<()>)
      modifies this, inner
      ensures State() == Perform(old(State()), Retire(id), ts)
      ensures out == GraphOps.RetireRelation(old(inner.State()), id).result
    {
      if id !in inner.relations { return Err(NodeNotFound); }
      var scope := inner.relations[id].scope;
      out := inner.RetireRelation(id);
      ledger := ledger + [RelationRetired(scope, ts, id)];
    }

    method RenameEdgeType(scope: string, was: string, becomes: string, ts: int) returns (out: Outcome<nat>)
      requires inner.Valid()
      modifies this, inner
      ensures State() == Perform(old(State()), Rename(scope, was, becomes), ts)
      ensures out == GraphOps.RenameEdgeType(old(inner.State()), scope, was, becomes).result
      ensures inner.Valid()
    {
      hide Moved, EdgeTypeOk, UniqueTriples, IdsMinted;
      out := inner.RenameEdgeType(scope, was, becomes);
      if out.Ok? { ledger := ledger + [EdgeTypeRenamed(scope, ts, was, becomes)]; }
    }
  }

  lemma {:induction false} PresentHead(g: Graph, ids: seq<Id>)
    ensures Present(g, ids) != [] ==> Present(g, ids)[0] in g.nodes
  {
    if ids != [] { PresentHead(g, ids[1..]); }
  }

  // ------------------------------------------------------------ replaying

  /** One replay in progress: the graph being built and the id maps into it. */
  class Replayer {
    const graph: InMemoryGraph
    var nodes: map<Id, Id>
    var relations: map<Id, Id>

    ghost function Progress(): State
      reads this, graph
    {
      State.State(graph.State(), nodes, relations)
    }

    constructor ()
      ensures Progress() == BLANK && graph.Valid() && fresh(graph)
    {
      graph := new InMemoryGraph();
      nodes, relations := map[], map[];
    }

    method Create(id: Id, content: NodeContent, ts: int) returns (out: Outcome<()>)
      requires graph.Valid()
      modifies this, graph
      ensures Reports(out, CreateFrom(old(Progress()), id, content, ts), Progress())
      ensures graph.Valid()
    {
      hide UnitNorm, Canonical, AnyBlank, NodeOk, UniqueTriples, MintedNode, MintedRelation, NodeId;
      FreshNode(graph.State());
      var minted := graph.CreateNode(content.scope, content.name, content.typ, content.facts, REPLAY_EMBEDDING, ts,
                                     content.aliases);
      if minted.Err? { return Err(minted.error); }
      nodes := nodes[id := minted.value];
      return Ok(());
    }

    method RestoreRelation(id: Id, r: Relation, ts: int) returns (out: Outcome<()>)
      requires graph.Valid()
      modifies this, graph
      ensures Reports(out, Restore(old(Progress()), id, r, ts), Progress())
      ensures graph.Valid()
    {
      hide ByTriple, StatementOk, EdgeTypeOk, Union, RelationId, UniqueTriples, IdsMinted, UpsertRelation;
      if r.source !in nodes || r.target !in nodes { return Err(JournalGap); }
      UpsertKeepsValid(graph.State(), r.scope, nodes[r.source], nodes[r.target], r.typ, Some(r.claim), r.entryIds, r.until, ts);
      var stored := graph.UpsertRelation(r.scope, nodes[r.source], nodes[r.target], r.typ, Some(r.claim), r.entryIds,
                                         r.until, ts);
      if stored.Err? { return Err(stored.error); }
      relations := relations[id := stored.value];
      return Ok(());
    }

    /** The replayed ids of journalled ones, or nothing at the first gap. */
    method Translated(ids: seq<Id>) returns (out: Option<seq<Id>>)
      ensures out == if Known(Progress(), ids) then Some(Translate(Progress(), ids)) else None
    {
      hide Translate;
      var replayed: seq<Id> := [];
      for i := 0 to |ids|
        invariant |replayed| == i && forall j :: 0 <= j < i ==> ids[j] in nodes && replayed[j] == nodes[ids[j]]
      {
        if ids[i] !in nodes { return None; }
        replayed := replayed + [nodes[ids[i]]];
      }
      TranslateMembers(Progress(), ids);
      assert replayed == Translate(Progress(), ids);
      return Some(replayed);
    }

    /** One journalled mutation, through the write that recorded it. */
    method Apply(e: Event) returns (out: Outcome<()>)
      requires graph.Valid()
      modifies this, graph
      ensures Reports(out, ApplyEvent(old(Progress()), e), Progress())
      ensures graph.Valid()
    {
      hide UniqueTriples, IdsMinted, CreateNode, UpsertRelation, MergeNodes, AddAliases, ReplaceFacts, DeleteNodes,
        RenameEdgeType, RetireRelation, Restore, CreateFrom, Known, Translate, CreateParts, RestoreEdges;
      match e
      case NodeCreated(_, ts, id, content) =>
        out := Create(id, content, ts);
      case AliasesAdded(_, _, id, content) =>
        if id !in nodes { return Err(JournalGap); }
        AliasesKeepValid(graph.State(), nodes[id], content.aliases);
        out := graph.AddAliases(nodes[id], content.aliases);
      case NodeRewritten(_, ts, id, c) =>
        out := Rewritten(id, c, ts);
      case NodeRetyped(_, ts, id, c) =>
        out := Rewritten(id, c, ts);
      case NodeMerged(_, ts, survivor, absorbed, c) =>
        if survivor !in nodes { return Err(JournalGap); }
        var replayed := Translated(absorbed);
        if replayed.None? { return Err(JournalGap); }
        out := graph.MergeNodes(nodes[survivor], replayed.value, c.name, c.typ, c.facts, REPLAY_EMBEDDING, ts);
      case NodeSplit(_, ts, parent, parts, edges) =>
        if parent !in nodes { return Err(JournalGap); }
        graph.DeleteNodes([nodes[parent]]);
        out := CreateAll(parts, ts);
        if out.Ok? { out := RestoreAll(edges, ts); }
      case NodeDeleted(_, _, ids) =>
        var replayed := Translated(ids);
        if replayed.None? { return Err(JournalGap); }
        graph.DeleteNodes(replayed.value);
        out := Ok(());
      case RelationUpserted(_, ts, id, edge) =>
        out := RestoreRelation(id, edge, ts);
      case RelationRetired(_, _, id) =>
        if id !in relations { return Err(JournalGap); }
        RetireKeepsValid(graph.State(), relations[id]);
        out := graph.RetireRelation(relations[id]);
      case EdgeTypeRenamed(scope, _, was, becomes) =>
        var renamed := graph.RenameEdgeType(scope, was, becomes);
        out := if renamed.Ok? then Ok(()) else Err(renamed.error);
    }

    method Rewritten(id: Id, c: NodeContent, ts: int) returns (out: Outcome<()>)
      requires graph.Valid()
      modifies this, graph
      ensures Reports(out, ApplyEvent(old(Progress()), NodeRewritten(c.scope, ts, id, c)), Progress())
      ensures graph.Valid()
    {
      hide UniqueTriples, IdsMinted, ReplaceFacts;
      if id !in nodes { return Err(JournalGap); }
      FactsKeepValid(graph.State(), nodes[id], c.facts, c.typ, REPLAY_EMBEDDING, ts);
      out := graph.ReplaceFacts(nodes[id], c.facts, c.typ, REPLAY_EMBEDDING, ts);
    }

    method CreateAll(parts: seq<(Id, NodeContent)>, ts: int) returns (out: Outcome<()>)
      requires graph.Valid()
      modifies this, graph
      ensures Reports(out, CreateParts(old(Progress()), parts, ts), Progress())
      ensures graph.Valid()
    {
      hide UniqueTriples, IdsMinted, CreateFrom;
      for i := 0 to |parts|
        invariant graph.Valid()
        invariant CreateParts(Progress(), parts[i..], ts) == CreateParts(old(Progress()), parts, ts)
      {
        assert parts[i..][0] == parts[i] && parts[i..][1..] == parts[i + 1..];
        out := Create(parts[i].0, parts[i].1, ts);
        if out.Err? { return; }
      }
      assert parts[|parts|..] == [];
      out := Ok(());
    }

    method RestoreAll(edges: seq<(Id, Relation)>, ts: int) returns (out: Outcome<()>)
      requires graph.Valid()
      modifies this, graph
      ensures Reports(out, RestoreEdges(old(Progress()), edges, ts), Progress())
      ensures graph.Valid()
    {
      hide UniqueTriples, IdsMinted, Restore;
      for i := 0 to |edges|
        invariant graph.Valid()
        invariant RestoreEdges(Progress(), edges[i..], ts) == RestoreEdges(old(Progress()), edges, ts)
      {
        assert edges[i..][0] == edges[i] && edges[i..][1..] == edges[i + 1..];
        out := RestoreRelation(edges[i].0, edges[i].1, ts);
        if out.Err? { return; }
      }
      assert edges[|edges|..] == [];
      out := Ok(());
    }
  }

  /** Rebuild the scope by applying its events, oldest first. */
  method ReplayScope(events: seq<Event>, scope: string) returns (out: Outcome<InMemoryGraph>)
    ensures match ReplayOf(events, scope)
            case Ok(st) => out.Ok? && fresh(out.value) && out.value.State() == st.graph
            case Err(e) => out == Err(e)
  {
    hide ApplyEvent, EventsOf, UniqueTriples, IdsMinted;
    var replayer := new Replayer();
    var mine := EventsOf(events, scope);
    assert mine[..0] == [] && ApplyAll(BLANK, []) == Ok(BLANK);
    for i := 0 to |mine|
      invariant fresh(replayer) && fresh(replayer.graph) && replayer.graph.Valid()
      invariant ApplyAll(BLANK, mine[..i]) == Ok(replayer.Progress())
    {
      assert mine[..i + 1][..i] == mine[..i];
      var step := replayer.Apply(mine[i]);
      if step.Err? {
        FailureStays(mine, i + 1);
        return Err(step.error);
      }
    }
    assert mine[..|mine|] == mine;
    return Ok(replayer.graph);
  }

  /** A replay that fails on a prefix fails. */
  lemma {:induction false} FailureStays(events: seq<Event>, i: nat)
    requires i <= |events| && ApplyAll(BLANK, events[..i]).Err?
    ensures ApplyAll(BLANK, events) == ApplyAll(BLANK, events[..i])
    decreases |events|
  {
    hide ApplyEvent;
    if i == |events| {
      assert events[..i] == events;
    } else {
      var before := events[..|events| - 1];
      assert before[..i] == events[..i];
      FailureStays(before, i);
    }
  }

  lemma AliasesKeepValid(g: Graph, id: Id, names: seq<string>)
    requires UniqueTriples(g.rels) && IdsMinted(g)
    ensures var g' := GraphOps.AddAliases(g, id, names).graph; UniqueTriples(g'.rels) && IdsMinted(g')
  {
    hide MintedNode, MintedRelation, Canonical, AnyBlank;
  }

  lemma FactsKeepValid(g: Graph, id: Id, facts: seq<Fact>, typ: string, embedding: seq<real>, now: int)
    requires UniqueTriples(g.rels) && IdsMinted(g)
    ensures var g' := GraphOps.ReplaceFacts(g, id, facts, typ, embedding, now).graph; UniqueTriples(g'.rels) && IdsMinted(g')
  {
    hide MintedNode, MintedRelation, UnitNorm;
  }

  lemma RetireKeepsValid(g: Graph, id: Id)
    requires UniqueTriples(g.rels) && IdsMinted(g)
    ensures var g' := GraphOps.RetireRelation(g, id).graph; UniqueTriples(g'.rels) && IdsMinted(g')
  {
    hide MintedNode, MintedRelation;
  }

  /** The program's outcome is the specified one, and so is its state on success. */
  ghost predicate Reports(out: Outcome<()>, specified: Outcome<State>, reached: State) {
    match specified
    case Ok(st) => out.Ok? && reached == st
    case Err(e) => out == Err(e)
  }

  /** Upserting keeps triples unique and ids minted, in any store with both. */
  lemma UpsertKeepsValid(g: Graph, scope: string, source: Id, target: Id, typ: string, claim: Option<string>,
                         entryIds: seq<Id>, until: Option<string>, now: int)
    requires UniqueTriples(g.rels) && IdsMinted(g)
    ensures var g' := GraphOps.UpsertRelation(g, scope, source, target, typ, claim, entryIds, until, now).graph;
            UniqueTriples(g'.rels) && IdsMinted(g')
  {
    hide ByTriple, StatementOk, EdgeTypeOk, Union, RelationId, MintedNode, MintedRelation;
    ByTripleUnique(g.rels, Triple(scope, source, typ, target));
    FreshRelation(g);
  }
}
