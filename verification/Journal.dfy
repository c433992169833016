/** The journal: every successful write that changes a belief appends one event
    carrying the content it left behind; bookkeeping appends nothing. */
module Journal {
  import opened Ids
  import opened Surfaces
  import opened GraphModel
  import opened EdgeFold
  import opened GraphOps

  /** What a node asserts: no id, no vector, no usage. */
  datatype NodeContent = NodeContent(scope: string, name: string, aliases: seq<string>, typ: string, facts: seq<Fact>)

  function ContentOf(n: Node): NodeContent {
    NodeContent(n.scope, n.name, n.aliases, n.typ, n.facts)
  }

  datatype Event =
    | NodeCreated(scope: string, ts: int, id: Id, content: NodeContent)
    | AliasesAdded(scope: string, ts: int, id: Id, content: NodeContent)
    | NodeRewritten(scope: string, ts: int, id: Id, content: NodeContent)
    | NodeRetyped(scope: string, ts: int, id: Id, content: NodeContent)
    | NodeMerged(scope: string, ts: int, survivor: Id, absorbed: seq<Id>, content: NodeContent)
    | NodeSplit(scope: string, ts: int, parent: Id, parts: seq<(Id, NodeContent)>, edges: seq<(Id, Relation)>)
    | NodeDeleted(scope: string, ts: int, ids: seq<Id>)
    | RelationUpserted(scope: string, ts: int, id: Id, edge: Relation)
    | RelationRetired(scope: string, ts: int, id: Id)
    | EdgeTypeRenamed(scope: string, ts: int, was: string, becomes: string)

  /** One call on the journalled store. */
  datatype Op =
    | Create(scope: string, name: string, typ: string, facts: seq<Fact>, embedding: seq<real>, now: int,
             aliases: seq<string>)
    | Alias(id: Id, names: seq<string>)
    | Rewrite(id: Id, facts: seq<Fact>, typ: string, embedding: seq<real>, now: int)
    | Merge(survivor: Id, absorbed: seq<Id>, name: string, typ: string, facts: seq<Fact>, embedding: seq<real>, now: int)
    | Split(id: Id, parts: seq<SplitPart>, now: int)
    | Delete(ids: seq<Id>)
    | Upsert(scope: string, source: Id, target: Id, typ: string, claim: Option<string>, entryIds: seq<Id>,
             until: Option<string>, now: int)
    | Retire(id: Id)
    | Rename(scope: string, was: string, becomes: string)
    | Dirty(marked: seq<Id>)
    | Clean(cleared: seq<Id>, now: int)
    | Read(seen: seq<Id>)

  /** The store's state after the call, whatever its outcome. */
  ghost function After(g: Graph, op: Op): Graph {
    match op
    case Create(scope, name, typ, facts, embedding, now, aliases) =>
      CreateNode(g, scope, name, typ, facts, embedding, now, aliases).graph
    case Alias(id, names) => AddAliases(g, id, names).graph
    case Rewrite(id, facts, typ, embedding, now) => ReplaceFacts(g, id, facts, typ, embedding, now).graph
    case Merge(survivor, absorbed, name, typ, facts, embedding, now) =>
      MergeNodes(g, survivor, absorbed, name, typ, facts, embedding, now).graph
    case Split(id, parts, now) => SplitNode(g, id, parts, now).graph
    case Delete(ids) => DeleteNodes(g, ids)
    case Upsert(scope, source, target, typ, claim, entryIds, until, now) =>
      UpsertRelation(g, scope, source, target, typ, claim, entryIds, until, now).graph
    case Retire(id) => RetireRelation(g, id).graph
    case Rename(scope, was, becomes) => RenameEdgeType(g, scope, was, becomes).graph
    case Dirty(marked) => MarkDirty(g, marked)
    case Clean(cleared, now) => ClearDirty(g, cleared, now)
    case Read(seen) => RecordRead(g, seen)
  }

  function Present(g: Graph, ids: seq<Id>): seq<Id> {
    if ids == [] then [] else (if ids[0] in g.nodes then [ids[0]] else []) + Present(g, ids[1..])
  }

  ghost function EdgesTouching(rels: map<Id, Relation>, ids: set<Id>): set<Id> {
    set x | x in rels && Touches(rels[x], ids)
  }

  function EdgePayloads(rels: map<Id, Relation>, ids: seq<Id>): seq<(Id, Relation)> {
    if ids == [] then []
    else if ids[0] in rels then [(ids[0], rels[ids[0]])] + EdgePayloads(rels, ids[1..])
    else EdgePayloads(rels, ids[1..])
  }

  function PartPayloads(nodes: map<Id, Node>, ids: seq<Id>): seq<(Id, NodeContent)> {
    if ids == [] then []
    else if ids[0] in nodes then [(ids[0], ContentOf(nodes[ids[0]]))] + PartPayloads(nodes, ids[1..])
    else PartPayloads(nodes, ids[1..])
  }

  /** The event the wrapper records for the call, stamped with its own clock reading. */
  ghost function EventFor(g: Graph, op: Op, ts: int): Option<Event> {
    match op
    case Create(scope, name, typ, facts, embedding, now, aliases) =>
      var done := CreateNode(g, scope, name, typ, facts, embedding, now, aliases);
      if done.result.Err? || done.result.value !in done.graph.nodes then None
      else Some(NodeCreated(scope, ts, done.result.value, ContentOf(done.graph.nodes[done.result.value])))
    case Alias(id, names) =>
      var done := AddAliases(g, id, names);
      if done.result.Err? || id !in done.graph.nodes then None
      else Some(AliasesAdded(done.graph.nodes[id].scope, ts, id, ContentOf(done.graph.nodes[id])))
    case Rewrite(id, facts, typ, embedding, now) =>
      var done := ReplaceFacts(g, id, facts, typ, embedding, now);
      if done.result.Err? || id !in done.graph.nodes || id !in g.nodes then None
      else
        var after := done.graph.nodes[id];
        if g.nodes[id].facts == after.facts && g.nodes[id].typ != after.typ
        then Some(NodeRetyped(after.scope, ts, id, ContentOf(after)))
        else Some(NodeRewritten(after.scope, ts, id, ContentOf(after)))
    case Merge(survivor, absorbed, name, typ, facts, embedding, now) =>
      var done := MergeNodes(g, survivor, absorbed, name, typ, facts, embedding, now);
      if done.result.Err? || survivor !in done.graph.nodes then None
      else Some(NodeMerged(done.graph.nodes[survivor].scope, ts, survivor, Present(g, absorbed),
                           ContentOf(done.graph.nodes[survivor])))
    case Split(id, parts, now) =>
      var done := SplitNode(g, id, parts, now);
      if done.result.Err? || id !in g.nodes then None
      else
        var ids := done.result.value;
        Some(NodeSplit(g.nodes[id].scope, ts, id, PartPayloads(done.graph.nodes, ids),
                       EdgePayloads(done.graph.rels, Sorted(EdgesTouching(done.graph.rels, set i | i in ids)))))
    case Delete(ids) =>
      var present := Present(g, ids);
      if present == [] || present[0] !in g.nodes then None
      else Some(NodeDeleted(g.nodes[present[0]].scope, ts, present))
    case Upsert(scope, source, target, typ, claim, entryIds, until, now) =>
      var done := UpsertRelation(g, scope, source, target, typ, claim, entryIds, until, now);
      if done.result.Err? || done.result.value !in done.graph.rels then None
      else Some(RelationUpserted(scope, ts, done.result.value, done.graph.rels[done.result.value]))
    case Retire(id) =>
      if id !in g.rels then None else Some(RelationRetired(g.rels[id].scope, ts, id))
    case Rename(scope, was, becomes) =>
      if RenameEdgeType(g, scope, was, becomes).result.Err? then None
      else Some(EdgeTypeRenamed(scope, ts, was, becomes))
    case Dirty(_) => None
    case Clean(_, _) => None
    case Read(_) => None
  }

  /** The wrapped store next to the events its ledger holds, in append order. */
  datatype Journalled = Journalled(graph: Graph, events: seq<Event>)

  const START := Journalled(EMPTY, [])

  ghost function Perform(s: Journalled, op: Op, ts: int): Journalled {
    var e := EventFor(s.graph, op, ts);
    Journalled(After(s.graph, op), if e.Some? then s.events + [e.value] else s.events)
  }

  /** A call with the wrapper's clock reading at the moment it records. */
  datatype Call = Call(op: Op, ts: int)

  ghost function Run(calls: seq<Call>): Journalled {
    if calls == [] then START
    else Perform(Run(calls[..|calls| - 1]), calls[|calls| - 1].op, calls[|calls| - 1].ts)
  }

  // --------------------------------------------------- reading the journal

  function OfScope(events: seq<Event>, scope: string): seq<Event> {
    if events == [] then []
    else (if events[0].scope == scope then [events[0]] else []) + OfScope(events[1..], scope)
  }

  /** Insert behind everything not later: (timestamp, append sequence) order. */
  function Insert(e: Event, sorted: seq<Event>): seq<Event> {
    if sorted == [] then [e]
    else if sorted[0].ts < e.ts then [sorted[0]] + Insert(e, sorted[1..])
    else [e] + sorted
  }

  /** Stable sort by timestamp. */
  function ByTime(events: seq<Event>): seq<Event> {
    if events == [] then [] else Insert(events[0], ByTime(events[1..]))
  }

  /** What the ledger hands a replay of *scope*. */
  function EventsOf(events: seq<Event>, scope: string): seq<Event> { ByTime(OfScope(events, scope)) }

  predicate InTimeOrder(events: seq<Event>) {
    forall i, j :: 0 <= i < j < |events| ==> events[i].ts <= events[j].ts
  }

  lemma TimeTail(events: seq<Event>)
    requires events != [] && InTimeOrder(events)
    ensures InTimeOrder(events[1..])
    ensures forall x :: x in events[1..] ==> events[0].ts <= x.ts
  {
    forall i, j | 0 <= i < j < |events[1..]| ensures events[1..][i].ts <= events[1..][j].ts {
      assert events[i + 1].ts <= events[j + 1].ts;
    }
    forall k | 0 <= k < |events[1..]| ensures events[0].ts <= events[1..][k].ts {
      assert events[0].ts <= events[k + 1].ts;
    }
  }

  lemma TimeCons(e: Event, rest: seq<Event>)
    requires InTimeOrder(rest) && forall x :: x in rest ==> e.ts <= x.ts
    ensures InTimeOrder([e] + rest)
  {
    forall j | 0 <= j < |rest| ensures e.ts <= rest[j].ts { assert rest[j] in rest; }
  }

  lemma {:induction false} ByTimeSorts(events: seq<Event>)
    ensures InTimeOrder(ByTime(events))
  {
    if events != [] {
      ByTimeSorts(events[1..]);
      InsertSorts(events[0], ByTime(events[1..]));
    }
  }

  lemma {:induction false} InsertSorts(e: Event, sorted: seq<Event>)
    requires InTimeOrder(sorted)
    ensures InTimeOrder(Insert(e, sorted))
    ensures forall x :: x in Insert(e, sorted) <==> x == e || x in sorted
  {
    hide InTimeOrder;
    if sorted == [] {
      TimeEmpty();
      TimeCons(e, []);
      assert [e] + [] == [e];
    } else {
      assert sorted == [sorted[0]] + sorted[1..];
      TimeTail(sorted);
      if sorted[0].ts < e.ts {
        InsertSorts(e, sorted[1..]);
        TimeCons(sorted[0], Insert(e, sorted[1..]));
      } else {
        TimeCons(e, sorted);
      }
    }
  }

  /** The replay sees the mutations in the order they were made exactly when the
      wrapper's clock never ran backwards within the scope. */
  lemma {:induction false} ReplayOrderIsAppendOrder(events: seq<Event>, scope: string)
    ensures EventsOf(events, scope) == OfScope(events, scope) <==> InTimeOrder(OfScope(events, scope))
  {
    hide InTimeOrder;
    var mine := OfScope(events, scope);
    ByTimeSorts(mine);
    if InTimeOrder(mine) { ByTimeIdentity(mine); }
  }

  lemma {:induction false} ByTimeIdentity(events: seq<Event>)
    requires InTimeOrder(events)
    ensures ByTime(events) == events
  {
    hide InTimeOrder, Insert;
    if events != [] {
      TimeTail(events);
      ByTimeIdentity(events[1..]);
      if events[1..] != [] { assert events[1..][0] in events[1..]; }
      InsertFirst(events[0], events[1..]);
      assert events == [events[0]] + events[1..];
    }
  }

  lemma InsertFirst(e: Event, sorted: seq<Event>)
    requires sorted == [] || e.ts <= sorted[0].ts
    ensures Insert(e, sorted) == [e] + sorted
  {
  }

  lemma {:induction false} OfScopeAppend(events: seq<Event>, more: seq<Event>, scope: string)
    ensures OfScope(events + more, scope) == OfScope(events, scope) + OfScope(more, scope)
  {
    if events == [] {
      assert events + more == more;
    } else {
      assert (events + more)[1..] == events[1..] + more;
      OfScopeAppend(events[1..], more, scope);
    }
  }

  lemma {:induction false} OfScopeInOrder(events: seq<Event>, scope: string)
    requires InTimeOrder(events)
    ensures InTimeOrder(OfScope(events, scope))
    ensures forall x :: x in OfScope(events, scope) ==> x in events
  {
    hide InTimeOrder;
    if events == [] {
      TimeEmpty();
    } else {
      TimeTail(events);
      OfScopeInOrder(events[1..], scope);
      var rest := OfScope(events[1..], scope);
      if events[0].scope == scope { TimeCons(events[0], rest); } else { assert [] + rest == rest; }
    }
  }

  lemma TimeEmpty()
    ensures InTimeOrder([])
  {
  }

  /** Well-formedness over every run, as long as no merge fails midway. */
  lemma {:induction false} PerformKeepsWellFormed(g: Graph, op: Op)
    requires WellFormed(g)
    requires op.Merge? ==> !FailsMidway(g, op.survivor, op.absorbed, op.embedding)
    ensures WellFormed(After(g, op))
  {
    hide WellFormed, MergeNodes, SplitNode, UpsertRelation, CreateNode, Moved;
    match op
    case Create(scope, name, typ, facts, embedding, now, aliases) =>
      CreateKeepsWellFormed(g, scope, name, typ, facts, embedding, now, aliases);
    case Alias(id, names) => AliasesKeepWellFormed(g, id, names);
    case Rewrite(id, facts, typ, embedding, now) => FactsKeepWellFormed(g, id, facts, typ, embedding, now);
    case Merge(survivor, absorbed, name, typ, facts, embedding, now) =>
      MergeKeepsWellFormed(g, survivor, absorbed, name, typ, facts, embedding, now);
    case Split(id, parts, now) => SplitKeepsWellFormed(g, id, parts, now);
    case Delete(ids) => DeleteKeepsWellFormed(g, ids);
    case Upsert(scope, source, target, typ, claim, entryIds, until, now) =>
      UpsertKeepsWellFormed(g, scope, source, target, typ, claim, entryIds, until, now);
    case Retire(id) => RetireKeepsWellFormed(g, id);
    case Rename(scope, was, becomes) => RenameKeepsWellFormed(g, scope, was, becomes);
    case Dirty(marked) =>
      BookkeepingChangesNoBelief(g, marked, 0);
      SameBeliefsKeepWellFormed(g, MarkDirty(g, marked));
    case Clean(cleared, now) =>
      BookkeepingChangesNoBelief(g, cleared, now);
      SameBeliefsKeepWellFormed(g, ClearDirty(g, cleared, now));
    case Read(seen) =>
      BookkeepingChangesNoBelief(g, seen, 0);
      SameBeliefsKeepWellFormed(g, RecordRead(g, seen));
  }
}
