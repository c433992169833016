/** When a caller can count on the replay proof, read off the live store alone. */
module ReplayGuarantee {
  import opened Ids
  import opened Surfaces
  import opened GraphModel
  import opened EdgeFold
  import opened GraphOps
  import opened Journal
  import opened Replay
  import opened ReplayEdges
  import opened ReplaySteps
  import opened ReplayMerge
  import opened ReplaySplit
  import opened ReplayScopes
  import opened ReplayProof

  /** Relation ids up to this number sort in the order they were minted. */
  const LAST_ORDERED_ID: nat := 999

  predicate SplitsNothing(events: seq<Event>, scope: string) {
    forall i :: 0 <= i < |events| && events[i].NodeSplit? ==> events[i].scope != scope
  }

  /** What a caller can check before the call. */
  ghost predicate Promised(g: Graph, events: seq<Event>, scope: string, op: Op) {
    match op
    case Merge(survivor, absorbed, _, _, _, embedding, _) =>
      && !FailsMidway(g, survivor, absorbed, embedding)
      && (InScope(g.nodes, scope, survivor) ==>
            |absorbed| <= 1 || (SplitsNothing(events, scope) && g.relSequence <= LAST_ORDERED_ID))
    case Split(id, parts, _) =>
      InScope(g.nodes, scope, id) ==> forall x :: x in Claims(parts) && x in g.rels ==> Statement(g.rels[x])
    case Delete(ids) => OneScope(g, ids)
    case _ => true
  }

  ghost predicate AllPromised(calls: seq<Call>, scope: string) {
    calls == [] ||
    (var before, last := calls[..|calls| - 1], calls[|calls| - 1];
     AllPromised(before, scope) && Promised(Run(before).graph, Run(before).events, scope, last.op))
  }

  // ------------------------------------------- minting order while unsplit

  /** The replay minted the scope's edges in the order the live store did. */
  ghost predicate MintOrderKept(g: Graph, scope: string, st: State) {
    && st.graph.relSequence <= g.relSequence
    && forall a, b | EdgeInScope(g.rels, scope, a) && EdgeInScope(g.rels, scope, b) && a in st.rels && b in st.rels ::
         Num(a) < Num(b) ==> Num(st.rels[a]) < Num(st.rels[b])
  }

  lemma RelationRendered(g: Graph, x: Id)
    requires WellFormed(g) && x in g.rels
    ensures 1 <= Num(x) <= g.relSequence && x == RelationId(Num(x))
  {
    hide Num, RelationId;
    assert MintedRelation(x, g.relSequence);
  }

  /** Below a thousand relations, minting order is sort order on both sides. */
  lemma MintOrderSorts(g: Graph, scope: string, st: State)
    requires Synced(g, scope, st) && MintOrderKept(g, scope, st) && g.relSequence <= LAST_ORDERED_ID
    ensures OrderKept(g.rels, scope, st.rels)
  {
    hide WellFormed, Less, Num, RelationId, NodeSim, Mirrors;
    forall a, b | EdgeInScope(g.rels, scope, a) && EdgeInScope(g.rels, scope, b) && a in st.rels && b in st.rels
      ensures Less(a, b) <==> Less(st.rels[a], st.rels[b])
    {
      RelationRendered(g, a);
      RelationRendered(g, b);
      RelationRendered(st.graph, st.rels[a]);
      RelationRendered(st.graph, st.rels[b]);
      MintOrderBelowThousand(Num(a), Num(b));
      MintOrderBelowThousand(Num(st.rels[a]), Num(st.rels[b]));
    }
  }

  lemma FewerEdges(g: Graph, scope: string, st: State, g': Graph, st': State)
    requires MintOrderKept(g, scope, st) && g.relSequence <= g'.relSequence
    requires st'.rels == st.rels && st'.graph.relSequence == st.graph.relSequence
    requires forall x :: EdgeInScope(g'.rels, scope, x) ==> EdgeInScope(g.rels, scope, x)
    ensures MintOrderKept(g', scope, st')
  {
    hide Num;
  }

  lemma OneMoreEdge(g: Graph, scope: string, st: State, g': Graph, st': State)
    requires Synced(g, scope, st) && MintOrderKept(g, scope, st) && g'.relSequence == g.relSequence + 1
    requires st'.graph.relSequence == st.graph.relSequence + 1
    requires var x := RelationId(g.relSequence + 1);
             && st'.rels == st.rels[x := RelationId(st.graph.relSequence + 1)]
             && forall y :: EdgeInScope(g'.rels, scope, y) ==> y == x || EdgeInScope(g.rels, scope, y)
    ensures MintOrderKept(g', scope, st')
  {
    hide Num, RelationId, WellFormed, NodeSim, Mirrors;
    var x, x' := RelationId(g.relSequence + 1), RelationId(st.graph.relSequence + 1);
    NumOfRendered(g.relSequence + 1);
    NumOfRendered(st.graph.relSequence + 1);
    forall y | EdgeInScope(g.rels, scope, y)
      ensures y != x && Num(y) < Num(x) && y in st.rels && Num(st.rels[y]) < Num(x')
    {
      RelationRendered(g, y);
      RelationRendered(st.graph, st.rels[y]);
    }
  }

  /** Writes other than upserts and splits bring no edge into a scope. */
  lemma NoNewEdges(g: Graph, op: Op, scope: string)
    requires WellFormed(g) && !op.Upsert? && !op.Split?
    requires op.Merge? ==> !FailsMidway(g, op.survivor, op.absorbed, op.embedding)
    ensures After(g, op).relSequence == g.relSequence
    ensures forall x :: EdgeInScope(After(g, op).rels, scope, x) ==> EdgeInScope(g.rels, scope, x)
  {
    hide WellFormed, Moved, UnitNorm, AnyBlank, Canonical, AbsorbedSurfaces, Deleting, NodeId, FailsMidway, Affected, Lands;
    UniqueOf(g);
    if op.Merge? {
      if Merged(g, op).result.Ok? {
        MergedFacts(g, op.survivor, op.absorbed, op.name, op.typ, op.facts, op.embedding, op.now);
        MovedStays(g.rels, Repoint((set a | a in op.absorbed), op.survivor, None, op.now), scope);
      }
    } else if op.Rename? {
      if op.was != op.becomes { MovedStays(g.rels, Relabel(op.scope, op.was, op.becomes), scope); }
    }
  }

  lemma MovedStays(rels: map<Id, Relation>, m: Move, scope: string)
    requires UniqueTriples(rels) && Settles(m)
    ensures forall x :: EdgeInScope(Moved(rels, m), scope, x) ==> EdgeInScope(rels, scope, x)
  {
    hide UniqueTriples, Moved;
    MovedFacts(rels, m);
    forall x | EdgeInScope(Moved(rels, m), scope, x) ensures EdgeInScope(rels, scope, x) {
      assert Came(rels, m, x, Moved(rels, m)[x]);
    }
  }

  lemma NoNewTwins(st: State, e: Event)
    requires ApplyEvent(st, e).Ok? && !e.NodeSplit? && !e.RelationUpserted?
    ensures ApplyEvent(st, e).value.rels == st.rels
    ensures ApplyEvent(st, e).value.graph.relSequence == st.graph.relSequence
  {
    hide UnitNorm, Canonical, AnyBlank, NodeId, Moved, Translate, Known, AbsorbedSurfaces, Deleting, EdgeTypeOk, NodeOk,
      DropTouching;
  }

  lemma EventKind(g: Graph, op: Op, ts: int)
    requires EventFor(g, op, ts).Some?
    ensures op.Split? <==> EventFor(g, op, ts).value.NodeSplit?
    ensures op.Upsert? <==> EventFor(g, op, ts).value.RelationUpserted?
  {
    hide CreateNode, AddAliases, ReplaceFacts, MergeNodes, SplitNode, UpsertRelation, RenameEdgeType, Present, Sorted,
      EdgePayloads, PartPayloads, ContentOf;
  }

  lemma MintOrderStep(g: Graph, scope: string, st: State, op: Op, ts: int)
    requires Synced(g, scope, st) && MintOrderKept(g, scope, st) && Follows(g, scope, st, op, ts) && !op.Split?
    requires op.Merge? ==> !FailsMidway(g, op.survivor, op.absorbed, op.embedding)
    ensures MintOrderKept(After(g, op), scope, ApplyEvent(st, EventFor(g, op, ts).value).value)
  {
    hide WellFormed, Simulates, MintOrderKept, FailsMidway, ApplyEvent, EventFor, After;
    var e := EventFor(g, op, ts).value;
    EventKind(g, op, ts);
    if op.Upsert? {
      UpsertEventScope(g, op, ts);
      UpsertMints(g, scope, st, op, ts);
    } else {
      NoNewEdges(g, op, scope);
      NoNewTwins(st, e);
      FewerEdges(g, scope, st, After(g, op), ApplyEvent(st, e).value);
    }
  }

  lemma UpsertMints(g: Graph, scope: string, st: State, op: Op, ts: int)
    requires Synced(g, scope, st) && MintOrderKept(g, scope, st) && op.Upsert? && op.scope == scope
    requires Follows(g, scope, st, op, ts)
    ensures MintOrderKept(After(g, op), scope, ApplyEvent(st, EventFor(g, op, ts).value).value)
  {
    hide WellFormed, Simulates, MintOrderKept, ApplyEvent, UpsertRelation;
    UpsertEventScope(g, op, ts);
    UpsertedEdge(g, op.scope, op.source, op.target, op.typ, op.claim, op.entryIds, op.until, op.now);
    StepUpserted(g, scope, st, op, ts);
    var st' := ApplyEvent(st, EventFor(g, op, ts).value).value;
    var x := Upserted(g, op).result.value;
    if x in g.rels {
      FewerEdges(g, scope, st, After(g, op), st');
    } else {
      OneMoreEdge(g, scope, st, After(g, op), st');
    }
  }

  lemma MintOrderElsewhere(g: Graph, scope: string, st: State, op: Op, ts: int)
    requires WellFormed(g) && Accountable(g, op) && MintOrderKept(g, scope, st)
    requires EventFor(g, op, ts).Some? ==> EventFor(g, op, ts).value.scope != scope
    ensures MintOrderKept(After(g, op), scope, st)
  {
    hide WellFormed, MintOrderKept, FailsMidway, EventFor, After, EdgeInScope;
    Elsewhere(g, op, ts, scope);
    CounterGrows(g, op);
    FewerEdges(g, scope, st, After(g, op), st);
  }

  lemma CounterGrows(g: Graph, op: Op)
    ensures g.relSequence <= After(g, op).relSequence
  {
    hide Moved, UnitNorm, AnyBlank, Canonical, AbsorbedSurfaces, Deleting, NodeId, SplitInto, Claims, StatementOk, ByTriple,
      Union, RelationId, EdgeTypeOk;
    if op.Split? && Divided(g, op).result.Ok? {
      SplitIntoIds(g.(nodes := g.nodes - {op.id}), op.id, g.nodes[op.id].scope, op.parts, op.now);
    }
  }

  // --------------------------------------------------------- the guarantee

  /** A promised call is safe. */
  lemma PromisedIsSafe(g: Graph, events: seq<Event>, scope: string, st: State, op: Op, ts: int)
    requires Invariant(g, scope, st) && Promised(g, events, scope, op)
    requires SplitsNothing(events, scope) ==> MintOrderKept(g, scope, st)
    ensures CallSafe(g, scope, st, op, ts)
  {
    hide WellFormed, Simulates, EventFor, StepSafe, MintOrderKept, FailsMidway, Named, Evidenced, SplitsNothing, Claims,
      Statement, OneScope;
    var e := EventFor(g, op, ts);
    if e.Some? && e.value.scope == scope {
      if op.Merge? {
        MergeEventScope(g, op, ts) by { JournalledMerge(g, op, ts); }
        JournalledMerge(g, op, ts);
        if |op.absorbed| <= 1 {
          StepMergedOne(g, scope, st, op, ts);
        } else {
          MintOrderSorts(g, scope, st);
          StepMergedOrdered(g, scope, st, op, ts);
        }
        StepExact(g, scope, st, op, ts);
      } else {
        OtherPromisesSafe(g, events, scope, st, op, ts);
      }
    } else if op.Delete? {
      DeletedScopes(g, op.ids, ts, scope) by { DeleteIs(op); }
    }
  }

  lemma DeleteIs(op: Op)
    requires op.Delete?
    ensures op == Delete(op.ids)
  {
  }

  lemma JournalledMerge(g: Graph, op: Op, ts: int)
    requires op.Merge? && EventFor(g, op, ts).Some?
    ensures Merged(g, op).result.Ok?
  {
    hide MergeNodes, Present;
  }

  lemma OtherPromisesSafe(g: Graph, events: seq<Event>, scope: string, st: State, op: Op, ts: int)
    requires Invariant(g, scope, st) && Promised(g, events, scope, op) && !op.Merge?
    requires EventFor(g, op, ts).Some? && EventFor(g, op, ts).value.scope == scope
    ensures StepSafe(g, scope, st, op, ts)
  {
    hide WellFormed, Simulates, Statement, OneScope, Named, Evidenced, SplitsNothing, SplitNode, PartPayloads, EdgePayloads,
      Sorted, Present, Claims;
    if op.Split? {
      SplitEventIs(g, op, ts);
      StepSplit(g, scope, st, op, ts);
    }
  }

  /** While a run keeps the promises, its replay tracks it. */
  lemma {:induction false} PromisesKeepTrack(calls: seq<Call>, scope: string)
    requires AllPromised(calls, scope)
    ensures NoneMidway(calls) && Tracks(calls, scope) && Rebuilt(calls, scope).Ok?
    ensures Invariant(Run(calls).graph, scope, Rebuilt(calls, scope).value)
    ensures SplitsNothing(Run(calls).events, scope) ==>
              MintOrderKept(Run(calls).graph, scope, Rebuilt(calls, scope).value)
  {
    hide Invariant, CallSafe, Rebuilt, Run, FailsMidway, MintOrderKept, Simulates, SplitsNothing;
    if calls == [] {
      StartsBlank(scope);
      StartsOrdered(scope);
    } else {
      var before, last := calls[..|calls| - 1], calls[|calls| - 1];
      PromisesKeepTrack(before, scope);
      PromisedIsSafe(Run(before).graph, Run(before).events, scope, Rebuilt(before, scope).value, last.op, last.ts);
      CallExact(calls, scope);
      OrderOverRun(calls, scope);
    }
  }

  lemma StartsOrdered(scope: string)
    ensures Rebuilt([], scope) == Ok(BLANK) && Run([]).graph == EMPTY
    ensures MintOrderKept(EMPTY, scope, BLANK)
  {
  }

  lemma OrderOverRun(calls: seq<Call>, scope: string)
    requires calls != [] && AllPromised(calls, scope) && Rebuilt(calls, scope).Ok?
    requires var before := calls[..|calls| - 1];
             Rebuilt(before, scope).Ok? && Invariant(Run(before).graph, scope, Rebuilt(before, scope).value) &&
             (SplitsNothing(Run(before).events, scope) ==>
                MintOrderKept(Run(before).graph, scope, Rebuilt(before, scope).value))
    requires Invariant(Run(calls).graph, scope, Rebuilt(calls, scope).value)
    ensures SplitsNothing(Run(calls).events, scope) ==>
              MintOrderKept(Run(calls).graph, scope, Rebuilt(calls, scope).value)
  {
    hide WellFormed, Simulates, Rebuilt, FailsMidway, MintOrderKept, Named, Evidenced, EventFor, After, ApplyEvent, OneScope;
    var before, last := calls[..|calls| - 1], calls[|calls| - 1];
    var g, st := Run(before).graph, Rebuilt(before, scope).value;
    var e := EventFor(g, last.op, last.ts);
    RebuiltStep(calls, scope);
    if SplitsNothing(Run(calls).events, scope) {
      assert Run(calls).events == if e.Some? then Run(before).events + [e.value] else Run(before).events;
      EarlierSplitsNothing(Run(before).events, e, scope);
      if e.Some? && e.value.scope == scope {
        EventKind(g, last.op, last.ts);
        MintOrderStep(g, scope, st, last.op, last.ts);
      } else {
        MintOrderElsewhere(g, scope, st, last.op, last.ts);
      }
    }
  }

  lemma EarlierSplitsNothing(events: seq<Event>, e: Option<Event>, scope: string)
    requires SplitsNothing(if e.Some? then events + [e.value] else events, scope)
    ensures SplitsNothing(events, scope)
    ensures e.Some? && e.value.scope == scope ==> !e.value.NodeSplit?
  {
    if e.Some? {
      var all := events + [e.value];
      assert all[|events|] == e.value;
      forall i | 0 <= i < |events| && events[i].NodeSplit? ensures events[i].scope != scope { assert all[i] == events[i]; }
    }
  }

  /** The wrapper's clock never ran backwards. */
  predicate ClockForward(calls: seq<Call>) { forall i, j :: 0 <= i < j < |calls| ==> calls[i].ts <= calls[j].ts }

  lemma {:induction false} EventsInTimeOrder(calls: seq<Call>)
    requires ClockForward(calls)
    ensures InTimeOrder(Run(calls).events)
    ensures forall e :: e in Run(calls).events ==> exists i :: 0 <= i < |calls| && calls[i].ts == e.ts
  {
    if calls != [] {
      var before, last := calls[..|calls| - 1], calls[|calls| - 1];
      EventsInTimeOrder(before);
      var e := EventFor(Run(before).graph, last.op, last.ts);
      if e.Some? {
        EventStamp(Run(before).graph, last.op, last.ts);
        forall x | x in Run(before).events ensures x.ts <= e.value.ts {
          var i :| 0 <= i < |before| && before[i].ts == x.ts;
          assert calls[i].ts <= calls[|calls| - 1].ts;
        }
      }
      forall x | x in Run(calls).events ensures exists i :: 0 <= i < |calls| && calls[i].ts == x.ts {
        if x in Run(before).events {
          var i :| 0 <= i < |before| && before[i].ts == x.ts;
          assert calls[i].ts == x.ts;
        } else {
          assert calls[|calls| - 1].ts == x.ts by { EventStamp(Run(before).graph, last.op, last.ts); }
        }
      }
    }
  }

  lemma EventStamp(g: Graph, op: Op, ts: int)
    ensures EventFor(g, op, ts).Some? ==> EventFor(g, op, ts).value.ts == ts
  {
    hide CreateNode, AddAliases, ReplaceFacts, MergeNodes, SplitNode, UpsertRelation, RenameEdgeType, Present, Sorted,
      EdgePayloads, PartPayloads, ContentOf;
  }

  /** The guarantee: a run on a forward clock that keeps the promises leaves a
      journal from which every scope can be rebuilt, belief for belief. */
  lemma ReplayGuaranteed(calls: seq<Call>, scope: string)
    requires ClockForward(calls) && AllPromised(calls, scope)
    ensures ReplayOf(Run(calls).events, scope).Ok?
    ensures Synced(Run(calls).graph, scope, ReplayOf(Run(calls).events, scope).value)
  {
    hide Synced, Named, Evidenced, InTimeOrder, Run;
    EventsInTimeOrder(calls);
    OfScopeInOrder(Run(calls).events, scope);
    ReplayOrderIsAppendOrder(Run(calls).events, scope);
    PromisesKeepTrack(calls, scope);
  }
}
