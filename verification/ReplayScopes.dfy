/** One store holds many scopes: a call journalled for one of them, or for none,
    leaves what every other scope believes alone. */
module ReplayScopes {
  import opened Ids
  import opened Surfaces
  import opened GraphModel
  import opened EdgeFold
  import opened GraphOps
  import opened Journal
  import opened Replay
  import opened ReplayEdges
  import opened ReplaySteps
  import opened ReplayMerge
  import opened ReplaySplit

  // ------------------------------------------- calls the scope does not see

  /** A move of other scopes' edges leaves this scope's edges alone. */
  lemma MovedElsewhere(rels: map<Id, Relation>, m: Move, scope: string)
    requires UniqueTriples(rels) && Settles(m)
    requires forall x :: x in rels && Affected(m, x, rels[x]) ==> rels[x].scope != scope
    ensures forall x :: EdgeInScope(rels, scope, x) <==> EdgeInScope(Moved(rels, m), scope, x)
    ensures forall x :: EdgeInScope(rels, scope, x) ==> x in Moved(rels, m) && Moved(rels, m)[x] == rels[x]
  {
    hide UniqueTriples, Moved;
    MovedFacts(rels, m);
    forall x | EdgeInScope(rels, scope, x) ensures x in Moved(rels, m) && Moved(rels, m)[x] == rels[x] {
      var t := TripleOf(rels[x]);
      SortedEnumerates(rels, m);
      GatheredNone(rels, Sorted(AffectedIds(rels, m)), m, t, HolderAt(rels, m, t));
      HolderIs(rels, m, t, x);
      MovedAt(rels, m, x, rels[x]);
      assert Entry(Moved(rels, m), x, rels[x]);
    }
    forall x | EdgeInScope(Moved(rels, m), scope, x) ensures EdgeInScope(rels, scope, x) {
      assert Came(rels, m, x, Moved(rels, m)[x]);
    }
  }

  lemma AbsorbedElsewhere(g: Graph, g': Graph, m: Move, home: string, scope: string)
    requires WellFormed(g) && m.Repoint? && m.only == None && Settles(m) && home != scope
    requires InScope(g.nodes, home, m.onto) && forall a :: a in m.moved ==> InScope(g.nodes, home, a)
    requires g'.nodes.Keys == g.nodes.Keys - m.moved && g'.rels == Moved(g.rels, m)
    requires forall n :: n in g'.nodes && n != m.onto ==> g'.nodes[n] == g.nodes[n]
    requires m.onto in g'.nodes ==> g'.nodes[m.onto].scope == home
    ensures ScopeUnchanged(g, g', scope)
  {
    hide WellFormed, Moved;
    forall x | x in g.rels && Affected(m, x, g.rels[x]) ensures g.rels[x].scope != scope {
      AffectedScope(g, home, x, m.moved);
    }
    UniqueOf(g);
    MovedElsewhere(g.rels, m, scope);
  }

  lemma MergedElsewhere(g: Graph, op: Op, scope: string)
    requires WellFormed(g) && op.Merge? && !FailsMidway(g, op.survivor, op.absorbed, op.embedding)
    requires Merged(g, op).result.Ok? ==> !InScope(g.nodes, scope, op.survivor)
    ensures ScopeUnchanged(g, Merged(g, op).graph, scope)
  {
    hide WellFormed, MergeNodes, FailsMidway, Moved, ScopeUnchanged, NodesSound, IdsMinted;
    MergeKeepsWellFormed(g, op.survivor, op.absorbed, op.name, op.typ, op.facts, op.embedding, op.now);
    if Merged(g, op).result.Ok? {
      MergedFacts(g, op.survivor, op.absorbed, op.name, op.typ, op.facts, op.embedding, op.now);
      assert Members(op.absorbed) == set a | a in op.absorbed;
      AbsorbedElsewhere(g, Merged(g, op).graph, LiveMove(op), g.nodes[op.survivor].scope, scope);
    } else {
      Unmoved(g, scope);
    }
  }

  lemma Unmoved(g: Graph, scope: string)
    ensures ScopeUnchanged(g, g, scope)
  {
  }

  lemma SplitElsewhere(g: Graph, op: Op, scope: string)
    requires WellFormed(g) && op.Split? && (Divided(g, op).result.Ok? ==> !InScope(g.nodes, scope, op.id))
    ensures ScopeUnchanged(g, Divided(g, op).graph, scope)
  {
    hide UniqueTriples, EdgesSound, NodesSound, IdsMinted, SplitInto, Claims, NodeId;
    if Divided(g, op).result.Ok? {
      SplitNodeFacts(g, op.id, op.parts, op.now);
      SplitEdgeFacts(g, op.id, op.parts, op.now);
      var g', ids := Divided(g, op).graph, Divided(g, op).result.value;
      forall n | n in ids ensures n in g'.nodes && g'.nodes[n].scope != scope {
        var i :| 0 <= i < |ids| && ids[i] == n;
        assert g'.nodes[ids[i]] == PartNode(g.nodes[op.id].scope, op.parts[i], op.now);
      }
      forall x | x in g.rels && Touches(g.rels[x], {op.id}) ensures g.rels[x].scope != scope {
        AffectedScope(g, g.nodes[op.id].scope, x, {op.id});
      }
      forall x | x in g'.rels && Touches(g.rels[x], {op.id}) ensures g'.rels[x].scope != scope {
        var i := ClaimantExists(op.parts, x);
      }
    }
  }

  lemma DeletedElsewhere(g: Graph, ids: seq<Id>, scope: string)
    requires WellFormed(g) && forall n :: n in ids ==> !InScope(g.nodes, scope, n)
    ensures ScopeUnchanged(g, DeleteNodes(g, ids), scope)
  {
    hide UniqueTriples, NodesSound, IdsMinted;
    forall x | EdgeInScope(g.rels, scope, x) ensures EdgeInScope(DeleteNodes(g, ids).rels, scope, x) {
      EndpointsInScope(g, scope, x);
    }
  }

  lemma UpsertedElsewhere(g: Graph, op: Op, scope: string)
    requires WellFormed(g) && op.Upsert? && (Upserted(g, op).result.Ok? ==> op.scope != scope)
    ensures ScopeUnchanged(g, Upserted(g, op).graph, scope)
  {
    hide WellFormed, StatementOk, EdgeTypeOk, ByTriple, Union, RelationId;
    if Upserted(g, op).result.Ok? {
      UpsertedEdge(g, op.scope, op.source, op.target, op.typ, op.claim, op.entryIds, op.until, op.now);
    }
  }

  lemma RenamedElsewhere(g: Graph, op: Op, scope: string)
    requires WellFormed(g) && op.Rename?
    requires RenameEdgeType(g, op.scope, op.was, op.becomes).result.Ok? ==> op.scope != scope
    ensures ScopeUnchanged(g, RenameEdgeType(g, op.scope, op.was, op.becomes).graph, scope)
  {
    hide WellFormed, Moved;
    if RenameEdgeType(g, op.scope, op.was, op.becomes).result.Ok? {
      UniqueOf(g);
      MovedElsewhere(g.rels, Relabel(op.scope, op.was, op.becomes), scope);
    }
  }

  /** Everything a deletion removes is in one scope. */
  ghost predicate OneScope(g: Graph, ids: seq<Id>) {
    forall a, b :: a in ids && b in ids && a in g.nodes && b in g.nodes ==> g.nodes[a].scope == g.nodes[b].scope
  }

  /** What a caller must keep to for the journal to account for the call at all. */
  ghost predicate Accountable(g: Graph, op: Op) {
    && (op.Merge? ==> !FailsMidway(g, op.survivor, op.absorbed, op.embedding))
    && (op.Delete? ==> OneScope(g, op.ids))
  }

  /** A call that journals nothing for the scope changes no belief of the scope. */
  lemma Elsewhere(g: Graph, op: Op, ts: int, scope: string)
    requires WellFormed(g) && Accountable(g, op)
    requires EventFor(g, op, ts).Some? ==> EventFor(g, op, ts).value.scope != scope
    ensures ScopeUnchanged(g, After(g, op), scope)
  {
    hide WellFormed, FailsMidway, MergeNodes, SplitNode, UpsertRelation, RenameEdgeType, ScopeUnchanged, EventFor;
    match op
    case Create(_, _, _, _, _, _, _) => CreatedElsewhere(g, op, ts, scope);
    case Alias(_, _) => AliasedElsewhere(g, op, ts, scope);
    case Rewrite(_, _, _, _, _) => RewrittenElsewhere(g, op, ts, scope);
    case Merge(_, _, _, _, _, _, _) =>
      if Merged(g, op).result.Ok? { MergeEventScope(g, op, ts); }
      MergedElsewhere(g, op, scope);
    case Split(_, _, _) =>
      if Divided(g, op).result.Ok? { SplitEventIs(g, op, ts); }
      SplitElsewhere(g, op, scope);
    case Delete(ids) =>
      DeletedScopes(g, ids, ts, scope);
      DeletedElsewhere(g, ids, scope);
    case Upsert(_, _, _, _, _, _, _, _) =>
      UpsertEventScope(g, op, ts);
      UpsertedElsewhere(g, op, scope);
    case Retire(_) =>
      RetiredElsewhere(g, op, scope) by { RetireEventScope(g, op, ts); }
    case Rename(_, _, _) =>
      RenameEventScope(g, op, ts);
      RenamedElsewhere(g, op, scope);
    case Dirty(marked) => BeliefsElsewhere(g, After(g, op), scope) by { BookkeepingChangesNoBelief(g, marked, 0); }
    case Clean(cleared, now) => BeliefsElsewhere(g, After(g, op), scope) by { BookkeepingChangesNoBelief(g, cleared, now); }
    case Read(seen) => BeliefsElsewhere(g, After(g, op), scope) by { BookkeepingChangesNoBelief(g, seen, 0); }
  }

  lemma AliasedElsewhere(g: Graph, op: Op, ts: int, scope: string)
    requires op.Alias? && (EventFor(g, op, ts).Some? ==> EventFor(g, op, ts).value.scope != scope)
    ensures ScopeUnchanged(g, After(g, op), scope)
  {
    hide Canonical, AnyBlank;
  }

  lemma RewrittenElsewhere(g: Graph, op: Op, ts: int, scope: string)
    requires op.Rewrite? && (EventFor(g, op, ts).Some? ==> EventFor(g, op, ts).value.scope != scope)
    ensures ScopeUnchanged(g, After(g, op), scope)
  {
    hide UnitNorm;
  }

  lemma UpsertEventScope(g: Graph, op: Op, ts: int)
    requires WellFormed(g) && op.Upsert?
    ensures Upserted(g, op).result.Ok? <==> EventFor(g, op, ts).Some?
    ensures EventFor(g, op, ts).Some? ==> EventFor(g, op, ts).value.scope == op.scope
  {
    hide WellFormed, UpsertRelation;
    if Upserted(g, op).result.Ok? {
      UpsertedEdge(g, op.scope, op.source, op.target, op.typ, op.claim, op.entryIds, op.until, op.now);
    }
  }

  lemma RetireEventScope(g: Graph, op: Op, ts: int)
    requires op.Retire?
    ensures EventFor(g, op, ts).Some? <==> op.id in g.rels
    ensures op.id in g.rels ==> EventFor(g, op, ts).value.scope == g.rels[op.id].scope
  {
  }

  lemma RenameEventScope(g: Graph, op: Op, ts: int)
    requires op.Rename?
    ensures EventFor(g, op, ts).Some? <==> RenameEdgeType(g, op.scope, op.was, op.becomes).result.Ok?
    ensures EventFor(g, op, ts).Some? ==> EventFor(g, op, ts).value.scope == op.scope
  {
    hide Moved;
  }

  lemma CreatedElsewhere(g: Graph, op: Op, ts: int, scope: string)
    requires WellFormed(g) && op.Create? && (EventFor(g, op, ts).Some? ==> EventFor(g, op, ts).value.scope != scope)
    ensures ScopeUnchanged(g, After(g, op), scope)
  {
    hide UniqueTriples, NodesSound, EdgesSound, UnitNorm, Canonical, NodeId, AnyBlank, NodeOk;
    FreshNode(g);
  }

  lemma BeliefsElsewhere(g: Graph, g': Graph, scope: string)
    requires SameBeliefs(g, g')
    ensures ScopeUnchanged(g, g', scope)
  {
  }

  lemma RetiredElsewhere(g: Graph, op: Op, scope: string)
    requires op.Retire? && (op.id in g.rels ==> g.rels[op.id].scope != scope)
    ensures ScopeUnchanged(g, After(g, op), scope)
  {
  }

  lemma MergeEventScope(g: Graph, op: Op, ts: int)
    requires WellFormed(g) && op.Merge? && Merged(g, op).result.Ok?
    ensures op.survivor in g.nodes
    ensures EventFor(g, op, ts).Some? && EventFor(g, op, ts).value.scope == g.nodes[op.survivor].scope
  {
    hide WellFormed, MergeNodes, Moved, Present;
    MergedFacts(g, op.survivor, op.absorbed, op.name, op.typ, op.facts, op.embedding, op.now);
    MergeSurvives(g, op);
  }

  lemma MergeSurvives(g: Graph, op: Op)
    requires op.Merge? && Merged(g, op).result.Ok?
    ensures op.survivor in g.nodes && op.survivor in Merged(g, op).graph.nodes
  {
    hide UnitNorm, Moved, AnyBlank, Canonical, AbsorbedSurfaces, Deleting;
  }

  lemma DeletedScopes(g: Graph, ids: seq<Id>, ts: int, scope: string)
    requires OneScope(g, ids)
    requires EventFor(g, Delete(ids), ts).Some? ==> EventFor(g, Delete(ids), ts).value.scope != scope
    ensures forall n :: n in ids ==> !InScope(g.nodes, scope, n)
  {
    hide Present;
    PresentMembers(g, ids);
    var present := Present(g, ids);
    forall n | n in ids ensures !InScope(g.nodes, scope, n) {
      if n in g.nodes {
        assert n in present && present[0] in present;
      }
    }
  }
}
