/** What the journal records, and when: one event for every call that changed a belief, of
    the right kind, saying what the call left behind. */
module EventContents {
  import opened Ids
  import opened Surfaces
  import opened GraphModel
  import opened EdgeFold
  import opened GraphOps
  import opened Journal
  import opened GlobalPass
  import NodeContents

  predicate Bookkeeping(op: Op) { op.Dirty? || op.Clean? || op.Read? }

  /** A call is journalled exactly when it succeeded and was not bookkeeping, and, if it was a
      deletion, found something to delete; the event bears the wrapper's own stamp. */
  lemma JournalledExactly(g: Graph, op: Op, ts: int)
    requires WellFormed(g)
    ensures EventFor(g, op, ts).Some? <==>
            Failed(g, op).None? && !Bookkeeping(op) && (op.Delete? ==> exists n :: n in op.ids && n in g.nodes)
    ensures EventFor(g, op, ts).Some? ==> EventFor(g, op, ts).value.ts == ts
  {
    hide WellFormed, EventFor, Failed;
    if op.Create? || op.Alias? || op.Rewrite? {
      WriteJournalledExactly(g, op, ts);
    } else if op.Merge? || op.Split? {
      ShapeJournalledExactly(g, op, ts);
    } else {
      EdgeJournalledExactly(g, op, ts);
    }
  }

  lemma WriteJournalledExactly(g: Graph, op: Op, ts: int)
    requires WellFormed(g) && (op.Create? || op.Alias? || op.Rewrite?)
    ensures EventFor(g, op, ts).Some? <==> Failed(g, op).None?
    ensures EventFor(g, op, ts).Some? ==> EventFor(g, op, ts).value.ts == ts
  {
    hide WellFormed, CreateNode, AddAliases, ReplaceFacts, ContentOf;
    match op
    case Create(scope, name, typ, facts, embedding, now, aliases) =>
      NodeContents.CreatedNode(g, scope, name, typ, facts, embedding, now, aliases);
    case Alias(id, names) => NodeContents.AliasedNode(g, id, names);
    case Rewrite(id, facts, typ, embedding, now) => NodeContents.RewrittenNode(g, id, facts, typ, embedding, now);
    case _ =>
  }

  lemma ShapeJournalledExactly(g: Graph, op: Op, ts: int)
    requires WellFormed(g) && (op.Merge? || op.Split?)
    ensures EventFor(g, op, ts).Some? <==> Failed(g, op).None?
    ensures EventFor(g, op, ts).Some? ==> EventFor(g, op, ts).value.ts == ts
  {
    hide WellFormed, MergeNodes, SplitNode, ContentOf, PartPayloads, EdgePayloads, Sorted, EdgesTouching, NodesSound, IdsMinted;
    match op
    case Merge(survivor, absorbed, name, typ, facts, embedding, now) =>
      if Failed(g, op).None? { MergedFacts(g, survivor, absorbed, name, typ, facts, embedding, now); }
    case Split(id, parts, now) => if Failed(g, op).None? { SplitHas(g, id, parts, now); }
    case _ =>
  }

  lemma EdgeJournalledExactly(g: Graph, op: Op, ts: int)
    requires WellFormed(g) && !op.Create? && !op.Alias? && !op.Rewrite? && !op.Merge? && !op.Split?
    ensures EventFor(g, op, ts).Some? <==>
            Failed(g, op).None? && !Bookkeeping(op) && (op.Delete? ==> exists n :: n in op.ids && n in g.nodes)
    ensures EventFor(g, op, ts).Some? ==> EventFor(g, op, ts).value.ts == ts
  {
    hide WellFormed, UpsertRelation, RenameEdgeType, RelationId, EdgeTypeOk;
    match op
    case Upsert(scope, source, target, typ, claim, entryIds, until, now) =>
      if Failed(g, op).None? { UpsertedEdge(g, scope, source, target, typ, claim, entryIds, until, now); }
    case Delete(ids) => PresentIs(g, ids);
    case _ =>
  }

  lemma SplitHas(g: Graph, id: Id, parts: seq<SplitPart>, now: int)
    requires SplitNode(g, id, parts, now).result.Ok?
    ensures id in g.nodes
  {
    hide SplitInto, Claims;
  }

  lemma {:induction false} PresentIs(g: Graph, ids: seq<Id>)
    ensures forall n :: n in Present(g, ids) <==> n in ids && n in g.nodes
    ensures Present(g, ids) == [] <==> !exists n :: n in ids && n in g.nodes
  {
    if ids != [] {
      assert ids == [ids[0]] + ids[1..];
      PresentIs(g, ids[1..]);
      if n :| n in ids && n in g.nodes { assert n in Present(g, ids); }
    }
  }

  /** The recorded content is what the node says. */
  predicate SaysNode(c: NodeContent, n: Node) {
    c.scope == n.scope && c.name == n.name && c.aliases == n.aliases && c.typ == n.typ && c.facts == n.facts
  }

  /** A rewrite is journalled as a retyping exactly when it kept the lines and changed the
      type, as a rewriting otherwise, under the node's scope and with what it then says. */
  lemma RewriteJournalled(g: Graph, op: Op, ts: int)
    requires op.Rewrite? && Failed(g, op).None?
    ensures op.id in g.nodes && op.id in After(g, op).nodes && EventFor(g, op, ts).Some?
    ensures var e := EventFor(g, op, ts).value;
            && (e.NodeRetyped? <==> op.facts == g.nodes[op.id].facts && op.typ != g.nodes[op.id].typ)
            && (e.NodeRetyped? || e.NodeRewritten?)
            && e.scope == g.nodes[op.id].scope && e.id == op.id && SaysNode(e.content, After(g, op).nodes[op.id])
            && e.content.facts == op.facts && e.content.typ == op.typ && e.content.name == g.nodes[op.id].name
  {
    hide UnitNorm;
  }

  /** The event of a creation, a merge or an upsert names what the call touched and says what
      is there now. */
  lemma CreateJournalled(g: Graph, op: Op, ts: int)
    requires op.Create? && Failed(g, op).None?
    ensures EventFor(g, op, ts).Some? && NodeId(g.sequence + 1) in After(g, op).nodes
    ensures var e := EventFor(g, op, ts).value;
            && e.NodeCreated? && e.scope == op.scope && e.id == NodeId(g.sequence + 1)
            && SaysNode(e.content, After(g, op).nodes[NodeId(g.sequence + 1)])
            && e.content.name == op.name && e.content.typ == op.typ && e.content.facts == op.facts
  {
    hide UnitNorm, NodeId, Canonical, AnyBlank;
    NodeContents.CreatedNode(g, op.scope, op.name, op.typ, op.facts, op.embedding, op.now, op.aliases);
  }

  lemma MergeJournalled(g: Graph, op: Op, ts: int)
    requires WellFormed(g) && op.Merge? && Failed(g, op).None?
    ensures EventFor(g, op, ts).Some? && op.survivor in g.nodes && op.survivor in After(g, op).nodes
    ensures var e := EventFor(g, op, ts).value;
            && e.NodeMerged? && e.scope == g.nodes[op.survivor].scope && e.survivor == op.survivor
            && (forall a :: a in e.absorbed <==> a in op.absorbed)
            && SaysNode(e.content, After(g, op).nodes[op.survivor])
  {
    hide WellFormed, MergeNodes, NodesSound, IdsMinted;
    MergedFacts(g, op.survivor, op.absorbed, op.name, op.typ, op.facts, op.embedding, op.now);
    PresentIs(g, op.absorbed);
    assert forall a :: a in op.absorbed ==> a in set x | x in op.absorbed;
  }

  lemma UpsertJournalled(g: Graph, op: Op, ts: int)
    requires WellFormed(g) && op.Upsert? && Failed(g, op).None?
    ensures EventFor(g, op, ts).Some?
    ensures var e := EventFor(g, op, ts).value;
            && e.RelationUpserted? && e.scope == op.scope && e.id in After(g, op).rels && e.edge == After(g, op).rels[e.id]
            && TripleOf(e.edge) == Triple(op.scope, op.source, op.typ, op.target)
  {
    hide WellFormed, UpsertRelation, RelationId, EdgeTypeOk;
    UpsertedEdge(g, op.scope, op.source, op.target, op.typ, op.claim, op.entryIds, op.until, op.now);
  }
}
