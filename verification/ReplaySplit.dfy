/** Replaying a split: the parent goes, the parts are created, and every recorded
    edge is restored between the replayed endpoints under a new replayed id. */
module ReplaySplit {
  import opened Ids
  import opened Surfaces
  import opened GraphModel
  import opened EdgeFold
  import opened GraphOps
  import opened Journal
  import opened Replay
  import opened ReplayEdges
  import opened ReplaySteps

  // ----------------------------------------------------------- the parts

  /** The graph with one fresh node per part. */
  function WithParts(g: Graph, scope: string, parts: seq<SplitPart>, now: int): Graph
    decreases |parts|
  {
    if parts == [] then g
    else
      var n := PartNode(scope, parts[0], now);
      WithParts(g.(sequence := g.sequence + 1, nodes := g.nodes[NodeId(g.sequence + 1) := n]), scope, parts[1..], now)
  }

  /** What the split event records about the parts. */
  function PartContents(scope: string, parts: seq<SplitPart>, now: int, sequence: nat): seq<(Id, NodeContent)>
    decreases |parts|
  {
    if parts == [] then []
    else [(NodeId(sequence + 1), ContentOf(PartNode(scope, parts[0], now)))]
         + PartContents(scope, parts[1..], now, sequence + 1)
  }

  lemma PartSound(scope: string, p: SplitPart, now: int)
    requires scope != ""
    ensures NodeSound(PartNode(scope, p, now)) && NodeOk(scope, p.name, p.typ)
    ensures Canonical(p.name, []) == [] && !AnyBlank([])
  {
  }

  lemma AddPart(g: Graph, scope: string, st: State, p: SplitPart, now: int, ts: int)
    requires Synced(g, scope, st) && scope != ""
    ensures var n := PartNode(scope, p, now);
            var g1 := g.(sequence := g.sequence + 1, nodes := g.nodes[NodeId(g.sequence + 1) := n]);
            var next := CreateFrom(st, NodeId(g.sequence + 1), ContentOf(n), ts);
            next.Ok? && Synced(g1, scope, next.value)
  {
    hide WellFormed, Simulates, NodeId, NodeSound, Canonical, AnyBlank, UnitNorm, NodeOk;
    PlaceholderIsUnit();
    PartSound(scope, p, now);
    FreshPart(g);
    var n := PartNode(scope, p, now);
    var n' := Node(scope, p.name, [], p.typ, [], REPLAY_EMBEDDING, true, 0, ts, ts, None);
    SetNodeKeepsWellFormed(g, NodeId(g.sequence + 1), n, g.sequence + 1);
    CreateKeepsWellFormed(st.graph, scope, p.name, p.typ, [], REPLAY_EMBEDDING, ts, []);
    AddedSimulates(g, scope, st, n, n');
  }

  lemma FreshPart(g: Graph)
    requires WellFormed(g)
    ensures NodeId(g.sequence + 1) !in g.nodes && MintedNode(NodeId(g.sequence + 1), g.sequence + 1)
  {
    hide NodeId, MintedNode;
    FreshNode(g);
  }

  lemma {:induction false} PartsFollow(g: Graph, scope: string, st: State, parts: seq<SplitPart>, now: int, ts: int)
    requires Synced(g, scope, st) && scope != ""
    ensures var next := CreateParts(st, PartContents(scope, parts, now, g.sequence), ts);
            next.Ok? && Synced(WithParts(g, scope, parts, now), scope, next.value)
    decreases |parts|
  {
    hide Synced, NodeId, CreateFrom, ContentOf, PartNode;
    if parts != [] {
      var n := PartNode(scope, parts[0], now);
      var g1 := g.(sequence := g.sequence + 1, nodes := g.nodes[NodeId(g.sequence + 1) := n]);
      AddPart(g, scope, st, parts[0], now, ts);
      var next := CreateFrom(st, NodeId(g.sequence + 1), ContentOf(n), ts).value;
      PartsFollow(g1, scope, next, parts[1..], now, ts);
      assert PartContents(scope, parts, now, g.sequence)[1..] == PartContents(scope, parts[1..], now, g1.sequence);
    }
  }

  lemma WithPartsCounts(g: Graph, scope: string, parts: seq<SplitPart>, now: int)
    ensures var g' := WithParts(g, scope, parts, now);
            g'.rels == g.rels && g'.sequence == g.sequence + |parts| && g'.relSequence == g.relSequence
    decreases |parts|
  {
    hide NodeId, PartNode;
  }

  lemma {:induction false} WithPartsNodes(g: Graph, scope: string, parts: seq<SplitPart>, now: int, ids: seq<Id>)
    requires |ids| == |parts| && MintedFrom(ids, g.sequence)
    ensures var nodes := WithParts(g, scope, parts, now).nodes;
            && (forall n :: n in nodes <==> n in g.nodes || n in ids)
            && (forall i :: 0 <= i < |ids| ==> ids[i] in nodes && nodes[ids[i]] == PartNode(scope, parts[i], now))
            && (forall n :: n in g.nodes && n !in ids ==> nodes[n] == g.nodes[n])
    decreases |parts|
  {
    hide NodeId, PartNode, MintedFrom;
    if parts != [] {
      MintedTail(ids, g.sequence);
      var g1 := g.(sequence := g.sequence + 1, nodes := g.nodes[NodeId(g.sequence + 1) := PartNode(scope, parts[0], now)]);
      WithPartsNodes(g1, scope, parts[1..], now, ids[1..]);
      var nodes := WithParts(g, scope, parts, now).nodes;
      forall i | 0 <= i < |ids| ensures ids[i] in nodes && nodes[ids[i]] == PartNode(scope, parts[i], now) {
        if i > 0 { assert ids[i] == ids[1..][i - 1]; }
      }
    }
  }

  /** The split's nodes are the others plus one fresh node per part. */
  lemma SplitNodesAre(g: Graph, id: Id, parts: seq<SplitPart>, now: int)
    requires WellFormed(g) && SplitNode(g, id, parts, now).result.Ok?
    ensures id in g.nodes
    ensures SplitNode(g, id, parts, now).graph.nodes ==
            WithParts(g.(nodes := g.nodes - {id}), g.nodes[id].scope, parts, now).nodes
  {
    hide UniqueTriples, EdgesSound, NodesSound, IdsMinted, SplitNode, NodeId, PartNode;
    var out := SplitNode(g, id, parts, now).graph.nodes;
    var ids := SplitNode(g, id, parts, now).result.value;
    SplitNodeFacts(g, id, parts, now);
    WithPartsNodes(g.(nodes := g.nodes - {id}), g.nodes[id].scope, parts, now, ids);
    var with := WithParts(g.(nodes := g.nodes - {id}), g.nodes[id].scope, parts, now).nodes;
    forall n | n in with ensures n in out && out[n] == with[n] {
      if n in ids {
        var i :| 0 <= i < |ids| && ids[i] == n;
      }
    }
    assert out == with;
  }

  lemma {:induction false} PayloadsAre(nodes: map<Id, Node>, ids: seq<Id>, scope: string, parts: seq<SplitPart>, now: int,
                                       sequence: nat)
    requires |ids| == |parts|
    requires forall i :: 0 <= i < |ids| ==>
               ids[i] == NodeId(sequence + 1 + i) && ids[i] in nodes && nodes[ids[i]] == PartNode(scope, parts[i], now)
    ensures PartPayloads(nodes, ids) == PartContents(scope, parts, now, sequence)
  {
    hide NodeId, PartNode;
    if ids != [] {
      assert ids[0] == NodeId(sequence + 1 + 0);
      forall i | 0 <= i < |ids[1..]|
        ensures ids[1..][i] == NodeId(sequence + 1 + 1 + i) && ids[1..][i] in nodes
                && nodes[ids[1..][i]] == PartNode(scope, parts[1..][i], now)
      {
        assert ids[1..][i] == ids[i + 1];
      }
      PayloadsAre(nodes, ids[1..], scope, parts[1..], now, sequence + 1);
    }
  }

  // ----------------------------------------------------------- the edges

  predicate Statement(r: Relation) { StatementOk(r.typ, r.claim, r.entryIds, r.until) }

  lemma FewerEdgesStayWellFormed(g: Graph, rels: map<Id, Relation>)
    requires WellFormed(g) && forall x :: x in rels ==> x in g.rels && rels[x] == g.rels[x]
    ensures WellFormed(g.(rels := rels))
  {
    hide MintedNode, MintedRelation, EdgeTypeOk, NodeSound;
    forall x | x in rels ensures EdgeOk(g.(rels := rels), rels[x]) { assert EdgeOk(g, g.rels[x]); }
  }

  /** *g* holds part of *all*; *order* lists the rest. */
  ghost predicate Missing(g: Graph, all: map<Id, Relation>, order: seq<Id>) {
    && NoRepeats(order)
    && (forall x :: x in g.rels ==> x in all && all[x] == g.rels[x])
    && (forall x :: x in all ==> (x in order <==> x !in g.rels))
    && (forall x :: x in order ==> x in all)
  }

  lemma MissingStep(g: Graph, all: map<Id, Relation>, order: seq<Id>)
    requires order != [] && Missing(g, all, order) && WellFormed(g.(rels := all))
    ensures order[0] in all && order[0] !in g.rels
    ensures Missing(g.(rels := g.rels[order[0] := all[order[0]]]), all, order[1..])
    ensures WellFormed(g.(rels := g.rels[order[0] := all[order[0]]]))
  {
    hide WellFormed;
    var x := order[0];
    assert order == [x] + order[1..];
    assert x in order;
    forall y ensures y in order[1..] <==> y in order && y != x {
      if y in order[1..] {
        var i :| 0 <= i < |order[1..]| && order[1..][i] == y;
        assert order[i + 1] == y;
      }
    }
    FewerEdgesStayWellFormed(g.(rels := all), g.rels[x := all[x]]);
  }

  lemma NewEdgeStands(g: Graph, scope: string, all: map<Id, Relation>, x: Id)
    requires WellFormed(g.(rels := all)) && x in all && x !in g.rels && all[x].scope == scope
    requires forall y :: y in g.rels ==> y in all && all[y] == g.rels[y]
    ensures InScope(g.nodes, scope, all[x].source) && InScope(g.nodes, scope, all[x].target)
    ensures all[x].source != all[x].target && EdgeTypeOk(all[x].typ) && ByTriple(g.rels, TripleOf(all[x])) == None
  {
    hide MintedNode, MintedRelation, EdgeTypeOk, NodeSound, ByTriple;
    assert EdgeOk(g.(rels := all), all[x]);
    ByTripleUnique(g.rels, TripleOf(all[x])) by {
      assert forall y, z :: y in g.rels && z in g.rels && TripleOf(g.rels[y]) == TripleOf(g.rels[z]) ==>
          y in all && z in all;
    }
  }

  /** An edge whose statement no longer validates cannot be created anew. */
  lemma RestoreInvalid(g: Graph, scope: string, st: State, x: Id, r: Relation, ts: int)
    requires Synced(g, scope, st) && r.scope == scope && !Statement(r)
    requires InScope(g.nodes, scope, r.source) && InScope(g.nodes, scope, r.target)
    requires ByTriple(g.rels, TripleOf(r)) == None
    ensures Restore(st, x, r, ts).Err?
  {
    hide ByTriple, StatementOk, RelationId, WellFormed, Simulates;
    MatchAlike(g, scope, st, TripleOf(r));
  }

  /** The recorded edges come back one by one, as long as each statement is one a
      fresh edge may carry; the first that is not stops the replay. */
  lemma {:induction false} EdgesFollow(g: Graph, scope: string, st: State, all: map<Id, Relation>, order: seq<Id>, ts: int)
    requires Synced(g, scope, st) && WellFormed(g.(rels := all)) && Missing(g, all, order)
    requires forall x :: x in order ==> all[x].scope == scope
    ensures var next := RestoreEdges(st, EdgePayloads(all, order), ts);
            && (next.Ok? <==> forall x :: x in order ==> Statement(all[x]))
            && (next.Ok? ==> Synced(g.(rels := all), scope, next.value))
    decreases |order|
  {
    hide Statement, WellFormed, Simulates, Restore, Missing;
    if order == [] {
      AllPresent(g, all);
      assert g.(rels := all) == g;
    } else {
      var x := order[0];
      assert order == [x] + order[1..];
      assert x in order && forall y :: y in order[1..] ==> y in order;
      MissingStep(g, all, order);
      MissingAgrees(g, all, order);
      NewEdgeStands(g, scope, all, x);
      assert EdgePayloads(all, order)[1..] == EdgePayloads(all, order[1..]);
      if Statement(all[x]) {
        StatementIs(all[x]);
        RestoreNew(g, scope, st, x, all[x], ts);
        var g1 := g.(rels := g.rels[x := all[x]]);
        EdgesFollow(g1, scope, Restore(st, x, all[x], ts).value, all, order[1..], ts);
        assert g1.(rels := all) == g.(rels := all);
      } else {
        RestoreInvalid(g, scope, st, x, all[x], ts);
      }
    }
  }

  lemma StatementIs(r: Relation)
    requires Statement(r)
    ensures StatementOk(r.typ, r.claim, r.entryIds, r.until)
  {
  }

  lemma AllPresent(g: Graph, all: map<Id, Relation>)
    requires Missing(g, all, [])
    ensures g.rels == all
  {
  }

  lemma MissingAgrees(g: Graph, all: map<Id, Relation>, order: seq<Id>)
    requires Missing(g, all, order)
    ensures forall y :: y in g.rels ==> y in all && all[y] == g.rels[y]
  {
  }

  // ----------------------------------------------------------- the split

  ghost function Divided(g: Graph, op: Op): Done<seq<Id>>
    requires op.Split?
  {
    SplitNode(g, op.id, op.parts, op.now)
  }

  /** The live store with the parent and its edges gone and the parts in place. */
  function Emptied(g: Graph, op: Op): Graph
    requires op.Split? && op.id in g.nodes
  {
    WithParts(g.(nodes := g.nodes - {op.id}, rels := DropTouching(g.rels, {op.id})), g.nodes[op.id].scope, op.parts, op.now)
  }

  lemma SplitEndsAtDivided(g: Graph, op: Op)
    requires WellFormed(g) && op.Split? && Divided(g, op).result.Ok?
    ensures op.id in g.nodes
    ensures Emptied(g, op).(rels := Divided(g, op).graph.rels) == Divided(g, op).graph
    ensures Emptied(g, op).rels == DropTouching(g.rels, {op.id})
  {
    hide WellFormed, SplitNode, WithParts, DropTouching;
    SplitNodesAre(g, op.id, op.parts, op.now);
    var scope := g.nodes[op.id].scope;
    var g0 := g.(nodes := g.nodes - {op.id});
    WithPartsIgnoresEdges(g0, DropTouching(g.rels, {op.id}), scope, op.parts, op.now);
    WithPartsCounts(g0, scope, op.parts, op.now);
    assert IdsMinted(g) by { Minted(g); }
    SplitNodeFacts(g, op.id, op.parts, op.now);
  }

  lemma Minted(g: Graph)
    requires WellFormed(g)
    ensures IdsMinted(g)
  {
  }

  lemma {:induction false} WithPartsIgnoresEdges(g: Graph, rels: map<Id, Relation>, scope: string, parts: seq<SplitPart>,
                                                 now: int)
    ensures WithParts(g.(rels := rels), scope, parts, now) == WithParts(g, scope, parts, now).(rels := rels)
    decreases |parts|
  {
    hide NodeId, PartNode;
    if parts != [] {
      var g1 := g.(sequence := g.sequence + 1, nodes := g.nodes[NodeId(g.sequence + 1) := PartNode(scope, parts[0], now)]);
      WithPartsIgnoresEdges(g1, rels, scope, parts[1..], now);
    }
  }

  ghost function Recorded(g: Graph, op: Op): seq<Id>
    requires op.Split? && Divided(g, op).result.Ok?
  {
    Sorted(EdgesTouching(Divided(g, op).graph.rels, set i | i in Divided(g, op).result.value))
  }

  /** The recorded edges are exactly the ones the parts claimed. */
  lemma RecordedEdges(g: Graph, op: Op)
    requires WellFormed(g) && op.Split? && Divided(g, op).result.Ok?
    ensures op.id in g.nodes
    ensures var all := Divided(g, op).graph.rels;
            && (forall x :: x in Recorded(g, op) <==> x in Claims(op.parts))
            && (forall x :: x in Claims(op.parts) ==>
                  x in all && x in g.rels && all[x].scope == g.nodes[op.id].scope
                  && (Statement(all[x]) <==> Statement(g.rels[x])))
  {
    hide WellFormed, SplitNode, Claims, StatementOk, Touches;
    var all := Divided(g, op).graph.rels;
    SplitEdgeFacts(g, op.id, op.parts, op.now);
    SplitEndsAtDivided(g, op);
    forall x | x in Claims(op.parts) ensures x in all { var i := ClaimantExists(op.parts, x); }
    forall x | x in all
      ensures op.id in g.nodes && (x in Recorded(g, op) <==> x in Claims(op.parts))
      ensures x in Claims(op.parts) ==> x in g.rels && all[x].scope == g.nodes[op.id].scope
                                        && (Statement(all[x]) <==> Statement(g.rels[x]))
    {
      ClaimedTouches(g, op, x);
    }
  }

  lemma RecordedMissing(g: Graph, op: Op)
    requires WellFormed(g) && op.Split? && Divided(g, op).result.Ok?
    ensures op.id in g.nodes && Missing(Emptied(g, op), Divided(g, op).graph.rels, Recorded(g, op))
  {
    hide WellFormed, SplitNode, Claims, Recorded, Emptied, Statement;
    var all := Divided(g, op).graph.rels;
    SplitEdgeFacts(g, op.id, op.parts, op.now);
    SplitEndsAtDivided(g, op);
    RecordedEdges(g, op);
    AscendingDistinct(Recorded(g, op)) by { RecordedAscends(g, op); }
    forall x | x in Claims(op.parts) ensures Touches(g.rels[x], {op.id}) { var i := ClaimantExists(op.parts, x); }
  }

  lemma RecordedAscends(g: Graph, op: Op)
    requires op.Split? && Divided(g, op).result.Ok?
    ensures Ascending(Recorded(g, op))
  {
    hide Ascending, Divided;
  }

  lemma ClaimedTouches(g: Graph, op: Op, x: Id)
    requires WellFormed(g) && op.Split? && Divided(g, op).result.Ok? && x in Divided(g, op).graph.rels
    ensures op.id in g.nodes && x in g.rels
    ensures x in Claims(op.parts) <==> Touches(Divided(g, op).graph.rels[x], set i | i in Divided(g, op).result.value)
    ensures x in Claims(op.parts) ==> var r := Divided(g, op).graph.rels[x];
              && r.scope == g.nodes[op.id].scope && Touches(g.rels[x], {op.id})
              && r.typ == g.rels[x].typ && r.claim == g.rels[x].claim && r.until == g.rels[x].until
              && r.entryIds == g.rels[x].entryIds
  {
    hide UniqueTriples, NodesSound, SplitNode, Claims, MintedRelation, EdgeTypeOk, NodeId, MintedNode;
    SplitEdgeFacts(g, op.id, op.parts, op.now);
    SplitNodeFacts(g, op.id, op.parts, op.now);
    var ids := Divided(g, op).result.value;
    assert EdgeOk(g, g.rels[x]);
    if x in Claims(op.parts) {
      var i := ClaimantExists(op.parts, x);
      assert ids[i] in ids;
    } else {
      assert g.rels[x].source !in ids && g.rels[x].target !in ids;
    }
  }

  /** After the deletion and the part creations the two stores are in step on
      everything but the edges the parts claimed. */
  lemma EmptiedFollows(g: Graph, scope: string, st: State, op: Op, ts: int)
    requires Synced(g, scope, st) && op.Split? && InScope(g.nodes, scope, op.id) && Divided(g, op).result.Ok?
    ensures op.id in st.nodes
    ensures var cleared := st.(graph := DeleteNodes(st.graph, [st.nodes[op.id]]));
            var next := CreateParts(cleared, PartContents(scope, op.parts, op.now, g.sequence), ts);
            next.Ok? && Synced(Emptied(g, op), scope, next.value)
  {
    hide WellFormed, Simulates, DropTouching, SplitNode, WithParts, PartContents, CreateParts, DeleteNodes;
    var id := op.id;
    TwinOf(g, scope, st, id);
    var id' := st.nodes[id];
    assert Twins({id}, {id'}, st.nodes);
    DroppedSimulates(g, scope, st, {id}, {id'});
    DeletesWhole(st.graph, [id'], {id'});
    DeletesWhole(g, [id], {id});
    DeleteKeepsWellFormed(g, [id]);
    DeleteKeepsWellFormed(st.graph, [id']);
    var g0 := g.(nodes := g.nodes - {id}, rels := DropTouching(g.rels, {id}));
    ScopeNamed(g, id);
    PartsFollow(g0, scope, st.(graph := DeleteNodes(st.graph, [id'])), op.parts, op.now, ts);
  }

  lemma ScopeNamed(g: Graph, id: Id)
    requires WellFormed(g) && id in g.nodes
    ensures g.nodes[id].scope != ""
  {
    assert NodeSound(g.nodes[id]);
  }

  lemma SplitEventIs(g: Graph, op: Op, ts: int)
    requires WellFormed(g) && op.Split? && Divided(g, op).result.Ok?
    ensures op.id in g.nodes
    ensures EventFor(g, op, ts) ==
            Some(NodeSplit(g.nodes[op.id].scope, ts, op.id,
                           PartContents(g.nodes[op.id].scope, op.parts, op.now, g.sequence),
                           EdgePayloads(Divided(g, op).graph.rels, Recorded(g, op))))
  {
    hide UniqueTriples, EdgesSound, NodesSound, IdsMinted, SplitNode, NodeId, PartContents, PartPayloads, EdgePayloads,
      PartNode;
    SplitNodeFacts(g, op.id, op.parts, op.now);
    PayloadsAre(Divided(g, op).graph.nodes, Divided(g, op).result.value, g.nodes[op.id].scope, op.parts, op.now, g.sequence);
  }

  /** The exact condition: a split replays if and only if every edge a part claims
      still carries a statement that a freshly created edge may carry. */
  lemma StepSplit(g: Graph, scope: string, st: State, op: Op, ts: int)
    requires Synced(g, scope, st) && op.Split? && InScope(g.nodes, scope, op.id) && Divided(g, op).result.Ok?
    ensures forall x :: x in Claims(op.parts) ==> x in g.rels
    ensures Follows(g, scope, st, op, ts) <==> forall x :: x in Claims(op.parts) ==> Statement(g.rels[x])
  {
    hide WellFormed, Simulates, SplitNode, Claims, WithParts, PartContents, CreateParts, DeleteNodes, Statement, Missing,
      Emptied, EdgePayloads, RestoreEdges, EdgesTouching;
    RecordedEdges(g, op);
    RecordedMissing(g, op);
    SplitEventIs(g, op, ts);
    EmptiedFollows(g, scope, st, op, ts);
    SplitEndsAtDivided(g, op);
    SplitKeepsWellFormed(g, op.id, op.parts, op.now);
    var cleared := st.(graph := DeleteNodes(st.graph, [st.nodes[op.id]]));
    var next := CreateParts(cleared, PartContents(scope, op.parts, op.now, g.sequence), ts).value;
    var all, order := Divided(g, op).graph.rels, Recorded(g, op);
    EdgesFollow(Emptied(g, op), scope, next, all, order, ts);
  }
}
