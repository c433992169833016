/** Replaying a merge: the nodes always follow, the edges exactly when the two
    stores fold their collisions alike. */
module ReplayMerge {
  import opened Ids
  import opened Surfaces
  import opened GraphModel
  import opened EdgeFold
  import opened GraphOps
  import opened Journal
  import opened Replay
  import opened ReplayEdges
  import opened ReplaySteps

  ghost function Merged(g: Graph, op: Op): Done<()>
    requires op.Merge?
  {
    MergeNodes(g, op.survivor, op.absorbed, op.name, op.typ, op.facts, op.embedding, op.now)
  }

  function LiveMove(op: Op): Move
    requires op.Merge?
  {
    Repoint(Members(op.absorbed), op.survivor, None, op.now)
  }

  function ReplayedMove(st: State, op: Op, ts: int): Move
    requires op.Merge? && Known(st, op.absorbed) && op.survivor in st.nodes
  {
    Repoint(Members(Translate(st, op.absorbed)), st.nodes[op.survivor], None, ts)
  }

  lemma {:induction false} PresentAll(g: Graph, ids: seq<Id>)
    requires forall x :: x in ids ==> x in g.nodes
    ensures Present(g, ids) == ids
  {
    if ids != [] {
      assert ids == [ids[0]] + ids[1..];
      PresentAll(g, ids[1..]);
    }
  }

  /** Absorbed surfaces are beliefs, so both stores fold in the same names. */
  lemma {:induction false} SurfacesAlike(g: Graph, scope: string, st: State, absorbed: seq<Id>)
    requires Simulates(g, scope, st) && forall a :: a in absorbed ==> InScope(g.nodes, scope, a)
    ensures Known(st, absorbed)
    ensures AbsorbedSurfaces(st.graph.nodes, Translate(st, absorbed)) == AbsorbedSurfaces(g.nodes, absorbed)
  {
    hide Simulates;
    if absorbed != [] {
      assert absorbed == [absorbed[0]] + absorbed[1..];
      assert absorbed[0] in absorbed && forall a :: a in absorbed[1..] ==> a in absorbed;
      TwinOf(g, scope, st, absorbed[0]);
      SurfacesAlike(g, scope, st, absorbed[1..]);
      assert Translate(st, absorbed)[1..] == Translate(st, absorbed[1..]);
    }
  }

  lemma TranslatedDistinct(g: Graph, scope: string, st: State, ids: seq<Id>)
    requires Simulates(g, scope, st) && (forall a :: a in ids ==> InScope(g.nodes, scope, a)) && NoRepeats(ids)
    requires Known(st, ids)
    ensures NoRepeats(Translate(st, ids))
  {
    hide Translate, EdgeSim, SameNodeBeliefs;
    TranslateMembers(st, ids);
    forall i, j | 0 <= i < j < |ids| ensures Translate(st, ids)[i] != Translate(st, ids)[j] {
      assert ids[i] in ids && ids[j] in ids;
    }
  }

  /** What a journalled merge says about its arguments. */
  lemma MergeArguments(g: Graph, scope: string, op: Op)
    requires WellFormed(g) && op.Merge? && InScope(g.nodes, scope, op.survivor) && Merged(g, op).result.Ok?
    ensures (forall a :: a in op.absorbed ==> InScope(g.nodes, scope, a)) && op.survivor !in op.absorbed
    ensures NoRepeats(op.absorbed) && Present(g, op.absorbed) == op.absorbed
    ensures !AnyBlank(g.nodes[op.survivor].aliases + AbsorbedSurfaces(g.nodes, op.absorbed))
    ensures !FailsMidway(g, op.survivor, op.absorbed, op.embedding)
  {
    hide WellFormed, UnitNorm, Moved, AnyBlank, Canonical, Present, Deleting;
    DeletingAll(g.nodes, op.absorbed);
    PresentAll(g, op.absorbed);
  }

  /** The replayed call succeeds, on the twins of the arguments. */
  lemma MergeGoesThrough(g: Graph, scope: string, st: State, op: Op, ts: int)
    requires Synced(g, scope, st) && op.Merge? && InScope(g.nodes, scope, op.survivor) && Merged(g, op).result.Ok?
    ensures Known(st, op.absorbed) && op.survivor in st.nodes
    ensures var done := MergeNodes(st.graph, st.nodes[op.survivor], Translate(st, op.absorbed), op.name, op.typ, op.facts,
                                   REPLAY_EMBEDDING, ts);
            && done.result.Ok? && WellFormed(done.graph)
            && done.graph.rels == Moved(st.graph.rels, ReplayedMove(st, op, ts))
  {
    hide WellFormed, Simulates, UnitNorm, Moved, AnyBlank, Canonical, Deleting, AbsorbedSurfaces, Translate;
    MergeArguments(g, scope, op);
    TwinOf(g, scope, st, op.survivor);
    var ids' := TranslatedArguments(g, scope, st, op);
    PlaceholderIsUnit();
    DeletingAll(st.graph.nodes, ids');
    assert !FailsMidway(st.graph, st.nodes[op.survivor], ids', REPLAY_EMBEDDING);
    MergeKeepsWellFormed(st.graph, st.nodes[op.survivor], ids', op.name, op.typ, op.facts, REPLAY_EMBEDDING, ts);
  }

  lemma TranslatedArguments(g: Graph, scope: string, st: State, op: Op) returns (ids': seq<Id>)
    requires Synced(g, scope, st) && op.Merge? && InScope(g.nodes, scope, op.survivor) && Merged(g, op).result.Ok?
    ensures Known(st, op.absorbed) && op.survivor in st.nodes && ids' == Translate(st, op.absorbed)
    ensures NoRepeats(ids') && st.nodes[op.survivor] !in ids'
    ensures forall a' :: a' in ids' ==> InScope(st.graph.nodes, scope, a')
    ensures AbsorbedSurfaces(st.graph.nodes, ids') == AbsorbedSurfaces(g.nodes, op.absorbed)
    ensures Twins(Members(op.absorbed), Members(ids'), st.nodes)
  {
    hide WellFormed, UnitNorm, Moved, AnyBlank, Canonical, Deleting, AbsorbedSurfaces, Translate, EdgeSim, SameNodeBeliefs,
      MergeNodes;
    MergeArguments(g, scope, op);
    TranslatedLive(g, scope, st, op.absorbed, Members(op.absorbed));
    TranslatedDistinct(g, scope, st, op.absorbed);
    SurfacesAlike(g, scope, st, op.absorbed);
    TranslateMembers(st, op.absorbed);
    ids' := Translate(st, op.absorbed);
    forall a' | a' in ids' ensures InScope(st.graph.nodes, scope, a') { ReplayedScope(g, scope, st, a'); }
    forall i | 0 <= i < |ids'| ensures ids'[i] != st.nodes[op.survivor] {
      assert op.absorbed[i] in op.absorbed;
    }
  }

  /** Nodes follow a merge whatever the edges do. */
  lemma MergedNodesFollow(g: Graph, scope: string, st: State, op: Op, ts: int)
    requires Synced(g, scope, st) && op.Merge? && InScope(g.nodes, scope, op.survivor) && Merged(g, op).result.Ok?
    ensures Known(st, op.absorbed) && op.survivor in st.nodes
    ensures var done := MergeNodes(st.graph, st.nodes[op.survivor], Translate(st, op.absorbed), op.name, op.typ, op.facts,
                                   REPLAY_EMBEDDING, ts);
            NodeSim(Merged(g, op).graph.nodes, scope, done.graph.nodes, st.nodes)
  {
    hide WellFormed, EdgeSim, UnitNorm, Moved, AnyBlank, Canonical, AbsorbedSurfaces, Translate, NodeSim, Twins, Deleting;
    MergeArguments(g, scope, op);
    MergeGoesThrough(g, scope, st, op, ts);
    var ids' := TranslatedArguments(g, scope, st, op);
    var id, id' := op.survivor, st.nodes[op.survivor];
    TwinOf(g, scope, st, id);
    DeletingAll(g.nodes, op.absorbed);
    DeletingAll(st.graph.nodes, ids');
    assert Members(op.absorbed) == (set x | x in op.absorbed) && Members(ids') == set x | x in ids';
    NodeSimDrop(g.nodes, scope, st.graph.nodes, st.nodes, Members(op.absorbed), Members(ids'));
    var n := Merged(g, op).graph.nodes[id];
    NodeSimPut(g.nodes - Members(op.absorbed), scope, st.graph.nodes - Members(ids'), st.nodes, id, n,
               MergeNodes(st.graph, id', ids', op.name, op.typ, op.facts, REPLAY_EMBEDDING, ts).graph.nodes[id']);
  }

  lemma TwinsMoveAlike(f: Frame, moved: set<Id>, moved': set<Id>, onto: Id, now: int, now': int)
    requires Injective(f) && moved <= f.live && onto in f.live && onto !in moved && Twins(moved, moved', f.nodes)
    ensures var m, m' := Repoint(moved, onto, None, now), Repoint(moved', f.nodes[onto], None, now');
            SameMove(f, m, m') && Settles(m) && Settles(m')
  {
    forall n | n in moved ensures n in f.nodes && f.nodes[n] in moved' { assert n in f.live; }
    forall n | n in f.live && f.nodes[n] in moved' ensures n in moved {
      var k :| k in moved && k in f.nodes && f.nodes[k] == f.nodes[n];
      assert k in f.live;
    }
  }

  lemma MergeSameMove(g: Graph, scope: string, st: State, op: Op, ts: int)
    requires Synced(g, scope, st) && op.Merge? && InScope(g.nodes, scope, op.survivor) && Merged(g, op).result.Ok?
    ensures Known(st, op.absorbed) && op.survivor in st.nodes
    ensures SameMove(FrameOf(g, scope, st), LiveMove(op), ReplayedMove(st, op, ts))
    ensures Settles(LiveMove(op)) && Settles(ReplayedMove(st, op, ts))
  {
    hide Simulates, WellFormed, AbsorbedSurfaces, Translate, Merged, SameMove, Twins, Known, Injective;
    MergeArguments(g, scope, op);
    var ids' := TranslatedArguments(g, scope, st, op);
    FrameHolds(g, scope, st);
    TwinsMoveAlike(FrameOf(g, scope, st), Members(op.absorbed), Members(ids'), op.survivor, op.now, ts);
  }

  /** Both stores perform the same move, each in its own ids. */
  lemma MergeSetting(g: Graph, scope: string, st: State, op: Op, ts: int)
    requires Synced(g, scope, st) && op.Merge? && InScope(g.nodes, scope, op.survivor) && Merged(g, op).result.Ok?
    ensures Known(st, op.absorbed) && op.survivor in st.nodes
    ensures Setting(FrameOf(g, scope, st), g.rels, LiveMove(op), st.graph.rels, ReplayedMove(st, op, ts))
  {
    hide WellFormed, Simulates, Translate, Moved, Merged, Setting, SameMove, FrameOf, Known;
    MergeArguments(g, scope, op);
    MergeSameMove(g, scope, st, op, ts);
    var m, m' := LiveMove(op), ReplayedMove(st, op, ts);
    forall x | x in g.rels && Affected(m, x, g.rels[x]) ensures g.rels[x].scope == scope {
      AffectedScope(g, scope, x, m.moved);
    }
    MoveSetting(g, scope, st, m, m');
  }

  lemma AffectedScope(g: Graph, scope: string, x: Id, moved: set<Id>)
    requires WellFormed(g) && x in g.rels && Touches(g.rels[x], moved)
    requires forall n :: n in moved ==> InScope(g.nodes, scope, n)
    ensures g.rels[x].scope == scope
  {
    hide EdgeTypeOk;
    assert EdgeOk(g, g.rels[x]);
  }

  /** A merge replays into a simulation of the live outcome if and only if the
      moved edges do. */
  lemma MergeFollowsEdges(g: Graph, scope: string, st: State, op: Op, ts: int)
    requires Synced(g, scope, st) && op.Merge? && InScope(g.nodes, scope, op.survivor) && Merged(g, op).result.Ok?
    ensures EventFor(g, op, ts).Some? && Known(st, op.absorbed) && op.survivor in st.nodes
    ensures Follows(g, scope, st, op, ts) <==>
            EdgeSim(Moved(g.rels, LiveMove(op)), scope, Moved(st.graph.rels, ReplayedMove(st, op, ts)), st.nodes, st.rels)
  {
    hide WellFormed, NodeSim, EdgeSim, UnitNorm, Moved, AnyBlank, AbsorbedSurfaces, Translate, Deleting, Twins;
    MergeArguments(g, scope, op);
    MergeGoesThrough(g, scope, st, op, ts);
    MergedNodesFollow(g, scope, st, op, ts);
    MergeKeepsWellFormed(g, op.survivor, op.absorbed, op.name, op.typ, op.facts, op.embedding, op.now);
    assert Members(op.absorbed) == set a | a in op.absorbed;
  }

  /** The exact condition: wherever several absorbed edges collide, both stores
      meet the same one first and collect the evidence in the same order. */
  lemma MergeReplaysExactly(g: Graph, scope: string, st: State, op: Op, ts: int)
    requires Synced(g, scope, st) && op.Merge? && InScope(g.nodes, scope, op.survivor) && Merged(g, op).result.Ok?
    requires Evidenced(g.rels) && Evidenced(st.graph.rels)
    ensures Known(st, op.absorbed) && op.survivor in st.nodes
    ensures var f := FrameOf(g, scope, st);
            Setting(f, g.rels, LiveMove(op), st.graph.rels, ReplayedMove(st, op, ts)) &&
            (Follows(g, scope, st, op, ts) <==>
             forall t :: Inside(f, t) ==>
               CollisionsAgree(f, g.rels, LiveMove(op), st.graph.rels, ReplayedMove(st, op, ts), t))
  {
    hide WellFormed, NodeSim, EdgeSim, Moved, CollisionsAgree, Merged, EventFor, Follows, Synced;
    MergeFollowsEdges(g, scope, st, op, ts);
    MergeSetting(g, scope, st, op, ts);
    MoveReplaysExactly(FrameOf(g, scope, st), g.rels, LiveMove(op), st.graph.rels, ReplayedMove(st, op, ts));
  }

  /** Absorbing one node always replays: its edges cannot collide with each other. */
  lemma StepMergedOne(g: Graph, scope: string, st: State, op: Op, ts: int)
    requires Synced(g, scope, st) && op.Merge? && InScope(g.nodes, scope, op.survivor) && Merged(g, op).result.Ok?
    requires |op.absorbed| <= 1
    ensures Follows(g, scope, st, op, ts)
  {
    hide EdgesSound, IdsMinted, NodesSound, NodeSim, EdgeSim, Moved, Merged, EventFor, Follows, AgreeAt, UniqueTriples,
      Translate, Known;
    var f := FrameOf(g, scope, st);
    MergeFollowsEdges(g, scope, st, op, ts);
    MergeSetting(g, scope, st, op, ts);
    var m, m' := LiveMove(op), ReplayedMove(st, op, ts);
    assert |m.moved| <= 1 by {
      if op.absorbed == [] { assert m.moved == {}; } else { assert m.moved == {op.absorbed[0]}; }
    }
    forall x | x in g.rels ensures g.rels[x].source != g.rels[x].target { NoSelfLoop(g, x); }
    SingleClashFree(g.rels, m);
    forall t | Inside(f, t) ensures AgreeAt(f, g.rels, m, st.graph.rels, m', t) {
      ClashFreeAgrees(f, g.rels, m, st.graph.rels, m', t);
    }
    AgreementGivesSimulation(f, g.rels, m, st.graph.rels, m');
  }

  lemma NoSelfLoop(g: Graph, x: Id)
    requires WellFormed(g) && x in g.rels
    ensures g.rels[x].source != g.rels[x].target
  {
    assert EdgeOk(g, g.rels[x]);
  }

  /** So does any merge while the replay's ids sort the scope's edges as the live ids do. */
  lemma StepMergedOrdered(g: Graph, scope: string, st: State, op: Op, ts: int)
    requires Synced(g, scope, st) && op.Merge? && InScope(g.nodes, scope, op.survivor) && Merged(g, op).result.Ok?
    requires OrderKept(g.rels, scope, st.rels)
    ensures Follows(g, scope, st, op, ts)
  {
    hide WellFormed, NodeSim, EdgeSim, Moved, Merged, EventFor, Follows, AgreeAt, OrderKept, Synced, Translate, Known;
    var f := FrameOf(g, scope, st);
    MergeFollowsEdges(g, scope, st, op, ts);
    MergeSetting(g, scope, st, op, ts);
    var m, m' := LiveMove(op), ReplayedMove(st, op, ts);
    forall t | Inside(f, t) ensures AgreeAt(f, g.rels, m, st.graph.rels, m', t) {
      OrderKeptAgrees(f, g.rels, m, st.graph.rels, m', t);
    }
    AgreementGivesSimulation(f, g.rels, m, st.graph.rels, m');
  }
}
