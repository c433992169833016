/** Runs whose journal does not rebuild the scope: one concrete run for each
    promise of the replay guarantee. */
module ReplayLimits {
  import opened Ids
  import opened Surfaces
  import opened GraphModel
  import opened EdgeFold
  import opened GraphOps
  import opened Journal
  import opened Replay
  import opened ReplayEdges
  import opened ReplaySteps
  import opened ReplayMerge
  import opened ReplaySplit
  import opened ReplayScopes
  import opened ReplayProof
  import opened ReplayGuarantee

  function New(scope: string, name: string): Op { Create(scope, name, "T", [], REPLAY_EMBEDDING, 0, []) }

  function NewNode(scope: string, name: string): Node {
    Node(scope, name, [], "T", [], REPLAY_EMBEDDING, true, 0, 0, 0, None)
  }

  lemma CreateGives(g: Graph, scope: string, name: string, ts: int)
    requires scope != "" && 1 <= |name| <= 40
    ensures var id := NodeId(g.sequence + 1);
            && After(g, New(scope, name)) ==
               g.(sequence := g.sequence + 1, nodes := g.nodes[id := NewNode(scope, name)])
            && EventFor(g, New(scope, name), ts) ==
               Some(NodeCreated(scope, ts, id, ContentOf(NewNode(scope, name))))
  {
    hide NodeId, UnitNorm;
    PlaceholderIsUnit();
  }

  lemma RunAppend(calls: seq<Call>, c: Call)
    ensures var s := Run(calls);
            Run(calls + [c]) == Journalled(After(s.graph, c.op),
                                           match EventFor(s.graph, c.op, c.ts)
                                           case Some(e) => s.events + [e]
                                           case None => s.events)
  {
    hide After, EventFor;
    assert (calls + [c])[..|calls + [c]| - 1] == calls;
  }

  lemma RunOne(c: Call)
    ensures Run([c]).graph == After(EMPTY, c.op)
    ensures Run([c]).events == match EventFor(EMPTY, c.op, c.ts) case Some(e) => [e] case None => []
  {
    hide After, EventFor;
    assert [] + [c] == [c];
    RunAppend([], c);
  }

  lemma PromisedAppend(calls: seq<Call>, c: Call, scope: string)
    ensures AllPromised(calls + [c], scope) <==>
            AllPromised(calls, scope) && Promised(Run(calls).graph, Run(calls).events, scope, c.op)
  {
    hide Promised, Run;
    assert (calls + [c])[..|calls + [c]| - 1] == calls;
  }

  predicate AtOnce(calls: seq<Call>) { forall i :: 0 <= i < |calls| ==> calls[i].ts == 0 }

  lemma AtOnceAppend(calls: seq<Call>, c: Call)
    requires AtOnce(calls) && c.ts == 0
    ensures AtOnce(calls + [c])
  {
  }

  /** Calls all stamped alike are replayed in the order they were made. */
  lemma AtOnceFollows(calls: seq<Call>, scope: string)
    requires AtOnce(calls)
    ensures ReplayFollows(calls, scope) <==> Tracks(calls, scope)
  {
    hide Run, ReplayFollows, Tracks, InTimeOrder;
    assert ClockForward(calls);
    EventsInTimeOrder(calls);
    OfScopeInOrder(Run(calls).events, scope);
    FollowsIsTracks(calls, scope);
  }

  // ----------------------------------------------------- the clock runs back

  const EARLY := Call(New("s", "a"), 5)
  const LATE := Call(Alias(NodeId(1), ["b"]), 3)

  lemma LateEvents()
    ensures var e := EventFor(Run([EARLY]).graph, LATE.op, LATE.ts);
            && Run([EARLY]).events == [EventFor(EMPTY, EARLY.op, 5).value]
            && Run([EARLY]).events[0].scope == "s" && Run([EARLY]).events[0].ts == 5
            && e.Some? && e.value.AliasesAdded? && e.value.scope == "s" && e.value.ts == 3
  {
    hide NodeId, UnitNorm, Run;
    RunOne(EARLY);
    CreateGives(EMPTY, "s", "a", 5);
    assert [] + ["b"] == ["b"];
    assert !Blank("b") by { assert !Space("b"[0]); }
  }

  lemma OutOfOrder(e0: Event, e1: Event)
    requires e0.scope == e1.scope == "s" && e1.ts < e0.ts && e1.AliasesAdded?
    ensures ReplayOf([e0, e1], "s") == Err(JournalGap)
  {
    assert [e0, e1][1..] == [e1] && [e1][1..] == [];
    assert OfScope([e1], "s") == [e1];
    assert OfScope([e0, e1], "s") == [e0] + [e1] == [e0, e1];
    assert ByTime([e1]) == Insert(e1, []);
    assert Insert(e0, [e1]) == [e1] + Insert(e0, [e1][1..]);
    assert EventsOf([e0, e1], "s") == [e1, e0];
    assert [e1, e0][..1] == [e1] && [e1][..0] == [];
    assert ApplyAll(BLANK, [e1]) == ApplyEvent(BLANK, e1);
  }

  /** The alias is stamped before the creation it follows, so the ledger hands it
      to the replay first, and the replay finds no such node. */
  lemma ClockMustNotRunBack()
    ensures AllPromised([EARLY] + [LATE], "s") && !ClockForward([EARLY] + [LATE])
    ensures ReplayOf(Run([EARLY] + [LATE]).events, "s") == Err(JournalGap)
  {
    hide NodeId, UnitNorm, Run, EventFor, After, ReplayOf;
    assert ([EARLY] + [LATE])[1].ts < ([EARLY] + [LATE])[0].ts;
    assert [] + [EARLY] == [EARLY];
    PromisedAppend([], EARLY, "s");
    PromisedAppend([EARLY], LATE, "s");
    LateEvents();
    RunAppend([EARLY], LATE);
    var e0, e1 := Run([EARLY]).events[0], EventFor(Run([EARLY]).graph, LATE.op, LATE.ts).value;
    assert Run([EARLY] + [LATE]).events == [e0] + [e1] == [e0, e1];
    OutOfOrder(e0, e1);
  }

  // ------------------------------------------- a deletion spans two scopes

  const THERE := Call(New("a", "x"), 0)
  const HERE := Call(New("b", "y"), 0)
  const BOTH_GONE := Call(Delete([NodeId(1), NodeId(2)]), 0)

  lemma TwoScopes()
    ensures InScope(Run([THERE] + [HERE]).graph.nodes, "a", NodeId(1))
    ensures InScope(Run([THERE] + [HERE]).graph.nodes, "b", NodeId(2))
  {
    hide NodeId, UnitNorm, Run, EventFor;
    RunOne(THERE);
    CreateGives(EMPTY, "a", "x", 0);
    RunAppend([THERE], HERE);
    CreateGives(Run([THERE]).graph, "b", "y", 0);
    Unrepeated(1, 2);
  }

  lemma TwoScopesPromised(scope: string)
    ensures AllPromised([THERE] + [HERE], scope)
  {
    hide Run;
    assert [] + [THERE] == [THERE];
    PromisedAppend([], THERE, scope);
    PromisedAppend([THERE], HERE, scope);
  }

  /** The journal records the deletion under the first node's scope alone: that
      scope's replay meets a node it never saw, the other scope's keeps its node. */
  lemma DeletionMustStayInOneScope(scope: string)
    requires scope == "a" || scope == "b"
    ensures ReplayFollows([THERE] + [HERE], scope)
    ensures NoneMidway([THERE] + [HERE] + [BOTH_GONE]) && !ReplayFollows([THERE] + [HERE] + [BOTH_GONE], scope)
  {
    hide NodeId, UnitNorm, Tracks, ReplayFollows, Run, CallSafe, Rebuilt, Invariant, AllPromised, SplitsNothing, MintOrderKept, REPLAY_EMBEDDING;
    var calls := [THERE] + [HERE];
    TwoScopesPromised(scope);
    PromisesKeepTrack(calls, scope);
    assert (calls + [BOTH_GONE])[..|calls + [BOTH_GONE]| - 1] == calls;
    TwoScopes();
    DeletedUnsafely(Run(calls).graph, scope, Rebuilt(calls, scope).value);
    AppendedTracksExactly(calls + [BOTH_GONE], scope);
    AtOnceFollows(calls, scope);
    AtOnceFollows(calls + [BOTH_GONE], scope);
  }

  lemma DeletedUnsafely(g: Graph, scope: string, st: State)
    requires InScope(g.nodes, "a", NodeId(1)) && InScope(g.nodes, "b", NodeId(2)) && (scope == "a" || scope == "b")
    ensures !CallSafe(g, scope, st, BOTH_GONE.op, 0)
  {
    hide NodeId;
    var ids := [NodeId(1), NodeId(2)];
    PresentMembers(g, ids);
    assert ids[0] in ids && ids[1] in ids;
    assert Present(g, ids)[0] == NodeId(1);
  }

  // --------------------------------------- a split changes the folding order

  lemma {:induction false} FirstIsLeast(rels: map<Id, Relation>, order: seq<Id>, m: Move, t: Triple, y: Id)
    requires Ascending(order) && y in order && Lands(rels, m, y, t)
    ensures var f := FirstLanding(rels, order, m, t); f.Some? && (f.value == y || Less(f.value, y))
  {
    hide Less, Lands;
    if order[0] != y {
      assert order == [order[0]] + order[1..];
      var i :| 0 <= i < |order| && order[i] == y;
      assert Less(order[0], order[i]);
      if !Lands(rels, m, order[0], t) {
        assert Ascending(order[1..]) by {
          forall i, j | 0 <= i < j < |order[1..]| ensures Less(order[1..][i], order[1..][j]) {
            assert Less(order[i + 1], order[j + 1]);
          }
        }
        FirstIsLeast(rels, order[1..], m, t, y);
      }
    }
  }

  /** Two absorbed edges that collide with nothing already there, met in opposite
      orders by the two stores, always break the replay of the merge. */
  lemma ReversedCollisionDiverges(g: Graph, scope: string, st: State, op: Op, ts: int, x: Id, y: Id, t: Triple)
    requires Invariant(g, scope, st) && op.Merge? && InScope(g.nodes, scope, op.survivor) && Merged(g, op).result.Ok?
    requires x in AffectedIds(g.rels, LiveMove(op)) && y in AffectedIds(g.rels, LiveMove(op))
    requires Lands(g.rels, LiveMove(op), x, t) && Lands(g.rels, LiveMove(op), y, t)
    requires HolderAt(g.rels, LiveMove(op), t) == None
    requires forall z :: z in AffectedIds(g.rels, LiveMove(op)) && Lands(g.rels, LiveMove(op), z, t) ==> z == x || Less(x, z)
    requires x in st.rels && y in st.rels && Less(st.rels[y], st.rels[x])
    ensures !StepSafe(g, scope, st, op, ts)
  {
    hide Less, Lands, WellFormed, Simulates, HolderAt, Named, Evidenced, MergeNodes, Known, Sorted, Setting, AffectedIds;
    var f := FrameOf(g, scope, st);
    MergeSetting(g, scope, st, op, ts);
    var m, m' := LiveMove(op), ReplayedMove(st, op, ts);
    SettingInjective(f, g.rels, m, st.graph.rels, m');
    ReversedInScope(g, scope, st, op, ts, x, y, t);
    var order, order' := Sorted(AffectedIds(g.rels, m)), Sorted(AffectedIds(st.graph.rels, m'));
    FirstIsLeast(g.rels, order, m, t, x);
    FirstIsLanding(g.rels, order, m, t);
    LessAsymmetricTo(FirstLanding(g.rels, order, m, t).value, x);
    FirstIsLeast(st.graph.rels, order', m', Renamed(f, t), st.rels[y]);
    LessIrreflexive(st.rels[x]);
    LessAsymmetricTo(st.rels[y], st.rels[x]);
    assert !CollisionsAgree(f, g.rels, m, st.graph.rels, m', t);
  }

  lemma LessAsymmetricTo(a: Id, b: Id)
    ensures Less(a, b) ==> !Less(b, a)
  {
    if Less(a, b) { LessAsymmetric(a, b); }
  }

  lemma ReversedInScope(g: Graph, scope: string, st: State, op: Op, ts: int, x: Id, y: Id, t: Triple)
    requires Invariant(g, scope, st) && op.Merge? && Known(st, op.absorbed) && op.survivor in st.nodes
    requires Setting(FrameOf(g, scope, st), g.rels, LiveMove(op), st.graph.rels, ReplayedMove(st, op, ts))
    requires x in AffectedIds(g.rels, LiveMove(op)) && y in AffectedIds(g.rels, LiveMove(op))
    requires Lands(g.rels, LiveMove(op), x, t) && Lands(g.rels, LiveMove(op), y, t)
    ensures Inside(FrameOf(g, scope, st), t) && y in st.rels
    ensures var t' := Renamed(FrameOf(g, scope, st), t);
            st.rels[y] in AffectedIds(st.graph.rels, ReplayedMove(st, op, ts)) &&
            Lands(st.graph.rels, ReplayedMove(st, op, ts), st.rels[y], t')
  {
    hide WellFormed, Simulates, Named, Evidenced, UniqueTriples, EdgeSim, SameMove, Injective, EndsInside, Translate, Mirrors;
    var f := FrameOf(g, scope, st);
    var m, m' := LiveMove(op), ReplayedMove(st, op, ts);
    assert EdgeInScope(g.rels, scope, x) && EdgeInScope(g.rels, scope, y);
    AffectedAlike(f, g.rels, m, st.graph.rels, m', x);
    AffectedAlike(f, g.rels, m, st.graph.rels, m', y);
    LandsAlike(f, g.rels, m, st.graph.rels, m', y, t);
  }

  const SURVIVOR := Call(New("s", "s"), 0)
  const PARENT := Call(New("s", "p"), 0)
  const OTHER := Call(New("s", "b"), 0)
  const TARGET := Call(New("s", "t"), 0)
  const FIRST_EDGE := Call(Upsert("s", NodeId(2), NodeId(4), "USES", Some("x"), ["e1"], None, 0), 0)
  const SECOND_EDGE := Call(Upsert("s", NodeId(3), NodeId(4), "USES", Some("y"), ["e2"], None, 0), 0)
  const PART: SplitPart := Part("a", "T", [RelationId(1)])
  const DIVISION := Call(Split(NodeId(2), [PART], 0), 0)
  const UNION := Call(Merge(NodeId(1), [NodeId(5), NodeId(3)], "s", "T", [], REPLAY_EMBEDDING, 0), 0)

  const FOUR: seq<Call> := [SURVIVOR] + [PARENT] + [OTHER] + [TARGET]
  const SIX: seq<Call> := FOUR + [FIRST_EDGE] + [SECOND_EDGE]
  const SEVEN: seq<Call> := SIX + [DIVISION]

  ghost predicate Holds(g: Graph, id: Id, name: string) { id in g.nodes && g.nodes[id] == NewNode("s", name) }

  lemma Created(calls: seq<Call>, name: string, n: nat)
    requires 1 <= |name| <= 40 && Run(calls).graph.sequence == n
    ensures var g, g' := Run(calls).graph, Run(calls + [Call(New("s", name), 0)]).graph;
            && g' == g.(sequence := n + 1, nodes := g.nodes[NodeId(n + 1) := NewNode("s", name)])
    ensures AllPromised(calls, "s") ==> AllPromised(calls + [Call(New("s", name), 0)], "s")
    ensures SplitsNothing(Run(calls).events, "s") ==> SplitsNothing(Run(calls + [Call(New("s", name), 0)]).events, "s")
  {
    hide NodeId, Run, AllPromised;
    CreateGives(Run(calls).graph, "s", name, 0);
    RunAppend(calls, Call(New("s", name), 0));
    PromisedAppend(calls, Call(New("s", name), 0), "s");
  }

  lemma FourNodes()
    ensures var g := Run(FOUR).graph;
            && Holds(g, NodeId(1), "s") && Holds(g, NodeId(2), "p") && Holds(g, NodeId(3), "b") && Holds(g, NodeId(4), "t")
            && g.rels == map[] && g.sequence == 4 && g.relSequence == 0
    ensures AllPromised(FOUR, "s") && SplitsNothing(Run(FOUR).events, "s")
  {
    hide NodeId, Run, NewNode, SplitsNothing;
    assert Run([]) == START && SplitsNothing([], "s") by { EmptyRun(); }
    assert [] + [SURVIVOR] == [SURVIVOR];
    Created([], "s", 0);
    Created([SURVIVOR], "p", 1);
    Created([SURVIVOR] + [PARENT], "b", 2);
    Created([SURVIVOR] + [PARENT] + [OTHER], "t", 3);
    forall i: nat, j: nat | 1 <= i < j <= 4 ensures NodeId(i) != NodeId(j) { Unrepeated(i, j); }
    assert NodeId(0 + 1) == NodeId(1) && NodeId(1 + 1) == NodeId(2) && NodeId(2 + 1) == NodeId(3) && NodeId(3 + 1) == NodeId(4);
    assert NodeId(1) != NodeId(2) && NodeId(1) != NodeId(3) && NodeId(1) != NodeId(4);
    assert NodeId(2) != NodeId(3) && NodeId(2) != NodeId(4) && NodeId(3) != NodeId(4);
  }

  lemma EmptyRun()
    ensures Run([]) == START && SplitsNothing([], "s")
  {
  }

  lemma LastCall(calls: seq<Call>, c: Call)
    ensures (calls + [c])[..|calls + [c]| - 1] == calls && (calls + [c])[|calls + [c]| - 1] == c
  {
  }

  lemma CreatedTwins(calls: seq<Call>, name: string)
    requires 1 <= |name| <= 40 && AllPromised(calls, "s")
    ensures Rebuilt(calls, "s").Ok? && Rebuilt(calls + [Call(New("s", name), 0)], "s").Ok?
    ensures var st, st' := Rebuilt(calls, "s").value, Rebuilt(calls + [Call(New("s", name), 0)], "s").value;
            st'.rels == st.rels && st'.graph.relSequence == st.graph.relSequence
  {
    hide NodeId, Run, AllPromised, Rebuilt, Invariant, Tracks, After, EventFor, ApplyEvent, NewNode;
    var c := Call(New("s", name), 0);
    PromisedAppend(calls, c, "s");
    PromisesKeepTrack(calls, "s");
    PromisesKeepTrack(calls + [c], "s");
    LastCall(calls, c);
    RebuiltStep(calls + [c], "s");
    CreateGives(Run(calls).graph, "s", name, 0);
    NoNewTwins(Rebuilt(calls, "s").value, EventFor(Run(calls).graph, c.op, 0).value);
  }

  lemma FourTwins()
    ensures AllPromised(FOUR, "s") && Rebuilt(FOUR, "s").Ok?
    ensures Rebuilt(FOUR, "s").value.rels == map[] && Rebuilt(FOUR, "s").value.graph.relSequence == 0
  {
    hide Run, Rebuilt, AllPromised;
    StartsOrdered("s");
    assert [] + [SURVIVOR] == [SURVIVOR];
    EmptyPromised();
    NewPromised([], "s");
    CreatedTwins([], "s");
    NewPromised([SURVIVOR], "p");
    CreatedTwins([SURVIVOR], "p");
    NewPromised([SURVIVOR] + [PARENT], "b");
    CreatedTwins([SURVIVOR] + [PARENT], "b");
    NewPromised([SURVIVOR] + [PARENT] + [OTHER], "t");
    CreatedTwins([SURVIVOR] + [PARENT] + [OTHER], "t");
  }

  lemma EmptyPromised()
    ensures AllPromised([], "s")
  {
  }

  lemma NewPromised(calls: seq<Call>, name: string)
    requires AllPromised(calls, "s")
    ensures AllPromised(calls + [Call(New("s", name), 0)], "s")
  {
    hide Run, AllPromised;
    PromisedAppend(calls, Call(New("s", name), 0), "s");
  }

  // ---- the two edges

  function Uses(source: Id, claim: string, entry: Id): Relation {
    Relation("s", source, NodeId(4), "USES", claim, [entry], None, 0, 0)
  }

  function Stating(source: Id, claim: string, entry: Id): Op {
    Upsert("s", source, NodeId(4), "USES", Some(claim), [entry], None, 0)
  }

  lemma Statable(claim: string, entry: Id)
    requires (claim == "x" || claim == "y") && (entry == "e1" || entry == "e2")
    ensures StatementOk("USES", claim, [entry], None) && EdgeTypeOk("USES")
  {
    assert !Blank(entry) by { assert !Space(entry[0]); }
  }

  lemma StatingGives(g: Graph, source: Id, claim: string, entry: Id)
    requires WellFormed(g) && (claim == "x" || claim == "y") && (entry == "e1" || entry == "e2")
    requires InScope(g.nodes, "s", source) && InScope(g.nodes, "s", NodeId(4)) && source != NodeId(4)
    requires forall x :: x in g.rels ==> g.rels[x].source != source
    ensures var id := RelationId(g.relSequence + 1);
            && After(g, Stating(source, claim, entry)) ==
               g.(relSequence := g.relSequence + 1, rels := g.rels[id := Uses(source, claim, entry)])
            && EventFor(g, Stating(source, claim, entry), 0) ==
               Some(RelationUpserted("s", 0, id, Uses(source, claim, entry)))
            && id !in g.rels
  {
    hide NodeId, RelationId, StatementOk, EdgeTypeOk, ByTriple, NodesSound, EdgesSound;
    Statable(claim, entry);
    FreshRelation(g);
    ByTripleUnique(g.rels, Triple("s", source, "USES", NodeId(4)));
  }

  ghost predicate Placeable(calls: seq<Call>, source: Id) {
    var g := Run(calls).graph;
    && InScope(g.nodes, "s", source) && InScope(g.nodes, "s", NodeId(4)) && source != NodeId(4)
    && forall x :: x in g.rels ==> g.rels[x].source != source
  }

  lemma StatedGraph(calls: seq<Call>, source: Id, claim: string, entry: Id)
    requires AllPromised(calls, "s") && (claim == "x" || claim == "y") && (entry == "e1" || entry == "e2")
    requires Placeable(calls, source)
    ensures var g, g' := Run(calls).graph, Run(calls + [Call(Stating(source, claim, entry), 0)]).graph;
            g' == g.(relSequence := g.relSequence + 1,
                     rels := g.rels[RelationId(g.relSequence + 1) := Uses(source, claim, entry)])
    ensures AllPromised(calls + [Call(Stating(source, claim, entry), 0)], "s")
  {
    hide NodeId, RelationId, Run, AllPromised, Rebuilt, Tracks, After, EventFor, WellFormed, Simulates, Named, Uses;
    var c := Call(Stating(source, claim, entry), 0);
    PromisedAppend(calls, c, "s");
    PromisesKeepTrack(calls, "s");
    StatingGives(Run(calls).graph, source, claim, entry);
    RunAppend(calls, c);
  }

  lemma StatedTwins(calls: seq<Call>, source: Id, claim: string, entry: Id)
    requires AllPromised(calls, "s") && (claim == "x" || claim == "y") && (entry == "e1" || entry == "e2")
    requires Placeable(calls, source)
    ensures Rebuilt(calls, "s").Ok? && Rebuilt(calls + [Call(Stating(source, claim, entry), 0)], "s").Ok?
    ensures var st, st' := Rebuilt(calls, "s").value, Rebuilt(calls + [Call(Stating(source, claim, entry), 0)], "s").value;
            && st'.rels == st.rels[RelationId(Run(calls).graph.relSequence + 1) := RelationId(st.graph.relSequence + 1)]
            && st'.graph.relSequence == st.graph.relSequence + 1
  {
    hide NodeId, RelationId, Run, AllPromised, Rebuilt, Tracks, After, EventFor, ApplyEvent, WellFormed, Simulates, Named,
      Uses, UpsertRelation, MintOrderKept, SplitsNothing, Evidenced;
    var c := Call(Stating(source, claim, entry), 0);
    PromisesKeepTrack(calls, "s");
    LastCall(calls, c);
    RebuiltStep(calls + [c], "s");
    StatingGives(Run(calls).graph, source, claim, entry);
    UpsertEvent(Run(calls).graph, c.op, 0);
    StepUpserted(Run(calls).graph, "s", Rebuilt(calls, "s").value, c.op, 0);
  }

  lemma SixCalls()
    ensures var g := Run(SIX).graph;
            && Holds(g, NodeId(1), "s") && Holds(g, NodeId(2), "p") && Holds(g, NodeId(3), "b") && Holds(g, NodeId(4), "t")
            && g.rels == map[RelationId(1) := Uses(NodeId(2), "x", "e1"), RelationId(2) := Uses(NodeId(3), "y", "e2")]
            && g.sequence == 4 && g.relSequence == 2
    ensures AllPromised(SIX, "s") && Rebuilt(SIX, "s").Ok?
    ensures var st := Rebuilt(SIX, "s").value;
            st.rels == map[RelationId(1) := RelationId(1), RelationId(2) := RelationId(2)] && st.graph.relSequence == 2
  {
    hide NodeId, RelationId, Run, AllPromised, Rebuilt;
    FourNodes();
    FourTwins();
    Unrepeated(2, 4);
    Unrepeated(3, 4);
    Unrepeated(2, 3);
    StatedGraph(FOUR, NodeId(2), "x", "e1");
    StatedTwins(FOUR, NodeId(2), "x", "e1");
    assert RelationId(0 + 1) == RelationId(1) && RelationId(1 + 1) == RelationId(2);
    StatedGraph(FOUR + [FIRST_EDGE], NodeId(3), "y", "e2");
    StatedTwins(FOUR + [FIRST_EDGE], NodeId(3), "y", "e2");
  }

  // ---- the split re-mints the first edge behind the second

  lemma {:induction false} PartsKeepTwins(st: State, parts: seq<(Id, NodeContent)>, ts: int)
    requires CreateParts(st, parts, ts).Ok?
    ensures var next := CreateParts(st, parts, ts).value;
            next.rels == st.rels && next.graph.relSequence == st.graph.relSequence
    decreases |parts|
  {
    hide UnitNorm, Canonical, AnyBlank, NodeId, NodeOk;
    if parts != [] { PartsKeepTwins(CreateFrom(st, parts[0].0, parts[0].1, ts).value, parts[1..], ts); }
  }

  lemma OneRecorded(g: Graph, op: Op, x: Id)
    requires WellFormed(g) && op.Split? && Divided(g, op).result.Ok? && Claims(op.parts) == [x]
    ensures Recorded(g, op) == [x]
  {
    hide WellFormed, SplitNode, Claims, Recorded, Less;
    RecordedEdges(g, op);
    RecordedAscends(g, op);
    assert forall y :: y in [x] <==> y in {x};
    assert Lists(Recorded(g, op), {x}) && Lists([x], {x});
    ListingIsUnique(Recorded(g, op), [x], {x});
  }

  lemma RestoredAlone(g: Graph, scope: string, st: State, all: map<Id, Relation>, x: Id, ts: int)
    requires Synced(g, scope, st) && WellFormed(g.(rels := all)) && Missing(g, all, [x]) && x in all
    requires all[x].scope == scope && Statement(all[x])
    ensures var next := RestoreEdges(st, EdgePayloads(all, [x]), ts);
            next.Ok? && next.value.rels == st.rels[x := RelationId(st.graph.relSequence + 1)]
  {
    hide WellFormed, Simulates, Statement, Missing, RelationId, StatementOk, Restore;
    MissingStep(g, all, [x]);
    MissingAgrees(g, all, [x]);
    NewEdgeStands(g, scope, all, x);
    StatementIs(all[x]);
    RestoreNew(g, scope, st, x, all[x], ts);
    assert [x][1..] == [] && [(x, all[x])][1..] == [];
    assert EdgePayloads(all, [x]) == [(x, all[x])];
    assert RestoreEdges(st, [(x, all[x])], ts) == Restore(st, x, all[x], ts);
  }

  /** Restoring the one claimed edge mints the replay's next relation id. */
  lemma OneRestored(g: Graph, scope: string, st: State, op: Op, ts: int, x: Id)
    requires Synced(g, scope, st) && op.Split? && InScope(g.nodes, scope, op.id) && Divided(g, op).result.Ok?
    requires Claims(op.parts) == [x] && x in g.rels && Statement(g.rels[x])
    ensures EventFor(g, op, ts).Some? && ApplyEvent(st, EventFor(g, op, ts).value).Ok?
    ensures ApplyEvent(st, EventFor(g, op, ts).value).value.rels == st.rels[x := RelationId(st.graph.relSequence + 1)]
  {
    hide WellFormed, Simulates, SplitNode, Claims, WithParts, PartContents, CreateParts, DeleteNodes, Statement, Missing,
      Emptied, Recorded, RelationId, RestoreEdges, EdgePayloads, EventFor;
    OneRecorded(g, op, x);
    RecordedEdges(g, op);
    RecordedMissing(g, op);
    SplitEventIs(g, op, ts);
    EmptiedFollows(g, scope, st, op, ts);
    SplitEndsAtDivided(g, op);
    SplitKeepsWellFormed(g, op.id, op.parts, op.now);
    var cleared := st.(graph := DeleteNodes(st.graph, [st.nodes[op.id]]));
    var contents := PartContents(scope, op.parts, op.now, g.sequence);
    PartsKeepTwins(cleared, contents, ts);
    DeletionKeepsCounter(st.graph, [st.nodes[op.id]]);
    RestoredAlone(Emptied(g, op), scope, CreateParts(cleared, contents, ts).value, Divided(g, op).graph.rels, x, ts);
  }

  lemma DeletionKeepsCounter(g: Graph, ids: seq<Id>)
    ensures DeleteNodes(g, ids).relSequence == g.relSequence
  {
  }

  lemma PartClaims()
    ensures Claims([PART]) == [RelationId(1)]
  {
    hide RelationId;
    assert [PART][1..] == [];
  }

  lemma Divides(g: Graph)
    requires WellFormed(g) && Holds(g, NodeId(2), "p") && g.sequence == 4
    requires RelationId(1) in g.rels && g.rels[RelationId(1)] == Uses(NodeId(2), "x", "e1")
    ensures Divided(g, DIVISION.op).result == Ok([NodeId(5)])
  {
    hide NodeId, RelationId, Moved, UniqueTriples, EdgesSound, NodesSound, MintedNode, MintedRelation, Claims, SplitInto;
    PartClaims();
    var op := DIVISION.op;
    assert Divided(g, op).result.Ok?;
    SplitNodeFacts(g, op.id, op.parts, op.now);
    var ids := Divided(g, op).result.value;
    assert |ids| == 1 && ids[0] == NodeId(g.sequence + 1 + 0) && NodeId(g.sequence + 1 + 0) == NodeId(5);
    assert ids == [NodeId(5)];
  }

  ghost predicate SixGraph(g: Graph) {
    && Holds(g, NodeId(1), "s") && Holds(g, NodeId(2), "p") && Holds(g, NodeId(3), "b") && Holds(g, NodeId(4), "t")
    && g.rels == map[RelationId(1) := Uses(NodeId(2), "x", "e1"), RelationId(2) := Uses(NodeId(3), "y", "e2")]
    && g.sequence == 4 && g.relSequence == 2
  }

  lemma SixEdges(g: Graph)
    requires SixGraph(g)
    ensures RelationId(1) in g.rels && g.rels[RelationId(1)] == Uses(NodeId(2), "x", "e1")
    ensures RelationId(2) in g.rels && g.rels[RelationId(2)] == Uses(NodeId(3), "y", "e2")
    ensures g.rels.Keys == {RelationId(1), RelationId(2)}
    ensures !Touches(g.rels[RelationId(2)], {NodeId(2)})
  {
    hide NodeId, RelationId;
    RelationsDiffer(1, 2);
    Unrepeated(3, 2);
    Unrepeated(4, 2);
  }

  lemma DividedNodes(g: Graph)
    requires WellFormed(g) && SixGraph(g)
    ensures var g' := After(g, DIVISION.op);
            && Divided(g, DIVISION.op).result.Ok?
            && Holds(g', NodeId(1), "s") && Holds(g', NodeId(3), "b") && Holds(g', NodeId(4), "t")
            && NodeId(5) in g'.nodes && g'.nodes[NodeId(5)] == PartNode("s", PART, 0)
  {
    hide NodeId, RelationId, WellFormed, SplitNode, Claims, Uses, NewNode, PartNode;
    var op := DIVISION.op;
    Unrepeated(1, 2);
    Unrepeated(3, 2);
    Unrepeated(4, 2);
    SixEdges(g);
    Divides(g);
    Minted(g);
    SplitNodeFacts(g, op.id, op.parts, op.now);
    NewScope("p");
    assert Divided(g, op).result.value[0] == NodeId(5) && op.parts[0] == PART;
  }

  lemma NewScope(name: string)
    ensures NewNode("s", name).scope == "s"
  {
  }

  lemma DividedEdges(g: Graph)
    requires WellFormed(g) && SixGraph(g)
    ensures After(g, DIVISION.op).rels ==
            map[RelationId(1) := Uses(NodeId(5), "x", "e1"), RelationId(2) := Uses(NodeId(3), "y", "e2")]
  {
    hide NodeId, RelationId, WellFormed, SplitNode, Claims, NewNode, Touches;
    var op := DIVISION.op;
    SixEdges(g);
    Unrepeated(2, 4);
    Divides(g);
    SplitEdgeFacts(g, op.id, op.parts, op.now);
    PartClaims();
    RelationsDiffer(1, 2);
    var g' := After(g, op);
    assert op.parts[0] == PART && RelationId(1) in op.parts[0].relationIds;
    assert g'.rels[RelationId(1)] == Repointed(g.rels[RelationId(1)], NodeId(2), NodeId(5), 0);
    assert g'.rels.Keys == {RelationId(1), RelationId(2)};
  }

  lemma RelationsDiffer(a: nat, b: nat)
    requires a != b
    ensures RelationId(a) != RelationId(b)
  {
    hide RelationId, Num;
    NumOfRendered(a);
    NumOfRendered(b);
  }

  ghost predicate SevenGraph(g: Graph) {
    && Holds(g, NodeId(1), "s") && Holds(g, NodeId(3), "b") && Holds(g, NodeId(4), "t")
    && NodeId(5) in g.nodes && g.nodes[NodeId(5)] == PartNode("s", PART, 0)
    && g.rels == map[RelationId(1) := Uses(NodeId(5), "x", "e1"), RelationId(2) := Uses(NodeId(3), "y", "e2")]
  }

  lemma SevenCalls()
    ensures SevenGraph(Run(SEVEN).graph) && AllPromised(SEVEN, "s")
    ensures SixGraph(Run(SIX).graph) && Divided(Run(SIX).graph, DIVISION.op).result.Ok?
  {
    hide NodeId, RelationId, Run, AllPromised, Rebuilt, WellFormed, Simulates, Named, EventFor, Claims, Divided, StatementOk,
      Statement, Uses, NewNode, PartNode;
    SixCalls();
    PromisesKeepTrack(SIX, "s");
    var g := Run(SIX).graph;
    SixEdges(g);
    DividedNodes(g);
    DividedEdges(g);
    RunAppend(SIX, DIVISION);
    PromisedAppend(SIX, DIVISION, "s");
    PartClaims();
    UsesStatable(NodeId(2));
  }

  lemma SevenTwins()
    ensures AllPromised(SEVEN, "s") && Rebuilt(SEVEN, "s").Ok?
    ensures Rebuilt(SEVEN, "s").value.rels == map[RelationId(1) := RelationId(3), RelationId(2) := RelationId(2)]
  {
    hide NodeId, RelationId, Run, AllPromised, Rebuilt, WellFormed, Simulates, Named, EventFor, After, ApplyEvent, Claims,
      Divided, StatementOk, Statement, Uses, NewNode, PartNode;
    SixCalls();
    SevenCalls();
    PromisesKeepTrack(SIX, "s");
    var g, st := Run(SIX).graph, Rebuilt(SIX, "s").value;
    SixEdges(g);
    PartClaims();
    UsesStatable(NodeId(2));
    NewScope("p");
    LastCall(SIX, DIVISION);
    RebuiltStep(SEVEN, "s");
    OneRestored(g, "s", st, DIVISION.op, 0, RelationId(1));
    SplitEventIs(g, DIVISION.op, 0);
    RelationsDiffer(1, 2);
  }

  lemma UsesStatable(source: Id)
    ensures Statement(Uses(source, "x", "e1"))
  {
    hide NodeId, StatementOk;
    Statable("x", "e1");
  }

  // ---- the merge then folds the two edges in opposite orders

  lemma UnionSucceeds(g: Graph)
    requires WellFormed(g) && SevenGraph(g)
    ensures Merged(g, UNION.op).result.Ok? && !FailsMidway(g, NodeId(1), [NodeId(5), NodeId(3)], REPLAY_EMBEDDING)
  {
    hide NodeId, RelationId, WellFormed, UnitNorm, Moved, Canonical, Uses;
    PlaceholderIsUnit();
    Unrepeated(1, 3);
    Unrepeated(1, 5);
    Unrepeated(3, 5);
    var ids := [NodeId(5), NodeId(3)];
    assert ids[1..] == [NodeId(3)] && [NodeId(3)][1..] == [];
    assert AbsorbedSurfaces(g.nodes, []) == [];
    assert AbsorbedSurfaces(g.nodes, [NodeId(3)]) == ["b"] + [] + [];
    assert g.nodes[NodeId(5)].name == "a" && g.nodes[NodeId(5)].aliases == [];
    assert AbsorbedSurfaces(g.nodes, ids) == ["a"] + [] + AbsorbedSurfaces(g.nodes, [NodeId(3)]);
    assert !Blank("a") by { assert !Space("a"[0]); }
    assert !Blank("b") by { assert !Space("b"[0]); }
    DeletingAll(g.nodes, ids);
  }

  lemma UnionCollides(g: Graph)
    requires WellFormed(g) && SevenGraph(g)
    ensures var m, t := LiveMove(UNION.op), Triple("s", NodeId(1), "USES", NodeId(4));
            && AffectedIds(g.rels, m) == {RelationId(1), RelationId(2)}
            && Lands(g.rels, m, RelationId(1), t) && Lands(g.rels, m, RelationId(2), t)
            && HolderAt(g.rels, m, t) == None
  {
    hide NodeId, RelationId, NodesSound, EdgesSound, IdsMinted, ByTriple;
    var m, t := LiveMove(UNION.op), Triple("s", NodeId(1), "USES", NodeId(4));
    Unrepeated(1, 3);
    Unrepeated(1, 4);
    Unrepeated(1, 5);
    Unrepeated(3, 4);
    Unrepeated(4, 5);
    RelationsDiffer(1, 2);
    assert NodeId(5) in m.moved && NodeId(3) in m.moved && NodeId(4) !in m.moved;
    assert g.rels.Keys == {RelationId(1), RelationId(2)};
    HolderAbsent(g.rels, m, t);
  }

  /** Two edges collide in a merge after a split has re-minted the older one in the
      replay: the live store keeps the older claim, the replay the newer one. */
  lemma SplitThenMergeDiverges()
    ensures ReplayFollows(SEVEN, "s")
    ensures NoneMidway(SEVEN + [UNION]) && !ReplayFollows(SEVEN + [UNION], "s")
  {
    hide ReplayFollows, NodeId, RelationId, Run, AllPromised, Rebuilt, WellFormed, Simulates, Named, EventFor, After, Less, FailsMidway,
      SevenGraph, StepSafe, Lands, HolderAt, AffectedIds, MintOrderKept, Tracks, Evidenced, MergeNodes, REPLAY_EMBEDDING;
    SevenCalls();
    SevenTwins();
    PromisesKeepTrack(SEVEN, "s");
    var g, st := Run(SEVEN).graph, Rebuilt(SEVEN, "s").value;
    LastCall(SEVEN, UNION);
    UnionSucceeds(g);
    UnionCollides(g);
    SurvivorThere(g);
    MergeEventScope(g, UNION.op, 0);
    MintOrderBelowThousand(1, 2);
    MintOrderBelowThousand(2, 3);
    RelationsDiffer(1, 2);
    ReversedCollisionDiverges(g, "s", st, UNION.op, 0, RelationId(1), RelationId(2),
                              Triple("s", NodeId(1), "USES", NodeId(4)));
    AppendedTracksExactly(SEVEN + [UNION], "s");
    SevenAtOnce();
    AtOnceFollows(SEVEN, "s");
    AtOnceFollows(SEVEN + [UNION], "s");
  }

  lemma SevenAtOnce()
    ensures AtOnce(SEVEN) && AtOnce(SEVEN + [UNION])
  {
    hide NodeId, RelationId, REPLAY_EMBEDDING;
    assert AtOnce([SURVIVOR]);
    AtOnceAppend([SURVIVOR], PARENT);
    AtOnceAppend([SURVIVOR] + [PARENT], OTHER);
    AtOnceAppend([SURVIVOR] + [PARENT] + [OTHER], TARGET);
    AtOnceAppend(FOUR, FIRST_EDGE);
    AtOnceAppend(FOUR + [FIRST_EDGE], SECOND_EDGE);
    AtOnceAppend(SIX, DIVISION);
    AtOnceAppend(SEVEN, UNION);
  }

  lemma SurvivorThere(g: Graph)
    requires SevenGraph(g)
    ensures InScope(g.nodes, "s", NodeId(1))
  {
  }
}
