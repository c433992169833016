/** Two accepted answers of the global pass that break a promise it makes: one leaves
    more edge types than its bound, the other stops in the middle. */
module GlobalLimits {
  import opened Ids
  import opened Surfaces
  import opened GraphModel
  import opened EdgeFold
  import opened GraphOps
  import opened Journal
  import opened GlobalPass
  import opened AddressBook
  import opened GlobalAnswer
  import opened EdgeVocabulary

  const UNIT: seq<real> := [1.0]
  const LINES := Content([Fact(Is, None, "it serves", ["e-01"], 0, 0)], UNIT)
  const BARE := Rules([], {}, {}, 2)

  function Concept(name: string): Node { Node("s", name, [], "T", [], UNIT, false, 0, 0, 0, None) }

  function Fronts(): Relation { Relation("s", NodeId(1), NodeId(2), "FRONTS", "it is in front", ["e-01"], None, 0, 0) }

  /** Two concepts and one edge between them. */
  function Pair(): Graph {
    Graph(map[NodeId(1) := Concept("proxy"), NodeId(2) := Concept("models")], map[RelationId(1) := Fronts()], 2, 1)
  }

  lemma UnitIsUnit()
    ensures UnitNorm(UNIT)
  {
    assert UNIT[1..] == [];
    assert SquaredNorm(UNIT) == 1.0 * 1.0 + SquaredNorm([]);
  }

  lemma NamesRead()
    ensures !Blank("proxy") && !Blank("models")
  {
    assert !Space("proxy"[0]) && !Space("models"[0]);
  }

  lemma PairIsWell()
    ensures NodeId(1) != NodeId(2) && WellFormed(Pair())
  {
    hide NodeId, RelationId, Num, Fold;
    Unrepeated(1, 2);
    FreshIsMinted(1);
    FreshIsMinted(2);
    MintedMonotone(NodeId(1), 1, 2);
    NumOfRendered(1);
    assert NodeSound(Concept("proxy")) && NodeSound(Concept("models"));
    assert EdgeOk(Pair(), Fronts()) && EdgeTypeOk("FRONTS");
  }

  function Label1(): Label { Label("s", "proxy") }
  function Label2(): Label { Label("s", "models") }
  function Between(typ: string): Triple { Triple("s", NodeId(1), typ, NodeId(2)) }

  function Before(): Book {
    Book(map[NodeId(1) := Label1(), NodeId(2) := Label2()], map[RelationId(1) := Between("FRONTS")], 2, 1)
  }

  lemma PairBooked()
    ensures BookOf(Pair()) == Before()
  {
    hide NodeId, RelationId;
  }

  lemma BeforeHolds()
    ensures NodeId(1) != NodeId(2)
    ensures InScope(Before(), "s", NodeId(1)) && InScope(Before(), "s", NodeId(2))
    ensures TypesIn(Before(), "s") == {"FRONTS"} && Size(Before(), "s") == 2
  {
    hide NodeId, RelationId;
    Unrepeated(1, 2);
    var b := Before();
    assert RelationId(1) in b.edges && b.edges[RelationId(1)].typ == "FRONTS";
    assert (set n | n in b.nodes && b.nodes[n].scope == "s") == {NodeId(1), NodeId(2)};
  }

  // ----------------------------------------------- one type more than the bound

  const COINED := Spec(None, NodeId(2), "ROUTES", "it routes to it", ["e-01"], None)

  function Coining(): seq<GlobalOp> { [Rewriting(NodeId(1), "T", LINES, [COINED], [])] }

  lemma CoinedIsSound()
    ensures StatementOk(COINED.typ, COINED.claim, COINED.entryIds, COINED.until)
  {
    hide NodeId;
    assert !Blank("e-01") by { assert !Space("e-01"[0]); }
  }

  lemma OneClaim(op: GlobalOp)
    requires Claimed(op) == [NodeId(1)]
    ensures ClaimedAll([op]) == [NodeId(1)] && NoRepeats(ClaimedAll([op]))
  {
    hide NodeId;
    assert [op][1..] == [];
    assert ClaimedAll([op]) == [NodeId(1)] + [];
  }

  lemma CoiningShaped()
    ensures Shaped(Coining()[0]) && Embedded(Coining()[0]) && Grown(Coining()) == 0
  {
    hide NodeId, StatementOk, UnitNorm;
    Unrepeated(1, 2);
    UnitIsUnit();
    CoinedIsSound();
    assert Coining()[1..] == [] && Grown([]) == 0;
  }

  lemma CoiningAccepted()
    ensures Accepted(Before(), "s", Coining(), BARE) && AllEmbedded(Coining()) && AllFind(Before(), "s", Coining(), 0)
  {
    hide NodeId, RelationId, StatementOk, UnitNorm, Before, TypesIn, Size, NotedAll, Shaped, Embedded, Grown, NoRepeats, InScope;
    var b, ops := Before(), Coining();
    BeforeHolds();
    CoiningShaped();
    OneClaim(ops[0]);
    assert Pending(b, "s", ops);
    assert Checked(b, "s", ops[0], BARE);
    assert Finds(b, "s", ops[0], 0);
    assert ops[1..] == [] && AllFind(NotedAll(b, Calls(b, "s", ops[0], 0)), "s", ops[1..], 0);
  }

  lemma CoiningCalls()
    ensures NotedAll(Before(), CallsAll(Before(), "s", Coining(), 0)).edges ==
            map[RelationId(1) := Between("FRONTS"), RelationId(2) := Between("ROUTES")]
  {
    hide NodeId, RelationId;
    var b, ops := Before(), Coining();
    var first := Rewrite(NodeId(1), LINES.facts, "T", UNIT, 0);
    var second := Upsert("s", NodeId(1), NodeId(2), "ROUTES", Some("it routes to it"), ["e-01"], None, 0);
    assert [COINED][1..] == [] && States("s", NodeId(1), [COINED], 0) == [second] + States("s", NodeId(1), [], 0) == [second];
    assert Calls(b, "s", ops[0], 0) == [first] + [second] + Retires([]) == [first] + [second];
    assert ops[1..] == [] && CallsAll(b, "s", ops, 0) == ([first] + [second]) + [] == [first] + [second];
    AllFitAppend(b, [first], [second]);
    FitOne(b, first);
    FitOne(b, second);
    assert !Addressed(b.edges, Between("ROUTES"));
    assert NotedAll(b, [first] + [second]).edges == b.edges[RelationId(2) := Between("ROUTES")];
  }

  lemma TwoTypes(b: Book)
    requires RelationId(1) != RelationId(2)
    requires b.edges == map[RelationId(1) := Between("FRONTS"), RelationId(2) := Between("ROUTES")]
    ensures TypesIn(b, "s") == {"FRONTS", "ROUTES"} && |TypesIn(b, "s")| == 2
  {
    hide NodeId, RelationId;
    assert RelationId(1) in b.edges && b.edges[RelationId(1)].typ == "FRONTS";
    assert RelationId(2) in b.edges && b.edges[RelationId(2)].typ == "ROUTES";
  }

  /** A scope with one edge type, a bound of one type, so nothing has to go; a rewrite
      that states an edge of a new type is accepted, applied whole, and leaves two. */
  lemma AcceptedAnswerBreaksBound()
    ensures WellFormed(Pair()) && EdgeTypes(Pair(), "s") == {"FRONTS"} && BARE.doomed == {}
    ensures Accepted(BookOf(Pair()), "s", Coining(), BARE) && AllEmbedded(Coining())
    ensures var done := Apply(Pair(), CallsAll(BookOf(Pair()), "s", Coining(), 0));
            done.result.Ok? && EdgeTypes(done.graph, "s") == {"FRONTS", "ROUTES"} && |EdgeTypes(done.graph, "s")| == 2
  {
    hide *;
    PairIsWell();
    PairBooked();
    BeforeHolds();
    TypesBooked(Pair(), "s");
    CoiningAccepted();
    BoundKeptExactly(Pair(), "s", Coining(), BARE, 0, 1);
    CoiningCalls();
    RelationsApart();
    TwoTypes(NotedAll(Before(), CallsAll(Before(), "s", Coining(), 0)));
    BareRules();
  }

  lemma BareRules()
    ensures BARE.doomed == {} && BARE.slate == []
  {
  }

  lemma RelationsApart()
    ensures RelationId(1) != RelationId(2)
  {
    hide RelationId, Num;
    NumOfRendered(1);
    NumOfRendered(2);
  }

  // ---------------------------------------------------- stopped in the middle

  function Halfway(): seq<GlobalOp> { [Merging(NodeId(1), [NodeId(2)], "T", LINES)] + [Retiring(RelationId(1))] }

  lemma HalfwayClaims()
    ensures ClaimedAll(Halfway()) == [NodeId(1)] + [NodeId(2)] && NoRepeats(ClaimedAll(Halfway()))
    ensures Grown(Halfway()) == -1
  {
    hide NodeId, RelationId;
    Unrepeated(1, 2);
    var ops := Halfway();
    assert ops[1..] == [Retiring(RelationId(1))] && ops[1..][1..] == [];
    assert Claimed(ops[0]) == [NodeId(1)] + [NodeId(2)];
    assert ClaimedAll(ops[1..]) == [] + ClaimedAll([]) == [];
    assert ClaimedAll(ops) == ([NodeId(1)] + [NodeId(2)]) + [] == [NodeId(1)] + [NodeId(2)];
    assert Grown(ops[1..]) == 0 by { assert Grown(ops[1..][1..]) == 0; }
  }

  lemma HalfwayChecked()
    ensures Shaped(Halfway()[0]) && Shaped(Halfway()[1]) && Embedded(Halfway()[0]) && Embedded(Halfway()[1])
    ensures Checked(Before(), "s", Halfway()[0], BARE) && Checked(Before(), "s", Halfway()[1], BARE)
  {
    hide NodeId, RelationId, UnitNorm;
    UnitIsUnit();
  }

  lemma HalfwayAccepted()
    ensures Accepted(Before(), "s", Halfway(), BARE) && AllEmbedded(Halfway())
  {
    hide NodeId, RelationId, Before, TypesIn, Size, Shaped, Embedded, Grown, NoRepeats, InScope, Checked, ClaimedAll;
    var b, ops := Before(), Halfway();
    BeforeHolds();
    HalfwayClaims();
    HalfwayChecked();
    assert forall i :: 0 <= i < 2 ==> Shaped(ops[i]) && Embedded(ops[i]) && Checked(b, "s", ops[i], BARE);
    assert Pending(b, "s", ops);
  }

  /** The calls that answer makes. */
  lemma HalfwayCalls(merge: Op)
    requires merge == Merge(NodeId(1), [NodeId(2)], "proxy", "T", LINES.facts, UNIT, 0)
    ensures CallsAll(Before(), "s", Halfway(), 0) == [merge, Retire(RelationId(1))]
  {
    hide NodeId, RelationId, NotedAll;
    var b, ops := Before(), Halfway();
    assert Calls(b, "s", ops[0], 0) == [merge] by { Unrepeated(1, 2); }
    assert ops[1..] == [Retiring(RelationId(1))] && ops[1..][1..] == [];
    var b1 := NotedAll(b, [merge]);
    assert CallsAll(b1, "s", ops[1..], 0) == [Retire(RelationId(1))] + [];
  }

  lemma HalfwayMerges(merge: Op)
    requires merge == Merge(NodeId(1), [NodeId(2)], "proxy", "T", LINES.facts, UNIT, 0)
    ensures Fits(Before(), merge)
  {
    hide NodeId, RelationId, UnitNorm, Blank;
    Unrepeated(1, 2);
    UnitIsUnit();
    NamesRead();
  }

  /** A merge of the two ends of an edge and the retirement of that edge pass the
      validation together; applied, the retirement no longer finds the edge, and the
      merge has been made. */
  lemma AcceptedAnswerStopsHalfway()
    ensures WellFormed(Pair()) && Accepted(BookOf(Pair()), "s", Halfway(), BARE) && AllEmbedded(Halfway())
    ensures !AllFind(BookOf(Pair()), "s", Halfway(), 0)
    ensures var done := Apply(Pair(), CallsAll(BookOf(Pair()), "s", Halfway(), 0));
            done.result == Err(NodeNotFound) && done.graph.nodes != Pair().nodes
  {
    hide *;
    PairIsWell();
    PairBooked();
    HalfwayAccepted();
    var merge := Merge(NodeId(1), [NodeId(2)], "proxy", "T", LINES.facts, UNIT, 0);
    HalfwayCalls(merge);
    HalfwayMerges(merge);
    EdgeInside(merge);
    OpFitsExactly(Pair(), merge);
    PassMayStopHalfway(Pair(), merge, RelationId(1));
    AppliesWholeExactly(Pair(), "s", Halfway(), BARE, 0);
  }

  lemma EdgeInside(merge: Op)
    requires merge == Merge(NodeId(1), [NodeId(2)], "proxy", "T", LINES.facts, UNIT, 0)
    ensures merge.Merge? && PassOp(merge) && merge.absorbed != [] && RelationId(1) in Pair().rels
    ensures Pair().rels[RelationId(1)].source in merge.absorbed + [merge.survivor]
    ensures Pair().rels[RelationId(1)].target in merge.absorbed + [merge.survivor]
  {
    hide NodeId, RelationId;
    var ends := [NodeId(2)] + [NodeId(1)];
    assert ends[0] == NodeId(2) && ends[1] == NodeId(1);
  }
}
