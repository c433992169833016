/** The node budget over real graphs: what an accepted answer leaves, and how the
    forced passes squeeze a scope. */
module NodeBudget {
  import opened Ids
  import opened Surfaces
  import opened GraphModel
  import opened EdgeFold
  import opened GraphOps
  import opened Journal
  import opened GlobalPass
  import opened AddressBook
  import opened GlobalAnswer
  import opened Slate

  // --------------------------------------------------- one accepted answer

  lemma SizeIsCount(g: Graph, scope: string)
    ensures Size(BookOf(g), scope) == Count(g, scope)
  {
    assert (set n | n in BookOf(g).nodes && BookOf(g).nodes[n].scope == scope) == InScopeIds(g, scope);
  }

  lemma {:induction false} QuietStays(g: Graph, scope: string, calls: seq<Op>)
    requires forall i :: 0 <= i < |calls| ==> calls[i].Rewrite? || calls[i].Upsert? || calls[i].Retire? || calls[i].Rename?
    ensures Stays(g, scope, calls) && Delta(calls) == 0
    decreases |calls|
  {
    hide Journal.After;
    if calls != [] {
      assert forall i :: 0 <= i < |calls[1..]| ==> calls[1..][i] == calls[i + 1];
      QuietStays(Journal.After(g, calls[0]), scope, calls[1..]);
    }
  }

  lemma {:induction false} StaysAppend(g: Graph, scope: string, a: seq<Op>, c: seq<Op>)
    requires Stays(g, scope, a) && Apply(g, a).result.Ok? && Stays(Apply(g, a).graph, scope, c)
    ensures Stays(g, scope, a + c) && Delta(a + c) == Delta(a) + Delta(c)
    decreases |a|
  {
    hide Journal.After, Failed, InThisScope, PassOp, Growth;
    if a == [] {
      assert a + c == c;
    } else {
      assert (a + c)[0] == a[0] && (a + c)[1..] == a[1..] + c;
      StaysAppend(Journal.After(g, a[0]), scope, a[1..], c);
    }
  }

  function GrownBy(op: GlobalOp): int {
    match op
    case Merging(_, absorbed, _, _) => -|absorbed|
    case Splitting(_, parts, _) => |parts| - 1
    case _ => 0
  }

  lemma CallsStay(g: Graph, scope: string, op: GlobalOp, now: int)
    requires forall n :: n in Claimed(op) ==> GlobalAnswer.InScope(BookOf(g), scope, n)
    ensures Stays(g, scope, Calls(BookOf(g), scope, op, now)) && Delta(Calls(BookOf(g), scope, op, now)) == GrownBy(op)
  {
    hide Journal.After, NodeId, Fills, States, Retires, Stays, Delta;
    var calls := Calls(BookOf(g), scope, op, now);
    match op
    case Merging(survivor, _, _, _) =>
      assert survivor in Claimed(op);
      LoudFirst(g, scope, calls);
    case Splitting(node, parts, contents) =>
      assert node in Claimed(op);
      FillsArePass(g.sequence, parts, contents, now);
      LoudFirst(g, scope, calls);
    case Rewriting(node, _, _, relations, retired) =>
      StatesArePass(scope, node, relations, now);
      RetiresArePass(retired);
      QuietStays(g, scope, calls);
    case _ => QuietStays(g, scope, calls);
  }

  lemma LoudFirst(g: Graph, scope: string, calls: seq<Op>)
    requires calls != [] && PassOp(calls[0]) && InThisScope(g, scope, calls[0])
    requires forall i :: 0 < i < |calls| ==> calls[i].Rewrite?
    ensures Stays(g, scope, calls) && Delta(calls) == Growth(calls[0])
  {
    hide Journal.After, Growth;
    assert forall i :: 0 <= i < |calls[1..]| ==> calls[1..][i] == calls[i + 1];
    QuietStays(Journal.After(g, calls[0]), scope, calls[1..]);
  }

  lemma {:induction false} AnswerStays(g: Graph, scope: string, ops: seq<GlobalOp>, now: int)
    requires WellFormed(g) && Pending(BookOf(g), scope, ops) && AllEmbedded(ops) && AllFind(BookOf(g), scope, ops, now)
    ensures var calls := CallsAll(BookOf(g), scope, ops, now); Stays(g, scope, calls) && Delta(calls) == Grown(ops)
    decreases |ops|
  {
    hide WellFormed, BookOf, Pending, AllFit, NotedAll, Finds, Calls, Embedded, Apply, Stays, Claimed, GlobalAnswer.InScope;
    if ops == [] {
      QuietStays(g, scope, []);
    } else {
      var b, calls := BookOf(g), Calls(BookOf(g), scope, ops[0], now);
      assert Embedded(ops[0]) && AllEmbedded(ops[1..]);
      PendingFirst(b, scope, ops);
      PendingRest(b, scope, ops, now);
      CallsStay(g, scope, ops[0], now);
      CallsArePass(b, scope, ops[0], now);
      PassFitsExactly(g, calls);
      AnswerStays(Apply(g, calls).graph, scope, ops[1..], now);
      StaysAppend(g, scope, calls, CallsAll(NotedAll(b, calls), scope, ops[1..], now));
      GrownFirst(ops);
    }
  }

  lemma GrownFirst(ops: seq<GlobalOp>)
    requires ops != []
    ensures Grown(ops) == GrownBy(ops[0]) + Grown(ops[1..])
  {
  }

  /** An accepted answer that applies whole leaves exactly the projected count, within
      the budget. */
  lemma AcceptedWithinBudget(g: Graph, scope: string, ops: seq<GlobalOp>, rules: Rules, now: int)
    requires WellFormed(g) && Accepted(BookOf(g), scope, ops, rules) && AllEmbedded(ops)
    requires Apply(g, CallsAll(BookOf(g), scope, ops, now)).result.Ok?
    ensures var g' := Apply(g, CallsAll(BookOf(g), scope, ops, now)).graph;
            WellFormed(g') && Count(g', scope) == Count(g, scope) + Grown(ops) <= rules.maxNodes
  {
    hide WellFormed, BookOf, Pending, AllFind, CallsAll, Embedded, Apply, Stays, Size, Count, Checked;
    AppliesWholeExactly(g, scope, ops, rules, now);
    AnswerStays(g, scope, ops, now);
    PassCounts(g, scope, CallsAll(BookOf(g), scope, ops, now));
    SizeIsCount(g, scope);
  }

  // ------------------------------------------------- the slate and nothing else

  /** What the model decides about one forced merge: the type and the lines. */
  datatype Wording = Wording(typ: string, content: Content)

  function SlateOps(pairs: seq<MergePair>, words: seq<Wording>): seq<GlobalOp>
    requires |words| == |pairs|
  {
    if pairs == [] then []
    else [Merging(pairs[0].survivor, [pairs[0].doomed], words[0].typ, words[0].content)] + SlateOps(pairs[1..], words[1..])
  }

  lemma {:induction false} SlateOpsAre(pairs: seq<MergePair>, words: seq<Wording>)
    requires |words| == |pairs|
    ensures |SlateOps(pairs, words)| == |pairs| && Grown(SlateOps(pairs, words)) == -|pairs|
    ensures forall i :: 0 <= i < |pairs| ==>
              SlateOps(pairs, words)[i] == Merging(pairs[i].survivor, [pairs[i].doomed], words[i].typ, words[i].content)
  {
    if pairs != [] { SlateOpsAre(pairs[1..], words[1..]); }
  }

  predicate Named(pairs: seq<MergePair>, n: Id) { exists i :: 0 <= i < |pairs| && n in {pairs[i].doomed, pairs[i].survivor} }

  lemma {:induction false} SlateClaims(pairs: seq<MergePair>, words: seq<Wording>, n: Id)
    requires |words| == |pairs|
    ensures n in ClaimedAll(SlateOps(pairs, words)) <==> Named(pairs, n)
  {
    if pairs != [] {
      var p, rest := pairs[0], pairs[1..];
      SlateClaims(rest, words[1..], n);
      assert Claimed(SlateOps(pairs, words)[0]) == [p.survivor] + [p.doomed];
      assert Named(pairs, n) <==> n in {p.doomed, p.survivor} || Named(rest, n) by {
        if n in {p.doomed, p.survivor} { assert n in {pairs[0].doomed, pairs[0].survivor}; }
        if Named(rest, n) {
          var i :| 0 <= i < |rest| && n in {rest[i].doomed, rest[i].survivor};
          assert pairs[i + 1] == rest[i];
        }
        if Named(pairs, n) && n !in {p.doomed, p.survivor} {
          var i :| 0 <= i < |pairs| && n in {pairs[i].doomed, pairs[i].survivor};
          assert rest[i - 1] == pairs[i];
        }
      }
    }
  }

  ghost predicate Disjoint(pairs: seq<MergePair>) {
    && (forall i :: 0 <= i < |pairs| ==> pairs[i].doomed != pairs[i].survivor)
    && forall i, j :: 0 <= i < j < |pairs| ==> Apart(pairs[i], pairs[j])
  }

  lemma {:induction false} SlateClaimsOnce(pairs: seq<MergePair>, words: seq<Wording>)
    requires |words| == |pairs| && Disjoint(pairs)
    ensures NoRepeats(ClaimedAll(SlateOps(pairs, words)))
  {
    hide NoRepeats;
    if pairs == [] {
      Unrepeating();
    } else {
      var rest := pairs[1..];
      assert forall i :: 0 <= i < |rest| ==> rest[i] == pairs[i + 1];
      SlateClaimsOnce(rest, words[1..]);
      var p, c := pairs[0], ClaimedAll(SlateOps(rest, words[1..]));
      forall n | n in c ensures n != p.doomed && n != p.survivor {
        SlateClaims(rest, words[1..], n);
        var i :| 0 <= i < |rest| && n in {rest[i].doomed, rest[i].survivor};
        assert Apart(pairs[0], pairs[i + 1]);
      }
      PairJoins(p.survivor, p.doomed, c);
      assert Claimed(SlateOps(pairs, words)[0]) == [p.survivor] + [p.doomed];
    }
  }

  lemma Unrepeating()
    ensures NoRepeats([])
  {
  }

  lemma PairJoins(a: Id, b: Id, rest: seq<Id>)
    requires a != b && a !in rest && b !in rest && NoRepeats(rest)
    ensures NoRepeats([a] + [b] + rest)
  {
    var all := [a] + [b] + rest;
    assert forall i :: 2 <= i < |all| ==> all[i] == rest[i - 2];
  }

  /** The nodes valued for a slate are the scope's own. */
  ghost predicate Values(nodes: set<ValuedNode>, g: Graph, scope: string) {
    OneNodeEach(nodes) && forall n :: n in InScopeIds(g, scope) <==> exists v :: v in nodes && v.id == n
  }

  lemma SlateInScope(t: Ties, nodes: set<ValuedNode>, pairs: seq<MergePair>, g: Graph, scope: string)
    requires Values(nodes, g, scope) && IsSlate(t, nodes, pairs)
    ensures Disjoint(pairs)
    ensures forall i :: 0 <= i < |pairs| ==>
              InScopeNode(g, scope, pairs[i].doomed) && InScopeNode(g, scope, pairs[i].survivor)
  {
    hide IsSlate;
    SlateIsDisjoint(t, nodes, pairs);
    forall i | 0 <= i < |pairs|
      ensures pairs[i].doomed != pairs[i].survivor
      ensures InScopeNode(g, scope, pairs[i].doomed) && InScopeNode(g, scope, pairs[i].survivor)
    {
      assert Slate.Sensible(nodes, pairs[i]);
      var d, s :| ValueOf(nodes, pairs[i].doomed, d) && ValueOf(nodes, pairs[i].survivor, s) && d <= s;
      assert ValuedNode(pairs[i].doomed, d) in nodes && ValuedNode(pairs[i].survivor, s) in nodes;
      assert pairs[i].doomed in InScopeIds(g, scope) && pairs[i].survivor in InScopeIds(g, scope);
    }
  }

  /** Delivering the mandated pairs and nothing else is accepted, when no edge type
      has to go. */
  lemma SlateAnswerAccepted(t: Ties, nodes: set<ValuedNode>, pairs: seq<MergePair>, words: seq<Wording>, g: Graph,
                            scope: string, rules: Rules)
    requires Values(nodes, g, scope) && IsSlate(t, nodes, pairs) && |words| == |pairs|
    requires rules.slate == pairs && rules.doomed == {} && Count(g, scope) - |pairs| <= rules.maxNodes
    ensures Accepted(BookOf(g), scope, SlateOps(pairs, words), rules)
  {
    hide IsSlate, Values, Count, Size, SlateOps, Disjoint, InScopeNode, GlobalAnswer.InScope, Pending, Checked, Delivers;
    var ops := SlateOps(pairs, words);
    SlatePending(t, nodes, pairs, words, g, scope);
    SlateOpsAre(pairs, words);
    SizeIsCount(g, scope);
    forall i | 0 <= i < |ops| ensures ops[i].Merging? && Checked(BookOf(g), scope, ops[i], rules) {
      MergingChecked(BookOf(g), scope, ops[i], rules);
    }
    forall pair | pair in rules.slate
      ensures exists i :: 0 <= i < |ops| && Delivers(ops[i], pair)
                          && (ops[i].survivor == pair.survivor || (pair.doomed, pair.survivor) in rules.interchangeable)
    {
      var i :| 0 <= i < |pairs| && pairs[i] == pair;
      PairDelivered(pair, words[i]);
      assert Delivers(ops[i], pair) && ops[i].survivor == pair.survivor;
    }
  }

  lemma MergingChecked(b: Book, scope: string, op: GlobalOp, rules: Rules)
    requires op.Merging?
    ensures Checked(b, scope, op, rules)
  {
  }

  lemma PairDelivered(pair: MergePair, w: Wording)
    ensures Delivers(Merging(pair.survivor, [pair.doomed], w.typ, w.content), pair)
  {
    assert Claimed(Merging(pair.survivor, [pair.doomed], w.typ, w.content)) == [pair.survivor, pair.doomed];
  }

  lemma SlatePending(t: Ties, nodes: set<ValuedNode>, pairs: seq<MergePair>, words: seq<Wording>, g: Graph, scope: string)
    requires Values(nodes, g, scope) && IsSlate(t, nodes, pairs) && |words| == |pairs|
    ensures Pending(BookOf(g), scope, SlateOps(pairs, words))
  {
    hide IsSlate, Values, SlateOps, NoRepeats, Disjoint, InScopeNode, GlobalAnswer.InScope, ClaimedAll;
    var ops := SlateOps(pairs, words);
    SlateInScope(t, nodes, pairs, g, scope);
    SlateOpsAre(pairs, words);
    SlateClaimsOnce(pairs, words);
    forall n | n in ClaimedAll(ops) ensures GlobalAnswer.InScope(BookOf(g), scope, n) {
      SlateClaims(pairs, words, n);
      var i :| 0 <= i < |pairs| && n in {pairs[i].doomed, pairs[i].survivor};
      InScopeBooked(g, scope, n);
    }
  }

  lemma InScopeBooked(g: Graph, scope: string, n: Id)
    ensures GlobalAnswer.InScope(BookOf(g), scope, n) <==> InScopeNode(g, scope, n)
  {
  }

  predicate Legible(b: Book, n: Id) { n in b.nodes && !Blank(b.nodes[n].name) }

  /** No merge of the slate absorbs a blank name. */
  ghost predicate AllLegible(b: Book, pairs: seq<MergePair>) { forall i :: 0 <= i < |pairs| ==> Legible(b, pairs[i].doomed) }

  lemma FirstFinds(b: Book, scope: string, pairs: seq<MergePair>, words: seq<Wording>, now: int)
    requires pairs != [] && |words| == |pairs| && Pending(b, scope, SlateOps(pairs, words))
    requires AllEmbedded(SlateOps(pairs, words))
    ensures var op := SlateOps(pairs, words)[0];
            && (Finds(b, scope, op, now) <==> Legible(b, pairs[0].doomed))
            && NotedAll(b, Calls(b, scope, op, now)).nodes == b.nodes - {pairs[0].doomed}
  {
    hide Pending, NotedAll, Calls, Blank, Embedded;
    var ops := SlateOps(pairs, words);
    assert Embedded(ops[0]);
    PendingFirst(b, scope, ops);
    MergingFits(b, scope, ops[0], now);
    assert [pairs[0].doomed][0] == pairs[0].doomed && Members([pairs[0].doomed]) == {pairs[0].doomed};
    ClaimedApart(ops[0]);
    assert GlobalAnswer.InScope(b, scope, pairs[0].doomed);
  }

  lemma RestLegible(b: Book, scope: string, pairs: seq<MergePair>, words: seq<Wording>, nodes: map<Id, Label>)
    requires pairs != [] && |words| == |pairs| && Pending(b, scope, SlateOps(pairs, words))
    requires nodes == b.nodes - {pairs[0].doomed}
    ensures AllLegible(b, pairs) <==> Legible(b, pairs[0].doomed) && AllLegible(b.(nodes := nodes), pairs[1..])
  {
    hide Pending, Blank;
    var ops, rest := SlateOps(pairs, words), pairs[1..];
    PendingFirst(b, scope, ops);
    assert Claimed(ops[0]) == [pairs[0].survivor] + [pairs[0].doomed];
    assert pairs[0].doomed in Claimed(ops[0]);
    forall i | 0 <= i < |rest|
      ensures Legible(b, rest[i].doomed) <==> Legible(b.(nodes := nodes), rest[i].doomed)
    {
      SlateClaims(rest, words[1..], rest[i].doomed);
      assert Named(rest, rest[i].doomed) by { assert rest[i].doomed in {rest[i].doomed, rest[i].survivor}; }
    }
    if AllLegible(b, pairs) { forall i | 0 <= i < |rest| ensures Legible(b, rest[i].doomed) { assert pairs[i + 1] == rest[i]; } }
    if Legible(b, pairs[0].doomed) && AllLegible(b.(nodes := nodes), rest) {
      forall i | 0 <= i < |pairs| ensures Legible(b, pairs[i].doomed) { if i > 0 { assert pairs[i] == rest[i - 1]; } }
    }
  }

  lemma LegibleReadsNodes(b: Book, b': Book, pairs: seq<MergePair>)
    requires b'.nodes == b.nodes
    ensures AllLegible(b', pairs) <==> AllLegible(b, pairs)
  {
    hide Blank;
    assert forall n :: Legible(b', n) <==> Legible(b, n);
  }

  lemma {:induction false} SlateFinds(b: Book, scope: string, pairs: seq<MergePair>, words: seq<Wording>, now: int)
    requires |words| == |pairs| && Pending(b, scope, SlateOps(pairs, words)) && AllEmbedded(SlateOps(pairs, words))
    ensures AllFind(b, scope, SlateOps(pairs, words), now) <==> AllLegible(b, pairs)
    ensures forall n :: n in NotedAll(b, CallsAll(b, scope, SlateOps(pairs, words), now)).nodes ==>
              n in b.nodes && NotedAll(b, CallsAll(b, scope, SlateOps(pairs, words), now)).nodes[n] == b.nodes[n]
    decreases |pairs|
  {
    hide Pending, NotedAll, Calls, Embedded, Finds, Legible;
    var ops := SlateOps(pairs, words);
    if pairs != [] {
      assert Embedded(ops[0]) && AllEmbedded(ops[1..]);
      PendingRest(b, scope, ops, now);
      FirstFinds(b, scope, pairs, words, now);
      var calls := Calls(b, scope, ops[0], now);
      var next := NotedAll(b, calls);
      RestLegible(b, scope, pairs, words, next.nodes);
      LegibleReadsNodes(b.(nodes := next.nodes), next, pairs[1..]);
      SlateFinds(next, scope, pairs[1..], words[1..], now);
      AllFitAppend(b, calls, CallsAll(next, scope, ops[1..], now));
    } else {
      NothingToFit(b);
    }
  }

  /** The slate is sufficient: delivering exactly the mandated pairs is accepted, goes
      through exactly when no doomed node has a blank name, and then removes exactly
      one node a pair. */
  lemma SlateSuffices(t: Ties, nodes: set<ValuedNode>, pairs: seq<MergePair>, words: seq<Wording>, g: Graph, scope: string,
                      rules: Rules, now: int)
    requires WellFormed(g) && Values(nodes, g, scope) && IsSlate(t, nodes, pairs)
    requires |words| == |pairs| && AllEmbedded(SlateOps(pairs, words))
    requires rules.slate == pairs && rules.doomed == {} && Count(g, scope) - |pairs| <= rules.maxNodes
    ensures Accepted(BookOf(g), scope, SlateOps(pairs, words), rules)
    ensures var done := Apply(g, CallsAll(BookOf(g), scope, SlateOps(pairs, words), now));
            && (done.result.Ok? <==> AllLegible(BookOf(g), pairs))
            && (done.result.Ok? ==> WellFormed(done.graph) && Count(done.graph, scope) == Count(g, scope) - |pairs|)
  {
    hide WellFormed, Values, IsSlate, Apply, CallsAll, AllFind, AllEmbedded, Count, BookOf, Pending, Size, AllLegible;
    var ops := SlateOps(pairs, words);
    SlateAnswerAccepted(t, nodes, pairs, words, g, scope, rules);
    SlateFinds(BookOf(g), scope, pairs, words, now);
    AppliesWholeExactly(g, scope, ops, rules, now);
    if AllLegible(BookOf(g), pairs) { AcceptedWithinBudget(g, scope, ops, rules, now); }
    SlateOpsAre(pairs, words);
  }

  ghost predicate Readable(g: Graph) { forall n :: n in g.nodes ==> !Blank(g.nodes[n].name) }

  lemma ReadableIsLegible(g: Graph, scope: string, t: Ties, nodes: set<ValuedNode>, pairs: seq<MergePair>)
    requires Readable(g) && Values(nodes, g, scope) && IsSlate(t, nodes, pairs)
    ensures AllLegible(BookOf(g), pairs)
  {
    hide Values, IsSlate, Blank;
    SlateInScope(t, nodes, pairs, g, scope);
  }

  /** A pass of forced merges leaves no name blank. */
  lemma SlateKeepsReadable(t: Ties, nodes: set<ValuedNode>, pairs: seq<MergePair>, words: seq<Wording>, g: Graph,
                           scope: string, now: int)
    requires WellFormed(g) && Readable(g) && Values(nodes, g, scope) && IsSlate(t, nodes, pairs)
    requires |words| == |pairs| && AllEmbedded(SlateOps(pairs, words))
    ensures Readable(Apply(g, CallsAll(BookOf(g), scope, SlateOps(pairs, words), now)).graph)
  {
    hide WellFormed, Values, IsSlate, Apply, CallsAll, AllFind, AllEmbedded, Pending, AllLegible, Blank, AllFit, NotedAll;
    var ops, b := SlateOps(pairs, words), BookOf(g);
    SlatePending(t, nodes, pairs, words, g, scope);
    SlateFinds(b, scope, pairs, words, now);
    ReadableIsLegible(g, scope, t, nodes, pairs);
    CallsFitExactly(b, scope, ops, now);
    CallsArePassOps(b, scope, ops, now);
    PassFitsExactly(g, CallsAll(b, scope, ops, now));
    var g' := Apply(g, CallsAll(b, scope, ops, now)).graph;
    forall n | n in g'.nodes ensures !Blank(g'.nodes[n].name) {
      assert n in BookOf(g').nodes && BookOf(g').nodes[n] == b.nodes[n];
    }
  }

  // ------------------------------------------------------- the forced passes

  /** An answer, the rules it was checked against and the clock. */
  datatype Answer = Answer(ops: seq<GlobalOp>, rules: Rules, now: int)

  /** One pass of the loop: nothing once the target is met, otherwise an accepted
      answer under a budget half the scope can meet, applied whole. */
  ghost predicate ForcedStep(g: Graph, scope: string, target: nat, a: Answer, g': Graph) {
    if Count(g, scope) <= target then g' == g
    else
      && a.rules.maxNodes == Reachable(Count(g, scope), target) && AllEmbedded(a.ops)
      && Accepted(BookOf(g), scope, a.ops, a.rules)
      && var done := Apply(g, CallsAll(BookOf(g), scope, a.ops, a.now)); done.result.Ok? && done.graph == g'
  }

  /** The slate is such a pass, and leaves a graph it can be taken from again: a forced
      run can always go on. */
  lemma SlateIsForced(t: Ties, nodes: set<ValuedNode>, pairs: seq<MergePair>, words: seq<Wording>, g: Graph, scope: string,
                      target: nat, now: int)
    requires WellFormed(g) && Readable(g) && Values(nodes, g, scope) && IsSlate(t, nodes, pairs)
    requires |words| == |pairs| && AllEmbedded(SlateOps(pairs, words)) && target >= 1 && Count(g, scope) > target
    requires Pressure(Count(g, scope), Reachable(Count(g, scope), target)) == Ok(|pairs|)
    ensures var a := Answer(SlateOps(pairs, words), Rules(pairs, {}, {}, Reachable(Count(g, scope), target)), now);
            var g' := Apply(g, CallsAll(BookOf(g), scope, a.ops, now)).graph;
            ForcedStep(g, scope, target, a, g') && WellFormed(g') && Readable(g')
  {
    hide WellFormed, Readable, Values, IsSlate, Apply, CallsAll, AllEmbedded, Count, BookOf, Accepted, SlateOps, AllLegible;
    PassFeasible(Count(g, scope), target);
    ReadableIsLegible(g, scope, t, nodes, pairs);
    SlateKeepsReadable(t, nodes, pairs, words, g, scope, now);
    SlateSuffices(t, nodes, pairs, words, g, scope, Rules(pairs, {}, {}, Reachable(Count(g, scope), target)), now);
  }

  /** The store before and after each pass. */
  ghost predicate ForcedRun(graphs: seq<Graph>, scope: string, target: nat, answers: seq<Answer>) {
    |graphs| == |answers| + 1 && WellFormed(graphs[0])
    && forall i :: 0 <= i < |answers| ==> ForcedStep(graphs[i], scope, target, answers[i], graphs[i + 1])
  }

  lemma StepHalves(g: Graph, scope: string, target: nat, a: Answer, g': Graph)
    requires WellFormed(g) && ForcedStep(g, scope, target, a, g')
    ensures WellFormed(g')
    ensures Count(g', scope) <= target || Count(g', scope) <= Count(g, scope) - Count(g, scope) / 2
    ensures Count(g, scope) > target ==> Count(g', scope) == Count(g, scope) + Grown(a.ops)
  {
    hide WellFormed, Accepted, Apply, CallsAll, AllEmbedded, Count, BookOf;
    if Count(g, scope) > target { AcceptedWithinBudget(g, scope, a.ops, a.rules, a.now); }
  }

  /** After k passes over real graphs, whatever the answers: the target, or one
      halving a pass, which is ceil(c / 2^k). */
  lemma {:induction false} ForcedRunHalves(graphs: seq<Graph>, scope: string, target: nat, answers: seq<Answer>, k: nat)
    requires target >= 1 && ForcedRun(graphs, scope, target, answers) && k <= |answers|
    ensures WellFormed(graphs[k])
    ensures Power(k) > 0
    ensures Count(graphs[k], scope) <= target ||
            Count(graphs[k], scope) <= (Count(graphs[0], scope) + Power(k) - 1) / Power(k)
    decreases k
  {
    hide WellFormed, ForcedStep, Count, Power;
    HalvedIsCeiling(Count(graphs[0], scope), k);
    if k > 0 {
      ForcedRunHalves(graphs, scope, target, answers, k - 1);
      HalvedIsCeiling(Count(graphs[0], scope), k - 1);
      assert ForcedStep(graphs[k - 1], scope, target, answers[k - 1], graphs[k - 1 + 1]);
      StepHalves(graphs[k - 1], scope, target, answers[k - 1], graphs[k]);
      StepMeets(graphs[k - 1], scope, target, answers[k - 1], graphs[k]);
      if Count(graphs[k - 1], scope) > target {
        HalvedOnce(Count(graphs[0], scope), k - 1);
        HalvingIsMonotone(Count(graphs[k - 1], scope), HalvedUp(Count(graphs[0], scope), k - 1), 1);
        HalvedOne(Count(graphs[k - 1], scope));
      }
    }
  }

  lemma StepMeets(g: Graph, scope: string, target: nat, a: Answer, g': Graph)
    requires ForcedStep(g, scope, target, a, g')
    ensures Count(g, scope) <= target ==> g' == g
  {
    hide Count;
  }

  lemma HalvedOne(count: nat)
    ensures HalvedUp(count, 1) == count - count / 2
  {
    assert HalvedUp(count - count / 2, 0) == count - count / 2;
  }

  lemma {:induction false} HalvedOnce(count: nat, k: nat)
    ensures HalvedUp(count, k + 1) == HalvedUp(HalvedUp(count, k), 1)
    decreases k
  {
    if k > 0 { HalvedOnce(count - count / 2, k - 1); }
  }

  /** Answers that deliver the slate and nothing else. */
  ghost predicate SlateOnly(graphs: seq<Graph>, scope: string, target: nat, answers: seq<Answer>) {
    |graphs| == |answers| + 1 &&
    forall i :: 0 <= i < |answers| && Count(graphs[i], scope) > target ==>
                  exists pairs, words: seq<Wording> {:trigger SlateOps(pairs, words)} ::
                    |words| == |pairs| && Pressure(Count(graphs[i], scope), answers[i].rules.maxNodes) == Ok(|pairs|)
                    && answers[i].ops == SlateOps(pairs, words)
  }

  lemma SlateStepExactly(g: Graph, scope: string, target: nat, a: Answer, g': Graph, pairs: seq<MergePair>,
                         words: seq<Wording>)
    requires WellFormed(g) && target >= 1 && ForcedStep(g, scope, target, a, g') && Count(g, scope) > target
    requires |words| == |pairs| && Pressure(Count(g, scope), a.rules.maxNodes) == Ok(|pairs|) && a.ops == SlateOps(pairs, words)
    ensures Count(g', scope) == Reachable(Count(g, scope), target)
  {
    hide WellFormed, Accepted, Apply, CallsAll, AllEmbedded, Count, BookOf;
    StepHalves(g, scope, target, a, g');
    SlateOpsAre(pairs, words);
    PassFeasible(Count(g, scope), target);
  }

  /** Such a run lands exactly on max(N, ceil(c / 2^k)), or stays under N. */
  lemma {:induction false} SlateRunExactly(graphs: seq<Graph>, scope: string, target: nat, answers: seq<Answer>)
    requires target >= 1 && ForcedRun(graphs, scope, target, answers) && SlateOnly(graphs, scope, target, answers)
    ensures Count(graphs[|answers|], scope) == Squeezed(Count(graphs[0], scope), target, |answers|)
    decreases |answers|
  {
    hide WellFormed, ForcedStep, Count;
    if answers != [] {
      assert ForcedStep(graphs[0], scope, target, answers[0], graphs[0 + 1]);
      StepHalves(graphs[0], scope, target, answers[0], graphs[1]);
      StepMeets(graphs[0], scope, target, answers[0], graphs[1]);
      RunTail(graphs, scope, target, answers);
      SlateRunExactly(graphs[1..], scope, target, answers[1..]);
      if Count(graphs[0], scope) > target {
        var pairs, words: seq<Wording> :|
          |words| == |pairs| && Pressure(Count(graphs[0], scope), answers[0].rules.maxNodes) == Ok(|pairs|)
          && answers[0].ops == SlateOps(pairs, words);
        SlateStepExactly(graphs[0], scope, target, answers[0], graphs[1], pairs, words);
      } else {
        SqueezedDone(Count(graphs[0], scope), target, |answers|);
        SqueezedDone(Count(graphs[0], scope), target, |answers| - 1);
      }
    }
  }

  lemma SqueezedDone(count: nat, target: nat, passes: nat)
    requires count <= target
    ensures Squeezed(count, target, passes) == count
  {
  }

  lemma RunTail(graphs: seq<Graph>, scope: string, target: nat, answers: seq<Answer>)
    requires ForcedRun(graphs, scope, target, answers) && SlateOnly(graphs, scope, target, answers) && answers != []
    requires WellFormed(graphs[1])
    ensures ForcedRun(graphs[1..], scope, target, answers[1..]) && SlateOnly(graphs[1..], scope, target, answers[1..])
  {
    hide WellFormed, ForcedStep, Count, SlateOps;
    forall i | 0 <= i < |answers[1..]|
      ensures ForcedStep(graphs[1..][i], scope, target, answers[1..][i], graphs[1..][i + 1])
    {
      assert ForcedStep(graphs[i + 1], scope, target, answers[i + 1], graphs[i + 1 + 1]);
    }
  }

  const MAX_FORCED_PASSES: nat := 6

  /** Six forced passes over real graphs reach the bound exactly when the scope was at
      most 64 times over it. */
  lemma SixPassesSuffice(graphs: seq<Graph>, scope: string, target: nat, answers: seq<Answer>)
    requires target >= 1 && ForcedRun(graphs, scope, target, answers) && SlateOnly(graphs, scope, target, answers)
    requires |answers| == MAX_FORCED_PASSES
    ensures Count(graphs[MAX_FORCED_PASSES], scope) <= target <==> Count(graphs[0], scope) <= 64 * target
  {
    hide ForcedStep, SlateOnly, Count;
    SlateRunExactly(graphs, scope, target, answers);
    SixSqueezes(Count(graphs[0], scope), target);
  }

  lemma SixSqueezes(count: nat, target: nat)
    requires target >= 1
    ensures Squeezed(count, target, MAX_FORCED_PASSES) <= target <==> count <= 64 * target
  {
    if count > target {
      SqueezedIs(count, target, MAX_FORCED_PASSES);
      HalvedIsCeiling(count, MAX_FORCED_PASSES);
      assert Power(6) == 64 by { assert Power(1) == 2 && Power(2) == 4 && Power(3) == 8 && Power(4) == 16 && Power(5) == 32; }
      var q := (count + 63) / 64;
      assert q * 64 <= count + 63 < q * 64 + 64;
    }
  }

  /** Each answer the loop comes to use is accepted against the graph the passes before
      it have left, under the budget that graph can meet, and applies whole. */
  ghost predicate Answered(g: Graph, scope: string, target: nat, answers: seq<Answer>)
    decreases |answers|
  {
    answers == [] || Count(g, scope) <= target ||
    (ForcedStep(g, scope, target, answers[0], Passed(g, scope, answers[0]))
     && Answered(Passed(g, scope, answers[0]), scope, target, answers[1..]))
  }

  ghost function Passed(g: Graph, scope: string, a: Answer): Graph {
    Apply(g, CallsAll(BookOf(g), scope, a.ops, a.now)).graph
  }

  /** The loop: a pass at a time while the scope is over the target and answers are left.
      It stops at the first graph within the target; out of answers, it has halved the
      scope once an answer. */
  ghost method ForcedPasses(g: Graph, scope: string, target: nat, answers: seq<Answer>)
    returns (graphs: seq<Graph>, used: nat)
    requires target >= 1 && WellFormed(g) && Answered(g, scope, target, answers)
    ensures used <= |answers| && |graphs| == used + 1 && graphs[0] == g
    ensures ForcedRun(graphs, scope, target, answers[..used])
    ensures forall i :: 0 <= i < used ==> Count(graphs[i], scope) > target
    ensures used < |answers| ==> Count(graphs[used], scope) <= target
    ensures Count(graphs[used], scope) <= target || Count(graphs[used], scope) <= HalvedUp(Count(g, scope), |answers|)
  {
    hide WellFormed, ForcedStep, Count, Power, Passed;
    graphs, used := [g], 0;
    while used < |answers| && Count(graphs[used], scope) > target
      invariant used <= |answers| && |graphs| == used + 1 && graphs[0] == g
      invariant ForcedRun(graphs, scope, target, answers[..used])
      invariant Answered(graphs[used], scope, target, answers[used..])
      invariant forall i :: 0 <= i < used ==> Count(graphs[i], scope) > target
    {
      var a := answers[used];
      assert a == answers[used..][0] && answers[used..][1..] == answers[used + 1..];
      RunGrows(graphs, scope, target, answers[..used], a, Passed(graphs[used], scope, a));
      assert answers[..used] + [a] == answers[..used + 1];
      graphs := graphs + [Passed(graphs[used], scope, a)];
      used := used + 1;
    }
    ForcedRunHalves(graphs, scope, target, answers[..used], used);
    HalvedIsCeiling(Count(g, scope), used);
  }

  lemma RunGrows(graphs: seq<Graph>, scope: string, target: nat, answers: seq<Answer>, a: Answer, g': Graph)
    requires ForcedRun(graphs, scope, target, answers) && ForcedStep(graphs[|answers|], scope, target, a, g')
    ensures ForcedRun(graphs + [g'], scope, target, answers + [a])
  {
    hide WellFormed, ForcedStep;
    var longer, all := graphs + [g'], answers + [a];
    forall i | 0 <= i < |all| ensures ForcedStep(longer[i], scope, target, all[i], longer[i + 1]) {
      if i < |answers| { assert ForcedStep(graphs[i], scope, target, answers[i], graphs[i + 1]); }
    }
  }
}
