/** The global dream pass: what an accepted batch of operations does to the two
    budgets, `N` nodes and `M` edge types. */
module GlobalPass {
  import opened Ids
  import opened Surfaces
  import opened GraphModel
  import opened EdgeFold
  import opened GraphOps
  import opened Journal
  import opened Slate

  function InScopeIds(g: Graph, scope: string): set<Id> { set n | n in g.nodes && g.nodes[n].scope == scope }

  function Count(g: Graph, scope: string): nat { |InScopeIds(g, scope)| }

  /** The store calls of one pass, in order; an error stops it where it stands. */
  ghost function Apply(g: Graph, ops: seq<Op>): Done<()>
    decreases |ops|
  {
    if ops == [] then Done(g, Ok(()))
    else if Failed(g, ops[0]).Some? then Done(Stopped(g, ops[0]), Err(Failed(g, ops[0]).value))
    else Apply(After(g, ops[0]), ops[1..])
  }

  /** What a failing call leaves. A pass unites the surfaces of a merge, to embed them,
      before it makes the call, so a blank one stops it while the nodes still stand. */
  ghost function Stopped(g: Graph, op: Op): Graph {
    if op.Merge? && BlankSurface(g, op.survivor, op.absorbed) then g else After(g, op)
  }

  predicate BlankSurface(g: Graph, survivor: Id, absorbed: seq<Id>) {
    survivor in g.nodes && (forall a :: a in absorbed ==> a in g.nodes)
    && AnyBlank(g.nodes[survivor].aliases + AbsorbedSurfaces(g.nodes, absorbed))
  }

  /** The error a call raises. */
  ghost function Failed(g: Graph, op: Op): Option<Error> {
    match op
    case Create(scope, name, typ, facts, embedding, now, aliases) =>
      ErrorOf(CreateNode(g, scope, name, typ, facts, embedding, now, aliases).result)
    case Alias(id, names) => ErrorOf(AddAliases(g, id, names).result)
    case Rewrite(id, facts, typ, embedding, now) => ErrorOf(ReplaceFacts(g, id, facts, typ, embedding, now).result)
    case Merge(survivor, absorbed, name, typ, facts, embedding, now) =>
      ErrorOf(MergeNodes(g, survivor, absorbed, name, typ, facts, embedding, now).result)
    case Split(id, parts, now) => ErrorOf(SplitNode(g, id, parts, now).result)
    case Upsert(scope, source, target, typ, claim, entryIds, until, now) =>
      ErrorOf(UpsertRelation(g, scope, source, target, typ, claim, entryIds, until, now).result)
    case Retire(id) => ErrorOf(RetireRelation(g, id).result)
    case Rename(scope, was, becomes) => ErrorOf(RenameEdgeType(g, scope, was, becomes).result)
    case _ => None
  }

  function ErrorOf<T>(out: Outcome<T>): Option<Error> {
    match out case Ok(_) => None case Err(e) => Some(e)
  }

  /** A pass merges, splits, rewrites, states and retires edges, and renames types. */
  predicate PassOp(op: Op) { op.Merge? || op.Split? || op.Rewrite? || op.Upsert? || op.Retire? || op.Rename? }

  /** Nodes the op adds, as the validator counts them. */
  function Growth(op: Op): int {
    if op.Merge? then -|op.absorbed| else if op.Split? then |op.parts| - 1 else 0
  }

  function Delta(ops: seq<Op>): int { if ops == [] then 0 else Growth(ops[0]) + Delta(ops[1..]) }

  ghost predicate InThisScope(g: Graph, scope: string, op: Op) {
    match op
    case Merge(survivor, _, _, _, _, _, _) => InScopeNode(g, scope, survivor)
    case Split(id, _, _) => InScopeNode(g, scope, id)
    case _ => true
  }

  predicate InScopeNode(g: Graph, scope: string, n: Id) { n in g.nodes && g.nodes[n].scope == scope }

  ghost predicate Stays(g: Graph, scope: string, ops: seq<Op>)
    decreases |ops|
  {
    ops == [] || (PassOp(ops[0]) && InThisScope(g, scope, ops[0]) && Stays(After(g, ops[0]), scope, ops[1..]))
  }

  // ------------------------------------------------------------ node budget

  lemma RemovedCount(a: set<Id>, gone: set<Id>)
    requires gone <= a
    ensures |a - gone| == |a| - |gone|
  {
    assert a == (a - gone) + gone;
  }

  lemma {:induction false} DistinctSize(ids: seq<Id>)
    requires NoRepeats(ids)
    ensures |Members(ids)| == |ids|
  {
    if ids != [] {
      var rest := ids[1..];
      assert forall i :: 0 <= i < |rest| ==> rest[i] == ids[i + 1];
      assert ids == [ids[0]] + rest;
      DistinctSize(rest);
      assert Members(ids) == {ids[0]} + Members(rest);
      assert ids[0] !in rest;
    }
  }

  lemma MergeCounts(g: Graph, scope: string, op: Op)
    requires WellFormed(g) && op.Merge? && InThisScope(g, scope, op) && Failed(g, op).None?
    ensures Count(After(g, op), scope) == Count(g, scope) + Growth(op)
  {
    hide WellFormed, MergeNodes, Moved, NodesSound, IdsMinted;
    MergedFacts(g, op.survivor, op.absorbed, op.name, op.typ, op.facts, op.embedding, op.now);
    MergeDistinct(g, op);
    var gone := Members(op.absorbed);
    assert gone == set a | a in op.absorbed;
    DistinctSize(op.absorbed);
    RemovedCount(InScopeIds(g, scope), gone);
    assert InScopeIds(After(g, op), scope) == InScopeIds(g, scope) - gone;
  }

  lemma MergeDistinct(g: Graph, op: Op)
    requires op.Merge? && Failed(g, op).None?
    ensures NoRepeats(op.absorbed)
  {
    hide UnitNorm, Moved, AnyBlank, Canonical, AbsorbedSurfaces, Deleting;
    DeletingAll(g.nodes, op.absorbed);
  }

  lemma SplitScope(g: Graph, scope: string, op: Op)
    requires WellFormed(g) && op.Split? && InThisScope(g, scope, op) && Failed(g, op).None?
    ensures var ids := SplitNode(g, op.id, op.parts, op.now).result.value;
            && |ids| == |op.parts| && NoRepeats(ids) && (forall n :: n in ids ==> n !in g.nodes)
            && InScopeIds(After(g, op), scope) == (InScopeIds(g, scope) - {op.id}) + Members(ids)
  {
    hide WellFormed, SplitNode, NodeId, PartNode, MintedFrom;
    MintedWell(g);
    SplitNodeFacts(g, op.id, op.parts, op.now);
    var ids := SplitNode(g, op.id, op.parts, op.now).result.value;
    MintedDistinct(ids, g.sequence) by { MintedFromIs(ids, g.sequence); }
    forall n | n in ids ensures n !in g.nodes && n in After(g, op).nodes && After(g, op).nodes[n].scope == scope {
      var i :| 0 <= i < |ids| && ids[i] == n;
      PartScoped(g.nodes[op.id].scope, op.parts[i], op.now);
    }
  }

  lemma SplitCounts(g: Graph, scope: string, op: Op)
    requires WellFormed(g) && op.Split? && InThisScope(g, scope, op) && Failed(g, op).None?
    ensures Count(After(g, op), scope) == Count(g, scope) + Growth(op)
  {
    hide WellFormed, SplitNode, Journal.After;
    SplitScope(g, scope, op);
    var ids := SplitNode(g, op.id, op.parts, op.now).result.value;
    DistinctSize(ids);
    RemovedCount(InScopeIds(g, scope), {op.id});
    var rest := InScopeIds(g, scope) - {op.id};
    forall n | n in rest ensures n !in Members(ids) { assert n in g.nodes; }
    assert |rest + Members(ids)| == |rest| + |Members(ids)|;
  }

  lemma MintedFromIs(ids: seq<Id>, sequence: nat)
    requires forall i :: 0 <= i < |ids| ==> ids[i] == NodeId(sequence + 1 + i)
    ensures MintedFrom(ids, sequence)
  {
  }

  lemma PartScoped(scope: string, p: SplitPart, now: int)
    ensures PartNode(scope, p, now).scope == scope
  {
  }

  lemma MintedWell(g: Graph)
    requires WellFormed(g)
    ensures IdsMinted(g)
  {
  }

  lemma {:induction false} MintedDistinct(ids: seq<Id>, sequence: nat)
    requires MintedFrom(ids, sequence)
    ensures NoRepeats(ids)
    decreases |ids|
  {
    hide NodeId, MintedFrom;
    if ids != [] {
      MintedTail(ids, sequence);
      MintedDistinct(ids[1..], sequence + 1);
      var rest := ids[1..];
      forall i, j | 0 <= i < j < |ids| ensures ids[i] != ids[j] {
        assert ids[j] == rest[j - 1] && ids[j] in rest;
        if i > 0 { assert ids[i] == rest[i - 1]; }
      }
    }
  }

  lemma OthersCount(g: Graph, scope: string, op: Op)
    requires PassOp(op) && !op.Merge? && !op.Split?
    ensures Count(After(g, op), scope) == Count(g, scope) + Growth(op)
  {
    hide Moved, UnitNorm, StatementOk, EdgeTypeOk, ByTriple, Union, RelationId;
    assert InScopeIds(After(g, op), scope) == InScopeIds(g, scope);
  }

  lemma PassOpKeepsWellFormed(g: Graph, op: Op)
    requires WellFormed(g) && PassOp(op) && Failed(g, op).None?
    ensures WellFormed(After(g, op))
  {
    hide WellFormed, MergeNodes, SplitNode, UpsertRelation, FailsMidway, Journal.After;
    if op.Merge? { MidwayFails(g, op); }
    PerformKeepsWellFormed(g, op);
  }

  lemma MidwayFails(g: Graph, op: Op)
    requires op.Merge? && Failed(g, op).None?
    ensures !FailsMidway(g, op.survivor, op.absorbed, op.embedding)
  {
    hide UnitNorm, Moved, AnyBlank, Canonical, AbsorbedSurfaces, Deleting;
    DeletingAll(g.nodes, op.absorbed);
  }

  /** A pass that goes through leaves exactly the count its validation projected. */
  lemma {:induction false} PassCounts(g: Graph, scope: string, ops: seq<Op>)
    requires WellFormed(g) && Stays(g, scope, ops) && Apply(g, ops).result.Ok?
    ensures WellFormed(Apply(g, ops).graph)
    ensures Count(Apply(g, ops).graph, scope) == Count(g, scope) + Delta(ops)
    decreases |ops|
  {
    hide WellFormed, Journal.After, Count, Failed, InThisScope;
    if ops != [] {
      var op := ops[0];
      PassOpKeepsWellFormed(g, op);
      if op.Merge? {
        MergeCounts(g, scope, op);
      } else if op.Split? {
        SplitCounts(g, scope, op);
      } else {
        OthersCount(g, scope, op);
      }
      PassCounts(After(g, op), scope, ops[1..]);
    }
  }

  // --------------------------------------------------------- forced halving

  /** The budget one forced pass is given. */
  function Reachable(count: nat, target: nat): nat { if target >= count - count / 2 then target else count - count / 2 }

  function HalvedUp(count: nat, passes: nat): nat { if passes == 0 then count else HalvedUp(count - count / 2, passes - 1) }

  function Power(passes: nat): nat { if passes == 0 then 1 else 2 * Power(passes - 1) }

  /** Halving upwards is one division: ceil(count / 2^passes). */
  lemma {:induction false} HalvedIsCeiling(count: nat, passes: nat)
    ensures Power(passes) > 0
    ensures HalvedUp(count, passes) == (count + Power(passes) - 1) / Power(passes)
    decreases passes
  {
    if passes > 0 {
      HalvedIsCeiling(count - count / 2, passes - 1);
      var p := Power(passes - 1);
      CeilingTwice(count, p);
    }
  }

  lemma CeilingTwice(count: nat, p: nat)
    requires p > 0
    ensures (count - count / 2 + p - 1) / p == (count + 2 * p - 1) / (2 * p)
  {
    var h := count - count / 2;
    assert h == (count + 1) / 2;
    var q := (h + p - 1) / p;
    DivisionIs(h + p - 1, p, q, (h + p - 1) % p);
    assert q * p <= h + p - 1 < q * p + p;
    assert 2 * (q * p) <= count + 2 * p - 1 < 2 * (q * p) + 2 * p;
    assert 2 * (q * p) == q * (2 * p);
    DivisionIs(count + 2 * p - 1, 2 * p, q, count + 2 * p - 1 - q * (2 * p));
  }

  lemma StepUp(k: int, q: int, d: nat)
    requires k < q
    ensures k * d + d <= q * d
  {
    assert (q - k - 1) * d >= 0;
    assert q * d == k * d + d + (q - k - 1) * d;
  }

  lemma DivisionIs(n: nat, d: nat, q: int, r: int)
    requires d > 0 && n == q * d + r && 0 <= r < d
    ensures n / d == q
  {
    var k, rest := n / d, n % d;
    assert n == k * d + rest;
    if k < q { StepUp(k, q, d); }
    if k > q { StepUp(q, k, d); }
  }

  lemma HalvingIsMonotone(a: nat, b: nat, passes: nat)
    requires a <= b
    ensures HalvedUp(a, passes) <= HalvedUp(b, passes)
    decreases passes
  {
    if passes > 0 { HalvingIsMonotone(a - a / 2, b - b / 2, passes - 1); }
  }

  lemma PassFeasible(count: nat, target: nat)
    requires target >= 1 && count > target
    ensures var p := Slate.Pressure(count, Reachable(count, target));
            p.Ok? && p.value >= 1 && 2 * p.value <= count
  {
  }

  /** A run of passes that each do exactly what is mandated lands on max(N, ceil(c / 2^k)). */
  function Squeezed(count: nat, target: nat, passes: nat): nat
    decreases passes
  {
    if passes == 0 || count <= target then count else Squeezed(Reachable(count, target), target, passes - 1)
  }

  lemma {:induction false} SqueezedIs(count: nat, target: nat, passes: nat)
    requires target >= 1 && count > target
    ensures Squeezed(count, target, passes) == if HalvedUp(count, passes) >= target then HalvedUp(count, passes) else target
    decreases passes
  {
    if passes > 0 {
      var half := count - count / 2;
      if half > target {
        SqueezedIs(half, target, passes - 1);
      } else {
        HalvedShrinks(half, passes - 1);
      }
    }
  }

  lemma {:induction false} HalvedShrinks(count: nat, passes: nat)
    ensures HalvedUp(count, passes) <= count
    decreases passes
  {
    if passes > 0 { HalvedShrinks(count - count / 2, passes - 1); }
  }
}
