/** The answer of one global pass: what its validation lets through, the store calls
    it becomes, and exactly when those calls all go through. */
module GlobalAnswer {
  import opened Ids
  import opened Surfaces
  import opened GraphModel
  import opened EdgeFold
  import opened GraphOps
  import opened Journal
  import opened GlobalPass
  import opened AddressBook
  import Slate

  /** An edge the answer states from the node it rewrites. */
  datatype Spec = Spec(rewrites: Option<Id>, target: Id, typ: string, claim: string, entryIds: seq<Id>, until: Option<string>)

  datatype Content = Content(facts: seq<Fact>, embedding: seq<real>)

  /** A retype is a rewriting that states no edge and keeps the lines. */
  datatype GlobalOp =
    | Merging(survivor: Id, absorbed: seq<Id>, typ: string, content: Content)
    | Splitting(node: Id, parts: seq<SplitPart>, contents: seq<Content>)
    | Rewriting(node: Id, typ: string, content: Content, relations: seq<Spec>, retired: seq<Id>)
    | Renaming(was: string, becomes: string)
    | Retiring(edge: Id)

  // ------------------------------------------------------------ validation

  /** The nodes an op claims: no two ops may claim one. */
  function Claimed(op: GlobalOp): seq<Id> {
    match op
    case Merging(survivor, absorbed, _, _) => [survivor] + absorbed
    case Splitting(node, _, _) => [node]
    case Rewriting(node, _, _, _, _) => [node]
    case _ => []
  }

  function ClaimedAll(ops: seq<GlobalOp>): seq<Id> { if ops == [] then [] else Claimed(ops[0]) + ClaimedAll(ops[1..]) }

  /** What the wire contract checks of one op by itself. */
  predicate Shaped(op: GlobalOp) {
    match op
    case Merging(_, absorbed, _, _) => absorbed != []
    case Splitting(_, parts, contents) => |parts| >= 2 && |contents| == |parts|
    case Rewriting(node, _, _, relations, retired) =>
      && (forall i :: 0 <= i < |relations| ==>
            relations[i].target != node
            && StatementOk(relations[i].typ, relations[i].claim, relations[i].entryIds, relations[i].until)
            && (relations[i].rewrites.Some? ==> relations[i].rewrites.value !in retired))
      && (forall i, j :: 0 <= i < j < |relations| ==>
            relations[i].typ != relations[j].typ || relations[i].target != relations[j].target)
      && NoRepeats(retired)
    case Renaming(was, becomes) => EdgeTypeOk(becomes) && was != becomes
    case Retiring(_) => true
  }

  predicate InScope(b: Book, scope: string, n: Id) { n in b.nodes && b.nodes[n].scope == scope }

  ghost function TypesIn(b: Book, scope: string): set<string> {
    set x | x in b.edges && b.edges[x].scope == scope :: b.edges[x].typ
  }

  ghost function Size(b: Book, scope: string): nat { |set n | n in b.nodes && b.nodes[n].scope == scope| }

  /** What a pass is given to check against: the mandated merges, the pairs whose
      direction does not matter because they share a surface, the types that must
      go, and the node budget. */
  datatype Rules = Rules(slate: seq<Slate.MergePair>, interchangeable: set<(Id, Id)>, doomed: set<string>, maxNodes: nat)

  /** One op against the scope as it stands before the pass. */
  ghost predicate Checked(b: Book, scope: string, op: GlobalOp, rules: Rules) {
    match op
    case Merging(_, _, _, _) => true
    case Splitting(_, parts, _) => Size(b, scope) + |parts| - 1 <= rules.maxNodes
    case Rewriting(node, _, _, relations, retired) =>
      && (forall i :: 0 <= i < |relations| ==>
            InScope(b, scope, relations[i].target)
            && (relations[i].rewrites.Some? ==>
                  StandsAt(b.edges, relations[i].rewrites.value,
                           Triple(scope, node, relations[i].typ, relations[i].target))))
      && (forall x :: x in retired ==> x in b.edges && b.edges[x].source == node)
    case Renaming(was, becomes) => was in TypesIn(b, scope) && becomes in TypesIn(b, scope) - rules.doomed
    case Retiring(edge) => edge in b.edges && b.edges[edge].scope == scope
  }

  predicate Delivers(op: GlobalOp, pair: Slate.MergePair) {
    op.Merging? && pair.doomed in Claimed(op) && pair.survivor in Claimed(op)
  }

  function Grown(ops: seq<GlobalOp>): int {
    if ops == [] then 0
    else (match ops[0]
          case Merging(_, absorbed, _, _) => -|absorbed|
          case Splitting(_, parts, _) => |parts| - 1
          case _ => 0) + Grown(ops[1..])
  }

  /** The answer as the contract and the store's current ids let it through, apart
      from the evidence its facts cite. */
  ghost predicate Accepted(b: Book, scope: string, ops: seq<GlobalOp>, rules: Rules) {
    && Pending(b, scope, ops)
    && (forall i :: 0 <= i < |ops| ==> Checked(b, scope, ops[i], rules))
    && (forall i, j :: 0 <= i < j < |ops| && ops[i].Renaming? && ops[j].Renaming? ==> ops[i].was != ops[j].was)
    && (forall i, j :: 0 <= i < j < |ops| && ops[i].Retiring? && ops[j].Retiring? ==> ops[i].edge != ops[j].edge)
    && (forall d :: d in rules.doomed ==> exists i :: 0 <= i < |ops| && ops[i].Renaming? && ops[i].was == d)
    && (forall pair :: pair in rules.slate ==>
          exists i :: 0 <= i < |ops| && Delivers(ops[i], pair)
                      && (ops[i].survivor == pair.survivor || (pair.doomed, pair.survivor) in rules.interchangeable))
    && Size(b, scope) + Grown(ops) <= rules.maxNodes
  }

  /** The part of it that outlasts the ops before: every node is claimed once, and is
      there to be claimed. */
  ghost predicate Pending(b: Book, scope: string, ops: seq<GlobalOp>) {
    && NoRepeats(ClaimedAll(ops)) && (forall n :: n in ClaimedAll(ops) ==> InScope(b, scope, n))
    && forall i :: 0 <= i < |ops| ==> Shaped(ops[i])
  }

  /** The embedder returns unit vectors. */
  predicate Embedded(op: GlobalOp) {
    match op
    case Merging(_, _, _, content) => UnitNorm(content.embedding)
    case Splitting(_, _, contents) => forall i :: 0 <= i < |contents| ==> UnitNorm(contents[i].embedding)
    case Rewriting(_, _, content, _, _) => UnitNorm(content.embedding)
    case _ => true
  }

  predicate AllEmbedded(ops: seq<GlobalOp>) { forall i :: 0 <= i < |ops| ==> Embedded(ops[i]) }

  // ------------------------------------------------------------ store calls

  function Fills(sequence: nat, parts: seq<SplitPart>, contents: seq<Content>, now: int): seq<Op>
    decreases |parts|
  {
    if parts == [] || contents == [] then []
    else [Rewrite(NodeId(sequence + 1), contents[0].facts, parts[0].typ, contents[0].embedding, now)]
         + Fills(sequence + 1, parts[1..], contents[1..], now)
  }

  function States(scope: string, node: Id, relations: seq<Spec>, now: int): seq<Op> {
    if relations == [] then []
    else
      var r := relations[0];
      [Upsert(scope, node, r.target, r.typ, Some(r.claim), r.entryIds, r.until, now)] + States(scope, node, relations[1..], now)
  }

  function Retires(edges: seq<Id>): seq<Op> { if edges == [] then [] else [Retire(edges[0])] + Retires(edges[1..]) }

  /** The calls one op makes. A merge keeps its survivor's name; a split's parts are
      filled under the ids they have just been given. */
  function Calls(b: Book, scope: string, op: GlobalOp, now: int): seq<Op> {
    match op
    case Merging(survivor, absorbed, typ, content) =>
      [Merge(survivor, absorbed, if survivor in b.nodes then b.nodes[survivor].name else "", typ, content.facts,
             content.embedding, now)]
    case Splitting(node, parts, contents) => [Split(node, parts, now)] + Fills(b.sequence, parts, contents, now)
    case Rewriting(node, typ, content, relations, retired) =>
      [Rewrite(node, content.facts, typ, content.embedding, now)] + States(scope, node, relations, now) + Retires(retired)
    case Renaming(was, becomes) => [Rename(scope, was, becomes)]
    case Retiring(edge) => [Retire(edge)]
  }

  /** The calls of the whole answer. */
  ghost function CallsAll(b: Book, scope: string, ops: seq<GlobalOp>, now: int): seq<Op>
    decreases |ops|
  {
    if ops == [] then []
    else
      var calls := Calls(b, scope, ops[0], now);
      calls + CallsAll(NotedAll(b, calls), scope, ops[1..], now)
  }

  // ---------------------------------------- what an op still has to find there

  /** The validation looks at the scope before the pass and never at a split's edges
      or at blank names, so this is what is left to chance. */
  ghost predicate Finds(b: Book, scope: string, op: GlobalOp, now: int) {
    match op
    case Merging(_, absorbed, _, _) => forall a :: a in absorbed && a in b.nodes ==> !Blank(b.nodes[a].name)
    case Splitting(node, parts, _) =>
      NoRepeats(Claims(parts)) && forall x :: x in Claims(parts) ==> x in b.edges && AtEnd(b.edges[x], node)
    case Rewriting(node, _, _, relations, retired) =>
      && (forall i :: 0 <= i < |relations| ==> InScope(b, scope, relations[i].target))
      && forall x :: x in retired ==> x in NotedAll(b, States(scope, node, relations, now)).edges
    case Renaming(_, _) => true
    case Retiring(edge) => edge in b.edges
  }

  ghost predicate AllFind(b: Book, scope: string, ops: seq<GlobalOp>, now: int)
    decreases |ops|
  {
    ops == [] || (Finds(b, scope, ops[0], now) && AllFind(NotedAll(b, Calls(b, scope, ops[0], now)), scope, ops[1..], now))
  }

  // ------------------------------------------------------- call by call

  lemma {:induction false} AllFitAppend(b: Book, a: seq<Op>, c: seq<Op>)
    ensures AllFit(b, a + c) <==> AllFit(b, a) && AllFit(NotedAll(b, a), c)
    ensures NotedAll(b, a + c) == NotedAll(NotedAll(b, a), c)
    decreases |a|
  {
    hide Fits, Noted;
    if a == [] {
      assert a + c == c;
    } else {
      assert (a + c)[0] == a[0] && (a + c)[1..] == a[1..] + c;
      AllFitAppend(Noted(b, a[0]), a[1..], c);
    }
  }

  lemma FitOne(b: Book, op: Op)
    ensures AllFit(b, [op]) <==> Fits(b, op)
    ensures NotedAll(b, [op]) == Noted(b, op)
  {
    hide Fits, Noted;
    assert [op][1..] == [];
    assert AllFit(Noted(b, op), []) && NotedAll(Noted(b, op), []) == Noted(b, op);
  }

  lemma {:induction false} FillsFit(b: Book, sequence: nat, scope: string, parts: seq<SplitPart>, contents: seq<Content>,
                                    now: int)
    requires |contents| == |parts| && forall i :: 0 <= i < |contents| ==> UnitNorm(contents[i].embedding)
    requires PartLabels(sequence, scope, parts).Keys <= b.nodes.Keys
    ensures AllFit(b, Fills(sequence, parts, contents, now)) && NotedAll(b, Fills(sequence, parts, contents, now)) == b
    decreases |parts|
  {
    hide NodeId, UnitNorm, AllFit, NotedAll;
    if parts == [] {
      NothingToFit(b);
    } else {
      var op := Rewrite(NodeId(sequence + 1), contents[0].facts, parts[0].typ, contents[0].embedding, now);
      var rest := Fills(sequence + 1, parts[1..], contents[1..], now);
      FillsFit(b, sequence + 1, scope, parts[1..], contents[1..], now);
      FitOne(b, op);
      AllFitAppend(b, [op], rest);
    }
  }

  lemma NothingToFit(b: Book)
    ensures AllFit(b, []) && NotedAll(b, []) == b
  {
  }

  lemma {:induction false} StatesFit(b: Book, scope: string, node: Id, relations: seq<Spec>, now: int)
    requires InScope(b, scope, node)
    requires forall i :: 0 <= i < |relations| ==>
               relations[i].target != node
               && StatementOk(relations[i].typ, relations[i].claim, relations[i].entryIds, relations[i].until)
    ensures AllFit(b, States(scope, node, relations, now)) <==>
            forall i :: 0 <= i < |relations| ==> InScope(b, scope, relations[i].target)
    ensures NotedAll(b, States(scope, node, relations, now)).nodes == b.nodes
    decreases |relations|
  {
    hide AllFit, NotedAll, StatementOk, Fits, Noted;
    if relations == [] {
      NothingToFit(b);
    } else {
      var r, rest := relations[0], relations[1..];
      var op := Upsert(scope, node, r.target, r.typ, Some(r.claim), r.entryIds, r.until, now);
      StateFits(b, scope, node, r, now);
      FitOne(b, op);
      assert forall i :: 0 <= i < |rest| ==> rest[i] == relations[i + 1];
      StatesFit(Noted(b, op), scope, node, rest, now);
      AllFitAppend(b, [op], States(scope, node, rest, now));
    }
  }

  lemma StateFits(b: Book, scope: string, node: Id, r: Spec, now: int)
    requires InScope(b, scope, node) && r.target != node && StatementOk(r.typ, r.claim, r.entryIds, r.until)
    ensures var op := Upsert(scope, node, r.target, r.typ, Some(r.claim), r.entryIds, r.until, now);
            (Fits(b, op) <==> InScope(b, scope, r.target)) && Noted(b, op).nodes == b.nodes
  {
    hide RelationId, EdgeTypeOk, Addressed;
  }

  lemma {:induction false} RetiresFit(b: Book, edges: seq<Id>)
    requires NoRepeats(edges)
    ensures AllFit(b, Retires(edges)) <==> forall x :: x in edges ==> x in b.edges
    ensures NotedAll(b, Retires(edges)).nodes == b.nodes
    decreases |edges|
  {
    hide AllFit, NotedAll;
    if edges == [] {
      NothingToFit(b);
    } else {
      var x, rest := edges[0], edges[1..];
      assert edges == [x] + rest;
      assert NoRepeats(rest) && x !in rest by {
        forall i, j | 0 <= i < j < |rest| ensures rest[i] != rest[j] { assert edges[i + 1] != edges[j + 1]; }
        forall i | 0 <= i < |rest| ensures rest[i] != x { assert edges[0] != edges[i + 1]; }
      }
      FitOne(b, Retire(x));
      RetiresFit(Noted(b, Retire(x)), rest);
      AllFitAppend(b, [Retire(x)], Retires(rest));
    }
  }

  lemma {:induction false} PartsScoped(sequence: nat, scope: string, parts: seq<SplitPart>)
    ensures forall n :: n in PartLabels(sequence, scope, parts) ==> PartLabels(sequence, scope, parts)[n].scope == scope
    decreases |parts|
  {
    hide NodeId;
    if parts != [] { PartsScoped(sequence + 1, scope, parts[1..]); }
  }

  // ----------------------------------------------------------- op by op

  lemma SplittingFits(b: Book, scope: string, op: GlobalOp, now: int)
    requires op.Splitting? && Shaped(op) && Embedded(op) && InScope(b, scope, op.node)
    ensures AllFit(b, Calls(b, scope, op, now)) <==> Finds(b, scope, op, now)
    ensures NotedAll(b, Calls(b, scope, op, now)) == Noted(b, Split(op.node, op.parts, now))
  {
    hide AllFit, NotedAll, NodeId, UnitNorm, Claims, SplitEdges, PartLabels, Fills;
    var call := Split(op.node, op.parts, now);
    FitOne(b, call);
    FillsFit(Noted(b, call), b.sequence, scope, op.parts, op.contents, now);
    AllFitAppend(b, [call], Fills(b.sequence, op.parts, op.contents, now));
  }

  lemma RewritingFits(b: Book, scope: string, op: GlobalOp, now: int)
    requires op.Rewriting? && Shaped(op) && Embedded(op) && InScope(b, scope, op.node)
    ensures AllFit(b, Calls(b, scope, op, now)) <==> Finds(b, scope, op, now)
    ensures NotedAll(b, Calls(b, scope, op, now)).nodes == b.nodes
  {
    hide AllFit, NotedAll, UnitNorm, StatementOk, States, Retires;
    var call := Rewrite(op.node, op.content.facts, op.typ, op.content.embedding, now);
    var states, retires := States(scope, op.node, op.relations, now), Retires(op.retired);
    FitOne(b, call);
    StatesFit(b, scope, op.node, op.relations, now);
    var stated := NotedAll(b, states);
    RetiresFit(stated, op.retired);
    AllFitAppend(b, [call] + states, retires);
    AllFitAppend(b, [call], states);
  }

  lemma MergingFits(b: Book, scope: string, op: GlobalOp, now: int)
    requires op.Merging? && Embedded(op) && NoRepeats(Claimed(op)) && forall n :: n in Claimed(op) ==> InScope(b, scope, n)
    ensures op.survivor in b.nodes
    ensures AllFit(b, Calls(b, scope, op, now)) <==> Finds(b, scope, op, now)
    ensures NotedAll(b, Calls(b, scope, op, now)).nodes ==
            (b.nodes - Members(op.absorbed))[op.survivor := b.nodes[op.survivor]]
  {
    hide AllFit, NotedAll, UnitNorm, Blank, MovedEdges, NoRepeats, StatementOk;
    FitOne(b, Calls(b, scope, op, now)[0]);
    ClaimedApart(op);
    assert op.survivor in Claimed(op) && InScope(b, scope, op.survivor);
    assert forall a :: a in op.absorbed ==> a in Claimed(op) && InScope(b, scope, a);
  }

  lemma ClaimedApart(op: GlobalOp)
    requires op.Merging? && NoRepeats(Claimed(op))
    ensures op.survivor in Claimed(op) && op.survivor !in op.absorbed && NoRepeats(op.absorbed)
    ensures forall a :: a in op.absorbed ==> a in Claimed(op)
  {
    var claimed := Claimed(op);
    assert claimed[0] == op.survivor && forall i :: 0 <= i < |op.absorbed| ==> claimed[i + 1] == op.absorbed[i];
    forall a | a in op.absorbed ensures a in claimed && a != op.survivor {
      var i :| 0 <= i < |op.absorbed| && op.absorbed[i] == a;
      assert claimed[i + 1] == a && claimed[0] != claimed[i + 1];
    }
    forall i, j | 0 <= i < j < |op.absorbed| ensures op.absorbed[i] != op.absorbed[j] { assert claimed[i + 1] != claimed[j + 1]; }
  }

  /** Of an accepted op whose nodes are still there, the calls go through exactly
      when it finds what the validation never promised. */
  lemma OpFindsExactly(b: Book, scope: string, op: GlobalOp, now: int)
    requires Shaped(op) && Embedded(op) && NoRepeats(Claimed(op)) && forall n :: n in Claimed(op) ==> InScope(b, scope, n)
    ensures AllFit(b, Calls(b, scope, op, now)) <==> Finds(b, scope, op, now)
    ensures forall n :: InScope(b, scope, n) && n !in Claimed(op) ==> InScope(NotedAll(b, Calls(b, scope, op, now)), scope, n)
  {
    hide AllFit, NotedAll, Shaped, Embedded, Finds, EdgeTypeOk;
    match op
    case Merging(_, _, _, _) => MergingFits(b, scope, op, now);
    case Splitting(node, parts, _) =>
      assert node in Claimed(op);
      SplittingFits(b, scope, op, now);
      PartsScoped(b.sequence, b.nodes[node].scope, parts);
    case Rewriting(node, _, _, _, _) =>
      assert node in Claimed(op);
      RewritingFits(b, scope, op, now);
    case _ => VocabularyFits(b, scope, op, now);
  }

  lemma VocabularyFits(b: Book, scope: string, op: GlobalOp, now: int)
    requires Shaped(op) && (op.Renaming? || op.Retiring?)
    ensures AllFit(b, Calls(b, scope, op, now)) <==> Finds(b, scope, op, now)
    ensures NotedAll(b, Calls(b, scope, op, now)).nodes == b.nodes
  {
    hide AllFit, NotedAll, EdgeTypeOk, MovedEdges;
    FitOne(b, Calls(b, scope, op, now)[0]);
  }

  // -------------------------------------------------------- the whole answer

  lemma PendingFirst(b: Book, scope: string, ops: seq<GlobalOp>)
    requires Pending(b, scope, ops) && ops != []
    ensures Shaped(ops[0]) && NoRepeats(Claimed(ops[0])) && NoRepeats(ClaimedAll(ops[1..]))
    ensures forall n :: n in Claimed(ops[0]) ==> InScope(b, scope, n)
    ensures forall n :: n in ClaimedAll(ops[1..]) ==> InScope(b, scope, n) && n !in Claimed(ops[0])
    ensures forall i :: 0 <= i < |ops[1..]| ==> Shaped(ops[1..][i])
  {
    hide Shaped, InScope, Claimed;
    var a, c := Claimed(ops[0]), ClaimedAll(ops[1..]);
    assert ClaimedAll(ops) == a + c;
    forall i, j | 0 <= i < j < |a| ensures a[i] != a[j] { assert (a + c)[i] == a[i] && (a + c)[j] == a[j]; }
    forall i, j | 0 <= i < j < |c| ensures c[i] != c[j] { assert (a + c)[|a| + i] == c[i] && (a + c)[|a| + j] == c[j]; }
    forall i, j | 0 <= i < |a| && 0 <= j < |c| ensures a[i] != c[j] { assert (a + c)[i] == a[i] && (a + c)[|a| + j] == c[j]; }
    assert forall n :: n in a || n in c ==> n in a + c;
  }

  lemma PendingRest(b: Book, scope: string, ops: seq<GlobalOp>, now: int)
    requires Pending(b, scope, ops) && ops != [] && Embedded(ops[0])
    ensures AllFit(b, Calls(b, scope, ops[0], now)) <==> Finds(b, scope, ops[0], now)
    ensures Pending(NotedAll(b, Calls(b, scope, ops[0], now)), scope, ops[1..])
  {
    hide Shaped, InScope, Claimed, ClaimedAll, AllFit, NotedAll, Finds, Calls, Embedded;
    PendingFirst(b, scope, ops);
    OpFindsExactly(b, scope, ops[0], now);
  }

  lemma {:induction false} CallsFitExactly(b: Book, scope: string, ops: seq<GlobalOp>, now: int)
    requires Pending(b, scope, ops) && AllEmbedded(ops)
    ensures AllFit(b, CallsAll(b, scope, ops, now)) <==> AllFind(b, scope, ops, now)
    decreases |ops|
  {
    hide Pending, AllFit, NotedAll, Finds, Calls, Embedded;
    if ops == [] {
      NothingToFit(b);
    } else {
      assert Embedded(ops[0]) && AllEmbedded(ops[1..]);
      var calls := Calls(b, scope, ops[0], now);
      PendingRest(b, scope, ops, now);
      AllFitAppend(b, calls, CallsAll(NotedAll(b, calls), scope, ops[1..], now));
      CallsFitExactly(NotedAll(b, calls), scope, ops[1..], now);
    }
  }

  lemma {:induction false} CallsArePassOps(b: Book, scope: string, ops: seq<GlobalOp>, now: int)
    ensures PassOps(CallsAll(b, scope, ops, now))
    decreases |ops|
  {
    hide NotedAll, Calls;
    if ops != [] {
      var calls := Calls(b, scope, ops[0], now);
      CallsArePass(b, scope, ops[0], now);
      CallsArePassOps(NotedAll(b, calls), scope, ops[1..], now);
    }
  }

  lemma CallsArePass(b: Book, scope: string, op: GlobalOp, now: int)
    ensures PassOps(Calls(b, scope, op, now))
  {
    hide NodeId, Fills, States, Retires;
    if op.Splitting? { FillsArePass(b.sequence, op.parts, op.contents, now); }
    if op.Rewriting? {
      StatesArePass(scope, op.node, op.relations, now);
      RetiresArePass(op.retired);
    }
  }

  lemma {:induction false} FillsArePass(sequence: nat, parts: seq<SplitPart>, contents: seq<Content>, now: int)
    ensures forall i :: 0 <= i < |Fills(sequence, parts, contents, now)| ==> Fills(sequence, parts, contents, now)[i].Rewrite?
    decreases |parts|
  {
    hide NodeId;
    if parts != [] && contents != [] { FillsArePass(sequence + 1, parts[1..], contents[1..], now); }
  }

  lemma {:induction false} StatesArePass(scope: string, node: Id, relations: seq<Spec>, now: int)
    ensures forall i :: 0 <= i < |States(scope, node, relations, now)| ==> States(scope, node, relations, now)[i].Upsert?
  {
    if relations != [] { StatesArePass(scope, node, relations[1..], now); }
  }

  lemma {:induction false} RetiresArePass(edges: seq<Id>)
    ensures forall i :: 0 <= i < |Retires(edges)| ==> Retires(edges)[i].Retire?
  {
    if edges != [] { RetiresArePass(edges[1..]); }
  }

  /** An accepted answer is applied whole exactly when no op names an edge or a
      target that the ops before it took away, no split claims an edge it does not
      hold, and no merge absorbs a blank name: all of it readable beforehand from
      ids, names and addresses. */
  lemma AppliesWholeExactly(g: Graph, scope: string, ops: seq<GlobalOp>, rules: Rules, now: int)
    requires WellFormed(g) && Accepted(BookOf(g), scope, ops, rules) && AllEmbedded(ops)
    ensures Apply(g, CallsAll(BookOf(g), scope, ops, now)).result.Ok? <==> AllFind(BookOf(g), scope, ops, now)
  {
    hide WellFormed, BookOf, Pending, AllFit, AllFind, CallsAll, Embedded, Apply;
    CallsFitExactly(BookOf(g), scope, ops, now);
    CallsArePassOps(BookOf(g), scope, ops, now);
    PassFitsExactly(g, CallsAll(BookOf(g), scope, ops, now));
  }
}
