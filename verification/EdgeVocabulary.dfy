/** The bound `M` on relation types: what must be folded away, and what a pass of
    accepted operations leaves. */
module EdgeVocabulary {
  import opened Ids
  import opened Surfaces
  import opened GraphModel
  import opened EdgeFold
  import opened GraphOps
  import opened Journal
  import opened GlobalPass
  import opened AddressBook
  import opened GlobalAnswer

  // ----------------------------------------------------- which types must go

  /** Fewer edges first, then the name. */
  predicate LessUsed(counts: map<string, nat>, a: string, b: string)
    requires a in counts && b in counts
  {
    counts[a] < counts[b] || (counts[a] == counts[b] && Less(a, b))
  }

  ghost predicate IsLeastUsed(counts: map<string, nat>, a: string, among: set<string>)
    requires among <= counts.Keys
  {
    a in among && forall b :: b in among && b != a ==> LessUsed(counts, a, b)
  }

  lemma LessUsedTotal(counts: map<string, nat>, a: string, b: string)
    requires a in counts && b in counts && a != b
    ensures LessUsed(counts, a, b) <==> !LessUsed(counts, b, a)
  {
    hide Less;
    LessTotal(a, b);
    if Less(a, b) { LessAsymmetric(a, b); }
    if Less(b, a) { LessAsymmetric(b, a); }
  }

  lemma LessUsedTransitive(counts: map<string, nat>, a: string, b: string, c: string)
    requires a in counts && b in counts && c in counts && LessUsed(counts, a, b) && LessUsed(counts, b, c)
    ensures LessUsed(counts, a, c)
  {
    hide Less;
    if counts[a] == counts[b] == counts[c] { LessTransitive(a, b, c); }
  }

  method LeastUsed(counts: map<string, nat>, among: set<string>) returns (a: string)
    requires among <= counts.Keys && among != {}
    ensures IsLeastUsed(counts, a, among)
  {
    hide LessUsed;
    a :| a in among;
    var rest := among - {a};
    while rest != {}
      invariant rest <= among - {a} && a in among
      invariant forall b :: b in among - rest && b != a ==> LessUsed(counts, a, b)
      decreases rest
    {
      var b :| b in rest;
      LessUsedTotal(counts, a, b);
      if LessUsed(counts, b, a) {
        forall c | c in among - (rest - {b}) && c != b ensures LessUsed(counts, b, c) {
          if c != a { LessUsedTransitive(counts, b, a, c); }
        }
        rest := rest - {b};
        a := b;
      } else {
        rest := rest - {b};
      }
    }
  }

  /** The overage, least used first: every type that goes is used less than every one that stays. */
  method CompactionTargets(counts: map<string, nat>, maxEdgeTypes: int) returns (out: Outcome<seq<string>>)
    ensures out.Err? <==> maxEdgeTypes < 1
    ensures out.Ok? ==>
              (&& |out.value| == (if |counts| > maxEdgeTypes then |counts| - maxEdgeTypes else 0)
               && (forall i :: 0 <= i < |out.value| ==> out.value[i] in counts)
               && (forall i, j :: 0 <= i < j < |out.value| ==> LessUsed(counts, out.value[i], out.value[j]))
               && (forall i, b :: 0 <= i < |out.value| && b in counts && b !in out.value ==> LessUsed(counts, out.value[i], b))
               && (forall i, b :: 0 <= i < |out.value| && b in counts && b !in out.value ==>
                     counts[out.value[i]] <= counts[b] && (counts[out.value[i]] == counts[b] ==> Less(out.value[i], b))))
  {
    hide LessUsed;
    if maxEdgeTypes < 1 { return Err(ValueError); }
    var doomed: seq<string> := [];
    var rest := counts.Keys;
    while |rest| > maxEdgeTypes
      invariant rest <= counts.Keys && |rest| + |doomed| == |counts|
      invariant |doomed| > 0 ==> |rest| >= maxEdgeTypes
      invariant forall b :: b in counts <==> b in rest || b in doomed
      invariant forall b :: b in doomed ==> b !in rest
      invariant forall i, j :: 0 <= i < j < |doomed| ==> LessUsed(counts, doomed[i], doomed[j])
      invariant forall i, b :: 0 <= i < |doomed| && b in rest ==> LessUsed(counts, doomed[i], b)
      decreases rest
    {
      var a := LeastUsed(counts, rest);
      rest := rest - {a};
      doomed := doomed + [a];
    }
    forall i, b | 0 <= i < |doomed| && b in counts && b !in doomed
      ensures counts[doomed[i]] <= counts[b] && (counts[doomed[i]] == counts[b] ==> Less(doomed[i], b))
    {
      LessUsedMeans(counts, doomed[i], b);
    }
    return Ok(doomed);
  }

  lemma LessUsedMeans(counts: map<string, nat>, a: string, b: string)
    requires a in counts && b in counts && LessUsed(counts, a, b)
    ensures counts[a] <= counts[b] && (counts[a] == counts[b] ==> Less(a, b))
  {
    hide Less;
  }

  // ------------------------------------------------- what a pass leaves of them

  ghost function EdgeTypes(g: Graph, scope: string): set<string> {
    set x | x in g.rels && g.rels[x].scope == scope :: g.rels[x].typ
  }

  ghost predicate Used(g: Graph, scope: string, typ: string) {
    exists x :: x in g.rels && g.rels[x].scope == scope && g.rels[x].typ == typ
  }

  predicate Renames(op: Op, scope: string, typ: string) { op.Rename? && op.scope == scope && op.was == typ }

  /** The op brings the type in: a rename's target, or a type a rewrite states. */
  predicate Brings(op: Op, scope: string, typ: string) {
    (op.Rename? && op.scope == scope && op.becomes == typ) || (op.Upsert? && op.scope == scope && op.typ == typ)
  }

  lemma MovedTypes(rels: map<Id, Relation>, m: Move, x: Id)
    requires UniqueTriples(rels) && Settles(m) && x in Moved(rels, m)
    ensures x in rels && rels[x].scope == Moved(rels, m)[x].scope
    ensures if m.Relabel? && Affected(m, x, rels[x]) then Moved(rels, m)[x].typ == m.becomes
            else Moved(rels, m)[x].typ == rels[x].typ
  {
    hide UniqueTriples, Moved;
    MovedFacts(rels, m);
    assert Came(rels, m, x, Moved(rels, m)[x]);
  }

  /** One successful op: a type in use afterwards was in use and not renamed away, or was brought in. */
  lemma OpTypes(g: Graph, scope: string, op: Op, typ: string)
    requires WellFormed(g) && PassOp(op) && Failed(g, op).None? && Used(After(g, op), scope, typ)
    ensures Brings(op, scope, typ) || (Used(g, scope, typ) && !Renames(op, scope, typ))
  {
    hide WellFormed, MergeNodes, SplitNode, UpsertRelation, Moved, EdgeTypeOk, UnitNorm;
    var x :| x in After(g, op).rels && After(g, op).rels[x].scope == scope && After(g, op).rels[x].typ == typ;
    UniqueIn(g);
    if op.Merge? {
      MergedFacts(g, op.survivor, op.absorbed, op.name, op.typ, op.facts, op.embedding, op.now);
      MovedTypes(g.rels, Repoint((set a | a in op.absorbed), op.survivor, None, op.now), x);
    } else if op.Split? {
      SplitTypes(g, op, x);
    } else if op.Upsert? {
      UpsertedEdge(g, op.scope, op.source, op.target, op.typ, op.claim, op.entryIds, op.until, op.now);
    } else if op.Rename? {
      MovedTypes(g.rels, Relabel(op.scope, op.was, op.becomes), x);
    }
  }

  lemma UniqueIn(g: Graph)
    requires WellFormed(g)
    ensures UniqueTriples(g.rels)
  {
  }

  lemma SplitTypes(g: Graph, op: Op, x: Id)
    requires WellFormed(g) && op.Split? && Failed(g, op).None? && x in After(g, op).rels
    ensures x in g.rels && After(g, op).rels[x].scope == g.rels[x].scope && After(g, op).rels[x].typ == g.rels[x].typ
  {
    hide WellFormed, SplitNode, Claims;
    SplitEdgeFacts(g, op.id, op.parts, op.now);
    if x in Claims(op.parts) { var i := ClaimantExists(op.parts, x); }
  }

  ghost predicate AnyBrings(ops: seq<Op>, scope: string, typ: string) { exists i :: 0 <= i < |ops| && Brings(ops[i], scope, typ) }

  ghost predicate AnyRenames(ops: seq<Op>, scope: string, typ: string) { exists i :: 0 <= i < |ops| && Renames(ops[i], scope, typ) }

  /** Over a whole pass. */
  lemma {:induction false} PassTypes(g: Graph, scope: string, ops: seq<Op>, typ: string)
    requires WellFormed(g) && (forall i :: 0 <= i < |ops| ==> PassOp(ops[i])) && Apply(g, ops).result.Ok?
    requires Used(Apply(g, ops).graph, scope, typ)
    ensures AnyBrings(ops, scope, typ) || (Used(g, scope, typ) && !AnyRenames(ops, scope, typ))
    decreases |ops|
  {
    hide WellFormed, Journal.After, Failed, Used, Brings, Renames;
    if ops != [] {
      var op, rest := ops[0], ops[1..];
      assert forall i :: 0 <= i < |rest| ==> rest[i] == ops[i + 1];
      PassOpKeepsWellFormed(g, op);
      PassTypes(Journal.After(g, op), scope, rest, typ);
      if AnyBrings(rest, scope, typ) {
        var i :| 0 <= i < |rest| && Brings(rest[i], scope, typ);
        assert Brings(ops[i + 1], scope, typ);
      } else {
        OpTypes(g, scope, op, typ);
        if Brings(op, scope, typ) {
          assert Brings(ops[0], scope, typ);
        } else {
          forall i | 0 <= i < |ops| ensures !Renames(ops[i], scope, typ) { if i > 0 { assert ops[i] == rest[i - 1]; } }
        }
      }
    }
  }

  /** What the validator checks of the vocabulary operations. */
  ghost predicate VocabularyOk(g: Graph, scope: string, ops: seq<Op>, doomed: set<string>) {
    && (forall i :: 0 <= i < |ops| && ops[i].Rename? && ops[i].scope == scope ==>
          ops[i].was in EdgeTypes(g, scope) && ops[i].becomes in EdgeTypes(g, scope) - doomed)
    && (forall d :: d in doomed ==> AnyRenames(ops, scope, d))
  }

  /** The types a pass's rewrites state. */
  ghost function Stated(ops: seq<Op>, scope: string): set<string> {
    set i | 0 <= i < |ops| && ops[i].Upsert? && ops[i].scope == scope :: ops[i].typ
  }

  lemma UsedIs(g: Graph, scope: string, typ: string)
    ensures Used(g, scope, typ) <==> typ in EdgeTypes(g, scope)
  {
  }

  /** After an accepted pass only surviving types and types its own rewrites stated are left. */
  lemma CompactedTypes(g: Graph, scope: string, ops: seq<Op>, doomed: set<string>)
    requires WellFormed(g) && (forall i :: 0 <= i < |ops| ==> PassOp(ops[i])) && Apply(g, ops).result.Ok?
    requires VocabularyOk(g, scope, ops, doomed)
    ensures EdgeTypes(Apply(g, ops).graph, scope) <= (EdgeTypes(g, scope) - doomed) + Stated(ops, scope)
  {
    hide WellFormed, Apply, Used, PassOp;
    forall typ | typ in EdgeTypes(Apply(g, ops).graph, scope)
      ensures typ in (EdgeTypes(g, scope) - doomed) + Stated(ops, scope)
    {
      UsedIs(Apply(g, ops).graph, scope, typ);
      PassTypes(g, scope, ops, typ);
      UsedIs(g, scope, typ);
      if AnyBrings(ops, scope, typ) { var i :| 0 <= i < |ops| && Brings(ops[i], scope, typ); }
    }
  }

  /** So the bound holds whenever the rewrites state surviving types only. */
  lemma VocabularyWithinBound(g: Graph, scope: string, ops: seq<Op>, doomed: set<string>, maxEdgeTypes: nat)
    requires WellFormed(g) && (forall i :: 0 <= i < |ops| ==> PassOp(ops[i])) && Apply(g, ops).result.Ok?
    requires VocabularyOk(g, scope, ops, doomed) && doomed <= EdgeTypes(g, scope)
    requires |doomed| >= |EdgeTypes(g, scope)| - maxEdgeTypes && Stated(ops, scope) <= EdgeTypes(g, scope) - doomed
    ensures |EdgeTypes(Apply(g, ops).graph, scope)| <= maxEdgeTypes
  {
    hide WellFormed, Apply, VocabularyOk, EdgeTypes, Stated;
    CompactedTypes(g, scope, ops, doomed);
    var kept := EdgeTypes(g, scope) - doomed;
    RemovedCount(EdgeTypes(g, scope), doomed);
    CardinalityMonotone(EdgeTypes(Apply(g, ops).graph, scope), kept);
  }

  lemma TypesBooked(g: Graph, scope: string)
    ensures EdgeTypes(g, scope) == TypesIn(BookOf(g), scope)
  {
    var b := BookOf(g);
    forall t ensures t in EdgeTypes(g, scope) <==> t in TypesIn(b, scope) {
      if t in EdgeTypes(g, scope) {
        var x :| x in g.rels && g.rels[x].scope == scope && g.rels[x].typ == t;
        assert x in b.edges && b.edges[x].scope == scope && b.edges[x].typ == t;
      }
      if t in TypesIn(b, scope) {
        var x :| x in b.edges && b.edges[x].scope == scope && b.edges[x].typ == t;
        assert x in g.rels && g.rels[x].scope == scope && g.rels[x].typ == t;
      }
    }
  }

  /** The types left are exactly those the book foretells, among the surviving and the
      stated ones; so whether the bound holds can be read off the book before any write. */
  lemma TypesLeftExactly(g: Graph, scope: string, ops: seq<Op>, doomed: set<string>, maxEdgeTypes: nat)
    requires WellFormed(g) && PassOps(ops) && AllFit(BookOf(g), ops) && VocabularyOk(g, scope, ops, doomed)
    ensures var left := TypesIn(NotedAll(BookOf(g), ops), scope);
            && EdgeTypes(Apply(g, ops).graph, scope) == left
            && left <= (EdgeTypes(g, scope) - doomed) + Stated(ops, scope)
            && (|EdgeTypes(Apply(g, ops).graph, scope)| > maxEdgeTypes <==> |left| > maxEdgeTypes)
  {
    hide WellFormed, Apply, VocabularyOk, EdgeTypes, Stated, BookOf, AllFit, NotedAll, TypesIn, PassOp;
    PassFitsExactly(g, ops);
    TypesBooked(Apply(g, ops).graph, scope);
    CompactedTypes(g, scope, ops, doomed);
  }

  lemma {:induction false} CallsRename(b: Book, scope: string, ops: seq<GlobalOp>, now: int, was: string, becomes: string)
    ensures Rename(scope, was, becomes) in CallsAll(b, scope, ops, now) <==> Renaming(was, becomes) in ops
    decreases |ops|
  {
    hide NotedAll, Calls;
    if ops != [] {
      var calls, rest := Calls(b, scope, ops[0], now), ops[1..];
      CallsRename(NotedAll(b, calls), scope, rest, now, was, becomes);
      OpRenames(b, scope, ops[0], now);
      assert ops == [ops[0]] + rest;
    }
  }

  lemma OpRenames(b: Book, scope: string, op: GlobalOp, now: int)
    ensures var calls := Calls(b, scope, op, now);
            if op.Renaming? then calls == [Rename(scope, op.was, op.becomes)]
            else forall i :: 0 <= i < |calls| ==> !calls[i].Rename?
  {
    hide NodeId, Fills, States, Retires;
    if op.Splitting? { FillsArePass(b.sequence, op.parts, op.contents, now); }
    if op.Rewriting? {
      StatesArePass(scope, op.node, op.relations, now);
      RetiresArePass(op.retired);
    }
  }

  /** An accepted answer's calls keep to the vocabulary rules. */
  lemma AnswerVocabulary(g: Graph, scope: string, ops: seq<GlobalOp>, rules: Rules, now: int)
    requires Accepted(BookOf(g), scope, ops, rules)
    ensures VocabularyOk(g, scope, CallsAll(BookOf(g), scope, ops, now), rules.doomed)
  {
    hide EdgeTypes, BookOf, TypesIn, CallsAll, Pending, Size, Delivers, Grown, Less;
    TypesBooked(g, scope);
    var calls := CallsAll(BookOf(g), scope, ops, now);
    forall i | 0 <= i < |calls| && calls[i].Rename? && calls[i].scope == scope
      ensures calls[i].was in EdgeTypes(g, scope) && calls[i].becomes in EdgeTypes(g, scope) - rules.doomed
    {
      CallsRename(BookOf(g), scope, ops, now, calls[i].was, calls[i].becomes);
      assert calls[i] == Rename(scope, calls[i].was, calls[i].becomes) && calls[i] in calls;
      var k :| 0 <= k < |ops| && ops[k] == Renaming(calls[i].was, calls[i].becomes);
      assert Checked(BookOf(g), scope, ops[k], rules);
    }
    forall d | d in rules.doomed ensures AnyRenames(calls, scope, d) {
      var k :| 0 <= k < |ops| && ops[k].Renaming? && ops[k].was == d;
      CallsRename(BookOf(g), scope, ops, now, d, ops[k].becomes);
      assert ops[k] == Renaming(d, ops[k].becomes) && ops[k] in ops;
      var i :| 0 <= i < |calls| && calls[i] == Rename(scope, d, ops[k].becomes);
      assert Renames(calls[i], scope, d);
    }
  }

  /** So, for an accepted answer that applies whole, the types it leaves can be read
      beforehand, and it breaks M exactly when the book then lists more than M. */
  lemma BoundKeptExactly(g: Graph, scope: string, ops: seq<GlobalOp>, rules: Rules, now: int, maxEdgeTypes: nat)
    requires WellFormed(g) && Accepted(BookOf(g), scope, ops, rules) && AllEmbedded(ops)
    requires AllFind(BookOf(g), scope, ops, now)
    ensures var calls := CallsAll(BookOf(g), scope, ops, now);
            var left := TypesIn(NotedAll(BookOf(g), calls), scope);
            && Apply(g, calls).result.Ok? && EdgeTypes(Apply(g, calls).graph, scope) == left
            && left <= (EdgeTypes(g, scope) - rules.doomed) + Stated(calls, scope)
            && (|EdgeTypes(Apply(g, calls).graph, scope)| > maxEdgeTypes <==> |left| > maxEdgeTypes)
  {
    hide WellFormed, Apply, VocabularyOk, EdgeTypes, Stated, BookOf, AllFit, NotedAll, TypesIn, CallsAll, AllFind, PassOps,
      AllEmbedded, Pending, Checked, Size;
    var calls := CallsAll(BookOf(g), scope, ops, now);
    AppliesWholeExactly(g, scope, ops, rules, now);
    CallsFitExactly(BookOf(g), scope, ops, now);
    CallsArePassOps(BookOf(g), scope, ops, now);
    AnswerVocabulary(g, scope, ops, rules, now);
    TypesLeftExactly(g, scope, calls, rules.doomed, maxEdgeTypes);
  }

  lemma ApplyOne(g: Graph, op: Op)
    requires Failed(g, op).None?
    ensures Apply(g, [op]) == Done(After(g, op), Ok(()))
  {
    hide Failed, Journal.After;
    assert [op][1..] == [];
    assert Apply(After(g, op), []) == Done(After(g, op), Ok(()));
  }

  lemma UpsertTypes(g: Graph, g': Graph, scope: string, x: Id, typ: string)
    requires g'.rels.Keys == g.rels.Keys + {x} && g'.rels[x].scope == scope && g'.rels[x].typ == typ
    requires forall y :: y in g.rels ==> g'.rels[y].scope == g.rels[y].scope && g'.rels[y].typ == g.rels[y].typ
    ensures EdgeTypes(g', scope) == EdgeTypes(g, scope) + {typ}
  {
    forall t | t in EdgeTypes(g, scope) ensures t in EdgeTypes(g', scope) {
      var y :| y in g.rels && g.rels[y].scope == scope && g.rels[y].typ == t;
      assert y in g'.rels && g'.rels[y].scope == scope && g'.rels[y].typ == t;
    }
  }

  /** And a rewrite that states a new type adds it: nothing in the validation
      stops an accepted pass from leaving one type more than the bound. */
  lemma RewriteMayCoin(g: Graph, scope: string, op: Op)
    requires WellFormed(g) && op.Upsert? && op.scope == scope && Failed(g, op).None?
    ensures VocabularyOk(g, scope, [op], {}) && Apply(g, [op]).result.Ok?
    ensures EdgeTypes(Apply(g, [op]).graph, scope) == EdgeTypes(g, scope) + {op.typ}
    ensures op.typ !in EdgeTypes(g, scope) ==> |EdgeTypes(Apply(g, [op]).graph, scope)| == |EdgeTypes(g, scope)| + 1
  {
    hide WellFormed, UpsertRelation, EdgeTypes, Apply;
    ApplyOne(g, op);
    UpsertedEdge(g, op.scope, op.source, op.target, op.typ, op.claim, op.entryIds, op.until, op.now);
    var x := UpsertRelation(g, op.scope, op.source, op.target, op.typ, op.claim, op.entryIds, op.until, op.now).result.value;
    UpsertTypes(g, After(g, op), scope, x, op.typ);
  }

  // -------------------------------------------- what a rename keeps of a belief

  /** An edge that collides with nothing keeps everything but its label; one that
      does leaves its evidence on the edge already there, whose claim stands. */
  lemma RenameKeepsBeliefs(g: Graph, scope: string, was: string, becomes: string, x: Id)
    requires WellFormed(g) && RenameEdgeType(g, scope, was, becomes).result.Ok?
    requires x in g.rels && g.rels[x].scope == scope && g.rels[x].typ == was
    ensures var rels, t := RenameEdgeType(g, scope, was, becomes).graph.rels, TripleOf(g.rels[x].(typ := becomes));
            match ByTriple(g.rels, t)
            case None => x in rels && rels[x] == g.rels[x].(typ := becomes)
            case Some(y) => x !in rels && y in g.rels && y in rels && TripleOf(rels[y]) == t
                            && rels[y].claim == g.rels[y].claim && rels[y].until == g.rels[y].until
                            && rels[y].entryIds == Union(g.rels[y].entryIds, g.rels[x].entryIds)
  {
    hide WellFormed, ByTriple, Union, Moved, FoldAll, EdgeTypeOk;
    var m := Relabel(scope, was, becomes);
    var t := TripleOf(g.rels[x].(typ := becomes));
    UniqueIn(g);
    RelabelClashFree(g.rels, m);
    SortedEnumerates(g.rels, m);
    var order := Sorted(AffectedIds(g.rels, m));
    FoldCharacterized(g.rels, order, m);
    RenamedLandsOnce(g, m, x, t);
    GatheredOne(g.rels, order, m, t, HolderAt(g.rels, m, t), x);
    ByTripleUnique(g.rels, t);
    var rels := RenameEdgeType(g, scope, was, becomes).graph.rels;
    assert rels == FoldAll(g.rels, order, m) by { MovedIs(g.rels, m); }
    match ByTriple(g.rels, t) {
      case None =>
        assert Entry(rels, x, g.rels[x].(typ := becomes));
      case Some(y) =>
        HolderIs(g.rels, m, t, y);
        assert Entry(rels, y, Absorbed(m, g.rels[y], g.rels[x]));
        RenamedAway(g, scope, was, becomes, x, y);
    }
  }

  lemma MovedIs(rels: map<Id, Relation>, m: Move)
    ensures Moved(rels, m) == FoldAll(rels, Sorted(AffectedIds(rels, m)), m)
  {
  }

  lemma RenamedLandsOnce(g: Graph, m: Move, x: Id, t: Triple)
    requires UniqueTriples(g.rels) && m.Relabel? && Settles(m) && x in g.rels && Affected(m, x, g.rels[x])
    requires t == TripleOf(g.rels[x].(typ := m.becomes))
    ensures Lands(g.rels, m, x, t)
    ensures forall y :: y in g.rels && Affected(m, y, g.rels[y]) && y != x ==> !Lands(g.rels, m, y, t)
    ensures ByTriple(g.rels, t) == None ==> HolderAt(g.rels, m, t) == None
  {
  }

  lemma RenamedAway(g: Graph, scope: string, was: string, becomes: string, x: Id, y: Id)
    requires WellFormed(g) && was != becomes && x in g.rels && g.rels[x].scope == scope && g.rels[x].typ == was
    requires y in g.rels && TripleOf(g.rels[y]) == TripleOf(g.rels[x].(typ := becomes))
    requires y in Moved(g.rels, Relabel(scope, was, becomes))
    requires TripleOf(Moved(g.rels, Relabel(scope, was, becomes))[y]) == TripleOf(g.rels[y])
    ensures x !in Moved(g.rels, Relabel(scope, was, becomes))
  {
    hide Moved, IdsMinted, NodesSound, EdgesSound;
    var m := Relabel(scope, was, becomes);
    MovedFacts(g.rels, m);
    assert x in Moved(g.rels, m) ==> Came(g.rels, m, x, Moved(g.rels, m)[x]);
  }

  // ---------------------------------------------- a pass may stop half-applied

  lemma MergeDropsInside(g: Graph, merge: Op, x: Id)
    requires WellFormed(g) && merge.Merge? && Failed(g, merge).None? && merge.absorbed != []
    requires x in g.rels && g.rels[x].source in merge.absorbed + [merge.survivor]
             && g.rels[x].target in merge.absorbed + [merge.survivor]
    ensures x !in After(g, merge).rels && After(g, merge).nodes != g.nodes
  {
    hide WellFormed, MergeNodes, Moved;
    MergedFacts(g, merge.survivor, merge.absorbed, merge.name, merge.typ, merge.facts, merge.embedding, merge.now);
    var m := Repoint((set a | a in merge.absorbed), merge.survivor, None, merge.now);
    UniqueIn(g);
    assert merge.absorbed[0] in m.moved && merge.absorbed[0] !in After(g, merge).nodes;
    InsideIsAffected(g, m, x);
    MovedFacts(g.rels, m);
    assert x in Moved(g.rels, m) ==> Came(g.rels, m, x, Moved(g.rels, m)[x]);
    assert Readdressed(m, g.rels[x]).None?;
  }

  /** An edge between two merged nodes is gone after the merge, so retiring it in
      the same pass fails there, although both operations pass the validation of
      the graph as it stood before. */
  lemma PassMayStopHalfway(g: Graph, merge: Op, x: Id)
    requires WellFormed(g) && merge.Merge? && Failed(g, merge).None? && merge.absorbed != []
    requires x in g.rels && g.rels[x].source in merge.absorbed + [merge.survivor]
             && g.rels[x].target in merge.absorbed + [merge.survivor]
    ensures Failed(g, Retire(x)).None?
    ensures Apply(g, [merge, Retire(x)]) == Done(After(g, merge), Err(NodeNotFound)) && After(g, merge).nodes != g.nodes
  {
    hide WellFormed, MergeNodes;
    MergeDropsInside(g, merge, x);
    assert [merge, Retire(x)][1..] == [Retire(x)];
    assert Apply(After(g, merge), [Retire(x)]).result == Err(NodeNotFound);
  }

  lemma InsideIsAffected(g: Graph, m: Move, x: Id)
    requires WellFormed(g) && m.Repoint? && m.only.None? && x in g.rels
    requires g.rels[x].source in m.moved + {m.onto} && g.rels[x].target in m.moved + {m.onto}
    ensures Affected(m, x, g.rels[x])
  {
    assert EdgeOk(g, g.rels[x]);
  }
}
