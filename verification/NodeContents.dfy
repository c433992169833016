/** What the node writes leave a node saying, field by field, and what a whole accepted
    answer leaves every node of the store saying. */
module NodeContents {
  import opened Ids
  import opened Surfaces
  import opened GraphModel
  import opened EdgeFold
  import opened GraphOps
  import opened Journal
  import opened GlobalPass
  import opened AddressBook
  import opened GlobalAnswer
  import Slate

  /** Nothing but the one node and the minting of its id differs. */
  ghost predicate OnlyNode(g: Graph, g': Graph, id: Id) {
    && (forall n :: n in g'.nodes <==> n in g.nodes || n == id)
    && (forall n :: n in g.nodes && n != id ==> g'.nodes[n] == g.nodes[n])
    && g'.rels == g.rels && g'.relSequence == g.relSequence
  }

  // ------------------------------------------------------------- one write

  /** A created node asserts what it was given, is dirty, unread and undreamed, and is
      found under its name and exactly the aliases given. */
  lemma CreatedNode(g: Graph, scope: string, name: string, typ: string, facts: seq<Fact>, embedding: seq<real>,
                    now: int, aliases: seq<string>)
    ensures var done := CreateNode(g, scope, name, typ, facts, embedding, now, aliases);
            && (done.result.Ok? <==> UnitNorm(embedding) && !AnyBlank(aliases) && NodeOk(scope, name, typ))
            && (done.result.Err? ==> done.graph.nodes == g.nodes && done.graph.rels == g.rels)
            && (done.result.Ok? ==>
                  var id := NodeId(g.sequence + 1);
                  && done.result.value == id && OnlyNode(g, done.graph, id) && done.graph.sequence == g.sequence + 1
                  && var n := done.graph.nodes[id];
                  && n.scope == scope && n.name == name && n.typ == typ && n.facts == facts && n.embedding == embedding
                  && Routes(n.name, n.aliases) == Routes(name, aliases)
                  && n.dirty && n.readCount == 0 && n.createdAt == now && n.touchedAt == now && n.dreamedAt.None?)
  {
    hide UnitNorm, NodeId, Canonical, AnyBlank;
    CanonicalRoutes(name, aliases);
  }

  /** An alias union routes every surface it routed before and every one given, to a node
      otherwise unchanged. */
  lemma AliasedNode(g: Graph, id: Id, names: seq<string>)
    ensures var done := AddAliases(g, id, names);
            && (done.result.Ok? <==> id in g.nodes && !AnyBlank(g.nodes[id].aliases) && !AnyBlank(names))
            && (done.result.Err? ==> done.graph == g)
            && (done.result.Ok? ==>
                  && OnlyNode(g, done.graph, id) && done.graph.sequence == g.sequence
                  && var was, n := g.nodes[id], done.graph.nodes[id];
                  && Routes(n.name, n.aliases) == Routes(was.name, was.aliases) + Keys(FOLD, names)
                  && n == was.(aliases := n.aliases))
  {
    hide Canonical, Fold;
    if id in g.nodes {
      var held := g.nodes[id].aliases;
      CanonicalRoutes(g.nodes[id].name, held + names);
      assert forall x :: x in held + names <==> x in held || x in names;
      assert Keys(FOLD, held + names) == Keys(FOLD, held) + Keys(FOLD, names);
    }
  }

  /** A rewritten node says exactly the given lines under the given type and vector, is
      touched now, and keeps its scope, name, aliases, dirt, read count and other dates. */
  lemma RewrittenNode(g: Graph, id: Id, facts: seq<Fact>, typ: string, embedding: seq<real>, now: int)
    ensures var done := ReplaceFacts(g, id, facts, typ, embedding, now);
            && (done.result.Ok? <==> id in g.nodes && UnitNorm(embedding))
            && (done.result.Err? ==> done.graph == g)
            && (done.result.Ok? ==>
                  && OnlyNode(g, done.graph, id) && done.graph.sequence == g.sequence
                  && var was, n := g.nodes[id], done.graph.nodes[id];
                  && n.facts == facts && n.typ == typ && n.embedding == embedding && n.touchedAt == now
                  && n.scope == was.scope && n.name == was.name && n.aliases == was.aliases && n.dirty == was.dirty
                  && n.readCount == was.readCount && n.createdAt == was.createdAt && n.dreamedAt == was.dreamedAt)
  {
    hide UnitNorm;
  }

  /** A merged node is found under its name, under every alias it had, and under every
      name and alias of a node it absorbed, and under nothing else. */
  lemma MergedRoutes(g: Graph, survivor: Id, absorbed: seq<Id>, name: string, typ: string, facts: seq<Fact>,
                     embedding: seq<real>, now: int, s: string)
    requires MergeNodes(g, survivor, absorbed, name, typ, facts, embedding, now).result.Ok?
    ensures survivor in g.nodes && survivor in MergeNodes(g, survivor, absorbed, name, typ, facts, embedding, now).graph.nodes
    ensures forall a :: a in absorbed ==> a in g.nodes
    ensures var n := MergeNodes(g, survivor, absorbed, name, typ, facts, embedding, now).graph.nodes[survivor];
            s in Routes(n.name, n.aliases) <==>
            s == Fold(name) || s in Keys(FOLD, g.nodes[survivor].aliases)
            || exists a :: a in absorbed && s in Routes(g.nodes[a].name, g.nodes[a].aliases)
  {
    hide MergeNodes, Canonical, Fold, AbsorbedSurfaces, Keys, Routes;
    MergedAliases(g, survivor, absorbed, name, typ, facts, embedding, now);
    var own := g.nodes[survivor].aliases;
    RoutesAre(name, own + AbsorbedSurfaces(g.nodes, absorbed));
    CanonicalRoutes(name, own + AbsorbedSurfaces(g.nodes, absorbed));
    KeysOfBoth(own, AbsorbedSurfaces(g.nodes, absorbed));
    AbsorbedRoutes(g.nodes, absorbed, s);
  }

  lemma MergedAliases(g: Graph, survivor: Id, absorbed: seq<Id>, name: string, typ: string, facts: seq<Fact>,
                      embedding: seq<real>, now: int)
    requires MergeNodes(g, survivor, absorbed, name, typ, facts, embedding, now).result.Ok?
    ensures survivor in g.nodes && survivor in MergeNodes(g, survivor, absorbed, name, typ, facts, embedding, now).graph.nodes
    ensures forall a :: a in absorbed ==> a in g.nodes
    ensures var n := MergeNodes(g, survivor, absorbed, name, typ, facts, embedding, now).graph.nodes[survivor];
            n.name == name && n.aliases == Canonical(name, g.nodes[survivor].aliases + AbsorbedSurfaces(g.nodes, absorbed))
  {
    hide UnitNorm, AnyBlank, Canonical, Deleting, Moved, AbsorbedSurfaces;
  }

  lemma RoutesAre(name: string, aliases: seq<string>)
    ensures Routes(name, aliases) == {Fold(name)} + Keys(FOLD, aliases)
  {
    hide Fold, Keys;
  }

  lemma NoKeys()
    ensures Keys(FOLD, []) == {}
  {
  }

  lemma KeysOfOne(x: string)
    ensures Keys(FOLD, [x]) == {Fold(x)}
  {
    hide Fold;
    assert x in [x] && FOLD(x) == Fold(x);
  }

  lemma KeysOfBoth(a: seq<string>, b: seq<string>)
    ensures Keys(FOLD, a + b) == Keys(FOLD, a) + Keys(FOLD, b)
  {
    hide Fold;
    assert forall x :: x in a + b <==> x in a || x in b;
  }

  lemma {:induction false} AbsorbedRoutes(nodes: map<Id, Node>, absorbed: seq<Id>, s: string)
    requires forall a :: a in absorbed ==> a in nodes
    ensures s in Keys(FOLD, AbsorbedSurfaces(nodes, absorbed)) <==>
            exists a :: a in absorbed && s in Routes(nodes[a].name, nodes[a].aliases)
  {
    hide Fold, Keys, Routes;
    if absorbed == [] {
      assert Keys(FOLD, []) == {} by { NoKeys(); }
    } else {
      var first, rest := absorbed[0], absorbed[1..];
      assert absorbed == [first] + rest;
      AbsorbedRoutes(nodes, rest, s);
      var own := [nodes[first].name] + nodes[first].aliases;
      KeysOfBoth([nodes[first].name], nodes[first].aliases);
      KeysOfBoth(own, AbsorbedSurfaces(nodes, rest));
      KeysOfOne(nodes[first].name);
      RoutesAre(nodes[first].name, nodes[first].aliases);
      assert AbsorbedSurfaces(nodes, absorbed) == own + AbsorbedSurfaces(nodes, rest);
    }
  }

  /** The id of a split's *i*-th part, minted after *from* others. */
  function PartId(from: nat, i: nat): Id { NodeId(from + 1 + i) }

  /** A part comes with its stated name and type, in the parent's scope, and says nothing
      yet: no lines, no vector, no aliases, dirty and undreamed. */
  lemma PartSaysNothing(g: Graph, id: Id, parts: seq<SplitPart>, now: int, i: nat)
    requires IdsMinted(g) && SplitNode(g, id, parts, now).result.Ok? && i < |parts|
    ensures var g', part := SplitNode(g, id, parts, now).graph, PartId(g.sequence, i);
            && id in g.nodes && part !in g.nodes && part in g'.nodes
            && var n := g'.nodes[part];
            && n.name == parts[i].name && n.typ == parts[i].typ && n.scope == g.nodes[id].scope
            && n.facts == [] && n.embedding == [] && n.aliases == []
            && n.dirty && n.readCount == 0 && n.createdAt == now && n.touchedAt == now && n.dreamedAt.None?
  {
    hide SplitNode, NodeId, IdsMinted;
    SplitNodeFacts(g, id, parts, now);
    var ids := SplitNode(g, id, parts, now).result.value;
    assert ids[i] == PartId(g.sequence, i) && ids[i] in ids;
  }

  /** A deletion takes the listed nodes that exist and every edge that ends at one, and
      nothing else. */
  lemma DeletedNodes(g: Graph, ids: seq<Id>)
    ensures var g' := DeleteNodes(g, ids);
            && (forall n :: n in g'.nodes <==> n in g.nodes && n !in ids)
            && (forall n :: n in g'.nodes ==> g'.nodes[n] == g.nodes[n])
            && (forall x :: x in g'.rels <==>
                  x in g.rels && !(g.rels[x].source in ids && g.rels[x].source in g.nodes)
                  && !(g.rels[x].target in ids && g.rels[x].target in g.nodes))
            && (forall x :: x in g'.rels ==> g'.rels[x] == g.rels[x])
            && g'.sequence == g.sequence && g'.relSequence == g.relSequence
  {
    var gone := set x | x in ids && x in g.nodes;
    assert forall x :: x in g.rels && gone == {} ==> !Touches(g.rels[x], gone);
    assert forall x :: x in DeleteNodes(g, ids).rels <==> x in g.rels && !Touches(g.rels[x], gone);
  }

  /** Marking makes exactly the listed nodes that exist dirty besides those that were;
      clearing makes exactly them clean and stamps them; a read counts every mention. */
  lemma BookkeepingMarks(g: Graph, ids: seq<Id>, now: int, n: Id)
    requires n in g.nodes
    ensures var m, c, r := MarkDirty(g, ids), ClearDirty(g, ids, now), RecordRead(g, ids);
            && n in m.nodes && (m.nodes[n].dirty <==> g.nodes[n].dirty || n in ids)
            && m.nodes[n] == g.nodes[n].(dirty := m.nodes[n].dirty)
            && n in c.nodes && (c.nodes[n].dirty <==> g.nodes[n].dirty && n !in ids)
            && c.nodes[n].dreamedAt == (if n in ids then Some(now) else g.nodes[n].dreamedAt)
            && c.nodes[n] == g.nodes[n].(dirty := c.nodes[n].dirty, dreamedAt := c.nodes[n].dreamedAt)
            && n in r.nodes && r.nodes[n].readCount == g.nodes[n].readCount + multiset(ids)[n]
            && r.nodes[n] == g.nodes[n].(readCount := r.nodes[n].readCount)
  {
    TimesIs(n, ids);
  }

  lemma {:induction false} TimesIs(n: Id, ids: seq<Id>)
    ensures Times(n, ids) == multiset(ids)[n]
  {
    if ids != [] {
      assert ids == [ids[0]] + ids[1..];
      TimesIs(n, ids[1..]);
    }
  }

  // ---------------------------------------------------------- a whole answer

  /** The node says what the answer stated for it. */
  predicate Says(n: Node, scope: string, name: string, typ: string, content: Content, now: int) {
    && n.scope == scope && n.name == name && n.typ == typ && n.facts == content.facts && n.embedding == content.embedding
    && n.touchedAt == now
  }

  /** How many node ids the ops mint. */
  function Minted(ops: seq<GlobalOp>): nat {
    if ops == [] then 0 else (if ops[0].Splitting? then |ops[0].parts| else 0) + Minted(ops[1..])
  }

  /** What an op leaves the nodes it claims saying, its parts under the ids minted from *from* on. */
  ghost predicate Landed(was: map<Id, Node>, nodes: map<Id, Node>, op: GlobalOp, from: nat, now: int) {
    match op
    case Merging(survivor, absorbed, typ, content) =>
      && survivor in was && survivor in nodes
      && Says(nodes[survivor], was[survivor].scope, was[survivor].name, typ, content, now)
      && forall a :: a in absorbed ==> a !in nodes
    case Splitting(node, parts, contents) =>
      && node in was && node !in nodes && |contents| == |parts|
      && forall j :: 0 <= j < |parts| ==>
           PartId(from, j) in nodes
           && Says(nodes[PartId(from, j)], was[node].scope, parts[j].name, parts[j].typ, contents[j], now)
    case Rewriting(node, typ, content, _, _) =>
      && node in was && node in nodes && Says(nodes[node], was[node].scope, was[node].name, typ, content, now)
      && nodes[node].aliases == was[node].aliases
    case _ => true
  }

  lemma {:induction false} ApplyAppend(g: Graph, a: seq<Op>, c: seq<Op>)
    requires Apply(g, a + c).result.Ok?
    ensures Apply(g, a).result.Ok? && Apply(g, a + c) == Apply(Apply(g, a).graph, c)
    decreases |a|
  {
    hide After, Failed, Stopped;
    if a == [] {
      assert a + c == c;
    } else {
      assert (a + c)[0] == a[0] && (a + c)[1..] == a[1..] + c;
      ApplyAppend(After(g, a[0]), a[1..], c);
    }
  }

  lemma ApplyOne(g: Graph, op: Op)
    requires Apply(g, [op]).result.Ok?
    ensures Failed(g, op).None? && Apply(g, [op]).graph == After(g, op)
  {
    hide Failed, After, Stopped;
    assert [op][1..] == [];
    if Failed(g, op).None? { assert Apply(After(g, op), []).graph == After(g, op); }
  }

  /** Stating and retiring edges and renaming their types touches no node. */
  lemma {:induction false} EdgeCallsKeepNodes(g: Graph, calls: seq<Op>)
    requires Apply(g, calls).result.Ok?
    requires forall i :: 0 <= i < |calls| ==> calls[i].Upsert? || calls[i].Retire? || calls[i].Rename?
    ensures Apply(g, calls).graph.nodes == g.nodes && Apply(g, calls).graph.sequence == g.sequence
    decreases |calls|
  {
    hide Failed, After, Stopped;
    if calls != [] {
      EdgeCallKeepsNodes(g, calls[0]);
      assert forall i :: 0 <= i < |calls[1..]| ==> calls[1..][i] == calls[i + 1];
      EdgeCallsKeepNodes(After(g, calls[0]), calls[1..]);
    }
  }

  lemma EdgeCallKeepsNodes(g: Graph, op: Op)
    requires op.Upsert? || op.Retire? || op.Rename?
    ensures After(g, op).nodes == g.nodes && After(g, op).sequence == g.sequence
  {
    hide ByTriple, StatementOk, EdgeTypeOk, Moved, Union, RelationId;
  }

  /** Filling the parts of a split: each says its content, everything else is as it was. */
  lemma {:induction false} FillsSay(g: Graph, from: nat, parts: seq<SplitPart>, contents: seq<Content>, now: int)
    requires |contents| == |parts| && Apply(g, Fills(from, parts, contents, now)).result.Ok?
    ensures var g' := Apply(g, Fills(from, parts, contents, now)).graph;
            && g'.nodes.Keys == g.nodes.Keys && g'.sequence == g.sequence
            && (forall n :: n in g.nodes && !IsPart(from, |parts|, n) ==> g'.nodes[n] == g.nodes[n])
            && (forall j :: 0 <= j < |parts| ==> Filled(g, g', PartId(from, j), parts[j], contents[j], now))
    decreases |parts|
  {
    hide NodeId, Failed, After, Stopped, Filled, IsPart, PartId;
    if parts != [] {
      var op, rest := Rewrite(PartId(from, 0), contents[0].facts, parts[0].typ, contents[0].embedding, now),
                      Fills(from + 1, parts[1..], contents[1..], now);
      FirstFill(from, parts, contents, now);
      ApplyAppend(g, [op], rest);
      ApplyOne(g, op);
      var g1 := After(g, op);
      FillSays(g, op, parts[0], contents[0]);
      FillsSay(g1, from + 1, parts[1..], contents[1..], now);
      var g' := Apply(g, Fills(from, parts, contents, now)).graph;
      PartsApart(from, |parts|);
      forall j | 0 <= j < |parts| ensures Filled(g, g', PartId(from, j), parts[j], contents[j], now) {
        if j == 0 {
          FilledLasts(g, g1, g', op.id, parts[0], contents[0], now);
        } else {
          assert parts[j] == parts[1..][j - 1] && contents[j] == contents[1..][j - 1];
          assert PartId(from, j) == PartId(from + 1, j - 1);
          FilledSince(g, g1, g', PartId(from, j), parts[j], contents[j], now);
        }
      }
    }
  }

  ghost predicate IsPart(from: nat, count: nat, n: Id) { exists j: nat :: j < count && n == PartId(from, j) }

  predicate Filled(g: Graph, g': Graph, part: Id, p: SplitPart, content: Content, now: int) {
    part in g.nodes && part in g'.nodes && Says(g'.nodes[part], g.nodes[part].scope, g.nodes[part].name, p.typ, content, now)
  }

  lemma FirstFill(from: nat, parts: seq<SplitPart>, contents: seq<Content>, now: int)
    requires |contents| == |parts| && parts != []
    ensures Fills(from, parts, contents, now) ==
            [Rewrite(PartId(from, 0), contents[0].facts, parts[0].typ, contents[0].embedding, now)]
            + Fills(from + 1, parts[1..], contents[1..], now)
  {
    hide NodeId;
  }

  /** The first part is none of the others, and the others are those of the rest. */
  lemma PartsApart(from: nat, count: nat)
    requires count > 0
    ensures !IsPart(from + 1, count - 1, PartId(from, 0))
    ensures forall n :: IsPart(from, count, n) <==> n == PartId(from, 0) || IsPart(from + 1, count - 1, n)
    ensures forall j: nat :: j > 0 ==> PartId(from, j) == PartId(from + 1, j - 1) && PartId(from, j) != PartId(from, 0)
  {
    hide NodeId;
    forall j: nat | j > 0 ensures PartId(from, j) == PartId(from + 1, j - 1) && PartId(from, j) != PartId(from, 0) {
      Unrepeated(from + 1 + j, from + 1);
    }
    hide PartId;
    forall n ensures IsPart(from, count, n) <==> n == PartId(from, 0) || IsPart(from + 1, count - 1, n) {
      if IsPart(from, count, n) {
        var j: nat :| j < count && n == PartId(from, j);
        if j > 0 { assert n == PartId(from + 1, j - 1); }
      }
      if IsPart(from + 1, count - 1, n) {
        var j: nat :| j < count - 1 && n == PartId(from + 1, j);
        assert n == PartId(from, j + 1);
      }
    }
    var next := from + 1;
    forall j: nat ensures PartId(next, j) != PartId(from, 0) {
      var k := j + 1;
      assert PartId(from, k) == PartId(next, j) && PartId(from, k) != PartId(from, 0);
    }
  }

  lemma FilledLasts(g: Graph, g1: Graph, g': Graph, part: Id, p: SplitPart, content: Content, now: int)
    requires Filled(g, g1, part, p, content, now) && g'.nodes.Keys == g1.nodes.Keys
    requires part in g1.nodes ==> g'.nodes[part] == g1.nodes[part]
    ensures Filled(g, g', part, p, content, now)
  {
  }

  lemma FilledSince(g: Graph, g1: Graph, g': Graph, part: Id, p: SplitPart, content: Content, now: int)
    requires Filled(g1, g', part, p, content, now) && g1.nodes.Keys == g.nodes.Keys
    requires part in g.nodes ==> g1.nodes[part] == g.nodes[part]
    ensures Filled(g, g', part, p, content, now)
  {
  }

  lemma FillSays(g: Graph, op: Op, part: SplitPart, content: Content)
    requires op.Rewrite? && op.facts == content.facts && op.embedding == content.embedding && op.typ == part.typ
    requires Failed(g, op).None?
    ensures var g' := After(g, op);
            && g'.nodes.Keys == g.nodes.Keys && g'.sequence == g.sequence
            && (forall n :: n in g.nodes && n != op.id ==> g'.nodes[n] == g.nodes[n])
            && Filled(g, g', op.id, part, content, op.now)
            && g'.nodes[op.id].aliases == g.nodes[op.id].aliases
  {
    hide UnitNorm;
    RewrittenNode(g, op.id, op.facts, op.typ, op.embedding, op.now);
  }

  /** One op of the answer, applied whole: the nodes it claims say what it states, nodes it
      does not claim are as they were, and only its parts are new. */
  ghost predicate OpLeaves(g: Graph, g': Graph, op: GlobalOp, now: int) {
    && Landed(g.nodes, g'.nodes, op, g.sequence, now)
    && g'.sequence == g.sequence + Minted([op])
    && (forall n :: n in g.nodes && n !in Claimed(op) ==> n in g'.nodes && g'.nodes[n] == g.nodes[n])
    && (forall n :: n in g'.nodes && n !in g.nodes ==> op.Splitting? && IsPart(g.sequence, |op.parts|, n))
  }

  lemma MintedOne(op: GlobalOp)
    ensures Minted([op]) == if op.Splitting? then |op.parts| else 0
  {
    assert [op][1..] == [];
  }

  lemma MergingLeaves(g: Graph, scope: string, op: GlobalOp, now: int)
    requires WellFormed(g) && op.Merging? && op.survivor in g.nodes
    requires Apply(g, Calls(BookOf(g), scope, op, now)).result.Ok?
    ensures OpLeaves(g, Apply(g, Calls(BookOf(g), scope, op, now)).graph, op, now)
  {
    hide WellFormed, MergeNodes, UnitNorm, Moved, NodesSound, IdsMinted;
    var name := g.nodes[op.survivor].name;
    var call := Merge(op.survivor, op.absorbed, name, op.typ, op.content.facts, op.content.embedding, now);
    assert Calls(BookOf(g), scope, op, now) == [call];
    ApplyOne(g, call);
    MintedOne(op);
    MergedFacts(g, op.survivor, op.absorbed, name, op.typ, op.content.facts, op.content.embedding, now);
    MergedSurvivor(g, op.survivor, op.absorbed, name, op.typ, op.content.facts, op.content.embedding, now);
  }

  lemma RewritingLeaves(g: Graph, scope: string, op: GlobalOp, now: int)
    requires op.Rewriting? && Apply(g, Calls(BookOf(g), scope, op, now)).result.Ok?
    ensures OpLeaves(g, Apply(g, Calls(BookOf(g), scope, op, now)).graph, op, now)
  {
    hide UnitNorm, Apply, States, Retires, After, Failed;
    var call := Rewrite(op.node, op.content.facts, op.typ, op.content.embedding, now);
    var edges := States(scope, op.node, op.relations, now) + Retires(op.retired);
    assert Calls(BookOf(g), scope, op, now) == [call] + edges;
    ApplyAppend(g, [call], edges);
    ApplyOne(g, call);
    RewriteGoesThrough(g, call);
    RewrittenNode(g, call.id, call.facts, call.typ, call.embedding, now);
    StatesArePass(scope, op.node, op.relations, now);
    RetiresArePass(op.retired);
    EdgeCallsKeepNodes(After(g, call), edges);
    MintedOne(op);
  }

  lemma RewriteGoesThrough(g: Graph, op: Op)
    requires op.Rewrite? && Failed(g, op).None?
    ensures ReplaceFacts(g, op.id, op.facts, op.typ, op.embedding, op.now).result.Ok?
    ensures After(g, op) == ReplaceFacts(g, op.id, op.facts, op.typ, op.embedding, op.now).graph
  {
    hide UnitNorm;
  }

  lemma SplittingLeaves(g: Graph, scope: string, op: GlobalOp, now: int)
    requires WellFormed(g) && op.Splitting? && |op.contents| == |op.parts|
    requires Apply(g, Calls(BookOf(g), scope, op, now)).result.Ok?
    ensures OpLeaves(g, Apply(g, Calls(BookOf(g), scope, op, now)).graph, op, now)
  {
    hide WellFormed, IdsMinted, Apply, Fills, Failed, Filled, NodeId, SplitNode, Says, PartId, IsPart;
    var call, fills := Split(op.node, op.parts, now), Fills(g.sequence, op.parts, op.contents, now);
    assert Calls(BookOf(g), scope, op, now) == [call] + fills;
    ApplyAppend(g, [call], fills);
    ApplyOne(g, call);
    var g1, g' := After(g, call), Apply(g, Calls(BookOf(g), scope, op, now)).graph;
    SplitLeaves(g, call);
    FillsSay(g1, g.sequence, op.parts, op.contents, now);
    MintedOne(op);
    forall j | 0 <= j < |op.parts|
      ensures PartId(g.sequence, j) in g'.nodes
      ensures Says(g'.nodes[PartId(g.sequence, j)], g.nodes[op.node].scope, op.parts[j].name, op.parts[j].typ, op.contents[j], now)
    {
      FilledSays(g1, g', PartId(g.sequence, j), op.parts[j], op.contents[j], now);
    }
  }

  lemma FilledSays(g: Graph, g': Graph, part: Id, p: SplitPart, content: Content, now: int)
    requires Filled(g, g', part, p, content, now)
    ensures part in g.nodes && part in g'.nodes
    ensures Says(g'.nodes[part], g.nodes[part].scope, g.nodes[part].name, p.typ, content, now)
  {
  }

  /** A split puts its parts in the node's place. */
  lemma SplitLeaves(g: Graph, op: Op)
    requires WellFormed(g) && op.Split? && Failed(g, op).None?
    ensures var g' := After(g, op);
            && op.id in g.nodes && op.id !in g'.nodes && g'.sequence == g.sequence + |op.parts|
            && (forall n :: n in g.nodes && n != op.id ==>
                  n in g'.nodes && g'.nodes[n] == g.nodes[n] && !IsPart(g.sequence, |op.parts|, n))
            && (forall n :: n in g'.nodes && n !in g.nodes ==> IsPart(g.sequence, |op.parts|, n))
            && (forall j :: 0 <= j < |op.parts| ==>
                  PartId(g.sequence, j) in g'.nodes
                  && g'.nodes[PartId(g.sequence, j)].scope == g.nodes[op.id].scope
                  && g'.nodes[PartId(g.sequence, j)].name == op.parts[j].name)
  {
    hide WellFormed, IdsMinted, SplitNode, NodeId;
    MintedWell(g);
    SplitNodeFacts(g, op.id, op.parts, op.now);
    var ids := SplitNode(g, op.id, op.parts, op.now).result.value;
    forall j | 0 <= j < |op.parts| ensures PartId(g.sequence, j) == ids[j] {}
    assert op.id !in ids;
  }

  lemma OpLands(g: Graph, scope: string, op: GlobalOp, now: int)
    requires WellFormed(g) && Shaped(op) && forall n :: n in Claimed(op) ==> GlobalAnswer.InScope(BookOf(g), scope, n)
    requires Apply(g, Calls(BookOf(g), scope, op, now)).result.Ok?
    ensures OpLeaves(g, Apply(g, Calls(BookOf(g), scope, op, now)).graph, op, now)
  {
    hide WellFormed, OpLeaves, EdgeTypeOk, StatementOk;
    match op
    case Merging(survivor, _, _, _) =>
      assert survivor in Claimed(op);
      MergingLeaves(g, scope, op, now);
    case Splitting(_, _, _) => SplittingLeaves(g, scope, op, now);
    case Rewriting(_, _, _, _, _) => RewritingLeaves(g, scope, op, now);
    case _ => VocabularyLeaves(g, scope, op, now);
  }

  lemma VocabularyLeaves(g: Graph, scope: string, op: GlobalOp, now: int)
    requires op.Renaming? || op.Retiring?
    requires Apply(g, Calls(BookOf(g), scope, op, now)).result.Ok?
    ensures OpLeaves(g, Apply(g, Calls(BookOf(g), scope, op, now)).graph, op, now)
  {
    hide Apply;
    EdgeCallsKeepNodes(g, Calls(BookOf(g), scope, op, now));
    MintedOne(op);
  }

  // ------------------------------------------------------------- op after op

  /** The id was minted after the first *sequence*. */
  ghost predicate MintedSince(sequence: nat, n: Id) { exists k: nat :: k > sequence && n == NodeId(k) }

  lemma NeverAgain(g: Graph, n: Id, sequence: nat)
    requires IdsMinted(g) && n in g.nodes && g.sequence <= sequence
    ensures !MintedSince(sequence, n)
  {
    hide NodeId, Num;
    assert MintedNode(n, g.sequence);
    forall k: nat | k > sequence ensures n != NodeId(k) { Unrepeated(Num(n), k); }
  }

  lemma PartsAreNew(from: nat, count: nat, n: Id, sequence: nat)
    requires IsPart(from, count, n) && sequence <= from
    ensures MintedSince(sequence, n)
  {
    hide NodeId;
    var j: nat :| j < count && n == PartId(from, j);
    var k := from + 1 + j;
    assert k > sequence && n == NodeId(k);
  }

  lemma PartIsNew(from: nat, j: nat)
    ensures MintedSince(from, PartId(from, j))
  {
    hide NodeId;
    var k := from + 1 + j;
    assert k > from && PartId(from, j) == NodeId(k);
  }

  lemma SinceMonotone(low: nat, high: nat, n: Id)
    requires low <= high && MintedSince(high, n)
    ensures MintedSince(low, n)
  {
    hide NodeId;
  }

  /** Landing is read off the claimed nodes alone. */
  lemma LandedBefore(was: map<Id, Node>, before: map<Id, Node>, nodes: map<Id, Node>, op: GlobalOp, from: nat, now: int)
    requires Landed(was, nodes, op, from, now)
    requires forall n :: n in Claimed(op) ==> n in before && n in was && before[n] == was[n]
    ensures Landed(before, nodes, op, from, now)
  {
    hide Says, PartId;
    match op
    case Merging(survivor, _, _, _) => assert survivor in Claimed(op);
    case Splitting(node, _, _) => assert node in Claimed(op);
    case Rewriting(node, _, _, _, _) => assert node in Claimed(op);
    case _ =>
  }

  /** And it lasts while nothing claims those nodes or its parts again. */
  lemma LandedLasts(g: Graph, g1: Graph, nodes: map<Id, Node>, op: GlobalOp, later: seq<Id>, now: int)
    requires IdsMinted(g) && g.sequence <= g1.sequence && Landed(g.nodes, g1.nodes, op, g.sequence, now)
    requires forall n :: n in Claimed(op) ==> n in g.nodes && n !in later
    requires forall n :: n in later ==> n in g.nodes
    requires forall n :: n in g1.nodes && n !in later ==> n in nodes && nodes[n] == g1.nodes[n]
    requires forall n :: n in nodes && n !in g1.nodes ==> MintedSince(g1.sequence, n)
    ensures Landed(g.nodes, nodes, op, g.sequence, now)
  {
    hide Says, PartId, IdsMinted, MintedSince;
    match op
    case Merging(survivor, absorbed, _, _) =>
      assert survivor in Claimed(op);
      forall a | a in absorbed ensures a !in nodes {
        assert a in Claimed(op);
        NeverAgain(g, a, g1.sequence);
      }
    case Splitting(node, parts, _) =>
      assert node in Claimed(op);
      NeverAgain(g, node, g1.sequence);
      forall j | 0 <= j < |parts|
        ensures PartId(g.sequence, j) in nodes && nodes[PartId(g.sequence, j)] == g1.nodes[PartId(g.sequence, j)]
      {
        PartIsNew(g.sequence, j);
        if PartId(g.sequence, j) in later { NeverAgain(g, PartId(g.sequence, j), g.sequence); }
      }
    case Rewriting(node, _, _, _, _) => assert node in Claimed(op);
    case _ =>
  }

  lemma MintedCons(ops: seq<GlobalOp>, i: nat)
    requires i < |ops|
    ensures Minted(ops[..i + 1]) == Minted([ops[0]]) + Minted(ops[1..][..i])
  {
    assert ops[..i + 1] == [ops[0]] + ops[1..][..i];
    assert ([ops[0]] + ops[1..][..i])[1..] == ops[1..][..i] && [ops[0]][1..] == [];
  }

  /** What the ops leave, all of them applied. */
  ghost predicate AllLeave(g: Graph, g': Graph, ops: seq<GlobalOp>, now: int) {
    && (forall i :: 0 <= i < |ops| ==> Landed(g.nodes, g'.nodes, ops[i], g.sequence + Minted(ops[..i]), now))
    && (forall n :: n in g.nodes && n !in ClaimedAll(ops) ==> n in g'.nodes && g'.nodes[n] == g.nodes[n])
    && (forall n :: n in g'.nodes && n !in g.nodes ==> MintedSince(g.sequence, n))
  }

  lemma FirstLeaves(g: Graph, scope: string, ops: seq<GlobalOp>, now: int)
    requires WellFormed(g) && Pending(BookOf(g), scope, ops) && ops != []
    requires Apply(g, CallsAll(BookOf(g), scope, ops, now)).result.Ok? && Embedded(ops[0])
    ensures var done := Apply(g, Calls(BookOf(g), scope, ops[0], now));
            && done.result.Ok? && WellFormed(done.graph) && OpLeaves(g, done.graph, ops[0], now)
            && Pending(BookOf(done.graph), scope, ops[1..])
            && Apply(g, CallsAll(BookOf(g), scope, ops, now)) == Apply(done.graph, CallsAll(BookOf(done.graph), scope, ops[1..], now))
  {
    hide WellFormed, Pending, Calls, BookOf, Apply, OpLeaves, NotedAll, AllFit, Shaped, Claimed, Embedded, Finds;
    var b := BookOf(g);
    var calls := Calls(b, scope, ops[0], now);
    ApplyAppend(g, calls, CallsAll(NotedAll(b, calls), scope, ops[1..], now));
    CallsArePass(b, scope, ops[0], now);
    PassFitsExactly(g, calls);
    PendingFirst(b, scope, ops);
    PendingRest(b, scope, ops, now);
    OpLands(g, scope, ops[0], now);
  }

  lemma {:induction false} PendingLands(g: Graph, scope: string, ops: seq<GlobalOp>, now: int)
    requires WellFormed(g) && Pending(BookOf(g), scope, ops) && AllEmbedded(ops)
    requires Apply(g, CallsAll(BookOf(g), scope, ops, now)).result.Ok?
    ensures AllLeave(g, Apply(g, CallsAll(BookOf(g), scope, ops, now)).graph, ops, now)
    decreases |ops|
  {
    hide WellFormed, Pending, Calls, BookOf, OpLeaves, NotedAll, Embedded, AllLeave, Apply, CallsAll;
    if ops == [] {
      NothingLeft(g, BookOf(g), scope, now);
    } else {
      assert Embedded(ops[0]) && AllEmbedded(ops[1..]);
      FirstLeaves(g, scope, ops, now);
      var g1 := Apply(g, Calls(BookOf(g), scope, ops[0], now)).graph;
      PendingLands(g1, scope, ops[1..], now);
      PendingHeld(g, scope, ops);
      LeaveTogether(g, g1, Apply(g, CallsAll(BookOf(g), scope, ops, now)).graph, ops, now);
    }
  }

  lemma NothingLeft(g: Graph, b: Book, scope: string, now: int)
    ensures Apply(g, CallsAll(b, scope, [], now)).graph == g && AllLeave(g, g, [], now)
  {
  }

  /** Every claimed node is live, and no two ops claim one. */
  lemma PendingHeld(g: Graph, scope: string, ops: seq<GlobalOp>)
    requires WellFormed(g) && Pending(BookOf(g), scope, ops) && ops != []
    ensures forall n :: n in Claimed(ops[0]) ==> n in g.nodes && n !in ClaimedAll(ops[1..])
    ensures forall n :: n in ClaimedAll(ops[1..]) ==> n in g.nodes && n !in Claimed(ops[0])
    ensures IdsMinted(g)
  {
    hide Claimed, ClaimedAll, Pending, Shaped, IdsMinted;
    PendingFirst(BookOf(g), scope, ops);
  }

  lemma {:induction false} ClaimedIn(ops: seq<GlobalOp>, i: nat, n: Id)
    requires i < |ops| && n in Claimed(ops[i])
    ensures n in ClaimedAll(ops)
  {
    hide Claimed;
    if i > 0 { ClaimedIn(ops[1..], i - 1, n); }
  }

  lemma LaterLanded(g: Graph, g1: Graph, g': Graph, ops: seq<GlobalOp>, now: int, i: nat)
    requires 0 < i < |ops| && OpLeaves(g, g1, ops[0], now) && AllLeave(g1, g', ops[1..], now)
    requires forall n :: n in ClaimedAll(ops[1..]) ==> n in g.nodes && n !in Claimed(ops[0])
    ensures Landed(g.nodes, g'.nodes, ops[i], g.sequence + Minted(ops[..i]), now)
  {
    hide Landed, MintedSince, Claimed, IsPart;
    var rest := ops[1..];
    MintedCons(ops, i - 1);
    assert rest[i - 1] == ops[i];
    forall n | n in Claimed(ops[i]) ensures n in g.nodes && n in g1.nodes && g.nodes[n] == g1.nodes[n] {
      ClaimedIn(rest, i - 1, n);
    }
    LandedBefore(g1.nodes, g.nodes, g'.nodes, ops[i], g.sequence + Minted(ops[..i]), now);
  }

  lemma LeaveTogether(g: Graph, g1: Graph, g': Graph, ops: seq<GlobalOp>, now: int)
    requires ops != [] && OpLeaves(g, g1, ops[0], now) && AllLeave(g1, g', ops[1..], now) && IdsMinted(g)
    requires forall n :: n in Claimed(ops[0]) ==> n in g.nodes && n !in ClaimedAll(ops[1..])
    requires forall n :: n in ClaimedAll(ops[1..]) ==> n in g.nodes && n !in Claimed(ops[0])
    ensures AllLeave(g, g', ops, now)
  {
    hide IdsMinted, Landed, MintedSince, Claimed, IsPart;
    var rest := ops[1..];
    assert ClaimedAll(ops) == Claimed(ops[0]) + ClaimedAll(rest);
    LandedLasts(g, g1, g'.nodes, ops[0], ClaimedAll(rest), now);
    forall i | 0 <= i < |ops| ensures Landed(g.nodes, g'.nodes, ops[i], g.sequence + Minted(ops[..i]), now) {
      if i == 0 { assert ops[..0] == []; } else { LaterLanded(g, g1, g', ops, now, i); }
    }
    forall n | n in g'.nodes && n !in g.nodes ensures MintedSince(g.sequence, n) {
      if n in g1.nodes { PartsAreNew(g.sequence, |ops[0].parts|, n, g.sequence); } else { SinceMonotone(g.sequence, g1.sequence, n); }
    }
  }

  /** After an accepted answer is applied whole: every rewritten node and every survivor of
      a merge says exactly the lines, type and vector its op states under the name it had,
      the absorbed and the split are gone, every part says its own content, and every node
      the answer does not claim is as it was. */
  lemma AnswerLands(g: Graph, scope: string, ops: seq<GlobalOp>, rules: Rules, now: int)
    requires WellFormed(g) && Accepted(BookOf(g), scope, ops, rules) && AllEmbedded(ops)
    requires AllFind(BookOf(g), scope, ops, now)
    ensures var g' := Apply(g, CallsAll(BookOf(g), scope, ops, now)).graph;
            && (forall i :: 0 <= i < |ops| ==> Landed(g.nodes, g'.nodes, ops[i], g.sequence + Minted(ops[..i]), now))
            && (forall n :: n in g.nodes && n !in ClaimedAll(ops) ==> n in g'.nodes && g'.nodes[n] == g.nodes[n])
            && (forall n :: n in g'.nodes && n !in g.nodes ==> MintedSince(g.sequence, n))
  {
    hide WellFormed, Pending, BookOf, Apply, CallsAll, AllFind, AllEmbedded, Landed, MintedSince, ClaimedAll, Minted;
    AppliesWholeExactly(g, scope, ops, rules, now);
    PendingLands(g, scope, ops, now);
  }

  /** And every merge mandated has been made: of the two nodes of a pair at most one is left,
      and it is the one the slate names unless their direction does not matter. */
  lemma MandatesMade(g: Graph, scope: string, ops: seq<GlobalOp>, rules: Rules, now: int, pair: Slate.MergePair)
    requires WellFormed(g) && Accepted(BookOf(g), scope, ops, rules) && AllEmbedded(ops)
    requires AllFind(BookOf(g), scope, ops, now) && pair in rules.slate && pair.doomed != pair.survivor
    ensures var nodes := Apply(g, CallsAll(BookOf(g), scope, ops, now)).graph.nodes;
            && !(pair.doomed in nodes && pair.survivor in nodes)
            && ((pair.doomed, pair.survivor) !in rules.interchangeable ==> pair.doomed !in nodes && pair.survivor in nodes)
  {
    hide WellFormed, Accepted, BookOf, Apply, CallsAll, AllFind, AllEmbedded, MintedSince, ClaimedAll, Minted, Landed;
    AnswerLands(g, scope, ops, rules, now);
    var i := MandateOp(BookOf(g), scope, ops, rules, pair);
    var g' := Apply(g, CallsAll(BookOf(g), scope, ops, now)).graph;
    assert Landed(g.nodes, g'.nodes, ops[i], g.sequence + Minted(ops[..i]), now);
    DeliverySettles(g.nodes, g'.nodes, ops[i], g.sequence + Minted(ops[..i]), now, pair);
  }

  lemma MandateOp(b: Book, scope: string, ops: seq<GlobalOp>, rules: Rules, pair: Slate.MergePair) returns (i: nat)
    requires Accepted(b, scope, ops, rules) && pair in rules.slate
    ensures i < |ops| && Delivers(ops[i], pair)
    ensures ops[i].survivor == pair.survivor || (pair.doomed, pair.survivor) in rules.interchangeable
  {
    hide Pending, Checked, Size, Grown, Claimed;
    i :| 0 <= i < |ops| && Delivers(ops[i], pair)
         && (ops[i].survivor == pair.survivor || (pair.doomed, pair.survivor) in rules.interchangeable);
  }

  lemma DeliverySettles(was: map<Id, Node>, nodes: map<Id, Node>, op: GlobalOp, from: nat, now: int, pair: Slate.MergePair)
    requires Delivers(op, pair) && Landed(was, nodes, op, from, now) && pair.doomed != pair.survivor
    ensures !(pair.doomed in nodes && pair.survivor in nodes)
    ensures op.survivor == pair.survivor ==> pair.doomed !in nodes && pair.survivor in nodes
  {
    hide Says;
    assert forall n :: n in Claimed(op) ==> n == op.survivor || n in op.absorbed;
  }

  // --------------------------------------------------------- edges of a rewrite

  /** The edge stands there saying what the answer stated, on at least its evidence. */
  ghost predicate StandsStated(g: Graph, scope: string, node: Id, r: Spec, now: int) {
    exists x :: x in g.rels && EdgeStated(g.rels[x], scope, node, r, now)
  }

  predicate EdgeStated(e: Relation, scope: string, node: Id, r: Spec, now: int) {
    && TripleOf(e) == Triple(scope, node, r.typ, r.target) && e.claim == r.claim && e.until == r.until && e.lastSeen == now
    && forall entry :: entry in r.entryIds ==> entry in e.entryIds
  }

  predicate DistinctEdges(relations: seq<Spec>) {
    forall i, j :: 0 <= i < j < |relations| ==> relations[i].typ != relations[j].typ || relations[i].target != relations[j].target
  }

  lemma StatedThere(g: Graph, scope: string, node: Id, r: Spec, now: int)
    requires WellFormed(g)
    requires Failed(g, Upsert(scope, node, r.target, r.typ, Some(r.claim), r.entryIds, r.until, now)).None?
    ensures var g' := After(g, Upsert(scope, node, r.target, r.typ, Some(r.claim), r.entryIds, r.until, now));
            && WellFormed(g') && StandsStated(g', scope, node, r, now)
            && forall s: Spec :: (s.typ != r.typ || s.target != r.target) && StandsStated(g, scope, node, s, now) ==>
                 StandsStated(g', scope, node, s, now)
  {
    hide WellFormed, UpsertRelation, EdgeTypeOk, StatementOk, RelationId;
    var op := Upsert(scope, node, r.target, r.typ, Some(r.claim), r.entryIds, r.until, now);
    PassOpKeepsWellFormed(g, op);
    UpsertedEdge(g, scope, node, r.target, r.typ, Some(r.claim), r.entryIds, r.until, now);
    UpsertedStatement(g, scope, node, r.target, r.typ, Some(r.claim), r.entryIds, r.until, now);
    var g' := After(g, op);
    var x := UpsertRelation(g, scope, node, r.target, r.typ, Some(r.claim), r.entryIds, r.until, now).result.value;
    assert EdgeStated(g'.rels[x], scope, node, r, now);
    forall s: Spec | (s.typ != r.typ || s.target != r.target) && StandsStated(g, scope, node, s, now)
      ensures StandsStated(g', scope, node, s, now)
    {
      var y :| y in g.rels && EdgeStated(g.rels[y], scope, node, s, now);
      assert y != x;
      assert y in g'.rels && EdgeStated(g'.rels[y], scope, node, s, now);
    }
  }

  lemma {:induction false} StatesStand(g: Graph, scope: string, node: Id, relations: seq<Spec>, now: int)
    requires WellFormed(g) && DistinctEdges(relations) && Apply(g, States(scope, node, relations, now)).result.Ok?
    ensures var g' := Apply(g, States(scope, node, relations, now)).graph;
            && WellFormed(g')
            && (forall i :: 0 <= i < |relations| ==> StandsStated(g', scope, node, relations[i], now))
            && (forall s: Spec :: StandsStated(g, scope, node, s, now)
                                  && (forall i :: 0 <= i < |relations| ==> s.typ != relations[i].typ || s.target != relations[i].target)
                                  ==> StandsStated(g', scope, node, s, now))
    decreases |relations|
  {
    hide WellFormed, Failed, After, Stopped, StandsStated;
    if relations != [] {
      var r, rest := relations[0], relations[1..];
      var op := Upsert(scope, node, r.target, r.typ, Some(r.claim), r.entryIds, r.until, now);
      assert States(scope, node, relations, now) == [op] + States(scope, node, rest, now);
      ApplyAppend(g, [op], States(scope, node, rest, now));
      ApplyOne(g, op);
      StatedThere(g, scope, node, r, now);
      assert forall i :: 0 <= i < |rest| ==> rest[i] == relations[i + 1];
      StatesStand(After(g, op), scope, node, rest, now);
      var g' := Apply(g, States(scope, node, relations, now)).graph;
      forall i | 0 <= i < |relations| ensures StandsStated(g', scope, node, relations[i], now) {
        if i == 0 {
          forall k | 0 <= k < |rest| ensures r.typ != rest[k].typ || r.target != rest[k].target {
            assert relations[k + 1] == rest[k];
          }
        } else {
          assert relations[i] == rest[i - 1];
        }
      }
      forall s: Spec | StandsStated(g, scope, node, s, now)
                       && (forall i :: 0 <= i < |relations| ==> s.typ != relations[i].typ || s.target != relations[i].target)
        ensures StandsStated(g', scope, node, s, now)
      {
        assert s.typ != relations[0].typ || s.target != relations[0].target;
        forall k | 0 <= k < |rest| ensures s.typ != rest[k].typ || s.target != rest[k].target {
          assert relations[k + 1] == rest[k];
        }
      }
    }
  }

  lemma {:induction false} RetiresDrop(g: Graph, edges: seq<Id>)
    requires Apply(g, Retires(edges)).result.Ok?
    ensures Apply(g, Retires(edges)).graph.rels == g.rels - Members(edges)
    decreases |edges|
  {
    hide Failed, Stopped;
    if edges == [] {
      assert g.rels - Members(edges) == g.rels;
    } else {
      var rest := edges[1..];
      assert edges == [edges[0]] + rest;
      assert Retires(edges) == [Retire(edges[0])] + Retires(rest);
      ApplyAppend(g, [Retire(edges[0])], Retires(rest));
      ApplyOne(g, Retire(edges[0]));
      RetireDrops(g, edges[0]);
      RetiresDrop(After(g, Retire(edges[0])), rest);
      assert g.rels - Members(edges) == (g.rels - {edges[0]}) - Members(rest);
    }
  }

  lemma RetireDrops(g: Graph, x: Id)
    requires Failed(g, Retire(x)).None?
    ensures After(g, Retire(x)).rels == g.rels - {x}
  {
  }

  /** Right after a rewriting is applied: every edge it states stands, saying what was stated on
      the evidence given, unless it is one of those it retires; and those are gone. */
  lemma RewritingStates(g: Graph, scope: string, op: GlobalOp, now: int)
    requires WellFormed(g) && op.Rewriting? && Shaped(op) && Apply(g, Calls(BookOf(g), scope, op, now)).result.Ok?
    ensures var g' := Apply(g, Calls(BookOf(g), scope, op, now)).graph;
            && (forall x :: x in op.retired ==> x !in g'.rels)
            && (forall i :: 0 <= i < |op.relations| ==>
                  StandsStated(g', scope, op.node, op.relations[i], now)
                  || RetiredToo(op, g, scope, op.relations[i]))
  {
    hide WellFormed, UnitNorm, Apply, States, Retires, After, Failed, EdgeTypeOk, StatementOk, StandsStated, RetiredToo;
    var call := Rewrite(op.node, op.content.facts, op.typ, op.content.embedding, now);
    var states, retires := States(scope, op.node, op.relations, now), Retires(op.retired);
    assert Calls(BookOf(g), scope, op, now) == ([call] + states) + retires;
    ApplyAppend(g, [call] + states, retires);
    ApplyAppend(g, [call], states);
    ApplyOne(g, call);
    PassOpKeepsWellFormed(g, call);
    var g1 := After(g, call);
    StatesStand(g1, scope, op.node, op.relations, now);
    var g2 := Apply(g1, states).graph;
    RetiresDrop(g2, op.retired);
    var g' := Apply(g, Calls(BookOf(g), scope, op, now)).graph;
    RewriteKeepsEdges(g, call);
    forall i | 0 <= i < |op.relations|
      ensures StandsStated(g', scope, op.node, op.relations[i], now) || RetiredToo(op, g, scope, op.relations[i])
    {
      StillStands(g, g1, g2, g', scope, op, op.relations[i], now);
    }
  }

  lemma RewriteKeepsEdges(g: Graph, op: Op)
    requires op.Rewrite? && Failed(g, op).None?
    ensures After(g, op).rels == g.rels && After(g, op).relSequence == g.relSequence
  {
    hide UnitNorm;
  }

  /** The op retires the very edge it states, by its id or by the one it is about to be given. */
  ghost predicate RetiredToo(op: GlobalOp, g: Graph, scope: string, r: Spec)
    requires op.Rewriting?
  {
    exists x :: x in op.retired && (x in g.rels ==> TripleOf(g.rels[x]) == Triple(scope, op.node, r.typ, r.target))
  }

  lemma StillStands(g: Graph, g1: Graph, g2: Graph, g': Graph, scope: string, op: GlobalOp, r: Spec, now: int)
    requires op.Rewriting? && WellFormed(g1) && g1.rels == g.rels && StandsStated(g2, scope, op.node, r, now)
    requires g'.rels == g2.rels - Members(op.retired)
    requires Apply(g1, States(scope, op.node, op.relations, now)).result.Ok?
    requires g2 == Apply(g1, States(scope, op.node, op.relations, now)).graph
    ensures StandsStated(g', scope, op.node, r, now) || RetiredToo(op, g, scope, r)
  {
    hide WellFormed, Apply, States;
    var x :| x in g2.rels && EdgeStated(g2.rels[x], scope, op.node, r, now);
    if x in op.retired {
      StatesKeepAddresses(g1, scope, op.node, op.relations, now);
      assert x in g.rels ==> TripleOf(g.rels[x]) == TripleOf(g2.rels[x]);
    } else {
      assert x in g'.rels && EdgeStated(g'.rels[x], scope, op.node, r, now);
    }
  }

  lemma {:induction false} StatesKeepAddresses(g: Graph, scope: string, node: Id, relations: seq<Spec>, now: int)
    requires WellFormed(g) && Apply(g, States(scope, node, relations, now)).result.Ok?
    ensures var rels := Apply(g, States(scope, node, relations, now)).graph.rels;
            forall x :: x in g.rels ==> x in rels && TripleOf(rels[x]) == TripleOf(g.rels[x])
    decreases |relations|
  {
    hide WellFormed, Failed, After, Stopped;
    if relations != [] {
      var r, rest := relations[0], relations[1..];
      var op := Upsert(scope, node, r.target, r.typ, Some(r.claim), r.entryIds, r.until, now);
      assert States(scope, node, relations, now) == [op] + States(scope, node, rest, now);
      ApplyAppend(g, [op], States(scope, node, rest, now));
      ApplyOne(g, op);
      StateKeepsAddresses(g, op);
      StatesKeepAddresses(After(g, op), scope, node, rest, now);
    }
  }

  lemma StateKeepsAddresses(g: Graph, op: Op)
    requires WellFormed(g) && op.Upsert? && Failed(g, op).None?
    ensures WellFormed(After(g, op))
    ensures forall x :: x in g.rels ==> x in After(g, op).rels && TripleOf(After(g, op).rels[x]) == TripleOf(g.rels[x])
  {
    hide WellFormed, UpsertRelation, EdgeTypeOk, RelationId;
    PassOpKeepsWellFormed(g, op);
    UpsertedEdge(g, op.scope, op.source, op.target, op.typ, op.claim, op.entryIds, op.until, op.now);
  }

  function Repeat(n: nat, c: char): (s: string)
    ensures |s| == n && forall i :: 0 <= i < n ==> s[i] == c
  {
    seq(n, i => c)
  }

  /** How long a record's texts may be. */
  lemma RecordLimits(n: nat)
    ensures EdgeTypeOk(Repeat(n, 'A')) <==> 2 <= n <= 32
    ensures StatementOk("AB", Repeat(n, 'x'), ["e"], None) <==> 1 <= n <= 400
    ensures StatementOk("AB", "x", ["e"], Some(Repeat(n, 'x'))) <==> 1 <= n <= 40
    ensures NodeOk("s", Repeat(n, 'x'), "t") <==> 1 <= n <= 40
    ensures NodeOk("s", "x", Repeat(n, 't')) <==> 1 <= n <= 24
  {
    hide Repeat;
    var ab, e, x := "AB", "e", "x";
    assert ab[0] == 'A' && ab[1] == 'B' && EdgeTypeOk(ab);
    assert e[0] == 'e' && !Space(e[0]) && !Blank(e);
    assert NoRepeats([e]) && forall y :: y in [e] ==> y == e;
    assert x[0] == 'x' && OneLine(x);
    assert OneLine(Repeat(n, 'x')) by {
      forall c | c in Repeat(n, 'x') ensures c == 'x' { }
    }
  }
}
