/** What every write of the concept store does to its state, errors included. */
module GraphOps {
  import opened Ids
  import opened Surfaces
  import opened GraphModel
  import opened EdgeFold

  /** A write's outcome next to the state it leaves, which an error may also change. */
  datatype Done<+T> = Done(graph: Graph, result: Outcome<T>)

  // ----------------------------------------------------------- node writes

  function CreateNode(g: Graph, scope: string, name: string, typ: string, facts: seq<Fact>, embedding: seq<real>,
                      now: int, aliases: seq<string>): Done<Id>
  {
    if !UnitNorm(embedding) then Done(g, Err(BudgetExceeded))
    else
      var g1 := g.(sequence := g.sequence + 1);
      var id := NodeId(g.sequence + 1);
      if AnyBlank(aliases) then Done(g1, Err(ValueError))
      else if !NodeOk(scope, name, typ) then Done(g1, Err(ValidationError))
      else
        var node := Node(scope, name, Canonical(name, aliases), typ, facts, embedding, true, 0, now, now, None);
        Done(g1.(nodes := g.nodes[id := node]), Ok(id))
  }

  function AddAliases(g: Graph, id: Id, names: seq<string>): Done<()> {
    if id !in g.nodes then Done(g, Err(NodeNotFound))
    else if AnyBlank(g.nodes[id].aliases + names) then Done(g, Err(ValueError))
    else
      var n := g.nodes[id];
      Done(g.(nodes := g.nodes[id := n.(aliases := Canonical(n.name, n.aliases + names))]), Ok(()))
  }

  function ReplaceFacts(g: Graph, id: Id, facts: seq<Fact>, typ: string, embedding: seq<real>, now: int): Done<()> {
    if id !in g.nodes then Done(g, Err(NodeNotFound))
    else if !UnitNorm(embedding) then Done(g, Err(BudgetExceeded))
    else
      var n := g.nodes[id].(facts := facts, typ := typ, embedding := embedding, touchedAt := now);
      Done(g.(nodes := g.nodes[id := n]), Ok(()))
  }

  // ------------------------------------------------------------ edge moves

  ghost function AffectedIds(rels: map<Id, Relation>, m: Move): set<Id> {
    set x | x in rels && Affected(m, x, rels[x])
  }

  /** The edges after a move processed in id order. */
  ghost function Moved(rels: map<Id, Relation>, m: Move): map<Id, Relation> {
    FoldAll(rels, Sorted(AffectedIds(rels, m)), m)
  }

  lemma SortedEnumerates(rels: map<Id, Relation>, m: Move)
    ensures Enumerates(Sorted(AffectedIds(rels, m)), rels, m)
  {
    AscendingDistinct(Sorted(AffectedIds(rels, m)));
  }

  predicate Touches(r: Relation, ids: set<Id>) { r.source in ids || r.target in ids }

  function DropTouching(rels: map<Id, Relation>, ids: set<Id>): map<Id, Relation> {
    map x | x in rels && !Touches(rels[x], ids) :: rels[x]
  }

  // -------------------------------------------------------------- merging

  function AbsorbedSurfaces(nodes: map<Id, Node>, absorbed: seq<Id>): seq<string> {
    if absorbed == [] then []
    else if absorbed[0] !in nodes then AbsorbedSurfaces(nodes, absorbed[1..])
    else [nodes[absorbed[0]].name] + nodes[absorbed[0]].aliases + AbsorbedSurfaces(nodes, absorbed[1..])
  }

  /** Delete the ids one by one, stopping at one that is no longer there. */
  function Deleting(nodes: map<Id, Node>, ids: seq<Id>): (map<Id, Node>, bool) {
    if ids == [] then (nodes, true)
    else if ids[0] !in nodes then (nodes, false)
    else Deleting(nodes - {ids[0]}, ids[1..])
  }

  ghost function MergeNodes(g: Graph, survivor: Id, absorbed: seq<Id>, name: string, typ: string, facts: seq<Fact>,
                            embedding: seq<real>, now: int): Done<()>
  {
    if survivor !in g.nodes || exists a :: a in absorbed && a !in g.nodes then Done(g, Err(NodeNotFound))
    else if survivor in absorbed then Done(g, Err(ValueError))
    else if exists a :: a in absorbed && g.nodes[a].scope != g.nodes[survivor].scope then Done(g, Err(ValueError))
    else if !UnitNorm(embedding) then Done(g, Err(BudgetExceeded))
    else
      var (nodes, complete) := Deleting(g.nodes, absorbed);
      var surfaces := g.nodes[survivor].aliases + AbsorbedSurfaces(g.nodes, absorbed);
      if !complete then Done(g.(nodes := nodes), Err(KeyError))
      else if AnyBlank(surfaces) then Done(g.(nodes := nodes), Err(ValueError))
      else
        var merged := g.nodes[survivor].(name := name, aliases := Canonical(name, surfaces), typ := typ,
                                         facts := facts, embedding := embedding, touchedAt := now);
        var ids := set a | a in absorbed;
        Done(g.(nodes := nodes[survivor := merged], rels := Moved(g.rels, Repoint(ids, survivor, None, now))), Ok(()))
  }

  // ------------------------------------------------------------ splitting

  datatype RawPart = Part(name: string, typ: string, relationIds: seq<Id>)

  /** A split part arrives as a validated record. */
  type SplitPart = p: RawPart | 1 <= |p.name| <= 40 && 1 <= |p.typ| <= 24 witness Part("a", "t", [])

  function Claims(parts: seq<SplitPart>): seq<Id> {
    if parts == [] then [] else parts[0].relationIds + Claims(parts[1..])
  }

  predicate ClaimsOk(g: Graph, id: Id, parts: seq<SplitPart>) {
    NoRepeats(Claims(parts)) && forall x :: x in Claims(parts) ==> x in g.rels && Touches(g.rels[x], {id})
  }

  function PartNode(scope: string, p: SplitPart, now: int): Node {
    Node(scope, p.name, [], p.typ, [], [], true, 0, now, now, None)
  }

  ghost function SplitInto(g: Graph, parent: Id, scope: string, parts: seq<SplitPart>, now: int): (Graph, seq<Id>)
    decreases |parts|
  {
    if parts == [] then (g, [])
    else
      var id := NodeId(g.sequence + 1);
      var m := Repoint({parent}, id, Some(set x | x in parts[0].relationIds), now);
      var g1 := g.(sequence := g.sequence + 1, nodes := g.nodes[id := PartNode(scope, parts[0], now)],
                   rels := Moved(g.rels, m));
      var (g2, ids) := SplitInto(g1, parent, scope, parts[1..], now);
      (g2, [id] + ids)
  }

  ghost function SplitNode(g: Graph, id: Id, parts: seq<SplitPart>, now: int): Done<seq<Id>> {
    if parts == [] then Done(g, Err(ValueError))
    else if id !in g.nodes then Done(g, Err(NodeNotFound))
    else if !ClaimsOk(g, id, parts) then Done(g, Err(ValueError))
    else
      var (g1, ids) := SplitInto(g.(nodes := g.nodes - {id}), id, g.nodes[id].scope, parts, now);
      Done(g1.(rels := DropTouching(g1.rels, {id})), Ok(ids))
  }

  // ------------------------------------------------------------- deleting

  function DeleteNodes(g: Graph, ids: seq<Id>): Graph {
    var gone := set x | x in ids && x in g.nodes;
    g.(nodes := g.nodes - gone, rels := if gone == {} then g.rels else DropTouching(g.rels, gone))
  }

  // ---------------------------------------------------------------- edges

  ghost function UpsertRelation(g: Graph, scope: string, source: Id, target: Id, typ: string, claim: Option<string>,
                                entryIds: seq<Id>, until: Option<string>, now: int): Done<Id>
  {
    if !EdgeTypeOk(typ) || entryIds == [] then Done(g, Err(ValueError))
    else if source !in g.nodes || target !in g.nodes then Done(g, Err(NodeNotFound))
    else if source == target || g.nodes[source].scope != scope || g.nodes[target].scope != scope then
      Done(g, Err(ValueError))
    else match ByTriple(g.rels, Triple(scope, source, typ, target))
      case Some(x) =>
        if x !in g.rels then Done(g, Err(KeyError))
        else
          var e := g.rels[x];
          var r := e.(claim := if claim.Some? then claim.value else e.claim,
                      entryIds := Union(e.entryIds, entryIds),
                      until := if claim.Some? then until else e.until, lastSeen := now);
          Done(g.(rels := g.rels[x := r]), Ok(x))
      case None =>
        if claim.None? then Done(g, Err(ValueError))
        else
          var id := RelationId(g.relSequence + 1);
          var g1 := g.(relSequence := g.relSequence + 1);
          if !StatementOk(typ, claim.value, entryIds, until) then Done(g1, Err(ValidationError))
          else
            var r := Relation(scope, source, target, typ, claim.value, entryIds, until, now, now);
            Done(g1.(rels := g.rels[id := r]), Ok(id))
  }

  function RetireRelation(g: Graph, id: Id): Done<()> {
    if id !in g.rels then Done(g, Err(NodeNotFound)) else Done(g.(rels := g.rels - {id}), Ok(()))
  }

  ghost function RenameEdgeType(g: Graph, scope: string, was: string, becomes: string): Done<nat> {
    if !EdgeTypeOk(becomes) || was == becomes then Done(g, Err(ValueError))
    else
      var m := Relabel(scope, was, becomes);
      Done(g.(rels := Moved(g.rels, m)), Ok(|AffectedIds(g.rels, m)|))
  }

  // ---------------------------------------------------------- bookkeeping

  function MarkDirty(g: Graph, ids: seq<Id>): Graph {
    g.(nodes := map n | n in g.nodes :: if n in ids then g.nodes[n].(dirty := true) else g.nodes[n])
  }

  function ClearDirty(g: Graph, ids: seq<Id>, now: int): Graph {
    g.(nodes := map n | n in g.nodes ::
      if n in ids then g.nodes[n].(dirty := false, dreamedAt := Some(now)) else g.nodes[n])
  }

  function Times(n: Id, ids: seq<Id>): nat {
    if ids == [] then 0 else (if ids[0] == n then 1 else 0) + Times(n, ids[1..])
  }

  /** One read counted per mention. */
  function RecordRead(g: Graph, ids: seq<Id>): Graph {
    g.(nodes := map n | n in g.nodes :: g.nodes[n].(readCount := g.nodes[n].readCount + Times(n, ids)))
  }

  // ============================================== well-formedness is kept

  lemma FreshNode(g: Graph)
    requires IdsMinted(g)
    ensures NodeId(g.sequence + 1) !in g.nodes && MintedNode(NodeId(g.sequence + 1), g.sequence + 1)
    ensures forall n :: n in g.nodes ==> MintedNode(n, g.sequence + 1)
  {
    hide NodeId, Num;
    NumOfRendered(g.sequence + 1);
    forall n | n in g.nodes ensures MintedNode(n, g.sequence + 1) { MintedMonotone(n, g.sequence, g.sequence + 1); }
  }

  lemma FreshIsMinted(n: nat)
    requires n >= 1
    ensures MintedNode(NodeId(n), n)
  {
    hide NodeId, Num;
    NumOfRendered(n);
  }

  lemma MintedIsNotFresh(id: Id, bound: nat)
    requires MintedNode(id, bound)
    ensures id != NodeId(bound + 1)
  {
    hide NodeId, Num;
    NumOfRendered(bound + 1);
  }

  lemma FreshNodes(g: Graph, i: nat)
    requires IdsMinted(g)
    ensures NodeId(g.sequence + 1 + i) !in g.nodes && MintedNode(NodeId(g.sequence + 1 + i), g.sequence + 1 + i)
  {
    hide NodeId, Num;
    NumOfRendered(g.sequence + 1 + i);
  }

  lemma FreshRelation(g: Graph)
    requires IdsMinted(g)
    ensures RelationId(g.relSequence + 1) !in g.rels && MintedRelation(RelationId(g.relSequence + 1), g.relSequence + 1)
    ensures forall x :: x in g.rels ==> MintedRelation(x, g.relSequence + 1)
  {
    hide RelationId, Num;
    NumOfRendered(g.relSequence + 1);
    forall x | x in g.rels ensures MintedRelation(x, g.relSequence + 1) {
      MintedMonotone(x, g.relSequence, g.relSequence + 1);
    }
  }

  /** Edges stay sound while their endpoints stay, in the same scopes. */
  lemma EdgesStaySound(g: Graph, g': Graph)
    requires EdgesSound(g) && g'.rels == g.rels
    requires forall n :: n in g.nodes ==> n in g'.nodes && g'.nodes[n].scope == g.nodes[n].scope
    ensures EdgesSound(g')
  {
    hide MintedNode, MintedRelation, EdgeTypeOk, NodeSound;
    forall x | x in g.rels ensures EdgeOk(g', g.rels[x]) { assert EdgeOk(g, g.rels[x]); }
  }

  lemma SetNodeKeepsWellFormed(g: Graph, id: Id, node: Node, sequence: nat)
    requires WellFormed(g) && NodeSound(node) && g.sequence <= sequence && MintedNode(id, sequence)
    requires id in g.nodes ==> node.scope == g.nodes[id].scope
    ensures WellFormed(g.(nodes := g.nodes[id := node], sequence := sequence))
  {
    hide MintedNode, MintedRelation, EdgeTypeOk, NodeSound;
    var g' := g.(nodes := g.nodes[id := node], sequence := sequence);
    EdgesStaySound(g, g');
    forall n | n in g.nodes ensures MintedNode(n, sequence) { MintedMonotone(n, g.sequence, sequence); }
  }

  lemma SoundIsScoped(n: Node)
    requires NodeSound(n)
    ensures n.scope != ""
  {
  }

  lemma CanonicalSound(n: Node, name: string, aliases: seq<string>)
    requires n.scope != "" && !AnyBlank(aliases)
    ensures NodeSound(n.(name := name, aliases := Canonical(name, aliases)))
  {
    CanonicalIdempotent(name, aliases);
    CanonicalRoutes(name, aliases);
  }

  lemma CreateKeepsWellFormed(g: Graph, scope: string, name: string, typ: string, facts: seq<Fact>,
                              embedding: seq<real>, now: int, aliases: seq<string>)
    requires WellFormed(g)
    ensures WellFormed(CreateNode(g, scope, name, typ, facts, embedding, now, aliases).graph)
  {
    hide MintedNode, MintedRelation, EdgeTypeOk, NodeSound, NodeId, Canonical, UnitNorm;
    FreshNode(g);
    var id := NodeId(g.sequence + 1);
    var done := CreateNode(g, scope, name, typ, facts, embedding, now, aliases);
    if done.result.Ok? {
      var node := done.graph.nodes[id];
      CanonicalSound(node, name, aliases);
      SetNodeKeepsWellFormed(g, id, node, g.sequence + 1);
    } else {
      EdgesStaySound(g, done.graph);
    }
  }

  lemma AliasesKeepWellFormed(g: Graph, id: Id, names: seq<string>)
    requires WellFormed(g)
    ensures WellFormed(AddAliases(g, id, names).graph)
  {
    hide MintedNode, MintedRelation, EdgeTypeOk, NodeSound, NodeId, Canonical, UnitNorm;
    var done := AddAliases(g, id, names);
    if done.result.Ok? {
      var n := g.nodes[id];
      SoundIsScoped(n);
      CanonicalSound(n, n.name, n.aliases + names);
      SetNodeKeepsWellFormed(g, id, done.graph.nodes[id], g.sequence);
    }
  }

  lemma FactsKeepWellFormed(g: Graph, id: Id, facts: seq<Fact>, typ: string, embedding: seq<real>, now: int)
    requires WellFormed(g)
    ensures WellFormed(ReplaceFacts(g, id, facts, typ, embedding, now).graph)
  {
    hide MintedNode, MintedRelation, EdgeTypeOk, NodeId, Canonical, UnitNorm;
    var done := ReplaceFacts(g, id, facts, typ, embedding, now);
    if done.result.Ok? {
      assert NodeSound(g.nodes[id]);
      SetNodeKeepsWellFormed(g, id, done.graph.nodes[id], g.sequence);
    }
  }

  lemma {:induction false} DeletingAll(nodes: map<Id, Node>, ids: seq<Id>)
    requires forall x :: x in ids ==> x in nodes
    ensures Deleting(nodes, ids).1 <==> NoRepeats(ids)
    ensures NoRepeats(ids) ==> Deleting(nodes, ids).0 == nodes - set x | x in ids
  {
    if ids != [] {
      assert ids == [ids[0]] + ids[1..];
      assert ids[0] in ids && forall x :: x in ids[1..] ==> x in ids;
      if ids[0] in ids[1..] {
        var k :| 0 <= k < |ids[1..]| && ids[1..][k] == ids[0];
        assert ids[0] == ids[k + 1];
        DeletingStops(nodes - {ids[0]}, ids[1..], ids[0]);
      } else {
        DeletingAll(nodes - {ids[0]}, ids[1..]);
        assert NoRepeats(ids) <==> NoRepeats(ids[1..]) by {
          if NoRepeats(ids) {
            forall i, j | 0 <= i < j < |ids[1..]| ensures ids[1..][i] != ids[1..][j] {
              assert ids[i + 1] != ids[j + 1];
            }
          }
          if NoRepeats(ids[1..]) {
            forall i, j | 0 <= i < j < |ids| ensures ids[i] != ids[j] {
              assert ids[j] == ids[1..][j - 1];
              if i > 0 { assert ids[i] == ids[1..][i - 1]; }
            }
          }
        }
        assert (set x | x in ids) == {ids[0]} + set x | x in ids[1..];
        assert nodes - {ids[0]} - (set x | x in ids[1..]) == nodes - set x | x in ids;
      }
    }
  }

  lemma {:induction false} DeletingStops(nodes: map<Id, Node>, ids: seq<Id>, missing: Id)
    requires missing in ids && missing !in nodes
    ensures !Deleting(nodes, ids).1
  {
    if ids[0] in nodes {
      assert ids == [ids[0]] + ids[1..];
      DeletingStops(nodes - {ids[0]}, ids[1..], missing);
    }
  }

  /** A move that lands edges only on live endpoints keeps every edge sound. */
  lemma MovedFacts(rels: map<Id, Relation>, m: Move)
    requires UniqueTriples(rels) && Settles(m)
    ensures UniqueTriples(Moved(rels, m)) && Moved(rels, m).Keys <= rels.Keys
    ensures forall x :: x in Moved(rels, m) ==> Came(rels, m, x, Moved(rels, m)[x])
  {
    var order := Sorted(AffectedIds(rels, m));
    SortedEnumerates(rels, m);
    FoldCharacterized(rels, order, m);
    forall x | x in Moved(rels, m) ensures Came(rels, m, x, Moved(rels, m)[x]) {
      var r := Moved(rels, m)[x];
      var t := TripleOf(r);
      assert Entry(Moved(rels, m), x, r);
      ByTripleUnique(rels, t);
      GatheredCame(rels, order, m, t, HolderAt(rels, m, t));
    }
  }

  /** *r* is an unaffected edge of the store or an affected one at its new address,
      up to the evidence and dates it took over. */
  predicate Came(rels: map<Id, Relation>, m: Move, x: Id, r: Relation) {
    x in rels &&
    if Affected(m, x, rels[x]) then Lands(rels, m, x, TripleOf(r)) else TripleOf(r) == TripleOf(rels[x])
  }

  lemma {:induction false} GatheredCame(rels: map<Id, Relation>, order: seq<Id>, m: Move, t: Triple, held: Held)
    requires forall x :: x in order ==> x in rels && Affected(m, x, rels[x])
    requires held.Some? ==> TripleOf(held.value.1) == t && Came(rels, m, held.value.0, held.value.1)
    ensures var h := Gathered(rels, order, m, t, held);
            h.Some? ==> TripleOf(h.value.1) == t && Came(rels, m, h.value.0, h.value.1)
  {
    if order != [] {
      assert order[0] in order;
      assert forall x :: x in order[1..] ==> x in order;
      if Lands(rels, m, order[0], t) {
        GatheredCame(rels, order[1..], m, t,
                     Joined(m, held, order[0], rels[order[0]], Readdressed(m, rels[order[0]]).value));
      } else {
        GatheredCame(rels, order[1..], m, t, held);
      }
    }
  }

  /** Whether a merge fails only after it has started deleting. */
  predicate FailsMidway(g: Graph, survivor: Id, absorbed: seq<Id>, embedding: seq<real>) {
    && survivor in g.nodes && (forall a :: a in absorbed ==> a in g.nodes) && survivor !in absorbed
    && (forall a :: a in absorbed ==> g.nodes[a].scope == g.nodes[survivor].scope)
    && UnitNorm(embedding)
    && (!NoRepeats(absorbed) || AnyBlank(g.nodes[survivor].aliases + AbsorbedSurfaces(g.nodes, absorbed)))
  }

  /** A merge that does not fail midway keeps the graph well formed:
      endpoints live, no self-loop, one edge per triple. */
  lemma MergeKeepsWellFormed(g: Graph, survivor: Id, absorbed: seq<Id>, name: string, typ: string, facts: seq<Fact>,
                             embedding: seq<real>, now: int)
    requires WellFormed(g) && !FailsMidway(g, survivor, absorbed, embedding)
    ensures var done := MergeNodes(g, survivor, absorbed, name, typ, facts, embedding, now);
            WellFormed(done.graph) && (done.result.Err? ==> done.graph == g)
  {
    hide MintedNode, MintedRelation, EdgeTypeOk, NodeSound, Canonical, UnitNorm, Moved;
    var done := MergeNodes(g, survivor, absorbed, name, typ, facts, embedding, now);
    if done.result.Ok? {
      MergedFacts(g, survivor, absorbed, name, typ, facts, embedding, now);
      MergedEdgesSound(g, done.graph, survivor, (set a | a in absorbed), now);
    } else if survivor in g.nodes && forall a :: a in absorbed ==> a in g.nodes {
      DeletingAll(g.nodes, absorbed);
    }
  }

  /** The state a successful merge leaves, field by field. */
  lemma MergedFacts(g: Graph, survivor: Id, absorbed: seq<Id>, name: string, typ: string, facts: seq<Fact>,
                    embedding: seq<real>, now: int)
    requires WellFormed(g) && MergeNodes(g, survivor, absorbed, name, typ, facts, embedding, now).result.Ok?
    ensures var g' := MergeNodes(g, survivor, absorbed, name, typ, facts, embedding, now).graph;
            var ids := set a | a in absorbed;
            && survivor in g.nodes && survivor !in ids && ids <= g.nodes.Keys
            && (forall a :: a in ids ==> g.nodes[a].scope == g.nodes[survivor].scope)
            && g'.nodes.Keys == g.nodes.Keys - ids
            && (forall n :: n in g'.nodes && n != survivor ==> g'.nodes[n] == g.nodes[n])
            && g'.nodes[survivor].scope == g.nodes[survivor].scope
            && NodesSound(g'.nodes) && IdsMinted(g'.(rels := map[]))
            && g'.rels == Moved(g.rels, Repoint(ids, survivor, None, now))
            && g'.sequence == g.sequence && g'.relSequence == g.relSequence
  {
    hide MintedNode, MintedRelation, EdgeTypeOk, UnitNorm, Moved, Canonical, AnyBlank, AbsorbedSurfaces, UniqueTriples, EdgesSound;
    var surfaces := g.nodes[survivor].aliases + AbsorbedSurfaces(g.nodes, absorbed);
    assert NodeSound(g.nodes[survivor]);
    DeletingAll(g.nodes, absorbed);
    CanonicalSound(g.nodes[survivor], name, surfaces);
  }

  /** What the survivor itself then says: the stated name, type, lines and vector, with
      its own history. */
  lemma MergedSurvivor(g: Graph, survivor: Id, absorbed: seq<Id>, name: string, typ: string, facts: seq<Fact>,
                       embedding: seq<real>, now: int)
    requires MergeNodes(g, survivor, absorbed, name, typ, facts, embedding, now).result.Ok?
    ensures var g' := MergeNodes(g, survivor, absorbed, name, typ, facts, embedding, now).graph;
            && survivor in g.nodes && survivor in g'.nodes
            && var was, node := g.nodes[survivor], g'.nodes[survivor];
            && node.name == name && node.typ == typ && node.facts == facts && node.embedding == embedding
            && UnitNorm(embedding) && node.touchedAt == now && !AnyBlank(was.aliases + AbsorbedSurfaces(g.nodes, absorbed))
            && node.scope == was.scope && node.dirty == was.dirty && node.readCount == was.readCount
            && node.createdAt == was.createdAt && node.dreamedAt == was.dreamedAt
  {
    hide UnitNorm, AnyBlank, Canonical, AbsorbedSurfaces, Deleting, Moved;
  }

  lemma MergedEdgesSound(g: Graph, g': Graph, survivor: Id, ids: set<Id>, now: int)
    requires WellFormed(g) && survivor in g.nodes && survivor !in ids && ids <= g.nodes.Keys
    requires forall a :: a in ids ==> g.nodes[a].scope == g.nodes[survivor].scope
    requires g'.rels == Moved(g.rels, Repoint(ids, survivor, None, now))
    requires g'.nodes.Keys == g.nodes.Keys - ids
    requires forall n :: n in g'.nodes ==> g'.nodes[n].scope == g.nodes[n].scope
    ensures UniqueTriples(g'.rels) && EdgesSound(g') && g'.rels.Keys <= g.rels.Keys
  {
    hide MintedNode, MintedRelation, EdgeTypeOk, Moved, NodeSound, UnitNorm;
    var m := Repoint(ids, survivor, None, now);
    MovedFacts(g.rels, m);
    forall x | x in g'.rels ensures EdgeOk(g', g'.rels[x]) && EdgeTypeOk(g'.rels[x].typ) {
      assert Came(g.rels, m, x, g'.rels[x]);
      assert EdgeOk(g, g.rels[x]) && EdgeTypeOk(g.rels[x].typ);
    }
  }

  lemma DeleteKeepsWellFormed(g: Graph, ids: seq<Id>)
    requires WellFormed(g)
    ensures WellFormed(DeleteNodes(g, ids))
  {
    hide MintedNode, MintedRelation, EdgeTypeOk, NodeSound;
    var g' := DeleteNodes(g, ids);
    forall x | x in g'.rels ensures EdgeOk(g', g'.rels[x]) {
      assert EdgeOk(g, g.rels[x]);
    }
  }

  lemma UpsertKeepsWellFormed(g: Graph, scope: string, source: Id, target: Id, typ: string, claim: Option<string>,
                              entryIds: seq<Id>, until: Option<string>, now: int)
    requires WellFormed(g)
    ensures WellFormed(UpsertRelation(g, scope, source, target, typ, claim, entryIds, until, now).graph)
  {
    hide MintedNode, MintedRelation, EdgeTypeOk, StatementOk, RelationId, Union, ByTriple, NodeSound;
    var done := UpsertRelation(g, scope, source, target, typ, claim, entryIds, until, now);
    if done.result.Ok? {
      UpsertedEdge(g, scope, source, target, typ, claim, entryIds, until, now);
      SetEdgeKeepsWellFormed(g, done.result.value, done.graph.rels[done.result.value], done.graph.relSequence);
    } else {
      FreshRelation(g);
      EdgesStaySound(g, done.graph);
    }
  }

  /** A successful upsert sets exactly one edge, the one with the stated identity. */
  lemma UpsertedEdge(g: Graph, scope: string, source: Id, target: Id, typ: string, claim: Option<string>,
                     entryIds: seq<Id>, until: Option<string>, now: int)
    requires WellFormed(g)
    requires UpsertRelation(g, scope, source, target, typ, claim, entryIds, until, now).result.Ok?
    ensures var done := UpsertRelation(g, scope, source, target, typ, claim, entryIds, until, now);
            var x, t := done.result.value, Triple(scope, source, typ, target);
            && x in done.graph.rels && TripleOf(done.graph.rels[x]) == t
            && done.graph == g.(rels := g.rels[x := done.graph.rels[x]], relSequence := done.graph.relSequence)
            && EdgeOk(g, done.graph.rels[x]) && EdgeTypeOk(typ)
            && g.relSequence <= done.graph.relSequence && MintedRelation(x, done.graph.relSequence)
            && (forall y :: y in g.rels && TripleOf(g.rels[y]) == t ==> y == x)
            && (x !in g.rels ==> x == RelationId(g.relSequence + 1) && done.graph.relSequence == g.relSequence + 1)
            && (x in g.rels ==> TripleOf(g.rels[x]) == t && done.graph.relSequence == g.relSequence)
  {
    hide MintedNode, MintedRelation, EdgeTypeOk, StatementOk, RelationId, Union, ByTriple, NodeSound;
    var t := Triple(scope, source, typ, target);
    ByTripleUnique(g.rels, t);
    FreshRelation(g);
    if ByTriple(g.rels, t).Some? {
      assert EdgeOk(g, g.rels[ByTriple(g.rels, t).value]);
    }
  }

  /** What that edge then says: its evidence is the old and the given, a stated claim
      brings its marker, an unstated one leaves both, and its age is kept. */
  lemma UpsertedStatement(g: Graph, scope: string, source: Id, target: Id, typ: string, claim: Option<string>,
                          entryIds: seq<Id>, until: Option<string>, now: int)
    requires WellFormed(g)
    requires UpsertRelation(g, scope, source, target, typ, claim, entryIds, until, now).result.Ok?
    ensures var done := UpsertRelation(g, scope, source, target, typ, claim, entryIds, until, now);
            && done.result.value in done.graph.rels
            && var x, r := done.result.value, done.graph.rels[done.result.value];
            && (forall e :: e in r.entryIds <==> e in entryIds || (x in g.rels && e in g.rels[x].entryIds))
            && r.lastSeen == now && r.firstSeen == (if x in g.rels then g.rels[x].firstSeen else now)
            && (claim.Some? ==> r.claim == claim.value && r.until == until)
            && (claim.None? ==> x in g.rels && r.claim == g.rels[x].claim && r.until == g.rels[x].until)
            && (x !in g.rels ==> StatementOk(typ, r.claim, r.entryIds, r.until))
  {
    hide MintedNode, MintedRelation, EdgeTypeOk, StatementOk, RelationId, Union, ByTriple, NodeSound;
    var t := Triple(scope, source, typ, target);
    ByTripleUnique(g.rels, t);
    FreshRelation(g);
    if ByTriple(g.rels, t).Some? { UnionHolds(g.rels[ByTriple(g.rels, t).value].entryIds, entryIds); }
  }

  lemma SetEdgeKeepsWellFormed(g: Graph, id: Id, r: Relation, relSequence: nat)
    requires WellFormed(g) && EdgeOk(g, r) && EdgeTypeOk(r.typ)
    requires g.relSequence <= relSequence && MintedRelation(id, relSequence)
    requires forall x :: x in g.rels && TripleOf(g.rels[x]) == TripleOf(r) ==> x == id
    ensures WellFormed(g.(rels := g.rels[id := r], relSequence := relSequence))
  {
    hide MintedNode, MintedRelation, EdgeTypeOk;
    var g' := g.(rels := g.rels[id := r], relSequence := relSequence);
    forall x | x in g'.rels
      ensures EdgeOk(g', g'.rels[x]) && EdgeTypeOk(g'.rels[x].typ) && MintedRelation(x, relSequence)
    {
      if x != id {
        assert EdgeOk(g, g.rels[x]) && EdgeTypeOk(g.rels[x].typ);
        MintedMonotone(x, g.relSequence, relSequence);
      }
    }
  }

  lemma RetireKeepsWellFormed(g: Graph, id: Id)
    requires WellFormed(g)
    ensures WellFormed(RetireRelation(g, id).graph)
  {
    hide MintedNode, MintedRelation, EdgeTypeOk, NodeSound;
    assert forall x :: x in g.rels ==> EdgeOk(g, g.rels[x]);
  }

  lemma RenameKeepsWellFormed(g: Graph, scope: string, was: string, becomes: string)
    requires WellFormed(g)
    ensures WellFormed(RenameEdgeType(g, scope, was, becomes).graph)
  {
    hide MintedNode, MintedRelation, EdgeTypeOk, NodeSound, Moved;
    var done := RenameEdgeType(g, scope, was, becomes);
    if done.result.Ok? {
      var m := Relabel(scope, was, becomes);
      MovedFacts(g.rels, m);
      forall x | x in done.graph.rels ensures EdgeOk(done.graph, done.graph.rels[x]) && EdgeTypeOk(done.graph.rels[x].typ) {
        assert Came(g.rels, m, x, done.graph.rels[x]);
        assert EdgeOk(g, g.rels[x]);
      }
    }
  }

  /** The two graphs assert the same: only how nodes were used differs. */
  ghost predicate SameBeliefs(g: Graph, g': Graph) {
    && g'.rels == g.rels && g'.sequence == g.sequence && g'.relSequence == g.relSequence
    && g'.nodes.Keys == g.nodes.Keys
    && forall n :: n in g.nodes ==> SameNodeBeliefs(g.nodes[n], g'.nodes[n])
  }

  predicate SameNodeBeliefs(n: Node, n': Node) {
    n'.scope == n.scope && n'.name == n.name && n'.aliases == n.aliases && n'.typ == n.typ && n'.facts == n.facts
  }

  lemma BookkeepingChangesNoBelief(g: Graph, ids: seq<Id>, now: int)
    ensures SameBeliefs(g, MarkDirty(g, ids)) && SameBeliefs(g, ClearDirty(g, ids, now)) && SameBeliefs(g, RecordRead(g, ids))
  {
  }

  lemma SameBeliefsKeepWellFormed(g: Graph, g': Graph)
    requires WellFormed(g) && SameBeliefs(g, g')
    ensures WellFormed(g')
  {
    hide MintedNode, MintedRelation, EdgeTypeOk;
    EdgesStaySound(g, g');
    forall n | n in g'.nodes ensures NodeSound(g'.nodes[n]) {
      assert SameNodeBeliefs(g.nodes[n], g'.nodes[n]) && NodeSound(g.nodes[n]);
    }
  }

  // ------------------------------------------------- what a split leaves behind

  function Repointed(r: Relation, parent: Id, onto: Id, now: int): Relation {
    r.(source := if r.source == parent then onto else r.source,
       target := if r.target == parent then onto else r.target, lastSeen := now)
  }

  /** Re-pointing one node's edges at a node nothing points at yet folds nothing. */
  lemma MovedToFresh(rels: map<Id, Relation>, parent: Id, onto: Id, only: set<Id>, now: int)
    requires UniqueTriples(rels) && parent != onto
    requires forall x :: x in rels ==> rels[x].source != rels[x].target && !Touches(rels[x], {onto})
    ensures Moved(rels, Repoint({parent}, onto, Some(only), now)) ==
            map x | x in rels :: if x in only && Touches(rels[x], {parent}) then Repointed(rels[x], parent, onto, now)
                                 else rels[x]
  {
    var m := Repoint({parent}, onto, Some(only), now);
    var order := Sorted(AffectedIds(rels, m));
    var out := map x | x in rels :: if x in only && Touches(rels[x], {parent}) then Repointed(rels[x], parent, onto, now)
                                    else rels[x];
    SortedEnumerates(rels, m);
    FoldCharacterized(rels, order, m);
    SingleClashFree(rels, m);
    forall x, r ensures Entry(Moved(rels, m), x, r) <==> Entry(out, x, r) {
      FreshDirect(rels, m, parent, x, r, out);
      ClashFreeGathers(rels, order, m, TripleOf(r));
    }
    SameEntries(Moved(rels, m), out);
  }

  lemma FreshDirect(rels: map<Id, Relation>, m: Move, parent: Id, x: Id, r: Relation, out: map<Id, Relation>)
    requires UniqueTriples(rels) && m.Repoint? && m.moved == {parent} && m.only.Some? && parent != m.onto
    requires forall y :: y in rels ==> rels[y].source != rels[y].target && !Touches(rels[y], {m.onto})
    requires out == map y | y in rels :: if y in m.only.value && Touches(rels[y], {parent})
                                         then Repointed(rels[y], parent, m.onto, m.now) else rels[y]
    ensures Direct(rels, m, TripleOf(r)) == Some((x, r)) <==> Entry(out, x, r)
  {
    hide UniqueTriples;
    var t := TripleOf(r);
    if y :| y in rels && Affected(m, y, rels[y]) && Lands(rels, m, y, t) {
      FreshLanding(rels, m, parent, y, t, out);
      HolderAbsent(rels, m, t);
      SingleClashFree(rels, m);
      assert Direct(rels, m, t) == Some((y, out[y]));
      if Entry(out, x, r) {
        FreshEntryLands(rels, m, parent, y, x, out);
      }
    } else {
      if Entry(out, x, r) {
        assert Affected(m, x, rels[x]) ==> Lands(rels, m, x, t);
        HolderIs(rels, m, t, x);
      }
    }
  }

  lemma FreshLanding(rels: map<Id, Relation>, m: Move, parent: Id, y: Id, t: Triple, out: map<Id, Relation>)
    requires m.Repoint? && m.moved == {parent} && m.only.Some? && parent != m.onto
    requires forall y :: y in rels ==> rels[y].source != rels[y].target && !Touches(rels[y], {m.onto})
    requires out == map y | y in rels :: if y in m.only.value && Touches(rels[y], {parent})
                                         then Repointed(rels[y], parent, m.onto, m.now) else rels[y]
    requires y in rels && Affected(m, y, rels[y]) && Lands(rels, m, y, t)
    ensures Readdressed(m, rels[y]).value == out[y] && TripleOf(out[y]) == t
    ensures forall x :: x in rels ==> TripleOf(rels[x]) != t
  {
    forall x | x in rels ensures TripleOf(rels[x]) != t { assert !Touches(rels[x], {m.onto}); }
  }

  lemma FreshEntryLands(rels: map<Id, Relation>, m: Move, parent: Id, y: Id, x: Id, out: map<Id, Relation>)
    requires ClashFree(rels, m) && m.Repoint? && m.moved == {parent} && m.only.Some? && parent != m.onto
    requires forall y :: y in rels ==> rels[y].source != rels[y].target && !Touches(rels[y], {m.onto})
    requires out == map y | y in rels :: if y in m.only.value && Touches(rels[y], {parent})
                                         then Repointed(rels[y], parent, m.onto, m.now) else rels[y]
    requires x in rels && y in rels && Affected(m, y, rels[y]) && Lands(rels, m, y, TripleOf(out[x]))
    ensures x == y
  {
    FreshLanding(rels, m, parent, y, TripleOf(out[x]), out);
    assert TripleOf(rels[x]) != TripleOf(out[x]);
    assert Affected(m, x, rels[x]) && Readdressed(m, rels[x]) == Some(out[x]);
  }

  lemma {:induction false} ClaimedOnce(parts: seq<SplitPart>)
    requires parts != [] && NoRepeats(Claims(parts))
    ensures NoRepeats(Claims(parts[1..]))
    ensures forall x :: x in parts[0].relationIds ==> x !in Claims(parts[1..])
    ensures forall x :: x in Claims(parts) <==> x in parts[0].relationIds || x in Claims(parts[1..])
  {
    var a, b := parts[0].relationIds, Claims(parts[1..]);
    assert forall i :: 0 <= i < |b| ==> (a + b)[|a| + i] == b[i];
    forall x | x in a ensures x !in b {
      var i :| 0 <= i < |a| && a[i] == x;
      assert (a + b)[i] == x;
      forall j | 0 <= j < |b| ensures b[j] != x { assert (a + b)[|a| + j] != x; }
    }
  }

  ghost predicate EndpointsMinted(g: Graph) {
    forall x :: x in g.rels ==>
      (&& g.rels[x].source != g.rels[x].target
       && MintedNode(g.rels[x].source, g.sequence) && MintedNode(g.rels[x].target, g.sequence))
  }

  ghost predicate ClaimsTouch(g: Graph, parent: Id, parts: seq<SplitPart>) {
    NoRepeats(Claims(parts)) && forall x :: x in Claims(parts) ==> x in g.rels && Touches(g.rels[x], {parent})
  }

  ghost function SplitFirst(g: Graph, parent: Id, scope: string, part: SplitPart, now: int): Graph {
    var id := NodeId(g.sequence + 1);
    g.(sequence := g.sequence + 1, nodes := g.nodes[id := PartNode(scope, part, now)],
       rels := Moved(g.rels, Repoint({parent}, id, Some(set x | x in part.relationIds), now)))
  }

  lemma SplitFirstEdges(g: Graph, parent: Id, scope: string, part: SplitPart, now: int)
    requires UniqueTriples(g.rels) && MintedNode(parent, g.sequence) && EndpointsMinted(g)
    ensures var g1 := SplitFirst(g, parent, scope, part, now);
            && UniqueTriples(g1.rels)
            && g1.rels == map x | x in g.rels ::
                 if x in part.relationIds && Touches(g.rels[x], {parent})
                 then Repointed(g.rels[x], parent, NodeId(g.sequence + 1), now) else g.rels[x]
  {
    hide NodeId, Num, Moved, MintedNode, PartNode, Repointed, Affected;
    var id := NodeId(g.sequence + 1);
    var only := set x | x in part.relationIds;
    MintedIsNotFresh(parent, g.sequence);
    forall x | x in g.rels ensures !Touches(g.rels[x], {id}) {
      MintedIsNotFresh(g.rels[x].source, g.sequence);
      MintedIsNotFresh(g.rels[x].target, g.sequence);
    }
    MovedToFresh(g.rels, parent, id, only, now);
    MovedFacts(g.rels, Repoint({parent}, id, Some(only), now));
  }

  lemma SplitFirstEndpoints(g: Graph, parent: Id, scope: string, part: SplitPart, now: int)
    requires UniqueTriples(g.rels) && MintedNode(parent, g.sequence) && EndpointsMinted(g)
    ensures EndpointsMinted(SplitFirst(g, parent, scope, part, now))
  {
    hide NodeId, Num, Moved, MintedNode, PartNode, UniqueTriples;
    var g1 := SplitFirst(g, parent, scope, part, now);
    SplitFirstEdges(g, parent, scope, part, now);
    FreshIsMinted(g1.sequence);
    forall x | x in g1.rels
      ensures g1.rels[x].source != g1.rels[x].target
      ensures MintedNode(g1.rels[x].source, g1.sequence) && MintedNode(g1.rels[x].target, g1.sequence)
    {
      MintedIsNotFresh(g.rels[x].source, g.sequence);
      MintedIsNotFresh(g.rels[x].target, g.sequence);
      MintedMonotone(g.rels[x].source, g.sequence, g1.sequence);
      MintedMonotone(g.rels[x].target, g.sequence, g1.sequence);
    }
  }

  lemma SplitFirstFacts(g: Graph, parent: Id, scope: string, parts: seq<SplitPart>, now: int)
    requires UniqueTriples(g.rels) && MintedNode(parent, g.sequence) && EndpointsMinted(g)
    requires parts != [] && ClaimsTouch(g, parent, parts)
    ensures var g1 := SplitFirst(g, parent, scope, parts[0], now);
            var id := NodeId(g.sequence + 1);
            && UniqueTriples(g1.rels) && EndpointsMinted(g1) && MintedNode(parent, g1.sequence)
            && ClaimsTouch(g1, parent, parts[1..])
            && g1.rels.Keys == g.rels.Keys
            && (forall x :: x in g.rels && x !in parts[0].relationIds ==> g1.rels[x] == g.rels[x])
            && (forall x :: x in parts[0].relationIds ==>
                  x in g.rels && g1.rels[x] == Repointed(g.rels[x], parent, id, now))
  {
    hide NodeId, Num, Moved, Claims, MintedNode, PartNode, UniqueTriples, EndpointsMinted;
    var g1 := SplitFirst(g, parent, scope, parts[0], now);
    SplitFirstEdges(g, parent, scope, parts[0], now);
    SplitFirstEndpoints(g, parent, scope, parts[0], now);
    ClaimedOnce(parts);
    MintedIsNotFresh(parent, g.sequence);
    MintedMonotone(parent, g.sequence, g1.sequence);
  }

  /** Every claimed edge hangs off its part, under its own id; the rest are untouched so far. */
  lemma {:induction false} SplitIntoEdges(g: Graph, parent: Id, scope: string, parts: seq<SplitPart>, now: int)
    requires UniqueTriples(g.rels) && MintedNode(parent, g.sequence) && EndpointsMinted(g)
    requires ClaimsTouch(g, parent, parts)
    ensures var (g', ids) := SplitInto(g, parent, scope, parts, now);
            && |ids| == |parts| && UniqueTriples(g'.rels) && g'.rels.Keys == g.rels.Keys
            && (forall x :: x in g.rels && x !in Claims(parts) ==> g'.rels[x] == g.rels[x])
            && (forall i, x :: 0 <= i < |parts| && x in parts[i].relationIds ==>
                  x in g.rels && g'.rels[x] == Repointed(g.rels[x], parent, ids[i], now))
    decreases |parts|
  {
    hide NodeId, Moved, MintedNode, Repointed, Claims, PartNode, UniqueTriples;
    if parts != [] {
      var id := NodeId(g.sequence + 1);
      var g1 := SplitFirst(g, parent, scope, parts[0], now);
      SplitFirstFacts(g, parent, scope, parts, now);
      SplitIntoEdges(g1, parent, scope, parts[1..], now);
      var (g2, rest) := SplitInto(g1, parent, scope, parts[1..], now);
      assert SplitInto(g, parent, scope, parts, now) == (g2, [id] + rest);
      ClaimedOnce(parts);
      forall i, x | 0 <= i < |parts| && x in parts[i].relationIds
        ensures x in g.rels && g2.rels[x] == Repointed(g.rels[x], parent, ([id] + rest)[i], now)
      {
        if i == 0 {
          assert g2.rels[x] == g1.rels[x];
        } else {
          assert x in parts[1..][i - 1].relationIds;
          ClaimsCover(parts[1..], i - 1, x);
        }
      }
    }
  }

  lemma {:induction false} SplitIntoIds(g: Graph, parent: Id, scope: string, parts: seq<SplitPart>, now: int)
    ensures var (g', ids) := SplitInto(g, parent, scope, parts, now);
            && |ids| == |parts|
            && g'.sequence == g.sequence + |parts| && g'.relSequence == g.relSequence
            && (forall i :: 0 <= i < |parts| ==> ids[i] == NodeId(g.sequence + 1 + i))
    decreases |parts|
  {
    hide NodeId, Moved, PartNode, Num;
    if parts != [] {
      var g1 := SplitFirst(g, parent, scope, parts[0], now);
      SplitIntoIds(g1, parent, scope, parts[1..], now);
      var (g2, rest) := SplitInto(g1, parent, scope, parts[1..], now);
      var ids := [NodeId(g.sequence + 1)] + rest;
      assert SplitInto(g, parent, scope, parts, now) == (g2, ids);
      forall i | 0 <= i < |parts| ensures ids[i] == NodeId(g.sequence + 1 + i) {
        if i > 0 { assert ids[i] == rest[i - 1]; }
      }
    }
  }

  ghost predicate MintedFrom(ids: seq<Id>, sequence: nat) {
    forall i :: 0 <= i < |ids| ==> ids[i] == NodeId(sequence + 1 + i)
  }

  lemma MintedTail(ids: seq<Id>, sequence: nat)
    requires ids != [] && MintedFrom(ids, sequence)
    ensures ids[0] == NodeId(sequence + 1) && MintedFrom(ids[1..], sequence + 1) && ids[0] !in ids[1..]
    ensures forall n :: n in ids <==> n == ids[0] || n in ids[1..]
  {
    hide NodeId;
    assert ids[0] == NodeId(sequence + 1 + 0);
    assert ids == [ids[0]] + ids[1..];
    forall i | 0 <= i < |ids[1..]| ensures ids[1..][i] == NodeId(sequence + 1 + 1 + i) && ids[1..][i] != ids[0] {
      assert ids[1..][i] == ids[i + 1];
      Unrepeated(sequence + 1, sequence + 1 + 1 + i);
    }
  }

  lemma Unrepeated(a: nat, b: nat)
    requires a != b
    ensures NodeId(a) != NodeId(b)
  {
    hide NodeId, Num;
    NumOfRendered(a);
    NumOfRendered(b);
  }

  lemma {:induction false} SplitIntoNodes(g: Graph, parent: Id, scope: string, parts: seq<SplitPart>, now: int)
    ensures var (g', ids) := SplitInto(g, parent, scope, parts, now);
            && |ids| == |parts|
            && (forall n :: n in g'.nodes <==> n in g.nodes || n in ids)
            && (forall i :: 0 <= i < |parts| ==> ids[i] in g'.nodes && g'.nodes[ids[i]] == PartNode(scope, parts[i], now))
            && (forall n :: n in g.nodes && n !in ids ==> g'.nodes[n] == g.nodes[n])
    decreases |parts|
  {
    hide NodeId, Moved, PartNode, MintedFrom;
    if parts != [] {
      var g1 := SplitFirst(g, parent, scope, parts[0], now);
      SplitIntoNodes(g1, parent, scope, parts[1..], now);
      var ids := SplitInto(g, parent, scope, parts, now).1;
      SplitIntoMinted(g, parent, scope, parts, now);
      MintedTail(ids, g.sequence);
      var (g2, rest) := SplitInto(g1, parent, scope, parts[1..], now);
      assert SplitInto(g, parent, scope, parts, now) == (g2, ids) && ids == [NodeId(g.sequence + 1)] + rest;
      assert g1.nodes == g.nodes[ids[0] := PartNode(scope, parts[0], now)];
      FirstPartAdded(g.nodes, g2.nodes, ids, scope, parts, now);
    }
  }

  lemma FirstPartAdded(nodes: map<Id, Node>, after: map<Id, Node>, ids: seq<Id>, scope: string, parts: seq<SplitPart>, now: int)
    requires parts != [] && |ids| == |parts| && ids[0] !in ids[1..]
    requires var one := nodes[ids[0] := PartNode(scope, parts[0], now)];
             && (forall n :: n in after <==> n in one || n in ids[1..])
             && (forall n :: n in one && n !in ids[1..] ==> after[n] == one[n])
    requires forall i :: 0 <= i < |parts[1..]| ==>
               ids[1..][i] in after && after[ids[1..][i]] == PartNode(scope, parts[1..][i], now)
    ensures forall n :: n in after <==> n in nodes || n in ids
    ensures forall i :: 0 <= i < |parts| ==> ids[i] in after && after[ids[i]] == PartNode(scope, parts[i], now)
    ensures forall n :: n in nodes && n !in ids ==> after[n] == nodes[n]
  {
    hide PartNode;
    assert ids == [ids[0]] + ids[1..];
    forall i | 0 <= i < |parts| ensures ids[i] in after && after[ids[i]] == PartNode(scope, parts[i], now) {
      if i > 0 { assert ids[i] == ids[1..][i - 1] && parts[i] == parts[1..][i - 1]; }
    }
  }

  lemma SplitIntoMinted(g: Graph, parent: Id, scope: string, parts: seq<SplitPart>, now: int)
    ensures |SplitInto(g, parent, scope, parts, now).1| == |parts|
    ensures MintedFrom(SplitInto(g, parent, scope, parts, now).1, g.sequence)
  {
    hide NodeId, SplitInto;
    SplitIntoIds(g, parent, scope, parts, now);
  }

  lemma {:induction false} ClaimsCover(parts: seq<SplitPart>, i: nat, x: Id)
    requires i < |parts| && x in parts[i].relationIds
    ensures x in Claims(parts)
  {
    if i > 0 { ClaimsCover(parts[1..], i - 1, x); }
  }

  lemma {:induction false} ClaimantExists(parts: seq<SplitPart>, x: Id) returns (i: nat)
    requires x in Claims(parts)
    ensures i < |parts| && x in parts[i].relationIds
  {
    if x in parts[0].relationIds { i := 0; } else {
      var j := ClaimantExists(parts[1..], x);
      i := j + 1;
    }
  }

  /** The parts a split leaves in place of the parent. */
  lemma SplitNodeFacts(g: Graph, id: Id, parts: seq<SplitPart>, now: int)
    requires IdsMinted(g) && SplitNode(g, id, parts, now).result.Ok?
    ensures var done := SplitNode(g, id, parts, now);
            var ids := done.result.value;
            && id in g.nodes && |ids| == |parts|
            && done.graph.sequence == g.sequence + |parts| && done.graph.relSequence == g.relSequence
            && (forall i :: 0 <= i < |parts| ==> ids[i] == NodeId(g.sequence + 1 + i) && ids[i] !in g.nodes)
            && (forall n :: n in done.graph.nodes <==> (n in g.nodes && n != id) || n in ids)
            && (forall i :: 0 <= i < |parts| ==> done.graph.nodes[ids[i]] == PartNode(g.nodes[id].scope, parts[i], now))
            && (forall n :: n in g.nodes && n != id ==> done.graph.nodes[n] == g.nodes[n])
  {
    hide NodeId, Moved, SplitInto, MintedNode, MintedRelation, Claims, PartNode;
    var g0 := g.(nodes := g.nodes - {id});
    SplitIntoNodes(g0, id, g.nodes[id].scope, parts, now);
    SplitIntoIds(g0, id, g.nodes[id].scope, parts, now);
    var ids := SplitInto(g0, id, g.nodes[id].scope, parts, now).1;
    forall i | 0 <= i < |parts| ensures ids[i] !in g.nodes { FreshNodes(g, i); }
  }

  /** A claimed edge keeps its id on its part, an unclaimed one goes with the parent. */
  lemma SplitEdgeFacts(g: Graph, id: Id, parts: seq<SplitPart>, now: int)
    requires WellFormed(g) && SplitNode(g, id, parts, now).result.Ok?
    ensures var done := SplitNode(g, id, parts, now);
            var ids := done.result.value;
            && |ids| == |parts| && UniqueTriples(done.graph.rels)
            && (forall x :: x in done.graph.rels <==> x in g.rels && (x in Claims(parts) || !Touches(g.rels[x], {id})))
            && (forall x :: x in g.rels && !Touches(g.rels[x], {id}) ==> done.graph.rels[x] == g.rels[x])
            && (forall i, x :: 0 <= i < |parts| && x in parts[i].relationIds ==>
                  x in g.rels && Touches(g.rels[x], {id}) && x in done.graph.rels &&
                  done.graph.rels[x] == Repointed(g.rels[x], id, ids[i], now))
  {
    hide NodeId, Moved, SplitInto, Claims, MintedNode, MintedRelation, EdgeTypeOk, NodeSound;
    var g0 := g.(nodes := g.nodes - {id});
    forall x | x in g.rels
      ensures g.rels[x].source != g.rels[x].target
      ensures MintedNode(g.rels[x].source, g.sequence) && MintedNode(g.rels[x].target, g.sequence)
    {
      assert EdgeOk(g, g.rels[x]);
    }
    SplitIntoEdges(g0, id, g.nodes[id].scope, parts, now);
    SplitIntoNodes(g0, id, g.nodes[id].scope, parts, now);
    SplitIntoIds(g0, id, g.nodes[id].scope, parts, now);
    var (g1, ids) := SplitInto(g0, id, g.nodes[id].scope, parts, now);
    forall i | 0 <= i < |parts| ensures ids[i] != id { FreshNodes(g, i); }
    forall x | x in g.rels && x in Claims(parts)
      ensures !Touches(g1.rels[x], {id})
    {
      var i := ClaimantExists(parts, x);
      assert g1.rels[x] == Repointed(g.rels[x], id, ids[i], now);
    }
    forall i, x | 0 <= i < |parts| && x in parts[i].relationIds ensures x in Claims(parts) {
      ClaimsCover(parts, i, x);
    }
  }

  lemma SplitKeepsWellFormed(g: Graph, id: Id, parts: seq<SplitPart>, now: int)
    requires WellFormed(g)
    ensures WellFormed(SplitNode(g, id, parts, now).graph)
  {
    hide NodeId, Moved, SplitInto, Claims, Num, EdgeTypeOk, MintedNode, MintedRelation, NodeSound, EdgeOk, UniqueTriples;
    var done := SplitNode(g, id, parts, now);
    if done.result.Ok? {
      SplitEdgeFacts(g, id, parts, now);
      SplitEdgesSound(g, id, parts, now);
      SplitNodesSound(g, id, parts, now);
    }
  }

  lemma SplitEdgesSound(g: Graph, id: Id, parts: seq<SplitPart>, now: int)
    requires WellFormed(g) && SplitNode(g, id, parts, now).result.Ok?
    ensures var g' := SplitNode(g, id, parts, now).graph;
            EdgesSound(g') && forall x :: x in g'.rels ==> MintedRelation(x, g'.relSequence)
  {
    hide NodeId, Moved, SplitInto, Claims, Num, EdgeTypeOk, MintedNode, MintedRelation, NodeSound, SplitNode, UniqueTriples;
    SplitNodeFacts(g, id, parts, now);
    SplitEdgeFacts(g, id, parts, now);
    var g', ids := SplitNode(g, id, parts, now).graph, SplitNode(g, id, parts, now).result.value;
    forall x | x in g'.rels
      ensures EdgeOk(g', g'.rels[x]) && EdgeTypeOk(g'.rels[x].typ) && MintedRelation(x, g'.relSequence)
    {
      assert EdgeOk(g, g.rels[x]) && EdgeTypeOk(g.rels[x].typ) && MintedRelation(x, g.relSequence);
      if x in Claims(parts) {
        var i := ClaimantExists(parts, x);
        assert g'.rels[x] == Repointed(g.rels[x], id, ids[i], now);
        assert ids[i] in g'.nodes && g'.nodes[ids[i]].scope == g.nodes[id].scope;
      }
    }
  }

  lemma SplitNodesSound(g: Graph, id: Id, parts: seq<SplitPart>, now: int)
    requires WellFormed(g) && SplitNode(g, id, parts, now).result.Ok?
    ensures var g' := SplitNode(g, id, parts, now).graph;
            NodesSound(g'.nodes) && forall n :: n in g'.nodes ==> MintedNode(n, g'.sequence)
  {
    hide NodeId, Moved, SplitInto, Claims, Num, EdgeTypeOk, MintedNode, MintedRelation, SplitNode, EdgeOk, UniqueTriples;
    SplitNodeFacts(g, id, parts, now);
    var g', ids := SplitNode(g, id, parts, now).graph, SplitNode(g, id, parts, now).result.value;
    forall n | n in g'.nodes ensures MintedNode(n, g'.sequence) && NodeSound(g'.nodes[n]) {
      if n in g.nodes && n != id {
        MintedMonotone(n, g.sequence, g'.sequence);
        assert NodeSound(g.nodes[n]);
      } else {
        var i :| 0 <= i < |parts| && ids[i] == n;
        FreshNodes(g, i);
        MintedMonotone(n, g.sequence + 1 + i, g'.sequence);
        assert NodeSound(g.nodes[id]);
        assert g'.nodes[n] == PartNode(g.nodes[id].scope, parts[i], now);
      }
    }
  }
}
