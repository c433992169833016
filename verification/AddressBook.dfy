/** What a pass of operations will find, worked out before anything is written, from
    ids, names and edge addresses alone. */
module AddressBook {
  import opened Ids
  import opened Surfaces
  import opened GraphModel
  import opened EdgeFold
  import opened GraphOps
  import opened Journal
  import opened GlobalPass

  datatype Label = Label(scope: string, name: string)

  /** Every live node's label, every edge's address, and the minting counters. */
  datatype Book = Book(nodes: map<Id, Label>, edges: map<Id, Triple>, sequence: nat, relSequence: nat)

  function Labels(nodes: map<Id, Node>): map<Id, Label> { map n | n in nodes :: Label(nodes[n].scope, nodes[n].name) }

  function Addresses(rels: map<Id, Relation>): map<Id, Triple> { map x | x in rels :: TripleOf(rels[x]) }

  function BookOf(g: Graph): Book { Book(Labels(g.nodes), Addresses(g.rels), g.sequence, g.relSequence) }

  // ------------------------------------------------------------ edge moves

  predicate Moves(m: Move, x: Id, t: Triple) {
    match m
    case Repoint(moved, _, only, _) => (only.Some? ==> x in only.value) && (t.source in moved || t.target in moved)
    case Relabel(scope, was, _) => t.scope == scope && t.typ == was
  }

  function Shifted(m: Move, t: Triple): Option<Triple> {
    match m
    case Repoint(moved, onto, _, _) =>
      var source := if t.source in moved then onto else t.source;
      var target := if t.target in moved then onto else t.target;
      if source == target then None else Some(t.(source := source, target := target))
    case Relabel(_, _, becomes) => Some(t.(typ := becomes))
  }

  /** A moved edge keeps its id unless it closes on itself, an edge stands where it
      goes, or a lower id goes there too. */
  ghost predicate KeepsId(edges: map<Id, Triple>, m: Move, x: Id)
    requires x in edges
  {
    Moves(m, x, edges[x]) ==>
      && Shifted(m, edges[x]).Some?
      && forall y :: y in edges && y != x ==>
           if Moves(m, y, edges[y]) then Shifted(m, edges[y]) == Shifted(m, edges[x]) ==> Less(x, y)
           else Shifted(m, edges[x]) != Some(edges[y])
  }

  ghost function MovedEdges(edges: map<Id, Triple>, m: Move): map<Id, Triple> {
    map x | x in edges && KeepsId(edges, m, x) ::
      if Moves(m, x, edges[x]) && Shifted(m, edges[x]).Some? then Shifted(m, edges[x]).value else edges[x]
  }

  lemma MoveIsSeen(m: Move, x: Id, r: Relation)
    ensures Affected(m, x, r) <==> Moves(m, x, TripleOf(r))
    ensures Shifted(m, TripleOf(r)) == match Readdressed(m, r) case None => None case Some(to) => Some(TripleOf(to))
  {
  }

  /** Of the edges landing on one address, the one already there keeps its id, or
      else the first in order. */
  lemma {:induction false} GatheredFirst(rels: map<Id, Relation>, order: seq<Id>, m: Move, t: Triple, held: Held)
    requires Ascending(order)
    ensures var h := Gathered(rels, order, m, t, held);
            && (held.Some? ==> h.Some? && h.value.0 == held.value.0)
            && (held.None? && h.None? ==> forall y :: y in order ==> !Lands(rels, m, y, t))
            && (held.None? && h.Some? ==>
                  h.value.0 in order && Lands(rels, m, h.value.0, t)
                  && forall y :: y in order && Lands(rels, m, y, t) ==> y == h.value.0 || Less(h.value.0, y))
    decreases |order|
  {
    hide Less, Lands, Absorbed;
    if order != [] {
      var id, rest := order[0], order[1..];
      assert order == [id] + rest;
      assert Ascending(rest) && forall y :: y in rest ==> Less(id, y) by {
        forall i, j | 0 <= i < j < |rest| ensures Less(rest[i], rest[j]) { assert Less(order[i + 1], order[j + 1]); }
        forall y | y in rest ensures Less(id, y) {
          var i :| 0 <= i < |rest| && rest[i] == y;
          assert Less(order[0], order[i + 1]);
        }
      }
      LandingIs(rels, m, id, t);
      GatheredFirst(rels, rest, m, t,
                    if Lands(rels, m, id, t) then Joined(m, held, id, rels[id], Readdressed(m, rels[id]).value) else held);
    }
  }

  lemma LandingIs(rels: map<Id, Relation>, m: Move, id: Id, t: Triple)
    ensures Lands(rels, m, id, t) <==>
            id in rels && Readdressed(m, rels[id]).Some? && TripleOf(Readdressed(m, rels[id]).value) == t
  {
  }

  /** Whose id stands at an address after a move. */
  lemma MovedHolder(rels: map<Id, Relation>, m: Move, x: Id, t: Triple)
    requires UniqueTriples(rels) && Settles(m)
    ensures var held := HolderAt(rels, m, t);
            x in Moved(rels, m) && TripleOf(Moved(rels, m)[x]) == t <==>
            if held.Some? then held.value.0 == x
            else x in rels && Affected(m, x, rels[x]) && Lands(rels, m, x, t)
                 && forall y :: y in rels && Affected(m, y, rels[y]) && Lands(rels, m, y, t) ==> y == x || Less(x, y)
  {
    hide UniqueTriples, Less, Affected, Lands, Gathered, FoldAll;
    var order := Sorted(AffectedIds(rels, m));
    var held := HolderAt(rels, m, t);
    SortedEnumerates(rels, m);
    FoldCharacterized(rels, order, m);
    GatheredFirst(rels, order, m, t, held);
    HolderStands(rels, m, t);
    GatheredCame(rels, order, m, t, held);
    var h := Gathered(rels, order, m, t, held);
    if h.Some? { assert Entry(FoldAll(rels, order, m), h.value.0, h.value.1); }
    if x in Moved(rels, m) && TripleOf(Moved(rels, m)[x]) == t { assert Entry(FoldAll(rels, order, m), x, Moved(rels, m)[x]); }
    if held.None? && x in rels && Affected(m, x, rels[x]) && Lands(rels, m, x, t)
       && forall y :: y in rels && Affected(m, y, rels[y]) && Lands(rels, m, y, t) ==> y == x || Less(x, y) {
      assert x in order && h.Some?;
      if h.value.0 != x { LessAsymmetric(x, h.value.0); }
    }
  }

  lemma HolderStands(rels: map<Id, Relation>, m: Move, t: Triple)
    requires UniqueTriples(rels)
    ensures var held := HolderAt(rels, m, t);
            held.Some? ==> held.value.0 in rels && rels[held.value.0] == held.value.1 && TripleOf(held.value.1) == t
                           && !Affected(m, held.value.0, held.value.1) && Came(rels, m, held.value.0, held.value.1)
  {
    ByTripleUnique(rels, t);
  }

  /** The book follows a move without looking at what the edges say. */
  lemma MoveBooked(rels: map<Id, Relation>, m: Move)
    requires UniqueTriples(rels) && Settles(m)
    ensures Addresses(Moved(rels, m)) == MovedEdges(Addresses(rels), m)
  {
    hide UniqueTriples, Less, Moved, KeepsId, MovedEdges;
    var edges := Addresses(rels);
    forall x, t
      ensures StandsAt(Addresses(Moved(rels, m)), x, t) <==> StandsAt(MovedEdges(edges, m), x, t)
    {
      MovedHolder(rels, m, x, t);
      StayingHolds(rels, m, x, t);
    }
    SameAddresses(Addresses(Moved(rels, m)), MovedEdges(edges, m));
  }

  predicate StandsAt(edges: map<Id, Triple>, x: Id, t: Triple) { x in edges && edges[x] == t }

  lemma SameAddresses(a: map<Id, Triple>, b: map<Id, Triple>)
    requires forall x, t :: StandsAt(a, x, t) <==> StandsAt(b, x, t)
    ensures a == b
  {
    forall x | x in a ensures x in b && b[x] == a[x] { assert StandsAt(a, x, a[x]); }
    forall x | x in b ensures x in a && a[x] == b[x] { assert StandsAt(b, x, b[x]); }
  }

  lemma StayingHolds(rels: map<Id, Relation>, m: Move, x: Id, t: Triple)
    requires UniqueTriples(rels) && Settles(m)
    ensures StandsAt(MovedEdges(Addresses(rels), m), x, t) <==>
            var held := HolderAt(rels, m, t);
            if held.Some? then held.value.0 == x
            else x in rels && Affected(m, x, rels[x]) && Lands(rels, m, x, t)
                 && forall y :: y in rels && Affected(m, y, rels[y]) && Lands(rels, m, y, t) ==> y == x || Less(x, y)
  {
    hide UniqueTriples, Less, HolderAt, Affected, Moves, Readdressed, Shifted;
    var edges := Addresses(rels);
    forall y | y in rels
      ensures Affected(m, y, rels[y]) <==> Moves(m, y, edges[y])
      ensures Lands(rels, m, y, t) <==> Shifted(m, edges[y]) == Some(t)
    {
      MoveIsSeen(m, y, rels[y]);
    }
    HolderStands(rels, m, t);
    if y :| y in rels && TripleOf(rels[y]) == t && !Affected(m, y, rels[y]) {
      HolderIs(rels, m, t, y);
      OnlyThere(rels, y);
      assert !Moves(m, y, edges[y]) && edges[y] == t;
      if StandsAt(MovedEdges(edges, m), x, t) && x != y { assert Moves(m, x, edges[x]) && Shifted(m, edges[x]) == Some(t); }
    } else {
      HolderAbsent(rels, m, t);
    }
  }

  lemma OnlyThere(rels: map<Id, Relation>, y: Id)
    requires UniqueTriples(rels) && y in rels
    ensures forall x :: x in rels && TripleOf(rels[x]) == TripleOf(rels[y]) ==> x == y
  {
  }

  // ---------------------------------------------------- one op on the book

  predicate AtEnd(t: Triple, n: Id) { t.source == n || t.target == n }

  function Reseated(t: Triple, from: Id, to: Id): Triple {
    t.(source := if t.source == from then to else t.source, target := if t.target == from then to else t.target)
  }

  /** The first part that claims the edge. */
  function Claimant(parts: seq<SplitPart>, x: Id): (i: nat)
    ensures x in Claims(parts) ==> i < |parts| && x in parts[i].relationIds
  {
    if parts == [] || x in parts[0].relationIds then 0 else 1 + Claimant(parts[1..], x)
  }

  function PartLabels(sequence: nat, scope: string, parts: seq<SplitPart>): map<Id, Label>
    decreases |parts|
  {
    if parts == [] then map[]
    else PartLabels(sequence + 1, scope, parts[1..])[NodeId(sequence + 1) := Label(scope, parts[0].name)]
  }

  /** Whether the call will succeed, as far as ids, names, addresses and its own
      arguments tell. */
  ghost predicate Fits(b: Book, op: Op) {
    match op
    case Merge(survivor, absorbed, _, _, _, embedding, _) =>
      && survivor in b.nodes && survivor !in absorbed && NoRepeats(absorbed) && UnitNorm(embedding)
      && forall a :: a in absorbed ==>
           a in b.nodes && b.nodes[a].scope == b.nodes[survivor].scope && !Blank(b.nodes[a].name)
    case Split(id, parts, _) =>
      && parts != [] && id in b.nodes && NoRepeats(Claims(parts))
      && forall x :: x in Claims(parts) ==> x in b.edges && AtEnd(b.edges[x], id)
    case Rewrite(id, _, _, embedding, _) => id in b.nodes && UnitNorm(embedding)
    case Upsert(scope, source, target, typ, claim, entryIds, until, _) =>
      && EdgeTypeOk(typ) && entryIds != [] && source != target
      && source in b.nodes && target in b.nodes && b.nodes[source].scope == scope && b.nodes[target].scope == scope
      && (Addressed(b.edges, Triple(scope, source, typ, target))
          || (claim.Some? && StatementOk(typ, claim.value, entryIds, until)))
    case Retire(x) => x in b.edges
    case Rename(_, was, becomes) => EdgeTypeOk(becomes) && was != becomes
    case _ => true
  }

  ghost predicate Addressed(edges: map<Id, Triple>, t: Triple) { exists x :: StandsAt(edges, x, t) }

  /** The book after a call that succeeds. */
  ghost function Noted(b: Book, op: Op): Book {
    match op
    case Merge(survivor, absorbed, name, _, _, _, now) =>
      if survivor !in b.nodes then b
      else b.(nodes := (b.nodes - Members(absorbed))[survivor := Label(b.nodes[survivor].scope, name)],
              edges := MovedEdges(b.edges, Repoint(Members(absorbed), survivor, None, now)))
    case Split(id, parts, _) =>
      if id !in b.nodes then b
      else Book((b.nodes - {id}) + PartLabels(b.sequence, b.nodes[id].scope, parts), SplitEdges(b.edges, b.sequence, id, parts),
                b.sequence + |parts|, b.relSequence)
    case Upsert(scope, source, target, typ, _, _, _, _) =>
      var t := Triple(scope, source, typ, target);
      if Addressed(b.edges, t) then b
      else b.(edges := b.edges[RelationId(b.relSequence + 1) := t], relSequence := b.relSequence + 1)
    case Retire(x) => b.(edges := b.edges - {x})
    case Rename(scope, was, becomes) => b.(edges := MovedEdges(b.edges, Relabel(scope, was, becomes)))
    case _ => b
  }

  function SplitEdges(edges: map<Id, Triple>, sequence: nat, id: Id, parts: seq<SplitPart>): map<Id, Triple> {
    map x | x in edges && (x in Claims(parts) || !AtEnd(edges[x], id)) ::
      if x in Claims(parts) then Reseated(edges[x], id, NodeId(sequence + 1 + Claimant(parts, x))) else edges[x]
  }

  // ------------------------------------------------- the book tells the truth

  lemma SurfacesReadable(nodes: map<Id, Node>, survivor: Id, absorbed: seq<Id>)
    requires NodesSound(nodes) && survivor in nodes && forall a :: a in absorbed ==> a in nodes
    ensures AnyBlank(nodes[survivor].aliases + AbsorbedSurfaces(nodes, absorbed)) <==>
            exists a :: a in absorbed && Blank(nodes[a].name)
  {
    hide Blank, Canonical, AbsorbedSurfaces;
    AbsorbedReadable(nodes, absorbed);
    assert NodeSound(nodes[survivor]);
    var all := nodes[survivor].aliases + AbsorbedSurfaces(nodes, absorbed);
    assert forall s :: s in all <==> s in nodes[survivor].aliases || s in AbsorbedSurfaces(nodes, absorbed);
  }

  lemma {:induction false} AbsorbedReadable(nodes: map<Id, Node>, absorbed: seq<Id>)
    requires NodesSound(nodes) && forall a :: a in absorbed ==> a in nodes
    ensures AnyBlank(AbsorbedSurfaces(nodes, absorbed)) <==> exists a :: a in absorbed && Blank(nodes[a].name)
    decreases |absorbed|
  {
    hide Blank, Canonical;
    if absorbed != [] {
      var a, rest := absorbed[0], absorbed[1..];
      assert absorbed == [a] + rest && NodeSound(nodes[a]);
      AbsorbedReadable(nodes, rest);
      var own := [nodes[a].name] + nodes[a].aliases;
      assert forall s :: s in own + AbsorbedSurfaces(nodes, rest) <==>
                         s == nodes[a].name || s in nodes[a].aliases || s in AbsorbedSurfaces(nodes, rest);
    }
  }

  lemma MergeFits(g: Graph, op: Op)
    requires WellFormed(g) && op.Merge?
    ensures Failed(g, op).None? <==> Fits(BookOf(g), op)
  {
    hide UnitNorm, AnyBlank, Blank, Canonical, AbsorbedSurfaces, Deleting, Moved, UniqueTriples, EdgesSound, IdsMinted;
    if op.survivor in g.nodes && forall a :: a in op.absorbed ==> a in g.nodes {
      DeletingAll(g.nodes, op.absorbed);
      SurfacesReadable(g.nodes, op.survivor, op.absorbed);
    }
  }

  lemma SplitFits(g: Graph, op: Op)
    requires op.Split?
    ensures Failed(g, op).None? <==> Fits(BookOf(g), op)
  {
    hide SplitInto, Claims, DropTouching;
  }

  lemma UpsertFits(g: Graph, op: Op)
    requires WellFormed(g) && op.Upsert?
    ensures Failed(g, op).None? <==> Fits(BookOf(g), op)
  {
    hide EdgeTypeOk, StatementOk, Union, RelationId, ByTriple, EdgesSound, IdsMinted, NodesSound;
    var t := Triple(op.scope, op.source, op.typ, op.target);
    ByTripleUnique(g.rels, t);
    StandingIs(g.rels, t);
  }

  lemma StandingIs(rels: map<Id, Relation>, t: Triple)
    ensures Addressed(Addresses(rels), t) <==> exists x :: x in rels && TripleOf(rels[x]) == t
  {
    if x :| x in rels && TripleOf(rels[x]) == t { assert StandsAt(Addresses(rels), x, t); }
  }

  /** Exactly which calls of a pass succeed can be told from the book. */
  lemma OpFitsExactly(g: Graph, op: Op)
    requires WellFormed(g) && PassOp(op)
    ensures Failed(g, op).None? <==> Fits(BookOf(g), op)
  {
    hide WellFormed, UnitNorm, EdgeTypeOk, SplitNode, MergeNodes, UpsertRelation, Moved;
    match op
    case Merge(_, _, _, _, _, _, _) => MergeFits(g, op);
    case Split(_, _, _) => SplitFits(g, op);
    case Upsert(_, _, _, _, _, _, _, _) => UpsertFits(g, op);
    case _ =>
  }

  lemma MergeNoted(g: Graph, survivor: Id, absorbed: seq<Id>, name: string, typ: string, facts: seq<Fact>,
                   embedding: seq<real>, now: int)
    requires WellFormed(g) && MergeNodes(g, survivor, absorbed, name, typ, facts, embedding, now).result.Ok?
    ensures survivor in g.nodes
    ensures var g', ids := MergeNodes(g, survivor, absorbed, name, typ, facts, embedding, now).graph, Members(absorbed);
            && Labels(g'.nodes) == (Labels(g.nodes) - ids)[survivor := Label(g.nodes[survivor].scope, name)]
            && Addresses(g'.rels) == MovedEdges(Addresses(g.rels), Repoint(ids, survivor, None, now))
            && g'.sequence == g.sequence && g'.relSequence == g.relSequence
  {
    hide WellFormed, MergeNodes, Moved, MovedEdges, Addresses, NodesSound, IdsMinted, Labels;
    MergedFacts(g, survivor, absorbed, name, typ, facts, embedding, now);
    MergedName(g, survivor, absorbed, name, typ, facts, embedding, now);
    assert (set a | a in absorbed) == Members(absorbed);
    UniqueEdges(g);
    MoveBooked(g.rels, Repoint(Members(absorbed), survivor, None, now));
    MergedLabels(g.nodes, MergeNodes(g, survivor, absorbed, name, typ, facts, embedding, now).graph.nodes, survivor,
                 Members(absorbed), name);
  }

  lemma MergedLabels(nodes: map<Id, Node>, after: map<Id, Node>, survivor: Id, ids: set<Id>, name: string)
    requires survivor in nodes && survivor !in ids && after.Keys == nodes.Keys - ids
    requires forall n :: n in after && n != survivor ==> after[n] == nodes[n]
    requires after[survivor].scope == nodes[survivor].scope && after[survivor].name == name
    ensures Labels(after) == (Labels(nodes) - ids)[survivor := Label(nodes[survivor].scope, name)]
  {
  }

  lemma MergedName(g: Graph, survivor: Id, absorbed: seq<Id>, name: string, typ: string, facts: seq<Fact>,
                   embedding: seq<real>, now: int)
    requires MergeNodes(g, survivor, absorbed, name, typ, facts, embedding, now).result.Ok?
    ensures var g' := MergeNodes(g, survivor, absorbed, name, typ, facts, embedding, now).graph;
            survivor in g.nodes && survivor in g'.nodes && g'.nodes[survivor].name == name
  {
    hide UnitNorm, AnyBlank, Canonical, AbsorbedSurfaces, Deleting, Moved;
  }

  lemma UniqueEdges(g: Graph)
    requires WellFormed(g)
    ensures UniqueTriples(g.rels)
  {
  }

  lemma {:induction false} PartLabelled(sequence: nat, scope: string, parts: seq<SplitPart>, ids: seq<Id>)
    requires |ids| == |parts| && MintedFrom(ids, sequence)
    ensures PartLabels(sequence, scope, parts).Keys == Members(ids)
    ensures forall i :: 0 <= i < |parts| ==> ids[i] in PartLabels(sequence, scope, parts)
                                             && PartLabels(sequence, scope, parts)[ids[i]] == Label(scope, parts[i].name)
    decreases |parts|
  {
    hide NodeId, MintedFrom;
    if parts != [] {
      MintedTail(ids, sequence);
      PartLabelled(sequence + 1, scope, parts[1..], ids[1..]);
      forall i | 0 < i < |parts|
        ensures ids[i] in PartLabels(sequence, scope, parts)
        ensures PartLabels(sequence, scope, parts)[ids[i]] == Label(scope, parts[i].name)
      {
        assert ids[i] == ids[1..][i - 1] && parts[i] == parts[1..][i - 1];
      }
    }
  }

  lemma SplitNoted(g: Graph, id: Id, parts: seq<SplitPart>, now: int)
    requires WellFormed(g) && SplitNode(g, id, parts, now).result.Ok?
    ensures id in g.nodes
    ensures var g' := SplitNode(g, id, parts, now).graph;
            && Labels(g'.nodes) == (Labels(g.nodes) - {id}) + PartLabels(g.sequence, g.nodes[id].scope, parts)
            && g'.sequence == g.sequence + |parts| && g'.relSequence == g.relSequence
  {
    hide WellFormed, SplitNode, NodeId, PartLabels, PartNode, MintedFrom, IdsMinted, MintedNode, Labels;
    MintedWell(g);
    SplitNodeFacts(g, id, parts, now);
    var ids := SplitNode(g, id, parts, now).result.value;
    MintedFromIs(ids, g.sequence);
    var scope := g.nodes[id].scope;
    PartLabelled(g.sequence, scope, parts, ids);
    forall i | 0 <= i < |ids| ensures PartNode(scope, parts[i], now).scope == scope {
      PartNamed(scope, parts[i], now);
    }
    forall i | 0 <= i < |ids| ensures PartNode(scope, parts[i], now).name == parts[i].name {
      PartNamed(scope, parts[i], now);
    }
    SplitLabels(g.nodes, SplitNode(g, id, parts, now).graph.nodes, id, ids, PartLabels(g.sequence, scope, parts));
  }

  lemma SplitLabels(nodes: map<Id, Node>, after: map<Id, Node>, id: Id, ids: seq<Id>, labels: map<Id, Label>)
    requires labels.Keys == Members(ids) && forall n :: n in after <==> (n in nodes && n != id) || n in ids
    requires forall n :: n in nodes && n != id && n !in ids ==> after[n] == nodes[n]
    requires forall i :: 0 <= i < |ids| ==> labels[ids[i]] == Label(after[ids[i]].scope, after[ids[i]].name)
    ensures Labels(after) == (Labels(nodes) - {id}) + labels
  {
  }

  lemma PartNamed(scope: string, p: SplitPart, now: int)
    ensures PartNode(scope, p, now).scope == scope && PartNode(scope, p, now).name == p.name
  {
  }

  lemma SplitEdgesNoted(g: Graph, id: Id, parts: seq<SplitPart>, now: int)
    requires WellFormed(g) && SplitNode(g, id, parts, now).result.Ok?
    ensures Addresses(SplitNode(g, id, parts, now).graph.rels) == SplitEdges(Addresses(g.rels), g.sequence, id, parts)
  {
    hide WellFormed, SplitNode, NodeId, Claims, Touches, AtEnd, Reseated;
    SplitEdgeFacts(g, id, parts, now);
    var rels := SplitNode(g, id, parts, now).graph.rels;
    forall x | x in g.rels ensures Touches(g.rels[x], {id}) <==> AtEnd(TripleOf(g.rels[x]), id) {
      TouchingIs(g.rels[x], id);
    }
    forall x | x in rels && x in Claims(parts)
      ensures TripleOf(rels[x]) == Reseated(TripleOf(g.rels[x]), id, NodeId(g.sequence + 1 + Claimant(parts, x)))
    {
      ClaimedNoted(g, id, parts, now, x);
    }
  }

  lemma TouchingIs(r: Relation, id: Id)
    ensures Touches(r, {id}) <==> AtEnd(TripleOf(r), id)
  {
  }

  lemma ClaimedNoted(g: Graph, id: Id, parts: seq<SplitPart>, now: int, x: Id)
    requires WellFormed(g) && SplitNode(g, id, parts, now).result.Ok? && x in Claims(parts)
    ensures x in g.rels && x in SplitNode(g, id, parts, now).graph.rels
    ensures TripleOf(SplitNode(g, id, parts, now).graph.rels[x]) ==
            Reseated(TripleOf(g.rels[x]), id, NodeId(g.sequence + 1 + Claimant(parts, x)))
  {
    hide WellFormed, SplitNode, NodeId, Claims, Touches;
    MintedWell(g);
    SplitNodeFacts(g, id, parts, now);
    SplitEdgeFacts(g, id, parts, now);
    var i, ids := Claimant(parts, x), SplitNode(g, id, parts, now).result.value;
    assert x in parts[i].relationIds && ids[i] == NodeId(g.sequence + 1 + i);
  }

  lemma UpsertNoted(g: Graph, op: Op)
    requires WellFormed(g) && op.Upsert? && Failed(g, op).None?
    ensures BookOf(After(g, op)) == Noted(BookOf(g), op)
  {
    hide WellFormed, UpsertRelation, RelationId, EdgeTypeOk;
    UpsertedEdge(g, op.scope, op.source, op.target, op.typ, op.claim, op.entryIds, op.until, op.now);
    StandingIs(g.rels, Triple(op.scope, op.source, op.typ, op.target));
    var x := UpsertRelation(g, op.scope, op.source, op.target, op.typ, op.claim, op.entryIds, op.until, op.now).result.value;
    if x in g.rels {
      assert Addresses(After(g, op).rels) == Addresses(g.rels);
    } else {
      assert Addresses(After(g, op).rels) == Addresses(g.rels)[x := Triple(op.scope, op.source, op.typ, op.target)];
    }
  }

  lemma OpNoted(g: Graph, op: Op)
    requires WellFormed(g) && PassOp(op) && Failed(g, op).None?
    ensures BookOf(After(g, op)) == Noted(BookOf(g), op)
  {
    hide WellFormed, UnitNorm, EdgeTypeOk, SplitNode, MergeNodes, UpsertRelation, Moved, MovedEdges, PartLabels, SplitEdges;
    match op
    case Merge(survivor, absorbed, name, typ, facts, embedding, now) =>
      MergeNoted(g, survivor, absorbed, name, typ, facts, embedding, now);
    case Split(id, parts, now) =>
      SplitNoted(g, id, parts, now);
      SplitEdgesNoted(g, id, parts, now);
    case Upsert(_, _, _, _, _, _, _, _) => UpsertNoted(g, op);
    case Rename(scope, was, becomes) =>
      UniqueEdges(g);
      MoveBooked(g.rels, Relabel(scope, was, becomes));
    case _ =>
  }

  // ------------------------------------------------------------ whole passes

  ghost predicate AllFit(b: Book, ops: seq<Op>)
    decreases |ops|
  {
    ops == [] || (Fits(b, ops[0]) && AllFit(Noted(b, ops[0]), ops[1..]))
  }

  ghost function NotedAll(b: Book, ops: seq<Op>): Book
    decreases |ops|
  {
    if ops == [] then b else NotedAll(Noted(b, ops[0]), ops[1..])
  }

  predicate PassOps(ops: seq<Op>) { forall i :: 0 <= i < |ops| ==> PassOp(ops[i]) }

  /** A pass goes through exactly when, read over the book alone, every call finds
      what it names; and the book foretells the ids, names and addresses it leaves. */
  lemma {:induction false} PassFitsExactly(g: Graph, ops: seq<Op>)
    requires WellFormed(g) && PassOps(ops)
    ensures Apply(g, ops).result.Ok? <==> AllFit(BookOf(g), ops)
    ensures AllFit(BookOf(g), ops) ==>
              WellFormed(Apply(g, ops).graph) && BookOf(Apply(g, ops).graph) == NotedAll(BookOf(g), ops)
    decreases |ops|
  {
    hide WellFormed, Failed, Journal.After, Fits, Noted, PassOp, BookOf;
    if ops != [] {
      var op, rest := ops[0], ops[1..];
      assert PassOps(rest) by { assert forall i :: 0 <= i < |rest| ==> rest[i] == ops[i + 1]; }
      assert PassOp(ops[0]);
      OpFitsExactly(g, op);
      if Failed(g, op).None? {
        PassOpKeepsWellFormed(g, op);
        OpNoted(g, op);
        PassFitsExactly(After(g, op), rest);
      }
    }
  }
}
