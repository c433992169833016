/** What compression must not lose: the names a reader searches by, and the ledger
    entries a belief rests on.  Merges, splits and erasures move both. */
module Compression {
  import opened Ids
  import opened Surfaces
  import opened GraphModel
  import opened EdgeFold
  import opened GraphOps
  import opened Journal

  /** An entry bound to a node. */
  datatype Binding = Binding(entry: Id, node: Id)

  /** A merge's record: this node was absorbed into that one. */
  datatype Link = Link(absorbed: Id, survivor: Id)

  /** The graph, the ledger's bindings, and its absorption records in order. */
  datatype Memory = Memory(graph: Graph, bound: set<Binding>, links: seq<Link>)

  // ------------------------------------------------------- ledger re-keying

  /** Move the bindings of *from* for the given entries onto *to*. */
  function Move(bound: set<Binding>, entries: set<Id>, from: Id, to: Id): set<Binding> {
    set b | b in bound :: if b.node == from && b.entry in entries then Binding(b.entry, to) else b
  }

  function Forgotten(bound: set<Binding>, entries: set<Id>): set<Binding> { set b | b in bound && b.entry !in entries }

  function BindingsTo(entry: Id, nodes: set<Id>): set<Binding> { set n | n in nodes :: Binding(entry, n) }

  function EntriesOf(bound: set<Binding>, node: Id): set<Id> { set b | b in bound && b.node == node :: b.entry }

  function BoundEntries(bound: set<Binding>): set<Id> { set b | b in bound :: b.entry }

  function Rekey(bound: set<Binding>, from: Id, to: Id): set<Binding> { Move(bound, EntriesOf(bound, from), from, to) }

  function RekeyAll(bound: set<Binding>, absorbed: seq<Id>, to: Id): set<Binding>
    decreases |absorbed|
  {
    if absorbed == [] then bound else RekeyAll(Rekey(bound, absorbed[0], to), absorbed[1..], to)
  }

  function ReassignAll(bound: set<Binding>, from: Id, shares: seq<seq<Id>>, ids: seq<Id>): set<Binding>
    requires |shares| == |ids|
    decreases |shares|
  {
    if shares == [] then bound
    else ReassignAll(Move(bound, Members(shares[0]), from, ids[0]), from, shares[1..], ids[1..])
  }

  function LinksTo(absorbed: seq<Id>, survivor: Id): seq<Link> {
    if absorbed == [] then [] else [Link(absorbed[0], survivor)] + LinksTo(absorbed[1..], survivor)
  }

  // ------------------------------------------------------------- the passes

  datatype Pass =
    | Bind(entry: Id, nodes: set<Id>)
    | Absorb(nodes: set<Id>, survivor: Id, typ: string, facts: seq<Fact>, embedding: seq<real>, now: int)
    | Divide(id: Id, parts: seq<SplitPart>, shares: seq<seq<Id>>, now: int)
    | Erase(entries: set<Id>)
    | Write(op: Op)

  /** Nodes that lose their last entry with the erased ones, in id order. */
  ghost function Unsupported(bound: set<Binding>, entries: set<Id>): seq<Id> {
    Sorted(set b | b in bound && b.entry in entries && EntriesOf(bound, b.node) <= entries :: b.node)
  }

  /** Touched nodes that keep support. */
  ghost function Supported(bound: set<Binding>, entries: set<Id>): seq<Id> {
    Sorted(set b | b in bound && b.entry in entries && !(EntriesOf(bound, b.node) <= entries) :: b.node)
  }

  ghost function AbsorbResult(m: Memory, p: Pass): Done<()>
    requires p.Absorb? && p.survivor in m.graph.nodes
  {
    MergeNodes(m.graph, p.survivor, Sorted(p.nodes - {p.survivor}), m.graph.nodes[p.survivor].name, p.typ, p.facts,
               p.embedding, p.now)
  }

  ghost function After(m: Memory, p: Pass): Memory {
    match p
    case Bind(entry, nodes) => m.(bound := m.bound + BindingsTo(entry, nodes))
    case Absorb(nodes, survivor, _, _, _, _) =>
      if survivor !in m.graph.nodes then m
      else
        var done := AbsorbResult(m, p);
        if done.result.Err? then m.(graph := done.graph)
        else
          var absorbed := Sorted(nodes - {survivor});
          Memory(done.graph, RekeyAll(m.bound, absorbed, survivor), m.links + LinksTo(absorbed, survivor))
    case Divide(id, parts, shares, now) =>
      var done := SplitNode(m.graph, id, parts, now);
      if done.result.Err? || |shares| != |done.result.value| then m.(graph := done.graph)
      else Memory(done.graph, ReassignAll(m.bound, id, shares, done.result.value), m.links)
    case Erase(entries) =>
      var graph := DeleteNodes(m.graph, Unsupported(m.bound, entries));
      Memory(MarkDirty(graph, Supported(m.bound, entries)), Forgotten(m.bound, entries), m.links)
    case Write(op) => m.(graph := Journal.After(m.graph, op))
  }

  /** What the pipeline's own validation lets through. */
  ghost predicate Admitted(m: Memory, p: Pass) {
    match p
    case Bind(_, nodes) => nodes <= m.graph.nodes.Keys
    case Absorb(nodes, survivor, _, _, embedding, _) =>
      survivor in nodes && !FailsMidway(m.graph, survivor, Sorted(nodes - {survivor}), embedding)
    case Divide(id, parts, shares, _) => |shares| == |parts| && id in m.graph.nodes
    case Erase(_) => true
    case Write(op) => !op.Merge? && !op.Split? && !op.Delete?
  }

  // ------------------------------------------------------------- evidence

  /** Every binding leads to a live node. */
  ghost predicate Reachable(m: Memory) { forall b :: b in m.bound ==> b.node in m.graph.nodes }

  predicate Has(bound: set<Binding>, e: Id, n: Id) { Binding(e, n) in bound }

  lemma MovedHas(bound: set<Binding>, entries: set<Id>, from: Id, to: Id, e: Id, n: Id)
    requires from != to
    ensures Has(Move(bound, entries, from, to), e, n) <==>
            if n == from then Has(bound, e, n) && e !in entries
            else Has(bound, e, n) || (n == to && e in entries && Has(bound, e, from))
  {
    var moved := Move(bound, entries, from, to);
    if Has(bound, e, n) && !(n == from && e in entries) { assert Binding(e, n) in moved; }
    if n == to && e in entries && Has(bound, e, from) {
      var b := Binding(e, from);
      assert b in bound && (if b.node == from && b.entry in entries then Binding(b.entry, to) else b) == Binding(e, n);
    }
  }

  lemma EntriesHave(bound: set<Binding>, n: Id, e: Id)
    ensures e in EntriesOf(bound, n) <==> Has(bound, e, n)
  {
    if Has(bound, e, n) { assert Binding(e, n) in bound; }
  }

  lemma RekeyHas(bound: set<Binding>, from: Id, to: Id, e: Id, n: Id)
    requires from != to
    ensures Has(Rekey(bound, from, to), e, n) <==> (n != from && Has(bound, e, n)) || (n == to && Has(bound, e, from))
  {
    MovedHas(bound, EntriesOf(bound, from), from, to, e, n);
    EntriesHave(bound, from, e);
  }

  /** A merge's re-keying moves exactly the absorbed nodes' entries, all to the survivor. */
  lemma {:induction false} RekeyAllHas(bound: set<Binding>, absorbed: seq<Id>, to: Id, e: Id, n: Id)
    requires to !in absorbed
    ensures Has(RekeyAll(bound, absorbed, to), e, n) <==>
            (n !in absorbed && Has(bound, e, n)) || (n == to && exists a :: a in absorbed && Has(bound, e, a))
    decreases |absorbed|
  {
    hide Rekey, Has;
    if absorbed != [] {
      var a, rest := absorbed[0], absorbed[1..];
      assert absorbed == [a] + rest;
      var next := Rekey(bound, a, to);
      RekeyAllHas(next, rest, to, e, n);
      RekeyHas(bound, a, to, e, n);
      forall b | b in rest ensures Has(next, e, b) <==> b != a && Has(bound, e, b) { RekeyHas(bound, a, to, e, b); }
      assert (exists b :: b in absorbed && Has(bound, e, b)) <==>
             Has(bound, e, a) || exists b :: b in rest && Has(bound, e, b);
    }
  }

  ghost predicate Shared(shares: seq<seq<Id>>, e: Id) { exists i :: 0 <= i < |shares| && e in shares[i] }

  lemma SharedTail(shares: seq<seq<Id>>, e: Id)
    requires shares != []
    ensures Shared(shares, e) <==> e in shares[0] || Shared(shares[1..], e)
  {
    if e !in shares[0] && Shared(shares, e) {
      var i :| 0 <= i < |shares| && e in shares[i];
      assert shares[1..][i - 1] == shares[i];
    }
    if Shared(shares[1..], e) {
      var i :| 0 <= i < |shares[1..]| && e in shares[1..][i];
      assert shares[i + 1] == shares[1..][i];
    }
  }

  /** A split's re-keying: the parent keeps exactly the entries no part was given,
      and every entry that left it is on some part. */
  lemma {:induction false} ReassignAllHas(bound: set<Binding>, from: Id, shares: seq<seq<Id>>, ids: seq<Id>, e: Id)
    requires |shares| == |ids| && from !in ids
    ensures var out := ReassignAll(bound, from, shares, ids);
            && (Has(out, e, from) <==> Has(bound, e, from) && !Shared(shares, e))
            && (forall n :: Has(out, e, n) ==> Has(bound, e, n) || (n in ids && Has(bound, e, from)))
            && (forall n :: Has(bound, e, n) && n != from ==> Has(out, e, n))
            && (Has(bound, e, from) && Shared(shares, e) ==> exists n :: n in ids && Has(out, e, n))
    decreases |shares|
  {
    hide Move, Has;
    if shares != [] {
      assert ids == [ids[0]] + ids[1..];
      var next := Move(bound, Members(shares[0]), from, ids[0]);
      forall n ensures Has(next, e, n) <==>
          if n == from then Has(bound, e, n) && e !in shares[0]
          else Has(bound, e, n) || (n == ids[0] && e in shares[0] && Has(bound, e, from))
      {
        MovedHas(bound, Members(shares[0]), from, ids[0], e, n);
      }
      SharedTail(shares, e);
      ReassignAllHas(next, from, shares[1..], ids[1..], e);
      if Has(bound, e, from) && e in shares[0] {
        assert Has(next, e, ids[0]) && ids[0] in ids && Has(ReassignAll(bound, from, shares, ids), e, ids[0]);
      }
    }
  }

  lemma BoundHas(bound: set<Binding>, e: Id)
    ensures e in BoundEntries(bound) <==> exists n :: Has(bound, e, n)
  {
    if b :| b in bound && b.entry == e { assert Has(bound, e, b.node); }
    if n :| Has(bound, e, n) { assert Binding(e, n) in bound; }
  }

  lemma ReachableHas(m: Memory)
    ensures Reachable(m) <==> forall e, n :: Has(m.bound, e, n) ==> n in m.graph.nodes
  {
    forall b | b in m.bound && (forall e, n :: Has(m.bound, e, n) ==> n in m.graph.nodes) ensures b.node in m.graph.nodes {
      assert Has(m.bound, b.entry, b.node);
    }
  }

  // -------------------------------------------------- one pass at a time

  ghost predicate Absorbs(m: Memory, p: Pass) {
    p.Absorb? && p.survivor in p.nodes && p.survivor in m.graph.nodes && AbsorbResult(m, p).result.Ok?
  }

  lemma AbsorbFacts(m: Memory, p: Pass)
    requires WellFormed(m.graph) && Absorbs(m, p)
    ensures var g', gone := After(m, p).graph, p.nodes - {p.survivor};
            && gone <= m.graph.nodes.Keys && g'.nodes.Keys == m.graph.nodes.Keys - gone
            && forall n :: n in g'.nodes && n != p.survivor ==> g'.nodes[n] == m.graph.nodes[n]
  {
    hide WellFormed, MergeNodes, Less;
    var absorbed := Sorted(p.nodes - {p.survivor});
    assert (set a | a in absorbed) == p.nodes - {p.survivor};
    MergedFacts(m.graph, p.survivor, absorbed, m.graph.nodes[p.survivor].name, p.typ, p.facts, p.embedding, p.now);
  }

  /** A merge leaves every entry bound, to live nodes only. */
  lemma AbsorbKeepsEvidence(m: Memory, p: Pass)
    requires WellFormed(m.graph) && Reachable(m) && Absorbs(m, p)
    ensures Reachable(After(m, p)) && BoundEntries(After(m, p).bound) == BoundEntries(m.bound)
  {
    hide WellFormed, MergeNodes, Less, Has, RekeyAll, Reachable, BoundEntries;
    var m' := After(m, p);
    var absorbed := Sorted(p.nodes - {p.survivor});
    AbsorbFacts(m, p);
    ReachableHas(m);
    ReachableHas(m');
    forall e, n | Has(m'.bound, e, n) ensures n in m'.graph.nodes { RekeyAllHas(m.bound, absorbed, p.survivor, e, n); }
    forall e ensures e in BoundEntries(m'.bound) <==> e in BoundEntries(m.bound) {
      BoundHas(m.bound, e);
      BoundHas(m'.bound, e);
      if n :| Has(m.bound, e, n) {
        RekeyAllHas(m.bound, absorbed, p.survivor, e, if n in absorbed then p.survivor else n);
      }
      if n :| Has(m'.bound, e, n) { RekeyAllHas(m.bound, absorbed, p.survivor, e, n); }
    }
  }

  ghost predicate Divides(m: Memory, p: Pass) {
    p.Divide? && |p.shares| == |p.parts| && SplitNode(m.graph, p.id, p.parts, p.now).result.Ok?
  }

  lemma DivideBindings(m: Memory, p: Pass, e: Id)
    requires WellFormed(m.graph) && Divides(m, p)
    ensures var out, ids := After(m, p).bound, SplitNode(m.graph, p.id, p.parts, p.now).result.value;
            && p.id !in ids && p.id !in After(m, p).graph.nodes && (forall n :: n in ids ==> n in After(m, p).graph.nodes)
            && (forall n :: n in m.graph.nodes && n != p.id ==> n in After(m, p).graph.nodes)
            && (Has(out, e, p.id) <==> Has(m.bound, e, p.id) && !Shared(p.shares, e))
            && (forall n :: Has(out, e, n) ==> Has(m.bound, e, n) || (n in ids && Has(m.bound, e, p.id)))
            && (forall n :: Has(m.bound, e, n) && n != p.id ==> Has(out, e, n))
            && (Has(m.bound, e, p.id) && Shared(p.shares, e) ==> exists n :: n in ids && Has(out, e, n))
  {
    hide WellFormed, SplitNode, Has, ReassignAll, Shared, PartNode, NodeId;
    MintedThere(m.graph);
    SplitNodeFacts(m.graph, p.id, p.parts, p.now);
    ReassignAllHas(m.bound, p.id, p.shares, SplitNode(m.graph, p.id, p.parts, p.now).result.value, e);
  }

  /** A split leaves no entry behind exactly when the parts were given all of the parent's. */
  lemma DivideReaches(m: Memory, p: Pass)
    requires WellFormed(m.graph) && Reachable(m) && Divides(m, p)
    ensures Reachable(After(m, p)) <==> forall e :: Has(m.bound, e, p.id) ==> Shared(p.shares, e)
  {
    hide WellFormed, SplitNode, Has, After, Reachable, Shared;
    var m' := After(m, p);
    ReachableHas(m);
    ReachableHas(m');
    forall e, n | Has(m'.bound, e, n) && n !in m'.graph.nodes ensures n == p.id && Has(m.bound, e, p.id) && !Shared(p.shares, e) {
      DivideBindings(m, p, e);
    }
    forall e | Has(m.bound, e, p.id) && !Shared(p.shares, e) ensures Has(m'.bound, e, p.id) && p.id !in m'.graph.nodes {
      DivideBindings(m, p, e);
    }
  }

  lemma DivideConserves(m: Memory, p: Pass)
    requires WellFormed(m.graph) && Divides(m, p)
    ensures BoundEntries(After(m, p).bound) == BoundEntries(m.bound)
  {
    hide WellFormed, SplitNode, Has, After, BoundEntries, Shared;
    var m' := After(m, p);
    forall e ensures e in BoundEntries(m'.bound) <==> e in BoundEntries(m.bound) {
      BoundHas(m.bound, e);
      BoundHas(m'.bound, e);
      DivideBindings(m, p, e);
      if n :| Has(m.bound, e, n) { assert n == p.id || Has(m'.bound, e, n); }
      if n :| Has(m'.bound, e, n) { assert Has(m.bound, e, n) || Has(m.bound, e, p.id); }
    }
  }

  lemma MintedThere(g: Graph)
    requires WellFormed(g)
    ensures IdsMinted(g)
  {
  }

  lemma EraseKeepsEvidence(m: Memory, p: Pass)
    requires Reachable(m) && p.Erase?
    ensures Reachable(After(m, p)) && BoundEntries(After(m, p).bound) == BoundEntries(m.bound) - p.entries
  {
    hide Less, DropTouching;
    forall b | b in After(m, p).bound ensures b.node in After(m, p).graph.nodes {
      assert b in m.bound && b.entry in EntriesOf(m.bound, b.node);
    }
    forall e | e in BoundEntries(m.bound) - p.entries ensures e in BoundEntries(After(m, p).bound) {
      var b :| b in m.bound && b.entry == e;
      assert b in After(m, p).bound;
    }
  }

  lemma BindKeepsEvidence(m: Memory, p: Pass)
    requires Reachable(m) && p.Bind? && Admitted(m, p)
    ensures Reachable(After(m, p))
    ensures BoundEntries(After(m, p).bound) == BoundEntries(m.bound) + if p.nodes == {} then {} else {p.entry}
  {
    var out := After(m, p).bound;
    forall e ensures e in BoundEntries(out) <==> e in BoundEntries(m.bound) || (e == p.entry && p.nodes != {}) {
      if b :| b in m.bound && b.entry == e { assert b in out; }
      if e == p.entry && p.nodes != {} {
        var n :| n in p.nodes;
        assert Binding(p.entry, n) in out;
      }
    }
  }

  /** Other writes remove no node and change no name; aliases only grow. */
  lemma WriteKeepsNodes(g: Graph, op: Op)
    requires WellFormed(g) && !op.Merge? && !op.Split? && !op.Delete?
    ensures forall n :: n in g.nodes ==> n in Journal.After(g, op).nodes && KeepsRoutes(g.nodes[n], Journal.After(g, op).nodes[n])
  {
    hide Moved, UnitNorm, StatementOk, EdgeTypeOk, ByTriple, Union, RelationId, EdgesSound, UniqueTriples, NodesSound,
      NodeId, NodeOk, MintedNode;
    FreshNode(g);
    if op.Alias? && op.id in g.nodes {
      var n := g.nodes[op.id];
      CanonicalRoutes(n.name, n.aliases + op.names);
      RoutesGrow(n.name, n.aliases, op.names);
    }
  }

  ghost predicate KeepsRoutes(n: Node, n': Node) {
    n'.name == n.name && Routes(n.name, n.aliases) <= Routes(n'.name, n'.aliases)
  }

  lemma RoutesGrow(name: string, aliases: seq<string>, more: seq<string>)
    ensures Routes(name, aliases) <= Routes(name, aliases + more)
    ensures Routes(name, aliases + more) == Routes(name, aliases) + Keys(FOLD, more)
  {
  }

  // ----------------------------------------------------------------- names

  /** Follow the absorption records from *n*, in the order they were made. */
  function Resolve(links: seq<Link>, n: Id): Id
    decreases |links|
  {
    if links == [] then n else Resolve(links[1..], if links[0].absorbed == n then links[0].survivor else n)
  }

  lemma {:induction false} ResolveAppend(links: seq<Link>, more: seq<Link>, n: Id)
    ensures Resolve(links + more, n) == Resolve(more, Resolve(links, n))
    decreases |links|
  {
    if links == [] {
      assert links + more == more;
    } else {
      assert (links + more)[1..] == links[1..] + more;
      ResolveAppend(links[1..], more, if links[0].absorbed == n then links[0].survivor else n);
    }
  }

  lemma {:induction false} ResolveLinksTo(absorbed: seq<Id>, survivor: Id, n: Id)
    requires survivor !in absorbed
    ensures Resolve(LinksTo(absorbed, survivor), n) == if n in absorbed then survivor else n
    decreases |absorbed|
  {
    if absorbed != [] {
      assert absorbed == [absorbed[0]] + absorbed[1..];
      var links := LinksTo(absorbed, survivor);
      assert links[0] == Link(absorbed[0], survivor) && links[1..] == LinksTo(absorbed[1..], survivor);
      ResolveLinksTo(absorbed[1..], survivor, if absorbed[0] == n then survivor else n);
    }
  }

  lemma {:induction false} ResolveUnlinked(links: seq<Link>, n: Id)
    requires forall i :: 0 <= i < |links| ==> links[i].absorbed != n
    ensures Resolve(links, n) == n
    decreases |links|
  {
    if links != [] {
      assert forall i :: 0 <= i < |links[1..]| ==> links[1..][i] == links[i + 1];
      ResolveUnlinked(links[1..], n);
    }
  }

  ghost predicate Answers(g: Graph, n: Id, surface: string) {
    n in g.nodes && surface in Routes(g.nodes[n].name, g.nodes[n].aliases)
  }

  lemma {:induction false} SurfacesCover(nodes: map<Id, Node>, absorbed: seq<Id>, a: Id)
    requires a in absorbed && a in nodes
    ensures Routes(nodes[a].name, nodes[a].aliases) <= Keys(FOLD, AbsorbedSurfaces(nodes, absorbed))
  {
    assert absorbed == [absorbed[0]] + absorbed[1..];
    var rest := AbsorbedSurfaces(nodes, absorbed[1..]);
    if absorbed[0] == a {
      var all := [nodes[a].name] + nodes[a].aliases + rest;
      assert FOLD(nodes[a].name) in Keys(FOLD, all) by { assert all[0] == nodes[a].name; }
      assert Keys(FOLD, nodes[a].aliases) <= Keys(FOLD, all);
    } else {
      SurfacesCover(nodes, absorbed[1..], a);
      assert Keys(FOLD, rest) <= Keys(FOLD, AbsorbedSurfaces(nodes, absorbed));
    }
  }

  /** Exactly which surfaces a merged node answers to: its new name, the survivor's
      aliases, and everything the absorbed nodes answered to. */
  lemma MergedAnswers(g: Graph, survivor: Id, absorbed: seq<Id>, name: string, typ: string, facts: seq<Fact>,
                      embedding: seq<real>, now: int)
    requires MergeNodes(g, survivor, absorbed, name, typ, facts, embedding, now).result.Ok?
    ensures survivor in g.nodes
    ensures var g' := MergeNodes(g, survivor, absorbed, name, typ, facts, embedding, now).graph;
            && survivor in g'.nodes && g'.nodes[survivor].name == name
            && Routes(name, g'.nodes[survivor].aliases) ==
               {Fold(name)} + Keys(FOLD, g.nodes[survivor].aliases) + Keys(FOLD, AbsorbedSurfaces(g.nodes, absorbed))
  {
    hide UnitNorm, Moved, AnyBlank, Canonical, AbsorbedSurfaces, Deleting, Fold;
    var aliases := g.nodes[survivor].aliases + AbsorbedSurfaces(g.nodes, absorbed);
    CanonicalRoutes(name, aliases);
    RoutesGrow(name, g.nodes[survivor].aliases, AbsorbedSurfaces(g.nodes, absorbed));
  }

  /** So a merge under a new name loses the survivor's old one exactly when nothing
      else involved answers to it. */
  lemma OldNameKeptExactly(g: Graph, survivor: Id, absorbed: seq<Id>, name: string, typ: string, facts: seq<Fact>,
                           embedding: seq<real>, now: int)
    requires MergeNodes(g, survivor, absorbed, name, typ, facts, embedding, now).result.Ok?
    ensures survivor in g.nodes
    ensures var g' := MergeNodes(g, survivor, absorbed, name, typ, facts, embedding, now).graph;
            var old_name := Fold(g.nodes[survivor].name);
            Answers(g', survivor, old_name) <==>
              old_name == Fold(name) || old_name in Keys(FOLD, g.nodes[survivor].aliases)
              || old_name in Keys(FOLD, AbsorbedSurfaces(g.nodes, absorbed))
  {
    hide UnitNorm, Moved, AnyBlank, Canonical, AbsorbedSurfaces, Deleting, Fold, MergeNodes;
    MergedAnswers(g, survivor, absorbed, name, typ, facts, embedding, now);
  }

  lemma AbsorbKeepsNames(m: Memory, p: Pass, n: Id, surface: string)
    requires WellFormed(m.graph) && Absorbs(m, p) && Answers(m.graph, n, surface)
    ensures Answers(After(m, p).graph, if n in p.nodes then p.survivor else n, surface)
  {
    hide WellFormed, MergeNodes, Less, AbsorbedSurfaces, Fold, RekeyAll;
    var absorbed := Sorted(p.nodes - {p.survivor});
    AbsorbFacts(m, p);
    MergedAnswers(m.graph, p.survivor, absorbed, m.graph.nodes[p.survivor].name, p.typ, p.facts, p.embedding, p.now);
    if n in absorbed { SurfacesCover(m.graph.nodes, absorbed, n); }
  }

  /** What a pass takes away for good: a split's parent, an erasure's unsupported nodes. */
  ghost function Taken(m: Memory, p: Pass): set<Id> {
    match p
    case Divide(id, _, _, _) => if Divides(m, p) then {id} else {}
    case Erase(entries) => Members(Unsupported(m.bound, entries))
    case _ => {}
  }

  /** Where a node's identity goes in one pass. */
  ghost function Becomes(m: Memory, p: Pass, n: Id): Id {
    if Absorbs(m, p) && n in p.nodes then p.survivor else n
  }

  /** A surface that leads to a live node still leads to one after the pass, by
      following the pass's records, unless the node was split or erased. */
  lemma PassKeepsNames(m: Memory, p: Pass, n: Id, surface: string)
    requires WellFormed(m.graph) && Admitted(m, p) && Answers(m.graph, n, surface)
    ensures n in Taken(m, p) || Answers(After(m, p).graph, Becomes(m, p, n), surface)
  {
    hide WellFormed, MergeNodes, SplitNode, Less, Fold, Journal.After, RekeyAll, ReassignAll, Has, FailsMidway, Divides, Absorbs;
    if !p.Absorb? { NotAbsorbing(m, p); }
    match p
    case Bind(_, _) =>
    case Absorb(_, _, _, _, _, _) =>
      if Absorbs(m, p) { AbsorbKeepsNames(m, p, n, surface); } else { FailedAbsorb(m, p); }
    case Divide(_, _, _, _) => DivideKeepsNames(m, p, n, surface);
    case Erase(_) => EraseKeepsNames(m, p, n, surface);
    case Write(op) => WriteKeepsNodes(m.graph, op);
  }

  lemma NotAbsorbing(m: Memory, p: Pass)
    requires !p.Absorb?
    ensures !Absorbs(m, p)
  {
  }

  lemma FailedAbsorb(m: Memory, p: Pass)
    requires WellFormed(m.graph) && p.Absorb? && Admitted(m, p) && !Absorbs(m, p)
    ensures forall n :: n in m.graph.nodes ==> n in After(m, p).graph.nodes && After(m, p).graph.nodes[n] == m.graph.nodes[n]
  {
    hide WellFormed, MergeNodes, Less, FailsMidway, RekeyAll;
    if p.survivor in m.graph.nodes {
      MergeKeepsWellFormed(m.graph, p.survivor, Sorted(p.nodes - {p.survivor}), m.graph.nodes[p.survivor].name, p.typ,
                           p.facts, p.embedding, p.now);
    }
  }

  lemma DivideKeepsNames(m: Memory, p: Pass, n: Id, surface: string)
    requires WellFormed(m.graph) && p.Divide? && Admitted(m, p) && Answers(m.graph, n, surface)
    ensures n in Taken(m, p) || Answers(After(m, p).graph, n, surface)
  {
    hide WellFormed, SplitInto, Less, Fold, ReassignAll, NodeId, PartNode, Claims;
    MintedThere(m.graph);
    if SplitNode(m.graph, p.id, p.parts, p.now).result.Ok? { SplitNodeFacts(m.graph, p.id, p.parts, p.now); }
  }

  lemma EraseKeepsNames(m: Memory, p: Pass, n: Id, surface: string)
    requires p.Erase? && Answers(m.graph, n, surface)
    ensures n in Taken(m, p) || Answers(After(m, p).graph, n, surface)
  {
    hide Less, Fold, DropTouching, Unsupported, Supported;
  }

  /** No pass ever renames a node that stays. */
  lemma SurvivorsKeepTheirNames(m: Memory, p: Pass, n: Id)
    requires WellFormed(m.graph) && Admitted(m, p) && n in m.graph.nodes && n in After(m, p).graph.nodes
    ensures After(m, p).graph.nodes[n].name == m.graph.nodes[n].name
  {
    hide WellFormed, MergeNodes, SplitNode, Less, Fold, Journal.After, RekeyAll, ReassignAll, FailsMidway, DropTouching,
      Unsupported, Supported, Divides, Absorbs, Routes;
    match p
    case Absorb(_, _, _, _, _, _) =>
      if Absorbs(m, p) { AbsorbKeepsName(m, p, n); } else { FailedAbsorb(m, p); }
    case Divide(_, _, _, _) => DivideKeepsName(m, p, n);
    case Write(op) => WriteKeepsNodes(m.graph, op);
    case _ =>
  }

  lemma AbsorbKeepsName(m: Memory, p: Pass, n: Id)
    requires WellFormed(m.graph) && Absorbs(m, p) && n in After(m, p).graph.nodes
    ensures n in m.graph.nodes && After(m, p).graph.nodes[n].name == m.graph.nodes[n].name
  {
    hide WellFormed, MergeNodes, Less, AbsorbedSurfaces, Fold, RekeyAll;
    AbsorbFacts(m, p);
    MergedAnswers(m.graph, p.survivor, Sorted(p.nodes - {p.survivor}), m.graph.nodes[p.survivor].name, p.typ, p.facts,
                  p.embedding, p.now);
  }

  lemma DivideKeepsName(m: Memory, p: Pass, n: Id)
    requires WellFormed(m.graph) && p.Divide? && n in m.graph.nodes && n in After(m, p).graph.nodes
    ensures After(m, p).graph.nodes[n].name == m.graph.nodes[n].name
  {
    hide WellFormed, SplitInto, Less, Fold, ReassignAll, NodeId, PartNode, Claims;
    MintedThere(m.graph);
    if SplitNode(m.graph, p.id, p.parts, p.now).result.Ok? { SplitNodeFacts(m.graph, p.id, p.parts, p.now); }
  }

  // ------------------------------------------------------------ whole runs

  const NOTHING := Memory(EMPTY, {}, [])

  ghost function Run(passes: seq<Pass>): Memory {
    if passes == [] then NOTHING else After(Run(passes[..|passes| - 1]), passes[|passes| - 1])
  }

  /** Every pass is admitted, and every split hands out all of its parent's entries. */
  ghost predicate Validated(passes: seq<Pass>) {
    passes == [] ||
    (var before, last := passes[..|passes| - 1], passes[|passes| - 1];
     Validated(before) && Admitted(Run(before), last)
     && (Divides(Run(before), last) ==> forall e :: Has(Run(before).bound, e, last.id) ==> Shared(last.shares, e)))
  }

  ghost predicate EverAnswered(passes: seq<Pass>, n: Id, surface: string) {
    Answers(Run(passes).graph, n, surface) || (passes != [] && EverAnswered(passes[..|passes| - 1], n, surface))
  }

  /** *n* was split or erased at some pass. */
  ghost predicate EverTaken(passes: seq<Pass>, n: Id) {
    passes != [] && (n in Taken(Run(passes[..|passes| - 1]), passes[|passes| - 1]) || EverTaken(passes[..|passes| - 1], n))
  }

  /** Absorbed ids are dead, and no id is ever minted twice. */
  ghost predicate LinksDead(m: Memory) {
    forall i :: 0 <= i < |m.links| ==>
      m.links[i].absorbed !in m.graph.nodes && MintedNode(m.links[i].absorbed, m.graph.sequence)
  }

  ghost predicate Kept(m: Memory) { WellFormed(m.graph) && Reachable(m) && LinksDead(m) }

  /** Only fresh ids join the graph. */
  ghost predicate OnlyFresh(g: Graph, g': Graph) {
    g.sequence <= g'.sequence && forall n :: n in g'.nodes ==> n in g.nodes || g.sequence < Num(n)
  }

  lemma AdmittedWellFormed(m: Memory, p: Pass)
    requires WellFormed(m.graph) && Admitted(m, p)
    ensures WellFormed(After(m, p).graph) && OnlyFresh(m.graph, After(m, p).graph)
  {
    hide WellFormed, MergeNodes, SplitNode, Less, Journal.After, RekeyAll, ReassignAll, FailsMidway, DeleteNodes, MarkDirty,
      Unsupported, Supported, Num, OnlyFresh;
    match p
    case Bind(_, _) => NothingFresh(m.graph, m.graph);
    case Absorb(_, _, _, _, _, _) =>
      if p.survivor in m.graph.nodes {
        MergeKeepsWellFormed(m.graph, p.survivor, Sorted(p.nodes - {p.survivor}), m.graph.nodes[p.survivor].name, p.typ,
                             p.facts, p.embedding, p.now);
        if AbsorbResult(m, p).result.Ok? { AbsorbFacts(m, p); AbsorbCounts(m, p); }
      }
      NothingFresh(m.graph, After(m, p).graph);
    case Divide(_, _, _, _) =>
      SplitKeepsWellFormed(m.graph, p.id, p.parts, p.now);
      SplitOnlyFresh(m.graph, p.id, p.parts, p.now);
    case Erase(_) =>
      var gone, stay := Unsupported(m.bound, p.entries), Supported(m.bound, p.entries);
      DeleteKeepsWellFormed(m.graph, gone);
      BookkeepingChangesNoBelief(DeleteNodes(m.graph, gone), stay, 0);
      SameBeliefsKeepWellFormed(DeleteNodes(m.graph, gone), MarkDirty(DeleteNodes(m.graph, gone), stay));
      EraseOnlyFresh(m.graph, gone, stay);
    case Write(op) =>
      PerformKeepsWellFormed(m.graph, op);
      WriteOnlyFresh(m.graph, op);
  }

  lemma NothingFresh(g: Graph, g': Graph)
    requires g.sequence <= g'.sequence && forall n :: n in g'.nodes ==> n in g.nodes
    ensures OnlyFresh(g, g')
  {
    hide Num;
  }

  lemma AbsorbCounts(m: Memory, p: Pass)
    requires WellFormed(m.graph) && Absorbs(m, p)
    ensures After(m, p).graph.sequence == m.graph.sequence
  {
    hide WellFormed, MergeNodes, Less;
    MergedFacts(m.graph, p.survivor, Sorted(p.nodes - {p.survivor}), m.graph.nodes[p.survivor].name, p.typ, p.facts,
                p.embedding, p.now);
  }

  lemma SplitOnlyFresh(g: Graph, id: Id, parts: seq<SplitPart>, now: int)
    requires WellFormed(g)
    ensures OnlyFresh(g, SplitNode(g, id, parts, now).graph)
  {
    hide WellFormed, SplitInto, Claims, Num, NodeId, PartNode;
    if SplitNode(g, id, parts, now).result.Ok? {
      MintedThere(g);
      SplitNodeFacts(g, id, parts, now);
      var ids := SplitNode(g, id, parts, now).result.value;
      forall n | n in ids ensures g.sequence < Num(n) {
        var i :| 0 <= i < |ids| && ids[i] == n;
        NumOfRendered(g.sequence + 1 + i);
      }
    }
  }

  lemma EraseOnlyFresh(g: Graph, gone: seq<Id>, stay: seq<Id>)
    ensures OnlyFresh(g, MarkDirty(DeleteNodes(g, gone), stay))
  {
    hide Num, DropTouching;
  }

  lemma WriteOnlyFresh(g: Graph, op: Op)
    requires !op.Merge? && !op.Split? && !op.Delete?
    ensures OnlyFresh(g, Journal.After(g, op))
  {
    hide Moved, UnitNorm, StatementOk, EdgeTypeOk, ByTriple, Union, RelationId, NodeId, NodeOk, Num, Canonical, AnyBlank;
    NumOfRendered(g.sequence + 1);
  }

  ghost predicate LinkDead(g: Graph, l: Link) { l.absorbed !in g.nodes && MintedNode(l.absorbed, g.sequence) }

  lemma NewLinksDead(m: Memory, p: Pass, i: nat)
    requires WellFormed(m.graph) && Absorbs(m, p)
    requires i < |LinksTo(Sorted(p.nodes - {p.survivor}), p.survivor)|
    ensures LinkDead(After(m, p).graph, LinksTo(Sorted(p.nodes - {p.survivor}), p.survivor)[i])
  {
    hide WellFormed, MergeNodes, Less, RekeyAll, MintedNode, LinksTo;
    var absorbed := Sorted(p.nodes - {p.survivor});
    AbsorbFacts(m, p);
    AbsorbCounts(m, p);
    LinkedAbsorbed(absorbed, p.survivor);
    assert absorbed[i] in absorbed;
    NodeMinted(m.graph, absorbed[i]);
  }

  lemma LinksStayDead(m: Memory, p: Pass)
    requires WellFormed(m.graph) && LinksDead(m) && Admitted(m, p)
    ensures LinksDead(After(m, p))
  {
    hide WellFormed, MergeNodes, SplitNode, Journal.After, RekeyAll, ReassignAll, FailsMidway, DeleteNodes, MarkDirty,
      Unsupported, Supported, MintedNode, LinksTo, OnlyFresh, Sorted, Admitted;
    AdmittedWellFormed(m, p);
    var m' := After(m, p);
    forall i | 0 <= i < |m'.links| ensures LinkDead(m'.graph, m'.links[i]) {
      if i < |m.links| {
        assert m'.links[i] == m.links[i];
        StaysGone(m.graph, m'.graph, m.links[i].absorbed);
      } else {
        assert Absorbs(m, p) by { LinksGrowOnAbsorb(m, p); }
        NewLinksDead(m, p, i - |m.links|);
      }
    }
  }

  lemma LinksGrowOnAbsorb(m: Memory, p: Pass)
    requires Admitted(m, p)
    ensures !Absorbs(m, p) ==> After(m, p).links == m.links
  {
    hide MergeNodes, SplitNode, Journal.After, RekeyAll, ReassignAll, FailsMidway, DeleteNodes, MarkDirty, Unsupported,
      Supported;
  }

  lemma NodeMinted(g: Graph, n: Id)
    requires WellFormed(g) && n in g.nodes
    ensures MintedNode(n, g.sequence)
  {
  }

  lemma {:induction false} LinkedAbsorbed(absorbed: seq<Id>, survivor: Id)
    ensures |LinksTo(absorbed, survivor)| == |absorbed|
    ensures forall i :: 0 <= i < |absorbed| ==> LinksTo(absorbed, survivor)[i] == Link(absorbed[i], survivor)
  {
    if absorbed != [] { LinkedAbsorbed(absorbed[1..], survivor); }
  }

  lemma PassKeepsEvidence(m: Memory, p: Pass)
    requires Kept(m) && Admitted(m, p)
    requires Divides(m, p) ==> forall e :: Has(m.bound, e, p.id) ==> Shared(p.shares, e)
    ensures Reachable(After(m, p))
  {
    hide WellFormed, MergeNodes, SplitNode, Less, Journal.After, FailsMidway, LinksDead, Has, Shared;
    match p
    case Bind(_, _) => BindKeepsEvidence(m, p);
    case Absorb(_, _, _, _, _, _) =>
      if Absorbs(m, p) { AbsorbKeepsEvidence(m, p); } else { FailedAbsorb(m, p); }
    case Divide(_, _, _, _) => if Divides(m, p) { DivideReaches(m, p); } else { FailedDivide(m, p); }
    case Erase(_) => EraseKeepsEvidence(m, p);
    case Write(op) => WriteKeepsNodes(m.graph, op);
  }

  lemma FailedDivide(m: Memory, p: Pass)
    requires WellFormed(m.graph) && p.Divide? && Admitted(m, p) && !Divides(m, p)
    ensures After(m, p) == m
  {
    hide SplitInto, Claims;
  }

  /** Over every validated run the graph stays well formed, no binding dangles and no
      absorbed id comes back. */
  lemma {:induction false} RunsKept(passes: seq<Pass>)
    requires Validated(passes)
    ensures Kept(Run(passes))
  {
    hide WellFormed, Admitted, After, Divides, Has, Shared;
    if passes == [] {
      StartsKept();
    } else {
      var m, p := Run(passes[..|passes| - 1]), passes[|passes| - 1];
      RunsKept(passes[..|passes| - 1]);
      AdmittedWellFormed(m, p);
      LinksStayDead(m, p);
      PassKeepsEvidence(m, p);
    }
  }

  predicate Binds(p: Pass, e: Id) { p.Bind? && p.entry == e && p.nodes != {} }

  predicate Erases(p: Pass, e: Id) { p.Erase? && e in p.entries }

  /** Some pass bound *e* and no later one has erased it. */
  ghost predicate Standing(passes: seq<Pass>, e: Id) {
    exists i :: 0 <= i < |passes| && Binds(passes[i], e) && forall j :: i < j < |passes| ==> !Erases(passes[j], e)
  }

  lemma StandingLast(passes: seq<Pass>, e: Id)
    requires passes != []
    ensures var before, last := passes[..|passes| - 1], passes[|passes| - 1];
            Standing(passes, e) <==> Binds(last, e) || (Standing(before, e) && !Erases(last, e))
  {
    hide Binds, Erases;
    var before, last := passes[..|passes| - 1], passes[|passes| - 1];
    if Standing(before, e) && !Erases(last, e) {
      var i :| 0 <= i < |before| && Binds(before[i], e) && forall j :: i < j < |before| ==> !Erases(before[j], e);
      forall j | i < j < |passes| ensures !Erases(passes[j], e) { if j < |before| { assert before[j] == passes[j]; } }
      assert Binds(passes[i], e);
    }
    if Standing(passes, e) && !Binds(last, e) {
      var i :| 0 <= i < |passes| && Binds(passes[i], e) && forall j :: i < j < |passes| ==> !Erases(passes[j], e);
      assert Binds(before[i], e) && forall j :: i < j < |before| ==> before[j] == passes[j];
    }
  }

  /** What one pass does to whether an entry is bound at all. */
  lemma PassBinds(m: Memory, p: Pass, e: Id)
    requires Kept(m) && Admitted(m, p)
    ensures e in BoundEntries(After(m, p).bound) <==> Binds(p, e) || (e in BoundEntries(m.bound) && !Erases(p, e))
  {
    hide WellFormed, MergeNodes, SplitNode, Less, Journal.After, FailsMidway, LinksDead, Reachable, BoundEntries, RekeyAll,
      ReassignAll, DeleteNodes, MarkDirty;
    match p
    case Bind(_, _) => BindKeepsEvidence(m, p);
    case Absorb(_, _, _, _, _, _) => if Absorbs(m, p) { AbsorbKeepsEvidence(m, p); }
    case Divide(_, _, _, _) => if Divides(m, p) { DivideConserves(m, p); } else { FailedDivide(m, p); }
    case Erase(_) => EraseKeepsEvidence(m, p);
    case Write(op) =>
  }

  /** Over every validated run a ledger entry can be read from a live node exactly when
      some pass bound it and none has erased it since. */
  lemma {:induction false} EvidenceSurvives(passes: seq<Pass>, e: Id)
    requires Validated(passes)
    ensures Standing(passes, e) <==> exists n :: Has(Run(passes).bound, e, n) && n in Run(passes).graph.nodes
  {
    hide WellFormed, Admitted, After, Divides, Has, Shared, Standing, BoundEntries, LinksDead;
    RunsKept(passes);
    ReachableHas(Run(passes));
    BoundHas(Run(passes).bound, e);
    EntryStands(passes, e);
  }

  lemma {:induction false} EntryStands(passes: seq<Pass>, e: Id)
    requires Validated(passes)
    ensures Standing(passes, e) <==> e in BoundEntries(Run(passes).bound)
  {
    hide WellFormed, Admitted, After, Divides, Has, Shared, Binds, Erases, Standing, BoundEntries, Kept;
    if passes == [] {
      NothingStands(e);
    } else {
      var before, last := passes[..|passes| - 1], passes[|passes| - 1];
      RunsKept(before);
      EntryStands(before, e);
      StandingLast(passes, e);
      PassBinds(Run(before), last, e);
    }
  }

  lemma NothingStands(e: Id)
    ensures !Standing([], e) && e !in BoundEntries(Run([]).bound)
  {
  }

  lemma StartsKept()
    ensures Kept(NOTHING)
  {
  }

  /** Over every validated run, a surface that ever led to a node still leads, along
      the absorption records, to a live node answering to it, unless the node it
      now stands for was split or erased. */
  lemma {:induction false} NamesSurvive(passes: seq<Pass>, n: Id, surface: string)
    requires Validated(passes) && EverAnswered(passes, n, surface)
    ensures var end := Resolve(Run(passes).links, n);
            EverTaken(passes, end) || Answers(Run(passes).graph, end, surface)
  {
    hide WellFormed, Admitted, After, Divides, Has, Shared, Answers, Taken, Resolve, Becomes;
    RunsKept(passes);
    if Answers(Run(passes).graph, n, surface) {
      LiveIsUnlinked(Run(passes), n, surface);
      ResolveUnlinked(Run(passes).links, n);
    } else {
      var before, p := passes[..|passes| - 1], passes[|passes| - 1];
      RunsKept(before);
      NamesSurvive(before, n, surface);
      var end := Resolve(Run(before).links, n);
      PassResolves(Run(before), p, n);
      if EverTaken(before, end) {
        TakenStaysTaken(before, p, end);
      } else {
        PassKeepsNames(Run(before), p, end, surface);
        BecomesSame(Run(before), p, end);
      }
    }
  }

  lemma LiveIsUnlinked(m: Memory, n: Id, surface: string)
    requires LinksDead(m) && Answers(m.graph, n, surface)
    ensures forall i :: 0 <= i < |m.links| ==> m.links[i].absorbed != n
  {
  }

  lemma PassResolves(m: Memory, p: Pass, n: Id)
    requires WellFormed(m.graph) && Admitted(m, p)
    ensures Resolve(After(m, p).links, n) == Becomes(m, p, Resolve(m.links, n))
  {
    hide WellFormed, MergeNodes, SplitNode, Less, Journal.After, RekeyAll, ReassignAll, FailsMidway, Resolve;
    if Absorbs(m, p) {
      var absorbed := Sorted(p.nodes - {p.survivor});
      ResolveAppend(m.links, LinksTo(absorbed, p.survivor), n);
      ResolveLinksTo(absorbed, p.survivor, Resolve(m.links, n));
    }
  }

  /** A node gone for good is never absorbed later: it is not there to be absorbed. */
  lemma TakenStaysTaken(before: seq<Pass>, p: Pass, end: Id)
    requires Validated(before) && EverTaken(before, end) && Admitted(Run(before), p)
    ensures Becomes(Run(before), p, end) == end
  {
    hide WellFormed, Admitted, After, Divides, Has, Shared, Answers, Taken, Resolve;
    TakenIsGone(before, end);
    RunsKept(before);
    if Absorbs(Run(before), p) { AbsorbFacts(Run(before), p); }
  }

  lemma BecomesSame(m: Memory, p: Pass, end: Id)
    ensures end in Taken(m, p) ==> Becomes(m, p, end) == end
  {
    hide SplitNode, MergeNodes, Unsupported;
  }

  /** A taken node is dead and its id is never minted again. */
  lemma {:induction false} TakenIsGone(passes: seq<Pass>, n: Id)
    requires Validated(passes) && EverTaken(passes, n)
    ensures n !in Run(passes).graph.nodes && MintedNode(n, Run(passes).graph.sequence)
  {
    hide WellFormed, After, Divides, Has, Shared, Taken, Num, NodeId, FailsMidway, OnlyFresh;
    var before, p := passes[..|passes| - 1], passes[|passes| - 1];
    RunsKept(before);
    AdmittedWellFormed(Run(before), p);
    if n in Taken(Run(before), p) {
      TakenNow(Run(before), p, n);
    } else {
      TakenIsGone(before, n);
      StaysGone(Run(before).graph, Run(passes).graph, n);
    }
  }

  lemma StaysGone(g: Graph, g': Graph, n: Id)
    requires OnlyFresh(g, g') && n !in g.nodes && MintedNode(n, g.sequence)
    ensures n !in g'.nodes && MintedNode(n, g'.sequence)
  {
    hide NodeId, Num;
  }

  lemma TakenNow(m: Memory, p: Pass, n: Id)
    requires Kept(m) && Admitted(m, p) && n in Taken(m, p)
    ensures n !in After(m, p).graph.nodes && MintedNode(n, After(m, p).graph.sequence)
  {
    hide WellFormed, SplitNode, Less, NodeId, Num, ReassignAll, DropTouching, PartNode, LinksDead;
    if p.Divide? {
      MintedThere(m.graph);
      SplitNodeFacts(m.graph, p.id, p.parts, p.now);
      NodeMinted(m.graph, n);
      MintedMonotone(n, m.graph.sequence, After(m, p).graph.sequence);
    } else {
      ErasedNow(m, p, n);
    }
  }

  lemma ErasedNow(m: Memory, p: Pass, n: Id)
    requires Kept(m) && p.Erase? && n in Members(Unsupported(m.bound, p.entries))
    ensures n !in After(m, p).graph.nodes && MintedNode(n, After(m, p).graph.sequence)
  {
    hide WellFormed, Less, NodeId, Num, DropTouching, LinksDead;
    var b :| b in m.bound && b.entry in p.entries && b.node == n;
    NodeMinted(m.graph, n);
  }

  /** An erasure forgets exactly the erased entries, deletes exactly the nodes that had one and
      have nothing else left, and marks exactly those that had one and have more. */
  lemma ErasureLeaves(m: Memory, entries: set<Id>, n: Id)
    requires n in m.graph.nodes
    ensures var after := After(m, Erase(entries));
            var lost := exists e :: e in entries && Has(m.bound, e, n);
            var left := exists e :: e !in entries && Has(m.bound, e, n);
            && (n in after.graph.nodes <==> !lost || left)
            && (n in after.graph.nodes ==> (after.graph.nodes[n].dirty <==> m.graph.nodes[n].dirty || lost))
            && (forall e, k :: Has(after.bound, e, k) <==> Has(m.bound, e, k) && e !in entries)
  {
    hide Less, DropTouching;
    var unsupported, supported := Unsupported(m.bound, entries), Supported(m.bound, entries);
    TouchedIs(m.bound, entries, n);
    assert forall e, k :: Has(Forgotten(m.bound, entries), e, k) <==> Has(m.bound, e, k) && e !in entries;
  }

  lemma TouchedIs(bound: set<Binding>, entries: set<Id>, n: Id)
    ensures n in Unsupported(bound, entries) <==>
            (exists e :: e in entries && Has(bound, e, n)) && !(exists e :: e !in entries && Has(bound, e, n))
    ensures n in Supported(bound, entries) <==>
            (exists e :: e in entries && Has(bound, e, n)) && exists e :: e !in entries && Has(bound, e, n)
  {
    hide Less;
    forall e ensures e in EntriesOf(bound, n) <==> Has(bound, e, n) { EntriesHave(bound, n, e); }
    assert EntriesOf(bound, n) <= entries <==> !exists e :: e !in entries && Has(bound, e, n);
    if e :| e in entries && Has(bound, e, n) { assert Binding(e, n) in bound; }
    hide EntriesOf;
    if b :| b in bound && b.entry in entries && b.node == n { assert Has(bound, b.entry, n); }
  }
}
