/** Rebuilding a scope from its journal through the store's own write seam. */
module Replay {
  import opened Ids
  import opened Surfaces
  import opened GraphModel
  import opened EdgeFold
  import opened GraphOps
  import opened Journal

  /** The placeholder vector every replayed node is written with. */
  const REPLAY_EMBEDDING: seq<real> := [1.0]

  /** The graph being rebuilt, and journalled ids mapped to replayed ones. */
  datatype State = State(graph: Graph, nodes: map<Id, Id>, rels: map<Id, Id>)

  const BLANK := State(EMPTY, map[], map[])

  function CreateFrom(st: State, id: Id, c: NodeContent, ts: int): Outcome<State> {
    var done := CreateNode(st.graph, c.scope, c.name, c.typ, c.facts, REPLAY_EMBEDDING, ts, c.aliases);
    match done.result
    case Err(e) => Err(e)
    case Ok(minted) => Ok(State(done.graph, st.nodes[id := minted], st.rels))
  }

  ghost function Restore(st: State, id: Id, r: Relation, ts: int): Outcome<State> {
    if r.source !in st.nodes || r.target !in st.nodes then Err(JournalGap)
    else
      var done := UpsertRelation(st.graph, r.scope, st.nodes[r.source], st.nodes[r.target], r.typ, Some(r.claim),
                                 r.entryIds, r.until, ts);
      match done.result
      case Err(e) => Err(e)
      case Ok(stored) => Ok(State(done.graph, st.nodes, st.rels[id := stored]))
  }

  function CreateParts(st: State, parts: seq<(Id, NodeContent)>, ts: int): Outcome<State>
    decreases |parts|
  {
    if parts == [] then Ok(st)
    else match CreateFrom(st, parts[0].0, parts[0].1, ts)
      case Err(e) => Err(e)
      case Ok(next) => CreateParts(next, parts[1..], ts)
  }

  ghost function RestoreEdges(st: State, edges: seq<(Id, Relation)>, ts: int): Outcome<State>
    decreases |edges|
  {
    if edges == [] then Ok(st)
    else match Restore(st, edges[0].0, edges[0].1, ts)
      case Err(e) => Err(e)
      case Ok(next) => RestoreEdges(next, edges[1..], ts)
  }

  predicate Known(st: State, ids: seq<Id>) { forall x :: x in ids ==> x in st.nodes }

  function Translate(st: State, ids: seq<Id>): seq<Id>
    requires Known(st, ids)
  {
    if ids == [] then [] else [st.nodes[ids[0]]] + Translate(st, ids[1..])
  }

  function Stored<T>(st: State, done: Done<T>): Outcome<State> {
    match done.result
    case Err(e) => Err(e)
    case Ok(_) => Ok(st.(graph := done.graph))
  }

  /** One journalled mutation, applied by the write that recorded it. */
  ghost function ApplyEvent(st: State, e: Event): Outcome<State> {
    match e
    case NodeCreated(_, ts, id, content) => CreateFrom(st, id, content, ts)
    case AliasesAdded(_, ts, id, content) =>
      if id !in st.nodes then Err(JournalGap) else Stored(st, AddAliases(st.graph, st.nodes[id], content.aliases))
    case NodeRewritten(_, ts, id, c) =>
      if id !in st.nodes then Err(JournalGap)
      else Stored(st, ReplaceFacts(st.graph, st.nodes[id], c.facts, c.typ, REPLAY_EMBEDDING, ts))
    case NodeRetyped(_, ts, id, c) =>
      if id !in st.nodes then Err(JournalGap)
      else Stored(st, ReplaceFacts(st.graph, st.nodes[id], c.facts, c.typ, REPLAY_EMBEDDING, ts))
    case NodeMerged(_, ts, survivor, absorbed, c) =>
      if survivor !in st.nodes || !Known(st, absorbed) then Err(JournalGap)
      else Stored(st, MergeNodes(st.graph, st.nodes[survivor], Translate(st, absorbed), c.name, c.typ, c.facts,
                                 REPLAY_EMBEDDING, ts))
    case NodeSplit(_, ts, parent, parts, edges) =>
      if parent !in st.nodes then Err(JournalGap)
      else
        var cleared := st.(graph := DeleteNodes(st.graph, [st.nodes[parent]]));
        (match CreateParts(cleared, parts, ts)
         case Err(e) => Err(e)
         case Ok(next) => RestoreEdges(next, edges, ts))
    case NodeDeleted(_, ts, ids) =>
      if !Known(st, ids) then Err(JournalGap)
      else Ok(st.(graph := DeleteNodes(st.graph, Translate(st, ids))))
    case RelationUpserted(_, ts, id, edge) => Restore(st, id, edge, ts)
    case RelationRetired(_, ts, id) =>
      if id !in st.rels then Err(JournalGap) else Stored(st, RetireRelation(st.graph, st.rels[id]))
    case EdgeTypeRenamed(scope, ts, was, becomes) => Stored(st, RenameEdgeType(st.graph, scope, was, becomes))
  }

  ghost function ApplyAll(st: State, events: seq<Event>): Outcome<State> {
    if events == [] then Ok(st)
    else match ApplyAll(st, events[..|events| - 1])
      case Err(e) => Err(e)
      case Ok(next) => ApplyEvent(next, events[|events| - 1])
  }

  // ------------------------------------------------------------ simulation

  predicate InScope(nodes: map<Id, Node>, scope: string, n: Id) { n in nodes && nodes[n].scope == scope }

  predicate EdgeInScope(rels: map<Id, Relation>, scope: string, x: Id) { x in rels && rels[x].scope == scope }

  /** Live nodes of the scope and replayed nodes are in bijection, belief for belief. */
  ghost predicate NodeSim(nodes: map<Id, Node>, scope: string, nodes': map<Id, Node>, names: map<Id, Id>) {
    && (forall n :: InScope(nodes, scope, n) ==>
          n in names && names[n] in nodes' && SameNodeBeliefs(nodes[n], nodes'[names[n]]))
    && (forall a, b :: InScope(nodes, scope, a) && InScope(nodes, scope, b) && names[a] == names[b] ==> a == b)
    && (forall n' :: n' in nodes' ==> exists n :: InScope(nodes, scope, n) && names[n] == n')
  }

  /** The replayed edge states what the live edge states, between the replayed endpoints. */
  predicate Mirrors(r: Relation, r': Relation, nodes: map<Id, Id>) {
    && r.source in nodes && r'.source == nodes[r.source] && r.target in nodes && r'.target == nodes[r.target]
    && r'.scope == r.scope && r'.typ == r.typ && r'.claim == r.claim && r'.entryIds == r.entryIds && r'.until == r.until
  }

  ghost predicate EdgeSim(rels: map<Id, Relation>, scope: string, rels': map<Id, Relation>, nodes: map<Id, Id>,
                          ids: map<Id, Id>)
  {
    && (forall x :: EdgeInScope(rels, scope, x) ==>
          x in ids && ids[x] in rels' && Mirrors(rels[x], rels'[ids[x]], nodes))
    && (forall a, b :: EdgeInScope(rels, scope, a) && EdgeInScope(rels, scope, b) && ids[a] == ids[b] ==> a == b)
    && (forall x' :: x' in rels' ==> exists x :: EdgeInScope(rels, scope, x) && ids[x] == x')
  }

  /** The replayed graph is the scope's live graph up to the ids the replay minted. */
  ghost predicate Simulates(g: Graph, scope: string, st: State) {
    && NodeSim(g.nodes, scope, st.graph.nodes, st.nodes)
    && EdgeSim(g.rels, scope, st.graph.rels, st.nodes, st.rels)
  }

  // ------------------------------------------------- keeping a bijection

  lemma NodeSimPut(nodes: map<Id, Node>, scope: string, nodes': map<Id, Node>, names: map<Id, Id>, id: Id, n: Node,
                   n': Node)
    requires NodeSim(nodes, scope, nodes', names) && InScope(nodes, scope, id)
    requires n.scope == scope && SameNodeBeliefs(n, n')
    ensures NodeSim(nodes[id := n], scope, nodes'[names[id] := n'], names)
  {
    assert forall x :: InScope(nodes[id := n], scope, x) <==> InScope(nodes, scope, x);
  }

  lemma NodeSimAdd(nodes: map<Id, Node>, scope: string, nodes': map<Id, Node>, names: map<Id, Id>, id: Id, minted: Id,
                   n: Node, n': Node)
    requires NodeSim(nodes, scope, nodes', names) && id !in nodes && minted !in nodes'
    requires n.scope == scope && SameNodeBeliefs(n, n')
    ensures NodeSim(nodes[id := n], scope, nodes'[minted := n'], names[id := minted])
  {
    var m, m', k := nodes[id := n], nodes'[minted := n'], names[id := minted];
    assert forall x :: InScope(m, scope, x) <==> x == id || InScope(nodes, scope, x);
    forall x' | x' in m' ensures exists x :: InScope(m, scope, x) && k[x] == x' {
      if x' == minted {
        assert InScope(m, scope, id) && k[id] == x';
      } else {
        var x :| InScope(nodes, scope, x) && names[x] == x';
        assert InScope(m, scope, x) && k[x] == x';
      }
    }
  }

  /** *gone'* holds exactly the twins of *gone*. */
  ghost predicate Twins(gone: set<Id>, gone': set<Id>, names: map<Id, Id>) {
    forall n' :: n' in gone' <==> exists n :: n in gone && n in names && names[n] == n'
  }

  lemma TwinGone(nodes: map<Id, Node>, scope: string, nodes': map<Id, Node>, names: map<Id, Id>, gone: set<Id>,
                 gone': set<Id>, n: Id)
    requires NodeSim(nodes, scope, nodes', names) && Twins(gone, gone', names)
    requires forall x :: x in gone ==> InScope(nodes, scope, x)
    requires InScope(nodes, scope, n)
    ensures n in names && (names[n] in gone' <==> n in gone)
  {
    if names[n] in gone' {
      var k :| k in gone && k in names && names[k] == names[n];
      assert InScope(nodes, scope, k);
    }
  }

  lemma NodeSimDrop(nodes: map<Id, Node>, scope: string, nodes': map<Id, Node>, names: map<Id, Id>, gone: set<Id>,
                    gone': set<Id>)
    requires NodeSim(nodes, scope, nodes', names) && Twins(gone, gone', names)
    requires forall n :: n in gone ==> InScope(nodes, scope, n)
    ensures NodeSim(nodes - gone, scope, nodes' - gone', names)
  {
    hide SameNodeBeliefs;
    var m, m' := nodes - gone, nodes' - gone';
    forall n | InScope(m, scope, n)
      ensures n in names && names[n] in m' && SameNodeBeliefs(m[n], m'[names[n]])
    {
      assert InScope(nodes, scope, n);
      TwinGone(nodes, scope, nodes', names, gone, gone', n);
    }
    forall a, b | InScope(m, scope, a) && InScope(m, scope, b) && names[a] == names[b] ensures a == b {
      assert InScope(nodes, scope, a) && InScope(nodes, scope, b);
    }
    forall x' | x' in m' ensures exists x :: InScope(m, scope, x) && names[x] == x' {
      var x :| InScope(nodes, scope, x) && names[x] == x';
      TwinGone(nodes, scope, nodes', names, gone, gone', x);
      assert InScope(m, scope, x);
    }
  }

  /** Renaming more nodes leaves the edges' bijection alone. */
  lemma EdgeSimRenamed(rels: map<Id, Relation>, scope: string, rels': map<Id, Relation>, names: map<Id, Id>,
                       ids: map<Id, Id>, more: map<Id, Id>)
    requires EdgeSim(rels, scope, rels', names, ids)
    requires forall x :: EdgeInScope(rels, scope, x) ==> NamesKept(rels[x], names, more)
    ensures EdgeSim(rels, scope, rels', more, ids)
  {
  }

  predicate NamesKept(r: Relation, names: map<Id, Id>, more: map<Id, Id>) {
    && (r.source in names ==> r.source in more && more[r.source] == names[r.source])
    && (r.target in names ==> r.target in more && more[r.target] == names[r.target])
  }

  /** Dropping corresponding edges on both sides. */
  lemma EdgeSimKeep(rels: map<Id, Relation>, scope: string, rels': map<Id, Relation>, names: map<Id, Id>,
                    ids: map<Id, Id>, kept: map<Id, Relation>, kept': map<Id, Relation>)
    requires EdgeSim(rels, scope, rels', names, ids)
    requires forall x :: x in kept ==> x in rels && kept[x] == rels[x]
    requires forall x' :: x' in kept' ==> x' in rels' && kept'[x'] == rels'[x']
    requires forall x :: EdgeInScope(rels, scope, x) ==> (x in kept <==> ids[x] in kept')
    ensures EdgeSim(kept, scope, kept', names, ids)
  {
    hide Mirrors;
    assert forall x :: EdgeInScope(kept, scope, x) ==> EdgeInScope(rels, scope, x);
    forall x' | x' in kept' ensures exists x :: EdgeInScope(kept, scope, x) && ids[x] == x' {
      var x :| EdgeInScope(rels, scope, x) && ids[x] == x';
      assert EdgeInScope(kept, scope, x);
    }
  }

  /** Setting one edge and its twin, new or restated. */
  lemma EdgeSimPut(rels: map<Id, Relation>, scope: string, rels': map<Id, Relation>, names: map<Id, Id>,
                   ids: map<Id, Id>, x: Id, r: Relation, x': Id, r': Relation)
    requires EdgeSim(rels, scope, rels', names, ids) && r.scope == scope && Mirrors(r, r', names)
    requires if EdgeInScope(rels, scope, x) then ids[x] == x' else x !in rels && x' !in rels'
    ensures EdgeSim(rels[x := r], scope, rels'[x' := r'], names, ids[x := x'])
  {
    hide Mirrors;
    var m, m', k := rels[x := r], rels'[x' := r'], ids[x := x'];
    assert forall y :: EdgeInScope(m, scope, y) <==> y == x || EdgeInScope(rels, scope, y);
    forall y | EdgeInScope(m, scope, y) ensures y in k && k[y] in m' && Mirrors(m[y], m'[k[y]], names) {
      if y != x {
        assert EdgeInScope(rels, scope, y);
        assert k[y] != x' by { if EdgeInScope(rels, scope, x) { assert ids[y] != ids[x]; } }
      }
    }
    forall y' | y' in m' ensures exists y :: EdgeInScope(m, scope, y) && k[y] == y' {
      if y' == x' {
        assert EdgeInScope(m, scope, x) && k[x] == y';
      } else {
        var y :| EdgeInScope(rels, scope, y) && ids[y] == y';
        assert EdgeInScope(m, scope, y) && k[y] == y';
      }
    }
  }

  // ------------------------------------------------------- other scopes

  /** Two live graphs hold the same beliefs in the scope. */
  ghost predicate ScopeUnchanged(g: Graph, g': Graph, scope: string) {
    && (forall n :: InScope(g.nodes, scope, n) <==> InScope(g'.nodes, scope, n))
    && (forall n :: InScope(g.nodes, scope, n) ==> SameNodeBeliefs(g.nodes[n], g'.nodes[n]))
    && (forall x :: EdgeInScope(g.rels, scope, x) <==> EdgeInScope(g'.rels, scope, x))
    && (forall x :: EdgeInScope(g.rels, scope, x) ==> g'.rels[x] == g.rels[x])
  }

  lemma UnchangedSimulates(g: Graph, g': Graph, scope: string, st: State)
    requires ScopeUnchanged(g, g', scope) && Simulates(g, scope, st)
    ensures Simulates(g', scope, st)
  {
    hide Mirrors;
    forall n' | n' in st.graph.nodes ensures exists n :: InScope(g'.nodes, scope, n) && st.nodes[n] == n' {
      var n :| InScope(g.nodes, scope, n) && st.nodes[n] == n';
      assert InScope(g'.nodes, scope, n);
    }
    forall x' | x' in st.graph.rels ensures exists x :: EdgeInScope(g'.rels, scope, x) && st.rels[x] == x' {
      var x :| EdgeInScope(g.rels, scope, x) && st.rels[x] == x';
      assert EdgeInScope(g'.rels, scope, x);
    }
  }

  /** What `replay` computes: the ledger's events of the scope, in ledger order. */
  ghost function ReplayOf(events: seq<Event>, scope: string): Outcome<State> {
    ApplyAll(BLANK, EventsOf(events, scope))
  }
}
