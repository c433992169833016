/** What a content digest sees of a scope, and what equal digests prove. */
module ContentDigest {
  import opened Ids
  import opened GraphModel
  import opened GraphOps
  import opened Journal
  import opened Replay
  import opened ReplaySteps
  import opened ReplayGuarantee

  datatype FactPayload = FactPayload(kind: FactKind, key: Option<string>, text: string, entryIds: seq<Id>)

  datatype NodePayload = NodePayload(name: string, typ: string, aliases: seq<string>, facts: seq<FactPayload>)

  datatype EdgePayload = EdgePayload(source: NodePayload, typ: string, target: NodePayload, claim: string,
                                     until: Option<string>, entryIds: seq<Id>)

  /** Everything hashed: the scope's payloads, sorted by their own encoding, so
      only how often each occurs is left. */
  datatype Contents = Contents(scope: string, nodes: multiset<NodePayload>, edges: multiset<EdgePayload>)

  function FactsSaid(facts: seq<Fact>): seq<FactPayload> {
    seq(|facts|, i requires 0 <= i < |facts| =>
      FactPayload(facts[i].kind, facts[i].key, facts[i].text, facts[i].entryIds))
  }

  function NodeSaid(n: Node): NodePayload { NodePayload(n.name, n.typ, n.aliases, FactsSaid(n.facts)) }

  /** How often each value occurs in a map. */
  ghost function Tally<T>(m: map<Id, T>): multiset<T>
    decreases |m|
  {
    if m.Keys == {} then multiset{}
    else
      var k := Least(m.Keys);
      Smaller(m, k);
      multiset{m[k]} + Tally(m - {k})
  }

  lemma Smaller<T>(m: map<Id, T>, k: Id)
    requires k in m
    ensures |m - {k}| < |m|
  {
    assert m == (m - {k})[k := m[k]];
  }

  function NodesSaid(g: Graph, scope: string): map<Id, NodePayload> {
    map n | n in g.nodes && g.nodes[n].scope == scope :: NodeSaid(g.nodes[n])
  }

  ghost predicate Dangling(g: Graph, scope: string) {
    exists x :: EdgeInScope(g.rels, scope, x) &&
                !(InScope(g.nodes, scope, g.rels[x].source) && InScope(g.nodes, scope, g.rels[x].target))
  }

  function EdgeSaid(g: Graph, r: Relation): EdgePayload
    requires r.source in g.nodes && r.target in g.nodes
  {
    EdgePayload(NodeSaid(g.nodes[r.source]), r.typ, NodeSaid(g.nodes[r.target]), r.claim, r.until, r.entryIds)
  }

  ghost function EdgesSaid(g: Graph, scope: string): map<Id, EdgePayload>
    requires !Dangling(g, scope)
  {
    map x | x in g.rels && EdgeInScope(g.rels, scope, x) :: EdgeSaid(g, g.rels[x])
  }

  /** The digest before hashing; a dangling edge is refused. */
  ghost function Digest(g: Graph, scope: string): Outcome<Contents> {
    if Dangling(g, scope) then Err(ValueError)
    else Ok(Contents(scope, Tally(NodesSaid(g, scope)), Tally(EdgesSaid(g, scope))))
  }

  lemma SoundEdgesDoNotDangle(g: Graph, scope: string)
    requires WellFormed(g)
    ensures !Dangling(g, scope)
  {
    forall x | EdgeInScope(g.rels, scope, x)
      ensures InScope(g.nodes, scope, g.rels[x].source) && InScope(g.nodes, scope, g.rels[x].target)
    {
      EndpointsInScope(g, scope, x);
    }
  }

  // ------------------------------------------------------------- tallying

  lemma LeastOfRest(ids: set<Id>, k: Id)
    requires k in ids && k != Least(ids)
    ensures ids - {k} != {} && Least(ids - {k}) == Least(ids)
  {
    hide Less;
    var l := Least(ids);
    assert l in ids - {k};
    var l' := Least(ids - {k});
    if l' != l {
      assert Less(l, l') && Less(l', l);
      LessAsymmetric(l, l');
    }
  }

  lemma TallyStep<T>(m: map<Id, T>)
    requires m.Keys != {}
    ensures Least(m.Keys) in m && Tally(m) == multiset{m[Least(m.Keys)]} + Tally(m - {Least(m.Keys)})
  {
    hide Less;
  }

  /** Any entry can be taken out of a tally. */
  lemma {:induction false} TallyRemove<T>(m: map<Id, T>, k: Id)
    requires k in m
    ensures Tally(m) == multiset{m[k]} + Tally(m - {k})
    decreases |m|
  {
    hide Tally, Less;
    var l := Least(m.Keys);
    TallyStep(m);
    if k != l {
      LeastOfRest(m.Keys, k);
      Smaller(m, l);
      TallyRemove(m - {l}, k);
      assert (m - {l}) - {k} == (m - {k}) - {l};
      assert (m - {k}).Keys == m.Keys - {k};
      TallyStep(m - {k});
    }
  }

  lemma {:induction false} TallyHolds<T>(m: map<Id, T>, v: T)
    ensures v in Tally(m) <==> exists k :: k in m && m[k] == v
    decreases |m|
  {
    if m.Keys != {} {
      var l := Least(m.Keys);
      Smaller(m, l);
      TallyHolds(m - {l}, v);
      if v in Tally(m - {l}) { var k :| k in m - {l} && (m - {l})[k] == v; assert k in m && m[k] == v; }
      if k :| k in m && m[k] == v { assert k == l || (k in m - {l} && (m - {l})[k] == v); }
    } else {
      assert forall k :: k in m ==> k in m.Keys;
    }
  }

  /** *names* matches the entries of the two maps one to one, value for value. */
  ghost predicate Matched<T>(m: map<Id, T>, m': map<Id, T>, names: map<Id, Id>) {
    && (forall k :: k in m ==> k in names && names[k] in m' && m'[names[k]] == m[k])
    && (forall a, b :: a in m && b in m && names[a] == names[b] ==> a == b)
    && (forall k' :: k' in m' ==> exists k :: k in m && k in names && names[k] == k')
  }

  lemma {:induction false} MatchedTally<T>(m: map<Id, T>, m': map<Id, T>, names: map<Id, Id>)
    requires Matched(m, m', names)
    ensures Tally(m) == Tally(m')
    decreases |m|
  {
    if m.Keys == {} {
      assert forall k :: k in m ==> k in m.Keys;
      assert m'.Keys == {};
    } else {
      var l := Least(m.Keys);
      var l' := names[l];
      Smaller(m, l);
      forall k' | k' in m' - {l'} ensures exists k :: k in m - {l} && k in names && names[k] == k' {
        var k :| k in m && k in names && names[k] == k';
        assert k in m - {l};
      }
      MatchedTally(m - {l}, m' - {l'}, names);
      TallyRemove(m', l');
    }
  }

  // ------------------------------------------- a faithful replay digests alike

  lemma SimulatedNodesMatch(g: Graph, scope: string, st: State)
    requires Simulates(g, scope, st)
    ensures Matched(NodesSaid(g, scope), NodesSaid(st.graph, scope), st.nodes)
  {
    var m, m' := NodesSaid(g, scope), NodesSaid(st.graph, scope);
    assert forall n :: n in m <==> InScope(g.nodes, scope, n);
    forall k' | k' in m' ensures exists k :: k in m && k in st.nodes && st.nodes[k] == k' {
      var k :| InScope(g.nodes, scope, k) && st.nodes[k] == k';
      assert k in m;
    }
  }

  lemma SimulatedEdgesMatch(g: Graph, scope: string, st: State)
    requires WellFormed(g) && WellFormed(st.graph) && Simulates(g, scope, st)
    ensures !Dangling(g, scope) && !Dangling(st.graph, scope)
    ensures Matched(EdgesSaid(g, scope), EdgesSaid(st.graph, scope), st.rels)
  {
    hide WellFormed, NodeSim, FactsSaid, SameNodeBeliefs, Dangling;
    SoundEdgesDoNotDangle(g, scope);
    SoundEdgesDoNotDangle(st.graph, scope);
    var m, m' := EdgesSaid(g, scope), EdgesSaid(st.graph, scope);
    assert forall x :: x in m <==> EdgeInScope(g.rels, scope, x);
    forall x | x in m ensures x in st.rels && st.rels[x] in m' && m'[st.rels[x]] == m[x] {
      EndpointsInScope(g, scope, x);
      TwinSaysSame(g, scope, st, g.rels[x].source);
      TwinSaysSame(g, scope, st, g.rels[x].target);
    }
    forall x' | x' in m' ensures exists x :: x in m && x in st.rels && st.rels[x] == x' {
      var x :| EdgeInScope(g.rels, scope, x) && st.rels[x] == x';
      assert x in m;
    }
  }

  lemma TwinSaysSame(g: Graph, scope: string, st: State, n: Id)
    requires Simulates(g, scope, st) && InScope(g.nodes, scope, n)
    ensures n in st.nodes && st.nodes[n] in st.graph.nodes && NodeSaid(st.graph.nodes[st.nodes[n]]) == NodeSaid(g.nodes[n])
  {
    TwinOf(g, scope, st, n);
  }

  /** A replay in step with the live scope has the live scope's digest. */
  lemma SimulationDigestsAlike(g: Graph, scope: string, st: State)
    requires WellFormed(g) && WellFormed(st.graph) && Simulates(g, scope, st)
    ensures Digest(g, scope).Ok? && Digest(st.graph, scope) == Digest(g, scope)
  {
    hide WellFormed, Simulates, NodesSaid, EdgesSaid, Dangling, Matched, Tally;
    SimulatedNodesMatch(g, scope, st);
    SimulatedEdgesMatch(g, scope, st);
    MatchedTally(NodesSaid(g, scope), NodesSaid(st.graph, scope), st.nodes);
    MatchedTally(EdgesSaid(g, scope), EdgesSaid(st.graph, scope), st.rels);
  }

  /** What a digest tells apart: two nodes read alike exactly when they have the same name,
      type and aliases, and line for line the same kind, key, text and evidence; two edges,
      when they also have the same type, claim, marker and evidence between nodes that do. */
  lemma DigestReads(a: Node, b: Node)
    ensures NodeSaid(a) == NodeSaid(b) <==>
            && a.name == b.name && a.typ == b.typ && a.aliases == b.aliases && |a.facts| == |b.facts|
            && forall i :: 0 <= i < |a.facts| ==>
                 && a.facts[i].kind == b.facts[i].kind && a.facts[i].key == b.facts[i].key
                 && a.facts[i].text == b.facts[i].text && a.facts[i].entryIds == b.facts[i].entryIds
  {
    var x, y := FactsSaid(a.facts), FactsSaid(b.facts);
    assert |x| == |a.facts| && |y| == |b.facts|;
    if |x| == |y| {
      assert x == y <==> forall i :: 0 <= i < |x| ==> x[i] == y[i];
      assert forall i :: 0 <= i < |x| ==>
        (x[i] == y[i] <==>
         a.facts[i].kind == b.facts[i].kind && a.facts[i].key == b.facts[i].key
         && a.facts[i].text == b.facts[i].text && a.facts[i].entryIds == b.facts[i].entryIds);
    }
  }

  lemma DigestReadsEdges(g: Graph, r: Relation, s: Relation)
    requires EndsThere(g, r) && EndsThere(g, s)
    ensures EdgeSaid(g, r) == EdgeSaid(g, s) <==>
            && r.typ == s.typ && r.claim == s.claim && r.until == s.until && r.entryIds == s.entryIds
            && NodeSaid(g.nodes[r.source]) == NodeSaid(g.nodes[s.source])
            && NodeSaid(g.nodes[r.target]) == NodeSaid(g.nodes[s.target])
  {
    hide NodeSaid;
  }

  lemma TallyAdds<T>(m: map<Id, T>, k: Id, v: T)
    requires k in m ==> m[k] != v
    ensures Tally(m[k := v]) != Tally(m)
  {
    hide Tally;
    var changed := m[k := v];
    TallyRemove(changed, k);
    if k in m {
      TallyRemove(m, k);
      assert changed - {k} == m - {k};
      assert Tally(changed)[v] == Tally(m)[v] + 1;
    } else {
      assert changed - {k} == m;
      assert Tally(changed)[v] == Tally(m)[v] + 1;
    }
  }

  lemma TallyDrops<T>(m: map<Id, T>, k: Id)
    requires k in m
    ensures Tally(m - {k}) != Tally(m)
  {
    hide Tally;
    TallyRemove(m, k);
    assert Tally(m)[m[k]] == Tally(m - {k})[m[k]] + 1;
  }

  /** A node written behind the journal's back, new or saying something else, shows in
      the digest. */
  lemma BypassedRewriteShows(g: Graph, scope: string, st: State, id: Id, n: Node)
    requires WellFormed(g) && WellFormed(st.graph) && Simulates(g, scope, st) && n.scope == scope
    requires id in g.nodes ==> g.nodes[id].scope == scope && NodeSaid(n) != NodeSaid(g.nodes[id])
    ensures Digest(g.(nodes := g.nodes[id := n]), scope) != Digest(st.graph, scope)
  {
    hide WellFormed, Simulates, EdgesSaid, Dangling, Tally, NodeSaid;
    SimulationDigestsAlike(g, scope, st);
    var m := NodesSaid(g, scope);
    assert NodesSaid(g.(nodes := g.nodes[id := n]), scope) == m[id := NodeSaid(n)];
    TallyAdds(m, id, NodeSaid(n));
  }

  /** So does a node deleted behind its back. */
  lemma BypassedDeleteShows(g: Graph, scope: string, st: State, id: Id)
    requires WellFormed(g) && WellFormed(st.graph) && Simulates(g, scope, st) && InScope(g.nodes, scope, id)
    ensures Digest(DeleteNodes(g, [id]), scope) != Digest(st.graph, scope)
  {
    hide WellFormed, Simulates, EdgesSaid, Dangling, Tally, NodeSaid, DropTouching;
    SimulationDigestsAlike(g, scope, st);
    var m := NodesSaid(g, scope);
    assert [id][0] == id;
    assert NodesSaid(DeleteNodes(g, [id]), scope) == m - {id};
    TallyDrops(m, id);
  }

  /** And an edge written behind its back, new or saying something else, or retired. */
  lemma BypassedEdgeShows(g: Graph, scope: string, st: State, x: Id, r: Relation)
    requires WellFormed(g) && WellFormed(st.graph) && Simulates(g, scope, st)
    requires r.scope == scope && InScope(g.nodes, scope, r.source) && InScope(g.nodes, scope, r.target)
    requires x in g.rels ==> EdgeInScope(g.rels, scope, x) && EndsThere(g, g.rels[x]) && EdgeSaid(g, r) != EdgeSaid(g, g.rels[x])
    ensures Digest(g.(rels := g.rels[x := r]), scope) != Digest(st.graph, scope)
  {
    hide WellFormed, Simulates, NodesSaid, Tally, NodeSaid;
    SimulationDigestsAlike(g, scope, st);
    SoundEdgesDoNotDangle(g, scope);
    var g' := g.(rels := g.rels[x := r]);
    assert !Dangling(g', scope) by {
      forall y | EdgeInScope(g'.rels, scope, y)
        ensures InScope(g'.nodes, scope, g'.rels[y].source) && InScope(g'.nodes, scope, g'.rels[y].target)
      {
        assert y != x ==> EdgeInScope(g.rels, scope, y);
      }
    }
    assert EdgesSaid(g', scope) == EdgesSaid(g, scope)[x := EdgeSaid(g, r)];
    TallyAdds(EdgesSaid(g, scope), x, EdgeSaid(g, r));
  }

  predicate EndsThere(g: Graph, r: Relation) { r.source in g.nodes && r.target in g.nodes }

  lemma BypassedRetireShows(g: Graph, scope: string, st: State, x: Id)
    requires WellFormed(g) && WellFormed(st.graph) && Simulates(g, scope, st) && EdgeInScope(g.rels, scope, x)
    ensures Digest(RetireRelation(g, x).graph, scope) != Digest(st.graph, scope)
  {
    hide WellFormed, Simulates, NodesSaid, Tally, NodeSaid;
    SimulationDigestsAlike(g, scope, st);
    SoundEdgesDoNotDangle(g, scope);
    var g' := RetireRelation(g, x).graph;
    assert !Dangling(g', scope) by {
      forall y | EdgeInScope(g'.rels, scope, y)
        ensures InScope(g'.nodes, scope, g'.rels[y].source) && InScope(g'.nodes, scope, g'.rels[y].target)
      {
        assert EdgeInScope(g.rels, scope, y);
      }
    }
    assert EdgesSaid(g', scope) == EdgesSaid(g, scope) - {x};
    TallyDrops(EdgesSaid(g, scope), x);
  }

  // ------------------------------------------------ what equal digests prove

  ghost predicate TellsApart(g: Graph, scope: string) {
    forall a, b | InScope(g.nodes, scope, a) && InScope(g.nodes, scope, b) ::
      NodeSaid(g.nodes[a]) == NodeSaid(g.nodes[b]) ==> a == b
  }

  /** An edge of *g* from *a* to *b* saying what *e* says. */
  ghost predicate Says(g: Graph, scope: string, a: Id, b: Id, e: EdgePayload) {
    exists x :: EdgeInScope(g.rels, scope, x) && g.rels[x].source == a && g.rels[x].target == b
                && a in g.nodes && b in g.nodes && EdgeSaid(g, g.rels[x]) == e
  }

  /** The two scopes are one graph up to the names of its nodes. */
  ghost predicate SameUpToNames(g: Graph, g': Graph, scope: string, names: map<Id, Id>) {
    && Matched(NodesSaid(g, scope), NodesSaid(g', scope), names)
    && forall a, b, e :: InScope(g.nodes, scope, a) && InScope(g.nodes, scope, b) && a in names && b in names ==>
         (Says(g, scope, a, b, e) <==> Says(g', scope, names[a], names[b], e))
  }

  lemma {:induction false} OnceEach<T>(m: map<Id, T>, v: T)
    ensures Tally(m)[v] <= 1 <==> forall a, b :: a in m && b in m && m[a] == v && m[b] == v ==> a == b
  {
    hide Tally;
    if a :| a in m && m[a] == v {
      TallyRemove(m, a);
      TallyHolds(m - {a}, v);
      if v in Tally(m - {a}) {
        var b :| b in m - {a} && (m - {a})[b] == v;
        assert b in m && m[b] == v && b != a;
      } else {
        forall b | b in m && m[b] == v ensures b == a {
          assert b != a ==> b in m - {a};
        }
      }
    } else {
      TallyHolds(m, v);
    }
  }

  ghost predicate AllDifferent<T>(m: map<Id, T>) { forall a, b :: a in m && b in m && m[a] == m[b] ==> a == b }

  lemma TellsApartIs(g: Graph, scope: string)
    ensures TellsApart(g, scope) <==> AllDifferent(NodesSaid(g, scope))
  {
    hide NodeSaid;
    var m := NodesSaid(g, scope);
    assert forall n :: n in m <==> InScope(g.nodes, scope, n);
  }

  lemma SameTallySameValues<T>(m: map<Id, T>, m': map<Id, T>, k: Id)
    requires Tally(m) == Tally(m') && k in m
    ensures exists k' :: k' in m' && m'[k'] == m[k]
  {
    hide Tally;
    TallyHolds(m, m[k]);
    TallyHolds(m', m[k]);
  }

  /** Two maps with one tally match entry by entry when the values are all different. */
  lemma SameTallyMatches<T>(m: map<Id, T>, m': map<Id, T>) returns (names: map<Id, Id>)
    requires AllDifferent(m) && Tally(m) == Tally(m')
    ensures Matched(m, m', names) && AllDifferent(m')
  {
    hide Tally;
    forall k | k in m ensures exists k' :: k' in m' && m'[k'] == m[k] { SameTallySameValues(m, m', k); }
    forall a, b | a in m' && b in m' && m'[a] == m'[b] ensures a == b {
      OnceEach(m, m'[a]);
      OnceEach(m', m'[a]);
    }
    names := map k | k in m :: CounterpartOf(m, m', k);
    forall k' | k' in m' ensures exists k :: k in m && k in names && names[k] == k' {
      SameTallySameValues(m', m, k');
      var k :| k in m && m[k] == m'[k'];
      assert names[k] == k';
    }
  }

  ghost function CounterpartOf<T>(m: map<Id, T>, m': map<Id, T>, k: Id): (k': Id)
    requires k in m && exists k' :: k' in m' && m'[k'] == m[k]
    ensures k' in m' && m'[k'] == m[k]
  {
    var k' :| k' in m' && m'[k'] == m[k];
    k'
  }

  lemma EdgeCarriedOver(g: Graph, g': Graph, scope: string, names: map<Id, Id>, a: Id, b: Id, e: EdgePayload)
    requires WellFormed(g) && WellFormed(g') && Says(g, scope, a, b, e)
    requires Matched(NodesSaid(g, scope), NodesSaid(g', scope), names) && TellsApart(g', scope)
    requires !Dangling(g, scope) && !Dangling(g', scope) && Tally(EdgesSaid(g, scope)) == Tally(EdgesSaid(g', scope))
    ensures a in names && b in names && Says(g', scope, names[a], names[b], e)
  {
    hide WellFormed, Tally, NodeSaid, Dangling;
    var x :| EdgeInScope(g.rels, scope, x) && g.rels[x].source == a && g.rels[x].target == b && EdgeSaid(g, g.rels[x]) == e;
    EndpointsInScope(g, scope, x);
    assert a in NodesSaid(g, scope) && b in NodesSaid(g, scope);
    assert x in EdgesSaid(g, scope) && EdgesSaid(g, scope)[x] == e;
    TallyHolds(EdgesSaid(g, scope), e);
    TallyHolds(EdgesSaid(g', scope), e);
    var x' :| x' in EdgesSaid(g', scope) && EdgesSaid(g', scope)[x'] == e;
    EndpointsInScope(g', scope, x');
    assert InScope(g'.nodes, scope, names[a]) && InScope(g'.nodes, scope, names[b]);
  }

  lemma MatchedBack<T>(m: map<Id, T>, m': map<Id, T>, names: map<Id, Id>) returns (back: map<Id, Id>)
    requires Matched(m, m', names)
    ensures Matched(m', m, back) && forall k :: k in m ==> names[k] in back && back[names[k]] == k
  {
    back := map k' | k' in m' :: PreimageOf(m, m', names, k');
    forall k | k in m ensures exists k' :: k' in m' && k' in back && back[k'] == k {
      assert names[k] in m' && back[names[k]] == k;
    }
  }

  ghost function PreimageOf<T>(m: map<Id, T>, m': map<Id, T>, names: map<Id, Id>, k': Id): (k: Id)
    requires Matched(m, m', names) && k' in m'
    ensures k in m && names[k] == k'
  {
    var k :| k in m && k in names && names[k] == k';
    k
  }

  /** Where no two nodes of the scope assert the same, equal digests prove the two
      scopes are one graph up to the names of its nodes. */
  lemma DigestDetermines(g: Graph, g': Graph, scope: string)
    requires WellFormed(g) && WellFormed(g') && TellsApart(g, scope) && Digest(g, scope) == Digest(g', scope)
    ensures exists names :: SameUpToNames(g, g', scope, names)
  {
    hide WellFormed, Tally, NodeSaid, NodesSaid, EdgesSaid, Dangling, Says, Matched, TellsApart, EdgeSaid, AllDifferent;
    SoundEdgesDoNotDangle(g, scope);
    SoundEdgesDoNotDangle(g', scope);
    TellsApartIs(g, scope);
    TellsApartIs(g', scope);
    var names := SameTallyMatches(NodesSaid(g, scope), NodesSaid(g', scope));
    var back := MatchedBack(NodesSaid(g, scope), NodesSaid(g', scope), names);
    forall a, b, e | InScope(g.nodes, scope, a) && InScope(g.nodes, scope, b) && a in names && b in names
      ensures Says(g, scope, a, b, e) <==> Says(g', scope, names[a], names[b], e)
    {
      if Says(g, scope, a, b, e) { EdgeCarriedOver(g, g', scope, names, a, b, e); }
      if Says(g', scope, names[a], names[b], e) {
        EdgeCarriedOver(g', g, scope, back, names[a], names[b], e);
        KnownThere(g, scope, a);
        KnownThere(g, scope, b);
      }
    }
    assert SameUpToNames(g, g', scope, names);
  }

  lemma KnownThere(g: Graph, scope: string, a: Id)
    ensures InScope(g.nodes, scope, a) <==> a in NodesSaid(g, scope)
  {
  }

  /** `prove` reports equality for every scope of a run that keeps the promises. */
  lemma ProofReportsEqual(calls: seq<Call>, scope: string)
    requires ClockForward(calls) && AllPromised(calls, scope)
    ensures ReplayOf(Run(calls).events, scope).Ok?
    ensures var live := Digest(Run(calls).graph, scope);
            live.Ok? && Digest(ReplayOf(Run(calls).events, scope).value.graph, scope) == live
  {
    hide WellFormed, Simulates, Digest, Run, ReplayOf, AllPromised;
    ReplayGuaranteed(calls, scope);
    SimulationDigestsAlike(Run(calls).graph, scope, ReplayOf(Run(calls).events, scope).value);
  }

  // -------------------------------------- where the digest cannot tell apart

  /** Nodes *a* and *b* assert the same; both edges hang off *a* in the one graph,
      one off each in the other. */
  ghost predicate TwinGraphs(g: Graph, g': Graph, scope: string, a: Id, b: Id, h: Id, x: Id, y: Id) {
    && x != y && a != b && g'.nodes == g.nodes
    && InScope(g.nodes, scope, a) && InScope(g.nodes, scope, b) && InScope(g.nodes, scope, h)
    && NodeSaid(g.nodes[a]) == NodeSaid(g.nodes[b])
    && g.rels.Keys == {x, y} && g'.rels.Keys == {x, y} && g'.rels[x] == g.rels[x] && g'.rels[y] == g.rels[y].(source := b)
    && g.rels[x].scope == scope && g.rels[y].scope == scope && g.rels[x].typ != g.rels[y].typ
    && g.rels[x].source == a && g.rels[y].source == a && g.rels[x].target == h && g.rels[y].target == h
  }

  /** Twin graphs digest alike, and no renaming of nodes makes them one graph. */
  lemma TwinsHideStructure(g: Graph, g': Graph, scope: string, a: Id, b: Id, h: Id, x: Id, y: Id)
    requires TwinGraphs(g, g', scope, a, b, h, x, y)
    ensures Digest(g, scope) == Digest(g', scope) && Digest(g, scope).Ok?
    ensures forall names :: !SameUpToNames(g, g', scope, names)
  {
    hide Tally, NodeSaid, Matched;
    assert NodesSaid(g, scope) == NodesSaid(g', scope);
    assert EdgesSaid(g, scope) == EdgesSaid(g', scope);
    var e, e' := EdgeSaid(g, g.rels[x]), EdgeSaid(g, g.rels[y]);
    assert EdgeInScope(g.rels, scope, x) && EdgeInScope(g.rels, scope, y);
    assert Says(g, scope, a, h, e) && Says(g, scope, a, h, e');
    forall names ensures !SameUpToNames(g, g', scope, names) {
      if Matched(NodesSaid(g, scope), NodesSaid(g', scope), names) {
        MatchedKnows(NodesSaid(g, scope), NodesSaid(g', scope), names, a);
        MatchedKnows(NodesSaid(g, scope), NodesSaid(g', scope), names, h);
        NeverBoth(g, g', scope, a, b, h, x, y, names[a], names[h]);
      }
    }
  }

  lemma MatchedKnows<T>(m: map<Id, T>, m': map<Id, T>, names: map<Id, Id>, k: Id)
    requires Matched(m, m', names) && k in m
    ensures k in names
  {
  }

  lemma NeverBoth(g: Graph, g': Graph, scope: string, a: Id, b: Id, h: Id, x: Id, y: Id, c: Id, d: Id)
    requires TwinGraphs(g, g', scope, a, b, h, x, y)
    ensures !(Says(g', scope, c, d, EdgeSaid(g, g.rels[x])) && Says(g', scope, c, d, EdgeSaid(g, g.rels[y])))
  {
    hide NodeSaid;
  }

  const TWIN := Node("s", "a", [], "T", [], [1.0], true, 0, 0, 0, None)

  function TwinEdge(source: Id, typ: string): Relation { Relation("s", source, NodeId(3), typ, "c", ["e"], None, 0, 0) }

  function TwinGraph(second: Id): Graph {
    Graph(map[NodeId(1) := TWIN, NodeId(2) := TWIN, NodeId(3) := TWIN.(name := "h")],
          map[RelationId(1) := TwinEdge(NodeId(1), "AA"), RelationId(2) := TwinEdge(second, "BB")], 3, 2)
  }

  /** Such graphs exist: two nodes called "a", told apart by nothing but their edges. */
  lemma TwinGraphsExist()
    ensures TwinGraphs(TwinGraph(NodeId(1)), TwinGraph(NodeId(2)), "s", NodeId(1), NodeId(2), NodeId(3),
                       RelationId(1), RelationId(2))
  {
    hide NodeId, RelationId, Num, NodeSaid;
    NumOfRendered(1);
    NumOfRendered(2);
    NumOfRendered(3);
  }
}
