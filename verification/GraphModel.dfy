/** The records of the concept graph, and what makes a graph well formed. */
module GraphModel {
  import opened Ids
  import opened Surfaces

  datatype Error = BudgetExceeded | NodeNotFound | ValueError | ValidationError | KeyError | JournalGap

  datatype Outcome<+T> = Ok(value: T) | Err(error: Error)

  // ------------------------------------------------------------- records

  datatype FactKind = Rule | Is | Attribute | Unsure | Superseded

  datatype Fact = Fact(kind: FactKind, key: Option<string>, text: string, entryIds: seq<Id>,
                       firstSeen: int, lastSeen: int)

  datatype Node = Node(scope: string, name: string, aliases: seq<string>, typ: string, facts: seq<Fact>,
                       embedding: seq<real>, dirty: bool, readCount: nat,
                       createdAt: int, touchedAt: int, dreamedAt: Option<int>)

  datatype Relation = Relation(scope: string, source: Id, target: Id, typ: string, claim: string,
                               entryIds: seq<Id>, until: Option<string>, firstSeen: int, lastSeen: int)

  /** An edge's identity: what an upsert reinforces on. */
  datatype Triple = Triple(scope: string, source: Id, typ: string, target: Id)

  function TripleOf(r: Relation): Triple { Triple(r.scope, r.source, r.typ, r.target) }

  /** Nodes and relations by id, and the two minting counters. */
  datatype Graph = Graph(nodes: map<Id, Node>, rels: map<Id, Relation>, sequence: nat, relSequence: nat)

  const EMPTY := Graph(map[], map[], 0, 0)

  // ---------------------------------------------------------- validation

  /** Square of a vector's length. */
  function SquaredNorm(v: seq<real>): real {
    if v == [] then 0.0 else v[0] * v[0] + SquaredNorm(v[1..])
  }

  const NORM_TOLERANCE: real := 0.001

  predicate UnitNorm(v: seq<real>) {
    (1.0 - NORM_TOLERANCE) * (1.0 - NORM_TOLERANCE) <= SquaredNorm(v)
      <= (1.0 + NORM_TOLERANCE) * (1.0 + NORM_TOLERANCE)
  }

  predicate Upper(c: char) { 'A' <= c <= 'Z' }

  /** UPPER_SNAKE, 2 to 32 characters. */
  predicate EdgeTypeOk(t: string) {
    2 <= |t| <= 32 && Upper(t[0]) &&
    forall i :: 1 <= i < |t| ==> Upper(t[i]) || '0' <= t[i] <= '9' || t[i] == '_'
  }

  predicate OneLine(s: string) {
    '\n' !in s && (s != "" ==> !Space(s[0]) && !Space(s[|s| - 1]))
  }

  /** What constructing a relation record checks about the statement it carries. */
  predicate StatementOk(typ: string, claim: string, entryIds: seq<Id>, until: Option<string>) {
    && EdgeTypeOk(typ)
    && 1 <= |claim| <= 400 && OneLine(claim)
    && entryIds != [] && NoRepeats(entryIds) && (forall e :: e in entryIds ==> !Blank(e))
    && (until.Some? ==> 1 <= |until.value| <= 40)
  }

  predicate NodeOk(scope: string, name: string, typ: string) {
    scope != "" && 1 <= |name| <= 40 && 1 <= |typ| <= 24
  }

  // ------------------------------------------------------- well-formedness

  ghost predicate UniqueTriples(rels: map<Id, Relation>) {
    forall x, y :: x in rels && y in rels && TripleOf(rels[x]) == TripleOf(rels[y]) ==> x == y
  }

  predicate MintedNode(id: Id, bound: nat) { 1 <= Num(id) <= bound && id == NodeId(Num(id)) }

  predicate MintedRelation(id: Id, bound: nat) { 1 <= Num(id) <= bound && id == RelationId(Num(id)) }

  predicate EdgeOk(g: Graph, r: Relation) {
    && r.source in g.nodes && r.target in g.nodes && r.source != r.target
    && g.nodes[r.source].scope == r.scope && g.nodes[r.target].scope == r.scope
  }

  predicate NodeSound(n: Node) {
    n.scope != "" && Canonical(n.name, n.aliases) == n.aliases && !AnyBlank(n.aliases)
  }

  ghost predicate NodesSound(nodes: map<Id, Node>) {
    forall n :: n in nodes ==> NodeSound(nodes[n])
  }

  ghost predicate EdgesSound(g: Graph) {
    forall x :: x in g.rels ==> EdgeOk(g, g.rels[x]) && EdgeTypeOk(g.rels[x].typ)
  }

  ghost predicate IdsMinted(g: Graph) {
    && (forall n :: n in g.nodes ==> MintedNode(n, g.sequence))
    && (forall x :: x in g.rels ==> MintedRelation(x, g.relSequence))
  }

  /** Endpoints live and in the edge's scope, no self-loop, one edge per triple,
      canonical aliases, and every id minted by this store. */
  ghost predicate WellFormed(g: Graph) {
    UniqueTriples(g.rels) && EdgesSound(g) && IdsMinted(g) && NodesSound(g.nodes)
  }

  lemma MintedMonotone(id: Id, low: nat, high: nat)
    requires low <= high
    ensures MintedNode(id, low) ==> MintedNode(id, high)
    ensures MintedRelation(id, low) ==> MintedRelation(id, high)
  {
  }

  ghost function Matches(rels: map<Id, Relation>, t: Triple): set<Id> {
    set x | x in rels && TripleOf(rels[x]) == t
  }

  /** The stored relation with this identity; the lowest id on a tie. */
  ghost function ByTriple(rels: map<Id, Relation>, t: Triple): Option<Id> {
    if Matches(rels, t) == {} then None else Some(Least(Matches(rels, t)))
  }

  lemma ByTripleUnique(rels: map<Id, Relation>, t: Triple)
    requires UniqueTriples(rels)
    ensures forall x :: x in rels && TripleOf(rels[x]) == t ==> ByTriple(rels, t) == Some(x)
    ensures ByTriple(rels, t).Some? ==> ByTriple(rels, t).value in rels && TripleOf(rels[ByTriple(rels, t).value]) == t
    ensures ByTriple(rels, t).None? ==> forall x :: x in rels ==> TripleOf(rels[x]) != t
  {
    forall x | x in rels && TripleOf(rels[x]) == t ensures ByTriple(rels, t) == Some(x) {
      assert x in Matches(rels, t);
    }
    forall x | x in rels && ByTriple(rels, t).None? ensures TripleOf(rels[x]) != t {
      assert x in Matches(rels, t) <==> TripleOf(rels[x]) == t;
    }
  }
}
