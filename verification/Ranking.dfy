/** The weighted rerank: scope is one term among several, and when it decides alone. */
module Ranking {
  import opened Ids

  type Unit = x: real | 0.0 <= x <= 1.0

  datatype RawWeights = Weights(relevance: real, confidence: real, recency: real, scope: real, utility: real)

  type Weights = w: RawWeights |
      w.relevance >= 0.0 && w.confidence >= 0.0 && w.recency >= 0.0 && w.scope >= 0.0 && w.utility >= 0.0
    witness Weights(1.0, 0.2, 0.3, 0.4, 0.0)

  /** A candidate as the rerank sees it. */
  datatype Candidate = Candidate(relevance: Unit, confidence: Unit, recency: Unit, utility: Unit, rank: nat,
                                 validFrom: Option<int>, uuid: string)

  function Others(w: Weights): real { w.relevance + w.confidence + w.recency + w.utility }

  function Term(weight: real, signal: real): real { weight * signal }

  function Signals(w: Weights, c: Candidate): real {
    Term(w.relevance, c.relevance) + Term(w.confidence, c.confidence) + Term(w.recency, c.recency) + Term(w.utility, c.utility)
  }

  function ScopePriority(rank: nat, scopes: nat): real {
    if scopes == 0 then 0.0 else (scopes - rank) as real / scopes as real
  }

  function Base(w: Weights, scopes: nat, c: Candidate): real { Signals(w, c) + Term(w.scope, ScopePriority(c.rank, scopes)) }

  function Score(w: Weights, scopes: nat, typeWeight: real, c: Candidate): real { Base(w, scopes, c) * typeWeight }

  predicate Later(a: Option<int>, b: Option<int>) {
    match (a, b)
    case (Some(_), None) => true
    case (Some(x), Some(y)) => x > y
    case _ => false
  }

  /** *a* is listed before *b*: score, then confidence, then validity, then id, all descending. */
  predicate Before(w: Weights, scopes: nat, typeWeight: real, a: Candidate, b: Candidate) {
    var sa, sb := Score(w, scopes, typeWeight, a), Score(w, scopes, typeWeight, b);
    sa > sb || (sa == sb && (a.confidence > b.confidence || (a.confidence == b.confidence &&
      (Later(a.validFrom, b.validFrom) || (a.validFrom == b.validFrom && Less(b.uuid, a.uuid))))))
  }

  /** Every result of an earlier scope is listed before every result of a later one. */
  ghost predicate TiersStrictly(w: Weights, scopes: nat, typeWeight: real) {
    forall a: Candidate, b: Candidate | a.rank < b.rank < scopes :: Before(w, scopes, typeWeight, a, b)
  }

  lemma Scaled(w: real, x: Unit)
    requires w >= 0.0
    ensures 0.0 <= Term(w, x) <= w
  {
    assert w * (1.0 - x) >= 0.0;
  }

  lemma SignalsBounded(w: Weights, c: Candidate)
    ensures 0.0 <= Signals(w, c) <= Others(w)
  {
    hide Term;
    Scaled(w.relevance, c.relevance);
    Scaled(w.confidence, c.confidence);
    Scaled(w.recency, c.recency);
    Scaled(w.utility, c.utility);
  }

  /** The scope term falls by the same step from one rank to the next. */
  lemma PriorityGap(rank: nat, later: nat, scopes: nat)
    requires rank < later < scopes
    ensures ScopePriority(rank, scopes) - ScopePriority(later, scopes) == (later - rank) as real / scopes as real
    ensures (later - rank) as real / scopes as real >= 1.0 / scopes as real
  {
    var n := scopes as real;
    assert (scopes - rank) as real / n - (scopes - later) as real / n == ((scopes - rank) as real - (scopes - later) as real) / n;
    assert (later - rank) as real >= 1.0;
  }

  const BEST := Candidate(1.0, 1.0, 1.0, 1.0, 1, None, "b")
  const WORST := Candidate(0.0, 0.0, 0.0, 0.0, 0, None, "a")

  lemma ScalingKeepsOrder(x: real, y: real, t: real)
    requires t > 0.0 && x > y
    ensures x * t > y * t
  {
    assert (x - y) * t > 0.0;
    assert (x - y) * t == x * t - y * t;
  }

  lemma BaseOutweighs(w: Weights, scopes: nat, a: Candidate, b: Candidate)
    requires a.rank < b.rank < scopes && w.scope > scopes as real * Others(w)
    ensures Base(w, scopes, a) > Base(w, scopes, b)
  {
    hide Signals, Others, ScopePriority, Term;
    SignalsBounded(w, a);
    SignalsBounded(w, b);
    PriorityGap(a.rank, b.rank, scopes);
    var pa, pb := ScopePriority(a.rank, scopes), ScopePriority(b.rank, scopes);
    GapOutweighs(w.scope, scopes as real, Others(w), pa - pb);
    TermDifference(w.scope, pa, pb);
  }

  lemma TermDifference(w: real, x: real, y: real)
    ensures Term(w, x) - Term(w, y) == w * (x - y)
  {
  }

  lemma ScopeOutweighs(w: Weights, scopes: nat, typeWeight: real, a: Candidate, b: Candidate)
    requires typeWeight > 0.0 && a.rank < b.rank < scopes && w.scope > scopes as real * Others(w)
    ensures Score(w, scopes, typeWeight, a) > Score(w, scopes, typeWeight, b)
  {
    hide Base, Others;
    BaseOutweighs(w, scopes, a, b);
    ScalingKeepsOrder(Base(w, scopes, a), Base(w, scopes, b), typeWeight);
  }

  lemma GapOutweighs(scope: real, n: real, others: real, gap: real)
    requires n > 0.0 && scope > n * others && others >= 0.0 && gap >= 1.0 / n
    ensures scope * gap > others
  {
    assert n * others >= 0.0;
    assert scope * (gap - 1.0 / n) >= 0.0;
    assert scope * gap == scope * (1.0 / n) + scope * (gap - 1.0 / n);
    assert scope * (1.0 / n) == scope / n;
    assert scope / n > others by { assert (scope - n * others) / n > 0.0; assert (scope - n * others) / n == scope / n - others; }
  }

  lemma BestScores(w: Weights, scopes: nat, typeWeight: real)
    requires scopes >= 2
    ensures Score(w, scopes, typeWeight, BEST) == (Others(w) + w.scope - w.scope / scopes as real) * typeWeight
    ensures Score(w, scopes, typeWeight, WORST) == w.scope * typeWeight
  {
    var n := scopes as real;
    assert ScopePriority(0, scopes) == n / n == 1.0;
    assert ScopePriority(1, scopes) == (n - 1.0) / n == 1.0 - 1.0 / n;
    assert w.scope * (1.0 - 1.0 / n) == w.scope - w.scope / n;
    assert Signals(w, BEST) == Others(w) && Signals(w, WORST) == 0.0;
  }

  /** Scope tiers strictly exactly when its weight exceeds the number of scopes times
      all the other weights together; at or below that, some later result leads. */
  lemma TieringBoundExact(w: Weights, scopes: nat, typeWeight: real)
    requires scopes >= 2 && typeWeight > 0.0
    ensures TiersStrictly(w, scopes, typeWeight) <==> w.scope > scopes as real * Others(w)
  {
    hide Score, Less;
    if w.scope > scopes as real * Others(w) {
      forall a: Candidate, b: Candidate | a.rank < b.rank < scopes ensures Before(w, scopes, typeWeight, a, b) {
        ScopeOutweighs(w, scopes, typeWeight, a, b);
      }
    } else {
      BestScores(w, scopes, typeWeight);
      BoundMissed(w.scope, scopes as real, Others(w), typeWeight);
      assert !Before(w, scopes, typeWeight, WORST, BEST);
    }
  }

  lemma BoundMissed(scope: real, n: real, others: real, typeWeight: real)
    requires n > 0.0 && typeWeight > 0.0 && scope <= n * others
    ensures (others + scope - scope / n) * typeWeight >= scope * typeWeight
  {
    assert scope / n <= others by { assert (n * others - scope) / n >= 0.0; assert (n * others - scope) / n == others - scope / n; }
    assert (others - scope / n) * typeWeight >= 0.0;
    assert (others + scope - scope / n) * typeWeight == scope * typeWeight + (others - scope / n) * typeWeight;
  }

  /** On equal scores and confidence the later validity comes first, a stated one before none,
      and on equal validity the greater id. */
  lemma TiesBroken(w: Weights, scopes: nat, typeWeight: real, a: Candidate, b: Candidate)
    requires Score(w, scopes, typeWeight, a) == Score(w, scopes, typeWeight, b) && a.confidence == b.confidence
    ensures Before(w, scopes, typeWeight, a, b) <==>
            if a.validFrom == b.validFrom then Less(b.uuid, a.uuid)
            else a.validFrom.Some? && (b.validFrom.None? || a.validFrom.value > b.validFrom.value)
  {
    hide Less, Score;
  }
}
