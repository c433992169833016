/** How a fact's confidence moves: evidence accumulates, disputes discount. */
module Confidence {

  /** Validated bounds: 0 < gain <= 1, 0 <= discount <= 1, 0 <= floor < ceiling <= 1. */
  datatype RawPolicy = Policy(gain: real, discount: real, floor: real, ceiling: real)

  type Policy = p: RawPolicy | 0.0 < p.gain <= 1.0 && 0.0 <= p.discount <= 1.0 && 0.0 <= p.floor < p.ceiling <= 1.0
    witness Policy(0.25, 0.25, 0.05, 0.99)

  type Unit = x: real | 0.0 <= x <= 1.0

  function Least(a: real, b: real): real { if a <= b then a else b }
  function Greatest(a: real, b: real): real { if a <= b then b else a }

  function Of(share: real, whole: real): real { share * whole }

  lemma OfUnit(a: real, b: real)
    requires 0.0 <= a <= 1.0 && 0.0 <= b
    ensures 0.0 <= Of(a, b) <= b
  {
    NotNegative(a, b);
    NotNegative(1.0 - a, b);
    assert (1.0 - a) * b == b - a * b;
  }

  lemma NotNegative(a: real, b: real)
    requires 0.0 <= a && 0.0 <= b
    ensures 0.0 <= a * b
  {
    if a == 0.0 {
      assert a * b == 0.0;
    } else if b == 0.0 {
      assert a * b == 0.0;
    } else {
      assert a > 0.0 && b > 0.0;
    }
  }

  lemma OfTwice(a: real, b: real, c: real)
    ensures Of(a, Of(b, c)) == Of(Of(a, b), c) && Of(a, b) == Of(b, a) && Of(1.0, a) == a
  {
  }

  /** Evidence before the ceiling applies. */
  function Uncapped(p: Policy, c: real, observed: Unit): real { c + (1.0 - c) * p.gain * observed }

  /** One corroborating observation; a held row is frozen. */
  function Reinforced(p: Policy, c: real, observed: Unit, held: bool): real {
    if held then c else Least(p.ceiling, Uncapped(p, c, observed))
  }

  function Discounted(p: Policy, c: real, challenger: Unit): real { c * (1.0 - p.discount * challenger) }

  /** One parked challenger. */
  function Disputed(p: Policy, c: real, challenger: Unit, held: bool): real {
    if held then c else Greatest(p.floor, Discounted(p, c, challenger))
  }

  function ReinforcedBy(p: Policy, c: real, observations: seq<Unit>): real
    decreases |observations|
  {
    if observations == [] then c else ReinforcedBy(p, Reinforced(p, c, observations[0], false), observations[1..])
  }

  /** What one observation leaves of the gap to certainty. */
  function Left(p: Policy, observed: Unit): real { 1.0 - p.gain * observed }

  /** The headroom the observations leave, as a fraction. */
  function Headroom(p: Policy, observations: seq<Unit>): real {
    if observations == [] then 1.0 else Of(Left(p, observations[0]), Headroom(p, observations[1..]))
  }

  lemma LeftUnit(p: Policy, observed: Unit)
    ensures 0.0 <= Left(p, observed) <= 1.0
  {
    OfUnit(p.gain, observed);
  }

  lemma {:induction false} HeadroomIsUnit(p: Policy, observations: seq<Unit>)
    ensures 0.0 <= Headroom(p, observations) <= 1.0
  {
    hide Of, Left;
    if observations != [] {
      HeadroomIsUnit(p, observations[1..]);
      LeftUnit(p, observations[0]);
      OfUnit(Left(p, observations[0]), Headroom(p, observations[1..]));
    }
  }

  /** One observation takes the gap to certainty down by its share. */
  lemma GapShrinks(p: Policy, c: real, observed: Unit)
    ensures 1.0 - Uncapped(p, c, observed) == Of(Left(p, observed), 1.0 - c)
  {
    assert (1.0 - c) * p.gain * observed == (1.0 - c) * (p.gain * observed);
  }

  function Closed(p: Policy, c: real, observations: seq<Unit>): real {
    Least(p.ceiling, 1.0 - Of(Headroom(p, observations), 1.0 - c))
  }

  lemma ClosedStep(p: Policy, c: real, observations: seq<Unit>)
    requires observations != [] && c <= 1.0
    ensures Reinforced(p, c, observations[0], false) <= 1.0
    ensures Closed(p, Reinforced(p, c, observations[0], false), observations[1..]) == Closed(p, c, observations)
  {
    hide Of, Left, Uncapped;
    var left, rest := Left(p, observations[0]), Headroom(p, observations[1..]);
    var next := Uncapped(p, c, observations[0]);
    GapShrinks(p, c, observations[0]);
    HeadroomIsUnit(p, observations[1..]);
    LeftUnit(p, observations[0]);
    OfUnit(left, 1.0 - c);
    assert Of(rest, 1.0 - next) == Of(Headroom(p, observations), 1.0 - c) by {
      OfTwice(rest, left, 1.0 - c);
      OfTwice(left, rest, 1.0 - c);
      OfTwice(rest, left, 0.0);
    }
    if next > p.ceiling {
      OfUnit(rest, 1.0 - p.ceiling);
      OfUnit(rest, 1.0 - next);
    }
  }

  /** Accumulation has a closed form, exactly when the row starts below the ceiling
      or is observed at all. */
  lemma {:induction false} AccumulationIsClosed(p: Policy, c: real, observations: seq<Unit>)
    requires c <= 1.0
    ensures ReinforcedBy(p, c, observations) == Closed(p, c, observations) <==> c <= p.ceiling || observations != []
    decreases |observations|
  {
    hide Of, Uncapped, Left;
    if observations == [] {
      OfTwice(1.0 - c, 1.0, 1.0);
    } else {
      var next := Reinforced(p, c, observations[0], false);
      ClosedStep(p, c, observations);
      AccumulationIsClosed(p, next, observations[1..]);
    }
  }

  lemma {:induction false} HeadroomAppend(p: Policy, a: seq<Unit>, b: seq<Unit>)
    ensures Headroom(p, a + b) == Of(Headroom(p, a), Headroom(p, b))
  {
    hide Of, Left;
    if a == [] {
      assert a + b == b;
      OfTwice(Headroom(p, b), 1.0, 1.0);
    } else {
      assert (a + b)[1..] == a[1..] + b;
      HeadroomAppend(p, a[1..], b);
      OfTwice(Left(p, a[0]), Headroom(p, a[1..]), Headroom(p, b));
    }
  }

  lemma TailPermutes<T>(a: seq<T>, b: seq<T>, k: nat)
    requires multiset(a) == multiset(b) && a != [] && k < |b| && b[k] == a[0]
    ensures multiset(a[1..]) == multiset(b[..k] + b[k + 1..])
  {
    assert a == [a[0]] + a[1..];
    assert b == b[..k] + [b[k]] + b[k + 1..];
    assert multiset(b) == multiset(b[..k]) + multiset{b[k]} + multiset(b[k + 1..]);
    assert multiset(a[1..]) == multiset(a) - multiset{a[0]};
  }

  lemma {:induction false} HeadroomPermutes(p: Policy, a: seq<Unit>, b: seq<Unit>)
    requires multiset(a) == multiset(b)
    ensures Headroom(p, a) == Headroom(p, b)
    decreases |a|
  {
    hide Of, Left;
    if a == [] {
      assert |multiset(b)| == |b| == 0;
    } else {
      assert a[0] in multiset(b);
      var k :| 0 <= k < |b| && b[k] == a[0];
      TailPermutes(a, b, k);
      HeadroomPermutes(p, a[1..], b[..k] + b[k + 1..]);
      HeadroomAppend(p, b[..k], b[k + 1..]);
      assert b == b[..k] + b[k..];
      HeadroomAppend(p, b[..k], b[k..]);
      assert b[k..][0] == b[k] && b[k..][1..] == b[k + 1..];
      var x, h, t := Left(p, a[0]), Headroom(p, b[..k]), Headroom(p, b[k + 1..]);
      OfTwice(x, h, t);
      OfTwice(h, x, t);
    }
  }

  /** The order in which evidence arrives does not matter, and the ceiling bounds it. */
  lemma EvidenceOrderIrrelevant(p: Policy, c: real, a: seq<Unit>, b: seq<Unit>)
    requires c <= p.ceiling && multiset(a) == multiset(b)
    ensures ReinforcedBy(p, c, a) == ReinforcedBy(p, c, b) && ReinforcedBy(p, c, a) <= p.ceiling
  {
    hide Of, Left, Uncapped, Headroom, ReinforcedBy;
    AccumulationIsClosed(p, c, a);
    AccumulationIsClosed(p, c, b);
    HeadroomPermutes(p, a, b);
  }

  lemma ProductIsNone(a: real, b: real)
    requires 0.0 <= a && 0.0 <= b
    ensures Of(a, b) == 0.0 <==> a == 0.0 || b == 0.0
  {
    if a > 0.0 && b > 0.0 { assert a * b > 0.0; }
  }

  /** An observation that closes the gap by itself. */
  predicate Settles(p: Policy, observed: Unit) { p.gain == 1.0 && observed == 1.0 }

  lemma SettlesIs(p: Policy, observed: Unit)
    ensures Left(p, observed) == 0.0 <==> Settles(p, observed)
  {
    if Left(p, observed) == 0.0 {
      OfUnit(p.gain, observed);
      OfUnit(observed, p.gain);
      OfTwice(p.gain, observed, 1.0);
    }
  }

  lemma {:induction false} HeadroomGone(p: Policy, observations: seq<Unit>)
    ensures Headroom(p, observations) == 0.0 <==> exists i :: 0 <= i < |observations| && Settles(p, observations[i])
  {
    hide Of, Left, Settles;
    if observations != [] {
      var first, rest := observations[0], observations[1..];
      HeadroomGone(p, rest);
      HeadroomIsUnit(p, rest);
      LeftUnit(p, first);
      SettlesIs(p, first);
      ProductIsNone(Left(p, first), Headroom(p, rest));
      if i :| 0 <= i < |rest| && Settles(p, rest[i]) { assert Settles(p, observations[i + 1]); }
      if i :| 0 <= i < |observations| && Settles(p, observations[i]) { assert i == 0 || Settles(p, rest[i - 1]); }
    }
  }

  /** No amount of evidence makes a fact certain, except under a ceiling of one when a
      single certain observation counts in full. */
  lemma CertaintyExactly(p: Policy, c: real, observations: seq<Unit>)
    requires c <= p.ceiling && c < 1.0
    ensures ReinforcedBy(p, c, observations) == 1.0 <==>
            p.ceiling == 1.0 && exists i :: 0 <= i < |observations| && Settles(p, observations[i])
  {
    hide Of, Left, Uncapped, Headroom, ReinforcedBy, Settles;
    AccumulationIsClosed(p, c, observations);
    HeadroomGone(p, observations);
    HeadroomIsUnit(p, observations);
    ProductIsNone(Headroom(p, observations), 1.0 - c);
    OfUnit(Headroom(p, observations), 1.0 - c);
  }

  // ------------------------------------------------------------- both ways

  datatype Event = Observation(strength: Unit) | Challenge(strength: Unit)

  function Moved(p: Policy, c: real, events: seq<Event>): real
    decreases |events|
  {
    if events == [] then c
    else
      var next := match events[0]
                  case Observation(o) => Reinforced(p, c, o, false)
                  case Challenge(o) => Disputed(p, c, o, false);
      Moved(p, next, events[1..])
  }

  lemma ReinforceRaises(p: Policy, c: real, observed: Unit)
    requires c <= p.ceiling
    ensures c <= Reinforced(p, c, observed, false) <= p.ceiling
  {
    hide Of, Left, Uncapped;
    GapShrinks(p, c, observed);
    LeftUnit(p, observed);
    OfUnit(Left(p, observed), 1.0 - c);
  }

  /** A dispute lowers confidence, except below the floor, where it lifts it there. */
  lemma DisputeLowersExactly(p: Policy, c: real, challenger: Unit)
    requires 0.0 <= c
    ensures Disputed(p, c, challenger, false) <= c <==> p.floor <= c
    ensures Disputed(p, c, challenger, false) >= p.floor
  {
    hide Discounted;
    DiscountLowers(p, c, challenger);
  }

  lemma DiscountLowers(p: Policy, c: real, challenger: Unit)
    requires 0.0 <= c
    ensures 0.0 <= Discounted(p, c, challenger) <= c
  {
    hide Of;
    DiscountIs(p, c, challenger);
    OfUnit(p.discount, challenger);
    OfUnit(1.0 - Of(p.discount, challenger), c);
  }

  lemma DiscountIs(p: Policy, c: real, challenger: Unit)
    ensures Discounted(p, c, challenger) == Of(1.0 - Of(p.discount, challenger), c)
  {
  }

  function DisputedBy(p: Policy, c: real, challenges: seq<Unit>): real
    decreases |challenges|
  {
    if challenges == [] then c else DisputedBy(p, Disputed(p, c, challenges[0], false), challenges[1..])
  }

  /** What one challenge leaves of a confidence. */
  function Share(p: Policy, challenger: Unit): real { 1.0 - p.discount * challenger }

  /** What the challenges together leave, as a fraction. */
  function Remaining(p: Policy, challenges: seq<Unit>): real {
    if challenges == [] then 1.0 else Of(Share(p, challenges[0]), Remaining(p, challenges[1..]))
  }

  lemma {:induction false} RemainingIsUnit(p: Policy, challenges: seq<Unit>)
    ensures 0.0 <= Remaining(p, challenges) <= 1.0
  {
    hide Of;
    if challenges != [] {
      RemainingIsUnit(p, challenges[1..]);
      ShareIsUnit(p, challenges[0]);
      OfUnit(Share(p, challenges[0]), Remaining(p, challenges[1..]));
    }
  }

  lemma ShareIsUnit(p: Policy, challenger: Unit)
    ensures 0.0 <= Share(p, challenger) <= 1.0
  {
    OfUnit(p.discount, challenger);
  }

  lemma DiscountIsShare(p: Policy, c: real, challenger: Unit)
    ensures Discounted(p, c, challenger) == Of(Share(p, challenger), c)
  {
  }

  function DisputeClosed(p: Policy, c: real, challenges: seq<Unit>): real {
    Greatest(p.floor, Of(Remaining(p, challenges), c))
  }

  lemma DisputeStep(p: Policy, c: real, challenges: seq<Unit>)
    requires challenges != [] && 0.0 <= c
    ensures 0.0 <= Disputed(p, c, challenges[0], false)
    ensures DisputeClosed(p, Disputed(p, c, challenges[0], false), challenges[1..]) == DisputeClosed(p, c, challenges)
  {
    hide Of, Discounted, Share;
    var share, rest := Share(p, challenges[0]), Remaining(p, challenges[1..]);
    DiscountIsShare(p, c, challenges[0]);
    RemainingIsUnit(p, challenges[1..]);
    ShareIsUnit(p, challenges[0]);
    OfUnit(share, c);
    OfUnit(rest, Of(share, c));
    OfUnit(rest, p.floor);
    OfTwice(rest, share, c);
    OfTwice(share, rest, c);
    OfTwice(rest, share, 0.0);
  }

  /** Disputes have a closed form too, whatever their order: each takes its share of what is
      left, down to the floor, exactly when the row starts at the floor or is challenged at all. */
  lemma {:induction false} DisputesAreClosed(p: Policy, c: real, challenges: seq<Unit>)
    requires 0.0 <= c
    ensures DisputedBy(p, c, challenges) == DisputeClosed(p, c, challenges) <==> p.floor <= c || challenges != []
    decreases |challenges|
  {
    hide Of, Discounted, Share;
    if challenges == [] {
      OfTwice(c, 1.0, 1.0);
    } else {
      DisputeStep(p, c, challenges);
      DisputesAreClosed(p, Disputed(p, c, challenges[0], false), challenges[1..]);
    }
  }

  function Observations(strengths: seq<Unit>): seq<Event> {
    if strengths == [] then [] else [Observation(strengths[0])] + Observations(strengths[1..])
  }

  function Challenges(strengths: seq<Unit>): seq<Event> {
    if strengths == [] then [] else [Challenge(strengths[0])] + Challenges(strengths[1..])
  }

  /** Events of one sort only are the sums above. */
  lemma {:induction false} OneSort(p: Policy, c: real, strengths: seq<Unit>)
    ensures Moved(p, c, Observations(strengths)) == ReinforcedBy(p, c, strengths)
    ensures Moved(p, c, Challenges(strengths)) == DisputedBy(p, c, strengths)
    decreases |strengths|
  {
    hide Uncapped, Discounted;
    if strengths != [] {
      assert Observations(strengths)[1..] == Observations(strengths[1..]);
      assert Challenges(strengths)[1..] == Challenges(strengths[1..]);
      OneSort(p, Reinforced(p, c, strengths[0], false), strengths[1..]);
      OneSort(p, Disputed(p, c, strengths[0], false), strengths[1..]);
    }
  }

  /** Mixed in any order, evidence and disputes keep confidence within its bounds. */
  lemma {:induction false} ConfidenceStaysBounded(p: Policy, c: real, events: seq<Event>)
    requires p.floor <= c <= p.ceiling
    ensures p.floor <= Moved(p, c, events) <= p.ceiling
    decreases |events|
  {
    hide Uncapped, Discounted;
    if events != [] {
      match events[0] {
        case Observation(o) =>
          ReinforceRaises(p, c, o);
          ConfidenceStaysBounded(p, Reinforced(p, c, o, false), events[1..]);
        case Challenge(o) =>
          DisputeLowersExactly(p, c, o);
          ConfidenceStaysBounded(p, Disputed(p, c, o, false), events[1..]);
      }
    }
  }
}
