/** What a whole run of the store makes of one row: how often it was seen, from when to when,
    and how far it is believed. */
module TruthTallies {
  import opened Ids
  import opened TruthSlots
  import Confidence

  // ------------------------------------------------------ what happened to it

  /** The candidates that repeated the row, in the order they were written. */
  function Repeats(run: seq<Tick>, t: nat): seq<Candidate> {
    if run == [] then []
    else (if run[0].step.Write? && run[0].step.o == Reinforced(t) then [run[0].step.c] else []) + Repeats(run[1..], t)
  }

  predicate Disputes(step: Step, t: nat) { step.Write? && step.o.Parked? && step.o.incumbent == t }

  /** Repeats and parked challenges of the row, with the confidence each came with. */
  function EventsOf(run: seq<Tick>, t: nat): seq<Confidence.Event> {
    if run == [] then []
    else
      (if run[0].step.Write? && run[0].step.o == Reinforced(t) then [Confidence.Observation(run[0].step.c.confidence)]
       else if Disputes(run[0].step, t) then [Confidence.Challenge(run[0].step.c.confidence)]
       else [])
      + EventsOf(run[1..], t)
  }

  // ------------------------------------------------------------------ one step

  /** Every step but a repeat leaves a row's sightings alone, and every step but a repeat
      and a parked challenge its confidence; no step changes what it says or whether it is held. */
  lemma StepKeepsSightings(p: Policy, rows: seq<Row>, now: Time, step: Step, t: nat)
    requires Allowed(p, rows, now, step) && t < |rows|
    ensures var after := After(p, rows, now, step);
            && t < |after| && after[t].claim == rows[t].claim && after[t].held == rows[t].held
            && (!(step.Write? && step.o == Reinforced(t)) ==>
                  after[t].observed == rows[t].observed && after[t].firstSeen == rows[t].firstSeen
                  && after[t].lastSeen == rows[t].lastSeen && after[t].start == rows[t].start)
            && (!(step.Write? && step.o == Reinforced(t)) && !Disputes(step, t) ==> after[t].confidence == rows[t].confidence)
  {
    hide Incumbents, Outranks, Near, Compatible, Gate, Blocked, Cosine, Established, Confidence.Reinforced, Confidence.Disputed;
    if step.Write? { OutcomeFits(p, rows, step.c, step.o); WrittenAt(p, rows, step.c, step.o, t); }
  }

  lemma WrittenAt(p: Policy, rows: seq<Row>, c: Candidate, o: Outcome, t: nat)
    requires Fits(rows, o) && t < |rows|
    ensures Written(p, rows, c, o)[t] ==
            if o.Reinforced? then (if t == o.target then Strengthened(p, rows[t], c) else rows[t])
            else Touched(p, rows[t], t, |rows|, c, o)
  {
    hide Strengthened, Touched, Inserted;
  }

  lemma StepConfidence(p: Policy, rows: seq<Row>, now: Time, step: Step, t: nat)
    requires Allowed(p, rows, now, step) && t < |rows|
    ensures t < |After(p, rows, now, step)|
    ensures step.Write? && step.o == Reinforced(t) ==>
              After(p, rows, now, step)[t].confidence ==
              Confidence.Reinforced(p.confidence, rows[t].confidence, step.c.confidence, rows[t].held)
    ensures Disputes(step, t) ==>
              After(p, rows, now, step)[t].confidence ==
              Confidence.Disputed(p.confidence, rows[t].confidence, step.c.confidence, rows[t].held)
  {
    hide IsOutcome, Incumbents, Outranks, Confidence.Reinforced, Confidence.Disputed;
    if step.Write? { OutcomeFits(p, rows, step.c, step.o); WrittenAt(p, rows, step.c, step.o, t); }
  }

  lemma ConfidenceIs(p: Confidence.Policy, c: real, o: Confidence.Unit, held: bool)
    ensures Confidence.Reinforced(p, c, o, held) ==
            if held then c else Confidence.Least(p.ceiling, c + (1.0 - c) * p.gain * o)
    ensures Confidence.Disputed(p, c, o, held) ==
            if held then c else Confidence.Greatest(p.floor, c * (1.0 - p.discount * o))
  {
  }

  /** A repeat counts once, widens the dates to its own and starts the row at its earliest
      sighting. */
  lemma StepTallies(p: Policy, rows: seq<Row>, now: Time, step: Step, t: nat)
    requires Allowed(p, rows, now, step) && t < |rows| && step.Write? && step.o == Reinforced(t)
    ensures t < |After(p, rows, now, step)|
    ensures var was, row, at := rows[t], After(p, rows, now, step)[t], Observed(step.c);
            && row.observed == was.observed + 1 && row.start == row.firstSeen
            && row.firstSeen == (if at < was.firstSeen then at else was.firstSeen)
            && row.lastSeen == (if at > was.lastSeen then at else was.lastSeen)
  {
    hide IsOutcome, Confidence.Reinforced;
    OutcomeFits(p, rows, step.c, step.o);
    WrittenAt(p, rows, step.c, step.o, t);
  }

  /** It closes its share of the gap to certainty, up to the ceiling; a parked challenge takes
      its share of the confidence, down to the floor; a held row is believed as before. */
  lemma StepBelieves(p: Policy, rows: seq<Row>, now: Time, step: Step, t: nat)
    requires Allowed(p, rows, now, step) && t < |rows| && step.Write?
    ensures t < |After(p, rows, now, step)|
    ensures var was, row, o := rows[t], After(p, rows, now, step)[t], step.c.confidence;
            && (was.held ==> row.confidence == was.confidence)
            && (!was.held && step.o == Reinforced(t) ==>
                  row.confidence == Confidence.Least(p.confidence.ceiling,
                                                     was.confidence + (1.0 - was.confidence) * p.confidence.gain * o))
            && (!was.held && Disputes(step, t) ==>
                  row.confidence == Confidence.Greatest(p.confidence.floor,
                                                        was.confidence * (1.0 - p.confidence.discount * o)))
            && (step.o != Reinforced(t) && !Disputes(step, t) ==> row.confidence == was.confidence)
  {
    hide Allowed, After, Disputes, Confidence.Reinforced, Confidence.Disputed;
    StepKeepsSightings(p, rows, now, step, t);
    StepConfidence(p, rows, now, step, t);
    ConfidenceIs(p.confidence, rows[t].confidence, step.c.confidence, rows[t].held);
    var was, row, o := rows[t], After(p, rows, now, step)[t], step.c.confidence;
    if !was.held && step.o == Reinforced(t) {
      assert row.confidence == Confidence.Reinforced(p.confidence, was.confidence, o, false);
      assert row.confidence == Confidence.Least(p.confidence.ceiling, was.confidence + (1.0 - was.confidence) * p.confidence.gain * o);
    }
  }

  // ----------------------------------------------------------------- whole runs

  /** *first* is the earliest of *own* and the observations. */
  ghost predicate Earliest(first: Time, own: Time, cs: seq<Candidate>) {
    && first <= own && (forall k :: 0 <= k < |cs| ==> first <= Observed(cs[k]))
    && (first == own || exists k :: 0 <= k < |cs| && first == Observed(cs[k]))
  }

  ghost predicate Latest(last: Time, own: Time, cs: seq<Candidate>) {
    && own <= last && (forall k :: 0 <= k < |cs| ==> Observed(cs[k]) <= last)
    && (last == own || exists k :: 0 <= k < |cs| && last == Observed(cs[k]))
  }

  /** The dates and the count after a run: the earliest and the latest of all sightings, the
      row's own included, and one more for every repeat. */
  ghost predicate Tallied(was: Row, row: Row, repeats: seq<Candidate>) {
    && row.claim == was.claim && row.held == was.held
    && row.observed == was.observed + |repeats|
    && Earliest(row.firstSeen, was.firstSeen, repeats) && Latest(row.lastSeen, was.lastSeen, repeats)
    && row.start == if repeats == [] then was.start else row.firstSeen
  }

  lemma EarliestCons(first: Time, own: Time, c: Candidate, cs: seq<Candidate>)
    requires Earliest(first, if Observed(c) < own then Observed(c) else own, cs)
    ensures Earliest(first, own, [c] + cs)
  {
    hide Observed;
    var all := [c] + cs;
    assert all[0] == c;
    if k :| 0 <= k < |cs| && first == Observed(cs[k]) { assert all[k + 1] == cs[k]; }
  }

  lemma LatestCons(last: Time, own: Time, c: Candidate, cs: seq<Candidate>)
    requires Latest(last, if Observed(c) > own then Observed(c) else own, cs)
    ensures Latest(last, own, [c] + cs)
  {
    hide Observed;
    var all := [c] + cs;
    assert all[0] == c;
    if k :| 0 <= k < |cs| && last == Observed(cs[k]) { assert all[k + 1] == cs[k]; }
  }

  /** One more sighting in front. */
  lemma TalliedCons(was: Row, mid: Row, row: Row, c: Candidate, repeats: seq<Candidate>)
    requires Tallied(mid, row, repeats) && mid.claim == was.claim && mid.held == was.held
    requires mid.observed == was.observed + 1 && mid.start == mid.firstSeen
    requires mid.firstSeen == if Observed(c) < was.firstSeen then Observed(c) else was.firstSeen
    requires mid.lastSeen == if Observed(c) > was.lastSeen then Observed(c) else was.lastSeen
    ensures Tallied(was, row, [c] + repeats)
  {
    hide Observed;
    EarliestCons(row.firstSeen, was.firstSeen, c, repeats);
    LatestCons(row.lastSeen, was.lastSeen, c, repeats);
    if repeats == [] { NoneEarlier(row.firstSeen, mid.firstSeen); }
  }

  lemma NoneEarlier(first: Time, own: Time)
    requires Earliest(first, own, [])
    ensures first == own
  {
  }

  lemma TalliedSame(was: Row, mid: Row, row: Row, repeats: seq<Candidate>)
    requires Tallied(mid, row, repeats) && mid.claim == was.claim && mid.held == was.held && mid.observed == was.observed
    requires mid.firstSeen == was.firstSeen && mid.lastSeen == was.lastSeen && mid.start == was.start
    ensures Tallied(was, row, repeats)
  {
  }

  /** Over any run, whatever else it does: a row has been seen once more for every candidate
      that repeated it, and its dates span exactly those and its own. */
  lemma {:induction false} SightingsTallied(p: Policy, rows: seq<Row>, run: seq<Tick>, t: nat)
    requires Legal(p, rows, run) && t < |rows|
    ensures t < |Ending(p, rows, run)| && Tallied(rows[t], Ending(p, rows, run)[t], Repeats(run, t))
    decreases |run|
  {
    hide Allowed, After, Tallied, Disputes;
    if run == [] {
      NothingTallied(rows[t]);
    } else {
      var step, after := run[0].step, After(p, rows, run[0].now, run[0].step);
      StepKeepsSightings(p, rows, run[0].now, step, t);
      SightingsTallied(p, after, run[1..], t);
      var row := Ending(p, rows, run)[t];
      if step.Write? && step.o == Reinforced(t) {
        StepTallies(p, rows, run[0].now, step, t);
        TalliedCons(rows[t], after[t], row, step.c, Repeats(run[1..], t));
      } else {
        TalliedSame(rows[t], after[t], row, Repeats(run[1..], t));
        assert Repeats(run, t) == Repeats(run[1..], t);
      }
    }
  }

  lemma NothingTallied(row: Row)
    ensures Tallied(row, row, [])
  {
  }

  /** What one step does to the confidence, as an event. */
  lemma StepMoves(p: Policy, rows: seq<Row>, now: Time, step: Step, t: nat)
    requires Allowed(p, rows, now, step) && t < |rows|
    ensures var c, events := rows[t].confidence, EventsOf([Tick(now, step)], t);
            && t < |After(p, rows, now, step)| && After(p, rows, now, step)[t].held == rows[t].held
            && After(p, rows, now, step)[t].confidence ==
               if rows[t].held then c else Confidence.Moved(p.confidence, c, events)
  {
    hide Allowed, After, EventsOf, Confidence.Reinforced, Confidence.Disputed, Confidence.Moved;
    StepKeepsSightings(p, rows, now, step, t);
    StepConfidence(p, rows, now, step, t);
    EventsOfOne(now, step, t);
    var c := rows[t].confidence;
    if step.Write? && (step.o == Reinforced(t) || Disputes(step, t)) {
      MovedOnce(p.confidence, c, step.c.confidence);
    } else {
      NothingMoved(p.confidence, c);
    }
  }

  lemma EventsOfOne(now: Time, step: Step, t: nat)
    ensures EventsOf([Tick(now, step)], t) ==
            if step.Write? && step.o == Reinforced(t) then [Confidence.Observation(step.c.confidence)]
            else if Disputes(step, t) then [Confidence.Challenge(step.c.confidence)]
            else []
  {
    var run := [Tick(now, step)];
    assert run[1..] == [] && EventsOf(run[1..], t) == [];
    assert run[0].step == step;
  }

  lemma MovedOnce(p: Confidence.Policy, c: real, o: Confidence.Unit)
    ensures Confidence.Moved(p, c, [Confidence.Observation(o)]) == Confidence.Reinforced(p, c, o, false)
    ensures Confidence.Moved(p, c, [Confidence.Challenge(o)]) == Confidence.Disputed(p, c, o, false)
    ensures Confidence.Reinforced(p, c, o, true) == c && Confidence.Disputed(p, c, o, true) == c
  {
    hide Confidence.Uncapped, Confidence.Discounted;
    assert [Confidence.Observation(o)][1..] == [] && [Confidence.Challenge(o)][1..] == [];
  }

  lemma {:induction false} MovedAppend(p: Confidence.Policy, c: real, a: seq<Confidence.Event>, b: seq<Confidence.Event>)
    ensures Confidence.Moved(p, c, a + b) == Confidence.Moved(p, Confidence.Moved(p, c, a), b)
    decreases |a|
  {
    hide Confidence.Reinforced, Confidence.Disputed;
    if a == [] {
      assert a + b == b;
    } else {
      assert (a + b)[0] == a[0] && (a + b)[1..] == a[1..] + b;
      var next := match a[0]
                  case Observation(o) => Confidence.Reinforced(p, c, o, false)
                  case Challenge(o) => Confidence.Disputed(p, c, o, false);
      MovedAppend(p, next, a[1..], b);
    }
  }

  /** Over any run, whatever else it does: a held row keeps its confidence, and any other
      row's is what its repeats and the challenges parked against it, in order, make of it. */
  lemma {:induction false} ConfidenceTallied(p: Policy, rows: seq<Row>, run: seq<Tick>, t: nat)
    requires Legal(p, rows, run) && t < |rows|
    ensures t < |Ending(p, rows, run)| && Ending(p, rows, run)[t].held == rows[t].held
    ensures Ending(p, rows, run)[t].confidence ==
            if rows[t].held then rows[t].confidence
            else Confidence.Moved(p.confidence, rows[t].confidence, EventsOf(run, t))
    decreases |run|
  {
    hide Allowed, After, Disputes, Confidence.Moved;
    if run == [] {
      NothingMoved(p.confidence, rows[t].confidence);
    } else {
      var after := After(p, rows, run[0].now, run[0].step);
      StepMoves(p, rows, run[0].now, run[0].step, t);
      ConfidenceTallied(p, after, run[1..], t);
      EventsCons(run, t);
      MovedAppend(p.confidence, rows[t].confidence, EventsOf([run[0]], t), EventsOf(run[1..], t));
    }
  }

  lemma NothingMoved(p: Confidence.Policy, c: real)
    ensures Confidence.Moved(p, c, []) == c
  {
  }

  lemma EventsCons(run: seq<Tick>, t: nat)
    requires run != []
    ensures run[0] == Tick(run[0].now, run[0].step)
    ensures EventsOf(run, t) == EventsOf([run[0]], t) + EventsOf(run[1..], t)
  {
    assert [run[0]][1..] == [];
    assert EventsOf([run[0]][1..], t) == [];
  }

  // ------------------------------------------------------------- closed forms

  function Strengths(cs: seq<Candidate>): seq<Confidence.Unit> {
    if cs == [] then [] else [cs[0].confidence] + Strengths(cs[1..])
  }

  /** The challenges parked against the row, in order. */
  function Against(run: seq<Tick>, t: nat): seq<Candidate> {
    if run == [] then [] else (if Disputes(run[0].step, t) then [run[0].step.c] else []) + Against(run[1..], t)
  }

  lemma {:induction false} SortOfEvents(run: seq<Tick>, t: nat)
    ensures Against(run, t) == [] ==> EventsOf(run, t) == Confidence.Observations(Strengths(Repeats(run, t)))
    ensures Repeats(run, t) == [] ==> EventsOf(run, t) == Confidence.Challenges(Strengths(Against(run, t)))
  {
    if run != [] {
      var step, rest := run[0].step, run[1..];
      SortOfEvents(rest, t);
      if step.Write? && step.o == Reinforced(t) {
        StrengthsCons(step.c, Repeats(rest, t));
      } else if Disputes(step, t) {
        StrengthsCons(step.c, Against(rest, t));
      } else {
        assert Repeats(run, t) == Repeats(rest, t) && Against(run, t) == Against(rest, t);
      }
    }
  }

  lemma StrengthsCons(c: Candidate, rest: seq<Candidate>)
    ensures Confidence.Observations(Strengths([c] + rest)) ==
            [Confidence.Observation(c.confidence)] + Confidence.Observations(Strengths(rest))
    ensures Confidence.Challenges(Strengths([c] + rest)) ==
            [Confidence.Challenge(c.confidence)] + Confidence.Challenges(Strengths(rest))
  {
    assert ([c] + rest)[1..] == rest;
    assert Strengths([c] + rest) == [c.confidence] + Strengths(rest);
    assert ([c.confidence] + Strengths(rest))[1..] == Strengths(rest);
  }

  /** Over any run, whatever else it does: a held row is believed as before; a row nobody
      disputes as far as the closed form of its repeats says, and one nobody repeats as far
      as the closed form of its disputes, whatever the order they came in, exactly when it
      started within the bound or was observed, or disputed, at all. */
  lemma BelievedExactly(p: Policy, rows: seq<Row>, run: seq<Tick>, t: nat)
    requires Legal(p, rows, run) && t < |rows| && 0.0 <= rows[t].confidence <= 1.0
    ensures t < |Ending(p, rows, run)|
    ensures var was, row := rows[t].confidence, Ending(p, rows, run)[t].confidence;
            && (rows[t].held ==> row == was)
            && (!rows[t].held && Against(run, t) == [] ==>
                  (row == Confidence.Closed(p.confidence, was, Strengths(Repeats(run, t))) <==>
                   was <= p.confidence.ceiling || Repeats(run, t) != []))
            && (!rows[t].held && Repeats(run, t) == [] ==>
                  (row == Confidence.DisputeClosed(p.confidence, was, Strengths(Against(run, t))) <==>
                   p.confidence.floor <= was || Against(run, t) != []))
            && (!rows[t].held && Repeats(run, t) == [] && Against(run, t) == [] ==> row == was)
  {
    hide Legal, Ending, Confidence.Closed, Confidence.DisputeClosed, Confidence.Moved, EventsOf, Repeats, Against;
    ConfidenceTallied(p, rows, run, t);
    SortOfEvents(run, t);
    var was := rows[t].confidence;
    var seen, denied := Strengths(Repeats(run, t)), Strengths(Against(run, t));
    StrengthsOfNone(Repeats(run, t));
    StrengthsOfNone(Against(run, t));
    Confidence.OneSort(p.confidence, was, seen);
    Confidence.OneSort(p.confidence, was, denied);
    Confidence.AccumulationIsClosed(p.confidence, was, seen);
    Confidence.DisputesAreClosed(p.confidence, was, denied);
  }

  lemma StrengthsOfNone(cs: seq<Candidate>)
    ensures Strengths(cs) == [] <==> cs == []
  {
  }

  // -------------------------------------------------------- the row that is new

  /** Whatever becomes of a candidate that repeats nothing, its row says what it claims, is
      believed as far as the candidate, was seen once, when the candidate observed it, and is
      held by nobody; it is in force exactly when it took the slot. */
  lemma NewRow(p: Policy, rows: seq<Row>, now: Time, c: Candidate, o: Outcome)
    requires IsOutcome(p, rows, c, o) && !o.Reinforced?
    ensures var after := After(p, rows, now, Write(c, o));
            && |after| == |rows| + 1
            && var row := after[|rows|];
            && row.claim == c.claim && row.confidence == c.confidence && row.observed == 1 && !row.held
            && row.start == Observed(c) && row.firstSeen == Observed(c) && row.lastSeen == Observed(c)
            && row.resolution.None? && !row.restored && !row.archived
            && (o.Replaced? ==> row.status.Active? && row.end == c.until && row.successor.None? && row.gate.None? && !row.review)
            && (o.Parked? ==>
                  && row.status.Superseded? && row.end == Some(Observed(c)) && row.successor == Some(o.incumbent)
                  && row.gate == Some(o.reason) && row.review)
            && (o.Historical? ==>
                  && row.status.Superseded? && row.successor == Some(o.later) && row.gate.None? && !row.review
                  && row.end.Some? && row.end.value <= rows[o.later].start
                  && (row.end.value == rows[o.later].start || Some(row.end.value) == c.until)
                  && (c.until.Some? ==> row.end.value <= c.until.value))
            && (row.overrides.Keys == if o.Replaced? && c.until.Some? && c.claim.cardinality.SingleActive? then o.targets else {})
            && forall i :: i in row.overrides ==> i < |rows| && row.overrides[i] == rows[i].end
  {
    OutcomeFits(p, rows, c, o);
    hide IsOutcome, Touched;
  }
}
