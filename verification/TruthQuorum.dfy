/** Corroboration over whole runs: an established fact gives way to an equal voice only
    after enough observations of the challenge, to newer information, or on approval.
    Which steps break that, exactly, and what the observations are. */
module TruthQuorum {
  import opened Ids
  import opened TruthSlots

  // --------------------------------------------------- a fact gives way early

  /** Seen often enough to resist a single equal voice. */
  predicate Seasoned(p: Policy, row: Row) { row.observed >= p.margin }

  /** The write that displaces the row may: its recency lets it past the gate, or its
      challenge has now been observed often enough. */
  ghost predicate Entitled(p: Policy, rows: seq<Row>, step: Step, i: nat) {
    step.Write? && step.o.Replaced?
    && (i in step.o.bypassed || |Siblings(p, rows, step.c)| + 1 >= p.required)
  }

  /** An established current fact gives way to a row of its own authority. */
  ghost predicate GivesWay(p: Policy, rows: seq<Row>, after: seq<Row>, i: nat, s: nat) {
    && i < |rows| && i < |after| && s < |after|
    && rows[i].status.Active? && Seasoned(p, rows[i])
    && after[i].status.Superseded? && after[i].successor == Some(s) && Rank(p, after[s]) == Rank(p, rows[i])
  }

  /** And nothing entitles that row to it: no approval, no recency, no quorum. */
  ghost predicate Toppled(p: Policy, rows: seq<Row>, now: Time, step: Step) {
    exists i: nat, s: nat ::
      GivesWay(p, rows, After(p, rows, now, step), i, s)
      && After(p, rows, now, step)[s].resolution != Some(OperatorApproved) && !Entitled(p, rows, step, i)
  }

  /** A repair whose winner nobody approved prefers it, for its start or its confidence,
      to an established fact of its own authority. */
  ghost predicate Topples(p: Policy, rows: seq<Row>, now: Time, step: Step) {
    step.Repair? && step.winner < |rows| && rows[step.winner].resolution != Some(OperatorApproved)
    && exists j: nat :: ToppledLoser(p, rows, now, step, j)
  }

  ghost predicate ToppledLoser(p: Policy, rows: seq<Row>, now: Time, step: Step, j: nat)
    requires step.Repair? && step.winner < |rows|
  {
    && j < |rows| && j != step.winner && j in step.approved && Contends(rows[j], step.key, now)
    && Seasoned(p, rows[j]) && Rank(p, rows[j]) == Rank(p, rows[step.winner])
  }

  /** The gate never lets an equal voice past an established fact unentitled. */
  lemma EqualIsEntitled(p: Policy, rows: seq<Row>, c: Candidate, o: Outcome, t: nat)
    requires IsOutcome(p, rows, c, o) && o.Replaced? && t in o.targets
    ensures t < |rows|
    ensures Seasoned(p, rows[t]) && p.rank(c.claim.authority) == Rank(p, rows[t]) ==> Entitled(p, rows, Write(c, o), t)
  {
    hide Near, Compatible, Reinforceable, Siblings;
    assert Rival(p, rows[t], c);
  }

  lemma WriteTopplesNothing(p: Policy, rows: seq<Row>, now: Time, c: Candidate, o: Outcome)
    requires IsOutcome(p, rows, c, o)
    ensures !Toppled(p, rows, now, Write(c, o))
  {
    OutcomeFits(p, rows, c, o);
    var after := After(p, rows, now, Write(c, o));
    forall i: nat, s: nat | GivesWay(p, rows, after, i, s) ensures Entitled(p, rows, Write(c, o), i) {
      WriteGivesWay(p, rows, c, o, i, s);
      EqualIsEntitled(p, rows, c, o, i);
    }
  }

  lemma WriteGivesWay(p: Policy, rows: seq<Row>, c: Candidate, o: Outcome, i: nat, s: nat)
    requires IsOutcome(p, rows, c, o) && Fits(rows, o) && GivesWay(p, rows, Written(p, rows, c, o), i, s)
    ensures o.Replaced? && i in o.targets && p.rank(c.claim.authority) == Rank(p, rows[i])
  {
    OutcomeFits(p, rows, c, o);
    hide IsOutcome, Rival;
    var after := Written(p, rows, c, o);
    if !o.Reinforced? { assert after[i] == Touched(p, rows[i], i, |rows|, c, o); }
  }

  lemma RepairTopplesExactly(p: Policy, rows: seq<Row>, now: Time, key: string, w: nat, approved: set<nat>)
    requires IsWinner(rows, key, now, w)
    ensures Toppled(p, rows, now, Repair(key, w, approved)) <==> Topples(p, rows, now, Repair(key, w, approved))
  {
    hide Outranks;
    var step, after := Repair(key, w, approved), Repaired(rows, key, now, w, approved);
    assert Allowed(p, rows, now, step) && After(p, rows, now, step) == after;
    assert after[w] == rows[w];
    if i: nat, s: nat :| GivesWay(p, rows, after, i, s) && after[s].resolution != Some(OperatorApproved) {
      assert s == w && ToppledLoser(p, rows, now, step, i);
    }
    if Topples(p, rows, now, step) {
      var j: nat :| ToppledLoser(p, rows, now, step, j);
      assert GivesWay(p, rows, after, j, w);
    }
  }

  lemma OthersToppleNothing(p: Policy, rows: seq<Row>, now: Time, step: Step)
    requires Allowed(p, rows, now, step) && !step.Write? && !step.Repair?
    ensures !Toppled(p, rows, now, step)
  {
    var after := After(p, rows, now, step);
    forall i: nat, s: nat | GivesWay(p, rows, after, i, s) ensures after[s].resolution == Some(OperatorApproved) {
      assert step.Approve? && s == step.i;
    }
  }

  /** Unapproved, without recency and short of a quorum, an established fact gives way to
      its equal exactly in such a repair. */
  lemma StepTopplesExactly(p: Policy, rows: seq<Row>, now: Time, step: Step)
    requires Allowed(p, rows, now, step)
    ensures Toppled(p, rows, now, step) <==> Topples(p, rows, now, step)
  {
    hide IsOutcome, Toppled, Topples, IsWinner;
    match step
    case Write(c, o) =>
      WriteTopplesNothing(p, rows, now, c, o);
      OnlyRepairsTopple(p, rows, now, step);
    case Repair(key, w, approved) => RepairTopplesExactly(p, rows, now, key, w, approved);
    case _ =>
      OthersToppleNothing(p, rows, now, step);
      OnlyRepairsTopple(p, rows, now, step);
  }

  lemma OnlyRepairsTopple(p: Policy, rows: seq<Row>, now: Time, step: Step)
    requires !step.Repair?
    ensures !Topples(p, rows, now, step)
  {
  }

  ghost predicate NeverToppled(p: Policy, rows: seq<Row>, run: seq<Tick>)
    decreases |run|
  {
    run == [] || (!Toppled(p, rows, run[0].now, run[0].step)
                  && NeverToppled(p, After(p, rows, run[0].now, run[0].step), run[1..]))
  }

  ghost predicate NoneTopples(p: Policy, rows: seq<Row>, run: seq<Tick>)
    decreases |run|
  {
    run == [] || (!Topples(p, rows, run[0].now, run[0].step)
                  && NoneTopples(p, After(p, rows, run[0].now, run[0].step), run[1..]))
  }

  /** Over any run of every kind of step, an established fact gives way to its equal only
      by quorum, recency or approval exactly when no repair prefers its equal to it. */
  lemma {:induction false} QuorumRespectedExactly(p: Policy, rows: seq<Row>, run: seq<Tick>)
    requires Legal(p, rows, run)
    ensures NeverToppled(p, rows, run) <==> NoneTopples(p, rows, run)
    decreases |run|
  {
    hide Allowed, After, Toppled, Topples;
    if run != [] {
      StepTopplesExactly(p, rows, run[0].now, run[0].step);
      QuorumRespectedExactly(p, After(p, rows, run[0].now, run[0].step), run[1..]);
    }
  }

  // ------------------------------------------------- what the quorum is made of

  /** A row parked for want of corroboration that states the challenge. */
  predicate Voice(p: Policy, row: Row, c: Candidate) {
    row.gate == Some(InsufficientCorroboration) && row.claim.prefix == c.claim.prefix
    && (row.claim.value == c.claim.value || (Compatible(p, row, c) && Near(p, row, c)))
  }

  ghost function Voices(p: Policy, rows: seq<Row>, c: Candidate): set<nat> {
    set i: nat | 0 <= i < |rows| && Voice(p, rows[i], c)
  }

  /** The step parks an observation of the challenge. */
  predicate Parks(p: Policy, step: Step, c: Candidate) {
    step.Write? && step.o.Parked? && step.o.reason.InsufficientCorroboration?
    && step.c.claim.prefix == c.claim.prefix
    && (step.c.claim.value == c.claim.value || (Compatible(p, Plain(step.c), c) && Near(p, Plain(step.c), c)))
  }

  /** The step restores a copy of one. */
  ghost predicate Copies(p: Policy, rows: seq<Row>, step: Step, c: Candidate) {
    step.Restore? && step.base < |rows| && Voice(p, rows[step.base], c)
  }

  /** How many observations of the challenge a run parks or restores. */
  ghost function Heard(p: Policy, rows: seq<Row>, run: seq<Tick>, c: Candidate): nat
    decreases |run|
  {
    if run == [] then 0
    else (if Parks(p, run[0].step, c) || Copies(p, rows, run[0].step, c) then 1 else 0)
         + Heard(p, After(p, rows, run[0].now, run[0].step), run[1..], c)
  }

  /** Rows keep what makes them a voice; one more may join. */
  ghost predicate VoicesKept(p: Policy, rows: seq<Row>, after: seq<Row>) {
    && |rows| <= |after| <= |rows| + 1
    && forall i :: 0 <= i < |rows| ==> after[i].claim == rows[i].claim && after[i].gate == rows[i].gate
  }

  lemma VoiceReads(p: Policy, a: Row, b: Row, c: Candidate)
    requires a.claim == b.claim && a.gate == b.gate
    ensures Voice(p, a, c) <==> Voice(p, b, c)
  {
  }

  lemma VoicesCount(p: Policy, rows: seq<Row>, after: seq<Row>, c: Candidate)
    requires VoicesKept(p, rows, after)
    ensures |Voices(p, after, c)| ==
            |Voices(p, rows, c)| + if |rows| < |after| && Voice(p, after[|rows|], c) then 1 else 0
  {
    var old_ := Voices(p, after[..|rows|], c);
    VoicesSame(p, rows, after[..|rows|], c);
    hide Voice, VoicesKept;
    if |rows| < |after| && Voice(p, after[|rows|], c) {
      assert Voices(p, after, c) == old_ + {|rows|};
    } else {
      assert Voices(p, after, c) == old_;
    }
  }

  lemma VoicesSame(p: Policy, rows: seq<Row>, after: seq<Row>, c: Candidate)
    requires |after| == |rows|
    requires forall i :: 0 <= i < |rows| ==> after[i].claim == rows[i].claim && after[i].gate == rows[i].gate
    ensures Voices(p, after, c) == Voices(p, rows, c)
  {
    hide Voice;
    forall i: nat | i < |rows| ensures Voice(p, after[i], c) <==> Voice(p, rows[i], c) { VoiceReads(p, after[i], rows[i], c); }
  }

  lemma WriteVoices(p: Policy, rows: seq<Row>, d: Candidate, o: Outcome, c: Candidate)
    requires IsOutcome(p, rows, d, o)
    ensures Fits(rows, o) && VoicesKept(p, rows, Written(p, rows, d, o))
    ensures |Written(p, rows, d, o)| > |rows| ==>
              (Voice(p, Written(p, rows, d, o)[|rows|], c) <==> Parks(p, Write(d, o), c))
    ensures |Written(p, rows, d, o)| == |rows| ==> !Parks(p, Write(d, o), c)
  {
    OutcomeFits(p, rows, d, o);
    hide IsOutcome, Rival, Sibling;
    var after := Written(p, rows, d, o);
    if !o.Reinforced? {
      assert after[|rows|] == Inserted(rows, d, o) && after[|rows|].claim == d.claim == Plain(d).claim;
      forall i | 0 <= i < |rows| ensures after[i].claim == rows[i].claim && after[i].gate == rows[i].gate {
        assert after[i] == Touched(p, rows[i], i, |rows|, d, o);
      }
      ClaimsAlike(p, after[|rows|], Plain(d), c);
    }
  }

  lemma ClaimsAlike(p: Policy, a: Row, b: Row, c: Candidate)
    requires a.claim == b.claim
    ensures Compatible(p, a, c) == Compatible(p, b, c) && Near(p, a, c) == Near(p, b, c)
  {
  }

  lemma OtherVoices(p: Policy, rows: seq<Row>, now: Time, step: Step, c: Candidate)
    requires Allowed(p, rows, now, step) && !step.Write?
    ensures VoicesKept(p, rows, After(p, rows, now, step))
    ensures |After(p, rows, now, step)| > |rows| <==> step.Restore?
    ensures step.Restore? ==> (Voice(p, After(p, rows, now, step)[|rows|], c) <==> Copies(p, rows, step, c))
  {
    hide Incumbents, Outranks, Near, Compatible;
    if step.Restore? {
      var row := After(p, rows, now, step)[|rows|];
      assert row.claim == rows[step.base].claim && row.gate == rows[step.base].gate;
      VoiceReads(p, row, rows[step.base], c);
    }
  }

  lemma StepVoices(p: Policy, rows: seq<Row>, now: Time, step: Step, c: Candidate)
    requires Allowed(p, rows, now, step)
    ensures |Voices(p, After(p, rows, now, step), c)| ==
            |Voices(p, rows, c)| + if Parks(p, step, c) || Copies(p, rows, step, c) then 1 else 0
  {
    hide IsOutcome, Written, Voices, Voice, Compatible, Near;
    var after := After(p, rows, now, step);
    if step.Write? { WriteVoices(p, rows, step.c, step.o, c); } else { OtherVoices(p, rows, now, step, c); }
    VoicesCount(p, rows, after, c);
  }

  /** Exactly the observations parked, and the copies of them restored, speak for a
      challenge: nothing else adds a voice and nothing takes one away. */
  lemma {:induction false} VoicesAreHeard(p: Policy, rows: seq<Row>, run: seq<Tick>, c: Candidate)
    requires Legal(p, rows, run)
    ensures |Voices(p, Ending(p, rows, run), c)| == |Voices(p, rows, c)| + Heard(p, rows, run, c)
    decreases |run|
  {
    hide Allowed, After, Voices, Parks, Copies;
    if run != [] {
      StepVoices(p, rows, run[0].now, run[0].step, c);
      VoicesAreHeard(p, After(p, rows, run[0].now, run[0].step), run[1..], c);
    }
  }

  lemma SiblingsAreVoices(p: Policy, rows: seq<Row>, c: Candidate)
    ensures |Siblings(p, rows, c)| <= |Voices(p, rows, c)|
  {
    hide Compatible, Near;
    assert Siblings(p, rows, c) <= Voices(p, rows, c);
    assert Voices(p, rows, c) == Siblings(p, rows, c) + (Voices(p, rows, c) - Siblings(p, rows, c));
  }

  /** So in every run from an empty store: a write that counts siblings counts no more
      than were parked for the challenge before it, or restored; and an established fact
      that gives way to its equal unapproved does so to newer information, after at least
      `required - 1` such observations, or in a repair that prefers its equal. */
  lemma YieldsOnlyByQuorum(p: Policy, run: seq<Tick>, last: Tick, i: nat, s: nat)
    requires Legal(p, [], run) && Allowed(p, Ending(p, [], run), last.now, last.step)
    requires var rows := Ending(p, [], run);
      var after := After(p, rows, last.now, last.step);
      GivesWay(p, rows, after, i, s) && after[s].resolution != Some(OperatorApproved)
    ensures Topples(p, Ending(p, [], run), last.now, last.step)
      || (last.step.Write? && last.step.o.Replaced?
          && (i in last.step.o.bypassed || Heard(p, [], run, last.step.c) + 1 >= p.required))
  {
    hide Legal, Ending, IsOutcome, Topples, Allowed, Siblings, Heard;
    var rows := Ending(p, [], run);
    StepTopplesExactly(p, rows, last.now, last.step);
    if !Topples(p, rows, last.now, last.step) {
      assert Entitled(p, rows, last.step, i);
      CountedWereHeard(p, run, last.step.c);
    }
  }

  lemma CountedWereHeard(p: Policy, run: seq<Tick>, c: Candidate)
    requires Legal(p, [], run)
    ensures |Siblings(p, Ending(p, [], run), c)| <= Heard(p, [], run, c)
  {
    hide Legal, Ending, Siblings, Heard;
    VoicesAreHeard(p, [], run, c);
    SiblingsAreVoices(p, Ending(p, [], run), c);
    assert Voices(p, [], c) == {};
  }
}
