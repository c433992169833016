/** The supersession gate over whole runs: who may displace current truth, and
    after how many observations. */
module TruthGate {
  import opened Ids
  import opened TruthSlots

  // --------------------------------------------------------------- authority

  /** The slot shows a fact of at least this authority. */
  ghost predicate Holds(p: Policy, rows: seq<Row>, prefix: string, rank: nat) {
    exists i :: 0 <= i < |rows| && rows[i].status.Active? && rows[i].claim.prefix == prefix && Rank(p, rows[i]) >= rank
  }

  /** Formation at work: candidates are written, challengers are turned down. A key
      names one slot only. */
  ghost predicate Formation(rows: seq<Row>, step: Step) {
    match step
    case Write(c, _) => forall i :: 0 <= i < |rows| && rows[i].claim.key == c.claim.key ==> rows[i].claim.prefix == c.claim.prefix
    case Reject(_) => true
    case _ => false
  }

  ghost predicate AllFormation(p: Policy, rows: seq<Row>, run: seq<Tick>)
    decreases |run|
  {
    run == [] || (Formation(rows, run[0].step)
                  && AllFormation(p, After(p, rows, run[0].now, run[0].step), run[1..]))
  }

  /** A displaced row is displaced by one of at least its own authority. */
  lemma TargetsAreOutranked(p: Policy, rows: seq<Row>, c: Candidate, o: Outcome, t: nat)
    requires p.gateLower && IsOutcome(p, rows, c, o) && o.Replaced? && t in o.targets
    ensures t < |rows| && p.rank(c.claim.authority) >= Rank(p, rows[t])
  {
    hide Near, Compatible, Reinforceable, Siblings;
    assert Rival(p, rows[t], c);
  }

  lemma WriteKeepsAuthority(p: Policy, rows: seq<Row>, c: Candidate, o: Outcome, prefix: string, rank: nat)
    requires p.gateLower && IsOutcome(p, rows, c, o) && Formation(rows, Write(c, o)) && Holds(p, rows, prefix, rank)
    ensures Fits(rows, o) && Holds(p, Written(p, rows, c, o), prefix, rank)
  {
    OutcomeFits(p, rows, c, o);
    var after := Written(p, rows, c, o);
    var i :| 0 <= i < |rows| && rows[i].status.Active? && rows[i].claim.prefix == prefix && Rank(p, rows[i]) >= rank;
    if o.Replaced? && i in o.targets {
      TargetsAreOutranked(p, rows, c, o, i);
      assert after[|rows|].status.Active? && after[|rows|].claim == c.claim;
      assert Rank(p, after[|rows|]) >= rank;
    } else {
      hide IsOutcome, Rival, Sibling;
      assert after[i].status.Active? && after[i].claim == rows[i].claim;
      assert Rank(p, after[i]) >= rank;
    }
  }

  lemma RejectKeepsAuthority(p: Policy, rows: seq<Row>, i: nat, prefix: string, rank: nat)
    requires i < |rows| && Holds(p, rows, prefix, rank)
    ensures Holds(p, Declined(rows, i), prefix, rank)
  {
    var after := Declined(rows, i);
    var j :| 0 <= j < |rows| && rows[j].status.Active? && rows[j].claim.prefix == prefix && Rank(p, rows[j]) >= rank;
    assert after[j].status.Active? && after[j].claim == rows[j].claim && Rank(p, after[j]) >= rank;
  }

  /** However many candidates arrive, formation never lowers the authority behind
      current truth: that takes an approval, an archive, a restoration or a repair. */
  lemma {:induction false} AuthorityNeverSinks(p: Policy, rows: seq<Row>, run: seq<Tick>, prefix: string, rank: nat)
    requires p.gateLower && Legal(p, rows, run) && AllFormation(p, rows, run) && Holds(p, rows, prefix, rank)
    ensures Holds(p, Ending(p, rows, run), prefix, rank)
    decreases |run|
  {
    hide IsOutcome, Holds, Written;
    if run != [] {
      var step, after := run[0].step, After(p, rows, run[0].now, run[0].step);
      if step.Write? {
        WriteKeepsAuthority(p, rows, step.c, step.o, prefix, rank);
      } else {
        RejectKeepsAuthority(p, rows, step.i, prefix, rank);
      }
      AuthorityNeverSinks(p, after, run[1..], prefix, rank);
    }
  }

  // ------------------------------------------- displacing a higher authority

  /** Current truth has given way to a row of lower authority that no operator approved. */
  ghost predicate Usurped(p: Policy, rows: seq<Row>, after: seq<Row>) {
    exists i, s :: 0 <= i < |rows| && i < |after| && UsurpedBy(p, rows, after, i, s)
  }

  ghost predicate UsurpedBy(p: Policy, rows: seq<Row>, after: seq<Row>, i: nat, s: nat)
    requires i < |rows| && i < |after|
  {
    && rows[i].status.Active? && after[i].status.Superseded? && after[i].successor == Some(s) && s < |after|
    && Rank(p, after[s]) < Rank(p, rows[i]) && after[s].resolution != Some(OperatorApproved)
  }

  /** A write with the authority gate switched off, or a repair whose winner ranks below
      a row it displaces: the repair looks at starts and confidence, never at authority. */
  ghost predicate Overreaches(p: Policy, rows: seq<Row>, now: Time, step: Step) {
    match step
    case Write(c, o) =>
      !p.gateLower && o.Replaced? && exists t :: t in o.targets && t < |rows| && Rank(p, rows[t]) > p.rank(c.claim.authority)
    case Repair(key, w, approved) =>
      w < |rows| && rows[w].resolution != Some(OperatorApproved) &&
      exists j :: 0 <= j < |rows| && j != w && j in approved && Contends(rows[j], key, now) && Rank(p, rows[j]) > Rank(p, rows[w])
    case _ => false
  }

  lemma WriteUsurpsExactly(p: Policy, rows: seq<Row>, now: Time, c: Candidate, o: Outcome)
    requires IsOutcome(p, rows, c, o)
    ensures Fits(rows, o) && (Usurped(p, rows, Written(p, rows, c, o)) <==> Overreaches(p, rows, now, Write(c, o)))
  {
    OutcomeFits(p, rows, c, o);
    var after := Written(p, rows, c, o);
    if p.gateLower && o.Replaced? {
      forall t | t in o.targets ensures Rank(p, rows[t]) <= p.rank(c.claim.authority) { TargetsAreOutranked(p, rows, c, o, t); }
    }
    hide IsOutcome, Rival, Sibling;
    if t :| o.Replaced? && t in o.targets && Rank(p, rows[t]) > p.rank(c.claim.authority) {
      assert UsurpedBy(p, rows, after, t, |rows|);
    }
  }

  lemma RepairUsurpsExactly(p: Policy, rows: seq<Row>, now: Time, key: string, w: nat, approved: set<nat>)
    requires w < |rows|
    ensures Usurped(p, rows, Repaired(rows, key, now, w, approved)) <==> Overreaches(p, rows, now, Repair(key, w, approved))
  {
    var after := Repaired(rows, key, now, w, approved);
    assert after[w] == rows[w] && forall j :: 0 <= j < |rows| ==> Rank(p, after[j]) == Rank(p, rows[j]);
    if j :| 0 <= j < |rows| && j != w && j in approved && Contends(rows[j], key, now) && Rank(p, rows[j]) > Rank(p, rows[w])
            && rows[w].resolution != Some(OperatorApproved) {
      assert UsurpedBy(p, rows, after, j, w);
    }
  }

  lemma OthersUsurpNothing(p: Policy, rows: seq<Row>, now: Time, step: Step)
    requires Allowed(p, rows, now, step) && !step.Write? && !step.Repair?
    ensures !Usurped(p, rows, After(p, rows, now, step))
  {
    var after := After(p, rows, now, step);
    assert forall i :: 0 <= i < |rows| && rows[i].status.Active? && after[i].status.Superseded? ==>
      step.Approve? && after[i].successor == Some(step.i) && after[step.i].resolution == Some(OperatorApproved);
  }

  lemma StepUsurpsExactly(p: Policy, rows: seq<Row>, now: Time, step: Step)
    requires Allowed(p, rows, now, step)
    ensures Usurped(p, rows, After(p, rows, now, step)) <==> Overreaches(p, rows, now, step)
  {
    hide IsOutcome, Written, Repaired, Usurped, Overreaches, Outranks;
    match step
    case Write(c, o) => WriteUsurpsExactly(p, rows, now, c, o);
    case Repair(key, w, approved) => RepairUsurpsExactly(p, rows, now, key, w, approved);
    case _ =>
      OthersUsurpNothing(p, rows, now, step);
      NeverOverreaches(p, rows, now, step);
  }

  lemma NeverOverreaches(p: Policy, rows: seq<Row>, now: Time, step: Step)
    requires !step.Write? && !step.Repair?
    ensures !Overreaches(p, rows, now, step)
  {
  }

  ghost predicate NeverUsurped(p: Policy, rows: seq<Row>, run: seq<Tick>)
    decreases |run|
  {
    run == [] ||
    var after := After(p, rows, run[0].now, run[0].step);
    !Usurped(p, rows, after) && NeverUsurped(p, after, run[1..])
  }

  ghost predicate NoneOverreaches(p: Policy, rows: seq<Row>, run: seq<Tick>)
    decreases |run|
  {
    run == [] || (!Overreaches(p, rows, run[0].now, run[0].step)
                  && NoneOverreaches(p, After(p, rows, run[0].now, run[0].step), run[1..]))
  }

  /** Over any run of every kind of step, lower authority never displaces current truth
      unapproved exactly when no write goes ungated and no repair prefers a lower voice. */
  lemma {:induction false} AuthorityRespectedExactly(p: Policy, rows: seq<Row>, run: seq<Tick>)
    requires Legal(p, rows, run)
    ensures NeverUsurped(p, rows, run) <==> NoneOverreaches(p, rows, run)
    decreases |run|
  {
    hide Allowed, After, Usurped, Overreaches;
    if run != [] {
      StepUsurpsExactly(p, rows, run[0].now, run[0].step);
      AuthorityRespectedExactly(p, After(p, rows, run[0].now, run[0].step), run[1..]);
    }
  }

  // ----------------------------------------------------------- corroboration

  /** The same permanent statement made again. */
  predicate Repeats(a: Candidate, b: Candidate) {
    a.claim == b.claim && a.verbatim == b.verbatim && a.until.None? && b.until.None?
  }

  /** An established row faces one challenge, of equal authority and of a kind that
      recency does not settle, with `k` observations of it parked so far. */
  ghost predicate Contested(p: Policy, rows: seq<Row>, inc: nat, c: Candidate, k: nat) {
    && inc < |rows| && Established(p, rows[inc], c) && c.until.None? && c.claim.kind !in p.recencyKinds
    && (forall i :: 0 <= i < |rows| ==> (Rival(p, rows[i], c) <==> i == inc) && !Reinforceable(p, rows[i], c))
    && |Siblings(p, rows, c)| == k
  }

  /** The rules look at what a candidate states, not at when or how surely. */
  lemma RepeatsAreAlike(p: Policy, row: Row, c: Candidate, d: Candidate)
    requires Repeats(c, d)
    ensures Sibling(p, row, d) <==> Sibling(p, row, c)
    ensures Rival(p, row, d) <==> Rival(p, row, c)
    ensures Reinforceable(p, row, d) <==> Reinforceable(p, row, c)
  {
  }

  lemma ConfidenceAside(p: Policy, row: Row, confidence: real, c: Candidate)
    ensures var after := row.(confidence := confidence);
      && (Sibling(p, after, c) <==> Sibling(p, row, c)) && (Rival(p, after, c) <==> Rival(p, row, c))
      && (Reinforceable(p, after, c) <==> Reinforceable(p, row, c))
      && (Established(p, after, c) <==> Established(p, row, c))
  {
  }

  lemma ContestedFits(p: Policy, rows: seq<Row>, inc: nat, c: Candidate, d: Candidate, k: nat)
    requires Contested(p, rows, inc, c, k) && Repeats(c, d)
    ensures Contested(p, rows, inc, d, k) && Siblings(p, rows, d) == Siblings(p, rows, c)
  {
    hide Sibling, Rival, Reinforceable;
    forall i | 0 <= i < |rows|
      ensures Sibling(p, rows[i], d) <==> Sibling(p, rows[i], c)
      ensures Rival(p, rows[i], d) <==> Rival(p, rows[i], c)
      ensures Reinforceable(p, rows[i], d) <==> Reinforceable(p, rows[i], c)
    {
      RepeatsAreAlike(p, rows[i], c, d);
    }
    assert Siblings(p, rows, d) == Siblings(p, rows, c);
  }

  /** The challenge is parked until its last required observation, which wins. */
  lemma ChallengeDecided(p: Policy, rows: seq<Row>, inc: nat, c: Candidate, k: nat, o: Outcome)
    requires Contested(p, rows, inc, c, k) && IsOutcome(p, rows, c, o) && rows[inc].start <= Observed(c)
    ensures k + 1 < p.required ==> o == Parked(inc, InsufficientCorroboration)
    ensures k + 1 >= p.required ==> o == Replaced({inc}, {}, Siblings(p, rows, c))
  {
    hide Near, Compatible, Siblings, Rival, Paraphrase, Exact;
    assert Rivals(p, rows, c) == {inc};
    assert Rival(p, rows[inc], c) && !Later(p, rows[inc], c);
    assert Blocked(p, rows[inc], c, k + 1).Some? <==> k + 1 < p.required;
    if o.Replaced? { assert o.bypassed == {}; assert inc in o.targets && Established(p, rows[inc], c); }
  }

  lemma ParkedIsSibling(p: Policy, rows: seq<Row>, c: Candidate, o: Outcome)
    requires o.Parked? && o.reason.InsufficientCorroboration?
    ensures var row := Inserted(rows, c, o);
      Sibling(p, row, c) && !Rival(p, row, c) && !Reinforceable(p, row, c)
  {
    hide Near, Compatible;
  }

  lemma ParkedRow(p: Policy, rows: seq<Row>, inc: nat, c: Candidate, i: nat)
    requires i < |rows| && inc < |rows|
    ensures var row := Written(p, rows, c, Parked(inc, InsufficientCorroboration))[i];
      && (Sibling(p, row, c) <==> Sibling(p, rows[i], c)) && (Rival(p, row, c) <==> Rival(p, rows[i], c))
      && (Reinforceable(p, row, c) <==> Reinforceable(p, rows[i], c))
      && (Established(p, row, c) <==> Established(p, rows[i], c)) && row.start == rows[i].start
  {
    hide Sibling, Rival, Reinforceable, Established, Inserted;
    var row := Written(p, rows, c, Parked(inc, InsufficientCorroboration))[i];
    assert row == rows[i].(confidence := row.confidence);
    ConfidenceAside(p, rows[i], row.confidence, c);
  }

  lemma ParkedSiblings(p: Policy, rows: seq<Row>, inc: nat, c: Candidate)
    requires inc < |rows|
    ensures Siblings(p, Written(p, rows, c, Parked(inc, InsufficientCorroboration)), c) == Siblings(p, rows, c) + {|rows|}
    ensures |rows| !in Siblings(p, rows, c)
  {
    var o := Parked(inc, InsufficientCorroboration);
    var after := Written(p, rows, c, o);
    assert after[|rows|] == Inserted(rows, c, o);
    hide Sibling, Written, Inserted;
    ParkedIsSibling(p, rows, c, o);
    forall i | 0 <= i < |rows|
      ensures Sibling(p, after[i], c) <==> Sibling(p, rows[i], c)
    {
      ParkedRow(p, rows, inc, c, i);
    }
  }

  lemma ParkedAgain(p: Policy, rows: seq<Row>, inc: nat, c: Candidate, k: nat)
    requires Contested(p, rows, inc, c, k)
    ensures var o := Parked(inc, InsufficientCorroboration);
      Contested(p, Written(p, rows, c, o), inc, c, k + 1) && Written(p, rows, c, o)[inc].start == rows[inc].start
  {
    var o := Parked(inc, InsufficientCorroboration);
    var after := Written(p, rows, c, o);
    ParkedIsSibling(p, rows, c, o);
    ParkedSiblings(p, rows, inc, c);
    assert after[|rows|] == Inserted(rows, c, o);
    hide Sibling, Siblings, Rival, Reinforceable, Established, Inserted, Written;
    forall i | 0 <= i < |rows|
      ensures (Rival(p, after[i], c) <==> i == inc) && !Reinforceable(p, after[i], c)
    {
      ParkedRow(p, rows, inc, c, i);
    }
    ParkedRow(p, rows, inc, c, inc);
  }

  ghost predicate Repeating(run: seq<Tick>, c: Candidate, since: Time) {
    forall j :: 0 <= j < |run| ==> run[j].step.Write? && Repeats(c, run[j].step.c) && since <= Observed(run[j].step.c)
  }

  /** What the n-th observation of the challenge does. */
  predicate Withstands(step: Step, inc: nat, n: nat, required: nat) {
    step.Write?
    && if n < required then step.o == Parked(inc, InsufficientCorroboration)
       else step.o.Replaced? && step.o.targets == {inc} && |step.o.siblings| == n - 1
  }

  /** An established fact withstands exactly `required - 1` observations of the same
      challenge and yields to the next. The count is of parked rows: nothing asks
      that they come from different episodes. */
  lemma {:induction false} YieldsExactly(p: Policy, rows: seq<Row>, inc: nat, c: Candidate, k: nat, run: seq<Tick>)
    requires Contested(p, rows, inc, c, k) && Repeating(run, c, rows[inc].start)
    requires Legal(p, rows, run) && k + |run| <= p.required
    ensures forall j :: 0 <= j < |run| ==> Withstands(run[j].step, inc, k + j + 1, p.required)
    decreases |run|
  {
    hide Contested, IsOutcome, Written, Siblings;
    if run != [] {
      var d, o := run[0].step.c, run[0].step.o;
      ContestedFits(p, rows, inc, c, d, k);
      ChallengeDecided(p, rows, inc, d, k, o);
      if k + 1 < p.required {
        ParkedAgain(p, rows, inc, d, k);
        var after := After(p, rows, run[0].now, run[0].step);
        assert forall j :: 0 <= j < |run[1..]| ==> run[1..][j] == run[j + 1];
        YieldsExactly(p, after, inc, d, k + 1, run[1..]);
        assert forall j :: 0 < j < |run| ==> run[j] == run[1..][j - 1];
      } else {
        SiblingCount(p, rows, inc, d, k);
      }
    }
  }

  lemma SiblingCount(p: Policy, rows: seq<Row>, inc: nat, c: Candidate, k: nat)
    requires Contested(p, rows, inc, c, k)
    ensures |Siblings(p, rows, c)| == k
  {
    hide Siblings, Rival, Reinforceable;
  }

  // ------------------------------------------------------------------ recency

  /** The recency bypass judges a candidate by its own episode: what it closes
      started no later than the episode, and it closes no later either. */
  lemma BypassIsClamped(p: Policy, rows: seq<Row>, c: Candidate, o: Outcome, t: nat)
    requires IsOutcome(p, rows, c, o) && o.Replaced? && t in o.bypassed
    ensures t < |rows| && rows[t].start <= c.reference && p.rank(c.claim.authority) >= Rank(p, rows[t])
    ensures Fits(rows, o) && Written(p, rows, c, o)[t].end.Some?
    ensures rows[t].start <= Written(p, rows, c, o)[t].end.value <= c.reference
  {
    OutcomeFits(p, rows, c, o);
    hide Near, Compatible, Siblings, Reinforceable;
    assert t in o.targets && Rival(p, rows[t], c);
    assert Bypasses(p, rows[t], c);
  }

  /** A backfilled fact changes nothing that is stored and ends before what follows
      it, whatever its authority. */
  lemma BackfillDisplacesNothing(p: Policy, rows: seq<Row>, c: Candidate, o: Outcome, i: nat)
    requires IsOutcome(p, rows, c, o) && i < |rows| && Later(p, rows[i], c) && !o.Reinforced?
    ensures o.Historical? && Fits(rows, o)
    ensures Written(p, rows, c, o)[..|rows|] == rows
    ensures var row := Written(p, rows, c, o)[|rows|];
      row.status.Superseded? && row.end.Some? && row.end.value <= rows[i].start && row.claim == c.claim
  {
    hide Near, Compatible, Siblings, Reinforceable, Rival;
    assert Written(p, rows, c, o)[..|rows|] == rows;
  }

  /** A correction that outranks every rival takes the slot exactly when no rival
      claims a later start: the gate never holds it, but a start in the future does. */
  lemma CorrectionLandsExactly(p: Policy, rows: seq<Row>, c: Candidate, o: Outcome)
    requires IsOutcome(p, rows, c, o) && !o.Reinforced?
    requires forall i :: 0 <= i < |rows| && Rival(p, rows[i], c) ==> Rank(p, rows[i]) < p.rank(c.claim.authority)
    ensures o.Replaced? <==> forall i :: 0 <= i < |rows| ==> !Later(p, rows[i], c)
  {
    hide Near, Compatible, Siblings, Reinforceable, Rival;
  }
}
