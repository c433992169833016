/** One current fact per single-active slot: which steps keep it, exactly, and how
    the repair restores it. */
module TruthSettled {
  import opened Ids
  import opened TruthSlots

  /** No single-active slot shows two facts at once. */
  ghost predicate Settled(rows: seq<Row>, now: Time) {
    forall i, j :: 0 <= i < j < |rows| ==>
      !(Current(rows[i], now) && rows[i].claim.cardinality.SingleActive? && Contends(rows[j], rows[i].claim.key, now))
  }

  ghost predicate Taken(rows: seq<Row>, claim: Claim, now: Time) {
    claim.cardinality.SingleActive? && exists i :: 0 <= i < |rows| && Contends(rows[i], claim.key, now)
  }

  /** The caller's check: a step that puts a row in force must find its slot free.
      Writing a new row only meets rows that say the same thing under the other
      authority class; reviving meets whoever took the slot meanwhile; restoring
      meets a slot its frozen key no longer names. */
  ghost predicate LeavesOne(rows: seq<Row>, now: Time, step: Step) {
    match step
    case Write(c, o) =>
      o.Replaced? && Current(Plain(c), now) && c.claim.cardinality.SingleActive? ==>
        forall i :: 0 <= i < |rows| && Contends(rows[i], c.claim.key, now) ==> rows[i].claim.value != c.claim.value
    case Revive(i) =>
      i < |rows| && rows[i].claim.cardinality.SingleActive? ==>
        forall j :: 0 <= j < |rows| && j != i ==> !Contends(rows[j], rows[i].claim.key, now)
    case Restore(i, b) =>
      IsPredecessor(rows, i, b) && rows[i].end.Some? && rows[b].claim.cardinality.SingleActive?
      && Current(Restored(rows, i, b)[|rows|], now) ==>
        forall j :: 0 <= j < |rows| ==> !Contends(rows[j], rows[b].claim.key, now)
    case _ => true
  }

  /** Rows keep what they claim, and none but `root` newly comes into force. */
  ghost predicate OnlyAdmits(rows: seq<Row>, after: seq<Row>, now: Time, root: nat) {
    && |rows| <= |after| <= |rows| + 1 && root < |after|
    && (forall j :: 0 <= j < |rows| ==> after[j].claim == rows[j].claim)
    && forall j :: 0 <= j < |after| && j != root && Current(after[j], now) ==>
         j < |rows| && Current(rows[j], now)
  }

  /** Then the slots stay settled exactly when nobody else holds the root's slot. */
  lemma AdmittingExactly(rows: seq<Row>, after: seq<Row>, now: Time, root: nat)
    requires Settled(rows, now) && OnlyAdmits(rows, after, now, root)
    ensures Settled(after, now) <==>
      (Current(after[root], now) && after[root].claim.cardinality.SingleActive? ==>
         forall j :: 0 <= j < |after| && j != root ==> !Contends(after[j], after[root].claim.key, now))
  {
    if Settled(after, now) && Current(after[root], now) && after[root].claim.cardinality.SingleActive? {
      forall j | 0 <= j < |after| && j != root
        ensures !Contends(after[j], after[root].claim.key, now)
      {
        var low, high := if j < root then j else root, if j < root then root else j;
        assert 0 <= low < high < |after|;
      }
    }
    if !Settled(after, now) {
      var i, j :| 0 <= i < j < |after| && Current(after[i], now) && after[i].claim.cardinality.SingleActive?
        && Contends(after[j], after[i].claim.key, now);
      assert i == root || j == root;
    }
  }

  lemma WriteAdmits(p: Policy, rows: seq<Row>, now: Time, c: Candidate, o: Outcome) returns (root: nat)
    requires IsOutcome(p, rows, c, o)
    ensures Fits(rows, o) && OnlyAdmits(rows, Written(p, rows, c, o), now, root)
    ensures root == if o.Reinforced? then o.target else |rows|
    ensures o.Reinforced? ==> Current(Written(p, rows, c, o)[root], now) == Current(rows[root], now)
  {
    OutcomeFits(p, rows, c, o);
    hide IsOutcome, Rival, Sibling, Touched, Inserted;
    root := if o.Reinforced? then o.target else |rows|;
    if !o.Reinforced? {
      forall j | 0 <= j < |rows|
        ensures Written(p, rows, c, o)[j] == Touched(p, rows[j], j, |rows|, c, o)
        ensures Written(p, rows, c, o)[j].claim == rows[j].claim
        ensures Current(Written(p, rows, c, o)[j], now) ==> Current(rows[j], now)
      {
        TouchedKeeps(p, rows[j], j, |rows|, c, o);
      }
    }
  }

  /** A replacement meets exactly the rows that repeat its own statement. */
  lemma ReplacementMeets(p: Policy, rows: seq<Row>, now: Time, c: Candidate, o: Outcome, j: nat)
    requires IsOutcome(p, rows, c, o) && o.Replaced? && c.claim.cardinality.SingleActive? && j < |rows|
    ensures Fits(rows, o)
    ensures Contends(Written(p, rows, c, o)[j], c.claim.key, now) <==>
      Contends(rows[j], c.claim.key, now) && rows[j].claim.value == c.claim.value
  {
    OutcomeFits(p, rows, c, o);
    assert j in o.targets <==> Rival(p, rows[j], c);
    hide IsOutcome;
    assert j in o.siblings ==> rows[j].status.Superseded?;
  }

  lemma WriteSettlesExactly(p: Policy, rows: seq<Row>, now: Time, c: Candidate, o: Outcome)
    requires IsOutcome(p, rows, c, o) && Settled(rows, now)
    ensures Fits(rows, o) && (Settled(Written(p, rows, c, o), now) <==> LeavesOne(rows, now, Write(c, o)))
  {
    var root := WriteAdmits(p, rows, now, c, o);
    var after := Written(p, rows, c, o);
    AdmittingExactly(rows, after, now, root);
    if o.Reinforced? {
      assert forall j :: 0 <= j < |rows| && j != root ==> after[j] == rows[j];
      AdmittingExactly(rows, rows, now, root);
    } else if o.Replaced? && c.claim.cardinality.SingleActive? {
      assert Current(after[root], now) == Current(Plain(c), now) && after[root].claim == c.claim;
      forall j: nat | j < |rows|
        ensures Contends(after[j], c.claim.key, now) <==>
          Contends(rows[j], c.claim.key, now) && rows[j].claim.value == c.claim.value
      {
        ReplacementMeets(p, rows, now, c, o, j);
      }
    } else {
      assert Current(after[root], now) ==> !after[root].claim.cardinality.SingleActive?;
    }
  }

  lemma ApproveSettles(rows: seq<Row>, now: Time, i: nat)
    requires i < |rows| && Settled(rows, now)
    ensures Settled(Approved(rows, i, now), now)
  {
    var after := Approved(rows, i, now);
    AdmittingExactly(rows, after, now, i);
    forall j | 0 <= j < |rows| && j != i
      ensures !Contends(after[j], rows[i].claim.key, now)
    {
      assert Contends(rows[j], rows[i].claim.key, now) ==> j in OnKey(rows, i);
    }
  }

  lemma RestoreSettlesExactly(rows: seq<Row>, now: Time, i: nat, b: nat)
    requires Restorable(rows, i, b, now) && Settled(rows, now)
    ensures Settled(Restored(rows, i, b), now) <==> LeavesOne(rows, now, Restore(i, b))
  {
    var after := Restored(rows, i, b);
    AdmittingExactly(rows, after, now, |rows|);
    assert forall j, key :: 0 <= j < |rows| ==> (Contends(after[j], key, now) <==> Contends(rows[j], key, now));
  }

  lemma OthersSettle(p: Policy, rows: seq<Row>, now: Time, step: Step)
    requires Allowed(p, rows, now, step) && Settled(rows, now)
    requires step.Reject? || step.Archive? || step.Repair?
    ensures Settled(After(p, rows, now, step), now)
  {
    hide Outranks;
    var after := After(p, rows, now, step);
    assert forall j :: 0 <= j < |rows| ==>
      after[j].claim == rows[j].claim && (Current(after[j], now) ==> Current(rows[j], now));
  }

  lemma ReviveSettlesExactly(rows: seq<Row>, now: Time, i: nat)
    requires i < |rows| && Settled(rows, now)
    ensures Settled(Revived(rows, i), now) <==> LeavesOne(rows, now, Revive(i))
  {
    var after := Revived(rows, i);
    AdmittingExactly(rows, after, now, i);
    assert forall j :: 0 <= j < |rows| && j != i ==> after[j] == rows[j];
  }

  /** A settled store stays settled exactly when the step passes its check. */
  lemma StepSettlesExactly(p: Policy, rows: seq<Row>, now: Time, step: Step)
    requires Allowed(p, rows, now, step) && Settled(rows, now)
    ensures Settled(After(p, rows, now, step), now) <==> LeavesOne(rows, now, step)
  {
    hide IsOutcome, Settled, Written, Approved, Restored, Revived, Restorable;
    match step
    case Write(c, o) => WriteSettlesExactly(p, rows, now, c, o);
    case Approve(i) => ApproveSettles(rows, now, i);
    case Restore(i, b) => RestoreSettlesExactly(rows, now, i, b);
    case Revive(i) => ReviveSettlesExactly(rows, now, i);
    case _ => OthersSettle(p, rows, now, step);
  }

  /** Time alone only takes facts out of force. */
  lemma TimeSettles(rows: seq<Row>, now: Time, later: Time)
    requires Settled(rows, now) && now <= later
    ensures Settled(rows, later)
  {
    assert forall i, key :: 0 <= i < |rows| && Contends(rows[i], key, later) ==> Contends(rows[i], key, now);
  }

  ghost predicate ClockRuns(now: Time, run: seq<Tick>)
    decreases |run|
  {
    run == [] || (now <= run[0].now && ClockRuns(run[0].now, run[1..]))
  }

  ghost predicate AlwaysSettled(p: Policy, rows: seq<Row>, now: Time, run: seq<Tick>)
    decreases |run|
  {
    Settled(rows, now)
    && (run == [] || AlwaysSettled(p, After(p, rows, run[0].now, run[0].step), run[0].now, run[1..]))
  }

  ghost predicate AllLeaveOne(p: Policy, rows: seq<Row>, run: seq<Tick>)
    decreases |run|
  {
    run == [] || (LeavesOne(rows, run[0].now, run[0].step)
                  && AllLeaveOne(p, After(p, rows, run[0].now, run[0].step), run[1..]))
  }

  /** Over any run, a single-active slot never shows two facts at once exactly when
      every step passes its check. */
  lemma {:induction false} OneFactExactly(p: Policy, rows: seq<Row>, now: Time, run: seq<Tick>)
    requires Legal(p, rows, run) && ClockRuns(now, run) && Settled(rows, now)
    ensures AlwaysSettled(p, rows, now, run) <==> AllLeaveOne(p, rows, run)
    decreases |run|
  {
    hide Allowed, After, Settled, LeavesOne;
    if run != [] {
      TimeSettles(rows, now, run[0].now);
      StepSettlesExactly(p, rows, run[0].now, run[0].step);
      var after := After(p, rows, run[0].now, run[0].step);
      if Settled(after, run[0].now) {
        OneFactExactly(p, after, run[0].now, run[1..]);
      } else {
        assert !AlwaysSettled(p, after, run[0].now, run[1..]);
      }
    }
  }

  // ------------------------------------------------------------- the repair

  /** A fully approved repair leaves the winner alone in its slot and every other
      slot as it was. */
  lemma RepairSettles(rows: seq<Row>, key: string, now: Time, w: nat, approved: set<nat>)
    requires IsWinner(rows, key, now, w)
    requires forall j :: 0 <= j < |rows| && Contends(rows[j], key, now) ==> j in approved
    ensures var after := Repaired(rows, key, now, w, approved);
      && (forall j :: 0 <= j < |rows| ==> (Contends(after[j], key, now) <==> j == w))
      && (forall j :: 0 <= j < |rows| && !Contends(rows[j], key, now) ==> after[j] == rows[j])
      && after[w] == rows[w]
      && forall j :: 0 <= j < |rows| && j != w && Contends(rows[j], key, now) ==>
           after[j].successor == Some(w) && after[j].end == Some(rows[w].start) && rows[j].start <= rows[w].start
  {
    assert Contends(rows[w], key, now);
  }

  /** Repairing again finds nothing to do, whoever it would name as the winner. */
  lemma RepairIsIdempotent(rows: seq<Row>, key: string, now: Time, w: nat, approved: set<nat>, w2: nat, more: set<nat>)
    requires IsWinner(rows, key, now, w)
    requires forall j :: 0 <= j < |rows| && Contends(rows[j], key, now) ==> j in approved
    requires IsWinner(Repaired(rows, key, now, w, approved), key, now, w2)
    ensures w2 == w
    ensures Repaired(Repaired(rows, key, now, w, approved), key, now, w2, more) == Repaired(rows, key, now, w, approved)
  {
    RepairSettles(rows, key, now, w, approved);
    hide IsWinner, Outranks;
    var once := Repaired(rows, key, now, w, approved);
    assert w2 == w by { assert IsWinner(once, key, now, w2) ==> Contends(once[w2], key, now); }
    var twice := Repaired(once, key, now, w, more);
    assert forall j :: 0 <= j < |rows| ==> twice[j] == once[j];
  }

  /** Of the facts in force in one slot, there is always a winner, and only one. */
  lemma {:induction false} WinnerExists(rows: seq<Row>, key: string, now: Time, some: nat) returns (w: nat)
    requires some < |rows| && Contends(rows[some], key, now)
    ensures IsWinner(rows, key, now, w)
    ensures forall v :: IsWinner(rows, key, now, v) ==> v == w
  {
    w := some;
    var n := 0;
    while n < |rows|
      invariant 0 <= n <= |rows| && w < |rows| && Contends(rows[w], key, now)
      invariant forall j :: 0 <= j < n && j != w && Contends(rows[j], key, now) ==> Outranks(rows, w, j)
    {
      if n != w && Contends(rows[n], key, now) && !Outranks(rows, w, n) {
        w := n;
      }
      n := n + 1;
    }
  }
}
