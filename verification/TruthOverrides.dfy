/** Temporary facts: exactly when the slot shows the usual fact again after an override
    has run out, and what it then shows. */
module TruthOverrides {
  import opened Ids
  import opened TruthSlots

  ghost predicate HidesSlot(rows: seq<Row>, row: Row) {
    forall b: nat {:trigger b in row.overrides} :: b in row.overrides ==> b < |rows| && rows[b].claim.key == row.claim.key
  }

  /** What an override hid stood in the same slot. */
  ghost predicate OverridesFit(rows: seq<Row>) {
    forall i: nat :: i < |rows| ==> HidesSlot(rows, rows[i])
  }

  /** Rows keep what they claim and hide; one more may join that fits. */
  ghost predicate KeepsOverrides(rows: seq<Row>, after: seq<Row>) {
    && |rows| <= |after| <= |rows| + 1
    && (forall j :: 0 <= j < |rows| ==> after[j].claim == rows[j].claim && after[j].overrides == rows[j].overrides)
    && (|rows| < |after| ==> HidesSlot(rows, after[|rows|]))
  }

  lemma KeptOverridesFit(rows: seq<Row>, after: seq<Row>)
    requires OverridesFit(rows) && KeepsOverrides(rows, after)
    ensures OverridesFit(after)
  {
    forall i: nat | i < |after| ensures HidesSlot(after, after[i]) {
      assert HidesSlot(rows, if i < |rows| then rows[i] else after[i]);
    }
  }

  lemma InsertedHides(p: Policy, rows: seq<Row>, c: Candidate, o: Outcome)
    requires IsOutcome(p, rows, c, o)
    ensures Fits(rows, o) && HidesSlot(rows, Inserted(rows, c, o)) && Inserted(rows, c, o).claim == c.claim
  {
    OutcomeFits(p, rows, c, o);
    hide IsOutcome, Sibling, Near;
    if o.Replaced? && c.claim.cardinality.SingleActive? {
      assert forall i :: i in o.targets ==> rows[i].claim.key == c.claim.key;
    }
  }

  lemma TouchedHides(p: Policy, row: Row, i: nat, newest: nat, c: Candidate, o: Outcome)
    ensures Touched(p, row, i, newest, c, o).claim == row.claim && Touched(p, row, i, newest, c, o).overrides == row.overrides
  {
  }

  lemma WriteKeepsOverrides(p: Policy, rows: seq<Row>, c: Candidate, o: Outcome)
    requires IsOutcome(p, rows, c, o)
    ensures Fits(rows, o) && KeepsOverrides(rows, Written(p, rows, c, o))
  {
    InsertedHides(p, rows, c, o);
    hide IsOutcome, Touched, Inserted, HidesSlot;
    var after := Written(p, rows, c, o);
    forall j | 0 <= j < |rows| ensures after[j].claim == rows[j].claim && after[j].overrides == rows[j].overrides {
      TouchedHides(p, rows[j], j, |rows|, c, o);
    }
  }

  lemma StepKeepsOverrides(p: Policy, rows: seq<Row>, now: Time, step: Step)
    requires Allowed(p, rows, now, step) && OverridesFit(rows)
    ensures OverridesFit(After(p, rows, now, step))
  {
    hide IsOutcome, Written, Incumbents, OverridesFit;
    match step
    case Write(c, o) =>
      WriteKeepsOverrides(p, rows, c, o);
      KeptOverridesFit(rows, Written(p, rows, c, o));
    case _ =>
      OthersKeepOverrides(p, rows, now, step);
      KeptOverridesFit(rows, After(p, rows, now, step));
  }

  lemma OthersKeepOverrides(p: Policy, rows: seq<Row>, now: Time, step: Step)
    requires Allowed(p, rows, now, step) && OverridesFit(rows) && !step.Write?
    ensures KeepsOverrides(rows, After(p, rows, now, step))
  {
    hide Incumbents, Outranks;
    var after := After(p, rows, now, step);
    if step.Restore? {
      assert HidesSlot(rows, rows[step.base]);
    }
  }

  lemma {:induction false} RunKeepsOverrides(p: Policy, rows: seq<Row>, run: seq<Tick>)
    requires Legal(p, rows, run) && OverridesFit(rows)
    ensures OverridesFit(Ending(p, rows, run))
    decreases |run|
  {
    hide Allowed, After, OverridesFit;
    if run != [] {
      StepKeepsOverrides(p, rows, run[0].now, run[0].step);
      RunKeepsOverrides(p, After(p, rows, run[0].now, run[0].step), run[1..]);
    }
  }

  /** The rows in force in a slot. */
  ghost function Showing(rows: seq<Row>, key: string, now: Time): set<nat> {
    set j: nat | 0 <= j < |rows| && rows[j].claim.key == key && Current(rows[j], now)
  }

  /** An override that has run out and has not been followed by a restoration, in a slot
      that nothing else has taken. */
  ghost predicate RanOut(rows: seq<Row>, i: nat, now: Time) {
    && i < |rows| && rows[i].status.Active? && Lapsed(rows[i], now) && !rows[i].restored
    && Showing(rows, rows[i].claim.key, now) == {}
  }

  /** Whether the stored bound of what was hidden lies beyond *t*. */
  predicate Beyond(was: Option<Time>, t: Time) { was.None? || was.value > t }

  lemma FreeIs(rows: seq<Row>, i: nat, now: Time)
    requires RanOut(rows, i, now)
    ensures forall j :: 0 <= j < |rows| && rows[j].claim.key == rows[i].claim.key ==> !Current(rows[j], now)
  {
    forall j: nat | j < |rows|
      ensures rows[j].claim.key == rows[i].claim.key && Current(rows[j], now) <==> j in Showing(rows, rows[i].claim.key, now)
    {
    }
  }

  /** In every run, when a temporary fact has run out: the fact it hid may be restored
      exactly when that was unbounded or bounded beyond the override's own end, no
      other fact may be; and from then on the slot shows it, from the override's end to
      its old bound and nothing else beside it, exactly while that bound lies ahead. */
  lemma OverrideEndsExactly(p: Policy, run: seq<Tick>, i: nat, b: nat, now: Time)
    requires Legal(p, [], run) && RanOut(Ending(p, [], run), i, now) && IsPredecessor(Ending(p, [], run), i, b)
    ensures var rows := Ending(p, [], run);
            var was, after := rows[i].overrides[b], After(p, rows, now, Restore(i, b));
            && (Allowed(p, rows, now, Restore(i, b)) <==> Beyond(was, rows[i].end.value))
            && (forall other: nat :: other != b ==> !Allowed(p, rows, now, Restore(i, other)))
            && (Allowed(p, rows, now, Restore(i, b)) ==>
                  && |after| == |rows| + 1 && after[|rows|].claim == rows[b].claim
                  && after[|rows|].start == rows[i].end.value && after[|rows|].end == was)
            && Showing(after, rows[i].claim.key, now) ==
               if Beyond(was, rows[i].end.value) && Beyond(was, now) then {|rows|} else {}
  {
    hide Legal, Ending, IsOutcome;
    var rows := Ending(p, [], run);
    RunKeepsOverrides(p, [], run);
    FreeIs(rows, i, now);
    RestoringShows(p, rows, i, b, now);
  }

  lemma RestoringShows(p: Policy, rows: seq<Row>, i: nat, b: nat, now: Time)
    requires OverridesFit(rows) && RanOut(rows, i, now) && IsPredecessor(rows, i, b)
    requires forall j :: 0 <= j < |rows| && rows[j].claim.key == rows[i].claim.key ==> !Current(rows[j], now)
    ensures var was, after := rows[i].overrides[b], After(p, rows, now, Restore(i, b));
            && (Allowed(p, rows, now, Restore(i, b)) <==> Beyond(was, rows[i].end.value))
            && (forall other: nat :: other != b ==> !Allowed(p, rows, now, Restore(i, other)))
            && (Allowed(p, rows, now, Restore(i, b)) ==>
                  && |after| == |rows| + 1 && after[|rows|].claim == rows[b].claim
                  && after[|rows|].start == rows[i].end.value && after[|rows|].end == was)
            && Showing(after, rows[i].claim.key, now) ==
               if Beyond(was, rows[i].end.value) && Beyond(was, now) then {|rows|} else {}
  {
    hide OverridesFit;
    SameSlot(rows, i, b);
    var after := After(p, rows, now, Restore(i, b));
    forall other: nat | other != b ensures !Allowed(p, rows, now, Restore(i, other)) {
      if IsPredecessor(rows, i, other) { OnePredecessor(rows, i, b, other); }
    }
    forall j: nat | j < |rows| && after[j].claim.key == rows[i].claim.key ensures !Current(after[j], now) {
      assert after[j].claim == rows[j].claim && after[j].status == rows[j].status && after[j].end == rows[j].end;
    }
  }

  lemma SameSlot(rows: seq<Row>, i: nat, b: nat)
    requires OverridesFit(rows) && IsPredecessor(rows, i, b)
    ensures rows[b].claim.key == rows[i].claim.key
  {
  }

  lemma OnePredecessor(rows: seq<Row>, i: nat, a: nat, b: nat)
    requires IsPredecessor(rows, i, a) && IsPredecessor(rows, i, b)
    ensures a == b
  {
  }
}
