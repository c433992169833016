/** The "superseded by" links: they never loop and never lead back in time, and
    exactly which steps can break that. */
module TruthLinks {
  import opened Ids
  import opened TruthSlots

  // ------------------------------------------------------------- no loops

  /** Links lead to rows. */
  ghost predicate InRange(rows: seq<Row>) {
    forall i :: 0 <= i < |rows| && rows[i].successor.Some? ==> rows[i].successor.value < |rows|
  }

  /** An active row has not been superseded. */
  ghost predicate Rooted(rows: seq<Row>) {
    forall i :: 0 <= i < |rows| && rows[i].successor.Some? ==>
      rows[i].successor.value < |rows| && !rows[i].status.Active?
  }

  /** Every link climbs. */
  ghost predicate Climbs(rows: seq<Row>, height: seq<nat>) {
    && |height| == |rows|
    && forall i :: 0 <= i < |rows| && rows[i].successor.Some? ==>
         rows[i].successor.value < |rows| && height[i] < height[rows[i].successor.value]
  }

  function Follow(rows: seq<Row>, i: nat, hops: nat): Option<nat>
    decreases hops
  {
    if hops == 0 then Some(i)
    else if i < |rows| && rows[i].successor.Some? then Follow(rows, rows[i].successor.value, hops - 1)
    else None
  }

  ghost predicate Loops(rows: seq<Row>) {
    exists i: nat, hops: nat :: i < |rows| && hops > 0 && Follow(rows, i, hops) == Some(i)
  }

  lemma {:induction false} FollowingClimbs(rows: seq<Row>, height: seq<nat>, i: nat, hops: nat)
    requires Climbs(rows, height) && i < |rows|
    ensures Follow(rows, i, hops).Some? ==>
      Follow(rows, i, hops).value < |rows| && height[Follow(rows, i, hops).value] >= height[i] + hops
    decreases hops
  {
    if hops > 0 && rows[i].successor.Some? {
      FollowingClimbs(rows, height, rows[i].successor.value, hops - 1);
    }
  }

  lemma ClimbingNeverLoops(rows: seq<Row>, height: seq<nat>)
    requires Climbs(rows, height)
    ensures !Loops(rows)
  {
    forall i: nat, hops: nat | i < |rows| && hops > 0
      ensures Follow(rows, i, hops) != Some(i)
    {
      FollowingClimbs(rows, height, i, hops);
    }
  }

  function Top(height: seq<nat>): (t: nat)
    ensures forall k :: 0 <= k < |height| ==> height[k] < t
  {
    if height == [] then 0
    else
      var rest, last := Top(height[..|height| - 1]), height[|height| - 1];
      if last < rest then rest else last + 1
  }

  /** Rows only ever link to one root at a time, or lose their link. */
  ghost predicate Relinked(rows: seq<Row>, after: seq<Row>, root: nat) {
    && |rows| <= |after| <= |rows| + 1 && root < |after| && after[root].successor.None?
    && (forall j :: 0 <= j < |rows| ==>
          after[j].successor in {rows[j].successor, None, Some(root)})
    && (|rows| < |after| ==> after[|rows|].successor in {None, Some(root)})
    && forall j :: 0 <= j < |after| && after[j].status.Active? ==> after[j].successor.None?
  }

  /** Lifting the root above everything else keeps every link climbing. */
  lemma RelinkingClimbs(rows: seq<Row>, after: seq<Row>, root: nat, height: seq<nat>) returns (next: seq<nat>)
    requires Climbs(rows, height) && Relinked(rows, after, root)
    ensures Rooted(after) && Climbs(after, next)
  {
    var padded := if |rows| < |after| then height + [0] else height;
    next := padded[root := Top(padded)];
    forall j | 0 <= j < |after| && after[j].successor.Some?
      ensures after[j].successor.value < |after| && next[j] < next[after[j].successor.value]
    {
      assert j != root && next[j] == padded[j] < Top(padded);
      if after[j].successor != Some(root) {
        assert j < |rows| && after[j].successor == rows[j].successor;
      }
    }
  }

  /** Only bringing back an archived row that was already superseded is refused. */
  predicate KeepsLinks(rows: seq<Row>, step: Step) { step.Revive? && step.i < |rows| ==> rows[step.i].successor.None? }

  lemma WriteRelinks(p: Policy, rows: seq<Row>, c: Candidate, o: Outcome) returns (root: nat)
    requires IsOutcome(p, rows, c, o) && Rooted(rows)
    ensures Fits(rows, o) && Relinked(rows, Written(p, rows, c, o), root)
  {
    OutcomeFits(p, rows, c, o);
    hide IsOutcome, Rival, Sibling;
    root := match o
            case Reinforced(t) => t
            case Historical(t) => t
            case Parked(t, _) => t
            case Replaced(_, _, _) => |rows|;
  }

  lemma StepRelinks(p: Policy, rows: seq<Row>, now: Time, step: Step) returns (root: nat)
    requires Allowed(p, rows, now, step) && Rooted(rows) && KeepsLinks(rows, step)
    requires step.Approve? || step.Revive? || step.Restore? || step.Repair?
    ensures Relinked(rows, After(p, rows, now, step), root)
  {
    hide Incumbents, Outranks;
    root := match step
            case Approve(i) => i
            case Revive(i) => i
            case Restore(_, _) => |rows|
            case Repair(_, w, _) => w;
  }

  lemma LinksUntouched(p: Policy, rows: seq<Row>, now: Time, step: Step, height: seq<nat>)
    requires Allowed(p, rows, now, step) && (step.Reject? || step.Archive?)
    requires Rooted(rows) && Climbs(rows, height)
    ensures Rooted(After(p, rows, now, step)) && Climbs(After(p, rows, now, step), height)
  {
    var after := After(p, rows, now, step);
    assert forall j :: 0 <= j < |rows| ==> after[j].successor == rows[j].successor;
  }

  lemma StepClimbs(p: Policy, rows: seq<Row>, now: Time, step: Step, height: seq<nat>) returns (next: seq<nat>)
    requires Allowed(p, rows, now, step) && KeepsLinks(rows, step)
    requires Rooted(rows) && Climbs(rows, height)
    ensures Rooted(After(p, rows, now, step)) && Climbs(After(p, rows, now, step), next)
  {
    hide IsOutcome, Written, Relinked, Rooted, Climbs;
    if step.Reject? || step.Archive? {
      LinksUntouched(p, rows, now, step, height);
      next := height;
    } else if step.Write? {
      var root := WriteRelinks(p, rows, step.c, step.o);
      next := RelinkingClimbs(rows, After(p, rows, now, step), root, height);
    } else {
      var root := StepRelinks(p, rows, now, step);
      next := RelinkingClimbs(rows, After(p, rows, now, step), root, height);
    }
  }

  /** Reviving is the only step that can leave an active row superseded. */
  lemma ReviveRootsExactly(rows: seq<Row>, i: nat)
    requires i < |rows| && Rooted(rows)
    ensures Rooted(Revived(rows, i)) <==> rows[i].successor.None?
  {
    assert Revived(rows, i)[i].status.Active?;
  }

  ghost predicate AllKeepLinks(p: Policy, rows: seq<Row>, run: seq<Tick>)
    decreases |run|
  {
    run == [] || (KeepsLinks(rows, run[0].step)
                  && AllKeepLinks(p, After(p, rows, run[0].now, run[0].step), run[1..]))
  }

  lemma {:induction false} RunClimbs(p: Policy, rows: seq<Row>, run: seq<Tick>, height: seq<nat>)
    returns (next: seq<nat>)
    requires Legal(p, rows, run) && AllKeepLinks(p, rows, run)
    requires Rooted(rows) && Climbs(rows, height)
    ensures Rooted(Ending(p, rows, run)) && Climbs(Ending(p, rows, run), next)
    decreases |run|
  {
    hide Allowed, After, Rooted, Climbs, KeepsLinks;
    if run == [] {
      next := height;
    } else {
      next := StepClimbs(p, rows, run[0].now, run[0].step, height);
      next := RunClimbs(p, After(p, rows, run[0].now, run[0].step), run[1..], next);
    }
  }

  /** Whatever is written, reviewed, archived, restored or repaired, as long as no
      superseded row is brought back, following "superseded by" never loops and
      current truth is never itself superseded. */
  lemma SupersessionNeverLoops(p: Policy, run: seq<Tick>)
    requires Legal(p, [], run) && AllKeepLinks(p, [], run)
    ensures Rooted(Ending(p, [], run)) && !Loops(Ending(p, [], run))
  {
    hide Legal, AllKeepLinks, Ending, Loops;
    var height := RunClimbs(p, [], run, []);
    ClimbingNeverLoops(Ending(p, [], run), height);
  }

  /** So a loop is always the work of a revived superseded row. */
  lemma SupersessionLoopsOnlyByRevival(p: Policy, run: seq<Tick>)
    requires Legal(p, [], run) && Loops(Ending(p, [], run))
    ensures !AllKeepLinks(p, [], run)
  {
    hide Legal, AllKeepLinks, Ending, Loops;
    if AllKeepLinks(p, [], run) { SupersessionNeverLoops(p, run); }
  }

  // ------------------------------------------------------ never back in time

  /** A row another one displaced as current truth. A parked challenger only
      points at what it failed to displace. */
  predicate Displaced(row: Row) { row.successor.Some? && (row.gate.None? || row.resolution == Some(OperatorApproved)) }

  ghost predicate StartsOrdered(rows: seq<Row>) {
    forall i :: 0 <= i < |rows| && Displaced(rows[i]) && rows[i].successor.value < |rows| ==>
      rows[i].start <= rows[rows[i].successor.value].start
  }

  /** The checks that keep history in order: an old observation must not pull a
      successor's start behind what it displaced, nor a late one push a revived row's
      past what displaced that, and an approval must not put an older challenger after a
      newer incumbent. */
  ghost predicate KeepsOrder(p: Policy, rows: seq<Row>, step: Step) {
    match step
    case Write(c, o) => o.Reinforced? && o.target < |rows| ==> KeepsStart(p, rows, c, o.target)
    case Approve(i) =>
      i < |rows| ==> forall j :: j in Incumbents(rows, i) && j != i && Displaced(rows[j].(successor := Some(i))) ==>
        rows[j].start <= rows[i].start
    case _ => true
  }

  /** The reinforced row's new start lies after those of the rows it displaced, and
      before that of the row that displaced it, should it have been revived. */
  ghost predicate KeepsStart(p: Policy, rows: seq<Row>, c: Candidate, t: nat)
    requires t < |rows|
  {
    var start := Strengthened(p, rows[t], c).start;
    && (forall i :: 0 <= i < |rows| && i != t && Displaced(rows[i]) && rows[i].successor == Some(t) ==> rows[i].start <= start)
    && (Displaced(rows[t]) && rows[t].successor.value < |rows| && rows[t].successor.value != t ==>
          start <= rows[rows[t].successor.value].start)
  }

  lemma ReinforceOrdersExactly(p: Policy, rows: seq<Row>, c: Candidate, t: nat)
    requires t < |rows| && StartsOrdered(rows)
    ensures StartsOrdered(rows[t := Strengthened(p, rows[t], c)]) <==> KeepsStart(p, rows, c, t)
  {
    var after := rows[t := Strengthened(p, rows[t], c)];
    assert forall i :: 0 <= i < |rows| && i != t ==> after[i] == rows[i];
    assert after[t].successor == rows[t].successor && Displaced(after[t]) == Displaced(rows[t]);
    if StartsOrdered(after) {
      forall i | 0 <= i < |rows| && i != t && Displaced(rows[i]) && rows[i].successor == Some(t)
        ensures rows[i].start <= after[t].start
      {
        assert after[i] == rows[i];
      }
    }
  }

  lemma WriteOrders(p: Policy, rows: seq<Row>, c: Candidate, o: Outcome)
    requires IsOutcome(p, rows, c, o) && InRange(rows) && StartsOrdered(rows) && !o.Reinforced?
    ensures StartsOrdered(Written(p, rows, c, o))
  {
    OutcomeFits(p, rows, c, o);
    hide IsOutcome, Rival;
    var after := Written(p, rows, c, o);
    assert forall i :: 0 <= i < |rows| ==> after[i].start == rows[i].start;
    assert o.Replaced? ==> forall i :: i in o.siblings && i !in o.targets ==> !Displaced(after[i]);
  }

  lemma ApproveOrdersExactly(p: Policy, rows: seq<Row>, i: nat, now: Time)
    requires i < |rows| && StartsOrdered(rows)
    ensures StartsOrdered(Approved(rows, i, now)) <==> KeepsOrder(p, rows, Approve(i))
  {
    var after, incumbents := Approved(rows, i, now), Incumbents(rows, i);
    assert forall j :: 0 <= j < |rows| ==> after[j].start == rows[j].start;
    forall j | j in incumbents && j != i && Displaced(rows[j].(successor := Some(i)))
      ensures StartsOrdered(after) ==> rows[j].start <= rows[i].start
    {
      assert Displaced(after[j]);
    }
  }

  lemma WriteOrdersExactly(p: Policy, rows: seq<Row>, c: Candidate, o: Outcome)
    requires IsOutcome(p, rows, c, o) && InRange(rows) && StartsOrdered(rows)
    ensures StartsOrdered(Written(p, rows, c, o)) <==> KeepsOrder(p, rows, Write(c, o))
  {
    hide Near, Compatible, Gate, Blocked, Cosine, StartsOrdered, Strengthened, InRange, KeepsStart;
    if o.Reinforced? {
      ReinforceOrdersExactly(p, rows, c, o.target);
    } else {
      WriteOrders(p, rows, c, o);
    }
  }

  lemma RepairOrders(rows: seq<Row>, key: string, now: Time, w: nat, approved: set<nat>)
    requires IsWinner(rows, key, now, w) && StartsOrdered(rows)
    ensures StartsOrdered(Repaired(rows, key, now, w, approved))
  {
    hide Contends, Lapsed;
    var after := Repaired(rows, key, now, w, approved);
    assert forall j :: 0 <= j < |rows| ==> after[j].start == rows[j].start;
  }

  lemma OthersOrder(p: Policy, rows: seq<Row>, now: Time, step: Step)
    requires Allowed(p, rows, now, step) && InRange(rows) && StartsOrdered(rows)
    requires !step.Write? && !step.Approve?
    ensures StartsOrdered(After(p, rows, now, step)) && KeepsOrder(p, rows, step)
  {
    hide IsWinner, Repaired;
    var after := After(p, rows, now, step);
    if step.Repair? {
      RepairOrders(rows, step.key, now, step.winner, step.approved);
    } else if step.Restore? {
      assert forall j :: 0 <= j < |rows| ==> after[j].start == rows[j].start && after[j].successor == rows[j].successor;
    } else {
      assert forall j :: 0 <= j < |rows| ==> after[j].start == rows[j].start;
    }
  }

  /** Effective starts never decrease along displacement links, exactly when the step
      passes its check, whatever was revived before. */
  lemma StepOrdersExactly(p: Policy, rows: seq<Row>, now: Time, step: Step)
    requires Allowed(p, rows, now, step) && InRange(rows) && StartsOrdered(rows)
    ensures StartsOrdered(After(p, rows, now, step)) <==> KeepsOrder(p, rows, step)
  {
    hide IsOutcome, Approved, KeepsOrder, Paraphrase, Near, Compatible, Gate, Blocked;
    match step
    case Write(c, o) => WriteOrdersExactly(p, rows, c, o);
    case Approve(i) => ApproveOrdersExactly(p, rows, i, now);
    case _ => OthersOrder(p, rows, now, step);
  }

  lemma WriteInRange(p: Policy, rows: seq<Row>, c: Candidate, o: Outcome)
    requires IsOutcome(p, rows, c, o) && InRange(rows)
    ensures Fits(rows, o) && InRange(Written(p, rows, c, o))
  {
    OutcomeFits(p, rows, c, o);
    hide IsOutcome, Rival, Sibling;
  }

  lemma StepInRange(p: Policy, rows: seq<Row>, now: Time, step: Step)
    requires Allowed(p, rows, now, step) && InRange(rows)
    ensures InRange(After(p, rows, now, step))
  {
    hide IsOutcome, Written, Incumbents, Outranks;
    if step.Write? { WriteInRange(p, rows, step.c, step.o); }
  }

  ghost predicate AlwaysOrdered(p: Policy, rows: seq<Row>, run: seq<Tick>)
    decreases |run|
  {
    StartsOrdered(rows) && (run == [] || AlwaysOrdered(p, After(p, rows, run[0].now, run[0].step), run[1..]))
  }

  ghost predicate AllKeepOrder(p: Policy, rows: seq<Row>, run: seq<Tick>)
    decreases |run|
  {
    run == [] || (KeepsOrder(p, rows, run[0].step)
                  && AllKeepOrder(p, After(p, rows, run[0].now, run[0].step), run[1..]))
  }

  /** Over any run, revivals and circles included: history stays in order throughout
      exactly when every step passes its check. */
  lemma {:induction false} HistoryOrderedExactly(p: Policy, rows: seq<Row>, run: seq<Tick>)
    requires Legal(p, rows, run) && InRange(rows) && StartsOrdered(rows)
    ensures AlwaysOrdered(p, rows, run) <==> AllKeepOrder(p, rows, run)
    decreases |run|
  {
    hide Allowed, After, InRange, StartsOrdered, KeepsOrder;
    if run != [] {
      StepInRange(p, rows, run[0].now, run[0].step);
      StepOrdersExactly(p, rows, run[0].now, run[0].step);
      var after := After(p, rows, run[0].now, run[0].step);
      if StartsOrdered(after) {
        HistoryOrderedExactly(p, after, run[1..]);
      } else {
        assert !AlwaysOrdered(p, after, run[1..]);
      }
    }
  }
}
