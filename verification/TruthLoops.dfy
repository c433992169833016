/** Which steps close a circle of "superseded by" links, or leave current truth
    superseded: exactly, step by step and over whole runs. */
module TruthLoops {
  import opened Ids
  import opened TruthSlots
  import opened TruthLinks

  // ---------------------------------------------------------------- walking

  lemma {:induction false} WalkSplits(rows: seq<Row>, i: nat, a: nat, b: nat)
    ensures Follow(rows, i, a + b) ==
            match Follow(rows, i, a) case None => None case Some(j) => Follow(rows, j, b)
    decreases a
  {
    if a > 0 && i < |rows| && rows[i].successor.Some? { WalkSplits(rows, rows[i].successor.value, a - 1, b); }
  }

  lemma {:induction false} WalkInRange(rows: seq<Row>, i: nat, hops: nat)
    requires InRange(rows) && i < |rows|
    ensures Follow(rows, i, hops).Some? ==> Follow(rows, i, hops).value < |rows|
    decreases hops
  {
    if hops > 0 && rows[i].successor.Some? { WalkInRange(rows, rows[i].successor.value, hops - 1); }
  }

  /** Two stores agree on a walk that meets no row whose link changed. */
  lemma {:induction false} WalkAlike(rows: seq<Row>, after: seq<Row>, changed: set<nat>, i: nat, hops: nat)
    requires InRange(rows) && |rows| <= |after| && i < |rows|
    requires forall j :: 0 <= j < |rows| && j !in changed ==> after[j].successor == rows[j].successor
    requires forall k: nat :: k < hops && Follow(rows, i, k).Some? ==> Follow(rows, i, k).value !in changed
    ensures Follow(after, i, hops) == Follow(rows, i, hops)
    decreases hops
  {
    if hops > 0 {
      assert Follow(rows, i, 0) == Some(i);
      if rows[i].successor.Some? {
        var next := rows[i].successor.value;
        forall k: nat | k < hops - 1 && Follow(rows, next, k).Some? ensures Follow(rows, next, k).value !in changed {
          assert Follow(rows, i, k + 1) == Follow(rows, next, k);
        }
        WalkAlike(rows, after, changed, next, hops - 1);
      }
    }
  }

  /** The first marked row on a walk that meets one. */
  lemma {:induction false} FirstMet(rows: seq<Row>, marked: set<nat>, i: nat, hops: nat) returns (k: nat)
    requires Follow(rows, i, hops).Some? && Follow(rows, i, hops).value in marked
    ensures k <= hops && Follow(rows, i, k).Some? && Follow(rows, i, k).value in marked
    ensures forall k': nat :: k' < k && Follow(rows, i, k').Some? ==> Follow(rows, i, k').value !in marked
  {
    k := 0;
    while !(Follow(rows, i, k).Some? && Follow(rows, i, k).value in marked)
      invariant k <= hops
      invariant forall k': nat :: k' < k && Follow(rows, i, k').Some? ==> Follow(rows, i, k').value !in marked
      decreases hops - k
    {
      k := k + 1;
    }
  }

  // ------------------------------------------------------- links to one root

  /** The changed rows now all link to the root; the rest keep their links. */
  ghost predicate LinkedTo(rows: seq<Row>, after: seq<Row>, changed: set<nat>, root: nat) {
    && |after| == |rows| && root < |rows|
    && forall j :: 0 <= j < |rows| ==> after[j].successor == if j in changed then Some(root) else rows[j].successor
  }

  /** Following "superseded by" from a row meets one of these. */
  ghost predicate LeadsTo(rows: seq<Row>, i: nat, marked: set<nat>) {
    exists hops: nat :: Follow(rows, i, hops).Some? && Follow(rows, i, hops).value in marked
  }

  /** Linking rows to a root closes a circle exactly when the root already led to one
      of them. */
  lemma LinkingLoopsExactly(rows: seq<Row>, after: seq<Row>, changed: set<nat>, root: nat)
    requires InRange(rows) && !Loops(rows) && LinkedTo(rows, after, changed, root)
    requires forall j :: j in changed ==> j < |rows|
    ensures Loops(after) <==> LeadsTo(rows, root, changed)
  {
    if hops: nat :| Follow(rows, root, hops).Some? && Follow(rows, root, hops).value in changed {
      var k := FirstMet(rows, changed, root, hops);
      WalkAlike(rows, after, changed, root, k);
      var j := Follow(rows, root, k).value;
      WalkSplits(after, root, k, 1);
      assert Follow(after, j, 1) == Follow(after, root, 0);
      assert Follow(after, root, k + 1) == Some(root);
    }
    if Loops(after) {
      var i: nat, n: nat :| i < |after| && n > 0 && Follow(after, i, n) == Some(i);
      var x := CircleMeets(rows, after, changed, root, i, n);
      var k := FirstMet(after, changed, root, x);
      WalkBack(rows, after, changed, root, k);
      assert Follow(rows, root, k).Some? && Follow(rows, root, k).value in changed;
    }
  }

  /** A circle in the new links passes through a changed row, so the root leads there. */
  lemma CircleMeets(rows: seq<Row>, after: seq<Row>, changed: set<nat>, root: nat, i: nat, n: nat) returns (x: nat)
    requires InRange(rows) && !Loops(rows) && LinkedTo(rows, after, changed, root)
    requires i < |after| && n > 0 && Follow(after, i, n) == Some(i)
    ensures Follow(after, root, x).Some? && Follow(after, root, x).value in changed
  {
    if forall k: nat :: k < n && Follow(after, i, k).Some? ==> Follow(after, i, k).value !in changed {
      WalkAlike(after, rows, changed, i, n) by { Ranged(rows, after, changed, root); }
      assert Loops(rows);
      assert false;
    } else {
      var k: nat :| k < n && Follow(after, i, k).Some? && Follow(after, i, k).value in changed;
      var j := Follow(after, i, k).value;
      Ranged(rows, after, changed, root);
      WalkInRange(after, i, k);
      WalkSplits(after, i, k, n - k);
      assert Follow(after, j, n - k) == Some(i) && after[j].successor == Some(root);
      assert Follow(after, root, n - k - 1) == Some(i);
      WalkSplits(after, root, n - k - 1, k);
      x := n - k - 1 + k;
    }
  }

  lemma Ranged(rows: seq<Row>, after: seq<Row>, changed: set<nat>, root: nat)
    requires InRange(rows) && LinkedTo(rows, after, changed, root)
    ensures InRange(after)
  {
  }

  lemma WalkBack(rows: seq<Row>, after: seq<Row>, changed: set<nat>, root: nat, k: nat)
    requires InRange(rows) && LinkedTo(rows, after, changed, root)
    requires forall k': nat :: k' < k && Follow(after, root, k').Some? ==> Follow(after, root, k').value !in changed
    ensures Follow(rows, root, k) == Follow(after, root, k)
  {
    Ranged(rows, after, changed, root);
    WalkAlike(after, rows, changed, root, k);
  }

  // --------------------------------------------------------- the other steps

  /** New links only lead to a row that leads nowhere, or only start from a row that
      nothing leads to. */
  ghost predicate Harmless(rows: seq<Row>, after: seq<Row>, root: nat) {
    && |rows| <= |after| <= |rows| + 1 && InRange(after)
    && ((root < |after| && after[root].successor.None?)
        || forall j :: 0 <= j < |rows| ==> after[j].successor == rows[j].successor)
    && (forall j :: 0 <= j < |rows| ==> after[j].successor in {rows[j].successor, None, Some(root)})
    && (|rows| < |after| ==> after[|rows|].successor != Some(|rows|))
  }

  lemma {:induction false} HarmlessWalk(rows: seq<Row>, after: seq<Row>, root: nat, i: nat, n: nat, to: nat)
    requires InRange(rows) && Harmless(rows, after, root) && i < |rows|
    requires Follow(after, i, n) == Some(to)
    ensures Follow(rows, i, n) == Some(to) || (root < |after| && after[root].successor.None? && to == root)
    ensures to < |rows| || (root < |after| && after[root].successor.None? && to == root)
    decreases n
  {
    if n > 0 {
      assert after[i].successor.Some?;
      var next := after[i].successor.value;
      if after[i].successor == rows[i].successor {
        HarmlessWalk(rows, after, root, next, n - 1, to);
      } else {
        assert next == root && after[root].successor.None?;
        assert Follow(after, root, n - 1) == Some(to) ==> n - 1 == 0;
      }
    }
  }

  lemma HarmlessNeverLoops(rows: seq<Row>, after: seq<Row>, root: nat)
    requires InRange(rows) && !Loops(rows) && Harmless(rows, after, root)
    ensures !Loops(after)
  {
    if Loops(after) {
      var i: nat, n: nat :| i < |after| && n > 0 && Follow(after, i, n) == Some(i);
      if i < |rows| {
        HarmlessWalk(rows, after, root, i, n, i);
        assert Follow(rows, i, n) == Some(i) ==> Loops(rows);
      } else if after[i].successor.Some? {
        var next := after[i].successor.value;
        assert Follow(after, next, n - 1) == Some(i);
        HarmlessWalk(rows, after, root, next, n - 1, i);
      }
    }
  }

  // -------------------------------------------------------- step by step

  ghost function Losers(rows: seq<Row>, key: string, now: Time, w: nat, approved: set<nat>): set<nat> {
    set j: nat | 0 <= j < |rows| && j != w && j in approved && Contends(rows[j], key, now)
  }

  /** The repair's winner is itself superseded, by way of a row it displaces. */
  ghost predicate Circles(rows: seq<Row>, now: Time, step: Step) {
    step.Repair? && LeadsTo(rows, step.winner, Losers(rows, step.key, now, step.winner, step.approved))
  }

  lemma WriteHarmless(p: Policy, rows: seq<Row>, c: Candidate, o: Outcome) returns (root: nat)
    requires IsOutcome(p, rows, c, o) && InRange(rows)
    ensures Fits(rows, o) && Harmless(rows, Written(p, rows, c, o), root)
  {
    OutcomeFits(p, rows, c, o);
    hide IsOutcome, Rival, Sibling;
    root := |rows|;
  }

  lemma OthersHarmless(p: Policy, rows: seq<Row>, now: Time, step: Step) returns (root: nat)
    requires Allowed(p, rows, now, step) && InRange(rows) && !step.Write? && !step.Repair?
    ensures Harmless(rows, After(p, rows, now, step), root)
  {
    hide Incumbents;
    root := if step.Approve? then step.i else |rows|;
  }

  /** A step closes a circle exactly when it is such a repair. */
  lemma StepLoopsExactly(p: Policy, rows: seq<Row>, now: Time, step: Step)
    requires Allowed(p, rows, now, step) && InRange(rows) && !Loops(rows)
    ensures InRange(After(p, rows, now, step)) && (Loops(After(p, rows, now, step)) <==> Circles(rows, now, step))
  {
    hide IsOutcome, Loops, Written, Approved;
    if step.Write? {
      var root := WriteHarmless(p, rows, step.c, step.o);
      HarmlessNeverLoops(rows, After(p, rows, now, step), root);
    } else if step.Repair? {
      RepairLoopsExactly(rows, step.key, now, step.winner, step.approved);
    } else {
      var root := OthersHarmless(p, rows, now, step);
      HarmlessNeverLoops(rows, After(p, rows, now, step), root);
    }
  }

  lemma RepairLoopsExactly(rows: seq<Row>, key: string, now: Time, w: nat, approved: set<nat>)
    requires w < |rows| && InRange(rows) && !Loops(rows)
    ensures InRange(Repaired(rows, key, now, w, approved))
    ensures Loops(Repaired(rows, key, now, w, approved)) <==> Circles(rows, now, Repair(key, w, approved))
  {
    hide Loops, LeadsTo;
    var after, losers := Repaired(rows, key, now, w, approved), Losers(rows, key, now, w, approved);
    assert LinkedTo(rows, after, losers, w);
    LinkingLoopsExactly(rows, after, losers, w);
  }

  // --------------------------------------------------------- over whole runs

  ghost predicate NeverLoops(p: Policy, rows: seq<Row>, run: seq<Tick>)
    decreases |run|
  {
    !Loops(rows) && (run == [] || NeverLoops(p, After(p, rows, run[0].now, run[0].step), run[1..]))
  }

  ghost predicate NoneCircles(p: Policy, rows: seq<Row>, run: seq<Tick>)
    decreases |run|
  {
    run == [] || (!Circles(rows, run[0].now, run[0].step)
                  && NoneCircles(p, After(p, rows, run[0].now, run[0].step), run[1..]))
  }

  /** Over any run, "superseded by" never loops exactly when no repair's winner already
      led to a row it displaced. */
  lemma {:induction false} AcyclicExactly(p: Policy, rows: seq<Row>, run: seq<Tick>)
    requires Legal(p, rows, run) && InRange(rows) && !Loops(rows)
    ensures NeverLoops(p, rows, run) <==> NoneCircles(p, rows, run)
    decreases |run|
  {
    hide Allowed, After, InRange, Loops, Circles;
    if run != [] {
      StepLoopsExactly(p, rows, run[0].now, run[0].step);
      var after := After(p, rows, run[0].now, run[0].step);
      if !Loops(after) {
        AcyclicExactly(p, after, run[1..]);
      } else {
        assert !NeverLoops(p, after, run[1..]);
      }
    }
  }

  // ------------------------------------------------ current truth superseded

  ghost predicate AlwaysRooted(p: Policy, rows: seq<Row>, run: seq<Tick>)
    decreases |run|
  {
    Rooted(rows) && (run == [] || AlwaysRooted(p, After(p, rows, run[0].now, run[0].step), run[1..]))
  }

  lemma RelinkedRooted(rows: seq<Row>, after: seq<Row>, root: nat)
    requires Rooted(rows) && Relinked(rows, after, root)
    ensures Rooted(after)
  {
  }

  lemma StepRootsExactly(p: Policy, rows: seq<Row>, now: Time, step: Step)
    requires Allowed(p, rows, now, step) && Rooted(rows)
    ensures Rooted(After(p, rows, now, step)) <==> KeepsLinks(rows, step)
  {
    hide IsOutcome, Written, Relinked, Approved, Repaired;
    if step.Revive? {
      ReviveRootsExactly(rows, step.i);
    } else if step.Write? {
      var root := WriteRelinks(p, rows, step.c, step.o);
      RelinkedRooted(rows, After(p, rows, now, step), root);
    } else if step.Reject? || step.Archive? {
      DemotingRoots(p, rows, now, step);
    } else {
      var root := StepRelinks(p, rows, now, step);
      RelinkedRooted(rows, After(p, rows, now, step), root);
    }
  }

  lemma DemotingRoots(p: Policy, rows: seq<Row>, now: Time, step: Step)
    requires Allowed(p, rows, now, step) && Rooted(rows) && (step.Reject? || step.Archive?)
    ensures Rooted(After(p, rows, now, step))
  {
    var after := After(p, rows, now, step);
    assert forall j :: 0 <= j < |rows| ==> after[j].successor == rows[j].successor;
  }

  /** Current truth is never itself superseded exactly when no step brings back an
      archived row that had been. */
  lemma {:induction false} RootedExactly(p: Policy, rows: seq<Row>, run: seq<Tick>)
    requires Legal(p, rows, run) && Rooted(rows)
    ensures AlwaysRooted(p, rows, run) <==> AllKeepLinks(p, rows, run)
    decreases |run|
  {
    hide Allowed, After, Rooted, KeepsLinks;
    if run != [] {
      StepRootsExactly(p, rows, run[0].now, run[0].step);
      var after := After(p, rows, run[0].now, run[0].step);
      if Rooted(after) {
        RootedExactly(p, after, run[1..]);
      } else {
        assert !AlwaysRooted(p, after, run[1..]);
      }
    }
  }
}
