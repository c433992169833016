/** What a re-key does to the slots: which sweeps put two facts in one, and that the
    single-active repair takes them apart again. */
module TruthRekeyed {
  import opened Ids
  import opened TruthSlots
  import opened TruthSettled
  import Keys = TruthKeys

  /** The two views of one store: what a row's slot decision reads, and the words its key
      is made of. */
  ghost predicate Mirrors(rows: seq<Row>, keyed: seq<Keys.Row>) {
    && |keyed| == |rows|
    && forall i :: 0 <= i < |rows| ==>
         && rows[i].claim.key == keyed[i].key && (rows[i].status.Active? ==> keyed[i].live)
         && (rows[i].claim.cardinality.SingleActive? <==> keyed[i].surface.cardinality.SingleActive?)
  }

  /** The store after its keys were rewritten. */
  function Onto(rows: seq<Row>, keyed: seq<Keys.Row>): (after: seq<Row>)
    requires |keyed| == |rows|
    ensures |after| == |rows|
  {
    seq(|rows|, i requires 0 <= i < |rows| =>
      rows[i].(claim := rows[i].claim.(key := keyed[i].key, prefix := keyed[i].prefix)))
  }

  predicate InForce(row: Row, now: Time) { Current(row, now) && row.claim.cardinality.SingleActive? }

  /** Under the registries, the two statements are about one subject and one predicate. */
  predicate SameSlot(reg: Keys.Registry, a: Keys.Mention, b: Keys.Mention) {
    Keys.Prefix(Keys.Entity(reg, a.subject), Keys.Predicate(reg, a.verb)) ==
    Keys.Prefix(Keys.Entity(reg, b.subject), Keys.Predicate(reg, b.verb))
  }

  lemma SettledIs(rows: seq<Row>, now: Time)
    ensures Settled(rows, now) <==>
            forall i, j :: 0 <= i < j < |rows| && InForce(rows[i], now) && InForce(rows[j], now) ==>
              rows[i].claim.key != rows[j].claim.key
  {
  }

  /** A whole-scope sweep keeps one fact a slot exactly when no two facts in force are
      stated in words that have come to mean one slot. */
  lemma SweepSettlesExactly(rows: seq<Row>, keyed: seq<Keys.Row>, reg: Keys.Registry, now: Time)
    requires Mirrors(rows, keyed)
    ensures Settled(Onto(rows, Keys.Swept(reg, keyed)), now) <==>
            forall i, j :: 0 <= i < j < |rows| && InForce(rows[i], now) && InForce(rows[j], now) ==>
              !SameSlot(reg, keyed[i].surface, keyed[j].surface)
  {
    var after := Onto(rows, Keys.Swept(reg, keyed));
    SettledIs(after, now);
    forall i | 0 <= i < |rows|
      ensures InForce(after[i], now) <==> InForce(rows[i], now)
      ensures InForce(rows[i], now) ==>
        after[i].claim.key == Keys.Prefix(Keys.Entity(reg, keyed[i].surface.subject), Keys.Predicate(reg, keyed[i].surface.verb))
    {
    }
    if Settled(after, now) {
      forall i, j | 0 <= i < j < |rows| && InForce(rows[i], now) && InForce(rows[j], now)
        ensures !SameSlot(reg, keyed[i].surface, keyed[j].surface)
      {
        assert after[i].claim.key != after[j].claim.key;
      }
    }
  }

  // ---------------------------------------------------------- and the repair

  /** Repairs of the slots named, each approved in full. */
  ghost predicate FullRepairs(rows: seq<Row>, now: Time, run: seq<Tick>) {
    forall k :: 0 <= k < |run| ==>
      run[k].now == now && run[k].step.Repair? && forall j: nat :: j < |rows| ==> j in run[k].step.approved
  }

  ghost predicate Repairs(run: seq<Tick>, key: string) {
    exists k :: 0 <= k < |run| && run[k].step.Repair? && run[k].step.key == key
  }

  /** Two facts in force in one slot. */
  ghost predicate Crowded(rows: seq<Row>, key: string, now: Time) {
    exists i, j :: 0 <= i < j < |rows| && Contends(rows[i], key, now) && Contends(rows[j], key, now)
  }

  ghost predicate Held(rows: seq<Row>, key: string, now: Time) { exists i :: 0 <= i < |rows| && Contends(rows[i], key, now) }

  lemma UncrowdedSettled(rows: seq<Row>, now: Time)
    ensures Settled(rows, now) <==> forall key :: !Crowded(rows, key, now)
  {
    if !Settled(rows, now) {
      var i, j :| 0 <= i < j < |rows| && Current(rows[i], now) && rows[i].claim.cardinality.SingleActive?
        && Contends(rows[j], rows[i].claim.key, now);
      var key := rows[i].claim.key;
      assert Contends(rows[i], key, now);
      assert Crowded(rows, key, now);
    }
    if key :| Crowded(rows, key, now) {
      var i, j :| 0 <= i < j < |rows| && Contends(rows[i], key, now) && Contends(rows[j], key, now);
      assert InForce(rows[i], now) && Contends(rows[j], rows[i].claim.key, now);
    }
  }

  lemma OneRepair(rows: seq<Row>, now: Time, key: string, w: nat, approved: set<nat>, other: string)
    requires IsWinner(rows, key, now, w) && forall j: nat :: j < |rows| ==> j in approved
    ensures var after := Repaired(rows, key, now, w, approved);
      && (Crowded(after, other, now) <==> other != key && Crowded(rows, other, now))
      && (Held(after, other, now) <==> Held(rows, other, now))
  {
    RepairSettles(rows, key, now, w, approved);
    hide IsWinner, Outranks;
    var after := Repaired(rows, key, now, w, approved);
    assert Contends(rows[w], key, now) by { WinnerContends(rows, key, now, w); }
    forall j: nat | j < |rows|
      ensures Contends(after[j], other, now) <==> (if other == key then j == w else Contends(rows[j], other, now))
    {
      assert after[j].claim == rows[j].claim;
    }
    if other == key { assert Contends(after[w], other, now); }
    if i: nat, j: nat :| i < j < |rows| && other != key && Contends(rows[i], other, now) && Contends(rows[j], other, now) {
      assert Contends(after[i], other, now) && Contends(after[j], other, now);
    }
    if i: nat :| i < |rows| && other != key && Contends(rows[i], other, now) { assert Contends(after[i], other, now); }
  }

  lemma WinnerContends(rows: seq<Row>, key: string, now: Time, w: nat)
    requires IsWinner(rows, key, now, w)
    ensures Contends(rows[w], key, now)
  {
  }

  /** Fully approved repairs leave no repaired slot crowded, crowd no other, and empty
      none. */
  lemma {:induction false} RepairsUncrowd(p: Policy, rows: seq<Row>, now: Time, run: seq<Tick>, key: string)
    requires Legal(p, rows, run) && FullRepairs(rows, now, run)
    ensures Crowded(Ending(p, rows, run), key, now) <==> Crowded(rows, key, now) && !Repairs(run, key)
    ensures Held(Ending(p, rows, run), key, now) <==> Held(rows, key, now)
    decreases |run|
  {
    hide Crowded, Held, IsWinner, Repaired;
    if run != [] {
      var step, after := run[0].step, After(p, rows, run[0].now, run[0].step);
      assert run[0].now == now && step.Repair?;
      OneRepair(rows, now, step.key, step.winner, step.approved, key);
      assert |after| == |rows| && forall k :: 0 <= k < |run[1..]| ==> run[1..][k] == run[k + 1];
      RepairsUncrowd(p, after, now, run[1..], key);
      assert Repairs(run, key) <==> step.key == key || Repairs(run[1..], key) by {
        if k :| 0 <= k < |run[1..]| && run[1..][k].step.Repair? && run[1..][k].step.key == key { assert run[k + 1].step.key == key; }
        if k :| 0 <= k < |run| && run[k].step.Repair? && run[k].step.key == key {
          assert k == 0 || run[1..][k - 1].step.key == key;
        }
      }
    }
  }

  /** So after any re-key, repairing every slot it crowded leaves one fact in each, and
      every slot that showed a fact still does. */
  lemma RepairRestores(p: Policy, rows: seq<Row>, now: Time, run: seq<Tick>)
    requires Legal(p, rows, run) && FullRepairs(rows, now, run)
    requires forall key :: Crowded(rows, key, now) ==> Repairs(run, key)
    ensures Settled(Ending(p, rows, run), now)
    ensures forall key :: Held(rows, key, now) <==> Held(Ending(p, rows, run), key, now)
  {
    hide Legal, FullRepairs, Crowded, Held, Repairs, Settled;
    forall key ensures !Crowded(Ending(p, rows, run), key, now)
      && (Held(rows, key, now) <==> Held(Ending(p, rows, run), key, now))
    {
      RepairsUncrowd(p, rows, now, run, key);
    }
    UncrowdedSettled(Ending(p, rows, run), now);
  }
}
