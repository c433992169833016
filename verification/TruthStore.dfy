/** The mutable store behind the truth slots: each operation as the engine performs
    it, row by row, against the rules of TruthSlots. */
module TruthStore {
  import opened Ids
  import opened TruthSlots

  class TruthStore {
    const policy: Policy
    var rows: seq<Row>

    constructor (policy: Policy)
      ensures this.policy == policy && rows == []
    {
      this.policy := policy;
      rows := [];
    }

    method FirstExact(c: Candidate) returns (t: Option<nat>)
      ensures t.Some? ==> (t.value < |rows| && Exact(rows[t.value], c)
                           && forall j :: 0 <= j < t.value ==> !Exact(rows[j], c))
      ensures t.None? ==> forall j :: 0 <= j < |rows| ==> !Exact(rows[j], c)
    {
      for n := 0 to |rows|
        invariant forall j :: 0 <= j < n ==> !Exact(rows[j], c)
      {
        if Exact(rows[n], c) { return Some(n); }
      }
      t := None;
    }

    method ClosestParaphrase(c: Candidate) returns (t: Option<nat>)
      ensures t.Some? ==> t.value < |rows| && Paraphrase(policy, rows[t.value], c)
      ensures t.Some? ==> forall j :: 0 <= j < |rows| && Paraphrase(policy, rows[j], c) ==>
        Cosine(policy, rows[j], c) < Cosine(policy, rows[t.value], c)
        || (Cosine(policy, rows[j], c) == Cosine(policy, rows[t.value], c) && t.value <= j)
      ensures t.None? ==> forall j :: 0 <= j < |rows| ==> !Paraphrase(policy, rows[j], c)
    {
      hide Paraphrase, Cosine;
      t := None;
      for n := 0 to |rows|
        invariant t.None? ==> forall j :: 0 <= j < n ==> !Paraphrase(policy, rows[j], c)
        invariant t.Some? ==> t.value < n && Paraphrase(policy, rows[t.value], c)
        invariant t.Some? ==> forall j :: 0 <= j < n && Paraphrase(policy, rows[j], c) ==>
          Cosine(policy, rows[j], c) < Cosine(policy, rows[t.value], c)
          || (Cosine(policy, rows[j], c) == Cosine(policy, rows[t.value], c) && t.value <= j)
      {
        if Paraphrase(policy, rows[n], c)
           && (t.None? || Cosine(policy, rows[n], c) > Cosine(policy, rows[t.value], c)) {
          t := Some(n);
        }
      }
    }

    method FindTarget(c: Candidate) returns (t: Option<nat>)
      ensures t.Some? ==> IsTarget(policy, rows, c, t.value)
      ensures t.None? ==> forall j :: 0 <= j < |rows| ==> !Reinforceable(policy, rows[j], c)
    {
      hide Paraphrase, Exact, Cosine;
      t := FirstExact(c);
      if t.None? { t := ClosestParaphrase(c); }
    }

    /** Of the first `n` rows, the later rival that starts first. */
    ghost predicate FirstSoFar(rows: seq<Row>, c: Candidate, t: nat, n: nat)
      requires n <= |rows|
    {
      && t < n && Later(policy, rows[t], c)
      && forall i :: 0 <= i < n && Later(policy, rows[i], c) ==>
           rows[t].start < rows[i].start || (rows[t].start == rows[i].start && t <= i)
    }

    /** Of the first `n` rows, the blocking rival named as the reason. */
    ghost predicate NamedSoFar(rows: seq<Row>, c: Candidate, votes: nat, t: nat, n: nat)
      requires n <= |rows|
    {
      && t < n && Rival(policy, rows[t], c) && Blocked(policy, rows[t], c, votes).Some?
      && forall i :: 0 <= i < n && Rival(policy, rows[i], c) && Blocked(policy, rows[i], c, votes).Some? ==>
           Named(policy, rows, t, i)
    }

    method FirstLater(c: Candidate) returns (t: Option<nat>)
      ensures t.Some? ==> FirstSoFar(rows, c, t.value, |rows|)
      ensures t.None? ==> forall i :: 0 <= i < |rows| ==> !Later(policy, rows[i], c)
    {
      hide Later;
      t := None;
      for n := 0 to |rows|
        invariant t.None? ==> forall i :: 0 <= i < n ==> !Later(policy, rows[i], c)
        invariant t.Some? ==> FirstSoFar(rows, c, t.value, n)
      {
        if Later(policy, rows[n], c) && (t.None? || rows[n].start < rows[t.value].start) { t := Some(n); }
      }
    }

    /** The rivals, and whether any of them is established enough to ask for votes. */
    method FindRivals(c: Candidate) returns (rivals: set<nat>, contested: bool)
      ensures rivals == Rivals(policy, rows, c)
      ensures contested <==> exists i :: i in rivals && Established(policy, rows[i], c)
    {
      hide Rival, Established;
      rivals, contested := {}, false;
      for n := 0 to |rows|
        invariant rivals == set i: nat | 0 <= i < n && Rival(policy, rows[i], c)
        invariant contested <==> exists i :: i in rivals && Established(policy, rows[i], c)
      {
        if Rival(policy, rows[n], c) {
          rivals := rivals + {n};
          contested := contested || Established(policy, rows[n], c);
        }
      }
    }

    method FindSiblings(c: Candidate) returns (siblings: set<nat>)
      ensures siblings == Siblings(policy, rows, c)
    {
      hide Sibling;
      siblings := {};
      for n := 0 to |rows|
        invariant siblings == set i: nat | 0 <= i < n && Sibling(policy, rows[i], c)
      {
        if Sibling(policy, rows[n], c) { siblings := siblings + {n}; }
      }
    }

    /** The rival that blocks the candidate, if one does, and those only recency lets
        it past. */
    method RunGate(c: Candidate, votes: nat) returns (gated: Option<nat>, bypassed: set<nat>)
      ensures gated.Some? ==> NamedSoFar(rows, c, votes, gated.value, |rows|)
      ensures gated.None? ==> forall i :: 0 <= i < |rows| && Rival(policy, rows[i], c) ==>
        Blocked(policy, rows[i], c, votes).None?
      ensures bypassed == set i: nat | 0 <= i < |rows| && Rival(policy, rows[i], c)
        && Gate(policy, rows[i], c, votes).Some? && Bypasses(policy, rows[i], c)
    {
      hide Rival, Gate, Bypasses;
      gated, bypassed := None, {};
      for n := 0 to |rows|
        invariant gated.Some? ==> NamedSoFar(rows, c, votes, gated.value, n)
        invariant gated.None? ==> forall i :: 0 <= i < n && Rival(policy, rows[i], c) ==>
          Blocked(policy, rows[i], c, votes).None?
        invariant bypassed == set i: nat | 0 <= i < n && Rival(policy, rows[i], c)
          && Gate(policy, rows[i], c, votes).Some? && Bypasses(policy, rows[i], c)
      {
        if Rival(policy, rows[n], c) && Gate(policy, rows[n], c, votes).Some? {
          if Bypasses(policy, rows[n], c) {
            bypassed := bypassed + {n};
          } else if gated.None? || !Named(policy, rows, gated.value, n) {
            gated := Some(n);
          }
        }
      }
    }

    method Decide(c: Candidate) returns (o: Outcome)
      ensures IsOutcome(policy, rows, c, o)
    {
      hide Rival, Sibling, Gate, Bypasses, Established, Reinforceable, IsTarget, Named;
      var target := FindTarget(c);
      if target.Some? { return Reinforced(target.value); }
      var later := FirstLater(c);
      if later.Some? { return Historical(later.value); }
      var rivals, contested := FindRivals(c);
      var siblings := FindSiblings(c);
      var votes := |siblings| + 1;
      var gated, bypassed := RunGate(c, votes);
      if gated.Some? { return Parked(gated.value, Blocked(policy, rows[gated.value], c, votes).value); }
      assert bypassed == set i | i in rivals && Gate(policy, rows[i], c, votes).Some?;
      o := Replaced(rivals, bypassed, if contested && votes >= policy.required then siblings else {});
    }

    /** One candidate fact, from decision to the last changed row. */
    method Write(c: Candidate) returns (o: Outcome)
      modifies this
      ensures IsOutcome(policy, old(rows), c, o) && Fits(old(rows), o)
      ensures rows == Written(policy, old(rows), c, o)
    {
      o := Decide(c);
      OutcomeFits(policy, rows, c, o);
      hide IsOutcome, Touched, Inserted, Strengthened;
      if o.Reinforced? {
        rows := rows[o.target := Strengthened(policy, rows[o.target], c)];
        return;
      }
      ghost var before := rows;
      var count := |rows|;
      rows := rows + [Inserted(rows, c, o)];
      for n := 0 to count
        invariant |rows| == count + 1 && rows[count] == Inserted(before, c, o)
        invariant forall j :: 0 <= j < n ==> rows[j] == Touched(policy, before[j], j, count, c, o)
        invariant forall j :: n <= j < count ==> rows[j] == before[j]
      {
        rows := rows[n := Touched(policy, rows[n], n, count, c, o)];
      }
    }

    /** An operator's verdict on a parked challenger. */
    method Resolve(i: nat, approve: bool, now: Time) returns (ok: bool)
      modifies this
      ensures ok <==> i < |old(rows)| && Pending(old(rows)[i])
      ensures !ok ==> rows == old(rows)
      ensures ok ==> rows == if approve then Approved(old(rows), i, now) else Declined(old(rows), i)
    {
      if i >= |rows| || !Pending(rows[i]) { return false; }
      ok := true;
      if !approve {
        rows := rows[i := rows[i].(review := false, resolution := Some(OperatorRejected))];
        return;
      }
      var before := rows;
      var held := {};
      for n := 0 to |rows|
        invariant held == set j: nat | 0 <= j < n && j != i && rows[j].status.Active? && rows[j].claim.key == rows[i].claim.key
      {
        if n != i && rows[n].status.Active? && rows[n].claim.key == rows[i].claim.key { held := held + {n}; }
      }
      if held == {} && rows[i].successor.Some? && rows[i].successor.value < |rows|
         && rows[rows[i].successor.value].status.Active? {
        held := {rows[i].successor.value};
      }
      assert held == Incumbents(before, i);
      for n := 0 to |rows|
        invariant |rows| == |before|
        invariant forall j :: 0 <= j < n && j in held ==>
          rows[j] == before[j].(status := Superseded, end := Some(now), successor := Some(i))
        invariant forall j :: 0 <= j < |rows| && (j >= n || j !in held) ==> rows[j] == before[j]
      {
        if n in held { rows := rows[n := rows[n].(status := Superseded, end := Some(now), successor := Some(i))]; }
      }
      rows := rows[i := before[i].(status := Active, successor := None, end := None, review := false,
                                   resolution := Some(OperatorApproved))];
    }

    method FindWinner(key: string, now: Time) returns (w: Option<nat>)
      ensures w.Some? ==> IsWinner(rows, key, now, w.value)
      ensures w.None? ==> forall j :: 0 <= j < |rows| ==> !Contends(rows[j], key, now)
    {
      hide Contends;
      w := None;
      for n := 0 to |rows|
        invariant w.None? ==> forall j :: 0 <= j < n ==> !Contends(rows[j], key, now)
        invariant w.Some? ==> w.value < n && Contends(rows[w.value], key, now)
        invariant w.Some? ==> forall j :: 0 <= j < n && j != w.value && Contends(rows[j], key, now) ==>
          Outranks(rows, w.value, j)
      {
        if Contends(rows[n], key, now) && (w.None? || Outranks(rows, n, w.value)) { w := Some(n); }
      }
    }

    /** The single-active repair of one slot. */
    method Repair(key: string, now: Time, approved: set<nat>) returns (w: Option<nat>)
      modifies this
      ensures w.None? ==> rows == old(rows) && forall j :: 0 <= j < |rows| ==> !Contends(rows[j], key, now)
      ensures w.Some? ==> IsWinner(old(rows), key, now, w.value)
      ensures w.Some? ==> rows == Repaired(old(rows), key, now, w.value, approved)
    {
      w := FindWinner(key, now);
      if w.None? { return; }
      ghost var before := rows;
      var start := rows[w.value].start;
      for n := 0 to |rows|
        invariant |rows| == |before|
        invariant forall j :: 0 <= j < n ==> rows[j] == Repaired(before, key, now, w.value, approved)[j]
        invariant forall j :: n <= j < |rows| ==> rows[j] == before[j]
      {
        if n != w.value && n in approved && Contends(rows[n], key, now) {
          rows := rows[n := rows[n].(status := Superseded, end := Some(start), successor := w)];
        }
      }
    }

    method Predecessor(i: nat) returns (b: Option<nat>)
      requires i < |rows|
      ensures b.Some? ==> IsPredecessor(rows, i, b.value)
      ensures b.None? ==> forall j :: j in rows[i].overrides ==> j >= |rows|
    {
      b := None;
      for n := 0 to |rows|
        invariant b.None? ==> forall j :: 0 <= j < n ==> j !in rows[i].overrides
        invariant b.Some? ==> b.value < n && b.value in rows[i].overrides
        invariant b.Some? ==> forall j :: j in rows[i].overrides && j < n ==>
          rows[j].start < rows[b.value].start || (rows[j].start == rows[b.value].start && b.value <= j)
      {
        if n in rows[i].overrides && (b.None? || rows[n].start > rows[b.value].start) { b := Some(n); }
      }
    }

    /** What pruning does when a temporary fact has run out. */
    method RestorePredecessor(i: nat, now: Time) returns (b: Option<nat>)
      requires i < |rows|
      modifies this
      ensures b.Some? ==> Restorable(old(rows), i, b.value, now) && rows == Restored(old(rows), i, b.value)
      ensures b.None? ==> rows == old(rows) && forall d :: !Restorable(rows, i, d, now)
    {
      if !rows[i].status.Active? || !Lapsed(rows[i], now) || rows[i].restored { return None; }
      for n := 0 to |rows|
        invariant forall j :: 0 <= j < n && j != i && rows[j].claim.key == rows[i].claim.key ==> !Current(rows[j], now)
      {
        if n != i && rows[n].claim.key == rows[i].claim.key && Current(rows[n], now) { return None; }
      }
      b := Predecessor(i);
      if b.None? { return; }
      var was := rows[i].overrides[b.value];
      if was.Some? && was.value <= rows[i].end.value {
        assert forall d :: IsPredecessor(rows, i, d) ==> d == b.value;
        return None;
      }
      rows := rows[i := rows[i].(restored := true)]
        + [rows[b.value].(status := Active, start := rows[i].end.value, end := was, successor := None,
                          archived := false)];
    }

    method Archive(i: nat, now: Time, elapsed: bool)
      requires i < |rows| && Allowed(policy, rows, now, Step.Archive(i, elapsed))
      modifies this
      ensures rows == Archived(old(rows), i, now, elapsed)
    {
      if elapsed {
        rows := rows[i := rows[i].(status := Pruned)];
      } else {
        var end := if rows[i].status.Active? then Some(now) else rows[i].end;
        rows := rows[i := rows[i].(status := Pruned, end := end, archived := true)];
      }
    }

    method Revive(i: nat) returns (ok: bool)
      modifies this
      ensures ok <==> i < |old(rows)| && old(rows)[i].archived
      ensures rows == if ok then Revived(old(rows), i) else old(rows)
    {
      ok := i < |rows| && rows[i].archived;
      if ok { rows := rows[i := rows[i].(status := Active, end := None)]; }
    }
  }
}
