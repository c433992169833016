/** The live store's side of a re-dream: adopting and rolling back in place, and
    three stores in which that does not do what was meant. */
module EpochStore {
  import opened Ids
  import opened Epochs
  import opened EpochProof

  class ScopeStore {
    var rows: seq<Row>
    var names: map<string, Name>
    var epochs: seq<Epoch>
    var head: nat

    function Value(): Live
      reads this
    {
      Live(rows, names, epochs, head)
    }

    constructor (live: Live)
      ensures Value() == live
    {
      rows, names, epochs, head := live.rows, live.names, live.epochs, live.head;
    }

    method AncestryOf(e: nat) returns (s: set<nat>)
      ensures s == Ancestry(epochs, e)
    {
      s := {e};
      var at: nat := e;
      while at < |epochs| && epochs[at].parent.Some? && epochs[at].parent.value < at
        invariant at in s && s + Ancestry(epochs, at) == Ancestry(epochs, e)
        decreases at
      {
        at := epochs[at].parent.value;
        s := s + {at};
      }
    }

    static method HeadsOf(rows: seq<Row>, ancestry: set<nat>) returns (m: map<string, nat>)
      ensures m == Heads(rows, ancestry)
    {
      m := map[];
      for n := 0 to |rows|
        invariant m == Heads(rows[..n], ancestry)
      {
        assert rows[..n + 1][..n] == rows[..n];
        if Shown(rows[n], ancestry) { m := m[rows[n].slot := n]; }
      }
      assert rows[..|rows|] == rows;
    }

    /** The branch rows to copy. */
    method ToCopy(branch: Branch, cur: map<string, nat>, next: map<string, nat>) returns (order: seq<nat>)
      requires cur == Heads(rows, Head(Value())) && next == BranchHeads(branch)
      ensures order == Order(Value(), branch)
    {
      ghost var chosen := set j: nat | j < |branch.rows| && Merges(Value(), branch, j);
      order := [];
      hide Heads, Head;
      for j := 0 to |branch.rows|
        invariant order == InOrder(chosen, j)
      {
        var slot := branch.rows[j].slot;
        if slot in next && next[slot] == j
           && !(slot in cur && SameFace(rows[cur[slot]], branch.rows[next[slot]])) {
          order := order + [j];
        }
      }
    }

    /** The live rows to retire. */
    method ToRetire(branch: Branch, cur: map<string, nat>, next: map<string, nat>) returns (leaving: set<nat>)
      requires cur == Heads(rows, Head(Value())) && next == BranchHeads(branch)
      ensures leaving == set i: nat | i < |rows| && Retires(Value(), branch, i)
    {
      leaving := {};
      hide Heads, Head;
      for i := 0 to |rows|
        invariant leaving == set k: nat | k < i && Retires(Value(), branch, k)
      {
        var slot := rows[i].slot;
        if slot in cur && cur[slot] == i
           && !(slot in next && SameFace(rows[cur[slot]], branch.rows[next[slot]])) {
          leaving := leaving + {i};
        }
      }
    }

    /** The diff of a branch against the head. */
    method Diff(branch: Branch) returns (order: seq<nat>, leaving: set<nat>)
      ensures order == Order(Value(), branch)
      ensures leaving == set i: nat | i < |rows| && Retires(Value(), branch, i)
    {
      var ancestry := AncestryOf(head);
      var cur := HeadsOf(rows, ancestry);
      var next := HeadsOf(Unlayered(branch.rows), {});
      hide Heads, Retires, Merges, Order;
      order := ToCopy(branch, cur, next);
      leaving := ToRetire(branch, cur, next);
    }

    method Copy(branch: Branch, order: seq<nat>)
      requires forall k :: 0 <= k < |order| ==> order[k] < |branch.rows|
      modifies this`rows
      ensures rows == old(rows) + seq(|order|, k requires 0 <= k < |order| => branch.rows[order[k]])
    {
      ghost var before := rows;
      for k := 0 to |order|
        invariant rows == before + seq(k, n requires 0 <= n < k => branch.rows[order[n]])
      {
        rows := rows + [branch.rows[order[k]]];
      }
    }

    static method Leave(live: Live, branch: Branch, i: nat, now: Time) returns (row: Row)
      requires i < |live.rows|
      ensures row == Retired(live, branch, i, now)
    {
      var order := Order(live, branch);
      var at := Replacement(live, branch, order, live.rows[i].slot);
      row := live.rows[i].(status := Superseded, end := Some(now));
      if at.Some? {
        row := row.(successor := Some(|live.rows| + at.value), supersededBy := Some(branch.rows[order[at.value]].run));
      }
    }

    /** Each leaving row gives way to the copy in its slot, if there is one. */
    method Retire(live: Live, branch: Branch, leaving: set<nat>, now: Time)
      requires |live.rows| <= |rows| && rows[..|live.rows|] == live.rows
      modifies this`rows
      ensures |rows| == |old(rows)|
      ensures forall j :: 0 <= j < |live.rows| ==>
        rows[j] == if j in leaving then Retired(live, branch, j, now) else live.rows[j]
      ensures forall j :: |live.rows| <= j < |rows| ==> rows[j] == old(rows)[j]
    {
      ghost var before := rows;
      hide Retired;
      for i := 0 to |live.rows|
        invariant |rows| == |before|
        invariant forall j :: 0 <= j < i ==>
          rows[j] == if j in leaving then Retired(live, branch, j, now) else live.rows[j]
        invariant forall j :: i <= j < |rows| ==> rows[j] == before[j]
      {
        if i in leaving {
          var row := Leave(live, branch, i, now);
          rows := rows[i := row];
        }
      }
    }

    /** Adoption: nothing at all unless every run of the branch replays. */
    method Adopt(branch: Branch, e: nat, now: Time, replays: bool) returns (ok: bool)
      modifies this
      ensures ok <==> replays && Adoptable(old(Value()), e)
      ensures !ok ==> Value() == old(Value())
      ensures ok ==> Value() == AfterAdopt(old(Value()), branch, e, now)
    {
      ok := replays && Adoptable(Value(), e);
      if !ok { return; }
      var live := Value();
      var order, leaving := Diff(branch);
      hide Retires, Merges, Overlays, Heads, Order, Retired, AdoptedNames, Taken;
      Copy(branch, order);
      Retire(live, branch, leaving, now);
      assert rows == AdoptedRows(live, branch, now);
      names := AdoptedNames(live, branch, e);
      epochs := epochs[e := epochs[e].(status := Adopted, snapshot := Some(Taken(live, branch)))];
      var parent := epochs[e].parent;
      if parent.Some? { epochs := epochs[parent.value := epochs[parent.value].(status := Replaced)]; }
      head := e;
    }

    /** One step back, from the snapshot the adoption left. */
    method RollBack() returns (ok: bool)
      modifies this
      ensures ok <==> CanRollBack(old(Value()))
      ensures Value() == if ok then AfterRollback(old(Value())) else old(Value())
    {
      ok := CanRollBack(Value());
      if !ok { return; }
      ghost var live := Value();
      var snapshot, parent := epochs[head].snapshot.value, epochs[head].parent.value;
      for i := 0 to |rows|
        invariant |rows| == |live.rows| && Value() == live.(rows := rows)
        invariant forall j :: 0 <= j < i ==> rows[j] == RestoredRows(live.rows, snapshot.rows)[j]
        invariant forall j :: i <= j < |rows| ==> rows[j] == live.rows[j]
      {
        if i in snapshot.rows {
          var s := snapshot.rows[i];
          rows := rows[i := rows[i].(status := s.status, end := s.end, successor := s.successor,
                                     supersededBy := s.supersededBy, inContext := s.inContext)];
        }
      }
      assert rows == RestoredRows(live.rows, snapshot.rows);
      names := RestoredNames(names, snapshot.names);
      epochs := epochs[head := epochs[head].(status := Discarded)];
      epochs := epochs[parent := epochs[parent].(status := Adopted)];
      head := parent;
    }
  }

  // ------------------------------------------------------------------ limits

  const ROOT: Epoch := Epoch(None, Adopted, None)

  function Fork(parent: nat): Epoch { Epoch(Some(parent), Ready, None) }

  function Fact(confidence: real, epoch: nat): Row {
    Row("db:runs", "postgres", confidence, Active, None, None, None, true, "run", Some(epoch))
  }

  /** A branch that reinforces a fact it inherited: the copy keeps the old epoch, so
      after the rollback the slot shows both rows. */
  lemma ReinforcedCopyOutlivesRollback()
    ensures var live := Live([Fact(0.5, 0)], map[], [ROOT, Fork(0)], 0);
      var branch := Branch([Fact(0.75, 0)], map[]);
      && Adoptable(live, 1) && CanRollBack(AfterAdopt(live, branch, 1, 9))
      && AfterRollback(AfterAdopt(live, branch, 1, 9)).rows == [Fact(0.5, 0), Fact(0.75, 0)]
      && AfterRollback(AfterAdopt(live, branch, 1, 9)).head == 0
  {
    var live, branch := Live([Fact(0.5, 0)], map[], [ROOT, Fork(0)], 0), Branch([Fact(0.75, 0)], map[]);
    HeadsOfOne(Fact(0.5, 0), {0});
    HeadsOfOne(Fact(0.75, 0).(epoch := None), {});
    assert Unlayered(branch.rows) == [Fact(0.75, 0).(epoch := None)];
    assert Ancestry(live.epochs, 0) == {0};
    assert Merges(live, branch, 0) && Retires(live, branch, 0);
    RollbackRestoresRows(live, branch, 1, 9, []);
    OnlyOrder(live, branch);
    assert AdoptedRows(live, branch, 9) + [] == AdoptedRows(live, branch, 9);
    assert AdoptedRows(live, branch, 9)[1] == Fact(0.75, 0);
  }

  lemma HeadsOfOne(row: Row, ancestry: set<nat>)
    requires Shown(row, ancestry)
    ensures Heads([row], ancestry) == map[row.slot := 0]
  {
    assert [row][..0] == [];
  }

  lemma OnlyOrder(live: Live, branch: Branch)
    requires |branch.rows| == 1 && Merges(live, branch, 0)
    ensures Order(live, branch) == [0]
  {
    hide Merges;
    assert InOrder(set j: nat | j < 1 && Merges(live, branch, j), 0) == [];
  }

  /** Two branches of one head agree on a fact. Adopting the second after the first
      keeps the first one's row, which the new head cannot see: the fact is gone. */
  lemma SecondSiblingHidesTheFact()
    ensures var live := Live([Fact(0.5, 1)], map[], [ROOT, Fork(0).(status := Adopted), Fork(0)], 1);
      var branch := Branch([Fact(0.5, 2)], map[]);
      && Adoptable(live, 2) && Shown(live.rows[0], Head(live)) && Agreed(live, branch, "db:runs")
      && AfterAdopt(live, branch, 2, 9).rows == live.rows
      && !Shown(live.rows[0], Head(AfterAdopt(live, branch, 2, 9)))
  {
    var live := Live([Fact(0.5, 1)], map[], [ROOT, Fork(0).(status := Adopted), Fork(0)], 1);
    var branch := Branch([Fact(0.5, 2)], map[]);
    assert Ancestry(live.epochs, 0) == {0};
    assert Ancestry(live.epochs, 1) == {1} + Ancestry(live.epochs, 0);
    assert Ancestry(live.epochs, 2) == {2} + Ancestry(live.epochs, 0);
    HeadsOfOne(Fact(0.5, 1), Head(live));
    HeadsOfOne(Fact(0.5, 2).(epoch := None), {});
    assert Unlayered(branch.rows) == [Fact(0.5, 2).(epoch := None)];
    HeadAfterAdopt(live, branch, 2, 9);
    assert !Merges(live, branch, 0) && !Retires(live, branch, 0);
    assert InOrder(set j: nat | j < 1 && Merges(live, branch, j), 1) == [];
    assert AdoptedRows(live, branch, 9) == live.rows;
  }
}
