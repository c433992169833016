/** What a scope says after an adoption, field by field: facts, confidence and status of every
    slot, and what every registered name resolves to. */
module EpochFaces {
  import opened Ids
  import opened Epochs
  import opened EpochProof

  /** The last active row of its slot in the branch. */
  predicate Stands(branch: Branch, j: nat) {
    && j < |branch.rows| && branch.rows[j].status.Active?
    && forall k :: j < k < |branch.rows| && branch.rows[k].status.Active? ==> branch.rows[k].slot != branch.rows[j].slot
  }

  ghost predicate Covers(branch: Branch, slot: string) {
    exists j: nat :: j < |branch.rows| && branch.rows[j].status.Active? && branch.rows[j].slot == slot
  }

  lemma StandsIs(branch: Branch, j: nat)
    requires j < |branch.rows|
    ensures Stands(branch, j) <==> branch.rows[j].slot in BranchHeads(branch) && BranchHeads(branch)[branch.rows[j].slot] == j
  {
    hide Heads;
    var rows, heads := Unlayered(branch.rows), BranchHeads(branch);
    assert forall k :: 0 <= k < |rows| ==> rows[k].slot == branch.rows[k].slot && rows[k].status == branch.rows[k].status
                                           && (Shown(rows[k], {}) <==> rows[k].status.Active?);
    if Stands(branch, j) {
      assert Shown(rows[j], {}) && rows[j].slot in heads && j <= heads[rows[j].slot];
    }
    if branch.rows[j].slot in heads && heads[branch.rows[j].slot] == j {
      assert Shown(rows[j], {});
      forall k | j < k < |branch.rows| && branch.rows[k].status.Active? ensures branch.rows[k].slot != branch.rows[j].slot {
        assert Shown(rows[k], {});
      }
    }
  }

  lemma CoversIs(branch: Branch, slot: string)
    ensures Covers(branch, slot) <==> slot in BranchHeads(branch)
    ensures Covers(branch, slot) ==> Stands(branch, BranchHeads(branch)[slot]) && branch.rows[BranchHeads(branch)[slot]].slot == slot
  {
    hide Heads;
    var rows, heads := Unlayered(branch.rows), BranchHeads(branch);
    assert forall k :: 0 <= k < |rows| ==> rows[k].slot == branch.rows[k].slot && rows[k].status == branch.rows[k].status
                                           && (Shown(rows[k], {}) <==> rows[k].status.Active?);
    if j: nat :| j < |branch.rows| && branch.rows[j].status.Active? && branch.rows[j].slot == slot {
      assert Shown(rows[j], {}) && rows[j].slot in heads;
      StandsIs(branch, heads[slot]);
    }
    if slot in heads { assert Shown(rows[heads[slot]], {}) && heads[slot] < |branch.rows|; }
  }

  /** After adopting a branch cut from the head every row shown states the fact, confidence
      and status the branch's last active row of its slot states, and a slot shows a row
      exactly when the branch has an active row in it. */
  lemma AdoptionStates(live: Live, branch: Branch, e: nat, now: Time)
    requires Adoptable(live, e) && CutFromHead(live, branch, e) && OnePerSlot(live.rows, Head(live))
    ensures var after := AfterAdopt(live, branch, e, now);
            && (forall i: nat, slot: string :: ShownIn(after, i, slot) ==>
                  Stated(branch, after.rows[i]))
            && (forall slot: string :: SlotShown(after, slot) <==> Covers(branch, slot))
  {
    hide AfterAdopt, Heads, OnePerSlot, CutFromHead, Adoptable, Head, Stands, Covers;
    var after := AfterAdopt(live, branch, e, now);
    forall i: nat, slot: string | ShownIn(after, i, slot)
      ensures Stated(branch, after.rows[i])
    {
      SlotsShownExactly(live, branch, e, now, slot);
      CoversIs(branch, after.rows[i].slot);
      var j := BranchHeads(branch)[after.rows[i].slot];
      FacesAlike(branch, after.rows[i], j);
    }
    forall slot: string ensures SlotShown(after, slot) <==> Covers(branch, slot) {
      SlotsShownExactly(live, branch, e, now, slot);
      CoversIs(branch, slot);
    }
  }

  predicate StatesAlike(a: Row, b: Row) {
    a.slot == b.slot && a.fact == b.fact && a.confidence == b.confidence && a.status == b.status
  }

  /** The branch's last active row of the slot states what the row states. */
  ghost predicate Stated(branch: Branch, row: Row) {
    exists j: nat :: Stands(branch, j) && StatesAlike(row, branch.rows[j])
  }

  lemma FacesAlike(branch: Branch, row: Row, j: nat)
    requires BranchFace(branch, row) && j < |branch.rows| && j == BranchHeads(branch)[row.slot] && branch.rows[j].slot == row.slot
    ensures StatesAlike(row, branch.rows[j])
  {
    hide Heads;
  }

  lemma AgreedIs(live: Live, branch: Branch, i: nat)
    requires OnePerSlot(live.rows, Head(live)) && i < |live.rows| && Shown(live.rows[i], Head(live))
    ensures Agreed(live, branch, live.rows[i].slot) <==>
            Stated(branch, live.rows[i])
  {
    var slot := live.rows[i].slot;
    assert slot in Heads(live.rows, Head(live)) && Heads(live.rows, Head(live))[slot] == i;
    hide Heads, Head, Stands;
    CoversIs(branch, slot);
    if Stated(branch, live.rows[i]) {
      var j: nat :| Stands(branch, j) && StatesAlike(live.rows[i], branch.rows[j]);
      StandsAt(branch, j);
    }
    if Agreed(live, branch, slot) { assert Stands(branch, BranchHeads(branch)[slot]); }
  }

  lemma StandsAt(branch: Branch, j: nat)
    requires Stands(branch, j)
    ensures j < |branch.rows| && branch.rows[j].slot in BranchHeads(branch) && BranchHeads(branch)[branch.rows[j].slot] == j
  {
    hide Heads;
    StandsIs(branch, j);
  }

  /** The copy standing at *s* takes over the slot. */
  ghost predicate TakesOver(branch: Branch, after: Live, slot: string, was: nat, row: Row) {
    exists j: nat, s: nat :: TakenBy(branch, after, slot, was, row, j, s)
  }

  ghost predicate TakenBy(branch: Branch, after: Live, slot: string, was: nat, row: Row, j: nat, s: nat) {
    && Stands(branch, j) && branch.rows[j].slot == slot && was <= s < |after.rows|
    && after.rows[s] == branch.rows[j] && row.successor == Some(s) && row.supersededBy == Some(branch.rows[j].run)
  }

  /** A shown row is kept as it is exactly when the branch's row of its slot states the same
      fact with the same confidence and status; otherwise it is superseded now, by the copy
      of the branch's row and its run if the branch has one, by nothing if it has none. */
  lemma KeptExactly(live: Live, branch: Branch, e: nat, now: Time, i: nat)
    requires Adoptable(live, e) && OnePerSlot(live.rows, Head(live)) && i < |live.rows| && Shown(live.rows[i], Head(live))
    ensures var after, slot := AfterAdopt(live, branch, e, now), live.rows[i].slot;
            && |live.rows| <= |after.rows|
            && var row := after.rows[i];
            if Stated(branch, live.rows[i]) then row == live.rows[i]
            else
              && row.status.Superseded? && row.end == Some(now)
              && row.slot == slot && row.fact == live.rows[i].fact && row.confidence == live.rows[i].confidence
              && (if Covers(branch, slot) then TakesOver(branch, after, slot, |live.rows|, row)
                  else row.successor == live.rows[i].successor && row.supersededBy == live.rows[i].supersededBy)
  {
    HeadAfterAdopt(live, branch, e, now);
    AdoptedRow(live, branch, now, i);
    AgreedIs(live, branch, i);
    assert Heads(live.rows, Head(live))[live.rows[i].slot] == i;
    hide AfterAdopt, AdoptedRows, Heads, Head, Order, Stands, Covers, Stated, TakesOver, Merges, Agreed;
    var slot := live.rows[i].slot;
    CoversIs(branch, slot);
    if !Agreed(live, branch, slot) {
      if Covers(branch, slot) { Succeeded(live, branch, e, now, i); } else { NoReplacement(live, branch, slot); }
    }
  }

  lemma CopyPlaced(live: Live, branch: Branch, now: Time, slot: string) returns (k: nat)
    requires Covers(branch, slot) && !Agreed(live, branch, slot)
    ensures k < |Order(live, branch)| && Replacement(live, branch, Order(live, branch), slot) == Some(k)
    ensures Stands(branch, Order(live, branch)[k]) && branch.rows[Order(live, branch)[k]].slot == slot
    ensures |live.rows| + k < |AdoptedRows(live, branch, now)|
    ensures AdoptedRows(live, branch, now)[|live.rows| + k] == branch.rows[Order(live, branch)[k]]
  {
    hide Heads, Head, Stands, Covers, Agreed, Order, AdoptedRows, Merges;
    CoversIs(branch, slot);
    var place := MergedPlace(live, branch, slot);
    var order := Order(live, branch);
    assert branch.rows[order[place - |live.rows|]].slot == slot;
    k := Replacement(live, branch, order, slot).value;
    AdoptedRow(live, branch, now, |live.rows| + k);
    MergesStands(live, branch, order[k]);
  }

  lemma MergesStands(live: Live, branch: Branch, j: nat)
    requires Merges(live, branch, j)
    ensures Stands(branch, j)
  {
    hide Heads, Agreed, Stands;
    StandsIs(branch, j);
  }

  lemma Succeeded(live: Live, branch: Branch, e: nat, now: Time, i: nat)
    requires Adoptable(live, e) && i < |live.rows| && Covers(branch, live.rows[i].slot)
    requires !Agreed(live, branch, live.rows[i].slot)
    ensures TakesOver(branch, AfterAdopt(live, branch, e, now), live.rows[i].slot, |live.rows|, Retired(live, branch, i, now))
  {
    hide AfterAdopt, Heads, Head, Stands, Covers, Agreed, Order, AdoptedRows, Replacement;
    HeadAfterAdopt(live, branch, e, now);
    var k := CopyPlaced(live, branch, now, live.rows[i].slot);
    assert TakenBy(branch, AfterAdopt(live, branch, e, now), live.rows[i].slot, |live.rows|, Retired(live, branch, i, now),
                   Order(live, branch)[k], |live.rows| + k);
  }

  /** After an adoption every name of the branch resolves to what the branch resolves it to,
      stamped with the epoch exactly when that is news; every other name as before. */
  lemma NamesResolve(live: Live, branch: Branch, e: nat, now: Time, name: string)
    requires Adoptable(live, e)
    ensures var names := AfterAdopt(live, branch, e, now).names;
            && (name in names <==> name in live.names || name in branch.names)
            && (name in branch.names ==>
                  names[name].canonical == branch.names[name].canonical && names[name].state == branch.names[name].state)
            && (name in live.names && name !in branch.names ==> names[name] == live.names[name])
            && (name in branch.names ==>
                  if name in live.names && live.names[name].canonical == branch.names[name].canonical
                     && live.names[name].state == branch.names[name].state
                  then names[name] == live.names[name] else names[name].epoch == Some(e))
  {
    hide Taken, AdoptedRows;
  }

  /** And the head, its parent and the epochs are as adopted, every other epoch as it was. */
  lemma EpochsMove(live: Live, branch: Branch, e: nat, now: Time, k: nat)
    requires Adoptable(live, e) && k < |live.epochs|
    ensures var after := AfterAdopt(live, branch, e, now);
            && after.head == e && |after.epochs| == |live.epochs| && after.epochs[k].parent == live.epochs[k].parent
            && after.epochs[k].status == (if k == e then Adopted
                                          else if live.epochs[e].parent == Some(k) then Replaced
                                          else live.epochs[k].status)
            && (k != e ==> after.epochs[k].snapshot == live.epochs[k].snapshot)
  {
    hide Taken, AdoptedRows, AdoptedNames;
  }
}
