/** What adopting and rolling back an epoch guarantee, and exactly when. */
module EpochProof {
  import opened Ids
  import opened Epochs

  // ----------------------------------------------------------------- adoption

  predicate OnePerSlot(rows: seq<Row>, ancestry: set<nat>) {
    forall i, j :: 0 <= i < j < |rows| && Shown(rows[i], ancestry) && Shown(rows[j], ancestry) ==> rows[i].slot != rows[j].slot
  }

  /** A faithful adoption shows the agreed slots' own rows and every copy, and
      nothing else. */
  ghost predicate Faithful(live: Live, branch: Branch, e: nat, now: Time)
    requires Adoptable(live, e)
  {
    var after := AfterAdopt(live, branch, e, now);
    forall i :: 0 <= i < |after.rows| ==> (Shown(after.rows[i], Head(after)) <==> Promised(live, branch, i))
  }

  ghost predicate Promised(live: Live, branch: Branch, i: nat) {
    i < |live.rows| ==> Shown(live.rows[i], Head(live)) && !Retires(live, branch, i)
  }

  /** The check before adopting: moving the head neither hides nor reveals a row that
      stays, and the branch's rows belong to what the new head can see. */
  ghost predicate FitsHead(live: Live, branch: Branch, e: nat) {
    var next := Ancestry(live.epochs, e);
    && (forall i :: 0 <= i < |live.rows| && live.rows[i].status.Active? && !Retires(live, branch, i) ==>
          (Visible(live.rows[i], next) <==> Visible(live.rows[i], Head(live))))
    && forall j :: 0 <= j < |branch.rows| && Merges(live, branch, j) ==> Visible(branch.rows[j], next)
  }

  lemma {:induction false} AncestryReadsParents(a: seq<Epoch>, b: seq<Epoch>, e: nat)
    requires |a| == |b| && forall i :: 0 <= i < |a| ==> a[i].parent == b[i].parent
    ensures Ancestry(a, e) == Ancestry(b, e)
    decreases e
  {
    if e < |a| && a[e].parent.Some? && a[e].parent.value < e {
      AncestryReadsParents(a, b, a[e].parent.value);
    }
  }

  lemma HeadAfterAdopt(live: Live, branch: Branch, e: nat, now: Time)
    requires Adoptable(live, e)
    ensures Head(AfterAdopt(live, branch, e, now)) == Ancestry(live.epochs, e)
    ensures AfterAdopt(live, branch, e, now).rows == AdoptedRows(live, branch, now)
  {
    hide Taken, AdoptedRows, AdoptedNames, Ancestry;
    AncestryReadsParents(AfterAdopt(live, branch, e, now).epochs, live.epochs, e);
  }

  lemma MergedIsShown(branch: Branch, j: nat)
    requires j < |branch.rows| && branch.rows[j].slot in BranchHeads(branch)
      && BranchHeads(branch)[branch.rows[j].slot] == j
    ensures branch.rows[j].status.Active?
  {
    assert Unlayered(branch.rows)[j].status == branch.rows[j].status;
  }

  lemma AdoptedRow(live: Live, branch: Branch, now: Time, i: nat)
    requires i < |AdoptedRows(live, branch, now)|
    ensures i < |live.rows| && !Retires(live, branch, i) ==> AdoptedRows(live, branch, now)[i] == live.rows[i]
    ensures i < |live.rows| && Retires(live, branch, i) ==> AdoptedRows(live, branch, now)[i] == Retired(live, branch, i, now)
    ensures i >= |live.rows| ==> i - |live.rows| < |Order(live, branch)|
    ensures i >= |live.rows| ==>
      AdoptedRows(live, branch, now)[i] == branch.rows[Order(live, branch)[i - |live.rows|]]
    ensures i >= |live.rows| ==> Merges(live, branch, Order(live, branch)[i - |live.rows|])
  {
    hide Retires, Merges, Retired;
  }

  /** What the new head makes of one row. */
  lemma ShownAfter(live: Live, branch: Branch, now: Time, next: set<nat>, i: nat)
    requires i < |AdoptedRows(live, branch, now)|
    ensures i < |live.rows| ==>
      (Shown(AdoptedRows(live, branch, now)[i], next) <==>
       live.rows[i].status.Active? && !Retires(live, branch, i) && Visible(live.rows[i], next))
    ensures i >= |live.rows| ==> i - |live.rows| < |Order(live, branch)|
    ensures i >= |live.rows| ==> Merges(live, branch, Order(live, branch)[i - |live.rows|])
    ensures i >= |live.rows| ==>
      (Shown(AdoptedRows(live, branch, now)[i], next) <==> Visible(branch.rows[Order(live, branch)[i - |live.rows|]], next))
  {
    AdoptedRow(live, branch, now, i);
    hide AdoptedRows, Retires, Heads, Agreed;
    if i >= |live.rows| { MergedIsShown(branch, Order(live, branch)[i - |live.rows|]); }
  }

  lemma FaithfulRow(live: Live, branch: Branch, e: nat, now: Time, i: nat)
    requires Adoptable(live, e) && Faithful(live, branch, e, now) && i < |AdoptedRows(live, branch, now)|
    ensures Shown(AdoptedRows(live, branch, now)[i], Ancestry(live.epochs, e)) <==> Promised(live, branch, i)
  {
    HeadAfterAdopt(live, branch, e, now);
    hide AfterAdopt, AdoptedRows, Ancestry, Head, Retires, Merges, Visible, Order, Promised, Shown;
  }

  lemma FaithfulFits(live: Live, branch: Branch, e: nat, now: Time)
    requires Adoptable(live, e) && Faithful(live, branch, e, now)
    ensures FitsHead(live, branch, e)
  {
    var after, next := AdoptedRows(live, branch, now), Ancestry(live.epochs, e);
    hide AfterAdopt, AdoptedRows, Ancestry, Head, Retires, Merges, Visible, Order, Faithful, Adoptable;
    forall i | 0 <= i < |live.rows| && live.rows[i].status.Active? && !Retires(live, branch, i)
      ensures Visible(live.rows[i], next) <==> Visible(live.rows[i], Head(live))
    {
      ShownAfter(live, branch, now, next, i);
      FaithfulRow(live, branch, e, now, i);
    }
    forall j | 0 <= j < |branch.rows| && Merges(live, branch, j)
      ensures Visible(branch.rows[j], next)
    {
      OrderHolds(live, branch, j);
      var k :| 0 <= k < |Order(live, branch)| && Order(live, branch)[k] == j;
      assert |after| == |live.rows| + |Order(live, branch)|;
      ShownAfter(live, branch, now, next, |live.rows| + k);
      FaithfulRow(live, branch, e, now, |live.rows| + k);
    }
  }

  lemma FitsIsFaithful(live: Live, branch: Branch, e: nat, now: Time)
    requires Adoptable(live, e) && FitsHead(live, branch, e)
    ensures Faithful(live, branch, e, now)
  {
    HeadAfterAdopt(live, branch, e, now);
    var after, next := AdoptedRows(live, branch, now), Ancestry(live.epochs, e);
    hide AfterAdopt, AdoptedRows, Ancestry, Head, Retires, Merges, Visible, Order;
    forall i | 0 <= i < |after|
      ensures Shown(after[i], next) <==> Promised(live, branch, i)
    {
      ShownAfter(live, branch, now, next, i);
    }
  }

  /** Adopting is faithful exactly when the branch fits the head. */
  lemma AdoptFaithfulExactly(live: Live, branch: Branch, e: nat, now: Time)
    requires Adoptable(live, e)
    ensures Faithful(live, branch, e, now) <==> FitsHead(live, branch, e)
  {
    hide Faithful, FitsHead;
    if Faithful(live, branch, e, now) { FaithfulFits(live, branch, e, now); }
    if FitsHead(live, branch, e) { FitsIsFaithful(live, branch, e, now); }
  }

  lemma OrderHolds(live: Live, branch: Branch, j: nat)
    requires j < |branch.rows| && Merges(live, branch, j)
    ensures j in Order(live, branch)
  {
    hide Merges;
  }

  /** The usual case: the branch was cut from the current head, and nothing but the
      branch carries its epoch. */
  ghost predicate CutFromHead(live: Live, branch: Branch, e: nat) {
    && e < |live.epochs| && live.epochs[e].parent == Some(live.head) && live.head < e
    && (forall i :: 0 <= i < |live.rows| ==> live.rows[i].epoch != Some(e))
    && forall j :: 0 <= j < |branch.rows| ==> Visible(branch.rows[j], Head(live) + {e})
  }

  lemma CutFromHeadFits(live: Live, branch: Branch, e: nat)
    requires CutFromHead(live, branch, e)
    ensures FitsHead(live, branch, e)
  {
    assert Ancestry(live.epochs, e) == {e} + Head(live);
  }

  predicate ShownIn(after: Live, i: nat, slot: string) {
    i < |after.rows| && Shown(after.rows[i], Head(after)) && after.rows[i].slot == slot
  }

  ghost predicate SlotShown(after: Live, slot: string) { exists i: nat :: ShownIn(after, i, slot) }

  /** The row has the face the branch gives its slot. */
  predicate BranchFace(branch: Branch, row: Row) {
    row.slot in BranchHeads(branch) && SameFace(row, branch.rows[BranchHeads(branch)[row.slot]])
  }

  /** And then the slots shown after adoption are exactly those the branch shows, each
      with the branch's face. */
  lemma SlotsShownExactly(live: Live, branch: Branch, e: nat, now: Time, slot: string)
    requires Adoptable(live, e) && CutFromHead(live, branch, e) && OnePerSlot(live.rows, Head(live))
    ensures SlotShown(AfterAdopt(live, branch, e, now), slot) <==> slot in BranchHeads(branch)
    ensures forall i: nat :: ShownIn(AfterAdopt(live, branch, e, now), i, slot) ==>
      BranchFace(branch, AfterAdopt(live, branch, e, now).rows[i])
  {
    hide AfterAdopt, Ancestry, Head, Heads, OnePerSlot, CutFromHead, BranchFace, Adoptable;
    var after := AfterAdopt(live, branch, e, now);
    forall i: nat | ShownIn(after, i, slot) ensures BranchFace(branch, after.rows[i]) {
      SlotShowsBranch(live, branch, e, now, i);
    }
    if i: nat :| ShownIn(after, i, slot) { FaceHasSlot(branch, after.rows[i]); }
    if slot in BranchHeads(branch) {
      var i := BranchSlotShown(live, branch, e, now, slot);
      assert ShownIn(after, i, slot);
    }
  }

  lemma FaceHasSlot(branch: Branch, row: Row)
    requires BranchFace(branch, row)
    ensures row.slot in BranchHeads(branch)
  {
  }

  lemma BranchSlotShown(live: Live, branch: Branch, e: nat, now: Time, slot: string) returns (i: nat)
    requires Adoptable(live, e) && CutFromHead(live, branch, e) && slot in BranchHeads(branch)
    ensures ShownIn(AfterAdopt(live, branch, e, now), i, slot)
  {
    hide AfterAdopt, AdoptedRows, FitsHead, Ancestry, Order, CutFromHead, SameFace, Retires, Merges, Shown, Heads, Adoptable;
    CutFromHeadFits(live, branch, e);
    AdoptFaithfulExactly(live, branch, e, now);
    HeadAfterAdopt(live, branch, e, now);
    if Agreed(live, branch, slot) {
      i := AgreedPlace(live, branch, slot);
    } else {
      i := MergedPlace(live, branch, slot);
    }
    AdoptedRow(live, branch, now, i);
  }

  /** An agreed slot keeps the row it had. */
  lemma AgreedPlace(live: Live, branch: Branch, slot: string) returns (i: nat)
    requires Agreed(live, branch, slot)
    ensures i < |live.rows| && Promised(live, branch, i) && !Retires(live, branch, i) && live.rows[i].slot == slot
  {
    i := Heads(live.rows, Head(live))[slot];
  }

  /** Any other gets the branch's. */
  lemma MergedPlace(live: Live, branch: Branch, slot: string) returns (i: nat)
    requires slot in BranchHeads(branch) && !Agreed(live, branch, slot)
    ensures |live.rows| <= i < |live.rows| + |Order(live, branch)| && Promised(live, branch, i)
    ensures branch.rows[Order(live, branch)[i - |live.rows|]].slot == slot
  {
    hide Order, Agreed, Heads;
    var j := BranchHeads(branch)[slot];
    HeadsSlot(branch, slot);
    OrderHolds(live, branch, j);
    var k :| 0 <= k < |Order(live, branch)| && Order(live, branch)[k] == j;
    i := |live.rows| + k;
  }

  lemma HeadsSlot(branch: Branch, slot: string)
    requires slot in BranchHeads(branch)
    ensures BranchHeads(branch)[slot] < |branch.rows| && branch.rows[BranchHeads(branch)[slot]].slot == slot
  {
    assert Unlayered(branch.rows)[BranchHeads(branch)[slot]].slot == branch.rows[BranchHeads(branch)[slot]].slot;
  }

  lemma SlotShowsBranch(live: Live, branch: Branch, e: nat, now: Time, i: nat)
    requires Adoptable(live, e) && CutFromHead(live, branch, e) && OnePerSlot(live.rows, Head(live))
    requires i < |AfterAdopt(live, branch, e, now).rows|
    requires Shown(AfterAdopt(live, branch, e, now).rows[i], Head(AfterAdopt(live, branch, e, now)))
    ensures BranchFace(branch, AfterAdopt(live, branch, e, now).rows[i])
  {
    HeadAfterAdopt(live, branch, e, now);
    CutFromHeadFits(live, branch, e);
    AdoptFaithfulExactly(live, branch, e, now);
    assert Promised(live, branch, i);
    AdoptedRow(live, branch, now, i);
    hide AfterAdopt, AdoptedRows, FitsHead, Ancestry;
    if i < |live.rows| {
      assert Heads(live.rows, Head(live))[live.rows[i].slot] == i;
      assert Agreed(live, branch, live.rows[i].slot);
    }
  }

  /** Whoever wrote a row and whenever: a fact the scope shows survives an adoption
      untouched exactly when the branch shows the same face in its slot. What was
      written after the branch was cut is retired with the rest. */
  lemma SurvivesExactly(live: Live, branch: Branch, e: nat, now: Time, i: nat)
    requires Adoptable(live, e) && OnePerSlot(live.rows, Head(live))
    requires i < |live.rows| && Shown(live.rows[i], Head(live))
    ensures AfterAdopt(live, branch, e, now).rows[i] == live.rows[i] <==> Agreed(live, branch, live.rows[i].slot)
    ensures live.rows[i].slot !in BranchHeads(branch) ==>
      AfterAdopt(live, branch, e, now).rows[i]
        == live.rows[i].(status := Superseded, end := Some(now))
  {
    HeadAfterAdopt(live, branch, e, now);
    AdoptedRow(live, branch, now, i);
    assert Heads(live.rows, Head(live))[live.rows[i].slot] == i;
    hide AfterAdopt, AdoptedRows, Heads, Head, Order, BranchHeads, Ancestry;
    assert Retired(live, branch, i, now).status.Superseded?;
    if live.rows[i].slot !in BranchHeads(branch) {
      NoReplacement(live, branch, live.rows[i].slot);
    }
  }

  lemma NoReplacement(live: Live, branch: Branch, slot: string)
    requires slot !in BranchHeads(branch)
    ensures Replacement(live, branch, Order(live, branch), slot).None?
  {
    hide Heads, Agreed;
    var order := Order(live, branch);
    forall k | 0 <= k < |order|
      ensures branch.rows[order[k]].slot != slot
    {
      assert Merges(live, branch, order[k]);
    }
  }

  // ----------------------------------------------------------------- rollback

  function Unsave(row: Row, s: Saved): Row {
    row.(status := s.status, end := s.end, successor := s.successor, supersededBy := s.supersededBy,
         inContext := s.inContext)
  }

  lemma UnsavingUndoes(live: Live, branch: Branch, i: nat, now: Time)
    requires i < |live.rows|
    ensures Unsave(Retired(live, branch, i, now), Save(live.rows[i])) == live.rows[i]
  {
    hide Order, Replacement;
  }

  lemma RollbackRestoresRows(live: Live, branch: Branch, e: nat, now: Time, extra: seq<Row>)
    requires Adoptable(live, e)
    ensures var rows := AdoptedRows(live, branch, now) + extra;
      RestoredRows(rows, Taken(live, branch).rows) == live.rows + rows[|live.rows|..]
  {
    hide Retires, Retired, Order, Merges, AdoptedRows, Adoptable;
    var rows, saved := AdoptedRows(live, branch, now) + extra, Taken(live, branch).rows;
    forall i | 0 <= i < |rows|
      ensures RestoredRows(rows, saved)[i] == (live.rows + rows[|live.rows|..])[i]
    {
      if i < |live.rows| {
        AdoptedRow(live, branch, now, i);
        UnsavingUndoes(live, branch, i, now);
        assert i in saved <==> Retires(live, branch, i);
        assert i in saved ==> RestoredRows(rows, saved)[i] == Unsave(rows[i], Save(live.rows[i]));
      }
    }
  }

  lemma RollbackRestoresNames(live: Live, branch: Branch, e: nat)
    ensures RestoredNames(AdoptedNames(live, branch, e), Taken(live, branch).names) == live.names
  {
    hide Retires, Order, Merges;
    var names, saved := AdoptedNames(live, branch, e), Taken(live, branch).names;
    forall name
      ensures name in RestoredNames(names, saved) <==> name in live.names
      ensures name in live.names ==> RestoredNames(names, saved)[name] == live.names[name]
    {
    }
  }

  /** The copies an adoption made that the head it came from would also show. */
  ghost predicate Leaves(live: Live, branch: Branch) {
    exists j :: 0 <= j < |branch.rows| && Merges(live, branch, j) && Visible(branch.rows[j], Head(live))
  }

  lemma ViewGrows(rows: seq<Row>, more: seq<Row>, ancestry: set<nat>)
    ensures View(rows + more, ancestry) == View(rows, ancestry) <==> forall k :: 0 <= k < |more| ==> !Visible(more[k], ancestry)
  {
    var all := rows + more;
    if View(all, ancestry) == View(rows, ancestry) {
      forall k | 0 <= k < |more|
        ensures !Visible(more[k], ancestry)
      {
        assert all[|rows| + k] == more[k];
        assert |rows| + k !in View(rows, ancestry);
      }
    }
    forall i: nat
      ensures i in View(rows, ancestry) ==> i in View(all, ancestry) && View(all, ancestry)[i] == View(rows, ancestry)[i]
      ensures i in View(all, ancestry) && i !in View(rows, ancestry) ==> |rows| <= i < |all| && Visible(more[i - |rows|], ancestry)
    {
    }
  }

  /** Rolling back straight after an adoption restores the registries, the head, and
      everything the graph hash reads, exactly when no copied row belongs to the
      older head: a branch that merely reinforced a fact it inherited leaves a
      second active copy behind. */
  lemma RollbackRestoresExactly(live: Live, branch: Branch, e: nat, now: Time)
    requires Adoptable(live, e) && live.epochs[e].parent == Some(live.head)
    ensures CanRollBack(AfterAdopt(live, branch, e, now))
    ensures var back := AfterRollback(AfterAdopt(live, branch, e, now));
      && back.head == live.head && back.names == live.names && Head(back) == Head(live)
      && (View(back.rows, Head(back)) == View(live.rows, Head(live)) <==> !Leaves(live, branch))
  {
    var adopted := AfterAdopt(live, branch, e, now);
    var back := AfterRollback(adopted);
    AncestryReadsParents(back.epochs, live.epochs, live.head);
    RollbackRestoresRows(live, branch, e, now, []);
    assert adopted.rows + [] == adopted.rows;
    RollbackRestoresNames(live, branch, e);
    var more := adopted.rows[|live.rows|..];
    assert back.rows == live.rows + more;
    ViewGrows(live.rows, more, Head(live));
    CopiesLeave(live, branch, now);
  }

  lemma CopiesLeave(live: Live, branch: Branch, now: Time)
    ensures (forall k :: 0 <= k < |AdoptedRows(live, branch, now)| - |live.rows| ==>
               !Visible(AdoptedRows(live, branch, now)[|live.rows|..][k], Head(live))) <==> !Leaves(live, branch)
  {
    var rows, order := AdoptedRows(live, branch, now), Order(live, branch);
    forall k | 0 <= k < |order|
      ensures rows[|live.rows|..][k] == branch.rows[order[k]] && Merges(live, branch, order[k])
    {
      AdoptedRow(live, branch, now, |live.rows| + k);
    }
    hide Merges, AdoptedRows, Order;
    forall j | 0 <= j < |branch.rows| && Merges(live, branch, j)
      ensures j in order
    {
      OrderHolds(live, branch, j);
    }
  }

  // ------------------------------------------------------------- other claims

  /** A scope that was never branched sees every row of its one epoch. */
  lemma UnbranchedSeesAll(live: Live)
    requires forall i :: 0 <= i < |live.rows| ==> live.rows[i].epoch in {None, Some(live.head)}
    ensures forall i: nat :: i < |live.rows| ==> i in View(live.rows, Head(live))
  {
  }

  // -------------------------------------------------- a stack of adoptions

  datatype Move = Move(branch: Branch, e: nat, now: Time)

  /** A branch cut from the head, whose changed rows all carry its own epoch. */
  ghost predicate Clean(live: Live, m: Move) {
    && Adoptable(live, m.e) && live.epochs[m.e].parent == Some(live.head) && live.head < m.e
    && forall j :: 0 <= j < |m.branch.rows| && Merges(live, m.branch, j) ==> m.branch.rows[j].epoch == Some(m.e)
  }

  ghost predicate AllClean(live: Live, moves: seq<Move>)
    decreases |moves|
  {
    moves == [] || (Clean(live, moves[0])
                    && AllClean(AfterAdopt(live, moves[0].branch, moves[0].e, moves[0].now), moves[1..]))
  }

  ghost function AdoptAll(live: Live, moves: seq<Move>): Live
    requires AllClean(live, moves)
    decreases |moves|
  {
    if moves == [] then live
    else AdoptAll(AfterAdopt(live, moves[0].branch, moves[0].e, moves[0].now), moves[1..])
  }

  ghost function RollBackAll(live: Live, n: nat): Live
    decreases n
  {
    if n == 0 || !CanRollBack(live) then live else RollBackAll(AfterRollback(live), n - 1)
  }

  /** `back` is `live` again, but for rows of later epochs and the epochs' labels. */
  ghost predicate IsAgain(back: Live, live: Live) {
    && back.head == live.head && back.names == live.names && |back.epochs| == |live.epochs|
    && (forall i :: 0 <= i < |live.epochs| ==> back.epochs[i].parent == live.epochs[i].parent)
    && (forall i :: 0 <= i < |live.epochs| && i <= live.head ==> back.epochs[i].snapshot == live.epochs[i].snapshot)
    && |live.rows| <= |back.rows| && back.rows[..|live.rows|] == live.rows
    && forall k :: |live.rows| <= k < |back.rows| ==> back.rows[k].epoch.Some? && back.rows[k].epoch.value > live.head
  }

  lemma AgainShowsTheSame(back: Live, live: Live)
    requires IsAgain(back, live)
    ensures Head(back) == Head(live) && View(back.rows, Head(back)) == View(live.rows, Head(live))
  {
    AncestryReadsParents(back.epochs, live.epochs, live.head);
    var more := back.rows[|live.rows|..];
    assert back.rows == live.rows + more;
    ViewGrows(live.rows, more, Head(live));
  }

  lemma CopiesAreLater(live: Live, m: Move, k: nat)
    requires Clean(live, m) && |live.rows| <= k < |AdoptedRows(live, m.branch, m.now)|
    ensures AdoptedRows(live, m.branch, m.now)[k].epoch == Some(m.e)
  {
    hide Merges, AdoptedRows, Order;
    AdoptedRow(live, m.branch, m.now, k);
  }

  /** One more rollback, from a state that is the adopted one again. */
  lemma RollingBackAgain(live: Live, m: Move, back: Live)
    requires Clean(live, m) && IsAgain(back, AfterAdopt(live, m.branch, m.e, m.now))
    ensures CanRollBack(back) && IsAgain(AfterRollback(back), live)
  {
    hide Taken, RestoredNames, AdoptedNames, RestoredRows, AdoptedRows, Merges, Order;
    var adopted := AfterAdopt(live, m.branch, m.e, m.now);
    var extra := back.rows[|adopted.rows|..];
    assert back.rows == adopted.rows + extra;
    assert back.epochs[m.e].snapshot == adopted.epochs[m.e].snapshot == Some(Taken(live, m.branch));
    RollbackRestoresRows(live, m.branch, m.e, m.now, extra);
    RollbackRestoresNames(live, m.branch, m.e);
    var after := AfterRollback(back);
    assert after.rows == live.rows + back.rows[|live.rows|..];
    forall k | |live.rows| <= k < |after.rows|
      ensures after.rows[k].epoch.Some? && after.rows[k].epoch.value > live.head
    {
      assert after.rows[k] == back.rows[k];
      if k < |adopted.rows| { CopiesAreLater(live, m, k); }
    }
  }

  lemma {:induction false} RollingBackUnwinds(live: Live, moves: seq<Move>, back: Live)
    requires AllClean(live, moves) && IsAgain(back, AdoptAll(live, moves))
    ensures IsAgain(RollBackAll(back, |moves|), live)
    decreases |moves|
  {
    hide IsAgain, AfterAdopt, AfterRollback;
    if moves != [] {
      var first := AfterAdopt(live, moves[0].branch, moves[0].e, moves[0].now);
      RollingBackUnwinds(first, moves[1..], back);
      var almost := RollBackAll(back, |moves| - 1);
      RollingBackAgain(live, moves[0], almost);
      RollBackOnceMore(back, |moves| - 1);
    }
  }

  lemma {:induction false} RollBackOnceMore(live: Live, n: nat)
    requires CanRollBack(RollBackAll(live, n))
    ensures RollBackAll(live, n + 1) == AfterRollback(RollBackAll(live, n))
    decreases n
  {
    hide AfterRollback, CanRollBack;
    if n > 0 && CanRollBack(live) {
      RollBackOnceMore(AfterRollback(live), n - 1);
    }
  }

  /** However many branches are adopted one on another, rolling back as many times
      restores the registries and everything the graph hash reads. */
  lemma RollbacksUndoAdoptions(live: Live, moves: seq<Move>)
    requires AllClean(live, moves)
    ensures var back := RollBackAll(AdoptAll(live, moves), |moves|);
      back.names == live.names && back.head == live.head
      && View(back.rows, Head(back)) == View(live.rows, Head(live))
  {
    hide AllClean, AdoptAll, RollBackAll, View;
    RollingBackUnwinds(live, moves, AdoptAll(live, moves));
    AgainShowsTheSame(RollBackAll(AdoptAll(live, moves), |moves|), live);
  }
}
