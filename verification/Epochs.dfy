/** Re-dream epochs: a branch recomputed aside is adopted by merging what it changed
    and moving the head pointer, and rolled back from an exact snapshot. */
module Epochs {
  import opened Ids

  type Time = int

  datatype Status = Active | Superseded | Pruned

  /** A stored fact, named by its position. `slot` is its truth key. */
  datatype Row = Row(slot: string, fact: string, confidence: real, status: Status, end: Option<Time>,
                     successor: Option<nat>, supersededBy: Option<string>, inContext: bool, run: string,
                     epoch: Option<nat>)

  /** A registry entry and the epoch that wrote it. */
  datatype Name = Name(canonical: string, state: string, epoch: Option<nat>)

  datatype EpochStatus = Open | Ready | Adopted | Replaced | Discarded

  /** What adoption remembers of a row it retires. */
  datatype Saved = Saved(status: Status, end: Option<Time>, successor: Option<nat>, supersededBy: Option<string>,
                         inContext: bool)

  datatype Snapshot = Snapshot(rows: map<nat, Saved>, names: map<string, Option<Name>>)

  datatype Epoch = Epoch(parent: Option<nat>, status: EpochStatus, snapshot: Option<Snapshot>)

  datatype Live = Live(rows: seq<Row>, names: map<string, Name>, epochs: seq<Epoch>, head: nat)

  /** The separate store a branch was recomputed in. */
  datatype Branch = Branch(rows: seq<Row>, names: map<string, Name>)

  // -------------------------------------------------------------- visibility

  /** The epoch and all it descends from. */
  function Ancestry(epochs: seq<Epoch>, e: nat): (s: set<nat>)
    ensures forall a :: a in s ==> a <= e
    decreases e
  {
    if e < |epochs| && epochs[e].parent.Some? && epochs[e].parent.value < e
    then {e} + Ancestry(epochs, epochs[e].parent.value)
    else {e}
  }

  predicate Visible(row: Row, ancestry: set<nat>) { row.epoch.Some? ==> row.epoch.value in ancestry }

  predicate Shown(row: Row, ancestry: set<nat>) { row.status.Active? && Visible(row, ancestry) }

  /** Everything the graph hash reads, for every row the head can see. */
  function View(rows: seq<Row>, ancestry: set<nat>): map<nat, Row> {
    map i: nat | i < |rows| && Visible(rows[i], ancestry) :: rows[i]
  }

  function Head(live: Live): set<nat> { Ancestry(live.epochs, live.head) }

  // ---------------------------------------------------------------- the diff

  /** The row that stands for each slot: the last one shown. */
  function Heads(rows: seq<Row>, ancestry: set<nat>): (m: map<string, nat>)
    ensures forall s :: s in m ==> m[s] < |rows| && Shown(rows[m[s]], ancestry) && rows[m[s]].slot == s
    ensures forall i :: 0 <= i < |rows| && Shown(rows[i], ancestry) ==> rows[i].slot in m && i <= m[rows[i].slot]
  {
    if rows == [] then map[]
    else
      var last := |rows| - 1;
      var rest := Heads(rows[..last], ancestry);
      if Shown(rows[last], ancestry) then rest[rows[last].slot := last] else rest
  }

  /** The branch's own store has one epoch layer: all its rows count. */
  function BranchHeads(branch: Branch): map<string, nat> { Heads(Unlayered(branch.rows), {}) }

  function Unlayered(rows: seq<Row>): (r: seq<Row>)
    ensures |r| == |rows|
  {
    seq(|rows|, i requires 0 <= i < |rows| => rows[i].(epoch := None))
  }

  predicate SameFace(a: Row, b: Row) { a.fact == b.fact && a.confidence == b.confidence && a.status == b.status }

  /** Both sides show the slot and show the same there. */
  predicate Agreed(live: Live, branch: Branch, slot: string) {
    var cur, new_ := Heads(live.rows, Head(live)), BranchHeads(branch);
    slot in cur && slot in new_ && SameFace(live.rows[cur[slot]], branch.rows[new_[slot]])
  }

  predicate Merges(live: Live, branch: Branch, j: nat) {
    j < |branch.rows| && branch.rows[j].slot in BranchHeads(branch) && BranchHeads(branch)[branch.rows[j].slot] == j
    && !Agreed(live, branch, branch.rows[j].slot)
  }

  predicate Retires(live: Live, branch: Branch, i: nat) {
    i < |live.rows| && live.rows[i].slot in Heads(live.rows, Head(live))
    && Heads(live.rows, Head(live))[live.rows[i].slot] == i
    && !Agreed(live, branch, live.rows[i].slot)
  }

  /** The members of a set of positions, in order. */
  function InOrder(chosen: set<nat>, n: nat): (order: seq<nat>)
    ensures forall k :: 0 <= k < |order| ==> order[k] < n && order[k] in chosen
    ensures forall j: nat :: j < n && j in chosen ==> j in order
    ensures forall a, b :: 0 <= a < b < |order| ==> order[a] < order[b]
  {
    if n == 0 then []
    else
      var rest := InOrder(chosen, n - 1);
      if n - 1 in chosen then rest + [n - 1] else rest
  }

  /** The branch rows to copy, in order. */
  function Order(live: Live, branch: Branch): (order: seq<nat>)
    ensures forall k :: 0 <= k < |order| ==> order[k] < |branch.rows|
  {
    InOrder(set j: nat | j < |branch.rows| && Merges(live, branch, j), |branch.rows|)
  }

  /** Where the copy that takes over a slot lands. */
  function Replacement(live: Live, branch: Branch, order: seq<nat>, slot: string): (r: Option<nat>)
    requires forall k :: 0 <= k < |order| ==> order[k] < |branch.rows|
    ensures r.Some? ==> r.value < |order| && branch.rows[order[r.value]].slot == slot
    ensures r.None? ==> forall k :: 0 <= k < |order| ==> branch.rows[order[k]].slot != slot
  {
    if order == [] then None
    else if branch.rows[order[|order| - 1]].slot == slot then Some(|order| - 1)
    else Replacement(live, branch, order[..|order| - 1], slot)
  }

  // ------------------------------------------------------- adoption, rollback

  function Save(row: Row): Saved { Saved(row.status, row.end, row.successor, row.supersededBy, row.inContext) }

  function Retired(live: Live, branch: Branch, i: nat, now: Time): Row
    requires i < |live.rows|
  {
    var order := Order(live, branch);
    var at := Replacement(live, branch, order, live.rows[i].slot);
    var row := live.rows[i].(status := Superseded, end := Some(now));
    if at.None? then row
    else row.(successor := Some(|live.rows| + at.value), supersededBy := Some(branch.rows[order[at.value]].run))
  }

  function AdoptedRows(live: Live, branch: Branch, now: Time): (rows: seq<Row>)
    ensures |rows| == |live.rows| + |Order(live, branch)|
  {
    var order := Order(live, branch);
    seq(|live.rows|, i requires 0 <= i < |live.rows| =>
      if Retires(live, branch, i) then Retired(live, branch, i, now) else live.rows[i])
    + seq(|order|, k requires 0 <= k < |order| => branch.rows[order[k]])
  }

  predicate Overlays(live: Live, branch: Branch, name: string) {
    name in branch.names
    && (name in live.names ==> live.names[name].canonical != branch.names[name].canonical
                               || live.names[name].state != branch.names[name].state)
  }

  function AdoptedNames(live: Live, branch: Branch, e: nat): map<string, Name> {
    map name | name in live.names.Keys + branch.names.Keys ::
      if Overlays(live, branch, name) then branch.names[name].(epoch := Some(e))
      else if name in live.names then live.names[name]
      else branch.names[name]
  }

  function Taken(live: Live, branch: Branch): Snapshot {
    Snapshot(map i: nat | i < |live.rows| && Retires(live, branch, i) :: Save(live.rows[i]),
             map name | name in branch.names && Overlays(live, branch, name) ::
               if name in live.names then Some(live.names[name]) else None)
  }

  predicate Adoptable(live: Live, e: nat) {
    e < |live.epochs| && (live.epochs[e].status.Open? || live.epochs[e].status.Ready?)
    && (live.epochs[e].parent.Some? ==> live.epochs[e].parent.value < e)
  }

  function AfterAdopt(live: Live, branch: Branch, e: nat, now: Time): Live
    requires Adoptable(live, e)
  {
    var marked := live.epochs[e := live.epochs[e].(status := Adopted, snapshot := Some(Taken(live, branch)))];
    var parent := live.epochs[e].parent;
    Live(AdoptedRows(live, branch, now), AdoptedNames(live, branch, e),
         if parent.Some? then marked[parent.value := marked[parent.value].(status := Replaced)] else marked, e)
  }

  predicate CanRollBack(live: Live) {
    live.head < |live.epochs| && live.epochs[live.head].parent.Some?
    && live.epochs[live.head].parent.value < live.head && live.epochs[live.head].snapshot.Some?
  }

  function RestoredRows(rows: seq<Row>, saved: map<nat, Saved>): (after: seq<Row>)
    ensures |after| == |rows|
  {
    seq(|rows|, i requires 0 <= i < |rows| =>
      if i in saved then
        var s := saved[i];
        rows[i].(status := s.status, end := s.end, successor := s.successor, supersededBy := s.supersededBy,
                 inContext := s.inContext)
      else rows[i])
  }

  function RestoredNames(names: map<string, Name>, saved: map<string, Option<Name>>): map<string, Name> {
    map name | name in names.Keys + saved.Keys && (name in saved ==> saved[name].Some?) ::
      if name in saved then saved[name].value else names[name]
  }

  function AfterRollback(live: Live): Live
    requires CanRollBack(live)
  {
    var snapshot, parent := live.epochs[live.head].snapshot.value, live.epochs[live.head].parent.value;
    var marked := live.epochs[live.head := live.epochs[live.head].(status := Discarded)];
    Live(RestoredRows(live.rows, snapshot.rows), RestoredNames(live.names, snapshot.names),
         marked[parent := marked[parent].(status := Adopted)], parent)
  }
}
