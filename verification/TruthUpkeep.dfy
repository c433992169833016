/** What each step of the truth store leaves the rows saying, and what decided a candidate's
    outcome, in the fields themselves. */
module TruthUpkeep {
  import opened Ids
  import opened TruthSlots

  // ------------------------------------------------------------ what a step leaves

  /** Everything but where the row stands is as it was. */
  predicate SaysTheSame(was: Row, row: Row) {
    && row.claim == was.claim && row.confidence == was.confidence && row.firstSeen == was.firstSeen
    && row.lastSeen == was.lastSeen && row.observed == was.observed && row.held == was.held
    && row.gate == was.gate && row.overrides == was.overrides
  }

  /** The row gave way to row *s* at *at*, and that is all that happened to it. */
  predicate GaveWay(was: Row, row: Row, s: nat, at: Time) {
    && SaysTheSame(was, row) && row.status.Superseded? && row.end == Some(at) && row.successor == Some(s)
    && row.start == was.start && row.review == was.review && row.resolution == was.resolution
    && row.restored == was.restored && row.archived == was.archived
  }

  /** The rows an approval displaces: the active ones on the challenger's key, or, when there
      is none, the one it was parked against while that is still active. */
  ghost predicate Contested(rows: seq<Row>, i: nat, j: nat)
    requires i < |rows|
  {
    && j < |rows| && rows[j].status.Active?
    && if exists k: nat :: k < |rows| && k != i && rows[k].status.Active? && rows[k].claim.key == rows[i].claim.key
       then j != i && rows[j].claim.key == rows[i].claim.key
       else rows[i].successor == Some(j)
  }

  /** An approved challenger is in force from then on, at every time: active, with no end and no
      successor, resolved by the operator, saying what it said. What it contests gives way to
      it now; every other row is as it was. */
  lemma ApprovalLands(p: Policy, rows: seq<Row>, now: Time, i: nat)
    requires i < |rows| && Pending(rows[i])
    ensures var after := After(p, rows, now, Approve(i));
            && |after| == |rows| && SaysTheSame(rows[i], after[i]) && after[i].start == rows[i].start
            && after[i].status.Active? && after[i].end.None? && after[i].successor.None?
            && !after[i].review && after[i].resolution == Some(OperatorApproved)
            && (forall later: Time :: Current(after[i], later))
            && (forall j: nat :: j < |rows| && j != i && Contested(rows, i, j) ==> GaveWay(rows[j], after[j], i, now))
            && (forall j: nat :: j < |rows| && j != i && !Contested(rows, i, j) ==> after[j] == rows[j])
  {
    assert Allowed(p, rows, now, Approve(i));
    hide Pending;
    forall j: nat | j < |rows| && j != i ensures j in Incumbents(rows, i) <==> Contested(rows, i, j) {
      IncumbentIs(rows, i, j);
    }
  }

  lemma IncumbentIs(rows: seq<Row>, i: nat, j: nat)
    requires i < |rows| && j < |rows| && j != i
    ensures j in Incumbents(rows, i) <==> Contested(rows, i, j)
  {
    if k: nat :| k < |rows| && k != i && rows[k].status.Active? && rows[k].claim.key == rows[i].claim.key {
      assert k in OnKey(rows, i);
    } else {
      assert OnKey(rows, i) == {};
    }
  }

  /** A rejected challenger stays where it is, reviewed and turned down. */
  lemma RejectionLands(p: Policy, rows: seq<Row>, now: Time, i: nat)
    requires i < |rows| && Pending(rows[i])
    ensures var after := After(p, rows, now, Reject(i));
            && |after| == |rows| && (forall j :: 0 <= j < |rows| && j != i ==> after[j] == rows[j])
            && SaysTheSame(rows[i], after[i]) && after[i].start == rows[i].start && after[i].end == rows[i].end
            && after[i].status == rows[i].status && after[i].successor == rows[i].successor
            && !after[i].review && after[i].resolution == Some(OperatorRejected)
  {
  }

  /** An archived row is out of force, as it stood; an active one ends now and can be revived,
      unless its interval had run out. Reviving puts it back, with no end. */
  lemma ArchiveAndRevive(p: Policy, rows: seq<Row>, now: Time, i: nat, elapsed: bool)
    requires Allowed(p, rows, now, Archive(i, elapsed))
    ensures var after := After(p, rows, now, Archive(i, elapsed));
            && |after| == |rows| && (forall j :: 0 <= j < |rows| && j != i ==> after[j] == rows[j])
            && SaysTheSame(rows[i], after[i]) && after[i].status.Pruned? && after[i].successor == rows[i].successor
            && after[i].start == rows[i].start
            && after[i].end == (if !elapsed && rows[i].status.Active? then Some(now) else rows[i].end)
            && (after[i].archived <==> rows[i].archived || !elapsed)
            && (!elapsed ==>
                  Allowed(p, after, now, Revive(i)) &&
                  var back := After(p, after, now, Revive(i));
                  back[i] == rows[i].(status := Active, end := None, archived := true)
                  && forall j :: 0 <= j < |rows| && j != i ==> back[j] == rows[j])
  {
  }

  /** A restored predecessor is a new row saying what the old one said, in force from the end of
      the override to the end it had; the override is marked, every other row as it was. */
  lemma RestorationLands(p: Policy, rows: seq<Row>, now: Time, i: nat, b: nat)
    requires Restorable(rows, i, b, now)
    ensures rows[i].end.Some? && b in rows[i].overrides && b < |rows|
    ensures var after := After(p, rows, now, Restore(i, b));
            && |after| == |rows| + 1
            && (forall j :: 0 <= j < |rows| && j != i ==> after[j] == rows[j])
            && after[i] == rows[i].(restored := true)
            && var row := after[|rows|];
            && SaysTheSame(rows[b], row) && row.status.Active? && row.start == rows[i].end.value
            && row.end == rows[i].overrides[b] && row.successor.None? && !row.archived
  {
    assert Allowed(p, rows, now, Restore(i, b));
  }

  /** A repair makes exactly the approved rows in force in the slot, other than the winner, give
      way to it from its start on. */
  lemma RepairLands(p: Policy, rows: seq<Row>, now: Time, key: string, w: nat, approved: set<nat>, j: nat)
    requires IsWinner(rows, key, now, w) && j < |rows|
    ensures var after := After(p, rows, now, Repair(key, w, approved));
            && |after| == |rows|
            && if j != w && j in approved && rows[j].status.Active? && (rows[j].end.Some? ==> rows[j].end.value > now)
                  && rows[j].claim.cardinality.SingleActive? && rows[j].claim.key == key
               then GaveWay(rows[j], after[j], w, rows[w].start)
               else after[j] == rows[j]
  {
    hide Outranks;
    assert Allowed(p, rows, now, Repair(key, w, approved));
  }

  /** What a candidate that takes the slot does to the rows: every one it contradicts gives way
      to it, at its observation or, if let past for being newer, no later than its episode; the
      challenges counted with it are resolved as corroborated; nothing else changes. One that
      is filed as history changes no row, one that is parked only discounts its incumbent. */
  lemma WriteLands(p: Policy, rows: seq<Row>, now: Time, c: Candidate, o: Outcome, i: nat)
    requires IsOutcome(p, rows, c, o) && !o.Reinforced? && i < |rows|
    ensures var row, newest := After(p, rows, now, Write(c, o))[i], |rows|;
            && (o.Historical? ==> row == rows[i])
            && (o.Parked? ==> row == if i == o.incumbent then rows[i].(confidence := row.confidence) else rows[i])
            && (o.Replaced? ==>
                  if Contradicts(p, rows[i], c) then
                    GaveWay(rows[i], row, newest, if i in o.bypassed && c.reference < Observed(c) then c.reference else Observed(c))
                  else if i in o.siblings then
                    row == rows[i].(successor := Some(newest), review := false, resolution := Some(Corroborated))
                  else row == rows[i])
  {
    OutcomeFits(p, rows, c, o);
    ContradictsIs(p, rows[i], c);
    assert After(p, rows, now, Write(c, o)) == Written(p, rows, c, o);
    assert Written(p, rows, c, o)[i] == Touched(p, rows[i], i, |rows|, c, o);
    hide Rival, Near, Compatible, Blocked, Gate, Established, Sibling, Inserted, Later, Reinforceable;
    if o.Replaced? { assert i in o.targets <==> Rival(p, rows[i], c); }
  }

  // --------------------------------------------------- what decided the outcome

  /** The two statements are about the same thing and near enough to be one: no coded name
      differs, and the vectors compare at or over the kind's threshold. */
  predicate Alike(p: Policy, c: Candidate, row: Row) {
    && !p.identifiersClash(c.claim.value, row.claim.value)
    && p.similarity(c.claim.value, row.claim.value).Some?
    && p.similarity(c.claim.value, row.claim.value).value >= p.threshold(c.claim.kind)
  }

  /** An active row that states something else where only one thing can hold, or denies the
      statement where several can. */
  predicate Contradicts(p: Policy, row: Row, c: Candidate) {
    && row.status.Active? && row.claim.value != c.claim.value
    && match c.claim.cardinality
       case SingleActive => row.claim.key == c.claim.key
       case MultiActive =>
         row.claim.prefix == c.claim.prefix && row.claim.polarity != c.claim.polarity
         && (p.unnegated(c.claim.value) == p.unnegated(row.claim.value) || Alike(p, c, row))
  }

  lemma ContradictsIs(p: Policy, row: Row, c: Candidate)
    ensures Contradicts(p, row, c) <==> Rival(p, row, c)
  {
  }

  /** The row says what the candidate says: the same words on the same key, or near words from
      the same authority with the same mode, polarity and a compatible stance, unless the
      candidate is quoted. Generated output only ever repeats generated output. */
  predicate Repeated(p: Policy, row: Row, c: Candidate) {
    && row.status.Active? && row.claim.generated == c.claim.generated
    && ((row.claim.key == c.claim.key && row.claim.value == c.claim.value)
        || (&& !c.verbatim && row.claim.prefix == c.claim.prefix && row.claim.authority == c.claim.authority
            && row.claim.mode == c.claim.mode && row.claim.polarity == c.claim.polarity
            && !p.stancesClash(row.claim.stance, c.claim.stance)
            && Alike(p, c, row) && p.similarity(c.claim.value, row.claim.value).value > 0.0))
  }

  lemma RepeatedIs(p: Policy, row: Row, c: Candidate)
    ensures Repeated(p, row, c) <==> Reinforceable(p, row, c)
  {
  }

  /** A parked observation of the same challenge. */
  predicate SameChallenge(p: Policy, row: Row, c: Candidate) {
    && row.status.Superseded? && row.review && row.gate == Some(InsufficientCorroboration)
    && row.claim.prefix == c.claim.prefix
    && (row.claim.value == c.claim.value
        || (row.claim.mode == c.claim.mode && row.claim.polarity == c.claim.polarity
            && !p.stancesClash(row.claim.stance, c.claim.stance) && Alike(p, c, row)))
  }

  ghost function Voices(p: Policy, rows: seq<Row>, c: Candidate): set<nat> {
    set i: nat | 0 <= i < |rows| && SameChallenge(p, rows[i], c)
  }

  lemma VoicesAre(p: Policy, rows: seq<Row>, c: Candidate)
    ensures Voices(p, rows, c) == Siblings(p, rows, c)
  {
  }

  /** The reason a row withstands the candidate, if nothing lets it past. */
  predicate Withstands(p: Policy, row: Row, c: Candidate, votes: nat, reason: GateReason) {
    var mine, theirs := p.rank(c.claim.authority), p.rank(row.claim.authority);
    var newer := c.claim.kind in p.recencyKinds && mine >= theirs && row.start <= c.reference && row.start <= Observed(c);
    var lower := p.gateLower && mine < theirs;
    var risky := c.until.Some? && p.gateTemporary && p.severity(c.claim.kind) >= p.reviewSeverity && mine <= theirs;
    !newer &&
    match reason
    case LowerAuthority => lower
    case TemporaryHighSeverity => !lower && risky
    case InsufficientCorroboration => !lower && !risky && mine == theirs && row.observed >= p.margin && votes < p.required
  }

  lemma WithstandsIs(p: Policy, row: Row, c: Candidate, votes: nat, reason: GateReason)
    ensures Withstands(p, row, c, votes, reason) <==> Blocked(p, row, c, votes) == Some(reason)
  {
  }

  ghost predicate Blocks(p: Policy, row: Row, c: Candidate, votes: nat) { exists r: GateReason :: Withstands(p, row, c, votes, r) }

  lemma BlocksIs(p: Policy, row: Row, c: Candidate, votes: nat)
    ensures Blocks(p, row, c, votes) <==> Blocked(p, row, c, votes).Some?
  {
    hide Withstands, Blocked;
    forall r: GateReason ensures Withstands(p, row, c, votes, r) <==> Blocked(p, row, c, votes) == Some(r) {
      WithstandsIs(p, row, c, votes, r);
    }
    if Blocked(p, row, c, votes).Some? { assert Withstands(p, row, c, votes, Blocked(p, row, c, votes).value); }
  }

  ghost predicate AnyRepeats(p: Policy, rows: seq<Row>, c: Candidate) {
    exists i :: 0 <= i < |rows| && Repeated(p, rows[i], c)
  }

  ghost predicate AnyLater(p: Policy, rows: seq<Row>, c: Candidate) {
    exists i :: 0 <= i < |rows| && Contradicts(p, rows[i], c) && rows[i].start > Observed(c)
  }

  ghost predicate AnyBlocks(p: Policy, rows: seq<Row>, c: Candidate, votes: nat) {
    exists i :: 0 <= i < |rows| && Contradicts(p, rows[i], c) && Blocks(p, rows[i], c, votes)
  }

  /** Which of the four a candidate meets with: it is a repeat exactly when some row says what
      it says; else history exactly when a row it contradicts starts after it; else parked
      exactly when a row it contradicts withstands it; else it takes the slot from every row
      it contradicts. */
  lemma OutcomeExactly(p: Policy, rows: seq<Row>, c: Candidate, o: Outcome)
    requires IsOutcome(p, rows, c, o)
    ensures var votes := |Voices(p, rows, c)| + 1;
            var repeated, later, blocked := AnyRepeats(p, rows, c), AnyLater(p, rows, c), AnyBlocks(p, rows, c, votes);
            && (o.Reinforced? <==> repeated)
            && (o.Historical? <==> !repeated && later)
            && (o.Parked? <==> !repeated && !later && blocked)
            && (o.Replaced? <==> !repeated && !later && !blocked)
            && (o.Reinforced? ==> o.target < |rows| && Repeated(p, rows[o.target], c))
            && (o.Historical? ==> o.later < |rows| && Contradicts(p, rows[o.later], c) && rows[o.later].start > Observed(c))
            && (o.Parked? ==> o.incumbent < |rows| && Contradicts(p, rows[o.incumbent], c)
                              && Withstands(p, rows[o.incumbent], c, votes, o.reason))
            && (o.Replaced? ==> forall i: nat :: i in o.targets <==> i < |rows| && Contradicts(p, rows[i], c))
  {
    VoicesAre(p, rows, c);
    var votes := |Voices(p, rows, c)| + 1;
    forall i | 0 <= i < |rows|
      ensures Repeated(p, rows[i], c) <==> Reinforceable(p, rows[i], c)
      ensures Contradicts(p, rows[i], c) <==> Rival(p, rows[i], c)
      ensures Blocks(p, rows[i], c, votes) <==> Blocked(p, rows[i], c, votes).Some?
    {
      RepeatedIs(p, rows[i], c);
      ContradictsIs(p, rows[i], c);
      BlocksIs(p, rows[i], c, votes);
    }
    if o.Parked? { WithstandsIs(p, rows[o.incumbent], c, votes, o.reason); }
    hide Rival, Reinforceable, Blocked, Repeated, Contradicts, Blocks, Withstands, Voices, Siblings, Gate, Established;
    TargetRepeats(p, rows, c, o);
  }

  lemma TargetRepeats(p: Policy, rows: seq<Row>, c: Candidate, o: Outcome)
    requires IsOutcome(p, rows, c, o)
    ensures o.Reinforced? ==> o.target < |rows| && Reinforceable(p, rows[o.target], c)
  {
    hide Rival, Blocked, Siblings, Near, Compatible, Gate, Established;
  }

  /** Row *a* comes before row *b* for the first key on which they differ: more authority, then
      a later start, then the earlier row. */
  predicate NamedFirst(p: Policy, rows: seq<Row>, a: nat, b: nat)
    requires a < |rows| && b < |rows|
  {
    var ra, rb := p.rank(rows[a].claim.authority), p.rank(rows[b].claim.authority);
    if ra != rb then ra > rb else if rows[a].start != rows[b].start then rows[a].start > rows[b].start else a <= b
  }

  function Resemblance(p: Policy, c: Candidate, row: Row): real {
    match p.similarity(c.claim.value, row.claim.value) case None => 0.0 case Some(x) => x
  }

  predicate SameWords(row: Row, c: Candidate) {
    && row.status.Active? && row.claim.generated == c.claim.generated
    && row.claim.key == c.claim.key && row.claim.value == c.claim.value
  }

  /** Which row is named: a repeat strengthens the first row in the same words, or else the one
      that resembles it most, the earlier on a tie; history ends at the next start after it; a
      parked challenge names the row of most authority among those that withstand it, then of
      the latest start, then the earliest; and one that takes the slot settles its siblings
      only if it was their number that let it past. */
  lemma NamedExactly(p: Policy, rows: seq<Row>, c: Candidate, o: Outcome, i: nat)
    requires IsOutcome(p, rows, c, o) && i < |rows|
    ensures var votes := |Voices(p, rows, c)| + 1;
            && (o.Reinforced? ==> o.target < |rows|)
            && (o.Historical? ==> o.later < |rows|)
            && (o.Parked? ==> o.incumbent < |rows|)
            && (o.Reinforced? && SameWords(rows[i], c) ==> SameWords(rows[o.target], c) && o.target <= i)
            && (o.Reinforced? && !SameWords(rows[o.target], c) && Repeated(p, rows[i], c) ==>
                  var mine, best := Resemblance(p, c, rows[i]), Resemblance(p, c, rows[o.target]);
                  if mine == best then o.target <= i else mine < best)
            && (o.Historical? && Contradicts(p, rows[i], c) && rows[i].start > Observed(c) ==>
                  if rows[i].start == rows[o.later].start then o.later <= i else rows[o.later].start < rows[i].start)
            && (o.Parked? && Contradicts(p, rows[i], c) && Blocks(p, rows[i], c, votes) ==> NamedFirst(p, rows, o.incumbent, i))
  {
    VoicesAre(p, rows, c);
    var votes := |Voices(p, rows, c)| + 1;
    RepeatedIs(p, rows[i], c);
    ContradictsIs(p, rows[i], c);
    BlocksIs(p, rows[i], c, votes);
    hide Rival, Blocked, Blocks, Contradicts, Withstands, Voices, Siblings, Gate, Established, Near, Compatible, Repeated;
    if o.Reinforced? { ChosenRow(p, rows, c, o.target, i); }
  }

  lemma ChosenRow(p: Policy, rows: seq<Row>, c: Candidate, t: nat, i: nat)
    requires IsTarget(p, rows, c, t) && i < |rows|
    ensures SameWords(rows[i], c) ==> SameWords(rows[t], c) && t <= i
    ensures !SameWords(rows[t], c) && Reinforceable(p, rows[i], c) ==>
              var mine, best := Resemblance(p, c, rows[i]), Resemblance(p, c, rows[t]);
              if mine == best then t <= i else mine < best
  {
    hide Near, Compatible;
  }

  /** What its siblings are settled for: some row it displaces was established at its own
      authority, and with them it has been observed often enough; and it is let past for
      being newer exactly where it would have been held. */
  lemma SettledExactly(p: Policy, rows: seq<Row>, c: Candidate, o: Outcome)
    requires IsOutcome(p, rows, c, o) && o.Replaced?
    ensures var votes := |Voices(p, rows, c)| + 1;
            && (o.siblings == if votes >= p.required && SomeEstablished(p, rows, c) then Voices(p, rows, c) else {})
            && (forall i: nat :: i in o.bypassed <==>
                  i < |rows| && Contradicts(p, rows[i], c) && Held(p, rows[i], c, votes))
  {
    VoicesAre(p, rows, c);
    var votes := |Voices(p, rows, c)| + 1;
    forall i: nat | i < |rows|
      ensures Contradicts(p, rows[i], c) <==> Rival(p, rows[i], c)
      ensures Held(p, rows[i], c, votes) <==> Gate(p, rows[i], c, votes).Some?
    {
      ContradictsIs(p, rows[i], c);
      HeldIs(p, rows[i], c, votes);
    }
    EstablishedIs(p, rows, c, o.targets);
    hide Rival, Blocked, Contradicts, Voices, Siblings, Gate, Established, Held, SomeEstablished, Reinforceable, Later;
    assert o.targets == Rivals(p, rows, c);
  }

  ghost predicate SomeEstablished(p: Policy, rows: seq<Row>, c: Candidate) {
    exists i: nat :: i < |rows| && Contradicts(p, rows[i], c)
                     && p.rank(rows[i].claim.authority) == p.rank(c.claim.authority) && rows[i].observed >= p.margin
  }

  /** The gate would hold the candidate here, were it not newer. */
  predicate Held(p: Policy, row: Row, c: Candidate, votes: nat) {
    var mine, theirs := p.rank(c.claim.authority), p.rank(row.claim.authority);
    || (p.gateLower && mine < theirs)
    || (p.gateTemporary && c.until.Some? && p.severity(c.claim.kind) >= p.reviewSeverity && mine <= theirs)
    || (mine == theirs && row.observed >= p.margin && votes < p.required)
  }

  lemma HeldIs(p: Policy, row: Row, c: Candidate, votes: nat)
    ensures Held(p, row, c, votes) <==> Gate(p, row, c, votes).Some?
  {
  }

  lemma EstablishedIs(p: Policy, rows: seq<Row>, c: Candidate, targets: set<nat>)
    requires targets == Rivals(p, rows, c)
    ensures SomeEstablished(p, rows, c) <==> exists i :: i in targets && Established(p, rows[i], c)
  {
    forall i: nat | i < |rows| ensures Contradicts(p, rows[i], c) <==> Rival(p, rows[i], c) { ContradictsIs(p, rows[i], c); }
    hide Rival, Contradicts;
    if i :| i in targets && Established(p, rows[i], c) { assert i < |rows| && Contradicts(p, rows[i], c); }
    if SomeEstablished(p, rows, c) {
      var i: nat :| i < |rows| && Contradicts(p, rows[i], c)
                    && p.rank(rows[i].claim.authority) == p.rank(c.claim.authority) && rows[i].observed >= p.margin;
      assert i in targets && Established(p, rows[i], c);
    }
  }
}
