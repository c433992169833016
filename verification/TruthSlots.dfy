/** Truth slots: what one candidate fact does to the rows already stored. It
    reinforces one, is filed as history, is parked for review, or takes the slot. */
module TruthSlots {
  import opened Ids
  import Confidence

  type Time = int

  datatype Authority = GeneratedOutput | Untrusted | Agent | User | Operator | System

  datatype Cardinality = SingleActive | MultiActive

  datatype Status = Active | Superseded | Pruned

  datatype GateReason = LowerAuthority | TemporaryHighSeverity | InsufficientCorroboration

  datatype Resolution = Corroborated | OperatorApproved | OperatorRejected

  /** What a fact says. `prefix` names scope, subject and predicate; `key` is the
      prefix again for a single-active slot and adds the object otherwise. */
  datatype Claim = Claim(key: string, prefix: string, cardinality: Cardinality, value: string, mode: string,
                         stance: string, polarity: string, kind: string, authority: Authority, generated: bool)

  datatype Candidate = Candidate(claim: Claim, confidence: Confidence.Unit, from: Option<Time>, until: Option<Time>,
                                 reference: Time, verbatim: bool)

  /** A stored fact. Rows are kept in creation order and named by their position. */
  datatype Row = Row(claim: Claim, confidence: real, status: Status, start: Time, end: Option<Time>,
                     firstSeen: Time, lastSeen: Time, observed: nat, held: bool, successor: Option<nat>,
                     gate: Option<GateReason>, review: bool, resolution: Option<Resolution>,
                     overrides: map<nat, Option<Time>>, restored: bool, archived: bool)

  /** The configured rules, with the embedding space as a given similarity: None
      where two vectors cannot be compared. */
  datatype Policy = Policy(rank: Authority -> nat, severity: string -> nat, reviewSeverity: nat, gateLower: bool,
                           gateTemporary: bool, margin: nat, required: nat, recencyKinds: set<string>,
                           threshold: string -> real, similarity: (string, string) -> Option<real>,
                           identifiersClash: (string, string) -> bool, stancesClash: (string, string) -> bool,
                           unnegated: string -> string, confidence: Confidence.Policy)

  // ------------------------------------------------------------------- times

  function Observed(c: Candidate): Time { if c.from.Some? then c.from.value else c.reference }

  /** A claimed start can never be later than the episode that carries it. */
  function Effective(c: Candidate): Time { if Observed(c) < c.reference then Observed(c) else c.reference }

  predicate Lapsed(row: Row, now: Time) { row.end.Some? && row.end.value <= now }

  predicate Current(row: Row, now: Time) { row.status.Active? && !Lapsed(row, now) }

  // ------------------------------------------------- which rows are affected

  predicate Compatible(p: Policy, row: Row, c: Candidate) {
    && row.claim.mode == c.claim.mode
    && !p.stancesClash(row.claim.stance, c.claim.stance)
    && row.claim.polarity == c.claim.polarity
  }

  predicate Near(p: Policy, row: Row, c: Candidate) {
    var cosine := p.similarity(c.claim.value, row.claim.value);
    !p.identifiersClash(c.claim.value, row.claim.value) && cosine.Some? && cosine.value >= p.threshold(c.claim.kind)
  }

  function Cosine(p: Policy, row: Row, c: Candidate): real {
    var cosine := p.similarity(c.claim.value, row.claim.value);
    if cosine.Some? then cosine.value else 0.0
  }

  predicate Exact(row: Row, c: Candidate) {
    && row.status.Active? && row.claim.key == c.claim.key
    && row.claim.generated == c.claim.generated && row.claim.value == c.claim.value
  }

  predicate Paraphrase(p: Policy, row: Row, c: Candidate) {
    && row.status.Active? && row.claim.prefix == c.claim.prefix
    && row.claim.generated == c.claim.generated && row.claim.authority == c.claim.authority
    && !c.verbatim && Compatible(p, row, c) && Near(p, row, c) && Cosine(p, row, c) > 0.0
  }

  predicate Reinforceable(p: Policy, row: Row, c: Candidate) { Exact(row, c) || Paraphrase(p, row, c) }

  /** The row a repeat strengthens: the first exact one, else the closest paraphrase. */
  predicate IsTarget(p: Policy, rows: seq<Row>, c: Candidate, t: nat) {
    && t < |rows|
    && if Exact(rows[t], c) then forall j :: 0 <= j < t ==> !Exact(rows[j], c)
       else
         && (forall j :: 0 <= j < |rows| ==> !Exact(rows[j], c))
         && Paraphrase(p, rows[t], c)
         && forall j :: 0 <= j < |rows| && Paraphrase(p, rows[j], c) ==>
              Cosine(p, rows[j], c) < Cosine(p, rows[t], c) || (Cosine(p, rows[j], c) == Cosine(p, rows[t], c) && t <= j)
  }

  /** An active row the candidate contradicts. In a multi-active slot only a
      denial of the same statement does. */
  predicate Rival(p: Policy, row: Row, c: Candidate) {
    && row.status.Active? && row.claim.value != c.claim.value
    && if c.claim.cardinality.SingleActive? then row.claim.key == c.claim.key
       else
         && row.claim.prefix == c.claim.prefix && row.claim.polarity != c.claim.polarity
         && (p.unnegated(c.claim.value) == p.unnegated(row.claim.value) || Near(p, row, c))
  }

  predicate Later(p: Policy, row: Row, c: Candidate) { Rival(p, row, c) && row.start > Observed(c) }

  /** A parked earlier observation of the same challenge. */
  predicate Sibling(p: Policy, row: Row, c: Candidate) {
    && row.claim.prefix == c.claim.prefix && row.status.Superseded? && row.review
    && row.gate == Some(InsufficientCorroboration)
    && (row.claim.value == c.claim.value || (Compatible(p, row, c) && Near(p, row, c)))
  }

  ghost function Siblings(p: Policy, rows: seq<Row>, c: Candidate): set<nat> {
    set i: nat | 0 <= i < |rows| && Sibling(p, rows[i], c)
  }

  ghost function Rivals(p: Policy, rows: seq<Row>, c: Candidate): set<nat> {
    set i: nat | 0 <= i < |rows| && Rival(p, rows[i], c)
  }

  // --------------------------------------------------------------- the gate

  function Rank(p: Policy, row: Row): nat { p.rank(row.claim.authority) }

  /** An incumbent with enough observations resists a single equal voice. */
  predicate Established(p: Policy, row: Row, c: Candidate) {
    p.rank(c.claim.authority) == Rank(p, row) && row.observed >= p.margin
  }

  /** `votes` counts this observation and its parked siblings. */
  function Gate(p: Policy, row: Row, c: Candidate, votes: nat): Option<GateReason> {
    var mine, theirs := p.rank(c.claim.authority), Rank(p, row);
    if p.gateLower && mine < theirs then Some(LowerAuthority)
    else if c.until.Some? && p.gateTemporary && p.severity(c.claim.kind) >= p.reviewSeverity && mine <= theirs then
      Some(TemporaryHighSeverity)
    else if Established(p, row, c) && votes < p.required then Some(InsufficientCorroboration)
    else None
  }

  /** For the configured kinds, newer information of at least equal authority wins. */
  predicate Bypasses(p: Policy, row: Row, c: Candidate) {
    c.claim.kind in p.recencyKinds && row.start <= Effective(c) && p.rank(c.claim.authority) >= Rank(p, row)
  }

  function Blocked(p: Policy, row: Row, c: Candidate, votes: nat): Option<GateReason> {
    if Bypasses(p, row, c) then None else Gate(p, row, c, votes)
  }

  // ------------------------------------------------------------ the decision

  datatype Outcome =
    | Reinforced(target: nat)
    | Historical(later: nat)
    | Parked(incumbent: nat, reason: GateReason)
    | Replaced(targets: set<nat>, bypassed: set<nat>, siblings: set<nat>)

  /** Row `a` is named as the reason before row `b`: by authority, then by start,
      then by age. */
  predicate Named(p: Policy, rows: seq<Row>, a: nat, b: nat)
    requires a < |rows| && b < |rows|
  {
    var x, y := rows[a], rows[b];
    Rank(p, x) > Rank(p, y)
    || (Rank(p, x) == Rank(p, y) && (x.start > y.start || (x.start == y.start && a <= b)))
  }

  ghost predicate IsOutcome(p: Policy, rows: seq<Row>, c: Candidate, o: Outcome) {
    if o.Reinforced? then IsTarget(p, rows, c, o.target)
    else
      && (forall i :: 0 <= i < |rows| ==> !Reinforceable(p, rows[i], c))
      && if o.Historical? then
           && o.later < |rows| && Later(p, rows[o.later], c)
           && forall i :: 0 <= i < |rows| && Later(p, rows[i], c) ==>
                rows[o.later].start < rows[i].start || (rows[o.later].start == rows[i].start && o.later <= i)
         else
           var votes := |Siblings(p, rows, c)| + 1;
           && (forall i :: 0 <= i < |rows| ==> !Later(p, rows[i], c))
           && if o.Parked? then
                && o.incumbent < |rows| && Rival(p, rows[o.incumbent], c)
                && Blocked(p, rows[o.incumbent], c, votes) == Some(o.reason)
                && forall i :: 0 <= i < |rows| && Rival(p, rows[i], c) && Blocked(p, rows[i], c, votes).Some? ==>
                     Named(p, rows, o.incumbent, i)
              else
                && (forall i :: 0 <= i < |rows| && Rival(p, rows[i], c) ==> Blocked(p, rows[i], c, votes).None?)
                && o.targets == Rivals(p, rows, c)
                && o.bypassed == (set i | i in o.targets && Gate(p, rows[i], c, votes).Some?)
                && o.siblings == if (exists i :: i in o.targets && Established(p, rows[i], c)) && votes >= p.required
                                 then Siblings(p, rows, c) else {}
  }

  // ------------------------------------------------------------- its effects

  function Earlier(a: Time, b: Time): Time { if a <= b then a else b }

  function Strengthened(p: Policy, row: Row, c: Candidate): Row {
    var first := Earlier(row.firstSeen, Observed(c));
    row.(confidence := Confidence.Reinforced(p.confidence, row.confidence, c.confidence, row.held),
         observed := row.observed + 1, firstSeen := first, start := first,
         lastSeen := if row.lastSeen >= Observed(c) then row.lastSeen else Observed(c))
  }

  /** What happens to row `i` when the candidate becomes row `newest`. */
  function Touched(p: Policy, row: Row, i: nat, newest: nat, c: Candidate, o: Outcome): Row {
    match o
    case Parked(t, _) =>
      if i != t then row
      else row.(confidence := Confidence.Disputed(p.confidence, row.confidence, c.confidence, row.held))
    case Replaced(targets, bypassed, siblings) =>
      if i in targets then
        row.(status := Superseded, end := Some(if i in bypassed then Effective(c) else Observed(c)),
             successor := Some(newest))
      else if i in siblings then
        row.(successor := Some(newest), review := false, resolution := Some(Corroborated))
      else row
    case _ => row
  }

  function Plain(c: Candidate): Row {
    Row(c.claim, c.confidence, Active, Observed(c), c.until, Observed(c), Observed(c), 1, false, None,
        None, false, None, map[], false, false)
  }

  function Inserted(rows: seq<Row>, c: Candidate, o: Outcome): Row
    requires o.Historical? ==> o.later < |rows|
    requires o.Replaced? ==> forall i :: i in o.targets ==> i < |rows|
  {
    match o
    case Historical(t) =>
      var until := if c.until.None? then rows[t].start else Earlier(c.until.value, rows[t].start);
      Plain(c).(status := Superseded, end := Some(until), successor := Some(t))
    case Parked(t, reason) =>
      Plain(c).(status := Superseded, end := Some(Observed(c)), successor := Some(t), gate := Some(reason),
                review := true)
    case Replaced(targets, _, _) =>
      if c.until.Some? && c.claim.cardinality.SingleActive? then
        Plain(c).(overrides := map i | i in targets :: rows[i].end)
      else Plain(c)
    case Reinforced(_) => Plain(c)
  }

  predicate Fits(rows: seq<Row>, o: Outcome) {
    && (o.Reinforced? ==> o.target < |rows|)
    && (o.Historical? ==> o.later < |rows|)
    && (o.Parked? ==> o.incumbent < |rows|)
    && (o.Replaced? ==> forall i :: i in o.targets ==> i < |rows|)
  }

  function Written(p: Policy, rows: seq<Row>, c: Candidate, o: Outcome): (after: seq<Row>)
    requires Fits(rows, o)
    ensures |after| == |rows| + if o.Reinforced? then 0 else 1
  {
    if o.Reinforced? then rows[o.target := Strengthened(p, rows[o.target], c)]
    else
      seq(|rows|, i requires 0 <= i < |rows| => Touched(p, rows[i], i, |rows|, c, o)) + [Inserted(rows, c, o)]
  }

  lemma TouchedKeeps(p: Policy, row: Row, i: nat, newest: nat, c: Candidate, o: Outcome)
    ensures Touched(p, row, i, newest, c, o).claim == row.claim
    ensures Touched(p, row, i, newest, c, o).status.Active? ==>
      row.status.Active? && Touched(p, row, i, newest, c, o).end == row.end
  {
  }

  /** The rules leave no choice: a candidate has one outcome. */
  lemma OutcomeIsUnique(p: Policy, rows: seq<Row>, c: Candidate, a: Outcome, b: Outcome)
    requires IsOutcome(p, rows, c, a) && IsOutcome(p, rows, c, b)
    ensures a == b
  {
  }

  /** Whatever the outcome, it names active rows as the ones it changes or points
      at, and never displaces a row that starts later. */
  lemma OutcomeFits(p: Policy, rows: seq<Row>, c: Candidate, o: Outcome)
    requires IsOutcome(p, rows, c, o)
    ensures Fits(rows, o)
    ensures o.Reinforced? ==> rows[o.target].status.Active?
    ensures o.Historical? ==> rows[o.later].status.Active? && rows[o.later].start > Observed(c)
    ensures o.Parked? ==> rows[o.incumbent].status.Active?
    ensures o.Replaced? ==> forall i :: i in o.targets ==>
      rows[i].status.Active? && rows[i].start <= Observed(c) && Rival(p, rows[i], c)
    ensures o.Replaced? ==> forall i :: i in o.siblings ==> i < |rows| && Sibling(p, rows[i], c)
  {
    hide Near, Compatible, Gate, Blocked, Cosine, Established;
  }

  // ------------------------------------------------------ review and upkeep

  predicate Pending(row: Row) { row.review && row.resolution.None? }

  ghost function OnKey(rows: seq<Row>, i: nat): set<nat>
    requires i < |rows|
  {
    set j: nat | 0 <= j < |rows| && j != i && rows[j].status.Active? && rows[j].claim.key == rows[i].claim.key
  }

  /** The active rows an approval displaces: those on the challenger's key, or
      else the row it was parked against while that one is still active. */
  ghost function Incumbents(rows: seq<Row>, i: nat): (s: set<nat>)
    requires i < |rows|
    ensures forall j :: j in s ==> j < |rows| && rows[j].status.Active?
  {
    if OnKey(rows, i) != {} then OnKey(rows, i)
    else if rows[i].successor.Some? && rows[i].successor.value < |rows|
            && rows[rows[i].successor.value].status.Active? then {rows[i].successor.value}
    else {}
  }

  ghost function Approved(rows: seq<Row>, i: nat, now: Time): (after: seq<Row>)
    requires i < |rows|
    ensures |after| == |rows|
  {
    var incumbents := Incumbents(rows, i);
    seq(|rows|, j requires 0 <= j < |rows| =>
      if j == i then
        rows[j].(status := Active, successor := None, end := None, review := false,
                 resolution := Some(OperatorApproved))
      else if j in incumbents then rows[j].(status := Superseded, end := Some(now), successor := Some(i))
      else rows[j])
  }

  function Declined(rows: seq<Row>, i: nat): (after: seq<Row>)
    requires i < |rows|
    ensures |after| == |rows|
  {
    rows[i := rows[i].(review := false, resolution := Some(OperatorRejected))]
  }

  /** Archiving. An elapsed interval is final; every other archive leaves a ghost. */
  function Archived(rows: seq<Row>, i: nat, now: Time, elapsed: bool): (after: seq<Row>)
    requires i < |rows|
    ensures |after| == |rows|
  {
    rows[i := if elapsed then rows[i].(status := Pruned)
              else rows[i].(status := Pruned, end := if rows[i].status.Active? then Some(now) else rows[i].end,
                            archived := true)]
  }

  /** A matching read, or an explicit request, makes an archived row active again. */
  function Revived(rows: seq<Row>, i: nat): (after: seq<Row>)
    requires i < |rows|
    ensures |after| == |rows|
  {
    rows[i := rows[i].(status := Active, end := None)]
  }

  /** The interval a temporary override hid: its latest-starting predecessor. */
  predicate IsPredecessor(rows: seq<Row>, i: nat, b: nat) {
    && i < |rows| && b < |rows| && b in rows[i].overrides
    && forall j :: j in rows[i].overrides && j < |rows| ==>
         rows[j].start < rows[b].start || (rows[j].start == rows[b].start && b <= j)
  }

  predicate Restorable(rows: seq<Row>, i: nat, b: nat, now: Time) {
    && IsPredecessor(rows, i, b)
    && rows[i].status.Active? && Lapsed(rows[i], now) && !rows[i].restored
    && (forall j :: 0 <= j < |rows| && j != i && rows[j].claim.key == rows[i].claim.key ==> !Current(rows[j], now))
    && var was := rows[i].overrides[b]; was.None? || was.value > rows[i].end.value
  }

  function Restored(rows: seq<Row>, i: nat, b: nat): (after: seq<Row>)
    requires i < |rows| && b < |rows| && b in rows[i].overrides && rows[i].end.Some?
    ensures |after| == |rows| + 1
  {
    rows[i := rows[i].(restored := true)]
    + [rows[b].(status := Active, start := rows[i].end.value, end := rows[i].overrides[b], successor := None,
                archived := false)]
  }

  // --------------------------------------------------- the single-active repair

  predicate Contends(row: Row, key: string, now: Time) {
    Current(row, now) && row.claim.cardinality.SingleActive? && row.claim.key == key
  }

  predicate Outranks(rows: seq<Row>, a: nat, b: nat)
    requires a < |rows| && b < |rows|
  {
    var x, y := rows[a], rows[b];
    x.start > y.start
    || (x.start == y.start
        && (x.confidence > y.confidence
            || (x.confidence == y.confidence
                && (x.lastSeen > y.lastSeen || (x.lastSeen == y.lastSeen && a > b)))))
  }

  predicate IsWinner(rows: seq<Row>, key: string, now: Time, w: nat) {
    && w < |rows| && Contends(rows[w], key, now)
    && forall j :: 0 <= j < |rows| && j != w && Contends(rows[j], key, now) ==> Outranks(rows, w, j)
  }

  /** Each approved loser gives way to the winner, from the winner's start on. */
  function Repaired(rows: seq<Row>, key: string, now: Time, w: nat, approved: set<nat>): (after: seq<Row>)
    requires w < |rows|
    ensures |after| == |rows|
  {
    seq(|rows|, j requires 0 <= j < |rows| =>
      if j != w && j in approved && Contends(rows[j], key, now) then
        rows[j].(status := Superseded, end := Some(rows[w].start), successor := Some(w))
      else rows[j])
  }

  // ------------------------------------------------------------------- steps

  datatype Step =
    | Write(c: Candidate, o: Outcome)
    | Approve(i: nat)
    | Reject(i: nat)
    | Archive(i: nat, elapsed: bool)
    | Revive(i: nat)
    | Restore(i: nat, base: nat)
    | Repair(key: string, winner: nat, approved: set<nat>)

  /** What the store allows, given the rows and the clock. */
  ghost predicate Allowed(p: Policy, rows: seq<Row>, now: Time, step: Step) {
    match step
    case Write(c, o) => IsOutcome(p, rows, c, o)
    case Approve(i) => i < |rows| && Pending(rows[i])
    case Reject(i) => i < |rows| && Pending(rows[i])
    case Archive(i, elapsed) =>
      i < |rows| && !rows[i].status.Pruned? && (elapsed ==> rows[i].status.Active? && Lapsed(rows[i], now))
    case Revive(i) => i < |rows| && rows[i].archived
    case Restore(i, b) => Restorable(rows, i, b, now)
    case Repair(key, w, _) => IsWinner(rows, key, now, w)
  }

  /** A step that is not allowed changes nothing. */
  ghost function After(p: Policy, rows: seq<Row>, now: Time, step: Step): seq<Row> {
    if !Allowed(p, rows, now, step) then rows
    else
    match step
    case Write(c, o) => Written(p, rows, c, o)
    case Approve(i) => Approved(rows, i, now)
    case Reject(i) => Declined(rows, i)
    case Archive(i, elapsed) => Archived(rows, i, now, elapsed)
    case Revive(i) => Revived(rows, i)
    case Restore(i, b) => Restored(rows, i, b)
    case Repair(key, w, approved) => Repaired(rows, key, now, w, approved)
  }

  /** A step and the clock when it is taken. */
  datatype Tick = Tick(now: Time, step: Step)

  ghost predicate Legal(p: Policy, rows: seq<Row>, run: seq<Tick>)
    decreases |run|
  {
    run == [] || (Allowed(p, rows, run[0].now, run[0].step)
                  && Legal(p, After(p, rows, run[0].now, run[0].step), run[1..]))
  }

  ghost function Ending(p: Policy, rows: seq<Row>, run: seq<Tick>): seq<Row>
    decreases |run|
  {
    if run == [] then rows else Ending(p, After(p, rows, run[0].now, run[0].step), run[1..])
  }
}
