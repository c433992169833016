/** Short runs in which the store breaks a promise it otherwise keeps. */
module TruthLimits {
  import opened Ids
  import opened TruthSlots
  import Links = TruthLinks
  import Settled = TruthSettled
  import Runs = TruthGate
  import Quorum = TruthQuorum
  import Confidence

  function DefaultRank(a: Authority): nat {
    match a
    case GeneratedOutput => 0
    case Untrusted => 10
    case Agent => 20
    case User => 30
    case Operator => 40
    case System => 50
  }

  /** The shipped defaults, with no two different texts similar. */
  function Defaults(): Policy {
    Policy(DefaultRank, kind => 20, 60, true, true, 3, 2, {"preference", "directive", "state"}, kind => 0.88,
           (a, b) => if a == b then Some(1.0) else None, (a, b) => false, (a, b) => false, text => text,
           Confidence.Policy(0.25, 0.25, 0.05, 0.99))
  }

  function Says(value: string, authority: Authority): Claim {
    Claim("s:db:runs", "s:db:runs", SingleActive, value, "fact", "neutral", "positive", "decision", authority,
          authority.GeneratedOutput?)
  }

  function Tells(value: string, authority: Authority, at: Time): Candidate {
    Candidate(Says(value, authority), 0.5, None, None, at, false)
  }

  lemma TickTaken(p: Policy, rows: seq<Row>, run: seq<Tick>, next: seq<Row>)
    requires run != [] && Allowed(p, rows, run[0].now, run[0].step) && After(p, rows, run[0].now, run[0].step) == next
    ensures Legal(p, rows, run) <==> Legal(p, next, run[1..])
    ensures Ending(p, rows, run) == Ending(p, next, run[1..])
  {
    hide Allowed, After;
  }

  lemma NoTicks(p: Policy, rows: seq<Row>)
    ensures Legal(p, rows, []) && Ending(p, rows, []) == rows
  {
  }

  // ------------------------------------------ a read overturns current truth

  function FirstFact(): Row { Plain(Tells("postgres", Operator, 0)) }

  function ParkedFact(): Row {
    Plain(Tells("sqlite", Untrusted, 5)).(status := Superseded, end := Some(5), successor := Some(0),
                                          gate := Some(LowerAuthority), review := true)
  }

  ghost function Contest(): seq<Row> { [Disputed(FirstFact()), ParkedFact()] }

  function Disputed(row: Row): Row {
    row.(confidence := Confidence.Disputed(Defaults().confidence, row.confidence, 0.5, row.held))
  }

  lemma OperatorWrites()
    ensures IsOutcome(Defaults(), [], Tells("postgres", Operator, 0), Replaced({}, {}, {}))
    ensures Written(Defaults(), [], Tells("postgres", Operator, 0), Replaced({}, {}, {})) == [FirstFact()]
  {
    var c := Tells("postgres", Operator, 0);
    assert Siblings(Defaults(), [], c) == {} && Rivals(Defaults(), [], c) == {};
  }

  lemma StrangerIsParked()
    ensures IsOutcome(Defaults(), [FirstFact()], Tells("sqlite", Untrusted, 5), Parked(0, LowerAuthority))
    ensures Written(Defaults(), [FirstFact()], Tells("sqlite", Untrusted, 5), Parked(0, LowerAuthority)) == Contest()
  {
    var p, c := Defaults(), Tells("sqlite", Untrusted, 5);
    assert Rival(p, FirstFact(), c) && !Later(p, FirstFact(), c) && !Reinforceable(p, FirstFact(), c);
    assert "decision" !in p.recencyKinds && !Bypasses(p, FirstFact(), c);
  }

  /** The parked challenger ages out, a read that matches its words revives it, and
      the next repair prefers it for its later start. */
  ghost function ReadRun(): seq<Tick> {
    [Tick(0, Write(Tells("postgres", Operator, 0), Replaced({}, {}, {}))),
     Tick(5, Write(Tells("sqlite", Untrusted, 5), Parked(0, LowerAuthority))),
     Tick(100, Archive(1, false)), Tick(101, Revive(1)), Tick(102, Repair("s:db:runs", 1, {0}))]
  }

  ghost function Overturned(): seq<Row> {
    [Disputed(FirstFact()).(status := Superseded, end := Some(5), successor := Some(1)),
     ParkedFact().(status := Active, end := None, archived := true)]
  }

  lemma ArchiveReviveRepair(rows: seq<Row>)
    requires rows == Contest()
    ensures Legal(Defaults(), rows, ReadRun()[2..])
    ensures Ending(Defaults(), rows, ReadRun()[2..]) == Overturned()
  {
    hide IsOutcome, Written, Confidence.Disputed;
    var p, run := Defaults(), ReadRun()[2..];
    var archived := Archived(rows, 1, 100, false);
    var revived := Revived(archived, 1);
    assert run[0].step == Archive(1, false) && run[1..][0].step == Revive(1);
    assert IsWinner(revived, "s:db:runs", 102, 1);
    var repaired := Repaired(revived, "s:db:runs", 102, 1, {0});
    assert repaired == Overturned();
    assert run[1..][1..][0] == Tick(102, Repair("s:db:runs", 1, {0})) && run[1..][1..][1..] == [];
    NoTicks(p, repaired);
    TickTaken(p, revived, run[1..][1..], repaired);
    TickTaken(p, archived, run[1..], revived);
    TickTaken(p, rows, run, archived);
  }

  /** With every default in place and nobody's approval, an untrusted claim the gate
      parked becomes current truth over an operator's, and the two rows each say
      the other superseded them. */
  lemma ReadOverturnsTruth()
    ensures Legal(Defaults(), [], ReadRun()) && Ending(Defaults(), [], ReadRun()) == Overturned()
    ensures Overturned()[0].claim.authority.Operator? && Overturned()[0].status.Superseded?
    ensures Overturned()[1].claim.authority.Untrusted? && Overturned()[1].status.Active?
    ensures Overturned()[1].resolution.None?
    ensures Links.Loops(Overturned()) && !Links.AllKeepLinks(Defaults(), [], ReadRun())
    ensures !Runs.Holds(Defaults(), Overturned(), "s:db:runs", DefaultRank(Operator))
  {
    hide IsOutcome, Confidence.Disputed;
    var p, run := Defaults(), ReadRun();
    OperatorWrites();
    StrangerIsParked();
    ArchiveReviveRepair(Contest());
    assert run[1..][1..] == run[2..] && run[1..][0] == run[1];
    TickTaken(p, [FirstFact()], run[1..], Contest());
    TickTaken(p, [], run, [FirstFact()]);
    assert Links.Follow(Overturned(), 0, 2) == Some(0) by {
      assert Links.Follow(Overturned(), 0, 0) == Some(0);
      assert Links.Follow(Overturned(), 1, 1) == Some(0);
    }
    assert Links.Loops(Overturned());
    Links.SupersessionLoopsOnlyByRevival(p, run);
    assert Rank(p, Overturned()[1]) == 10;
  }

  // ------------------------- one observation topples an established fact

  function Told(at: Time): Candidate { Tells("postgres", User, at) }

  /** A user's fact, said three times. */
  function SaidThrice(): Row {
    Strengthened(Defaults(), Strengthened(Defaults(), Plain(Told(0)), Told(1)), Told(2))
  }

  function Challenge(): Candidate { Tells("sqlite", User, 5) }

  function ParkedEqual(): Row {
    Plain(Challenge()).(status := Superseded, end := Some(5), successor := Some(0),
                        gate := Some(InsufficientCorroboration), review := true)
  }

  ghost function Challenged(): seq<Row> { [Disputed(SaidThrice()), ParkedEqual()] }

  lemma SaidThreeTimes()
    ensures SaidThrice().observed == 3 && SaidThrice().start == 0 && SaidThrice().firstSeen == 0
    ensures SaidThrice().claim == Told(0).claim && SaidThrice().status.Active? && SaidThrice().end.None?
    ensures SaidThrice().resolution.None? && SaidThrice().successor.None?
  {
    hide Confidence.Reinforced;
  }

  lemma SaidAgain(row: Row, at: Time)
    requires row.claim == Told(0).claim && row.status.Active?
    ensures IsOutcome(Defaults(), [row], Told(at), Reinforced(0))
    ensures Written(Defaults(), [row], Told(at), Reinforced(0)) == [Strengthened(Defaults(), row, Told(at))]
  {
    hide Strengthened;
  }

  lemma SaidFirst()
    ensures IsOutcome(Defaults(), [], Told(0), Replaced({}, {}, {}))
    ensures Written(Defaults(), [], Told(0), Replaced({}, {}, {})) == [Plain(Told(0))]
  {
    assert Siblings(Defaults(), [], Told(0)) == {} && Rivals(Defaults(), [], Told(0)) == {};
  }

  lemma EqualIsParked(row: Row)
    requires row.claim == Told(0).claim && row.status.Active? && row.start == 0 && row.observed == 3
    ensures IsOutcome(Defaults(), [row], Challenge(), Parked(0, InsufficientCorroboration))
    ensures Written(Defaults(), [row], Challenge(), Parked(0, InsufficientCorroboration)) == [Disputed(row), ParkedEqual()]
  {
    var p, c := Defaults(), Challenge();
    assert Rival(p, row, c) && !Later(p, row, c) && !Reinforceable(p, row, c) && !Sibling(p, row, c);
    assert Siblings(p, [row], c) == {};
    assert "decision" !in p.recencyKinds && !Bypasses(p, row, c);
    assert Blocked(p, row, c, 1) == Some(InsufficientCorroboration);
  }

  ghost function EqualRun(): seq<Tick> {
    [Tick(0, Write(Told(0), Replaced({}, {}, {}))), Tick(1, Write(Told(1), Reinforced(0))),
     Tick(2, Write(Told(2), Reinforced(0))), Tick(5, Write(Challenge(), Parked(0, InsufficientCorroboration)))]
  }

  ghost function EqualEnd(): seq<Tick> {
    [Tick(100, Archive(1, false)), Tick(101, Revive(1)), Tick(102, Repair("s:db:runs", 1, {0}))]
  }

  ghost function Toppled(): seq<Row> {
    [Disputed(SaidThrice()).(status := Superseded, end := Some(5), successor := Some(1)),
     ParkedEqual().(status := Active, end := None, archived := true)]
  }

  lemma EqualIsHeard()
    ensures Legal(Defaults(), [], EqualRun()) && Ending(Defaults(), [], EqualRun()) == Challenged()
  {
    SaidFirst();
    SaidAgain(Plain(Told(0)), 1);
    SaidThreeTimes();
    SaidAgain(Strengthened(Defaults(), Plain(Told(0)), Told(1)), 2);
    EqualIsParked(SaidThrice());
    hide IsOutcome, Written, Strengthened, Confidence.Disputed;
    var p, run := Defaults(), EqualRun();
    var one, two, three := [Plain(Told(0))], [Strengthened(p, Plain(Told(0)), Told(1))], [SaidThrice()];
    assert run[1..][0] == run[1] && run[1..][1..][0] == run[2] && run[1..][1..][1..][0] == run[3]
      && run[1..][1..][1..][1..] == [];
    NoTicks(p, Challenged());
    TickTaken(p, three, run[1..][1..][1..], Challenged());
    TickTaken(p, two, run[1..][1..], three);
    TickTaken(p, one, run[1..], two);
    TickTaken(p, [], run, one);
  }

  /** Seven steps on the defaults, all by users: a fact said three times gives way to a
      challenge made once, which the gate parked for want of corroboration, once a read has
      revived it and the repair prefers its later start. Nobody approved it, no kind of
      recency applies, and authority is respected throughout. */
  lemma OneVoiceTopples()
    ensures Legal(Defaults(), [], EqualRun()) && Ending(Defaults(), [], EqualRun()) == Challenged()
    ensures Legal(Defaults(), Challenged(), EqualEnd()) && Ending(Defaults(), Challenged(), EqualEnd()) == Toppled()
    ensures Challenged()[0].status.Active? && Challenged()[0].observed == 3 == Defaults().margin
    ensures Toppled()[0].status.Superseded? && Toppled()[0].successor == Some(1)
    ensures Toppled()[1].status.Active? && Toppled()[1].observed == 1 < Defaults().required && Toppled()[1].resolution.None?
    ensures Runs.NoneOverreaches(Defaults(), Challenged(), EqualEnd())
    ensures !Quorum.NoneTopples(Defaults(), Challenged(), EqualEnd())
  {
    EqualIsHeard();
    SaidThreeTimes();
    hide IsOutcome, Written, Strengthened, Confidence.Disputed;
    var p, run, rows := Defaults(), EqualEnd(), Challenged();
    var archived := Archived(rows, 1, 100, false);
    var revived := Revived(archived, 1);
    assert run[1..][0].step == Revive(1) && run[1..][1..][0] == Tick(102, Repair("s:db:runs", 1, {0}));
    assert run[1..][1..][1..] == [];
    assert IsWinner(revived, "s:db:runs", 102, 1);
    var repaired := Repaired(revived, "s:db:runs", 102, 1, {0});
    assert repaired == Toppled();
    NoTicks(p, repaired);
    TickTaken(p, revived, run[1..][1..], repaired);
    TickTaken(p, archived, run[1..], revived);
    TickTaken(p, rows, run, archived);
    EqualRanks(revived);
    assert Runs.NoneOverreaches(p, revived, run[1..][1..]) by { assert Runs.NoneOverreaches(p, repaired, []); }
    assert Runs.NoneOverreaches(p, archived, run[1..]);
    assert !Quorum.NoneTopples(p, revived, run[1..][1..]);
    assert !Quorum.NoneTopples(p, archived, run[1..]);
  }

  lemma EqualRanks(rows: seq<Row>)
    requires |rows| == 2 && rows[0].claim == Told(0).claim && rows[1].claim == Challenge().claim
    requires rows[0].observed == 3 && rows[1].resolution.None? && Contends(rows[0], "s:db:runs", 102)
    ensures !Runs.Overreaches(Defaults(), rows, 102, Repair("s:db:runs", 1, {0}))
    ensures Quorum.Topples(Defaults(), rows, 102, Repair("s:db:runs", 1, {0}))
  {
    assert Quorum.ToppledLoser(Defaults(), rows, 102, Repair("s:db:runs", 1, {0}), 0);
  }

  // -------------------------------------------- a start claimed in the future

  /** A user's fact dated far ahead keeps the slot against a system correction made
      today, which is filed as history. */
  lemma FutureStartHolds()
    ensures var ahead := Tells("sqlite", User, 1).(from := Some(1000));
      IsOutcome(Defaults(), [Plain(ahead)], Tells("postgres", System, 2), Historical(0))
  {
    var p, row, c := Defaults(), Plain(Tells("sqlite", User, 1).(from := Some(1000))), Tells("postgres", System, 2);
    assert Later(p, row, c) && !Reinforceable(p, row, c);
  }

  // --------------------------------------------- the same fact, generated

  /** Generated output repeating a stored fact does not reinforce it and does not
      contradict it: the slot then shows the fact twice. */
  lemma GeneratedRepeatDoubles()
    ensures IsOutcome(Defaults(), [FirstFact()], Tells("postgres", GeneratedOutput, 9), Replaced({}, {}, {}))
    ensures !Settled.Settled(Written(Defaults(), [FirstFact()], Tells("postgres", GeneratedOutput, 9), Replaced({}, {}, {})), 9)
  {
    var p, c := Defaults(), Tells("postgres", GeneratedOutput, 9);
    assert !Reinforceable(p, FirstFact(), c) && !Rival(p, FirstFact(), c) && !Sibling(p, FirstFact(), c);
    assert Siblings(p, [FirstFact()], c) == {} && Rivals(p, [FirstFact()], c) == {};
    var after := Written(p, [FirstFact()], c, Replaced({}, {}, {}));
    assert after[0] == FirstFact() && after[1] == Plain(c);
    assert Current(after[0], 9) && Contends(after[1], after[0].claim.key, 9);
  }

  // ------------------------------------------ an override over an override

  function Until(value: string, at: Time, until: Time): Candidate { Tells(value, User, at).(until := Some(until)) }

  function Usual(): Row { Plain(Tells("postgres", User, 0)) }

  ghost function OneOverride(): seq<Row> {
    [Usual().(status := Superseded, end := Some(1), successor := Some(1)),
     Plain(Until("sqlite", 1, 10)).(overrides := map[0 := None])]
  }

  ghost function TwoOverrides(): seq<Row> {
    [OneOverride()[0],
     OneOverride()[1].(status := Superseded, end := Some(2), successor := Some(2)),
     Plain(Until("mysql", 2, 20)).(overrides := map[1 := Some(10)])]
  }

  lemma FirstOverride()
    ensures IsOutcome(Defaults(), [Usual()], Until("sqlite", 1, 10), Replaced({0}, {}, {}))
  {
    var p, c := Defaults(), Until("sqlite", 1, 10);
    assert Rival(p, Usual(), c) && !Later(p, Usual(), c) && !Reinforceable(p, Usual(), c) && !Sibling(p, Usual(), c);
    assert Siblings(p, [Usual()], c) == {} && Rivals(p, [Usual()], c) == {0};
    assert !Established(p, Usual(), c) && Gate(p, Usual(), c, 1).None?;
  }

  lemma FirstOverrideWritten()
    ensures Written(Defaults(), [Usual()], Until("sqlite", 1, 10), Replaced({0}, {}, {})) == OneOverride()
  {
    var c, targets: set<nat> := Until("sqlite", 1, 10), {0};
    var row := Inserted([Usual()], c, Replaced(targets, {}, {}));
    assert row.overrides == map[0 := None];
    assert Touched(Defaults(), Usual(), 0, 1, c, Replaced(targets, {}, {})) == OneOverride()[0];
  }

  lemma SecondOverride()
    ensures IsOutcome(Defaults(), OneOverride(), Until("mysql", 2, 20), Replaced({1}, {}, {}))
  {
    var p, c, rows := Defaults(), Until("mysql", 2, 20), OneOverride();
    assert !Rival(p, rows[0], c) && Rival(p, rows[1], c) && !Later(p, rows[1], c);
    assert !Reinforceable(p, rows[0], c) && !Reinforceable(p, rows[1], c);
    assert !Sibling(p, rows[0], c) && !Sibling(p, rows[1], c);
    assert Siblings(p, rows, c) == {} && Rivals(p, rows, c) == {1};
    assert !Established(p, rows[1], c) && Gate(p, rows[1], c, 1).None?;
  }

  lemma SecondOverrideWritten()
    ensures Written(Defaults(), OneOverride(), Until("mysql", 2, 20), Replaced({1}, {}, {})) == TwoOverrides()
  {
    var c, rows, targets: set<nat> := Until("mysql", 2, 20), OneOverride(), {1};
    var row := Inserted(rows, c, Replaced(targets, {}, {}));
    assert row.overrides == map[1 := Some(10)];
    assert Touched(Defaults(), rows[0], 0, 2, c, Replaced(targets, {}, {})) == TwoOverrides()[0];
    assert Touched(Defaults(), rows[1], 1, 2, c, Replaced(targets, {}, {})) == TwoOverrides()[1];
  }

  /** When a temporary fact is itself overridden for longer than it would have
      lasted, no restoration is ever allowed: the usual fact does not come back and
      the slot stays empty. */
  lemma NestedOverrideEmptiesSlot(now: Time, base: nat)
    requires now >= 20
    ensures var run := [Tick(1, Write(Until("sqlite", 1, 10), Replaced({0}, {}, {}))),
                        Tick(2, Write(Until("mysql", 2, 20), Replaced({1}, {}, {})))];
      Legal(Defaults(), [Usual()], run) && Ending(Defaults(), [Usual()], run) == TwoOverrides()
    ensures !Restorable(TwoOverrides(), 2, base, now)
    ensures forall i :: 0 <= i < 3 ==> !Contends(TwoOverrides()[i], "s:db:runs", now)
  {
    FirstOverride();
    FirstOverrideWritten();
    SecondOverride();
    SecondOverrideWritten();
    hide IsOutcome, Written;
    var run := [Tick(1, Write(Until("sqlite", 1, 10), Replaced({0}, {}, {}))),
                Tick(2, Write(Until("mysql", 2, 20), Replaced({1}, {}, {})))];
    assert run[1..][0] == run[1] && run[1..][1..] == [];
    assert After(Defaults(), OneOverride(), 2, run[1].step) == TwoOverrides();
    NoTicks(Defaults(), TwoOverrides());
    TickTaken(Defaults(), OneOverride(), run[1..], TwoOverrides());
    TickTaken(Defaults(), [Usual()], run, OneOverride());
  }
}
