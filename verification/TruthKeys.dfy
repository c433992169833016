/** Truth keys under changing registries: registering a synonym or an alias re-keys
    the rows already stored, and exactly when a live row is left on a stale key. */
module TruthKeys {
  import opened Ids

  datatype Cardinality = SingleActive | MultiActive

  /** The words a fact was stated in. */
  datatype Mention = Mention(subject: string, verb: string, value: string, cardinality: Cardinality)

  datatype AliasStatus = Active | Proposed | Rejected

  datatype Alias = Alias(canonical: string, status: AliasStatus)

  /** The scope's canonical predicates and entity aliases. */
  datatype Registry = Registry(predicates: map<string, string>, aliases: map<string, Alias>)

  /** A stored fact: live when active or parked and unresolved, frozen history
      otherwise. */
  datatype Row = Row(surface: Mention, live: bool, key: string, prefix: string)

  // ---------------------------------------------------------------- the keys

  /** Aliases resolve one level; a proposed or rejected one does not resolve. */
  function Entity(reg: Registry, name: string): string {
    if name in reg.aliases && reg.aliases[name].status.Active? then reg.aliases[name].canonical else name
  }

  function Predicate(reg: Registry, surface: string): string {
    if surface in reg.predicates then reg.predicates[surface] else surface
  }

  function Prefix(subject: string, verb: string): string { subject + ":" + verb }

  function Key(subject: string, verb: string, value: string, cardinality: Cardinality): string {
    if cardinality.SingleActive? then Prefix(subject, verb) else Prefix(subject, verb) + ":" + value
  }

  /** The row on the slot that the registries name from scratch. */
  function Rekeyed(reg: Registry, row: Row): Row {
    var m := row.surface;
    var subject, verb := Entity(reg, m.subject), Predicate(reg, m.verb);
    row.(key := Key(subject, verb, Entity(reg, m.value), m.cardinality), prefix := Prefix(subject, verb))
  }

  predicate Fresh(reg: Registry, row: Row) { row == Rekeyed(reg, row) }

  /** A name as the registry has it: its canonical if an active alias gives one. */
  predicate Names(reg: Registry, name: string, to: string) {
    if name in reg.aliases && reg.aliases[name].status == Active then to == reg.aliases[name].canonical else to == name
  }

  /** A fresh row is filed under its subject and verb as the registries have them, and in a slot
      of several under its value too. */
  lemma FreshReads(reg: Registry, row: Row, subject: string, verb: string, value: string)
    requires Names(reg, row.surface.subject, subject) && Names(reg, row.surface.value, value)
    requires if row.surface.verb in reg.predicates then verb == reg.predicates[row.surface.verb] else verb == row.surface.verb
    ensures Fresh(reg, row) <==>
            && row.prefix == subject + ":" + verb
            && row.key == match row.surface.cardinality
                          case SingleActive => subject + ":" + verb
                          case MultiActive => subject + ":" + verb + ":" + value
  {
  }

  ghost predicate AllFresh(reg: Registry, rows: seq<Row>) {
    forall i :: 0 <= i < |rows| && rows[i].live ==> Fresh(reg, rows[i])
  }

  /** The whole-scope sweep. */
  function Swept(reg: Registry, rows: seq<Row>): (after: seq<Row>)
    ensures |after| == |rows|
  {
    seq(|rows|, i requires 0 <= i < |rows| => if rows[i].live then Rekeyed(reg, rows[i]) else rows[i])
  }

  /** The sweep after one activation visits only the rows that mention the name. */
  predicate Mentions(row: Row, name: string) { row.surface.subject == name || row.surface.value == name }

  function SweptFor(reg: Registry, rows: seq<Row>, name: string): (after: seq<Row>)
    ensures |after| == |rows|
  {
    seq(|rows|, i requires 0 <= i < |rows| =>
      if rows[i].live && Mentions(rows[i], name) then Rekeyed(reg, rows[i]) else rows[i])
  }

  function SweptOf(reg: Registry, rows: seq<Row>, surface: string): (after: seq<Row>)
    ensures |after| == |rows|
  {
    seq(|rows|, i requires 0 <= i < |rows| =>
      if rows[i].live && rows[i].surface.verb == surface then Rekeyed(reg, rows[i]) else rows[i])
  }

  // ------------------------------------------------------------- the registry

  /** The first decision about a surface stands. */
  function Learned(reg: Registry, surface: string, canonical: string): Registry {
    if surface in reg.predicates then reg else reg.(predicates := reg.predicates[surface := canonical])
  }

  /** Activating an alias: a first decision, or the same canonical that was proposed. */
  function Activated(reg: Registry, name: string, canonical: string): Registry {
    if name !in reg.aliases then reg.(aliases := reg.aliases[name := Alias(canonical, Active)])
    else if reg.aliases[name] == Alias(canonical, Proposed) then
      reg.(aliases := reg.aliases[name := Alias(canonical, Active)])
    else reg
  }

  function Demoted(reg: Registry, name: string): Registry {
    if name in reg.aliases then reg.(aliases := reg.aliases[name := reg.aliases[name].(status := Proposed)]) else reg
  }

  /** Which canonical an unknown surface gets: from the synonym map, the nearest
      known predicate, or itself. */
  type Chooser = (map<string, string>, string) -> string

  function LearnedRow(reg: Registry, row: Row, choose: Chooser): Registry {
    if row.live then Learned(reg, row.surface.verb, choose(reg.predicates, row.surface.verb)) else reg
  }

  function LearnedAll(reg: Registry, rows: seq<Row>, choose: Chooser): Registry {
    if rows == [] then reg
    else LearnedRow(LearnedAll(reg, rows[..|rows| - 1], choose), rows[|rows| - 1], choose)
  }

  // ------------------------------------------------------------------- steps

  datatype Step =
    | Learn(word: string, canonical: string)
    | Link(name: string, canonical: string)
    | Declare(name: string, canonical: string)
    | Demote(name: string)
    | Approve(name: string, sweep: bool)
    | Insert(m: Mention, subject: string, value: string)
    | Freeze(i: nat)
    | Revive(i: nat)
    | Copy(i: nat)
    | SweepEntities
    | SweepPredicates(choose: Chooser)

  datatype Scope = Scope(reg: Registry, rows: seq<Row>)

  predicate Allowed(s: Scope, step: Step) {
    match step
    case Link(name, canonical) => name != canonical
    case Declare(name, canonical) => name != canonical
    case Approve(name, _) =>
      name in s.reg.aliases && s.reg.aliases[name].status.Proposed? && s.reg.aliases[name].canonical != name
    case Freeze(i) => i < |s.rows|
    case Revive(i) => i < |s.rows|
    case Copy(i) => i < |s.rows|
    case _ => true
  }

  /** `subject` and `value` are the names the entity pass resolved earlier in the
      same write. */
  function Inserted(reg: Registry, m: Mention, subject: string, value: string): Row {
    var verb := Predicate(reg, m.verb);
    Row(m, true, Key(subject, verb, value, m.cardinality), Prefix(subject, verb))
  }

  function After(s: Scope, step: Step): Scope {
    if !Allowed(s, step) then s
    else
    match step
    case Learn(surface, canonical) =>
      var reg := Learned(s.reg, surface, canonical);
      Scope(reg, if canonical != surface && surface !in s.reg.predicates then SweptOf(reg, s.rows, surface) else s.rows)
    case Link(name, canonical) =>
      var reg := Activated(s.reg, name, canonical);
      Scope(reg, if Entity(reg, name) != Entity(s.reg, name) then SweptFor(reg, s.rows, name) else s.rows)
    case Declare(name, canonical) => s.(reg := Activated(s.reg, name, canonical))
    case Demote(name) =>
      var reg := Demoted(s.reg, name);
      Scope(reg, SweptFor(reg, s.rows, name))
    case Approve(name, sweep) =>
      var reg := Activated(s.reg, name, s.reg.aliases[name].canonical);
      Scope(reg, if sweep then Swept(reg, s.rows) else s.rows)
    case Insert(m, subject, value) => s.(rows := s.rows + [Inserted(s.reg, m, subject, value)])
    case Freeze(i) => s.(rows := s.rows[i := s.rows[i].(live := false)])
    case Revive(i) => s.(rows := s.rows[i := s.rows[i].(live := true)])
    case Copy(i) => s.(rows := s.rows + [s.rows[i].(live := true)])
    case SweepEntities => s.(rows := Swept(s.reg, s.rows))
    case SweepPredicates(choose) =>
      var reg := LearnedAll(s.reg, s.rows, choose);
      Scope(reg, Swept(reg, s.rows))
  }

  // ------------------------------------------------------ what each step keeps

  /** An alias no live key is built on: live rows mention it at most as the object of
      a single-active fact, which its key leaves out. */
  predicate Unused(rows: seq<Row>, name: string) {
    forall i :: 0 <= i < |rows| && rows[i].live && Mentions(rows[i], name) ==>
      rows[i].surface.subject != name && rows[i].surface.cardinality.SingleActive?
  }

  /** The caller's check: a step that sweeps always passes. */
  ghost predicate KeepsFresh(s: Scope, step: Step) {
    match step
    case Declare(name, canonical) =>
      Entity(Activated(s.reg, name, canonical), name) == Entity(s.reg, name) || Unused(s.rows, name)
    case Approve(name, sweep) => sweep || Unused(s.rows, name)
    case Insert(m, subject, value) =>
      subject == Entity(s.reg, m.subject) && (m.cardinality.MultiActive? ==> value == Entity(s.reg, m.value))
    case Revive(i) => i < |s.rows| ==> Fresh(s.reg, s.rows[i])
    case Copy(i) => i < |s.rows| ==> Fresh(s.reg, s.rows[i])
    case _ => true
  }

  lemma SuffixCancels(x: string, y: string, s: string)
    requires x + s == y + s
    ensures x == y
  {
    assert |x + s| == |x| + |s| && |y + s| == |y| + |s|;
    assert (x + s)[..|x|] == x && (y + s)[..|x|] == y;
  }

  /** The subject can be read off a prefix, given the predicate. */
  lemma PrefixTellsSubject(a: string, b: string, verb: string)
    ensures Prefix(a, verb) == Prefix(b, verb) <==> a == b
  {
    if Prefix(a, verb) == Prefix(b, verb) {
      assert a + ":" + verb == a + (":" + verb) && b + ":" + verb == b + (":" + verb);
      SuffixCancels(a, b, ":" + verb);
    }
  }

  lemma KeyTellsValue(prefix: string, x: string, y: string)
    ensures prefix + ":" + x == prefix + ":" + y <==> x == y
  {
    var lead := prefix + ":";
    assert (lead + x)[|lead|..] == x && (lead + y)[|lead|..] == y;
  }

  /** Two resolutions give a row the same slot exactly when they agree on its subject
      and, where the key shows it, on its object. */
  lemma SameSlotExactly(m: Mention, verb: string, s1: string, v1: string, s2: string, v2: string)
    ensures (Prefix(s1, verb) == Prefix(s2, verb)
             && Key(s1, verb, v1, m.cardinality) == Key(s2, verb, v2, m.cardinality))
            <==> s1 == s2 && (m.cardinality.MultiActive? ==> v1 == v2)
  {
    PrefixTellsSubject(s1, s2, verb);
    KeyTellsValue(Prefix(s1, verb), v1, v2);
  }

  /** An alias changes what one name resolves to; rows that do not show it stay put. */
  lemma AliasMovesExactly(reg: Registry, next: Registry, name: string, row: Row)
    requires Fresh(reg, row) && next.predicates == reg.predicates && Entity(next, name) != Entity(reg, name)
    requires forall other :: other != name ==> Entity(next, other) == Entity(reg, other)
    ensures Fresh(next, row) <==> row.surface.subject != name && (row.surface.value == name ==> row.surface.cardinality.SingleActive?)
  {
    var m := row.surface;
    SameSlotExactly(m, Predicate(reg, m.verb), Entity(reg, m.subject), Entity(reg, m.value),
                    Entity(next, m.subject), Entity(next, m.value));
    hide Key, Prefix;
  }

  lemma AliasesElsewhere(reg: Registry, name: string, canonical: string)
    ensures forall other :: other != name ==> Entity(Activated(reg, name, canonical), other) == Entity(reg, other)
    ensures forall other :: other != name ==> Entity(Demoted(reg, name), other) == Entity(reg, other)
    ensures Activated(reg, name, canonical).predicates == reg.predicates == Demoted(reg, name).predicates
    ensures (forall other :: Entity(Activated(reg, name, canonical), other) == Entity(reg, other))
      <==> Entity(Activated(reg, name, canonical), name) == Entity(reg, name)
  {
  }

  lemma SameRegistrySameKey(reg: Registry, next: Registry, row: Row)
    requires Entity(next, row.surface.subject) == Entity(reg, row.surface.subject)
    requires Entity(next, row.surface.value) == Entity(reg, row.surface.value)
    requires Predicate(next, row.surface.verb) == Predicate(reg, row.surface.verb)
    ensures Rekeyed(next, row) == Rekeyed(reg, row)
  {
    hide Key, Prefix, Entity, Predicate;
  }

  lemma DeclareFreshExactly(s: Scope, name: string, canonical: string)
    requires AllFresh(s.reg, s.rows)
    ensures AllFresh(Activated(s.reg, name, canonical), s.rows) <==>
      Entity(Activated(s.reg, name, canonical), name) == Entity(s.reg, name) || Unused(s.rows, name)
  {
    var next := Activated(s.reg, name, canonical);
    AliasesElsewhere(s.reg, name, canonical);
    hide Fresh, Entity, Activated, Demoted;
    forall i | 0 <= i < |s.rows| && s.rows[i].live
      ensures Fresh(next, s.rows[i]) <==>
        Entity(next, name) == Entity(s.reg, name)
        || (s.rows[i].surface.subject != name
            && (s.rows[i].surface.value == name ==> s.rows[i].surface.cardinality.SingleActive?))
    {
      if Entity(next, name) != Entity(s.reg, name) {
        AliasMovesExactly(s.reg, next, name, s.rows[i]);
      } else {
        FreshUnderSame(s.reg, next, s.rows[i]);
      }
    }
  }

  lemma FreshUnderSame(reg: Registry, next: Registry, row: Row)
    requires Fresh(reg, row)
    requires Entity(next, row.surface.subject) == Entity(reg, row.surface.subject)
    requires Entity(next, row.surface.value) == Entity(reg, row.surface.value)
    requires Predicate(next, row.surface.verb) == Predicate(reg, row.surface.verb)
    ensures Fresh(next, row)
  {
    SameRegistrySameKey(reg, next, row);
  }

  lemma RekeyingSettles(reg: Registry, row: Row)
    ensures Fresh(reg, Rekeyed(reg, row)) && Rekeyed(reg, row).live == row.live
  {
    hide Key, Prefix, Entity, Predicate;
  }

  lemma SweepFreshens(reg: Registry, rows: seq<Row>)
    ensures AllFresh(reg, Swept(reg, rows))
  {
    hide Rekeyed, Fresh;
    forall i | 0 <= i < |rows| && rows[i].live
      ensures Fresh(reg, Swept(reg, rows)[i])
    {
      RekeyingSettles(reg, rows[i]);
    }
    assert forall i :: 0 <= i < |rows| && Swept(reg, rows)[i].live ==> rows[i].live by { hide AllFresh; SweepKeepsLive(reg, rows); }
  }

  lemma SweepKeepsLive(reg: Registry, rows: seq<Row>)
    ensures forall i :: 0 <= i < |rows| ==> Swept(reg, rows)[i].live == rows[i].live
    ensures forall i :: 0 <= i < |rows| ==> Swept(reg, rows)[i].surface == rows[i].surface
    ensures forall i :: 0 <= i < |rows| && !rows[i].live ==> Swept(reg, rows)[i] == rows[i]
  {
    hide Key, Prefix, Entity, Predicate;
  }

  /** The narrowed sweeps after one activation reach every row it could have moved. */
  lemma NarrowSweepSuffices(s: Scope, next: Registry, name: string)
    requires AllFresh(s.reg, s.rows) && next.predicates == s.reg.predicates
    requires forall other :: other != name ==> Entity(next, other) == Entity(s.reg, other)
    ensures AllFresh(next, SweptFor(next, s.rows, name))
  {
    hide Key, Prefix, Entity, Rekeyed, Fresh;
    forall i | 0 <= i < |s.rows| && s.rows[i].live
      ensures Fresh(next, SweptFor(next, s.rows, name)[i])
    {
      if Mentions(s.rows[i], name) { RekeyingSettles(next, s.rows[i]); } else { FreshUnderSame(s.reg, next, s.rows[i]); }
    }
    forall i | 0 <= i < |s.rows| && SweptFor(next, s.rows, name)[i].live
      ensures s.rows[i].live
    {
      RekeyingSettles(next, s.rows[i]);
    }
  }

  lemma PredicateSweepSuffices(s: Scope, surface: string, canonical: string)
    requires AllFresh(s.reg, s.rows) && surface !in s.reg.predicates
    ensures AllFresh(Learned(s.reg, surface, canonical), SweptOf(Learned(s.reg, surface, canonical), s.rows, surface))
  {
    hide Key, Prefix, Rekeyed, Fresh;
    var next := Learned(s.reg, surface, canonical);
    forall i | 0 <= i < |s.rows| && s.rows[i].live
      ensures Fresh(next, SweptOf(next, s.rows, surface)[i])
    {
      if s.rows[i].surface.verb == surface {
        RekeyingSettles(next, s.rows[i]);
      } else {
        FreshUnderSame(s.reg, next, s.rows[i]);
      }
    }
    forall i | 0 <= i < |s.rows| && SweptOf(next, s.rows, surface)[i].live
      ensures s.rows[i].live
    {
      RekeyingSettles(next, s.rows[i]);
    }
  }

  lemma LearnStaysFresh(s: Scope, surface: string, canonical: string)
    requires AllFresh(s.reg, s.rows)
    ensures AllFresh(After(s, Learn(surface, canonical)).reg, After(s, Learn(surface, canonical)).rows)
  {
    hide Rekeyed, Fresh, SweptOf;
    if canonical != surface && surface !in s.reg.predicates {
      PredicateSweepSuffices(s, surface, canonical);
    } else {
      var next := Learned(s.reg, surface, canonical);
      forall i | 0 <= i < |s.rows| && s.rows[i].live
        ensures Fresh(next, s.rows[i])
      {
        FreshUnderSame(s.reg, next, s.rows[i]);
      }
    }
  }

  lemma LinkStaysFresh(s: Scope, name: string, canonical: string)
    requires AllFresh(s.reg, s.rows) && name != canonical
    ensures AllFresh(After(s, Link(name, canonical)).reg, After(s, Link(name, canonical)).rows)
  {
    var next := Activated(s.reg, name, canonical);
    AliasesElsewhere(s.reg, name, canonical);
    hide Activated, Demoted, Entity;
    if Entity(next, name) != Entity(s.reg, name) {
      NarrowSweepSuffices(s, next, name);
    } else {
      DeclareFreshExactly(s, name, canonical);
    }
  }

  lemma InsertFreshExactly(s: Scope, m: Mention, subject: string, value: string)
    requires AllFresh(s.reg, s.rows)
    ensures AllFresh(s.reg, s.rows + [Inserted(s.reg, m, subject, value)]) <==>
      subject == Entity(s.reg, m.subject) && (m.cardinality.MultiActive? ==> value == Entity(s.reg, m.value))
  {
    SameSlotExactly(m, Predicate(s.reg, m.verb), subject, value, Entity(s.reg, m.subject), Entity(s.reg, m.value));
    var rows, row := s.rows + [Inserted(s.reg, m, subject, value)], Inserted(s.reg, m, subject, value);
    assert row.live && row.surface == m;
    hide Key, Prefix, Entity;
    assert Fresh(s.reg, row) <==> subject == Entity(s.reg, m.subject) && (m.cardinality.MultiActive? ==> value == Entity(s.reg, m.value));
    hide Fresh;
    assert rows[|s.rows|] == row && forall i :: 0 <= i < |s.rows| ==> rows[i] == s.rows[i];
  }

  lemma LivenessAside(reg: Registry, row: Row)
    ensures Fresh(reg, row.(live := true)) <==> Fresh(reg, row)
  {
    hide Key, Prefix, Entity, Predicate;
    assert Rekeyed(reg, row.(live := true)) == Rekeyed(reg, row).(live := true);
  }

  lemma RowStepsFreshExactly(s: Scope, step: Step)
    requires AllFresh(s.reg, s.rows) && Allowed(s, step) && (step.Freeze? || step.Revive? || step.Copy?)
    ensures AllFresh(After(s, step).reg, After(s, step).rows) <==> KeepsFresh(s, step)
  {
    hide Rekeyed, Fresh;
    var rows, i := After(s, step).rows, step.i;
    LivenessAside(s.reg, s.rows[i]);
    assert forall j :: 0 <= j < |s.rows| && j != i ==> rows[j] == s.rows[j];
    var place := if step.Copy? then |s.rows| else i;
    assert rows[place] == s.rows[i].(live := !step.Freeze?);
  }

  /** Every live row stays on the slot the registries name, exactly when the step
      passes its check. */
  lemma StepFreshExactly(s: Scope, step: Step)
    requires AllFresh(s.reg, s.rows) && Allowed(s, step)
    ensures AllFresh(After(s, step).reg, After(s, step).rows) <==> KeepsFresh(s, step)
  {
    hide AllFresh, Swept, SweptFor, SweptOf, Inserted, Fresh, Unused;
    match step
    case Learn(surface, canonical) => LearnStaysFresh(s, surface, canonical);
    case Link(name, canonical) => LinkStaysFresh(s, name, canonical);
    case Declare(name, canonical) => DeclareFreshExactly(s, name, canonical);
    case Demote(name) =>
      AliasesElsewhere(s.reg, name, name);
      NarrowSweepSuffices(s, Demoted(s.reg, name), name);
    case Approve(name, sweep) =>
      var canonical := s.reg.aliases[name].canonical;
      DeclareFreshExactly(s, name, canonical);
      SweepFreshens(Activated(s.reg, name, canonical), s.rows);
    case Insert(m, subject, value) => InsertFreshExactly(s, m, subject, value);
    case SweepEntities => SweepFreshens(s.reg, s.rows);
    case SweepPredicates(choose) => SweepFreshens(LearnedAll(s.reg, s.rows, choose), s.rows);
    case _ => RowStepsFreshExactly(s, step);
  }

  ghost predicate Legal(s: Scope, steps: seq<Step>)
    decreases |steps|
  {
    steps == [] || (Allowed(s, steps[0]) && Legal(After(s, steps[0]), steps[1..]))
  }

  ghost predicate AlwaysFresh(s: Scope, steps: seq<Step>)
    decreases |steps|
  {
    AllFresh(s.reg, s.rows) && (steps == [] || AlwaysFresh(After(s, steps[0]), steps[1..]))
  }

  ghost predicate AllKeepFresh(s: Scope, steps: seq<Step>)
    decreases |steps|
  {
    steps == [] || (KeepsFresh(s, steps[0]) && AllKeepFresh(After(s, steps[0]), steps[1..]))
  }

  /** Over any interleaving of writes, registrations, demotions, reviews, archives
      and sweeps: live keys are at every moment those computed from scratch, exactly
      when every step passes its check. */
  lemma {:induction false} KeysFreshExactly(s: Scope, steps: seq<Step>)
    requires Legal(s, steps) && AllFresh(s.reg, s.rows)
    ensures AlwaysFresh(s, steps) <==> AllKeepFresh(s, steps)
    decreases |steps|
  {
    hide Allowed, After, AllFresh, KeepsFresh;
    if steps != [] {
      StepFreshExactly(s, steps[0]);
      if AllFresh(After(s, steps[0]).reg, After(s, steps[0]).rows) {
        KeysFreshExactly(After(s, steps[0]), steps[1..]);
      } else {
        assert !AlwaysFresh(After(s, steps[0]), steps[1..]);
      }
    }
  }

  /** What the registries' own steps do: the first canonical of a predicate stands, an alias
      activates at first sight or as proposed and not otherwise, and a demoted one no longer
      resolves; no step moves another word. */
  lemma RegistryMoves(reg: Registry, word: string, canonical: string, other: string)
    requires other != word
    ensures Predicate(Learned(reg, word, canonical), word) == if word in reg.predicates then reg.predicates[word] else canonical
    ensures Entity(Activated(reg, word, canonical), word) ==
            (if word !in reg.aliases || reg.aliases[word] == Alias(canonical, Proposed) then canonical else Entity(reg, word))
    ensures Entity(Demoted(reg, word), word) == word
    ensures Predicate(Learned(reg, word, canonical), other) == Predicate(reg, other)
    ensures Entity(Activated(reg, word, canonical), other) == Entity(reg, other) == Entity(Demoted(reg, word), other)
    ensures Learned(reg, word, canonical).aliases == reg.aliases
    ensures Activated(reg, word, canonical).predicates == reg.predicates == Demoted(reg, word).predicates
  {
  }
}
