/** Moving a tenant's memory while other agents write: COPY, VERIFY, LOCK,
    RE-VERIFY, PURGE, interleaved with any writes in any order. */
module Migration {
  import opened Ids
  import opened GraphModel

  type Scope = string

  /** A fact row: the part the state hash covers, the part it does not, and
      whether the row is active (which the hash covers too). */
  datatype Row = Row(hashed: string, unhashed: string, active: bool)

  /** One scope's share of the store.  Episodes and evidence are append-only. */
  datatype Memory = Memory(rows: map<Id, Row>, episodes: seq<Id>, evidence: seq<Id>)

  const NONE := Memory(map[], [], [])

  /** What the state hash sees: injective over the hashed part of every row. */
  function Hash(m: Memory): map<Id, (string, bool)> { map x | x in m.rows :: (m.rows[x].hashed, m.rows[x].active) }

  datatype Watermark = Watermark(hash: map<Id, (string, bool)>, episodes: nat, evidence: nat)

  function MarkOf(m: Memory): Watermark { Watermark(Hash(m), |m.episodes|, |m.evidence|) }

  /** What a copy takes to the destination: active rows and raw episodes. */
  datatype Copy = Copy(rows: map<Id, Row>, episodes: seq<Id>)

  function CopyOf(m: Memory): Copy { Copy(map x | x in m.rows && m.rows[x].active :: m.rows[x], m.episodes) }

  datatype Phase = Idle | Previewed | Copying | Checked | Done | Aborted

  /** The four figures the count check compares: the tenant's and its agents', facts and episodes. */
  datatype Tally = Tally(facts: nat, episodes: nat, agentFacts: nat, agentEpisodes: nat)

  /** The source store, the tenant's registered agent scopes, and the migration's own variables. */
  datatype World = World(source: map<Scope, Memory>, agents: set<Scope>, phase: Phase, captured: seq<Scope>,
                         preview: Tally, began: map<Scope, Memory>, mark: map<Scope, Watermark>,
                         copied: map<Scope, Copy>, purged: set<Scope>)

  /** Fixed for a migration: the tenant's own scope, and whether source and destination share a file. */
  datatype Plan = Plan(tenant: Scope, sameStore: bool)

  function Held(w: World, s: Scope): Memory { if s in w.source then w.source[s] else NONE }

  datatype Step =
    // other agents
    | Write(scope: Scope, id: Id, row: Row)
    | Erase(scope: Scope, id: Id)
    | Ingest(scope: Scope, episode: Id)
    | Observe(scope: Scope, event: Id)
    | Register(agent: Scope)
    // the migration
    | Preview
    | Begin
    | CopyScope(scope: Scope)
    | Check
    | Purge

  predicate Writer(s: Step) { s.Write? || s.Erase? || s.Ingest? || s.Observe? || s.Register? }

  /** Scopes whose rows the migration copies; within one file the agents' rows already sit there. */
  predicate Copies(p: Plan, w: World, s: Scope) { s in w.captured && (s == p.tenant || !p.sameStore) }

  predicate Enabled(p: Plan, w: World, s: Step) {
    match s
    case Preview => w.phase == Idle
    case Begin => w.phase == Previewed
    case CopyScope(scope) => w.phase == Copying && Copies(p, w, scope) && scope !in w.copied
    case Check => w.phase == Copying && forall x :: x in w.captured && Copies(p, w, x) ==> x in w.copied
    case Purge => w.phase == Checked
    case _ => true
  }

  function ScopesOf(p: Plan, agents: set<Scope>): set<Scope> { {p.tenant} + agents }

  function Facts(c: Copy): nat { |c.rows| }

  function SumFacts(from: map<Scope, Copy>, scopes: seq<Scope>): nat {
    if scopes == [] then 0 else (if scopes[0] in from then Facts(from[scopes[0]]) else 0) + SumFacts(from, scopes[1..])
  }

  function SumEpisodes(from: map<Scope, Copy>, scopes: seq<Scope>): nat {
    if scopes == [] then 0
    else (if scopes[0] in from then |from[scopes[0]].episodes| else 0) + SumEpisodes(from, scopes[1..])
  }

  /** What there is to move, scope by scope, as the store stands. */
  function Live(w: World): map<Scope, Copy> { map x | x in w.source :: CopyOf(w.source[x]) }

  ghost function TallyOf(p: Plan, tenant: map<Scope, Copy>, agents: map<Scope, Copy>, scopes: set<Scope>): Tally {
    var others := Sorted(scopes - {p.tenant});
    Tally(SumFacts(tenant, [p.tenant]), SumEpisodes(tenant, [p.tenant]), SumFacts(agents, others), SumEpisodes(agents, others))
  }

  /** The check re-derives the figures: from the copy, and within one file from a
      live re-read of the agents' scopes, which were not copied. */
  ghost predicate CountsAgree(p: Plan, w: World) {
    TallyOf(p, w.copied, if p.sameStore && FactsWanted(w) then Live(w) else w.copied, Members(w.captured)) == w.preview
  }

  predicate Unchanged(w: World) { forall s :: s in w.captured && s in w.mark ==> w.mark[s] == MarkOf(Held(w, s)) }

  const NO_COPY := Copy(map[], [])

  /** Facts are copied only if the preview counted any. */
  predicate FactsWanted(w: World) { w.preview.facts + w.preview.agentFacts > 0 }

  function Taken(p: Plan, w: World, s: Scope): Copy {
    if FactsWanted(w) then CopyOf(Held(w, s)) else if s == p.tenant then Copy(map[], Held(w, s).episodes) else NO_COPY
  }

  ghost function Next(p: Plan, w: World, s: Step): World
    requires Enabled(p, w, s)
  {
    match s
    case Write(scope, id, row) => w.(source := w.source[scope := Held(w, scope).(rows := Held(w, scope).rows[id := row])])
    case Erase(scope, id) => w.(source := w.source[scope := Held(w, scope).(rows := Held(w, scope).rows - {id})])
    case Ingest(scope, e) => w.(source := w.source[scope := Held(w, scope).(episodes := Held(w, scope).episodes + [e])])
    case Observe(scope, e) => w.(source := w.source[scope := Held(w, scope).(evidence := Held(w, scope).evidence + [e])])
    case Register(agent) => w.(agents := w.agents + {agent})
    case Preview =>
      w.(phase := Previewed, preview := TallyOf(p, Live(w), Live(w), ScopesOf(p, w.agents)))
    case Begin =>
      var scopes := ScopesOf(p, w.agents);
      w.(phase := Copying, captured := Sorted(scopes), began := map x | x in scopes :: Held(w, x),
         mark := map x | x in scopes :: MarkOf(Held(w, x)))
    case CopyScope(scope) => w.(copied := w.copied[scope := Taken(p, w, scope)])
    case Check =>
      // within one file, ownership of the captured agents moves before the lock
      if CountsAgree(p, w) then
        w.(phase := Checked, agents := if p.sameStore then w.agents - Members(w.captured) else w.agents)
      else w.(phase := Aborted)
    case Purge =>
      if Unchanged(w) then
        w.(phase := Done, purged := ScopesOf(p, w.agents),
           source := map x | x in w.source :: if x in ScopesOf(p, w.agents) then Kept(w.source[x]) else w.source[x])
      else w.(phase := Aborted)
  }

  /** The purge deletes rows and evidence, and preserves raw episodes. */
  function Kept(m: Memory): Memory { Memory(map[], m.episodes, []) }

  predicate Initial(w: World) {
    w.phase == Idle && w.captured == [] && w.copied == map[] && w.began == map[] && w.mark == map[] && w.purged == {}
  }

  /** The worlds a run of steps leads through. */
  ghost predicate Behaviour(p: Plan, worlds: seq<World>, steps: seq<Step>) {
    && |worlds| == |steps| + 1 && Initial(worlds[0])
    && forall i :: 0 <= i < |steps| ==> Enabled(p, worlds[i], steps[i]) && worlds[i + 1] == Next(p, worlds[i], steps[i])
  }

  // -------------------------------------------------------- the invariant

  predicate Prefix(a: seq<Id>, b: seq<Id>) { |a| <= |b| && b[..|a|] == a }

  lemma PrefixTransitive(a: seq<Id>, b: seq<Id>, c: seq<Id>)
    requires Prefix(a, b) && Prefix(b, c)
    ensures Prefix(a, c)
  {
    assert c[..|a|] == c[..|b|][..|a|];
  }

  /** The append-only collections have only grown. */
  predicate Grown(a: Memory, b: Memory) { Prefix(a.episodes, b.episodes) && Prefix(a.evidence, b.evidence) }

  lemma GrownTransitive(a: Memory, b: Memory, c: Memory)
    requires Grown(a, b) && Grown(b, c)
    ensures Grown(a, c)
  {
    PrefixTransitive(a.episodes, b.episodes, c.episodes);
    PrefixTransitive(a.evidence, b.evidence, c.evidence);
  }

  predicate InFlight(w: World) { w.phase == Copying || w.phase == Checked }

  ghost predicate Shape(p: Plan, w: World) {
    && w.began.Keys == Members(w.captured) && w.mark.Keys == Members(w.captured) && p.tenant in w.captured
    && w.copied.Keys <= Members(w.captured)
    && (forall s :: s in w.captured ==> w.mark[s] == MarkOf(w.began[s]))
    && (w.phase == Checked ==> forall s :: s in w.captured && Copies(p, w, s) ==> s in w.copied)
  }

  /** While the migration is in flight: the watermark is of the state it began from,
      the append-only collections only grow, and every copy was taken in between. */
  ghost predicate Tracking(p: Plan, w: World) {
    InFlight(w) ==>
      && Shape(p, w) && (forall s :: s in w.began ==> Grown(w.began[s], Held(w, s)))
      && (forall s :: s in w.copied ==>
            s in w.began && Prefix(w.copied[s].episodes, Held(w, s).episodes)
            && (FactsWanted(w) || s == p.tenant ==> Prefix(w.began[s].episodes, w.copied[s].episodes)))
  }

  lemma WriterGrows(p: Plan, w: World, s: Step, x: Scope)
    requires Writer(s)
    ensures Grown(Held(w, x), Held(Next(p, w, s), x))
  {
    hide Hash;
    if s.Ingest? && s.scope == x {
      var e := Held(w, x).episodes;
      assert (e + [s.episode])[..|e|] == e;
    }
    if s.Observe? && s.scope == x {
      var e := Held(w, x).evidence;
      assert (e + [s.event])[..|e|] == e;
    }
  }

  lemma WriterLeavesVariables(p: Plan, w: World, s: Step)
    requires Writer(s)
    ensures var w' := Next(p, w, s);
            w'.phase == w.phase && w'.captured == w.captured && w'.began == w.began && w'.mark == w.mark
            && w'.copied == w.copied && w'.preview == w.preview
  {
  }

  lemma WriterKeepsTracking(p: Plan, w: World, s: Step)
    requires Tracking(p, w) && Writer(s)
    ensures Tracking(p, Next(p, w, s))
  {
    hide Prefix, MarkOf, Next, Held, Grown;
    var w' := Next(p, w, s);
    WriterLeavesVariables(p, w, s);
    if InFlight(w) {
      forall x | x in w.began ensures Grown(w.began[x], Held(w', x)) {
        WriterGrows(p, w, s, x);
        GrownTransitive(w.began[x], Held(w, x), Held(w', x));
      }
      forall x | x in w.copied ensures Prefix(w.copied[x].episodes, Held(w', x).episodes) {
        WriterGrows(p, w, s, x);
        GrownIs(Held(w, x), Held(w', x));
        PrefixTransitive(w.copied[x].episodes, Held(w, x).episodes, Held(w', x).episodes);
      }
      assert Shape(p, w');
    }
  }

  lemma GrownIs(a: Memory, b: Memory)
    ensures Grown(a, b) <==> Prefix(a.episodes, b.episodes) && Prefix(a.evidence, b.evidence)
  {
  }

  lemma PrefixSelf(a: seq<Id>)
    ensures Prefix(a, a)
  {
  }

  lemma BeginShape(p: Plan, w: World)
    requires w.phase == Previewed && w.copied == map[]
    ensures Shape(p, Next(p, w, Begin)) && forall s :: s in Next(p, w, Begin).began ==> Next(p, w, Begin).began[s] == Held(w, s)
  {
    hide Less, MarkOf, Held, Sorted;
    var captured := Sorted(ScopesOf(p, w.agents));
    SortedMembers(ScopesOf(p, w.agents));
    assert Next(p, w, Begin).captured == captured && p.tenant in ScopesOf(p, w.agents);
  }

  lemma SortedMembers(scopes: set<Scope>)
    ensures Members(Sorted(scopes)) == scopes && forall s :: s in Sorted(scopes) <==> s in scopes
  {
    hide Less;
  }

  lemma BeginTracks(p: Plan, w: World)
    requires w.phase == Previewed && w.copied == map[]
    ensures Tracking(p, Next(p, w, Begin))
  {
    hide MarkOf, Prefix, Shape, Sorted;
    BeginShape(p, w);
    forall x | x in Next(p, w, Begin).began ensures Grown(Held(w, x), Held(Next(p, w, Begin), x)) {
      PrefixSelf(Held(w, x).episodes);
      PrefixSelf(Held(w, x).evidence);
    }
  }

  lemma CopyTracks(p: Plan, w: World, s: Step)
    requires Tracking(p, w) && s.CopyScope? && Enabled(p, w, s)
    ensures Tracking(p, Next(p, w, s))
  {
    hide Prefix, Shape, Grown, Taken, FactsWanted, Held;
    var w' := w.(copied := w.copied[s.scope := Taken(p, w, s.scope)]);
    assert Next(p, w, s) == w';
    TakenGrows(p, w, s.scope);
    SameSource(w, w');
    CopyShape(p, w, s.scope, Taken(p, w, s.scope));
    BeganThere(p, w, s.scope);
  }

  lemma SameSource(w: World, w': World)
    requires w'.source == w.source && w'.preview == w.preview
    ensures FactsWanted(w') == FactsWanted(w) && forall x :: Held(w', x) == Held(w, x)
  {
  }

  lemma CopyShape(p: Plan, w: World, s: Scope, c: Copy)
    requires Shape(p, w) && s in w.captured
    ensures Shape(p, w.(copied := w.copied[s := c]))
  {
    hide MarkOf;
  }

  /** What a copied scope was when the copy began. */
  lemma BeganThere(p: Plan, w: World, s: Scope)
    requires Tracking(p, w) && InFlight(w) && s in w.captured
    ensures s in w.began && Prefix(w.began[s].episodes, Held(w, s).episodes)
  {
    hide MarkOf, Prefix, Held;
    assert s in Members(w.captured);
  }

  lemma TakenGrows(p: Plan, w: World, s: Scope)
    ensures Prefix(Taken(p, w, s).episodes, Held(w, s).episodes)
    ensures FactsWanted(w) || s == p.tenant ==> Taken(p, w, s).episodes == Held(w, s).episodes
  {
    hide Prefix, FactsWanted, Held;
    PrefixSelf(Held(w, s).episodes);
    PrefixEmpty(Held(w, s).episodes);
  }

  lemma PrefixEmpty(a: seq<Id>)
    ensures Prefix([], a)
  {
  }

  lemma CheckTracks(p: Plan, w: World)
    requires Tracking(p, w) && Enabled(p, w, Check)
    ensures Tracking(p, Next(p, w, Check))
  {
    hide MarkOf, Prefix, Less, CountsAgree, Grown;
  }

  ghost predicate Fresh(w: World) { w.phase == Idle || w.phase == Previewed ==> w.copied == map[] }

  lemma StepTracks(p: Plan, w: World, s: Step)
    requires Tracking(p, w) && Fresh(w) && Enabled(p, w, s)
    ensures Tracking(p, Next(p, w, s)) && Fresh(Next(p, w, s))
  {
    hide Tracking, Less, MarkOf, Held, CountsAgree, Unchanged, Live, TallyOf, CopyOf;
    if Writer(s) {
      WriterKeepsTracking(p, w, s);
    } else if s.Begin? {
      BeginTracks(p, w);
    } else if s.CopyScope? {
      CopyTracks(p, w, s);
    } else if s.Check? {
      CheckTracks(p, w);
    } else {
      NotInFlight(p, Next(p, w, s));
    }
  }

  lemma NotInFlight(p: Plan, w: World)
    ensures !InFlight(w) ==> Tracking(p, w)
  {
  }

  lemma {:induction false} AlwaysTracking(p: Plan, worlds: seq<World>, steps: seq<Step>, k: nat)
    requires Behaviour(p, worlds, steps) && k <= |steps|
    ensures Tracking(p, worlds[k]) && Fresh(worlds[k])
  {
    hide Tracking, Enabled, Next;
    if k == 0 {
      NotInFlight(p, worlds[0]);
    } else {
      AlwaysTracking(p, worlds, steps, k - 1);
      StepTracks(p, worlds[k - 1], steps[k - 1]);
      assert worlds[k - 1 + 1] == Next(p, worlds[k - 1], steps[k - 1]);
    }
  }

  // ------------------------------------------------------------- the claims

  lemma SamePrefix(a: seq<Id>, b: seq<Id>)
    requires Prefix(a, b) && |a| == |b|
    ensures a == b
  {
  }

  /** A purge only ever runs on a source whose hashed rows and append-only
      collections are exactly what they were when the copy began. */
  lemma PurgeMeansUnchanged(p: Plan, w: World, s: Scope)
    requires Tracking(p, w) && w.phase == Checked && Unchanged(w) && s in w.captured
    ensures Hash(Held(w, s)) == Hash(w.began[s])
    ensures Held(w, s).episodes == w.began[s].episodes && Held(w, s).evidence == w.began[s].evidence
  {
    hide Hash;
    assert w.mark[s] == MarkOf(Held(w, s)) == MarkOf(w.began[s]);
    SamePrefix(w.began[s].episodes, Held(w, s).episodes);
    SamePrefix(w.began[s].evidence, Held(w, s).evidence);
  }

  // ----------------------------------------------- what a run does to the source

  /** The source after the writers among the given steps, whatever the migration did. */
  function Wrote(source: map<Scope, Memory>, s: Step): map<Scope, Memory> {
    match s
    case Write(scope, id, row) =>
      var m := if scope in source then source[scope] else NONE;
      source[scope := m.(rows := m.rows[id := row])]
    case Erase(scope, id) =>
      var m := if scope in source then source[scope] else NONE;
      source[scope := m.(rows := m.rows - {id})]
    case Ingest(scope, e) =>
      var m := if scope in source then source[scope] else NONE;
      source[scope := m.(episodes := m.episodes + [e])]
    case Observe(scope, e) =>
      var m := if scope in source then source[scope] else NONE;
      source[scope := m.(evidence := m.evidence + [e])]
    case _ => source
  }

  function WroteAll(source: map<Scope, Memory>, steps: seq<Step>): map<Scope, Memory> {
    if steps == [] then source else Wrote(WroteAll(source, steps[..|steps| - 1]), steps[|steps| - 1])
  }

  lemma StepWrites(p: Plan, w: World, s: Step)
    requires Enabled(p, w, s) && w.phase != Done && Next(p, w, s).phase != Done
    ensures Next(p, w, s).source == Wrote(w.source, s) && Next(p, w, s).purged == w.purged
  {
    hide Sorted, CopyOf, Live, TallyOf, CountsAgree, Unchanged, MarkOf, Hash, Taken, Kept;
  }

  lemma DoneStays(p: Plan, w: World, s: Step)
    requires Enabled(p, w, s) && w.phase == Done
    ensures Next(p, w, s).phase == Done
  {
  }

  /** Up to the purge, and for good if it never comes, the source is exactly what the
      other writers made of it: no preview, copy, check or abort touches anything. */
  lemma {:induction false} OnlyWritersTouch(p: Plan, worlds: seq<World>, steps: seq<Step>, k: nat)
    requires Behaviour(p, worlds, steps) && k <= |steps| && worlds[k].phase != Done
    ensures worlds[k].source == WroteAll(worlds[0].source, steps[..k]) && worlds[k].purged == {}
    decreases k
  {
    hide Enabled, Next, Wrote;
    if k > 0 {
      assert Enabled(p, worlds[k - 1], steps[k - 1]) && worlds[k - 1 + 1] == Next(p, worlds[k - 1], steps[k - 1]);
      if worlds[k - 1].phase == Done { DoneStays(p, worlds[k - 1], steps[k - 1]); }
      OnlyWritersTouch(p, worlds, steps, k - 1);
      StepWrites(p, worlds[k - 1], steps[k - 1]);
      assert steps[..k][..k - 1] == steps[..k - 1];
    }
  }

  // -------------------------------------------------- the moments of a migration

  lemma StepMoves(p: Plan, w: World, s: Step)
    requires Enabled(p, w, s)
    ensures var w' := Next(p, w, s);
            && (w.phase != Idle && !s.Begin? ==> w'.preview == w.preview)
            && (!s.Begin? ==> w'.captured == w.captured && w'.mark == w.mark && w'.began == w.began)
            && (!s.CopyScope? ==> w'.copied == w.copied)
            && (Writer(s) ==> w'.phase == w.phase)
            && (w'.phase == Previewed <==> s.Preview? || (w.phase == Previewed && !s.Begin?))
            && (w'.phase == Copying <==> s.Begin? || (w.phase == Copying && !s.Check?))
            && (w'.phase == Checked ==> (s.Check? && w.phase == Copying) || (w.phase == Checked && !s.Purge?))
            && (w'.phase == Done <==> (s.Purge? && Unchanged(w)) || w.phase == Done)
  {
    hide Sorted, CopyOf, Live, TallyOf, CountsAgree, Unchanged, MarkOf, Hash, Taken, Kept;
  }

  /** A locked migration has passed one Begin and, after it, one Check. */
  lemma {:induction false} Landmarks(p: Plan, worlds: seq<World>, steps: seq<Step>, k: nat) returns (b: nat, c: nat)
    requires Behaviour(p, worlds, steps) && k <= |steps| && worlds[k].phase == Checked
    ensures b < c < k && steps[b] == Begin && steps[c] == Check && worlds[c + 1].phase == Checked
    decreases k
  {
    hide Enabled, Next;
    assert Enabled(p, worlds[k - 1], steps[k - 1]) && worlds[k - 1 + 1] == Next(p, worlds[k - 1], steps[k - 1]);
    StepMoves(p, worlds[k - 1], steps[k - 1]);
    if worlds[k - 1].phase == Checked {
      b, c := Landmarks(p, worlds, steps, k - 1);
    } else {
      c := k - 1;
      b := BegunBefore(p, worlds, steps, k - 1);
    }
  }

  lemma {:induction false} BegunBefore(p: Plan, worlds: seq<World>, steps: seq<Step>, k: nat) returns (b: nat)
    requires Behaviour(p, worlds, steps) && k <= |steps| && worlds[k].phase == Copying
    ensures b < k && steps[b] == Begin
    decreases k
  {
    hide Enabled, Next;
    assert Enabled(p, worlds[k - 1], steps[k - 1]) && worlds[k - 1 + 1] == Next(p, worlds[k - 1], steps[k - 1]);
    StepMoves(p, worlds[k - 1], steps[k - 1]);
    if steps[k - 1].Begin? { b := k - 1; } else { b := BegunBefore(p, worlds, steps, k - 1); }
  }

  predicate Under(w: World) { w.phase == Copying || w.phase == Checked || w.phase == Done || w.phase == Aborted }

  /** After the Begin, what it captured and marked, and what was previewed, stays. */
  lemma {:induction false} BegunStays(p: Plan, worlds: seq<World>, steps: seq<Step>, b: nat, k: nat)
    requires Behaviour(p, worlds, steps) && b < k <= |steps| && steps[b] == Begin
    ensures Under(worlds[k]) && worlds[k].captured == worlds[b + 1].captured && worlds[k].mark == worlds[b + 1].mark
    ensures worlds[k].preview == worlds[b + 1].preview && worlds[k].began == worlds[b + 1].began
    ensures k > b + 1 ==> !steps[k - 1].Begin?
    decreases k
  {
    hide Next, MarkOf, CountsAgree, Sorted, Unchanged;
    assert Enabled(p, worlds[k - 1], steps[k - 1]) && worlds[k - 1 + 1] == Next(p, worlds[k - 1], steps[k - 1]);
    StepMoves(p, worlds[k - 1], steps[k - 1]);
    if k > b + 1 {
      BegunStays(p, worlds, steps, b, k - 1);
      UnderStays(p, worlds[k - 1], steps[k - 1]);
    }
  }

  lemma UnderStays(p: Plan, w: World, s: Step)
    requires Enabled(p, w, s) && Under(w)
    ensures Under(Next(p, w, s)) && !s.Begin? && !s.Preview?
  {
    hide Sorted, CopyOf, TallyOf, Live, CountsAgree, Unchanged, MarkOf, Taken, Kept;
  }

  /** After the Check there is no other. */
  lemma {:induction false} CheckedStays(p: Plan, worlds: seq<World>, steps: seq<Step>, c: nat, k: nat)
    requires Behaviour(p, worlds, steps) && c < k <= |steps| && steps[c] == Check
    ensures worlds[k].phase == Checked || worlds[k].phase == Done || worlds[k].phase == Aborted
    ensures k > c + 1 ==> !steps[k - 1].Check?
    decreases k
  {
    hide Sorted, CopyOf, TallyOf, Live, CountsAgree, Unchanged, MarkOf, Taken, Kept;
    assert Enabled(p, worlds[k - 1], steps[k - 1]) && worlds[k - 1 + 1] == Next(p, worlds[k - 1], steps[k - 1]);
    if k > c + 1 { CheckedStays(p, worlds, steps, c, k - 1); }
  }

  // ------------------------------------------------------ what the purge reaches

  /** An agent was registered between two steps. */
  ghost predicate Registered(steps: seq<Step>, from: nat, to: nat, x: Scope) {
    exists j :: from < j < to && j < |steps| && steps[j] == Register(x)
  }

  lemma StepRegisters(p: Plan, w: World, s: Step, x: Scope)
    requires Enabled(p, w, s) && (s.Check? && p.sameStore ==> x !in w.captured)
    ensures x in Next(p, w, s).agents <==> x in w.agents || s == Register(x)
  {
    hide Sorted, CopyOf, TallyOf, Live, CountsAgree, Unchanged, MarkOf, Taken, Kept;
  }

  /** Who is registered later: whoever was, and whoever has been since. */
  lemma {:induction false} RegisteredSince(p: Plan, worlds: seq<World>, steps: seq<Step>, i: nat, k: nat, x: Scope)
    requires Behaviour(p, worlds, steps) && i < k <= |steps|
    requires forall j :: i < j < k && steps[j].Check? && p.sameStore ==> x !in worlds[j].captured
    ensures x in worlds[k].agents <==> x in worlds[i + 1].agents || Registered(steps, i, k, x)
    decreases k
  {
    hide Enabled, Next;
    if k > i + 1 {
      assert Enabled(p, worlds[k - 1], steps[k - 1]) && worlds[k - 1 + 1] == Next(p, worlds[k - 1], steps[k - 1]);
      RegisteredSince(p, worlds, steps, i, k - 1, x);
      StepRegisters(p, worlds[k - 1], steps[k - 1], x);
      assert Registered(steps, i, k, x) <==> Registered(steps, i, k - 1, x) || steps[k - 1] == Register(x) by {
        if steps[k - 1] == Register(x) { assert i < k - 1 < k && steps[k - 1] == Register(x); }
      }
    }
  }

  lemma BeginCaptures(p: Plan, w: World, x: Scope)
    requires w.phase == Previewed
    ensures x in Next(p, w, Begin).captured <==> x in ScopesOf(p, w.agents)
    ensures Next(p, w, Begin).agents == w.agents
  {
    hide Less, MarkOf, Held, Sorted;
    SortedMembers(ScopesOf(p, w.agents));
  }

  /** Exactly which scopes a run's purge destroys: the tenant's own; from one file to
      another, those it captured; and any whose agent was registered after it had been
      moved, or, never captured and so never copied, after the scopes were listed. */
  lemma PurgeReachesExactly(p: Plan, worlds: seq<World>, steps: seq<Step>, b: nat, c: nat, k: nat, x: Scope)
    requires Behaviour(p, worlds, steps) && b < c < k < |steps|
    requires steps[b] == Begin && steps[c] == Check && steps[k] == Purge && worlds[k + 1].phase == Done
    ensures x in worlds[k + 1].purged <==>
            x == p.tenant || (x in worlds[k].captured && !p.sameStore)
            || Registered(steps, if x in worlds[k].captured then c else b, k, x)
    ensures Held(worlds[k + 1], x) == if x in worlds[k + 1].purged then Kept(Held(worlds[k], x)) else Held(worlds[k], x)
  {
    hide Next, Sorted, Unchanged, Held, Kept, CountsAgree, MarkOf;
    assert Enabled(p, worlds[k], steps[k]) && worlds[k + 1] == Next(p, worlds[k], steps[k]);
    PurgeDoes(p, worlds[k], x);
    BegunStays(p, worlds, steps, b, k);
    AtBegin(p, worlds, steps, b, x);
    CaptureStays(p, worlds, steps, b, k);
    if x in worlds[k].captured && p.sameStore {
      DeregisteredAtCheck(p, worlds, steps, c, k, x);
      forall j | c < j < k ensures !steps[j].Check? { CheckedStays(p, worlds, steps, c, j + 1); }
      RegisteredSince(p, worlds, steps, c, k, x);
    } else {
      RegisteredSince(p, worlds, steps, b, k, x);
      if !p.sameStore && x in worlds[k].captured { assert x in worlds[b + 1].agents || x == p.tenant; }
    }
  }

  lemma CaptureStays(p: Plan, worlds: seq<World>, steps: seq<Step>, b: nat, k: nat)
    requires Behaviour(p, worlds, steps) && b < k <= |steps| && steps[b] == Begin
    ensures forall j :: b < j <= k ==> worlds[j].captured == worlds[k].captured
  {
    forall j | b < j <= k ensures worlds[j].captured == worlds[k].captured {
      BegunStays(p, worlds, steps, b, j);
      BegunStays(p, worlds, steps, b, k);
    }
  }

  lemma PurgeDoes(p: Plan, w: World, x: Scope)
    requires w.phase == Checked && Next(p, w, Purge).phase == Done
    ensures x in Next(p, w, Purge).purged <==> x == p.tenant || x in w.agents
    ensures Held(Next(p, w, Purge), x) == if x in Next(p, w, Purge).purged then Kept(Held(w, x)) else Held(w, x)
  {
    hide Hash, Sorted, Unchanged;
  }

  lemma AtBegin(p: Plan, worlds: seq<World>, steps: seq<Step>, b: nat, x: Scope)
    requires Behaviour(p, worlds, steps) && b < |steps| && steps[b] == Begin
    ensures x in worlds[b + 1].captured <==> x == p.tenant || x in worlds[b + 1].agents
  {
    hide Next, Sorted;
    assert Enabled(p, worlds[b], steps[b]) && worlds[b + 1] == Next(p, worlds[b], steps[b]);
    BeginCaptures(p, worlds[b], x);
  }

  /** Within one file a passed check leaves no captured agent registered. */
  lemma DeregisteredAtCheck(p: Plan, worlds: seq<World>, steps: seq<Step>, c: nat, k: nat, x: Scope)
    requires Behaviour(p, worlds, steps) && c < k < |steps| && steps[c] == Check && worlds[k].phase == Checked
    requires p.sameStore && x in worlds[c].captured
    ensures x !in worlds[c + 1].agents
  {
    hide Next, CountsAgree;
    assert Enabled(p, worlds[c], steps[c]) && worlds[c + 1] == Next(p, worlds[c], steps[c]);
    CheckDoes(p, worlds[c], x);
    if worlds[c + 1].phase == Aborted { AbortedStays(p, worlds, steps, c + 1, k); }
  }

  lemma CheckDoes(p: Plan, w: World, x: Scope)
    requires w.phase == Copying && p.sameStore && x in w.captured
    requires forall s :: s in w.captured && Copies(p, w, s) ==> s in w.copied
    ensures Next(p, w, Check).phase == Checked || Next(p, w, Check).phase == Aborted
    ensures Next(p, w, Check).phase == Checked ==> x !in Next(p, w, Check).agents
  {
    hide Hash, Sorted, CopyOf, CountsAgree;
  }

  lemma {:induction false} AbortedStays(p: Plan, worlds: seq<World>, steps: seq<Step>, i: nat, k: nat)
    requires Behaviour(p, worlds, steps) && i <= k <= |steps| && worlds[i].phase == Aborted
    ensures worlds[k].phase == Aborted
    decreases k
  {
    hide Sorted, CopyOf, TallyOf, Live, CountsAgree, Unchanged, MarkOf, Taken, Kept;
    if k > i {
      assert Enabled(p, worlds[k - 1], steps[k - 1]) && worlds[k - 1 + 1] == Next(p, worlds[k - 1], steps[k - 1]);
      AbortedStays(p, worlds, steps, i, k - 1);
    }
  }

  /** Within one file, every captured agent's memory survives the run's purge whole,
      unless its agent was registered back between the check and the lock. */
  lemma MovedAgentScopesSurvive(p: Plan, worlds: seq<World>, steps: seq<Step>, k: nat, x: Scope) returns (b: nat, c: nat)
    requires Behaviour(p, worlds, steps) && k < |steps| && steps[k] == Purge && worlds[k + 1].phase == Done
    requires p.sameStore && x in worlds[k].captured && x != p.tenant
    ensures b < c < k && steps[b] == Begin && steps[c] == Check
    ensures !Registered(steps, c, k, x) ==> Held(worlds[k + 1], x) == Held(worlds[k], x)
    ensures Registered(steps, c, k, x) ==> Held(worlds[k + 1], x) == Kept(Held(worlds[k], x))
  {
    hide Next, Sorted, Unchanged, Held, Kept, Registered;
    assert Enabled(p, worlds[k], steps[k]) && worlds[k + 1] == Next(p, worlds[k], steps[k]);
    b, c := Landmarks(p, worlds, steps, k);
    PurgeReachesExactly(p, worlds, steps, b, c, k, x);
  }

  // ------------------------------------------------------------- what is lost

  /** The active facts of a scope, as the hash covers them. */
  function ActiveFacts(m: Memory): map<Id, string> { map x | x in m.rows && m.rows[x].active :: m.rows[x].hashed }

  /** The same, read off the watermark. */
  function MarkedFacts(mark: Watermark): map<Id, string> { map x | x in mark.hash && mark.hash[x].1 :: mark.hash[x].0 }

  lemma MarkedIsActive(m: Memory)
    ensures MarkedFacts(MarkOf(m)) == ActiveFacts(m)
  {
  }

  predicate Includes(a: map<Id, string>, b: map<Id, string>) { forall x :: x in b ==> x in a && a[x] == b[x] }

  /** Every active fact is in the copy, with its hashed content. */
  predicate Delivers(c: Copy, m: Memory) {
    forall x :: x in m.rows && m.rows[x].active ==> x in c.rows && c.rows[x].hashed == m.rows[x].hashed
  }

  /** When a scope was copied, and what was taken. */
  lemma {:induction false} CopyMoment(p: Plan, worlds: seq<World>, steps: seq<Step>, k: nat, s: Scope) returns (c: nat)
    requires Behaviour(p, worlds, steps) && k <= |steps| && s in worlds[k].copied && Under(worlds[k])
    ensures c < k && steps[c] == CopyScope(s) && worlds[c].phase == Copying
    ensures worlds[k].copied[s] == Taken(p, worlds[c], s)
    decreases k
  {
    hide Next, Taken, CountsAgree, Unchanged, Sorted, MarkOf, TallyOf;
    if k == 0 {
    } else {
      assert Enabled(p, worlds[k - 1], steps[k - 1]) && worlds[k - 1 + 1] == Next(p, worlds[k - 1], steps[k - 1]);
      StepMoves(p, worlds[k - 1], steps[k - 1]);
      if steps[k - 1] == CopyScope(s) {
        c := k - 1;
        CopyDoes(p, worlds[k - 1], steps[k - 1].scope, s);
      } else {
        if steps[k - 1].CopyScope? { CopyDoes(p, worlds[k - 1], steps[k - 1].scope, s); }
        if steps[k - 1].Begin? { FreshCopies(p, worlds, steps, k - 1); }
        UnderBefore(p, worlds[k - 1], steps[k - 1]);
        c := CopyMoment(p, worlds, steps, k - 1, s);
      }
    }
  }

  lemma CopyDoes(p: Plan, w: World, at: Scope, s: Scope)
    requires Enabled(p, w, CopyScope(at))
    ensures at == s ==> s in Next(p, w, CopyScope(at)).copied && Next(p, w, CopyScope(at)).copied[s] == Taken(p, w, s)
    ensures at != s && s in Next(p, w, CopyScope(at)).copied ==>
              s in w.copied && Next(p, w, CopyScope(at)).copied[s] == w.copied[s]
  {
    hide Taken;
  }

  lemma FreshCopies(p: Plan, worlds: seq<World>, steps: seq<Step>, k: nat)
    requires Behaviour(p, worlds, steps) && k <= |steps|
    ensures worlds[k].phase == Previewed ==> worlds[k].copied == map[]
  {
    AlwaysTracking(p, worlds, steps, k);
  }

  lemma UnderBefore(p: Plan, w: World, s: Step)
    requires Enabled(p, w, s) && Under(Next(p, w, s)) && !s.Begin?
    ensures Under(w)
  {
    hide Sorted, CopyOf, TallyOf, Live, CountsAgree, Unchanged, MarkOf, Taken, Kept;
  }

  /** A scope the lock has yet to purge: when it was begun and copied, and that its
      watermark is what the lock still sees. */
  lemma LockedScope(p: Plan, worlds: seq<World>, steps: seq<Step>, k: nat, s: Scope) returns (c: nat)
    requires Behaviour(p, worlds, steps) && k <= |steps| && worlds[k].phase == Checked && Unchanged(worlds[k])
    requires s in worlds[k].captured && Copies(p, worlds[k], s)
    ensures s in worlds[k].copied && s in worlds[k].mark && worlds[k].mark[s] == MarkOf(Held(worlds[k], s))
    ensures c < k && steps[c] == CopyScope(s) && worlds[k].copied[s] == Taken(p, worlds[c], s)
    ensures FactsWanted(worlds[c]) <==> FactsWanted(worlds[k])
  {
    hide Next, Taken, MarkOf, Enabled, Sorted;
    AlwaysTracking(p, worlds, steps, k);
    var b, check := Landmarks(p, worlds, steps, k);
    c := CopyMoment(p, worlds, steps, k, s);
    BegunStays(p, worlds, steps, b, k);
    if c <= b { BeforeBegin(p, worlds, steps, c, b); }
    if c > b { BegunStays(p, worlds, steps, b, c); }
  }

  /** Nothing is copied before the Begin. */
  lemma BeforeBegin(p: Plan, worlds: seq<World>, steps: seq<Step>, c: nat, b: nat)
    requires Behaviour(p, worlds, steps) && c <= b < |steps| && steps[b] == Begin
    ensures worlds[c].phase != Copying
  {
    hide Next, MarkOf, CountsAgree, Sorted, Unchanged;
    if worlds[c].phase == Copying {
      var b0 := BegunBefore(p, worlds, steps, c);
      BegunStays(p, worlds, steps, b0, b + 1);
    }
  }

  /** Over every interleaving, undone writes included: at the lock, nothing the hash
      covers of a copied scope's active facts is about to be lost exactly when facts
      were copied at all and everything active in the watermark was there, the same,
      the moment the scope was copied, or when nothing was active. */
  lemma PurgedIsCopied(p: Plan, worlds: seq<World>, steps: seq<Step>, k: nat, s: Scope) returns (c: nat)
    requires Behaviour(p, worlds, steps) && k <= |steps| && worlds[k].phase == Checked && Unchanged(worlds[k])
    requires s in worlds[k].captured && Copies(p, worlds[k], s)
    ensures s in worlds[k].copied && s in worlds[k].mark && c < k && steps[c] == CopyScope(s)
    ensures Delivers(worlds[k].copied[s], Held(worlds[k], s)) <==>
            if FactsWanted(worlds[k]) then Includes(ActiveFacts(Held(worlds[c], s)), MarkedFacts(worlds[k].mark[s]))
            else MarkedFacts(worlds[k].mark[s]) == map[]
  {
    hide Next, FactsWanted, MarkOf, Held, Unchanged, MarkedFacts;
    c := LockedScope(p, worlds, steps, k, s);
    MarkedIsActive(Held(worlds[k], s));
    TakenDelivers(p, worlds[c], s, Held(worlds[k], s));
  }

  lemma TakenDelivers(p: Plan, w: World, s: Scope, m: Memory)
    ensures Delivers(Taken(p, w, s), m) <==>
            if FactsWanted(w) then Includes(ActiveFacts(Held(w, s)), ActiveFacts(m)) else ActiveFacts(m) == map[]
  {
    hide FactsWanted, Held;
    var taken := Taken(p, w, s);
    if FactsWanted(w) {
      forall x ensures x in taken.rows <==> x in ActiveFacts(Held(w, s)) {}
      if Delivers(taken, m) {
        forall x | x in ActiveFacts(m) ensures x in ActiveFacts(Held(w, s)) && ActiveFacts(Held(w, s))[x] == ActiveFacts(m)[x] {}
      }
      if Includes(ActiveFacts(Held(w, s)), ActiveFacts(m)) {
        forall x | x in m.rows && m.rows[x].active ensures x in taken.rows && taken.rows[x].hashed == m.rows[x].hashed {
          assert x in ActiveFacts(m);
        }
      }
    } else {
      assert taken.rows == map[];
      if Delivers(taken, m) { assert forall x :: x !in ActiveFacts(m); }
      if ActiveFacts(m) == map[] { forall x | x in m.rows ensures !m.rows[x].active { assert x !in ActiveFacts(m); } }
    }
  }

  /** And row by row, for everything the purge deletes: the hashed content of an active
      row arrives exactly when it was copied that way, the rest of it exactly when it
      was the same at the copy, a row the lock finds inactive never arrives, and of the
      episodes and the evidence plane the first are kept and the second is always lost. */
  lemma PurgeLosesExactly(p: Plan, worlds: seq<World>, steps: seq<Step>, k: nat, s: Scope, x: Id) returns (c: nat)
    requires Behaviour(p, worlds, steps) && k < |steps| && steps[k] == Purge && worlds[k + 1].phase == Done
    requires s in worlds[k].captured && Copies(p, worlds[k], s) && (s == p.tenant || s in worlds[k].agents)
    requires x in Held(worlds[k], s).rows
    ensures s in worlds[k].copied && c < k && steps[c] == CopyScope(s)
    ensures var row, copy, then_ := Held(worlds[k], s).rows[x], worlds[k].copied[s], Held(worlds[c], s);
            && (row.active ==>
                  (x in copy.rows && copy.rows[x].hashed == row.hashed <==>
                   FactsWanted(worlds[k]) && x in then_.rows && then_.rows[x].active && then_.rows[x].hashed == row.hashed))
            && (x in copy.rows && copy.rows[x] == row <==>
                FactsWanted(worlds[k]) && x in then_.rows && row.active && then_.rows[x] == row)
    ensures Held(worlds[k + 1], s) == Memory(map[], Held(worlds[k], s).episodes, [])
  {
    hide Next, FactsWanted, MarkOf, Held, Unchanged;
    assert Enabled(p, worlds[k], steps[k]) && worlds[k + 1] == Next(p, worlds[k], steps[k]);
    PurgeDoes(p, worlds[k], s);
    PurgeSawMarks(p, worlds[k]);
    c := LockedScope(p, worlds, steps, k, s);
  }

  lemma PurgeSawMarks(p: Plan, w: World)
    requires w.phase == Checked && Next(p, w, Purge).phase == Done
    ensures Unchanged(w)
  {
    hide Unchanged, Kept;
  }

  // ------------------------------------------------ what the checks cannot see

  /** An edit outside the hashed fields passes the re-verify unnoticed, so the purge
      that follows destroys it if it came after the copy. */
  lemma UnhashedEditUnnoticed(p: Plan, w: World, scope: Scope, id: Id, row: Row)
    requires id in Held(w, scope).rows && row.hashed == Held(w, scope).rows[id].hashed
             && row.active == Held(w, scope).rows[id].active
    ensures Unchanged(Next(p, w, Write(scope, id, row))) == Unchanged(w)
  {
    var w' := Next(p, w, Write(scope, id, row));
    assert Hash(Held(w', scope)) == Hash(Held(w, scope));
    assert forall x :: MarkOf(Held(w', x)) == MarkOf(Held(w, x));
  }

  const FACT := Row("fact", "", true)
  const EDITED := Row("edited", "", true)
  const SOURCE := World(map["t" := Memory(map["x" := FACT], [], [])], {}, Idle, [], Tally(0, 0, 0, 0), map[], map[], map[], {})
  const ONE_FILE := Plan("t", true)

  const EMPTY_SOURCE := SOURCE.(source := map[])
  const LATE: seq<Step> := [Preview] + [Write("t", "x", FACT)] + [Begin] + [CopyScope("t")] + [Check]

  lemma LateStart(w1: World, w2: World, w3: World)
    requires w1 == Next(ONE_FILE, EMPTY_SOURCE, Preview) && w2 == Next(ONE_FILE, w1, Write("t", "x", FACT))
    requires Enabled(ONE_FILE, w2, Begin) ==> w3 == Next(ONE_FILE, w2, Begin)
    ensures Enabled(ONE_FILE, w2, Begin)
    ensures w3.source == SOURCE.source && w3.agents == {} && w3.phase == Copying && w3.copied == map[]
    ensures Members(w3.captured) == {"t"} && w3.mark == map["t" := MarkOf(SOURCE.source["t"])]
    ensures w3.preview == Tally(0, 0, 0, 0)
  {
    hide Less, MarkOf, CopyOf;
    assert ScopesOf(ONE_FILE, {}) == {"t"};
    assert {"t"} - {"t"} == {} && Sorted({}) == [];
    assert Held(w2, "t").rows == map["x" := FACT];
    assert ["t"][1..] == [];
  }

  lemma LateEnd(w3: World, w4: World, w5: World)
    requires w3.source == SOURCE.source && w3.phase == Copying && w3.copied == map[] && Members(w3.captured) == {"t"}
    requires w3.mark == map["t" := MarkOf(SOURCE.source["t"])] && w3.preview == Tally(0, 0, 0, 0)
    requires Enabled(ONE_FILE, w3, CopyScope("t")) ==> w4 == Next(ONE_FILE, w3, CopyScope("t"))
    requires Enabled(ONE_FILE, w4, Check) ==> w5 == Next(ONE_FILE, w4, Check)
    ensures Enabled(ONE_FILE, w3, CopyScope("t")) && Enabled(ONE_FILE, w4, Check) && LosesFact(w5)
  {
    hide Less, MarkOf, CopyOf;
    assert "t" in w3.captured;
    assert forall x :: x in w3.captured ==> x == "t" by { assert forall x :: x in w3.captured ==> x in Members(w3.captured); }
    assert w4.copied == map["t" := Copy(map[], [])];
    assert {"t"} - {"t"} == {} && Sorted({}) == [] && ["t"][1..] == [];
    assert SumFacts(w4.copied, ["t"]) == 0 && SumEpisodes(w4.copied, ["t"]) == 0;
    assert CountsAgree(ONE_FILE, w4);
    assert "x" in Held(w5, "t").rows && "x" !in w5.copied["t"].rows;
  }

  /** A first fact that lands between the preview and the watermark: the preview
      counted none, so none is copied, none is expected, and the watermark includes it. */
  lemma LateFirstFactIsLost()
    ensures exists worlds: seq<World> :: Behaviour(ONE_FILE, worlds, LATE) && worlds[0] == EMPTY_SOURCE && LosesFact(worlds[5])
  {
    hide *;
    var w0 := EMPTY_SOURCE;
    BeforeLate();
    var w1 := Next(ONE_FILE, w0, Preview);
    var w2 := Next(ONE_FILE, w1, Write("t", "x", FACT));
    var w3 := if Enabled(ONE_FILE, w2, Begin) then Next(ONE_FILE, w2, Begin) else w2;
    LateStart(w1, w2, w3);
    var w4 := if Enabled(ONE_FILE, w3, CopyScope("t")) then Next(ONE_FILE, w3, CopyScope("t")) else w3;
    var w5 := if Enabled(ONE_FILE, w4, Check) then Next(ONE_FILE, w4, Check) else w4;
    LateEnd(w3, w4, w5);
    ThreeSteps(ONE_FILE, w0, w1, w2, w3, Preview, Write("t", "x", FACT), Begin);
    var three := [w0] + [w1] + [w2] + [w3];
    var steps := [Preview] + [Write("t", "x", FACT)] + [Begin];
    BehaviourGrows(ONE_FILE, three, steps, w3, CopyScope("t"));
    BehaviourGrows(ONE_FILE, three + [w4], steps + [CopyScope("t")], w4, Check);
    var worlds := three + [w4] + [w5];
    assert Behaviour(ONE_FILE, worlds, LATE) by { LateIs(); }
    assert worlds[0] == EMPTY_SOURCE && worlds[5] == w5;
  }

  lemma LateIs()
    ensures LATE == [Preview] + [Write("t", "x", FACT)] + [Begin] + [CopyScope("t")] + [Check]
  {
    hide FACT;
  }

  lemma BeforeLate()
    ensures Initial(EMPTY_SOURCE) && Enabled(ONE_FILE, EMPTY_SOURCE, Preview)
    ensures forall w, row :: Enabled(ONE_FILE, w, Write("t", "x", row))
  {
  }

  const TOGGLED: seq<Step> :=
    [Preview] + [Begin] + [Write("t", "x", EDITED)] + [CopyScope("t")] + [Write("t", "x", FACT)] + [Check]

  lemma ToggledStart(w1: World, w2: World)
    requires w1 == Next(ONE_FILE, SOURCE, Preview) && Enabled(ONE_FILE, w1, Begin) && w2 == Next(ONE_FILE, w1, Begin)
    ensures w2.source == SOURCE.source && w2.agents == {} && w2.phase == Copying && w2.copied == map[]
    ensures Members(w2.captured) == {"t"} && w2.mark == map["t" := MarkOf(SOURCE.source["t"])]
    ensures w2.preview == TallyOf(ONE_FILE, Live(SOURCE), Live(SOURCE), {"t"}) && FactsWanted(w2)
  {
    hide Less, MarkOf, TallyOf, CopyOf;
    assert ScopesOf(ONE_FILE, {}) == {"t"};
    OneFactCounted();
  }

  lemma OneFactCounted()
    ensures TallyOf(ONE_FILE, Live(SOURCE), Live(SOURCE), {"t"}).facts == 1
  {
    hide Less, Sorted;
    assert ["t"][1..] == [];
    assert CopyOf(SOURCE.source["t"]).rows == map["x" := FACT];
    assert SumFacts(Live(SOURCE), ["t"]) == 1 + SumFacts(Live(SOURCE), []);
  }

  lemma ToggledMiddle(w2: World, w3: World, w4: World, w5: World)
    requires w2.source == SOURCE.source && w2.phase == Copying && w2.copied == map[] && Members(w2.captured) == {"t"}
    requires FactsWanted(w2)
    requires w3 == Next(ONE_FILE, w2, Write("t", "x", EDITED))
    requires Enabled(ONE_FILE, w3, CopyScope("t")) ==> w4 == Next(ONE_FILE, w3, CopyScope("t"))
    requires w5 == Next(ONE_FILE, w4, Write("t", "x", FACT))
    ensures Enabled(ONE_FILE, w3, CopyScope("t"))
    ensures w5.source == SOURCE.source && w5.phase == Copying && w5.copied == map["t" := Copy(map["x" := EDITED], [])]
    ensures w5.captured == w2.captured && w5.mark == w2.mark && w5.preview == w2.preview && w5.agents == w2.agents
  {
    hide Less, MarkOf, TallyOf;
    assert "t" in w2.captured;
    assert Held(w3, "t").rows == map["x" := EDITED];
    assert CopyOf(Held(w3, "t")).rows == map["x" := EDITED];
    assert Held(w5, "t").rows == map["x" := FACT];
  }

  lemma ToggledEnd(w5: World, w6: World)
    requires w5.source == SOURCE.source && w5.phase == Copying && w5.copied == map["t" := Copy(map["x" := EDITED], [])]
    requires Members(w5.captured) == {"t"} && w5.mark == map["t" := MarkOf(SOURCE.source["t"])] && CountsAgree(ONE_FILE, w5)
    requires Enabled(ONE_FILE, w5, Check) ==> w6 == Next(ONE_FILE, w5, Check)
    ensures Enabled(ONE_FILE, w5, Check) && w6.phase == Checked && Unchanged(w6) && "t" in w6.copied
    ensures !Delivers(w6.copied["t"], Held(w6, "t"))
  {
    hide Less, MarkOf, TallyOf, CountsAgree;
    assert forall x :: x in w5.captured ==> x == "t" by { assert forall x :: x in w5.captured ==> x in Members(w5.captured); }
    assert "x" in Held(w6, "t").rows && w6.copied["t"].rows["x"].hashed == "edited" != Held(w6, "t").rows["x"].hashed;
  }

  /** An edit that is copied and then taken back: the watermark matches at the lock,
      and the purge destroys the fact while the destination holds the edit. */
  lemma UndoneEditIsLost()
    ensures exists worlds: seq<World> :: Behaviour(ONE_FILE, worlds, TOGGLED) && worlds[0] == SOURCE && LosesFact(worlds[6])
  {
    hide *;
    var w0 := SOURCE;
    AfterPreview();
    var w1 := Next(ONE_FILE, w0, Preview);
    var w2 := Next(ONE_FILE, w1, Begin);
    ToggledStart(w1, w2);
    var w3 := Next(ONE_FILE, w2, Write("t", "x", EDITED));
    var w4 := if Enabled(ONE_FILE, w3, CopyScope("t")) then Next(ONE_FILE, w3, CopyScope("t")) else w3;
    var w5 := Next(ONE_FILE, w4, Write("t", "x", FACT));
    ToggledMiddle(w2, w3, w4, w5);
    UndoneCounts(w5);
    var w6 := if Enabled(ONE_FILE, w5, Check) then Next(ONE_FILE, w5, Check) else w5;
    ToggledEnd(w5, w6);
    ThreeSteps(ONE_FILE, w0, w1, w2, w3, Preview, Begin, Write("t", "x", EDITED));
    ThreeMore(ONE_FILE, [w0] + [w1] + [w2] + [w3], [Preview] + [Begin] + [Write("t", "x", EDITED)], w3, w4, w5, w6,
              CopyScope("t"), Write("t", "x", FACT), Check);
    LosesFactIs(w6);
    var worlds := [w0] + [w1] + [w2] + [w3] + [w4] + [w5] + [w6];
    assert Behaviour(ONE_FILE, worlds, TOGGLED) by { ToggledIs(); }
    assert worlds[0] == SOURCE && worlds[6] == w6;
  }

  lemma ToggledIs()
    ensures TOGGLED ==
            [Preview] + [Begin] + [Write("t", "x", EDITED)] + [CopyScope("t")] + [Write("t", "x", FACT)] + [Check]
  {
    hide FACT, EDITED;
  }

  lemma ThreeSteps(p: Plan, w0: World, w1: World, w2: World, w3: World, a: Step, b: Step, c: Step)
    requires Initial(w0) && Enabled(p, w0, a) && w1 == Next(p, w0, a) && Enabled(p, w1, b) && w2 == Next(p, w1, b)
    requires Enabled(p, w2, c) && w3 == Next(p, w2, c)
    ensures Behaviour(p, [w0] + [w1] + [w2] + [w3], [a] + [b] + [c])
  {
    hide Enabled, Next, Behaviour;
    BehaviourStarts(p, w0);
    assert [] + [a] == [a];
    ThreeMore(p, [w0], [], w0, w1, w2, w3, a, b, c);
  }

  lemma ThreeMore(p: Plan, worlds: seq<World>, steps: seq<Step>, w0: World, w1: World, w2: World, w3: World, a: Step,
                  b: Step, c: Step)
    requires Behaviour(p, worlds, steps) && worlds[|worlds| - 1] == w0
    requires Enabled(p, w0, a) && w1 == Next(p, w0, a) && Enabled(p, w1, b) && w2 == Next(p, w1, b)
    requires Enabled(p, w2, c) && w3 == Next(p, w2, c)
    ensures Behaviour(p, worlds + [w1] + [w2] + [w3], steps + [a] + [b] + [c])
  {
    hide Enabled, Next, Behaviour;
    BehaviourGrows(p, worlds, steps, w0, a);
    BehaviourGrows(p, worlds + [w1], steps + [a], w1, b);
    BehaviourGrows(p, worlds + [w1] + [w2], steps + [a] + [b], w2, c);
  }

  /** About to purge a fact that the destination does not hold. */
  ghost predicate LosesFact(w: World) {
    w.phase == Checked && Unchanged(w) && "t" in w.copied && !Delivers(w.copied["t"], Held(w, "t"))
  }

  lemma LosesFactIs(w: World)
    ensures LosesFact(w) <==>
            w.phase == Checked && Unchanged(w) && "t" in w.copied && !Delivers(w.copied["t"], Held(w, "t"))
  {
  }

  lemma BehaviourStarts(p: Plan, w: World)
    requires Initial(w)
    ensures Behaviour(p, [w], [])
  {
  }

  lemma BehaviourGrows(p: Plan, worlds: seq<World>, steps: seq<Step>, last: World, s: Step)
    requires Behaviour(p, worlds, steps) && worlds[|worlds| - 1] == last && Enabled(p, last, s)
    ensures Behaviour(p, worlds + [Next(p, last, s)], steps + [s])
  {
    hide Enabled, Next;
  }

  lemma AfterPreview()
    ensures Initial(SOURCE) && Enabled(ONE_FILE, SOURCE, Preview)
    ensures Enabled(ONE_FILE, Next(ONE_FILE, SOURCE, Preview), Begin)
    ensures forall w, row :: Enabled(ONE_FILE, w, Write("t", "x", row))
  {
    hide TallyOf, Live;
  }

  lemma UndoneCounts(w5: World)
    requires Members(w5.captured) == {"t"} && w5.copied == map["t" := Copy(map["x" := EDITED], [])]
    requires w5.preview == TallyOf(ONE_FILE, Live(SOURCE), Live(SOURCE), {"t"})
    ensures CountsAgree(ONE_FILE, w5)
  {
    hide Less;
    assert ["t"][1..] == [];
    assert CopyOf(SOURCE.source["t"]).rows == map["x" := FACT];
    assert {"t"} - {"t"} == {};
    assert Sorted({}) == [];
    assert SumFacts(w5.copied, ["t"]) == 1 + SumFacts(w5.copied, []);
    assert SumFacts(Live(SOURCE), ["t"]) == 1 + SumFacts(Live(SOURCE), []);
    assert SumEpisodes(w5.copied, ["t"]) == 0 && SumEpisodes(Live(SOURCE), ["t"]) == 0;
  }
}
