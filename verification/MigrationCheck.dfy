/** The VERIFY step of a migration: which four figures it compares, over any interleaving,
    and what a mismatch leaves behind. */
module MigrationCheck {
  import opened Ids
  import opened GraphModel
  import opened Migration

  // ----------------------------------------------------- what there is to count

  /** The active facts of the scopes as they stand. */
  ghost function FactsAt(w: World, scopes: set<Scope>): set<(Scope, Id)> {
    set s, x | s in scopes && s in w.source && x in w.source[s].rows && w.source[s].rows[x].active :: (s, x)
  }

  ghost function EpisodesAt(w: World, scopes: set<Scope>): set<(Scope, nat)> {
    set s, i: nat | s in scopes && s in w.source && i < |w.source[s].episodes| :: (s, i)
  }

  /** What the copies of the scopes hold. */
  ghost function FactsCopied(w: World, scopes: set<Scope>): set<(Scope, Id)> {
    set s, x | s in scopes && s in w.copied && x in w.copied[s].rows :: (s, x)
  }

  ghost function EpisodesCopied(w: World, scopes: set<Scope>): set<(Scope, nat)> {
    set s, i: nat | s in scopes && s in w.copied && i < |w.copied[s].episodes| :: (s, i)
  }

  /** Within one file the agents' rows are not copied but read again where they are,
      provided the preview counted a fact at all. */
  ghost predicate ReadAgain(p: Plan, v: World) { p.sameStore && FactsAt(v, {p.tenant} + v.agents) != {} }

  /** The four figures of the check, in the world *w* it is made in, against those of the
      world *v* the preview was made in. */
  ghost predicate FourAgree(p: Plan, w: World, v: World) {
    var captured, listed := Members(w.captured) - {p.tenant}, v.agents - {p.tenant};
    && |FactsCopied(w, {p.tenant})| == |FactsAt(v, {p.tenant})|
    && |EpisodesCopied(w, {p.tenant})| == |EpisodesAt(v, {p.tenant})|
    && |if ReadAgain(p, v) then FactsAt(w, captured) else FactsCopied(w, captured)| == |FactsAt(v, listed)|
    && |if ReadAgain(p, v) then EpisodesAt(w, captured) else EpisodesCopied(w, captured)| == |EpisodesAt(v, listed)|
  }

  // --------------------------------------------------------- sums are sizes

  ghost function FactPairs(from: map<Scope, Copy>, scopes: set<Scope>): set<(Scope, Id)> {
    set s, x | s in scopes && s in from && x in from[s].rows :: (s, x)
  }

  ghost function EpisodePairs(from: map<Scope, Copy>, scopes: set<Scope>): set<(Scope, nat)> {
    set s, i: nat | s in scopes && s in from && i < |from[s].episodes| :: (s, i)
  }

  lemma {:induction false} FactSum(from: map<Scope, Copy>, scopes: seq<Scope>)
    requires forall i, j :: 0 <= i < j < |scopes| ==> scopes[i] != scopes[j]
    ensures SumFacts(from, scopes) == |FactPairs(from, Members(scopes))|
  {
    if scopes == [] {
      assert FactPairs(from, Members(scopes)) == {};
    } else {
      var s, rest := scopes[0], scopes[1..];
      assert scopes == [s] + rest && forall i :: 0 <= i < |rest| ==> rest[i] == scopes[i + 1];
      FactSum(from, rest);
      var own, others := FactPairs(from, {s}), FactPairs(from, Members(rest));
      assert s !in rest;
      assert FactPairs(from, Members(scopes)) == own + others && own !! others;
      OwnFacts(from, s);
    }
  }

  lemma OwnFacts(from: map<Scope, Copy>, s: Scope)
    ensures |FactPairs(from, {s})| == if s in from then Facts(from[s]) else 0
  {
    var own := FactPairs(from, {s});
    if s in from {
      PairedSize(from[s].rows.Keys, own, s);
    } else {
      assert own == {};
    }
  }

  lemma {:induction false} PairedSize<T>(xs: set<T>, pairs: set<(Scope, T)>, s: Scope)
    requires forall p :: p in pairs <==> p.0 == s && p.1 in xs
    ensures |pairs| == |xs|
    decreases |xs|
  {
    if xs == {} {
      assert pairs == {} by { if p :| p in pairs { assert p.1 in xs; } }
    } else {
      var x :| x in xs;
      assert (s, x) in pairs;
      PairedSize(xs - {x}, pairs - {(s, x)}, s);
    }
  }

  lemma {:induction false} EpisodeSum(from: map<Scope, Copy>, scopes: seq<Scope>)
    requires forall i, j :: 0 <= i < j < |scopes| ==> scopes[i] != scopes[j]
    ensures SumEpisodes(from, scopes) == |EpisodePairs(from, Members(scopes))|
  {
    if scopes == [] {
      assert EpisodePairs(from, Members(scopes)) == {};
    } else {
      var s, rest := scopes[0], scopes[1..];
      assert scopes == [s] + rest && forall i :: 0 <= i < |rest| ==> rest[i] == scopes[i + 1];
      EpisodeSum(from, rest);
      var own, others := EpisodePairs(from, {s}), EpisodePairs(from, Members(rest));
      assert s !in rest;
      assert EpisodePairs(from, Members(scopes)) == own + others && own !! others;
      OwnEpisodes(from, s);
    }
  }

  lemma OwnEpisodes(from: map<Scope, Copy>, s: Scope)
    ensures |EpisodePairs(from, {s})| == if s in from then |from[s].episodes| else 0
  {
    var own := EpisodePairs(from, {s});
    if s in from {
      FirstPairs(s, |from[s].episodes|, own);
    } else {
      assert own == {};
    }
  }

  lemma {:induction false} FirstPairs(s: Scope, n: nat, pairs: set<(Scope, nat)>)
    requires forall q :: q in pairs <==> q.0 == s && q.1 < n
    ensures |pairs| == n
  {
    if n == 0 {
      assert pairs == {};
    } else {
      assert (s, n - 1) in pairs;
      FirstPairs(s, n - 1, pairs - {(s, n - 1)});
    }
  }

  /** The tally, as sizes. */
  lemma TallySizes(p: Plan, tenant: map<Scope, Copy>, agents: map<Scope, Copy>, scopes: set<Scope>)
    ensures TallyOf(p, tenant, agents, scopes) ==
            Tally(|FactPairs(tenant, {p.tenant})|, |EpisodePairs(tenant, {p.tenant})|,
                  |FactPairs(agents, scopes - {p.tenant})|, |EpisodePairs(agents, scopes - {p.tenant})|)
  {
    hide Less, Sorted, FactPairs, EpisodePairs, SumFacts, SumEpisodes;
    var others := Sorted(scopes - {p.tenant});
    SortedMembers(scopes - {p.tenant});
    AscendingDistinct(others);
    assert Members([p.tenant]) == {p.tenant};
    FactSum(tenant, [p.tenant]);
    EpisodeSum(tenant, [p.tenant]);
    FactSum(agents, others);
    EpisodeSum(agents, others);
  }

  lemma LiveSizes(w: World, scopes: set<Scope>)
    ensures FactPairs(Live(w), scopes) == FactsAt(w, scopes) && EpisodePairs(Live(w), scopes) == EpisodesAt(w, scopes)
  {
    var a, b := FactPairs(Live(w), scopes), FactsAt(w, scopes);
    forall q ensures q in a <==> q in b {
      assert q in a <==> q.0 in scopes && q.0 in Live(w) && q.1 in Live(w)[q.0].rows;
      assert q in b <==> q.0 in scopes && q.0 in w.source && q.1 in w.source[q.0].rows && w.source[q.0].rows[q.1].active;
    }
    var c, d := EpisodePairs(Live(w), scopes), EpisodesAt(w, scopes);
    forall s, i: nat ensures (s, i) in c <==> (s, i) in d {
      if s in w.source { assert Live(w)[s].episodes == w.source[s].episodes; }
      assert (s, i) in c <==> s in scopes && s in Live(w) && i < |Live(w)[s].episodes|;
      assert (s, i) in d <==> s in scopes && s in w.source && i < |w.source[s].episodes|;
    }
    forall q ensures q in c <==> q in d { assert q == (q.0, q.1); }
  }

  lemma CopiedSizes(w: World, scopes: set<Scope>)
    ensures FactPairs(w.copied, scopes) == FactsCopied(w, scopes) && EpisodePairs(w.copied, scopes) == EpisodesCopied(w, scopes)
  {
  }

  // --------------------------------------------------------- preview to check

  lemma PreviewKept(p: Plan, w: World, s: Step)
    requires Enabled(p, w, s) && w.phase != Idle
    ensures Next(p, w, s).phase != Idle && Next(p, w, s).preview == w.preview
  {
    hide Sorted, CopyOf, TallyOf, Live, CountsAgree, Unchanged, MarkOf, Taken, Kept;
  }

  lemma {:induction false} PreviewStays(p: Plan, worlds: seq<World>, steps: seq<Step>, v: nat, k: nat)
    requires Behaviour(p, worlds, steps) && v < k <= |steps| && steps[v] == Preview
    ensures worlds[k].phase != Idle
    ensures worlds[k].preview == TallyOf(p, Live(worlds[v]), Live(worlds[v]), ScopesOf(p, worlds[v].agents))
    decreases k
  {
    hide Next, TallyOf, Live;
    assert Enabled(p, worlds[k - 1], steps[k - 1]) && worlds[k - 1 + 1] == Next(p, worlds[k - 1], steps[k - 1]);
    if k == v + 1 {
      PreviewDoes(p, worlds[v]);
    } else {
      PreviewStays(p, worlds, steps, v, k - 1);
      PreviewKept(p, worlds[k - 1], steps[k - 1]);
    }
  }

  lemma PreviewDoes(p: Plan, w: World)
    requires w.phase == Idle
    ensures var w' := Next(p, w, Preview);
            w'.phase == Previewed && w'.preview == TallyOf(p, Live(w), Live(w), ScopesOf(p, w.agents))
  {
    hide TallyOf, Live;
  }

  lemma {:induction false} UnderForever(p: Plan, worlds: seq<World>, steps: seq<Step>, c: nat, k: nat)
    requires Behaviour(p, worlds, steps) && c <= k <= |steps| && Under(worlds[c])
    ensures Under(worlds[k])
    decreases k
  {
    hide Next, Under;
    if k > c {
      assert Enabled(p, worlds[k - 1], steps[k - 1]) && worlds[k - 1 + 1] == Next(p, worlds[k - 1], steps[k - 1]);
      UnderForever(p, worlds, steps, c, k - 1);
      UnderStays(p, worlds[k - 1], steps[k - 1]);
    }
  }

  lemma CheckMoves(p: Plan, w: World)
    requires Enabled(p, w, Check)
    ensures var w' := Next(p, w, Check);
            && w'.phase == (if CountsAgree(p, w) then Checked else Aborted)
            && w'.agents == (if CountsAgree(p, w) && p.sameStore then w.agents - Members(w.captured) else w.agents)
            && w'.source == w.source && w'.copied == w.copied && w'.purged == w.purged && w'.captured == w.captured
  {
    hide CountsAgree;
  }

  lemma AgreeAsSizes(p: Plan, w: World, v: World)
    requires w.preview == TallyOf(p, Live(v), Live(v), ScopesOf(p, v.agents))
    ensures CountsAgree(p, w) <==> FourAgree(p, w, v)
  {
    hide FactPairs, EpisodePairs, TallyOf, Live, FactsAt, EpisodesAt, FactsCopied, EpisodesCopied;
    var scopes := ScopesOf(p, v.agents);
    var captured := Members(w.captured);
    TallySizes(p, Live(v), Live(v), scopes);
    TallySizes(p, w.copied, Live(w), captured);
    TallySizes(p, w.copied, w.copied, captured);
    assert scopes - {p.tenant} == v.agents - {p.tenant};
    LiveSizes(v, {p.tenant});
    LiveSizes(v, v.agents - {p.tenant});
    LiveSizes(w, captured - {p.tenant});
    CopiedSizes(w, {p.tenant});
    CopiedSizes(w, captured - {p.tenant});
    SomeFact(p, v);
  }

  lemma SomeFact(p: Plan, v: World)
    ensures FactsAt(v, {p.tenant} + v.agents) != {} <==> |FactsAt(v, {p.tenant})| + |FactsAt(v, v.agents - {p.tenant})| > 0
  {
    var all, own, others := FactsAt(v, {p.tenant} + v.agents), FactsAt(v, {p.tenant}), FactsAt(v, v.agents - {p.tenant});
    assert forall q :: q in all <==> q in own || q in others;
    if all == {} {
      assert own == {} && others == {};
    } else {
      var q :| q in all;
      assert own != {} || others != {};
    }
  }

  /** Over every interleaving: the check lets the migration go on exactly when the copies,
      or within one file the agents' scopes as they stand, number what the preview counted,
      figure by figure. Only then do the captured agents change hands. */
  lemma CheckVerifies(p: Plan, worlds: seq<World>, steps: seq<Step>, v: nat, c: nat)
    requires Behaviour(p, worlds, steps) && v < |steps| && c < |steps| && steps[v] == Preview && steps[c] == Check
    ensures v < c
    ensures worlds[c + 1].phase == if FourAgree(p, worlds[c], worlds[v]) then Checked else Aborted
    ensures worlds[c + 1].agents ==
            if FourAgree(p, worlds[c], worlds[v]) && p.sameStore then worlds[c].agents - Members(worlds[c].captured)
            else worlds[c].agents
    ensures worlds[c + 1].source == worlds[c].source && worlds[c + 1].copied == worlds[c].copied
  {
    hide Next, FourAgree, CountsAgree, TallyOf, Live;
    assert Enabled(p, worlds[v], Preview) && Enabled(p, worlds[c], Check) && worlds[c + 1] == Next(p, worlds[c], Check);
    if c < v { UnderForever(p, worlds, steps, c, v); }
    CheckMoves(p, worlds[c]);
    PreviewStays(p, worlds, steps, v, c);
    AgreeAsSizes(p, worlds[c], worlds[v]);
  }

  /** Every check had its preview. */
  lemma {:induction false} PreviewedBefore(p: Plan, worlds: seq<World>, steps: seq<Step>, k: nat) returns (v: nat)
    requires Behaviour(p, worlds, steps) && k <= |steps| && worlds[k].phase != Idle
    ensures v < k && steps[v] == Preview
    decreases k
  {
    hide Sorted, CopyOf, TallyOf, Live, CountsAgree, Unchanged, MarkOf, Taken, Kept;
    assert Enabled(p, worlds[k - 1], steps[k - 1]) && worlds[k - 1 + 1] == Next(p, worlds[k - 1], steps[k - 1]);
    if steps[k - 1].Preview? { v := k - 1; } else { v := PreviewedBefore(p, worlds, steps, k - 1); }
  }

  ghost predicate JoinedBy(steps: seq<Step>, k: nat, x: Scope) { exists j: nat :: j < k && j < |steps| && steps[j] == Register(x) }

  /** Short of a passed check only registrations change who belongs to the tenant. */
  lemma {:induction false} OnlyRegistered(p: Plan, worlds: seq<World>, steps: seq<Step>, k: nat, x: Scope)
    requires Behaviour(p, worlds, steps) && k <= |steps|
    requires forall j: nat :: j < k && steps[j] == Check ==> worlds[j + 1].phase == Aborted
    ensures x in worlds[k].agents <==> x in worlds[0].agents || JoinedBy(steps, k, x)
    decreases k
  {
    hide Next;
    if k > 0 {
      assert Enabled(p, worlds[k - 1], steps[k - 1]) && worlds[k - 1 + 1] == Next(p, worlds[k - 1], steps[k - 1]);
      OnlyRegistered(p, worlds, steps, k - 1, x);
      JoinsIn(p, worlds[k - 1], steps[k - 1], x);
      assert JoinedBy(steps, k, x) <==> JoinedBy(steps, k - 1, x) || steps[k - 1] == Register(x) by {
        if steps[k - 1] == Register(x) { var j: nat := k - 1; assert j < k && steps[j] == Register(x); }
      }
    }
  }

  lemma JoinsIn(p: Plan, w: World, s: Step, x: Scope)
    requires Enabled(p, w, s) && (s == Check ==> Next(p, w, s).phase == Aborted)
    ensures x in Next(p, w, s).agents <==> x in w.agents || s == Register(x)
  {
    hide Sorted, CopyOf, TallyOf, Live, CountsAgree, Unchanged, MarkOf, Taken, Kept;
  }

  /** A mismatch ends the run for good: whatever is tried afterwards it stays aborted, nothing
      is purged, the source is what the other writers made of it, and the tenant's agents are
      those that were registered. */
  lemma MismatchAborts(p: Plan, worlds: seq<World>, steps: seq<Step>, v: nat, c: nat, k: nat)
    requires Behaviour(p, worlds, steps) && v < |steps| && c < k <= |steps| && steps[v] == Preview && steps[c] == Check
    requires !FourAgree(p, worlds[c], worlds[v])
    ensures worlds[k].phase == Aborted && worlds[k].purged == {}
    ensures worlds[k].source == WroteAll(worlds[0].source, steps[..k])
    ensures forall x :: x in worlds[k].agents <==> x in worlds[0].agents || JoinedBy(steps, k, x)
  {
    hide Next, FourAgree, CountsAgree, WroteAll, Enabled;
    CheckVerifies(p, worlds, steps, v, c);
    AbortedStays(p, worlds, steps, c + 1, k);
    OnlyWritersTouch(p, worlds, steps, k);
    forall j: nat | j < k && steps[j] == Check ensures j == c { OneCheck(p, worlds, steps, j, c); }
    forall x ensures x in worlds[k].agents <==> x in worlds[0].agents || JoinedBy(steps, k, x) {
      OnlyRegistered(p, worlds, steps, k, x);
    }
  }

  lemma OneCheck(p: Plan, worlds: seq<World>, steps: seq<Step>, i: nat, j: nat)
    requires Behaviour(p, worlds, steps) && i < |steps| && j < |steps| && steps[i] == Check && steps[j] == Check
    ensures i == j
  {
    hide Next;
    if i < j { CheckedStays(p, worlds, steps, i, j + 1); }
    if j < i { CheckedStays(p, worlds, steps, j, i + 1); }
  }

  /** What one copy takes: if the preview counted a fact, exactly the scope's active facts
      as they stand and its episodes; otherwise the tenant's episodes alone. */
  lemma CopyTakes(p: Plan, worlds: seq<World>, steps: seq<Step>, v: nat, c: nat, s: Scope)
    requires Behaviour(p, worlds, steps) && v < |steps| && c < |steps| && steps[v] == Preview && steps[c] == CopyScope(s)
    ensures v < c && s in worlds[c + 1].copied
    ensures var counted, copy := FactsAt(worlds[v], {p.tenant} + worlds[v].agents) != {}, worlds[c + 1].copied[s];
            && (forall x :: x in copy.rows <==> counted && (s, x) in FactsAt(worlds[c], {s}))
            && (forall x :: x in copy.rows ==> copy.rows[x] == worlds[c].source[s].rows[x])
            && copy.episodes == if (counted || s == p.tenant) && s in worlds[c].source then worlds[c].source[s].episodes else []
  {
    hide Next, TallyOf, Live, Taken;
    assert Enabled(p, worlds[v], Preview) && Enabled(p, worlds[c], CopyScope(s))
           && worlds[c + 1] == Next(p, worlds[c], CopyScope(s));
    if c < v { UnderForever(p, worlds, steps, c, v); }
    PreviewStays(p, worlds, steps, v, c);
    CopyDoes(p, worlds[c], s, s);
    WantedIsCounted(p, worlds[c], worlds[v]);
    TakenIs(p, worlds[c], s);
  }

  lemma WantedIsCounted(p: Plan, w: World, v: World)
    requires w.preview == TallyOf(p, Live(v), Live(v), ScopesOf(p, v.agents))
    ensures FactsWanted(w) <==> FactsAt(v, {p.tenant} + v.agents) != {}
  {
    hide FactPairs, EpisodePairs, TallyOf, Live, FactsAt, EpisodesAt;
    TallySizes(p, Live(v), Live(v), ScopesOf(p, v.agents));
    assert ScopesOf(p, v.agents) - {p.tenant} == v.agents - {p.tenant};
    LiveSizes(v, {p.tenant});
    LiveSizes(v, v.agents - {p.tenant});
    SomeFact(p, v);
  }

  lemma TakenIs(p: Plan, w: World, s: Scope)
    ensures var copy := Taken(p, w, s);
            && (forall x :: x in copy.rows <==> FactsWanted(w) && (s, x) in FactsAt(w, {s}))
            && (forall x :: x in copy.rows ==> copy.rows[x] == w.source[s].rows[x])
            && copy.episodes == if (FactsWanted(w) || s == p.tenant) && s in w.source then w.source[s].episodes else []
  {
    hide FactsWanted;
    forall x ensures (s, x) in FactsAt(w, {s}) <==> s in w.source && x in w.source[s].rows && w.source[s].rows[x].active {}
  }
}
