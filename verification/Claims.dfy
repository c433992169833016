/** Dream-work claims: several runs race one episode queue, some of them crash. */
module Claims {
  import opened Ids
  import opened Surfaces
  import opened GraphModel

  type Run = string

  /** An episode, for one consumer. */
  datatype Key = Key(episode: string, consumer: string)

  datatype Claim = Claim(run: Run, at: int)

  /** The claim table and the processed markers. */
  datatype Plane = Plane(claims: map<Key, Claim>, processed: set<Key>)

  const DREAM_CLAIM_STALE_SECONDS: int := 900

  /** Held by another run, and not expired by this caller's clock. */
  predicate HeldByOther(p: Plane, k: Key, run: Run, cutoff: int) {
    k in p.claims && p.claims[k].run != run && p.claims[k].at > cutoff
  }

  predicate Claimable(p: Plane, k: Key, run: Run, cutoff: int) { k !in p.processed && !HeldByOther(p, k, run, cutoff) }

  function WriteClaim(p: Plane, k: Key, run: Run, now: int): Plane { p.(claims := p.claims[k := Claim(run, now)]) }

  /** The claim loop: what is taken on top of *taken*, and the table it leaves. */
  function ClaimFrom(p: Plane, episodes: seq<string>, consumer: string, run: Run, now: int, cutoff: int, limit: Option<nat>,
                     taken: set<string>): (Plane, set<string>)
    decreases |episodes|
  {
    if episodes == [] || (limit.Some? && |taken| >= limit.value) then (p, taken)
    else if Claimable(p, Key(episodes[0], consumer), run, cutoff) then
      ClaimFrom(WriteClaim(p, Key(episodes[0], consumer), run, now), episodes[1..], consumer, run, now, cutoff, limit,
                taken + {episodes[0]})
    else ClaimFrom(p, episodes[1..], consumer, run, now, cutoff, limit, taken)
  }

  // ------------------------------------------------------ the claim surface

  class DreamClaims {
    var claims: map<Key, Claim>
    var processed: set<Key>

    ghost function State(): Plane
      reads this
    {
      Plane(claims, processed)
    }

    constructor ()
      ensures State() == Plane(map[], {})
    {
      claims, processed := map[], {};
    }

    /** One exclusive transaction: re-check, then claim, up to *limit* episodes. */
    method ClaimEpisodes(episodes: seq<string>, consumer: string, run: Run, now: int, staleAfter: int, limit: Option<nat>)
      returns (out: Outcome<set<string>>)
      modifies this`claims
      ensures out.Err? <==> Blank(consumer) || Blank(run) || staleAfter <= 0
      ensures out.Err? ==> claims == old(claims)
      ensures out.Ok? ==>
                (State(), out.value) == ClaimFrom(old(State()), episodes, consumer, run, now, now - staleAfter, limit, {})
    {
      if Blank(consumer) || Blank(run) || staleAfter <= 0 { return Err(ValueError); }
      var cutoff := now - staleAfter;
      var claimed: set<string> := {};
      var i := 0;
      while i < |episodes|
        invariant i <= |episodes|
        invariant ClaimFrom(State(), episodes[i..], consumer, run, now, cutoff, limit, claimed) ==
                  ClaimFrom(old(State()), episodes, consumer, run, now, cutoff, limit, {})
      {
        if limit.Some? && |claimed| >= limit.value { return Ok(claimed); }
        assert episodes[i..][0] == episodes[i] && episodes[i..][1..] == episodes[i + 1..];
        var k := Key(episodes[i], consumer);
        i := i + 1;
        if k in processed { continue; }
        if k in claims && claims[k].run != run && claims[k].at > cutoff { continue; }
        claims := claims[k := Claim(run, now)];
        claimed := claimed + {k.episode};
      }
      return Ok(claimed);
    }

    method MarkProcessed(k: Key)
      modifies this`processed
      ensures processed == old(processed) + {k}
    {
      processed := processed + {k};
    }

    method Release(run: Run) returns (count: nat)
      modifies this`claims
      ensures claims == Released(old(claims), run) && count == |old(claims)| - |claims|
    {
      var kept := map k | k in claims && claims[k].run != run :: claims[k];
      KeptIsFewer(claims, kept);
      count := |claims| - |kept|;
      claims := kept;
    }
  }

  function Released(claims: map<Key, Claim>, run: Run): map<Key, Claim> {
    map k | k in claims && claims[k].run != run :: claims[k]
  }

  lemma KeptIsFewer(claims: map<Key, Claim>, kept: map<Key, Claim>)
    requires kept.Keys <= claims.Keys
    ensures |kept| <= |claims|
  {
    assert |kept.Keys| + |claims.Keys - kept.Keys| == |claims.Keys| by {
      assert kept.Keys + (claims.Keys - kept.Keys) == claims.Keys;
    }
  }

  // ------------------------------------------------ what one call takes

  /** A claim takes only what was claimable, and every other run's open claim stays. */
  lemma {:induction false} ClaimFromTakes(p: Plane, episodes: seq<string>, consumer: string, run: Run, now: int, cutoff: int,
                                          limit: Option<nat>, taken: set<string>)
    ensures var (p', got) := ClaimFrom(p, episodes, consumer, run, now, cutoff, limit, taken);
            && p'.processed == p.processed && taken <= got
            && (forall e :: e in got && e !in taken ==>
                  Key(e, consumer) in p'.claims && p'.claims[Key(e, consumer)] == Claim(run, now)
                  && Claimable(p, Key(e, consumer), run, cutoff))
            && (forall k :: k in p.claims ==>
                  k in p'.claims && (p'.claims[k] == p.claims[k]
                                     || (p'.claims[k] == Claim(run, now) && Claimable(p, k, run, cutoff))))
            && (forall k :: k in p'.claims && k !in p.claims ==> p'.claims[k] == Claim(run, now))
    decreases |episodes|
  {
    if episodes != [] && !(limit.Some? && |taken| >= limit.value) {
      var k := Key(episodes[0], consumer);
      if Claimable(p, k, run, cutoff) {
        ClaimFromTakes(WriteClaim(p, k, run, now), episodes[1..], consumer, run, now, cutoff, limit, taken + {episodes[0]});
      } else {
        ClaimFromTakes(p, episodes[1..], consumer, run, now, cutoff, limit, taken);
      }
    }
  }

  /** And, without a limit in the way, it takes everything that was claimable. */
  lemma {:induction false} ClaimFromTakesAll(p: Plane, episodes: seq<string>, consumer: string, run: Run, now: int,
                                             cutoff: int, taken: set<string>, e: string)
    requires e in episodes && Claimable(p, Key(e, consumer), run, cutoff)
    ensures e in ClaimFrom(p, episodes, consumer, run, now, cutoff, None, taken).1
    decreases |episodes|
  {
    var k := Key(episodes[0], consumer);
    if Claimable(p, k, run, cutoff) {
      if episodes[0] == e {
        ClaimFromTakes(WriteClaim(p, k, run, now), episodes[1..], consumer, run, now, cutoff, None, taken + {episodes[0]});
      } else {
        ClaimFromTakesAll(WriteClaim(p, k, run, now), episodes[1..], consumer, run, now, cutoff, taken + {episodes[0]}, e);
      }
    } else {
      ClaimFromTakesAll(p, episodes[1..], consumer, run, now, cutoff, taken, e);
    }
  }

  /** The episodes taken beyond *taken* are never more than the limit, and are taken in the
      order offered: whatever was claimable ahead of one that was taken was taken too, and if
      the limit was not reached so was everything claimable. */
  lemma {:induction false} ClaimsInOrder(p: Plane, episodes: seq<string>, consumer: string, run: Run, now: int, cutoff: int,
                                         limit: nat, taken: set<string>, i: nat)
    requires |taken| <= limit && i < |episodes| && Claimable(p, Key(episodes[i], consumer), run, cutoff)
    ensures var got := ClaimFrom(p, episodes, consumer, run, now, cutoff, Some(limit), taken).1;
            && |got| <= limit
            && (episodes[i] in got || (|got| == limit && forall e :: e in got && e !in taken ==> e in episodes[..i]))
    decreases |episodes|
  {
    if |taken| < limit {
      var e, rest := episodes[0], episodes[1..];
      var k := Key(e, consumer);
      var got := ClaimFrom(p, episodes, consumer, run, now, cutoff, Some(limit), taken).1;
      if Claimable(p, k, run, cutoff) {
        var p1 := WriteClaim(p, k, run, now);
        if i == 0 {
          ClaimFromTakes(p1, rest, consumer, run, now, cutoff, Some(limit), taken + {e});
          Within(p1, rest, consumer, run, now, cutoff, limit, taken + {e});
        } else {
          ClaimsInOrder(p1, rest, consumer, run, now, cutoff, limit, taken + {e}, i - 1);
          assert episodes[..i] == [e] + rest[..i - 1];
        }
      } else {
        ClaimsInOrder(p, rest, consumer, run, now, cutoff, limit, taken, i - 1);
        assert episodes[..i] == [e] + rest[..i - 1];
      }
    }
  }

  lemma {:induction false} Within(p: Plane, episodes: seq<string>, consumer: string, run: Run, now: int, cutoff: int,
                                  limit: nat, taken: set<string>)
    requires |taken| <= limit
    ensures |ClaimFrom(p, episodes, consumer, run, now, cutoff, Some(limit), taken).1| <= limit
    decreases |episodes|
  {
    if episodes != [] && |taken| < limit {
      var k := Key(episodes[0], consumer);
      if Claimable(p, k, run, cutoff) {
        Within(WriteClaim(p, k, run, now), episodes[1..], consumer, run, now, cutoff, limit, taken + {episodes[0]});
      } else {
        Within(p, episodes[1..], consumer, run, now, cutoff, limit, taken);
      }
    }
  }

  // ---------------------------------------------------- runs, interleaved

  /** A run at work: what it stamped its claims with, what it still means to do,
      and the episode it has materialised but not yet marked. */
  datatype Batch = Batch(at: int, keys: set<Key>, pending: Option<Key>)

  /** The shared plane, the runs at work, the clock, and every materialisation made. */
  datatype World = World(time: int, plane: Plane, held: map<Run, Batch>, gone: set<Run>, made: seq<(Run, Key)>)

  datatype Step =
    | Wait(seconds: nat)
    | Begin(run: Run, episodes: seq<string>, consumer: string, now: int, limit: Option<nat>)
    | Materialize(run: Run, key: Key)
    | Mark(run: Run)
    | Finish(run: Run)
    | Crash(run: Run)

  const START := World(0, Plane(map[], {}), map[], {}, [])

  /** A run id is fresh, a clock reading is not from the future, work is on one's own batch. */
  predicate Enabled(w: World, s: Step) {
    match s
    case Wait(_) => true
    case Begin(run, _, _, now, _) => run !in w.held && run !in w.gone && now <= w.time
    case Materialize(run, key) => run in w.held && key in w.held[run].keys && w.held[run].pending.None?
    case Mark(run) => run in w.held && w.held[run].pending.Some?
    case Finish(run) => run in w.held
    case Crash(run) => run in w.held
  }

  function Next(w: World, s: Step): World
    requires Enabled(w, s)
  {
    match s
    case Wait(seconds) => w.(time := w.time + seconds)
    case Begin(run, episodes, consumer, now, limit) =>
      var (plane, got) := ClaimFrom(w.plane, episodes, consumer, run, now, now - DREAM_CLAIM_STALE_SECONDS, limit, {});
      w.(plane := plane, held := w.held[run := Batch(now, set e | e in got :: Key(e, consumer), None)])
    case Materialize(run, key) =>
      w.(held := w.held[run := w.held[run].(pending := Some(key))], made := w.made + [(run, key)])
    case Mark(run) =>
      var b := w.held[run];
      w.(plane := w.plane.(processed := w.plane.processed + {b.pending.value}),
         held := w.held[run := b.(keys := b.keys - {b.pending.value}, pending := None)])
    case Finish(run) =>
      w.(plane := w.plane.(claims := Released(w.plane.claims, run)), held := w.held - {run}, gone := w.gone + {run})
    case Crash(run) => w.(held := w.held - {run}, gone := w.gone + {run})
  }

  /** The run may still rely on its claims. */
  predicate Open(w: World, run: Run) { run in w.held && w.time < w.held[run].at + DREAM_CLAIM_STALE_SECONDS }

  /** No run outlives its claims, or stops between materialising and marking. */
  predicate Timely(w: World, s: Step)
    requires Enabled(w, s)
  {
    match s
    case Wait(seconds) =>
      forall run :: run in w.held && w.held[run].pending.Some? ==>
        w.time + seconds < w.held[run].at + DREAM_CLAIM_STALE_SECONDS
    case Begin(_, _, _, _, _) => true
    case Materialize(run, _) => Open(w, run)
    case Mark(run) => Open(w, run)
    case Finish(run) => w.held[run].pending.None?
    case Crash(run) => w.held[run].pending.None?
  }

  ghost predicate TimelyBehaviour(steps: seq<Step>, w: World)
    decreases |steps|
  {
    if steps == [] then w == START
    else
      var last := steps[|steps| - 1];
      exists before :: TimelyBehaviour(steps[..|steps| - 1], before) && Enabled(before, last) && Timely(before, last)
                       && w == Next(before, last)
  }

  // --------------------------------------------------------- the invariant

  /** While its window is open a run's batch is claimed by it, and not processed. */
  ghost predicate BatchesClaimed(w: World) {
    forall run, k :: run in w.held && k in w.held[run].keys && Open(w, run) ==>
                       k in w.plane.claims && w.plane.claims[k] == Claim(run, w.held[run].at) && k !in w.plane.processed
  }

  /** What was materialised is marked, or about to be by the run that did it. */
  ghost predicate MadeAccountedFor(w: World) {
    forall i :: 0 <= i < |w.made| ==>
      w.made[i].1 in w.plane.processed
      || (w.made[i].0 in w.held && w.held[w.made[i].0].pending == Some(w.made[i].1))
  }

  ghost predicate PendingOpen(w: World) {
    forall run :: run in w.held && w.held[run].pending.Some? ==>
                    Open(w, run) && w.held[run].pending.value in w.held[run].keys
  }

  ghost predicate OnceEach(w: World) { forall i, j :: 0 <= i < j < |w.made| ==> w.made[i].1 != w.made[j].1 }

  ghost predicate Safe(w: World) { BatchesClaimed(w) && MadeAccountedFor(w) && PendingOpen(w) && OnceEach(w) }

  lemma BeginKeeps(w: World, s: Step)
    requires Safe(w) && s.Begin? && Enabled(w, s)
    ensures Safe(Next(w, s))
  {
    hide ClaimFrom;
    var cutoff := s.now - DREAM_CLAIM_STALE_SECONDS;
    ClaimFromTakes(w.plane, s.episodes, s.consumer, s.run, s.now, cutoff, s.limit, {});
    var w' := Next(w, s);
    forall run, k | run in w'.held && k in w'.held[run].keys && Open(w', run)
      ensures k in w'.plane.claims && w'.plane.claims[k] == Claim(run, w'.held[run].at) && k !in w'.plane.processed
    {
      if run != s.run { assert Open(w, run) && HeldByOther(w.plane, k, s.run, cutoff); }
    }
  }

  lemma MaterializeKeeps(w: World, s: Step)
    requires Safe(w) && s.Materialize? && Enabled(w, s) && Timely(w, s)
    ensures Safe(Next(w, s))
  {
    var w' := Next(w, s);
    forall i | 0 <= i < |w.made| ensures w.made[i].1 != s.key {
      assert s.key in w.plane.claims && w.plane.claims[s.key].run == s.run;
    }
    forall i | 0 <= i < |w'.made|
      ensures w'.made[i].1 in w'.plane.processed
              || (w'.made[i].0 in w'.held && w'.held[w'.made[i].0].pending == Some(w'.made[i].1))
    {
      if i < |w.made| { assert w'.made[i] == w.made[i]; }
    }
  }

  lemma MarkKeeps(w: World, s: Step)
    requires Safe(w) && s.Mark? && Enabled(w, s) && Timely(w, s)
    ensures Safe(Next(w, s))
  {
    var w' := Next(w, s);
    var done := w.held[s.run].pending.value;
    forall run, k | run in w'.held && k in w'.held[run].keys && Open(w', run)
      ensures k in w'.plane.claims && w'.plane.claims[k] == Claim(run, w'.held[run].at) && k !in w'.plane.processed
    {
      assert Open(w, run) && Open(w, s.run);
      assert w.plane.claims[done].run == s.run;
    }
  }

  lemma EndKeeps(w: World, s: Step)
    requires Safe(w) && (s.Finish? || s.Crash? || s.Wait?) && Enabled(w, s) && Timely(w, s)
    ensures Safe(Next(w, s))
  {
    var w' := Next(w, s);
    forall run, k | run in w'.held && k in w'.held[run].keys && Open(w', run)
      ensures k in w'.plane.claims && w'.plane.claims[k] == Claim(run, w'.held[run].at) && k !in w'.plane.processed
    {
      assert Open(w, run);
    }
  }

  /** With any number of runs claiming, working, exiting and crashing in any order:
      if none outlives its claims or stops between materialising and marking, no
      episode is ever materialised twice for one consumer. */
  lemma {:induction false} AtMostOnce(steps: seq<Step>, w: World)
    requires TimelyBehaviour(steps, w)
    ensures Safe(w)
    decreases |steps|
  {
    hide Safe, Next, Timely, Enabled;
    if steps == [] {
      StartSafe();
    } else {
      var last := steps[|steps| - 1];
      var before :| TimelyBehaviour(steps[..|steps| - 1], before) && Enabled(before, last) && Timely(before, last)
                    && w == Next(before, last);
      AtMostOnce(steps[..|steps| - 1], before);
      match last
      case Begin(_, _, _, _, _) => BeginKeeps(before, last);
      case Materialize(_, _) => MaterializeKeeps(before, last);
      case Mark(_) => MarkKeeps(before, last);
      case _ => EndKeeps(before, last);
    }
  }

  lemma StartSafe()
    ensures Safe(START)
  {
  }

  // ---------------------------------------------------- over every behaviour

  /** Any interleaving at all, outlived claims and crashes included. */
  ghost predicate Behaviour(steps: seq<Step>, w: World)
    decreases |steps|
  {
    if steps == [] then w == START
    else
      var last := steps[|steps| - 1];
      exists before :: Behaviour(steps[..|steps| - 1], before) && Enabled(before, last) && w == Next(before, last)
  }

  /** An open window's batch is claimed by the run that holds it. */
  ghost predicate OpenClaimed(w: World) {
    forall run, k :: run in w.held && k in w.held[run].keys && Open(w, run) ==>
                       k in w.plane.claims && w.plane.claims[k] == Claim(run, w.held[run].at)
  }

  lemma BeginClaims(w: World, s: Step)
    requires OpenClaimed(w) && s.Begin? && Enabled(w, s)
    ensures OpenClaimed(Next(w, s))
  {
    hide ClaimFrom;
    var cutoff := s.now - DREAM_CLAIM_STALE_SECONDS;
    ClaimFromTakes(w.plane, s.episodes, s.consumer, s.run, s.now, cutoff, s.limit, {});
    var w' := Next(w, s);
    forall run, k | run in w'.held && k in w'.held[run].keys && Open(w', run)
      ensures k in w'.plane.claims && w'.plane.claims[k] == Claim(run, w'.held[run].at)
    {
      if run != s.run { assert Open(w, run) && HeldByOther(w.plane, k, s.run, cutoff); }
    }
  }

  lemma OthersClaim(w: World, s: Step)
    requires OpenClaimed(w) && !s.Begin? && Enabled(w, s)
    ensures OpenClaimed(Next(w, s))
  {
    var w' := Next(w, s);
    forall run, k | run in w'.held && k in w'.held[run].keys && Open(w', run)
      ensures k in w'.plane.claims && w'.plane.claims[k] == Claim(run, w'.held[run].at)
    {
      assert run in w.held && k in w.held[run].keys && Open(w, run);
    }
  }

  lemma StartClaimed()
    ensures OpenClaimed(START)
  {
  }

  lemma {:induction false} AlwaysClaimed(steps: seq<Step>, w: World)
    requires Behaviour(steps, w)
    ensures OpenClaimed(w)
    decreases |steps|
  {
    hide OpenClaimed, Next, Enabled;
    if steps == [] {
      StartClaimed();
    } else {
      var last := steps[|steps| - 1];
      var before :| Behaviour(steps[..|steps| - 1], before) && Enabled(before, last) && w == Next(before, last);
      AlwaysClaimed(steps[..|steps| - 1], before);
      if last.Begin? { BeginClaims(before, last); } else { OthersClaim(before, last); }
    }
  }

  /** Whatever happens, two runs whose windows are both open never hold the same
      episode. */
  lemma OpenBatchesDisjoint(steps: seq<Step>, w: World, a: Run, b: Run)
    requires Behaviour(steps, w) && Open(w, a) && Open(w, b) && a != b
    ensures w.held[a].keys !! w.held[b].keys
  {
    hide Behaviour, Next, Enabled;
    AlwaysClaimed(steps, w);
    forall k | k in w.held[a].keys ensures k !in w.held[b].keys {
      assert w.plane.claims[k] == Claim(a, w.held[a].at);
    }
  }

  // ------------------------------------------------ twice, exactly when

  ghost predicate Made(w: World, k: Key) { exists i :: 0 <= i < |w.made| && w.made[i].1 == k }

  /** A run that has ended made it. */
  ghost predicate MadeByGone(w: World, k: Key) { exists i :: 0 <= i < |w.made| && w.made[i].1 == k && w.made[i].0 in w.gone }

  predicate AtWork(w: World, run: Run, k: Key) { run in w.held && w.held[run].pending == Some(k) }

  ghost predicate BeingMade(w: World, k: Key) { exists run :: AtWork(w, run, k) }

  /** What was made is marked, or its run is about to, or has ended; and nothing else is
      marked or about to be. */
  ghost predicate Accounted(w: World) {
    && (forall i :: 0 <= i < |w.made| ==>
          w.made[i].1 in w.plane.processed || AtWork(w, w.made[i].0, w.made[i].1) || w.made[i].0 in w.gone)
    && (forall k :: k in w.plane.processed ==> Made(w, k))
    && forall run, k :: AtWork(w, run, k) ==> Made(w, k)
  }

  lemma MakingAccounts(w: World, s: Step)
    requires Accounted(w) && s.Materialize? && Enabled(w, s)
    ensures Accounted(Next(w, s))
  {
    var w' := Next(w, s);
    forall k | Made(w, k) || k == s.key ensures Made(w', k) {
      if i :| 0 <= i < |w.made| && w.made[i].1 == k { assert w'.made[i] == w.made[i]; }
      if k == s.key { assert w'.made[|w.made|].1 == k; }
    }
    forall i | 0 <= i < |w'.made|
      ensures w'.made[i].1 in w'.plane.processed || AtWork(w', w'.made[i].0, w'.made[i].1) || w'.made[i].0 in w'.gone
    {
      if i < |w.made| { assert w'.made[i] == w.made[i]; }
    }
    forall run, k | AtWork(w', run, k) ensures Made(w', k) { if run != s.run { assert AtWork(w, run, k); } }
  }

  lemma OthersAccount(w: World, s: Step)
    requires Accounted(w) && !s.Materialize? && Enabled(w, s)
    ensures Accounted(Next(w, s))
  {
    hide ClaimFrom;
    var w' := Next(w, s);
    if s.Begin? { ClaimFromTakes(w.plane, s.episodes, s.consumer, s.run, s.now, s.now - DREAM_CLAIM_STALE_SECONDS, s.limit, {}); }
    assert w'.made == w.made;
    forall k | Made(w, k) ensures Made(w', k) {
      var i :| 0 <= i < |w.made| && w.made[i].1 == k;
      assert w'.made[i].1 == k;
    }
    forall run, k | AtWork(w', run, k) ensures AtWork(w, run, k) {}
    if s.Mark? { assert AtWork(w, s.run, w.held[s.run].pending.value); }
  }

  lemma StartAccounted()
    ensures Accounted(START)
  {
  }

  lemma {:induction false} AlwaysAccounted(steps: seq<Step>, w: World)
    requires Behaviour(steps, w)
    ensures Accounted(w)
    decreases |steps|
  {
    hide Accounted, Next, Enabled;
    if steps == [] {
      StartAccounted();
    } else {
      var last := steps[|steps| - 1];
      var before :| Behaviour(steps[..|steps| - 1], before) && Enabled(before, last) && w == Next(before, last);
      AlwaysAccounted(steps[..|steps| - 1], before);
      if last.Materialize? { MakingAccounts(before, last); } else { OthersAccount(before, last); }
    }
  }

  /** Over every behaviour, an episode is materialised again exactly when, at that
      moment, it is already marked (a claim was outlived), another run is at it, or a
      run that has ended had made it. */
  lemma RepeatsExactly(steps: seq<Step>, w: World, run: Run, key: Key)
    requires Behaviour(steps, w) && Enabled(w, Materialize(run, key)) && OnceEach(w)
    ensures OnceEach(Next(w, Materialize(run, key))) <==>
            key !in w.plane.processed && !BeingMade(w, key) && !MadeByGone(w, key)
  {
    hide Behaviour;
    AlwaysAccounted(steps, w);
    var w' := Next(w, Materialize(run, key));
    if Made(w, key) {
      var i :| 0 <= i < |w.made| && w.made[i].1 == key;
      assert w'.made[i].1 == w'.made[|w.made|].1;
      if key !in w.plane.processed && w.made[i].0 !in w.gone { assert AtWork(w, w.made[i].0, key); }
    } else {
      assert !MadeByGone(w, key);
      forall i, j | 0 <= i < j < |w'.made| ensures w'.made[i].1 != w'.made[j].1 {
        assert w'.made[i] == w.made[i];
        if j < |w.made| { assert w'.made[j] == w.made[j]; }
      }
    }
  }

  // ------------------------------------------------- a crash wedges nothing

  /** What a crashed run left behind can be claimed again exactly when its window
      has passed by the new run's clock. */
  lemma CrashedIsClaimableAgain(p: Plane, k: Key, run: Run, crashed: Run, at: int, now: int)
    requires k in p.claims && p.claims[k] == Claim(crashed, at) && crashed != run && k !in p.processed
    ensures k.episode in ClaimFrom(p, [k.episode], k.consumer, run, now, now - DREAM_CLAIM_STALE_SECONDS, None, {}).1 <==>
            now >= at + DREAM_CLAIM_STALE_SECONDS
  {
    var cutoff := now - DREAM_CLAIM_STALE_SECONDS;
    assert [k.episode][1..] == [];
    if Claimable(p, k, run, cutoff) {
      ClaimFromTakesAll(p, [k.episode], k.consumer, run, now, cutoff, {}, k.episode);
    } else {
      ClaimFromTakes(p, [k.episode], k.consumer, run, now, cutoff, None, {});
    }
  }

  // ------------------------------------- each condition is needed: bad runs

  const EPISODE := Key("e", "c")

  const OUTLIVED: seq<Step> :=
    [Begin("first", ["e"], "c", 0, None), Wait(1184), Begin("second", ["e"], "c", 1184, None),
     Materialize("second", EPISODE), Materialize("first", EPISODE)]

  const KILLED: seq<Step> :=
    [Begin("first", ["e"], "c", 0, None), Materialize("first", EPISODE), Crash("first"), Wait(900),
     Begin("second", ["e"], "c", 900, None), Materialize("second", EPISODE)]

  const RAISED: seq<Step> :=
    [Begin("first", ["e"], "c", 0, None), Materialize("first", EPISODE), Finish("first"),
     Begin("second", ["e"], "c", 0, None), Materialize("second", EPISODE)]

  function RunAll(w: World, steps: seq<Step>): Option<World>
    decreases |steps|
  {
    if steps == [] then Some(w)
    else if !Enabled(w, steps[0]) then None
    else RunAll(Next(w, steps[0]), steps[1..])
  }

  lemma FirstClaim(run: Run, now: int, time: int, claims: map<Key, Claim>, gone: set<Run>, made: seq<(Run, Key)>,
                   held: map<Run, Batch>)
    requires EPISODE in claims ==> claims[EPISODE].run == run || claims[EPISODE].at <= now - DREAM_CLAIM_STALE_SECONDS
    requires now <= time && run !in held && run !in gone
    ensures var w := World(time, Plane(claims, {}), held, gone, made);
            Enabled(w, Begin(run, ["e"], "c", now, None)) &&
            Next(w, Begin(run, ["e"], "c", now, None)) ==
            World(time, Plane(claims[EPISODE := Claim(run, now)], {}), held[run := Batch(now, {EPISODE}, None)], gone, made)
  {
    assert ["e"][1..] == [];
    var p := WriteClaim(Plane(claims, {}), EPISODE, run, now);
    assert ClaimFrom(p, [], "c", run, now, now - DREAM_CLAIM_STALE_SECONDS, None, {"e"}) == (p, {"e"});
    assert ClaimFrom(Plane(claims, {}), ["e"], "c", run, now, now - DREAM_CLAIM_STALE_SECONDS, None, {}) == (p, {} + {"e"});
    var none: set<string> := {};
    var got := none + {"e"};
    assert got == {"e"};
    assert (set e | e in got :: Key(e, "c")) == {EPISODE};
  }

  lemma RunStep(w: World, steps: seq<Step>)
    requires steps != [] && Enabled(w, steps[0])
    ensures RunAll(w, steps) == RunAll(Next(w, steps[0]), steps[1..])
  {
  }

  /** A run longer than its window, as the recorded formation of 1,184 s was, and a
      second run in between: the episode is materialised twice. */
  lemma OutlivingMaterialisesTwice()
    ensures RunAll(START, OUTLIVED).Some?
    ensures RunAll(START, OUTLIVED).value.made == [("second", EPISODE), ("first", EPISODE)]
  {
    hide ClaimFrom, RunAll;
    var s := OUTLIVED;
    FirstClaim("first", 0, 0, map[], {}, [], map[]);
    RunStep(START, s);
    var w1 := Next(START, s[0]);
    RunStep(w1, s[1..]);
    var w2 := Next(w1, Wait(1184));
    FirstClaim("second", 1184, 1184, w2.plane.claims, {}, [], w2.held);
    RunStep(w2, s[1..][1..]);
    var w3 := Next(w2, s[2]);
    RunStep(w3, s[1..][1..][1..]);
    var w4 := Next(w3, s[3]);
    RunStep(w4, s[1..][1..][1..][1..]);
    var w5 := Next(w4, s[4]);
    RunNothing(w5, s[1..][1..][1..][1..][1..]);
  }

  lemma RunNothing(w: World, steps: seq<Step>)
    requires steps == []
    ensures RunAll(w, steps) == Some(w)
  {
  }

  /** A run killed between materialising and marking: once its window passes, the
      episode is materialised again. */
  lemma KillBetweenMaterialisesTwice()
    ensures RunAll(START, KILLED).Some?
    ensures RunAll(START, KILLED).value.made == [("first", EPISODE), ("second", EPISODE)]
  {
    hide ClaimFrom, RunAll;
    var s := KILLED;
    FirstClaim("first", 0, 0, map[], {}, [], map[]);
    RunStep(START, s);
    var w1 := Next(START, s[0]);
    RunStep(w1, s[1..]);
    var w2 := Next(w1, s[1]);
    RunStep(w2, s[1..][1..]);
    var w3 := Next(w2, s[2]);
    RunStep(w3, s[1..][1..][1..]);
    var w4 := Next(w3, s[3]);
    FirstClaim("second", 900, 900, w4.plane.claims, w4.gone, w4.made, w4.held);
    RunStep(w4, s[1..][1..][1..][1..]);
    var w5 := Next(w4, s[4]);
    RunStep(w5, s[1..][1..][1..][1..][1..]);
    var w6 := Next(w5, s[5]);
    RunNothing(w6, s[1..][1..][1..][1..][1..][1..]);
  }

  /** A run that raises between the two releases its claims at once. */
  lemma ExitBetweenMaterialisesTwice()
    ensures RunAll(START, RAISED).Some?
    ensures RunAll(START, RAISED).value.made == [("first", EPISODE), ("second", EPISODE)]
  {
    hide ClaimFrom, RunAll;
    var s := RAISED;
    FirstClaim("first", 0, 0, map[], {}, [], map[]);
    RunStep(START, s);
    var w1 := Next(START, s[0]);
    RunStep(w1, s[1..]);
    var w2 := Next(w1, s[1]);
    RunStep(w2, s[1..][1..]);
    var w3 := Next(w2, s[2]);
    FirstClaim("second", 0, 0, w3.plane.claims, w3.gone, w3.made, w3.held);
    RunStep(w3, s[1..][1..][1..]);
    var w4 := Next(w3, s[3]);
    RunStep(w4, s[1..][1..][1..][1..]);
    var w5 := Next(w4, s[4]);
    RunNothing(w5, s[1..][1..][1..][1..][1..]);
  }
}
