/** Order-preserving distinct accumulation, the one rule behind both evidence
    lists and alias sets: the first spelling seen wins, and nothing is listed twice. */
module Surfaces {
  import opened Ids

  /** *xs* without whatever *seen* already covers, and without repeats. */
  function Distinct(key: string -> string, seen: set<string>, xs: seq<string>): seq<string>
    decreases |xs|
  {
    if xs == [] then []
    else if key(xs[0]) in seen then Distinct(key, seen, xs[1..])
    else [xs[0]] + Distinct(key, seen + {key(xs[0])}, xs[1..])
  }

  ghost function Keys(key: string -> string, xs: seq<string>): set<string> {
    set x | x in xs :: key(x)
  }

  lemma {:induction false} DistinctKeys(key: string -> string, seen: set<string>, xs: seq<string>)
    ensures Keys(key, Distinct(key, seen, xs)) == Keys(key, xs) - seen
    ensures forall x :: x in Distinct(key, seen, xs) ==> x in xs
    decreases |xs|
  {
    if xs != [] {
      assert Keys(key, xs) == {key(xs[0])} + Keys(key, xs[1..]) by { assert xs == [xs[0]] + xs[1..]; }
      if key(xs[0]) in seen {
        DistinctKeys(key, seen, xs[1..]);
      } else {
        DistinctKeys(key, seen + {key(xs[0])}, xs[1..]);
        var rest := Distinct(key, seen + {key(xs[0])}, xs[1..]);
        assert Keys(key, [xs[0]] + rest) == {key(xs[0])} + Keys(key, rest);
      }
    }
  }

  lemma {:induction false} DistinctAppend(key: string -> string, seen: set<string>, xs: seq<string>, ys: seq<string>)
    ensures Distinct(key, seen, xs + ys) == Distinct(key, seen, xs) + Distinct(key, seen + Keys(key, xs), ys)
    decreases |xs|
  {
    if xs == [] {
      assert xs + ys == ys;
      assert seen + Keys(key, xs) == seen;
    } else {
      assert (xs + ys)[1..] == xs[1..] + ys;
      assert Keys(key, xs) == {key(xs[0])} + Keys(key, xs[1..]) by { assert xs == [xs[0]] + xs[1..]; }
      if key(xs[0]) in seen {
        DistinctAppend(key, seen, xs[1..], ys);
        assert seen + Keys(key, xs) == seen + Keys(key, xs[1..]);
      } else {
        DistinctAppend(key, seen + {key(xs[0])}, xs[1..], ys);
        assert seen + {key(xs[0])} + Keys(key, xs[1..]) == seen + Keys(key, xs);
      }
    }
  }

  lemma {:induction false} DistinctIdempotent(key: string -> string, seen: set<string>, xs: seq<string>)
    ensures Distinct(key, seen, Distinct(key, seen, xs)) == Distinct(key, seen, xs)
    decreases |xs|
  {
    if xs != [] {
      if key(xs[0]) in seen {
        DistinctIdempotent(key, seen, xs[1..]);
      } else {
        DistinctIdempotent(key, seen + {key(xs[0])}, xs[1..]);
        var d := Distinct(key, seen, xs);
        assert d[1..] == Distinct(key, seen + {key(xs[0])}, xs[1..]);
      }
    }
  }

  lemma {:induction false} DistinctSeen(key: string -> string, seen: set<string>, xs: seq<string>)
    requires Keys(key, xs) <= seen
    ensures Distinct(key, seen, xs) == []
    decreases |xs|
  {
    if xs != [] {
      assert key(xs[0]) in Keys(key, xs);
      assert Keys(key, xs[1..]) <= Keys(key, xs);
      DistinctSeen(key, seen, xs[1..]);
    }
  }

  // ------------------------------------------------------------- evidence

  const SAME: string -> string := (s: string) => s

  /** Evidence *first*, then whatever of *second* it does not already hold. */
  function Union(first: seq<string>, second: seq<string>): seq<string> {
    first + Distinct(SAME, (set x | x in first), second)
  }

  /** A union loses no entry and invents none. */
  lemma UnionHolds(first: seq<string>, second: seq<string>)
    ensures forall x :: x in Union(first, second) <==> x in first || x in second
  {
    var seen := set x | x in first;
    DistinctKeys(SAME, seen, second);
    var d := Distinct(SAME, seen, second);
    forall x | x in second ensures x in first || x in d {
      assert SAME(x) in Keys(SAME, second);
      if x !in first {
        assert SAME(x) in Keys(SAME, d);
        var y :| y in d && SAME(y) == SAME(x);
      }
    }
  }

  /** Re-applying a union's own result is a no-op: what a replayed reinforcement relies on. */
  lemma UnionRestates(first: seq<string>, second: seq<string>)
    ensures Union(first, Union(first, second)) == Union(first, second)
  {
    var seen := set x | x in first;
    var d := Distinct(SAME, seen, second);
    DistinctAppend(SAME, seen, first, d);
    assert Keys(SAME, first) <= seen;
    DistinctSeen(SAME, seen, first);
    assert seen + Keys(SAME, first) == seen;
    DistinctIdempotent(SAME, seen, second);
  }

  predicate NoRepeats(xs: seq<string>) {
    forall i, j :: 0 <= i < j < |xs| ==> xs[i] != xs[j]
  }

  lemma {:induction false} DistinctHasNoRepeats(seen: set<string>, xs: seq<string>)
    ensures NoRepeats(Distinct(SAME, seen, xs))
    decreases |xs|
  {
    if xs != [] {
      if SAME(xs[0]) in seen {
        DistinctHasNoRepeats(seen, xs[1..]);
      } else {
        var rest := Distinct(SAME, seen + {xs[0]}, xs[1..]);
        DistinctHasNoRepeats(seen + {xs[0]}, xs[1..]);
        DistinctKeys(SAME, seen + {xs[0]}, xs[1..]);
        forall j | 0 <= j < |rest| ensures rest[j] != xs[0] {
          assert SAME(rest[j]) in Keys(SAME, rest);
        }
        assert Distinct(SAME, seen, xs) == [xs[0]] + rest;
      }
    }
  }

  lemma UnionHasNoRepeats(first: seq<string>, second: seq<string>)
    requires NoRepeats(first)
    ensures NoRepeats(Union(first, second))
  {
    var seen := set x | x in first;
    var d := Distinct(SAME, seen, second);
    DistinctHasNoRepeats(seen, second);
    DistinctKeys(SAME, seen, second);
    forall j | 0 <= j < |d| ensures d[j] !in first {
      assert SAME(d[j]) in Keys(SAME, d);
    }
  }

  // -------------------------------------------------------------- aliases

  function FoldChar(c: char): char {
    if 'A' <= c <= 'Z' then ((c - 'A') as int + ('a' as int)) as char else c
  }

  /** Case folding of a surface name. */
  function Fold(s: string): string {
    if s == "" then "" else [FoldChar(s[0])] + Fold(s[1..])
  }

  /** Folding keeps a name's length and every character but capitals, which become small:
      two names are one surface exactly when they differ in case alone. */
  lemma {:induction false} FoldSmalls(s: string)
    ensures |Fold(s)| == |s|
    ensures forall i :: 0 <= i < |s| ==>
              Fold(s)[i] == if 'A' <= s[i] <= 'Z' then (s[i] as int + 32) as char else s[i]
  {
    if s != "" {
      FoldSmalls(s[1..]);
      assert forall i :: 0 < i < |s| ==> s[i] == s[1..][i - 1] && Fold(s)[i] == Fold(s[1..])[i - 1];
    }
  }

  const FOLD: string -> string := (s: string) => Fold(s)

  predicate Space(c: char) { c == ' ' || c == '\t' || c == '\n' || c == '\r' }

  predicate Blank(s: string) { forall i :: 0 <= i < |s| ==> Space(s[i]) }

  predicate AnyBlank(xs: seq<string>) { exists x :: x in xs && Blank(x) }

  /** The canonical alias tuple of a node called *name*. */
  function Canonical(name: string, aliases: seq<string>): seq<string> {
    Distinct(FOLD, {Fold(name)}, aliases)
  }

  /** Every folded surface that routes to a node: its name and its aliases. */
  ghost function Routes(name: string, aliases: seq<string>): set<string> {
    {Fold(name)} + Keys(FOLD, aliases)
  }

  /** Canonicalising drops no search key. */
  lemma CanonicalRoutes(name: string, aliases: seq<string>)
    ensures Routes(name, Canonical(name, aliases)) == Routes(name, aliases)
    ensures forall x :: x in Canonical(name, aliases) ==> x in aliases
  {
    DistinctKeys(FOLD, {Fold(name)}, aliases);
  }

  lemma CanonicalIdempotent(name: string, aliases: seq<string>)
    ensures Canonical(name, Canonical(name, aliases)) == Canonical(name, aliases)
  {
    DistinctIdempotent(FOLD, {Fold(name)}, aliases);
  }

  /** Adding the outcome of an alias union again changes nothing. */
  lemma CanonicalRestates(name: string, held: seq<string>, names: seq<string>)
    requires Canonical(name, held) == held
    ensures Canonical(name, held + Canonical(name, held + names)) == Canonical(name, held + names)
  {
    var seen := {Fold(name)};
    var more := seen + Keys(FOLD, held);
    var d := Distinct(FOLD, more, names);
    assert Canonical(name, held + names) == held + d by { DistinctAppend(FOLD, seen, held, names); }
    assert Distinct(FOLD, more, held + d) == d by {
      DistinctAppend(FOLD, more, held, d);
      DistinctSeen(FOLD, more, held);
      assert more + Keys(FOLD, held) == more;
      DistinctIdempotent(FOLD, more, names);
    }
    DistinctAppend(FOLD, seen, held, held + d);
  }

  /** The loop the store runs over an alias list; a blank alias is refused. */
  method NormalizeAliases(name: string, aliases: seq<string>) returns (canonical: Option<seq<string>>)
    ensures canonical == if AnyBlank(aliases) then None else Some(Canonical(name, aliases))
  {
    var kept: seq<string> := [];
    var seen := {Fold(name)};
    for i := 0 to |aliases|
      invariant forall j :: 0 <= j < i ==> !Blank(aliases[j])
      invariant kept + Distinct(FOLD, seen, aliases[i..]) == Canonical(name, aliases)
    {
      if Blank(aliases[i]) { return None; }
      var folded := Fold(aliases[i]);
      assert aliases[i..][1..] == aliases[i + 1..];
      if folded !in seen {
        seen := seen + {folded};
        kept := kept + [aliases[i]];
      }
    }
    assert aliases[|aliases|..] == [] && kept + [] == kept;
    return Some(kept);
  }

  /** The loop that accumulates evidence in arrival order. */
  method MergeEvidence(first: seq<string>, second: seq<string>) returns (merged: seq<string>)
    ensures merged == Union(first, second)
  {
    merged := first;
    var seen := set x | x in first;
    ghost var start := seen;
    for i := 0 to |second|
      invariant merged + Distinct(SAME, seen, second[i..]) == first + Distinct(SAME, start, second)
    {
      assert second[i..][1..] == second[i + 1..];
      if second[i] !in seen {
        seen := seen + {second[i]};
        merged := merged + [second[i]];
      }
    }
  }
}
