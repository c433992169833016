/** The two backfills: one pass over the rows is enough, whichever runs first. */
module TruthSweeps {
  import opened Ids
  import opened TruthKeys

  /** A registry that has grown keeps every decision it had. */
  ghost predicate Extends(small: Registry, big: Registry) {
    && big.aliases == small.aliases
    && forall w :: w in small.predicates ==> w in big.predicates && big.predicates[w] == small.predicates[w]
  }

  lemma {:induction false} LearningExtends(reg: Registry, rows: seq<Row>, n: nat, choose: Chooser)
    requires n <= |rows|
    ensures Extends(LearnedAll(reg, rows[..n], choose), LearnedAll(reg, rows, choose))
    ensures forall i :: 0 <= i < n && rows[i].live ==> rows[i].surface.verb in LearnedAll(reg, rows[..n], choose).predicates
    decreases |rows|
  {
    if n < |rows| {
      LearningExtends(reg, rows[..|rows| - 1], n, choose);
      assert rows[..|rows| - 1][..n] == rows[..n];
    } else if n > 0 {
      LearningExtends(reg, rows[..n - 1], n - 1, choose);
      assert rows[..n] == rows && rows[..n - 1][..n - 1] == rows[..n - 1];
    }
  }

  /** What is learned depends on the words of the live rows alone. */
  lemma {:induction false} LearningReadsSurfaces(reg: Registry, rows: seq<Row>, others: seq<Row>, choose: Chooser)
    requires |rows| == |others|
    requires forall i :: 0 <= i < |rows| ==> rows[i].live == others[i].live && rows[i].surface == others[i].surface
    ensures LearnedAll(reg, rows, choose) == LearnedAll(reg, others, choose)
  {
    if rows != [] {
      LearningReadsSurfaces(reg, rows[..|rows| - 1], others[..|rows| - 1], choose);
    }
  }

  lemma {:induction false} NothingLeftToLearn(reg: Registry, rows: seq<Row>, choose: Chooser)
    requires forall i :: 0 <= i < |rows| && rows[i].live ==> rows[i].surface.verb in reg.predicates
    ensures LearnedAll(reg, rows, choose) == reg
  {
    if rows != [] {
      NothingLeftToLearn(reg, rows[..|rows| - 1], choose);
    }
  }

  lemma SweepTwice(first: Registry, reg: Registry, rows: seq<Row>)
    ensures Swept(reg, Swept(first, rows)) == Swept(reg, rows)
  {
    hide Key, Prefix, Entity, Predicate;
    forall i | 0 <= i < |rows|
      ensures Swept(reg, Swept(first, rows))[i] == Swept(reg, rows)[i]
    {
    }
  }

  /** Both orders of the two backfills end in the same registries and the same rows,
      and no frozen row is touched. */
  lemma BackfillsCommute(s: Scope, choose: Chooser)
    ensures var both := After(s, SweepPredicates(choose));
      && After(After(s, SweepEntities), SweepPredicates(choose)) == both
      && After(both, SweepEntities) == both
      && AllFresh(both.reg, both.rows)
      && forall i :: 0 <= i < |s.rows| && !s.rows[i].live ==> both.rows[i] == s.rows[i]
  {
    var reg := LearnedAll(s.reg, s.rows, choose);
    SweepKeepsLive(s.reg, s.rows);
    SweepKeepsLive(reg, s.rows);
    LearningReadsSurfaces(s.reg, s.rows, Swept(s.reg, s.rows), choose);
    SweepTwice(s.reg, reg, s.rows);
    SweepTwice(reg, reg, s.rows);
    SweepFreshens(reg, s.rows);
  }

  /** A backfill repeated changes nothing, even with another similarity model. */
  lemma BackfillIsIdempotent(s: Scope, choose: Chooser, other: Chooser)
    ensures After(After(s, SweepPredicates(choose)), SweepPredicates(other)) == After(s, SweepPredicates(choose))
  {
    var reg := LearnedAll(s.reg, s.rows, choose);
    LearningExtends(s.reg, s.rows, |s.rows|, choose);
    assert s.rows[..|s.rows|] == s.rows;
    SweepKeepsLive(reg, s.rows);
    NothingLeftToLearn(reg, Swept(reg, s.rows), other);
    SweepTwice(reg, reg, s.rows);
  }

  lemma LaterLearningAgrees(reg: Registry, rows: seq<Row>, n: nat, choose: Chooser)
    requires n < |rows| && rows[n].live
    ensures Rekeyed(LearnedAll(reg, rows[..n + 1], choose), rows[n]) == Rekeyed(LearnedAll(reg, rows, choose), rows[n])
  {
    LearningExtends(reg, rows, n + 1, choose);
    var m := rows[n].surface;
    var small, big := LearnedAll(reg, rows[..n + 1], choose), LearnedAll(reg, rows, choose);
    assert Entity(small, m.subject) == Entity(big, m.subject) && Entity(small, m.value) == Entity(big, m.value);
    SameRegistrySameKey(big, small, rows[n]);
  }

  class KeyedScope {
    var reg: Registry
    var rows: seq<Row>

    constructor ()
      ensures reg == Registry(map[], map[]) && rows == []
    {
      reg := Registry(map[], map[]);
      rows := [];
    }

    /** One pass, registering unknown predicates as it meets them: a row keyed early
        is not left behind by what a later row registers. */
    method SweepRegistering(choose: Chooser)
      modifies this
      ensures Scope(reg, rows) == After(Scope(old(reg), old(rows)), SweepPredicates(choose))
    {
      ghost var start, before := reg, rows;
      hide Rekeyed;
      for n := 0 to |rows|
        invariant |rows| == |before| && reg == LearnedAll(start, before[..n], choose)
        invariant forall j :: 0 <= j < n ==>
          rows[j] == Swept(LearnedAll(start, before, choose), before)[j]
        invariant forall j :: n <= j < |rows| ==> rows[j] == before[j]
      {
        assert before[..n + 1][..n] == before[..n];
        reg := LearnedRow(reg, rows[n], choose);
        if rows[n].live {
          LaterLearningAgrees(start, before, n, choose);
          rows := rows[n := Rekeyed(reg, rows[n])];
        }
      }
      assert before[..|before|] == before;
    }

    /** An alias turned active by a decision: the rows that mention it move with it. */
    method Link(name: string, canonical: string) returns (moved: set<nat>)
      requires name != canonical
      modifies this
      ensures Scope(reg, rows) == After(Scope(old(reg), old(rows)), Step.Link(name, canonical))
      ensures moved == set i: nat | i < |rows| && rows[i] != old(rows)[i]
    {
      var was := Entity(reg, name);
      reg := Activated(reg, name, canonical);
      moved := {};
      ghost var before := rows;
      if Entity(reg, name) == was { return; }
      hide Rekeyed;
      for n := 0 to |rows|
        invariant |rows| == |before| && reg == Activated(old(reg), name, canonical)
        invariant forall j :: 0 <= j < n ==> rows[j] == SweptFor(reg, before, name)[j]
        invariant forall j :: n <= j < |rows| ==> rows[j] == before[j]
        invariant moved == set i: nat | i < n && rows[i] != before[i]
      {
        if rows[n].live && Mentions(rows[n], name) {
          var next := Rekeyed(reg, rows[n]);
          if next != rows[n] {
            moved := moved + {n};
            rows := rows[n := next];
          }
        }
      }
      assert rows == SweptFor(reg, before, name);
    }

    /** A predicate surface met for the first time. */
    method Learn(word: string, canonical: string)
      modifies this
      ensures Scope(reg, rows) == After(Scope(old(reg), old(rows)), Step.Learn(word, canonical))
    {
      if word in reg.predicates { return; }
      reg := Learned(reg, word, canonical);
      if canonical == word { return; }
      ghost var before := rows;
      hide Rekeyed;
      for n := 0 to |rows|
        invariant |rows| == |before| && reg == Learned(old(reg), word, canonical)
        invariant forall j :: 0 <= j < n ==> rows[j] == SweptOf(reg, before, word)[j]
        invariant forall j :: n <= j < |rows| ==> rows[j] == before[j]
      {
        if rows[n].live && rows[n].surface.verb == word { rows := rows[n := Rekeyed(reg, rows[n])]; }
      }
      assert rows == SweptOf(reg, before, word);
    }
  }
}
