/** The read-time tiebreaker: of the rows in one truth slot that speak about one
    object, only the newest is current. */
module Demotion {
  import opened Ids

  /** A visible, unpinned fact: its slot, its object text with negation markers
      stripped, and whether it carried one. */
  datatype Candidate = Candidate(uuid: string, slot: Option<string>, stripped: string, negative: bool,
                                 validFrom: Option<int>, createdAt: Option<int>)

  predicate OneRowEach(rows: seq<Candidate>) { forall i, j :: 0 <= i < j < |rows| ==> rows[i].uuid != rows[j].uuid }

  /** Opposite claims about the same object, in the same slot. */
  predicate Contradicts(a: Candidate, b: Candidate) {
    a.slot.Some? && a.slot == b.slot && a.stripped == b.stripped && a.negative != b.negative
  }

  predicate SameCluster(a: Candidate, b: Candidate) { a.slot.Some? && a.slot == b.slot && a.stripped == b.stripped }

  /** A missing date is older than every date. */
  predicate Earlier(a: Option<int>, b: Option<int>) {
    match (a, b)
    case (None, Some(_)) => true
    case (Some(x), Some(y)) => x < y
    case _ => false
  }

  predicate Older(a: Candidate, b: Candidate) {
    Earlier(a.validFrom, b.validFrom)
    || (a.validFrom == b.validFrom
        && (Earlier(a.createdAt, b.createdAt) || (a.createdAt == b.createdAt && Less(a.uuid, b.uuid))))
  }

  lemma OlderTotal(a: Candidate, b: Candidate)
    requires a.uuid != b.uuid
    ensures Older(a, b) <==> !Older(b, a)
  {
    hide Less;
    LessTotal(a.uuid, b.uuid);
    if Less(a.uuid, b.uuid) { LessAsymmetric(a.uuid, b.uuid); }
    if Less(b.uuid, a.uuid) { LessAsymmetric(b.uuid, a.uuid); }
  }

  lemma OlderTransitive(a: Candidate, b: Candidate, c: Candidate)
    requires Older(a, b) && Older(b, c)
    ensures Older(a, c)
  {
    hide Less;
    if Less(a.uuid, b.uuid) && Less(b.uuid, c.uuid) { LessTransitive(a.uuid, b.uuid, c.uuid); }
  }

  /** A row is demoted exactly when its cluster holds a newer one. */
  ghost predicate Outdated(rows: set<Candidate>, c: Candidate) {
    c in rows && exists d :: d in rows && SameCluster(c, d) && Older(c, d)
  }

  ghost function RowSet(rows: seq<Candidate>): set<Candidate> { set c | c in rows }

  ghost function DemotedIds(rows: set<Candidate>): set<string> { set c | c in rows && Outdated(rows, c) :: c.uuid }

  // ------------------------------------------------------------ the program

  method Newest(members: seq<Candidate>) returns (k: nat)
    requires members != [] && OneRowEach(members)
    ensures k < |members| && forall j :: 0 <= j < |members| && j != k ==> Older(members[j], members[k])
  {
    hide Older;
    k := 0;
    for i := 1 to |members|
      invariant k < i && forall j :: 0 <= j < i && j != k ==> Older(members[j], members[k])
    {
      OlderTotal(members[k], members[i]);
      if Older(members[k], members[i]) {
        forall j | 0 <= j < i && j != k ensures Older(members[j], members[i]) {
          OlderTransitive(members[j], members[k], members[i]);
        }
        k := i;
      }
    }
  }

  /** One pass groups the rows by slot and stripped text, a second keeps the newest
      of each group of two or more. */
  method DemoteContradicted(rows: seq<Candidate>) returns (demoted: set<string>)
    requires OneRowEach(rows)
    ensures demoted == DemotedIds(RowSet(rows))
  {
    hide Older, OneRowEach;
    var clusters: map<(string, string), seq<Candidate>> := map[];
    for i := 0 to |rows|
      invariant Grouped(rows, i, clusters)
    {
      GroupStep(rows, i, clusters);
      if rows[i].slot.Some? {
        var key := (rows[i].slot.value, rows[i].stripped);
        clusters := clusters[key := (if key in clusters then clusters[key] else []) + [rows[i]]];
      }
    }
    demoted := {};
    var rest := clusters.Keys;
    ghost var done: set<(string, string)> := {};
    while rest != {}
      invariant rest + done == clusters.Keys && rest !! done
      invariant forall u :: u in demoted <==> exists key, c :: key in done && c in clusters[key] && BeatenIn(clusters[key], c) && c.uuid == u
      decreases rest
    {
      var key :| key in rest;
      GroupDistinct(rows, clusters, key);
      ghost var before := demoted;
      if |clusters[key]| >= 2 {
        var k := Newest(clusters[key]);
        NewestBeats(clusters[key], k);
        demoted := demoted + set c | c in clusters[key] && c.uuid != clusters[key][k].uuid :: c.uuid;
      } else {
        LoneUnbeaten(clusters[key]);
      }
      DoneGrows(clusters, done, key, before, demoted);
      rest := rest - {key};
      done := done + {key};
    }
    assert done == clusters.Keys;
    ClustersAreOutdated(rows, clusters, demoted);
  }

  /** A newer member of the group exists. */
  ghost predicate BeatenIn(members: seq<Candidate>, c: Candidate) { exists d :: d in members && Older(c, d) }

  ghost predicate Grouped(rows: seq<Candidate>, i: nat, clusters: map<(string, string), seq<Candidate>>)
    requires i <= |rows|
  {
    && (forall c :: c in rows[..i] && c.slot.Some? ==>
          (c.slot.value, c.stripped) in clusters && c in clusters[(c.slot.value, c.stripped)])
    && (forall key, c :: key in clusters && c in clusters[key] ==>
          c in rows[..i] && c.slot == Some(key.0) && c.stripped == key.1)
    && (forall key :: key in clusters ==> clusters[key] != [] && OneRowEach(clusters[key]))
  }

  lemma GroupStep(rows: seq<Candidate>, i: nat, clusters: map<(string, string), seq<Candidate>>)
    requires OneRowEach(rows) && i < |rows| && Grouped(rows, i, clusters)
    ensures rows[i].slot.None? ==> Grouped(rows, i + 1, clusters)
    ensures rows[i].slot.Some? ==>
              var key := (rows[i].slot.value, rows[i].stripped);
              Grouped(rows, i + 1, clusters[key := (if key in clusters then clusters[key] else []) + [rows[i]]])
  {
    assert rows[..i + 1] == rows[..i] + [rows[i]];
    if rows[i].slot.Some? {
      var key := (rows[i].slot.value, rows[i].stripped);
      if key in clusters {
        forall j | 0 <= j < |clusters[key]| ensures clusters[key][j].uuid != rows[i].uuid {
          assert clusters[key][j] in rows[..i];
          var k :| 0 <= k < i && rows[k] == clusters[key][j];
        }
      }
    }
  }

  lemma GroupDistinct(rows: seq<Candidate>, clusters: map<(string, string), seq<Candidate>>, key: (string, string))
    requires Grouped(rows, |rows|, clusters) && key in clusters
    ensures clusters[key] != [] && OneRowEach(clusters[key])
  {
  }

  lemma NewestBeats(members: seq<Candidate>, k: nat)
    requires k < |members| && OneRowEach(members) && forall j :: 0 <= j < |members| && j != k ==> Older(members[j], members[k])
    ensures forall c :: c in members ==> (BeatenIn(members, c) <==> c.uuid != members[k].uuid)
  {
    hide Older;
    forall c | c in members ensures BeatenIn(members, c) <==> c.uuid != members[k].uuid {
      var j :| 0 <= j < |members| && members[j] == c;
      if j == k && BeatenIn(members, c) {
        var d :| d in members && Older(c, d);
        var i :| 0 <= i < |members| && members[i] == d;
        OlderIrreflexive(c, d);
        OlderTotal(c, d);
      }
    }
  }

  lemma OlderIrreflexive(c: Candidate, d: Candidate)
    requires Older(c, d)
    ensures c != d
  {
    LessIrreflexive(c.uuid);
  }

  lemma LoneUnbeaten(members: seq<Candidate>)
    requires |members| == 1
    ensures forall c :: c in members ==> !BeatenIn(members, c)
  {
    hide Older;
    forall c, d | c in members && d in members ensures !Older(c, d) {
      if Older(c, d) { OlderIrreflexive(c, d); }
    }
  }

  lemma DoneGrows(clusters: map<(string, string), seq<Candidate>>, done: set<(string, string)>, key: (string, string),
                  before: set<string>, after: set<string>)
    requires key in clusters && done <= clusters.Keys
    requires forall u :: u in before <==> exists k, c :: k in done && c in clusters[k] && BeatenIn(clusters[k], c) && c.uuid == u
    requires forall u :: u in after <==> u in before || exists c :: c in clusters[key] && BeatenIn(clusters[key], c) && c.uuid == u
    ensures forall u :: u in after <==>
                        exists k, c :: k in done + {key} && c in clusters[k] && BeatenIn(clusters[k], c) && c.uuid == u
  {
    hide BeatenIn;
  }

  lemma ClustersAreOutdated(rows: seq<Candidate>, clusters: map<(string, string), seq<Candidate>>, demoted: set<string>)
    requires Grouped(rows, |rows|, clusters)
    requires forall u :: u in demoted <==>
                         exists k, c :: k in clusters && c in clusters[k] && BeatenIn(clusters[k], c) && c.uuid == u
    ensures demoted == DemotedIds(RowSet(rows))
  {
    hide Older;
    assert rows[..|rows|] == rows;
    forall c | c in rows ensures Outdated(RowSet(rows), c) <==>
        (c.slot.Some? && (c.slot.value, c.stripped) in clusters && c in clusters[(c.slot.value, c.stripped)]
         && BeatenIn(clusters[(c.slot.value, c.stripped)], c))
    {
      if d :| d in RowSet(rows) && SameCluster(c, d) && Older(c, d) {
        assert d in clusters[(c.slot.value, c.stripped)];
      }
    }
  }

  // ------------------------------------------------------------- what it means

  ghost predicate OneIdEach(rows: set<Candidate>) { forall a, b :: a in rows && b in rows && a.uuid == b.uuid ==> a == b }

  ghost function Survivors(rows: set<Candidate>): set<Candidate> { set c | c in rows && c.uuid !in DemotedIds(rows) }

  lemma SurvivorIs(rows: set<Candidate>, c: Candidate)
    requires OneIdEach(rows) && c in rows
    ensures c in Survivors(rows) <==> !Outdated(rows, c)
  {
  }

  /** No two survivors contradict each other, and rows outside any slot are untouched. */
  lemma NoContradictionSurvives(rows: set<Candidate>, a: Candidate, b: Candidate)
    requires OneIdEach(rows) && a in Survivors(rows) && b in Survivors(rows)
    ensures !Contradicts(a, b)
    ensures forall c :: c in rows && c.slot.None? ==> c in Survivors(rows)
  {
    hide Older;
    forall c | c in rows && c.slot.None? ensures c in Survivors(rows) { SurvivorIs(rows, c); }
    SurvivorIs(rows, a);
    SurvivorIs(rows, b);
    assert Contradicts(a, b) ==> SameCluster(a, b) && SameCluster(b, a);
    if a.uuid != b.uuid { OlderTotal(a, b); }
  }

  lemma {:induction false} NewestAbove(rows: set<Candidate>, c: Candidate, above: set<Candidate>) returns (w: Candidate)
    requires OneIdEach(rows) && c in rows && above == set d | d in rows && SameCluster(c, d) && Older(c, d)
    requires above != {}
    ensures w in rows && SameCluster(c, w) && Older(c, w) && !Outdated(rows, w)
    decreases above
  {
    hide Older;
    var d :| d in above;
    if Outdated(rows, d) {
      var beyond := set e | e in rows && SameCluster(d, e) && Older(d, e);
      assert beyond != {} by { var e :| e in rows && SameCluster(d, e) && Older(d, e); assert e in beyond; }
      forall e | e in beyond ensures e in above { OlderTransitive(c, d, e); }
      if d in beyond { OlderIrreflexive(d, d); }
      assert beyond < above;
      w := NewestAbove(rows, d, beyond);
      OlderTransitive(c, d, w);
    } else {
      w := d;
    }
  }

  /** Every demoted row has a newer survivor in its own cluster. */
  lemma DemotedHasNewerSurvivor(rows: set<Candidate>, c: Candidate)
    requires OneIdEach(rows) && c in rows && c.uuid in DemotedIds(rows)
    ensures exists w :: w in Survivors(rows) && SameCluster(c, w) && Older(c, w)
  {
    hide Older;
    SurvivorIs(rows, c);
    var above := set d | d in rows && SameCluster(c, d) && Older(c, d);
    assert above != {} by { var d :| d in rows && SameCluster(c, d) && Older(c, d); assert d in above; }
    var w := NewestAbove(rows, c, above);
    SurvivorIs(rows, w);
  }

  /** A date is missing or before the other. */
  predicate Precedes(a: Option<int>, b: Option<int>) { b.Some? && (a.None? || a.value < b.value) }

  /** So a row is demoted only for one that stays, in its slot and about its object, valid from
      later; failing that created later; failing that with the greater id. */
  lemma DemotedForNewer(rows: set<Candidate>, c: Candidate)
    requires OneIdEach(rows) && c in rows && c.uuid in DemotedIds(rows)
    ensures c.slot.Some?
    ensures exists w :: w in Survivors(rows) && w.slot == c.slot && w.stripped == c.stripped
                        && (Precedes(c.validFrom, w.validFrom)
                            || (c.validFrom == w.validFrom
                                && (Precedes(c.createdAt, w.createdAt) || (c.createdAt == w.createdAt && Less(c.uuid, w.uuid)))))
  {
    hide Less, Survivors, DemotedIds, OneIdEach;
    DemotedHasNewerSurvivor(rows, c);
    var w :| w in Survivors(rows) && SameCluster(c, w) && Older(c, w);
    assert Earlier(c.validFrom, w.validFrom) <==> Precedes(c.validFrom, w.validFrom);
    assert Earlier(c.createdAt, w.createdAt) <==> Precedes(c.createdAt, w.createdAt);
  }

  /** Demoting again changes nothing. */
  lemma DemotionIdempotent(rows: set<Candidate>)
    requires OneIdEach(rows)
    ensures Survivors(Survivors(rows)) == Survivors(rows)
  {
    hide Older;
    forall c | c in Survivors(rows) ensures !Outdated(Survivors(rows), c) { SurvivorIs(rows, c); }
    forall c | c in Survivors(rows) ensures c in Survivors(Survivors(rows)) { SurvivorIs(Survivors(rows), c); }
  }

  /** The documented rule: only rows that some row of their slot contradicts are demoted. */
  ghost predicate DemotesOnlyContradicted(rows: set<Candidate>) {
    forall c :: c in rows && Outdated(rows, c) ==> exists d :: d in rows && Contradicts(c, d)
  }

  /** No two rows repeat one claim about one object without a third denying it. */
  ghost predicate EveryClusterDisputed(rows: set<Candidate>) {
    forall a, b :: a in rows && b in rows && a != b && SameCluster(a, b) ==>
      a.negative != b.negative || exists d :: d in rows && Contradicts(a, d)
  }

  /** The program keeps to the documented rule exactly when every cluster of several
      rows is disputed; a plain duplicate is demoted although nothing contradicts it. */
  lemma KeepsRuleExactly(rows: set<Candidate>)
    requires OneIdEach(rows)
    ensures DemotesOnlyContradicted(rows) <==> EveryClusterDisputed(rows)
  {
    hide Older;
    if EveryClusterDisputed(rows) {
      forall c | c in rows && Outdated(rows, c) ensures exists d :: d in rows && Contradicts(c, d) {
        var d :| d in rows && SameCluster(c, d) && Older(c, d);
        OlderIrreflexive(c, d);
        assert c.negative != d.negative ==> Contradicts(c, d);
      }
    }
    if DemotesOnlyContradicted(rows) {
      forall a, b | a in rows && b in rows && a != b && SameCluster(a, b) && a.negative == b.negative
        ensures exists d :: d in rows && Contradicts(a, d)
      {
        OlderTotal(a, b);
        if Older(a, b) {
          assert Outdated(rows, a);
        } else {
          assert SameCluster(b, a) && Outdated(rows, b);
          var d :| d in rows && Contradicts(b, d);
          assert Contradicts(a, d);
        }
      }
    }
  }

  const FIRST := Candidate("1", Some("user:prefers"), "dark mode", false, Some(1), None)
  const AGAIN := Candidate("2", Some("user:prefers"), "dark mode", false, Some(2), None)

  /** A corroboration is demoted: same slot, same object, same polarity. */
  lemma CorroborationIsDemoted()
    ensures DemotedIds({FIRST, AGAIN}) == {"1"} && !Contradicts(FIRST, AGAIN)
  {
    var rows := {FIRST, AGAIN};
    assert SameCluster(FIRST, AGAIN) && Older(FIRST, AGAIN);
    assert Outdated(rows, FIRST);
    assert !Outdated(rows, AGAIN) by {
      assert !Older(AGAIN, FIRST);
      if Older(AGAIN, AGAIN) { OlderIrreflexive(AGAIN, AGAIN); }
    }
  }
}
