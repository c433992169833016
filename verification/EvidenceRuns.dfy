/** Evidence over whole runs.

    Every entry behind an edge was given by some upsert, and every later call sends the
    edge at an address to another address, leaves it, or drops it. Followed through a
    whole run, that is all there is: nothing is lost on the way and nothing is invented. */
module EvidenceRuns {
  import opened Ids
  import opened Surfaces
  import opened GraphModel
  import opened EdgeFold
  import opened GraphOps
  import opened Journal
  import opened GlobalPass
  import opened AddressBook
  import EdgeVocabulary
  import ReplayProof

  /** The edge at *t* cites the entry *e*. */
  ghost predicate Behind(rels: map<Id, Relation>, t: Triple, e: Id) {
    exists x :: x in rels && Cites(rels[x], t, e)
  }

  predicate Cites(r: Relation, t: Triple, e: Id) { TripleOf(r) == t && e in r.entryIds }

  // --------------------------------------------------------- where edges go

  /** Where a merge or a rename sends the edge at *t*. */
  function Shift(m: Move, t: Triple): Option<Triple> {
    if Moves(m, "", t) then Shifted(m, t) else Some(t)
  }

  /** Where a call sends the edge at *t*: to its address afterwards, or nowhere. */
  ghost function Sends(g: Graph, op: Op, t: Triple): Option<Triple> {
    if Failed(g, op).Some? then Some(t)
    else
      match op
      case Merge(survivor, absorbed, _, _, _, _, now) => Shift(Repoint(Members(absorbed), survivor, None, now), t)
      case Rename(scope, was, becomes) => Shift(Relabel(scope, was, becomes), t)
      case Split(id, parts, _) =>
        if !AtEnd(t, id) then Some(t)
        else
          var x := ByTriple(g.rels, t);
          if x.Some? && x.value in Claims(parts)
          then Some(Reseated(t, id, NodeId(g.sequence + 1 + Claimant(parts, x.value)))) else None
      case Delete(ids) => if exists n :: n in ids && n in g.nodes && AtEnd(t, n) then None else Some(t)
      case Retire(x) => if x in g.rels && TripleOf(g.rels[x]) == t then None else Some(t)
      case _ => Some(t)
  }

  /** The call is an upsert that gives *e* to the edge at *t*. */
  ghost predicate Gives(g: Graph, op: Op, t: Triple, e: Id) {
    op.Upsert? && Failed(g, op).None? && t == Triple(op.scope, op.source, op.typ, op.target) && e in op.entryIds
  }

  /** An edge citing *e* is sent to *t*. */
  ghost predicate Arrives(g: Graph, op: Op, t: Triple, e: Id) {
    exists t0 :: Behind(g.rels, t0, e) && Sends(g, op, t0) == Some(t)
  }

  // --------------------------------------------------------------- one move

  /** An edge citing *e* is moved to, or stays at, *t*. */
  ghost predicate Joins(rels: map<Id, Relation>, m: Move, t: Triple, e: Id) {
    exists x :: x in rels && e in rels[x].entryIds &&
                (if Affected(m, x, rels[x]) then Lands(rels, m, x, t) else TripleOf(rels[x]) == t)
  }

  /** A move leaves an entry behind *t* exactly when an edge citing it went there. */
  lemma MoveJoins(rels: map<Id, Relation>, m: Move, t: Triple, e: Id)
    requires UniqueTriples(rels) && Settles(m)
    ensures Behind(Moved(rels, m), t, e) <==> Joins(rels, m, t, e)
  {
    hide UniqueTriples, FoldAll, Gathered, Affected, Lands, HolderAt;
    var order := Sorted(AffectedIds(rels, m));
    SortedEnumerates(rels, m);
    if Behind(Moved(rels, m), t, e) {
      var x :| x in Moved(rels, m) && Cites(Moved(rels, m)[x], t, e);
      EvidenceConserved(rels, order, m, x, e);
    }
    if Joins(rels, m, t, e) {
      var held := HolderAt(rels, m, t);
      GatheredEvidence(rels, order, m, t, held, e);
      var x :| x in rels && e in rels[x].entryIds &&
               (if Affected(m, x, rels[x]) then Lands(rels, m, x, t) else TripleOf(rels[x]) == t);
      if Affected(m, x, rels[x]) {
        assert x in order && EdgeFold.Brings(rels, order, m, t, e);
      } else {
        HolderIs(rels, m, t, x);
      }
      HolderStands(rels, m, t);
      GatheredCame(rels, order, m, t, held);
      FoldCharacterized(rels, order, m);
      var h := Gathered(rels, order, m, t, held).value;
      assert Entry(FoldAll(rels, order, m), h.0, h.1);
    }
  }

  lemma MoveArrives(rels: map<Id, Relation>, m: Move, t: Triple, e: Id)
    requires UniqueTriples(rels) && Settles(m) && (m.Repoint? ==> m.only.None?)
    ensures Behind(Moved(rels, m), t, e) <==> exists t0 :: Behind(rels, t0, e) && Shift(m, t0) == Some(t)
  {
    hide UniqueTriples, Moved, Affected, Readdressed, Shifted;
    MoveJoins(rels, m, t, e);
    forall x | x in rels
      ensures Shift(m, TripleOf(rels[x])) == Some(t) <==>
              if Affected(m, x, rels[x]) then Lands(rels, m, x, t) else TripleOf(rels[x]) == t
    {
      MoveIsSeen(m, x, rels[x]);
    }
    if Joins(rels, m, t, e) {
      var x :| x in rels && e in rels[x].entryIds &&
               (if Affected(m, x, rels[x]) then Lands(rels, m, x, t) else TripleOf(rels[x]) == t);
      assert Cites(rels[x], TripleOf(rels[x]), e) && Behind(rels, TripleOf(rels[x]), e);
    }
  }

  // --------------------------------------------------------------- one call

  lemma MergeArrives(g: Graph, op: Op, t: Triple, e: Id)
    requires WellFormed(g) && op.Merge? && Failed(g, op).None?
    ensures Behind(After(g, op).rels, t, e) <==> Arrives(g, op, t, e)
  {
    hide WellFormed, MergeNodes, Moved, Behind, Shift;
    MergedFacts(g, op.survivor, op.absorbed, op.name, op.typ, op.facts, op.embedding, op.now);
    UniqueEdges(g);
    assert Members(op.absorbed) == set a | a in op.absorbed;
    MoveArrives(g.rels, Repoint(Members(op.absorbed), op.survivor, None, op.now), t, e);
  }

  lemma RenameArrives(g: Graph, op: Op, t: Triple, e: Id)
    requires WellFormed(g) && op.Rename? && Failed(g, op).None?
    ensures Behind(After(g, op).rels, t, e) <==> Arrives(g, op, t, e)
  {
    hide WellFormed, EdgeTypeOk, Moved, Behind, Shift;
    UniqueEdges(g);
    MoveArrives(g.rels, Relabel(op.scope, op.was, op.becomes), t, e);
  }

  lemma SplitSends(g: Graph, op: Op, x: Id)
    requires WellFormed(g) && op.Split? && Failed(g, op).None? && x in g.rels
    ensures var rels := After(g, op).rels;
            && (x in rels <==> Sends(g, op, TripleOf(g.rels[x])).Some?)
            && (x in rels ==> Sends(g, op, TripleOf(g.rels[x])) == Some(TripleOf(rels[x]))
                              && rels[x].entryIds == g.rels[x].entryIds)
  {
    hide WellFormed, SplitNode, NodeId, Claims, Reseated;
    UniqueEdges(g);
    SplitEdgeFacts(g, op.id, op.parts, op.now);
    ByTripleUnique(g.rels, TripleOf(g.rels[x]));
    TouchingIs(g.rels[x], op.id);
    if x in Claims(op.parts) {
      ClaimedNoted(g, op.id, op.parts, op.now, x);
      var i := ClaimantExists(op.parts, x);
    }
  }

  lemma SplitArrives(g: Graph, op: Op, t: Triple, e: Id)
    requires WellFormed(g) && op.Split? && Failed(g, op).None?
    ensures Behind(After(g, op).rels, t, e) <==> Arrives(g, op, t, e)
  {
    hide WellFormed, SplitNode, Claims, Sends;
    SplitEdgeFacts(g, op.id, op.parts, op.now);
    var rels := After(g, op).rels;
    if Behind(rels, t, e) {
      var x :| x in rels && Cites(rels[x], t, e);
      SplitSends(g, op, x);
      assert Cites(g.rels[x], TripleOf(g.rels[x]), e);
      assert Behind(g.rels, TripleOf(g.rels[x]), e);
    }
    if Arrives(g, op, t, e) {
      var x := Arriving(g, op, t, e);
      SplitSends(g, op, x);
      assert Cites(rels[x], t, e);
    }
  }

  lemma Arriving(g: Graph, op: Op, t: Triple, e: Id) returns (x: Id)
    requires Arrives(g, op, t, e)
    ensures x in g.rels && e in g.rels[x].entryIds && Sends(g, op, TripleOf(g.rels[x])) == Some(t)
  {
    hide Sends;
    var t0 :| Behind(g.rels, t0, e) && Sends(g, op, t0) == Some(t);
    x :| x in g.rels && Cites(g.rels[x], t0, e);
  }

  /** What a deletion or a retirement leaves is what it sends where it was. */
  predicate Leaves(rels: map<Id, Relation>, after: map<Id, Relation>) {
    forall x :: x in after ==> x in rels && after[x] == rels[x]
  }

  lemma DropArrives(g: Graph, op: Op, t: Triple, e: Id)
    requires Leaves(g.rels, After(g, op).rels)
    requires forall t0 :: Sends(g, op, t0).Some? ==> Sends(g, op, t0).value == t0
    requires forall x :: x in g.rels ==> (x in After(g, op).rels <==> Sends(g, op, TripleOf(g.rels[x])).Some?)
    ensures Behind(After(g, op).rels, t, e) <==> Arrives(g, op, t, e)
  {
    hide After, Sends;
    var rels := After(g, op).rels;
    if Behind(rels, t, e) {
      var x :| x in rels && Cites(rels[x], t, e);
      assert Behind(g.rels, t, e);
    }
    if Arrives(g, op, t, e) {
      var x := Arriving(g, op, t, e);
      assert x in rels && Cites(rels[x], t, e);
    }
  }

  lemma DeleteArrives(g: Graph, op: Op, t: Triple, e: Id)
    requires op.Delete?
    ensures Behind(After(g, op).rels, t, e) <==> Arrives(g, op, t, e)
  {
    hide Behind, Arrives;
    forall x | x in g.rels ensures x in After(g, op).rels <==> Sends(g, op, TripleOf(g.rels[x])).Some? {
      var gone := set i | i in op.ids && i in g.nodes;
      assert Touches(g.rels[x], gone) <==> exists n :: n in gone && AtEnd(TripleOf(g.rels[x]), n);
      assert gone == {} ==> !Touches(g.rels[x], gone);
      assert x in After(g, op).rels <==> !Touches(g.rels[x], gone);
    }
    DropArrives(g, op, t, e);
  }

  lemma RetireArrives(g: Graph, op: Op, t: Triple, e: Id)
    requires WellFormed(g) && op.Retire?
    ensures Behind(After(g, op).rels, t, e) <==> Arrives(g, op, t, e)
  {
    hide Behind, Arrives, WellFormed;
    UniqueEdges(g);
    DropArrives(g, op, t, e);
  }

  lemma StayArrives(g: Graph, op: Op, t: Triple, e: Id)
    requires After(g, op).rels == g.rels && forall t0 :: Sends(g, op, t0) == Some(t0)
    ensures Behind(After(g, op).rels, t, e) <==> Arrives(g, op, t, e)
  {
    hide After, Sends, Behind;
    if Behind(g.rels, t, e) { assert Sends(g, op, t) == Some(t); }
  }

  lemma FailureKeepsEdges(g: Graph, op: Op)
    requires Failed(g, op).Some? || op.Create? || op.Alias? || op.Rewrite? || op.Dirty? || op.Clean? || op.Read?
    ensures After(g, op).rels == g.rels
  {
    hide Moved, SplitInto, ByTriple, EdgeTypeOk, StatementOk, UnitNorm, Canonical, Deleting, AbsorbedSurfaces, Claims,
      Union, NodeId, RelationId, AnyBlank;
  }

  lemma UpsertArrives(g: Graph, op: Op, t: Triple, e: Id)
    requires WellFormed(g) && op.Upsert? && Failed(g, op).None?
    ensures Behind(After(g, op).rels, t, e) <==> Gives(g, op, t, e) || Arrives(g, op, t, e)
  {
    hide WellFormed, UpsertRelation, RelationId, EdgeTypeOk, StatementOk;
    UpsertedEdge(g, op.scope, op.source, op.target, op.typ, op.claim, op.entryIds, op.until, op.now);
    UpsertedStatement(g, op.scope, op.source, op.target, op.typ, op.claim, op.entryIds, op.until, op.now);
    var rels := After(g, op).rels;
    var x := UpsertRelation(g, op.scope, op.source, op.target, op.typ, op.claim, op.entryIds, op.until, op.now).result.value;
    if Behind(rels, t, e) {
      var y :| y in rels && Cites(rels[y], t, e);
      if y in g.rels && e in g.rels[y].entryIds {
        assert Cites(g.rels[y], t, e);
        assert Behind(g.rels, t, e) && Sends(g, op, t) == Some(t);
      }
    }
    if Gives(g, op, t, e) { assert Cites(rels[x], t, e); }
    if Arrives(g, op, t, e) {
      assert Behind(g.rels, t, e);
      var y :| y in g.rels && Cites(g.rels[y], t, e);
      assert Cites(rels[y], t, e);
    }
  }

  /** One call: what is behind *t* afterwards was given by the call, or was behind an
      address the call sends to *t*. */
  lemma StepConserves(g: Graph, op: Op, t: Triple, e: Id)
    requires WellFormed(g)
    ensures Behind(After(g, op).rels, t, e) <==> Gives(g, op, t, e) || Arrives(g, op, t, e)
  {
    hide WellFormed, After, Failed, Behind, Arrives;
    if Failed(g, op).Some? || op.Create? || op.Alias? || op.Rewrite? || op.Dirty? || op.Clean? || op.Read? {
      FailureKeepsEdges(g, op);
      StayArrives(g, op, t, e);
    } else if op.Merge? {
      MergeArrives(g, op, t, e);
    } else if op.Rename? {
      RenameArrives(g, op, t, e);
    } else if op.Split? {
      SplitArrives(g, op, t, e);
    } else if op.Upsert? {
      UpsertArrives(g, op, t, e);
    } else if op.Delete? {
      DeleteArrives(g, op, t, e);
      OnlyUpsertsGive(g, op, t, e);
    } else {
      RetireArrives(g, op, t, e);
      OnlyUpsertsGive(g, op, t, e);
    }
  }

  lemma OnlyUpsertsGive(g: Graph, op: Op, t: Triple, e: Id)
    requires !op.Upsert?
    ensures !Gives(g, op, t, e)
  {
  }

  // -------------------------------------------------------------- whole runs

  /** Where calls[i..] carry the edge that stood at *t* just before them. */
  ghost function Carried(calls: seq<Call>, i: nat, t: Triple): Option<Triple>
    requires i <= |calls|
    decreases |calls|
  {
    if i == |calls| then Some(t)
    else
      var before, last := calls[..|calls| - 1], calls[|calls| - 1];
      match Carried(before, i, t)
      case None => None
      case Some(u) => Sends(Run(before).graph, last.op, u)
  }

  /** The *i*-th call gave *e* to the edge at *t*. */
  ghost predicate Gave(calls: seq<Call>, i: nat, t: Triple, e: Id)
    requires i < |calls|
  {
    Gives(Run(calls[..i]).graph, calls[i].op, t, e)
  }

  /** Some call gave *e* to an address that the later calls carry to *t*. */
  ghost predicate Brought(calls: seq<Call>, t: Triple, e: Id) {
    exists i: nat, t0: Triple :: i < |calls| && BroughtBy(calls, i, t0, t, e)
  }

  ghost predicate BroughtBy(calls: seq<Call>, i: nat, t0: Triple, t: Triple, e: Id)
    requires i < |calls|
  {
    Gave(calls, i, t0, e) && Carried(calls, i + 1, t0) == Some(t)
  }

  lemma BroughtStep(calls: seq<Call>, t: Triple, e: Id)
    requires calls != []
    ensures var before, last := calls[..|calls| - 1], calls[|calls| - 1];
            Brought(calls, t, e) <==>
            Gives(Run(before).graph, last.op, t, e) ||
            exists u :: Brought(before, u, e) && Sends(Run(before).graph, last.op, u) == Some(t)
  {
    hide Run, Gives, Sends;
    var before, last := calls[..|calls| - 1], calls[|calls| - 1];
    var g := Run(before).graph;
    assert forall i: nat :: i < |before| ==> before[..i] == calls[..i] && before[i] == calls[i];
    if Brought(calls, t, e) {
      var i: nat, t0: Triple :| i < |calls| && BroughtBy(calls, i, t0, t, e);
      if i < |before| {
        assert before[..i] == calls[..i];
        var u := Carried(before, i + 1, t0).value;
        assert BroughtBy(before, i, t0, u, e);
        assert Brought(before, u, e);
      }
    }
    if Gives(g, last.op, t, e) {
      assert calls[..|calls| - 1] == before;
      assert BroughtBy(calls, |calls| - 1, t, t, e);
    }
    if u :| Brought(before, u, e) && Sends(g, last.op, u) == Some(t) {
      var i: nat, t0: Triple :| i < |before| && BroughtBy(before, i, t0, u, e);
      assert before[..i] == calls[..i];
      assert BroughtBy(calls, i, t0, t, e);
    }
  }

  /** After any run in which no merge fails midway, the entries behind the edge at *t*
      are exactly those some upsert gave to an address the later calls carried to *t*. */
  lemma {:induction false} EvidenceOverRuns(calls: seq<Call>, t: Triple, e: Id)
    requires ReplayProof.NoneMidway(calls)
    ensures Behind(Run(calls).graph.rels, t, e) <==> Brought(calls, t, e)
    decreases |calls|
  {
    hide WellFormed, After, EventFor, FailsMidway, Brought, Gives, Sends, Behind;
    if calls == [] {
      NothingYet(t, e);
    } else {
      var before, last := calls[..|calls| - 1], calls[|calls| - 1];
      ReplayProof.RunsKeepInvariants(before);
      StepConserves(Run(before).graph, last.op, t, e);
      forall u ensures Behind(Run(before).graph.rels, u, e) <==> Brought(before, u, e) {
        EvidenceOverRuns(before, u, e);
      }
      BroughtStep(calls, t, e);
    }
  }

  lemma NothingYet(t: Triple, e: Id)
    ensures !Behind(Run([]).graph.rels, t, e) && !Brought([], t, e)
  {
  }

  /** So the evidence of every surviving edge is exactly what was brought to its address. */
  lemma SurvivingEvidence(calls: seq<Call>, x: Id, e: Id)
    requires ReplayProof.NoneMidway(calls) && x in Run(calls).graph.rels
    ensures e in Run(calls).graph.rels[x].entryIds <==> Brought(calls, TripleOf(Run(calls).graph.rels[x]), e)
  {
    hide WellFormed, Run, Brought;
    var rels := Run(calls).graph.rels;
    ReplayProof.RunsKeepInvariants(calls);
    UniqueEdges(Run(calls).graph);
    EvidenceOverRuns(calls, TripleOf(rels[x]), e);
    if e in rels[x].entryIds { assert Cites(rels[x], TripleOf(rels[x]), e); }
  }

  // ------------------------------------------------------ a whole compaction

  predicate AllRename(ops: seq<Op>) { forall i :: 0 <= i < |ops| ==> ops[i].Rename? }

  function Relabelled(op: Op, t: Triple): Triple
    requires op.Rename?
  {
    if t.scope == op.scope && t.typ == op.was then t.(typ := op.becomes) else t
  }

  /** The address an edge at *t* has once the renames have been made in order. */
  function Folded(ops: seq<Op>, t: Triple): Triple
    requires AllRename(ops)
    decreases |ops|
  {
    if ops == [] then t
    else
      assert forall i :: 0 <= i < |ops[1..]| ==> ops[1..][i] == ops[i + 1];
      Folded(ops[1..], Relabelled(ops[0], t))
  }

  lemma RenameSends(g: Graph, op: Op, t: Triple)
    requires op.Rename? && Failed(g, op).None?
    ensures Sends(g, op, t) == Some(Relabelled(op, t))
  {
    hide Failed;
  }

  /** A compaction that goes through keeps every entry, and puts it behind the folded
      address of the edge that cited it and nowhere else. */
  lemma {:induction false} CompactionConserves(g: Graph, ops: seq<Op>, t: Triple, e: Id)
    requires WellFormed(g) && AllRename(ops) && Apply(g, ops).result.Ok?
    ensures Behind(Apply(g, ops).graph.rels, t, e) <==> exists t0 :: Behind(g.rels, t0, e) && Folded(ops, t0) == t
    decreases |ops|
  {
    hide WellFormed, After, Failed, Sends, Behind, Gives;
    if ops != [] {
      var op, rest := ops[0], ops[1..];
      assert AllRename(rest) by { assert forall i :: 0 <= i < |rest| ==> rest[i] == ops[i + 1]; }
      RenamePassOp(g, op);
      CompactionConserves(After(g, op), rest, t, e);
      forall u ensures Behind(After(g, op).rels, u, e) <==> Arrives(g, op, u, e) {
        StepConserves(g, op, u, e);
        OnlyUpsertsGive(g, op, u, e);
      }
      forall t0 ensures Sends(g, op, t0).Some? && Folded(ops, t0) == Folded(rest, Sends(g, op, t0).value) {
        RenameSends(g, op, t0);
      }
      if u :| Behind(After(g, op).rels, u, e) && Folded(rest, u) == t {
        var t0 :| Behind(g.rels, t0, e) && Sends(g, op, t0) == Some(u);
        assert Folded(ops, t0) == t;
      }
      if t0 :| Behind(g.rels, t0, e) && Folded(ops, t0) == t {
        var u := Sends(g, op, t0).value;
        assert Arrives(g, op, u, e);
        assert Behind(After(g, op).rels, u, e) && Folded(rest, u) == t;
      }
    }
  }

  lemma RenamePassOp(g: Graph, op: Op)
    requires WellFormed(g) && op.Rename? && Failed(g, op).None?
    ensures WellFormed(After(g, op))
  {
    hide WellFormed, Failed, After;
    PassOpKeepsWellFormed(g, op);
  }

  /** A rename under which nothing else comes to an edge's address leaves all of the
      edge but its label. */
  lemma RenameKeepsStatement(g: Graph, op: Op, x: Id)
    requires WellFormed(g) && op.Rename? && Failed(g, op).None? && x in g.rels
    requires forall y :: y in g.rels && y != x ==> Relabelled(op, TripleOf(g.rels[y])) != Relabelled(op, TripleOf(g.rels[x]))
    ensures x in After(g, op).rels && After(g, op).rels[x] == g.rels[x].(typ := Relabelled(op, TripleOf(g.rels[x])).typ)
  {
    hide WellFormed, EdgeTypeOk, FoldAll, Gathered, HolderAt, UniqueTriples, Absorbed, Union;
    var m, t := Relabel(op.scope, op.was, op.becomes), TripleOf(g.rels[x]);
    UniqueEdges(g);
    if Affected(m, x, g.rels[x]) {
      ByTripleUnique(g.rels, t.(typ := op.becomes));
      EdgeVocabulary.RenameKeepsBeliefs(g, op.scope, op.was, op.becomes, x);
    } else {
      var order := Sorted(AffectedIds(g.rels, m));
      SortedEnumerates(g.rels, m);
      FoldCharacterized(g.rels, order, m);
      HolderIs(g.rels, m, t, x);
      GatheredNone(g.rels, order, m, t, HolderAt(g.rels, m, t));
      assert Entry(FoldAll(g.rels, order, m), x, g.rels[x]);
    }
  }

  /** And over a whole compaction, an edge no other edge is folded into keeps its claim,
      marker, evidence and dates. */
  lemma {:induction false} CompactionKeepsStatements(g: Graph, ops: seq<Op>, x: Id)
    requires WellFormed(g) && AllRename(ops) && Apply(g, ops).result.Ok? && x in g.rels
    requires forall y :: y in g.rels && y != x ==> Folded(ops, TripleOf(g.rels[y])) != Folded(ops, TripleOf(g.rels[x]))
    ensures x in Apply(g, ops).graph.rels
    ensures Apply(g, ops).graph.rels[x] == g.rels[x].(typ := Folded(ops, TripleOf(g.rels[x])).typ)
    decreases |ops|
  {
    hide WellFormed, After, Failed, Moved;
    if ops != [] {
      var op, rest := ops[0], ops[1..];
      assert AllRename(rest) by { assert forall i :: 0 <= i < |rest| ==> rest[i] == ops[i + 1]; }
      RenamePassOp(g, op);
        RenameKeepsStatement(g, op, x);
      forall y | y in After(g, op).rels
        ensures y in g.rels && TripleOf(After(g, op).rels[y]) == Relabelled(op, TripleOf(g.rels[y]))
      {
        RenameFolds(g, op, y);
      }
      CompactionKeepsStatements(After(g, op), rest, x);
    }
  }

  lemma RenameFolds(g: Graph, op: Op, y: Id)
    requires WellFormed(g) && op.Rename? && Failed(g, op).None? && y in After(g, op).rels
    ensures y in g.rels && TripleOf(After(g, op).rels[y]) == Relabelled(op, TripleOf(g.rels[y]))
  {
    hide WellFormed, EdgeTypeOk, Moved, UniqueTriples;
    var m := Relabel(op.scope, op.was, op.becomes);
    UniqueEdges(g);
    MovedFacts(g.rels, m);
    assert Came(g.rels, m, y, Moved(g.rels, m)[y]);
    RelabelSeen(op, y, g.rels[y], TripleOf(Moved(g.rels, m)[y]), g.rels);
  }

  lemma RelabelSeen(op: Op, x: Id, r: Relation, t: Triple, rels: map<Id, Relation>)
    requires op.Rename? && x in rels && rels[x] == r
    ensures var m := Relabel(op.scope, op.was, op.becomes);
            (if Affected(m, x, r) then Lands(rels, m, x, t) else t == TripleOf(r)) <==> t == Relabelled(op, TripleOf(r))
  {
  }
}
