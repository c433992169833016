# Memotron, verified

A Dafny model of the parts of Memotron whose correctness cannot be read off one
function body: the concept ("caveman") graph with its journal and replay, the
compression passes that squeeze it, the truth slots of the fact store with their
gate, re-keying and epochs, the two concurrency protocols (dream-work claims and
tenant migration), and the bounded read. Everything is proved for all inputs and
all runs. Where the program does not keep what its documentation says, the
program's behaviour is what is modelled; a lemma gives a concrete failing run,
and another says exactly when the promise holds.

`dafny verify dfyconfig.toml` checks the project.

## How it is organised

- **Concept graph.** `Ids`, `Surfaces`, `GraphModel`, `EdgeFold`, `GraphOps`
  define ids, evidence and alias unions, the fold of colliding edges, and every
  write as a state transition with its error cases. `GraphStore` is the mutable
  store, proved to perform those transitions in place. `EvidenceRuns` traces
  every entry behind an edge through whole runs and whole compactions, `EdgeDates`
  says what else a moved edge keeps, `NodeContents` what every write and a whole
  accepted answer leave the nodes saying.
- **Journal and replay.** `Journal`, `Replay`, `ReplayEdges`, `ReplaySteps`,
  `ReplayMerge`, `ReplaySplit`, `ReplayScopes`, `ReplayProof`, `ReplayGuarantee`,
  `ContentDigest`, `ReplayLimits`, `JournaledStore`, `EventContents` (what is
  journalled, as what). A scope's events, applied to
  an empty store that mints its own ids, rebuild the scope up to a renaming of
  ids exactly when every call of the run was safe.
- **Compression.** `Slate` and `SlateEvidence` (the forced pairs and what
  warrants them), `GlobalPass` (the calls of a
  pass), `AddressBook` (what a pass will find, foretold from ids, names and
  addresses), `GlobalAnswer` (what the validation accepts), `NodeBudget` (the
  node ceiling and the forced passes), `EdgeVocabulary` (the edge-type ceiling),
  `GlobalLimits` (answers that break a promise), `Compression` (names and
  evidence over whole runs of passes).
- **Truth slots.** `TruthSlots` (what one candidate does), `TruthUpkeep` (what
  decides its outcome and what each step leaves, in the fields themselves),
  `TruthTallies` (sightings and confidence over whole runs), `TruthLinks` and
  `TruthLoops` (the superseded-by links), `TruthSettled` (one current fact a
  slot, and the repair), `TruthGate` (authority, corroboration, recency),
  `TruthQuorum` (corroboration over whole runs),
  `TruthOverrides` (temporary facts), `TruthKeys` and `TruthSweeps` (re-keying),
  `TruthRekeyed` (what re-keying does to the slots), `TruthStore` (the mutable
  store), `TruthLimits` (runs that break a promise), `Demotion`, `Confidence`,
  `Ranking`.
- **Epochs.** `Epochs`, `EpochProof`, `EpochFaces`, `EpochStore`: adopt and rollback.
- **Protocols.** `Claims`, `Migration` and `MigrationCheck`, as steps over arbitrary interleavings.
- **Reading.** `ReadOrder`, `ReadBlocks`, `Rendered`.

## What turned out false, and exactly when it holds

- *Replaying the journal reproduces the scope.* Not after a merge of several
  nodes whose edges collide in an order that differs from the live one, nor for a
  split whose claimed edge restates something a new edge may not say, nor for a
  deletion across scopes, nor on a clock that runs back
  (`ReplayLimits`). Exactly when every call is safe:
  `ReplayProof.ReplayTracksExactly`; from conditions on the live run alone:
  `ReplayGuarantee.ReplayGuaranteed`.
- *Equal digests prove equal graphs.* Not when two nodes of a scope assert the
  same (`ContentDigest.TwinGraphsExist`). They do when no two nodes assert the same
  (`ContentDigest.DigestDetermines`), which is sufficient and not necessary: twins
  without edges leave the graph determined too.
- *A global pass leaves at most M edge types.* A rewrite may coin a type
  (`GlobalLimits.AcceptedAnswerBreaksBound`); exactly which types are left,
  and so when they are too many, can be read off ids and addresses before the first
  write: `EdgeVocabulary.BoundKeptExactly`.
- *A global pass is all or nothing.* It may stop halfway
  (`GlobalLimits.AcceptedAnswerStopsHalfway`); an accepted answer is applied
  whole exactly when `GlobalAnswer.AppliesWholeExactly` says, which can be read
  off ids, names and addresses before the first write.
- *The forced slate brings the scope to its budget.* Exactly when no doomed node
  has a blank name (`NodeBudget.SlateSuffices`).
- *Each episode is processed once.* Not when a run outlives its 900-second claim,
  or stops between writing and marking (`Claims.OutlivingMaterialisesTwice`,
  `Claims.KillBetweenMaterialisesTwice`, `Claims.ExitBetweenMaterialisesTwice`);
  otherwise it is (`Claims.AtMostOnce`), and exactly when a write is a second
  one: `Claims.RepeatsExactly`.
- *Migration never loses a write.* A first fact written between the preview and
  the watermark is purged uncopied (`Migration.LateFirstFactIsLost`), as is an
  edit outside the hashed fields (`Migration.UnhashedEditUnnoticed`) and one that
  is taken back (`Migration.UndoneEditIsLost`). Exactly what is lost, over every
  interleaving: `Migration.PurgedIsCopied` for a scope,
  `Migration.PurgeLosesExactly` row by row; the evidence plane and inactive rows
  always are. Exactly which scopes a purge reaches, copied or not:
  `Migration.PurgeReachesExactly`.
- *A single-active slot shows one fact.* Not after generated output repeats a
  stored fact (`TruthLimits.GeneratedRepeatDoubles`), nor after an archived row is
  revived into a slot that was taken meanwhile. Exactly when:
  `TruthSettled.OneFactExactly`.
- *Lower authority never displaces current truth without approval.* A read may
  revive a parked challenger whose retention ran out, and the next repair, which
  looks at starts and not at authority, prefers it
  (`TruthLimits.ReadOverturnsTruth`). Exactly when it does not:
  `TruthGate.AuthorityRespectedExactly`. Formation alone cannot do it
  (`TruthGate.AuthorityNeverSinks`).
- *An established fact yields to an equal voice only after enough observations.*
  The same path brings in a challenge made once: parked, archived, revived by a
  read and preferred by the repair for its later start, while authority is
  respected throughout (`TruthLimits.OneVoiceTopples`). Exactly when it yields by
  quorum, recency or approval alone: `TruthQuorum.QuorumRespectedExactly`. The
  observations counted are those parked before, and copies of them restored
  (`TruthQuorum.VoicesAreHeard`).
- *The superseded-by links are acyclic, and current truth is not superseded.* The
  run of `TruthLimits.ReadOverturnsTruth` closes a circle. Exactly when there is none: `TruthLoops.AcyclicExactly`,
  `TruthLoops.RootedExactly`.
- *Higher-authority corrections always flip instantly.* Not against a row whose
  claimed start lies in the future (`TruthLimits.FutureStartHolds`); exactly when
  no rival starts later (`TruthGate.CorrectionLandsExactly`).
- *Effective starts never decrease along superseded-by links.* An old observation
  that reinforces a successor, or an approval of an older challenger, breaks it;
  exactly when: `TruthLinks.HistoryOrderedExactly`.
- *A temporary fact gives way to its predecessor when it ends.* Not when it was
  itself overridden for longer (`TruthLimits.NestedOverrideEmptiesSlot`); exactly
  when, and what the slot then shows: `TruthOverrides.OverrideEndsExactly`.
- *Live truth keys are those recomputed from scratch.* A declared alias activates
  without re-keying, and revived or restored rows keep a frozen key; exactly
  when: `TruthKeys.KeysFreshExactly`. A sweep may put two facts in one slot
  (`TruthRekeyed.SweepSettlesExactly`); the repair takes them apart
  (`TruthRekeyed.RepairRestores`).
- *Rollback restores the pre-adopt state.* Not when the branch changed a fact it
  inherited (`EpochStore.ReinforcedCopyOutlivesRollback`); exactly when:
  `EpochProof.RollbackRestoresExactly`. *Rows the selection never touched are
  never written:* a row written after the branch was cut is retired
  (`EpochProof.SurvivesExactly`).
- *Contradiction demotion leaves non-contradicting rows alone.* A corroboration
  is demoted (`Demotion.CorroborationIsDemoted`); exactly when:
  `Demotion.KeepsRuleExactly`.
- *Ranking is independent of how candidates were assembled.* Exactly when no two
  different candidates share the sort key
  (`ReadOrder.RankIgnoresAssemblyExactly`). *Blocks holding a rule come before
  those that do not:* only counting rules that were emitted
  (`ReadBlocks.FoldTakesAnOnlyRule`, `ReadBlocks.ReadKeepsFloorOrder`).
- *A rendered read gives every node's lines back.* Not when a line holds a
  Unicode separator (`Rendered.SeparatorSplitsAFact`); exactly when:
  `Rendered.ReadComesBackExactly`.

## Model

| member | source | states |
|---|---|---|
| Ids.NumOfRendered | src/memotron/caveman/graph.py:172-181 | A rendered id gives back the number it was minted from, so two mints never collide. |
| Ids.MintOrderBelowThousand | src/memotron/caveman/graph.py:172-181 | Up to 999, the string order every walk uses is minting order. |
| Ids.MintOrderBreaksAtThousand | src/memotron/caveman/graph.py:172-181 | The thousandth id sorts before the 999th, so walks stop following minting order. |
| Surfaces.UnionHolds | src/memotron/caveman/graph.py:138-153 | Evidence union keeps every entry of both lists and adds none. |
| Surfaces.UnionRestates | src/memotron/caveman/graph.py:138-153 | Uniting a union with what it was made of changes nothing. |
| Surfaces.CanonicalRoutes | src/memotron/caveman/models.py:558-590 | The canonical alias set routes exactly the search keys of the name and the given aliases. |
| Surfaces.NormalizeAliases | src/memotron/caveman/models.py:558-590 | The loop yields that set, or refuses when some alias is blank. |
| EdgeFold.FoldCharacterized | src/memotron/caveman/graph.py:697-740 | After re-pointing in any order, each address holds exactly the edge computed from what stood and what landed there. |
| EdgeFold.EvidenceConserved | src/memotron/caveman/graph.py:697-740 | The evidence on each surviving triple is the union of the entries of all edges that stood at or moved onto it. |
| EdgeDates.MovedSays | src/memotron/caveman/graph.py:697-740 | After a move an edge keeps the claim and marker of its id; its first date is the earliest of all edges that came to it, its last at least that of each, now if any was re-pointed, except that the edge re-pointed first is seen now whatever it was. |
| EvidenceRuns.StepConserves | src/memotron/caveman/graph.py:553-740 | After one call, failed ones included, an entry is behind an address exactly when the call gave it there or sent an edge citing it there: a merge or rename by its re-addressing, a split to the claiming part, a deletion or retirement nowhere. |
| EvidenceRuns.EvidenceOverRuns | README.md:1149-1161 | Over every run in which no merge fails midway, an entry is behind an address exactly when some upsert gave it to an address that the later calls carry there. |
| EvidenceRuns.SurvivingEvidence | README.md:1149-1161 | So the evidence of every surviving edge is exactly what was brought to its address. |
| EvidenceRuns.CompactionConserves | README.md:1092-1104 | A whole compaction keeps every entry, behind the folded address of the edge that cited it and nowhere else. |
| EvidenceRuns.CompactionKeepsStatements | README.md:1100-1104 | An edge no other edge is folded into keeps its claim, marker, evidence and dates through a whole compaction. |
| EdgeFold.OrderIrrelevant | src/memotron/caveman/graph.py:697-740 | Without collisions the outcome does not depend on the order edges are met in. |
| GraphOps.MergeKeepsWellFormed | src/memotron/caveman/graph.py:369-417 | A merge that does not fail midway leaves endpoints live, no self-loop and one edge per triple. |
| GraphOps.MergedFacts | src/memotron/caveman/graph.py:369-417 | The absorbed nodes are gone, every other node is as it was, the survivor stays in its scope, edges are re-pointed and folded, and no counter moves. |
| GraphOps.MergedSurvivor | src/memotron/caveman/graph.py:369-417 | The survivor takes the stated name, type, lines and vector and keeps its scope, read count, dates and dirt; no surface it takes over is blank. |
| NodeContents.MergedRoutes | src/memotron/caveman/graph.py:369-417 | A merged node is found under its name, every alias it had and every name and alias of a node it absorbed, and under nothing else. |
| NodeContents.CreatedNode | src/memotron/caveman/graph.py:287-325 | A creation succeeds exactly on a unit vector, no blank alias and a valid record; the node says what was given, is dirty, unread and undreamed, and is found under its name and exactly those aliases; nothing else differs. |
| NodeContents.AliasedNode | src/memotron/caveman/graph.py:327-339 | An alias union routes every surface it did and every one given, to a node otherwise as it was, or is refused without effect. |
| NodeContents.RewrittenNode | src/memotron/caveman/graph.py:341-367 | A rewritten node says exactly the given lines under the given type and vector, is touched now and keeps everything else; every other node and every edge is as it was; a refusal changes nothing. |
| NodeContents.PartSaysNothing | src/memotron/caveman/graph.py:418-477 | A part has its stated name and type in the parent's scope and no lines, vector or aliases yet. |
| NodeContents.DeletedNodes | src/memotron/caveman/graph.py:478-489 | The listed nodes that exist and every edge that ends at one go, and nothing else. |
| NodeContents.BookkeepingMarks | src/memotron/caveman/graph.py:741-773 | Marking makes exactly the listed nodes dirty besides those that were, clearing makes exactly them clean and stamps them, and a read counts every mention. |
| NodeContents.RecordLimits | src/memotron/caveman/models.py:512-522 | An edge type of capitals is accepted exactly from 2 to 32 characters, a claim up to 400, a marker up to 40, a node name up to 40 and type up to 24. |
| GraphOps.UpsertedEdge | src/memotron/caveman/graph.py:553-627 | An upsert sets exactly one edge, the only one with the stated identity: the holder of the triple, or a fresh id. |
| GraphOps.UpsertedStatement | src/memotron/caveman/graph.py:553-627 | That edge carries the old and the given evidence; a stated claim brings its marker, an unstated one leaves both; its age is kept. |
| GraphOps.SplitNodeFacts | src/memotron/caveman/graph.py:418-477 | A split replaces the parent by one fresh node per part and touches no other node. |
| GraphOps.SplitEdgeFacts | src/memotron/caveman/graph.py:418-477 | A claimed edge keeps its id on its part; an unclaimed one goes with the parent. |
| GraphStore.InMemoryGraph.CreateNode | src/memotron/caveman/graph.py:287-325 | Creating in place is the specified transition, errors included. |
| GraphStore.InMemoryGraph.AddAliases | src/memotron/caveman/graph.py:327-339 | Aliases are united in place; a blank one is refused without effect. |
| GraphStore.InMemoryGraph.Repoint | src/memotron/caveman/graph.py:697-740 | The loop over sorted ids drops, folds or moves each edge exactly as the fold specifies. |
| GraphStore.InMemoryGraph.MergeNodes | src/memotron/caveman/graph.py:369-417 | The in-place merge ends in the specified graph, or fails as specified. |
| GraphStore.InMemoryGraph.SplitNode | src/memotron/caveman/graph.py:418-477 | The in-place split ends in the specified graph; claims are checked before anything is written. |
| GraphStore.InMemoryGraph.UpsertRelation | src/memotron/caveman/graph.py:553-627 | Exactly one edge changes, with every refusal of the store. |
| GraphStore.InMemoryGraph.RenameEdgeType | src/memotron/caveman/graph.py:657-687 | Relabelling one edge at a time, in any order, is the specified fold. |
| GraphStore.InMemoryGraph.DeleteNodes | src/memotron/caveman/graph.py:478-490 | The listed nodes that exist and every edge touching them go; unknown ids are ignored. |
| Journal.ReplayOrderIsAppendOrder | src/memotron/caveman/ledger.py:488-520 | Events come back in the order they were made exactly when the clock never ran back within the scope. |
| Journal.PerformKeepsWellFormed | src/memotron/caveman/graph.py:809-1208 | One journalled call keeps the graph well formed unless a merge fails midway. |
| EventContents.JournalledExactly | src/memotron/caveman/graph.py:843-900 | A call appends an event exactly when it succeeded, was not bookkeeping and, if a deletion, found something. |
| EventContents.RewriteJournalled | src/memotron/caveman/graph.py:998-1030 | A rewrite is journalled as a retyping exactly when it kept the lines and changed the type, with what the node then says. |
| ReplayProof.RunsKeepInvariants | src/memotron/caveman/graph.py:809-1208 | Over every run in which no merge fails midway the graph stays well formed and no edge is ever without evidence. |
| JournaledStore.JournaledGraph.MergeNodes | src/memotron/caveman/graph.py:1032-1071 | The wrapper performs the merge and appends exactly its event, only on success. |
| JournaledStore.Replayer.RestoreRelation | src/memotron/caveman/replay.py:168-191 | Restoring an edge from its recorded content is the specified upsert on translated ids. |
| JournaledStore.ReplayScope | src/memotron/caveman/replay.py:268-297 | The loop over a scope's events yields the specified replay, or stops where it must. |
| ReplayEdges.MoveReplaysExactly | src/memotron/caveman/replay.py:193-266 | A replayed re-pointing leaves the live edges up to renaming if and only if every collision agrees. |
| ReplayMerge.MergeReplaysExactly | src/memotron/caveman/replay.py:193-266 | A merge replays exactly when colliding absorbed edges are met in one order by both stores. |
| ReplayMerge.StepMergedOne | src/memotron/caveman/replay.py:193-266 | Absorbing a single node always replays. |
| ReplaySplit.StepSplit | src/memotron/caveman/replay.py:193-266 | A split replays exactly when every claimed edge still says what a fresh edge may say. |
| ReplayScopes.Elsewhere | src/memotron/caveman/graph.py:855-897 | A call that journals nothing for a scope changes no belief of that scope. |
| ReplayProof.StepExact | src/memotron/caveman/replay.py:193-266 | Replay applies one journalled call exactly when the call was safe. |
| ReplayProof.ReplayTracksExactly | src/memotron/caveman/replay.py:268-297 | Over a whole run whose stamps never fall within the scope, replaying the ledger in its own order gives the live scope at every moment if and only if every call was safe. |
| ReplayProof.AppendedTracksExactly | src/memotron/caveman/replay.py:268-297 | The same for events taken as they were appended, whatever their stamps. |
| ReplayProof.DeletionNoticed | src/memotron/caveman/graph.py:1095-1117 | A node deleted behind the scope's journal leaves its replayed twin without a counterpart. |
| ReplayProof.EvidenceNeverEmpty | src/memotron/caveman/graph.py:553-627 | No single call leaves an edge without evidence. |
| ReplayGuarantee.ReplayGuaranteed | README.md:1163-1187 | On a forward clock, a run that keeps conditions checkable on the live store alone leaves journals from which every scope is rebuilt, belief for belief. |
| ContentDigest.SimulationDigestsAlike | src/memotron/caveman/replay.py:355-380 | A replay in step with the live scope has its digest. |
| ContentDigest.DigestReads | src/memotron/caveman/replay.py:299-353 | Two nodes read alike exactly when name, type, aliases and, line for line, kind, key, text and evidence are equal. |
| ContentDigest.BypassedRewriteShows | README.md:1163-1187 | A node created or rewritten without the journal makes the digests differ. |
| ContentDigest.BypassedDeleteShows | README.md:1163-1187 | So does a node deleted without it. |
| ContentDigest.BypassedEdgeShows | README.md:1163-1187 | So does an edge written without it, new or saying something else. |
| ContentDigest.BypassedRetireShows | README.md:1163-1187 | So does an edge retired without it. |
| ContentDigest.DigestDetermines | src/memotron/caveman/replay.py:355-380 | Where no two nodes assert the same, equal digests mean one graph up to node names. |
| ContentDigest.TwinGraphsExist | src/memotron/caveman/replay.py:299-353 | Two graphs that no renaming makes equal digest alike. |
| ContentDigest.ProofReportsEqual | src/memotron/caveman/replay.py:441-467 | The proof report says equal for every scope of a run that keeps its promises. |
| ReplayLimits.ClockMustNotRunBack | src/memotron/caveman/ledger.py:488-520 | A concrete run on a clock that runs back whose replay fails. |
| ReplayLimits.DeletionMustStayInOneScope | src/memotron/caveman/graph.py:1095-1117 | A concrete deletion over two scopes after which both replays are wrong. |
| ReplayLimits.SplitThenMergeDiverges | src/memotron/caveman/replay.py:193-266 | A concrete split and merge after which live store and replay hold different claims. |
| Slate.MergeSlate | src/memotron/caveman/pressure.py:307-401 | The greedy slate has exactly `pressure` pairs, or the reason none can be made. |
| Slate.SlateIsDisjoint | src/memotron/caveman/pressure.py:307-401 | No node is in two pairs, and each survivor is worth at least its doomed peer. |
| Slate.SlateIsUnique | src/memotron/caveman/pressure.py:307-401 | The slate depends on the nodes only, not on how they were listed. |
| SlateEvidence.SlateIsWarranted | src/memotron/caveman/pressure.py:377-395 | Each pair in turn carries the numbers stored for it; its doomed node is worth least of those left, and none left had more shared entries with it, or as many and more shared turns, or those and a greater likeness, or those and a lower id. |
| SlateEvidence.PressureBringsDown | src/memotron/caveman/pressure.py:176-200 | The pressure is nothing within the bound and otherwise exactly what brings the count to it. |
| GlobalPass.PassCounts | src/memotron/caveman/dream.py:1741-1797 | A pass that goes through leaves exactly the node count its validation projected. |
| GlobalPass.HalvedIsCeiling | examples/caveman_demo.py:1764-1887 | k halvings of a count give its ceiling division by 2^k. |
| AddressBook.MoveBooked | src/memotron/caveman/graph.py:657-740 | Which ids and addresses a re-pointing or relabelling leaves depends on ids and addresses alone: the edge already there keeps its id, else the lowest that lands. |
| AddressBook.PassFitsExactly | src/memotron/caveman/dream.py:1726-1731 | A pass of store calls goes through exactly when, read over ids, names and addresses before anything is written, every call finds what it names; and that reading foretells the ids, names and addresses it leaves. |
| GlobalAnswer.OpFindsExactly | src/memotron/caveman/dream.py:1990-2041 | One accepted op whose nodes are still there is applied whole exactly when it finds what the validation never promised. |
| GlobalAnswer.AppliesWholeExactly | src/memotron/caveman/dream.py:1595-1797 | An accepted global answer is applied whole exactly when no op names an edge or target the ops before it took, no split claims an edge it does not hold, and no merge absorbs a blank name. |
| NodeContents.AnswerLands | src/memotron/caveman/dream.py:2043-2212 | After an accepted answer applied whole, every survivor and rewritten node says its op's lines, type and vector under the name it had, the absorbed and the split are gone, every part says its own content, and every unclaimed node is as it was. |
| NodeContents.MandatesMade | src/memotron/caveman/dream.py:1930-1975 | Of every mandated pair at most one node is left, and it is the one the slate names unless the direction does not matter. |
| NodeContents.RewritingStates | src/memotron/caveman/dream.py:2164-2186 | Right after a rewriting is applied every edge it states stands with the stated claim and marker on at least its evidence, unless it retires that very edge; what it retires is gone. |
| NodeBudget.AcceptedWithinBudget | src/memotron/caveman/dream.py:371-392 | An accepted answer applied whole leaves exactly the projected count, never more than N. |
| NodeBudget.SlateSuffices | src/memotron/caveman/dream.py:349-360 | Delivering exactly the mandated pairs is accepted, goes through exactly when no doomed node has a blank name, and then removes exactly one node a pair. |
| NodeBudget.SlateIsForced | examples/caveman_demo.py:1770-1883 | Over legible names the slate is a forced pass, and leaves a graph the next can be taken from. |
| NodeBudget.ForcedRunHalves | examples/caveman_demo.py:1770-1887 | After k forced passes over real graphs, whatever the answers, at most max(N, ceil(c / 2^k)) nodes are left. |
| NodeBudget.SlateRunExactly | examples/caveman_demo.py:1770-1887 | Passes that deliver the slate and nothing else land exactly where the halving says. |
| NodeBudget.SixPassesSuffice | examples/caveman_demo.py:236-250 | Six such passes over real graphs reach N exactly when the scope was at most 64 times over it. |
| NodeBudget.ForcedPasses | examples/caveman_demo.py:1770-1887 | The loop makes accepted passes while the scope is over N: it stops at the first graph within N, and out of answers it is within N or the halving of where it started. |
| EdgeVocabulary.CompactionTargets | src/memotron/caveman/dream.py:516-544 | The overage of types, least used first with ties by name; every type that goes is used no more than any that stays. |
| EdgeVocabulary.BoundKeptExactly | README.md:1092-1104 | Exactly which types an accepted answer leaves, all of them surviving or stated, read off the book before the first write; it breaks M exactly when the book then lists more than M. |
| EdgeVocabulary.TypesLeftExactly | src/memotron/caveman/dream.py:1841-1890 | The same for any pass of store calls that keeps to the vocabulary rules. |
| EdgeVocabulary.RewriteMayCoin | src/memotron/caveman/dream.py:1841-1890 | Any stated edge of a new type passes the vocabulary rules and adds its type. |
| GlobalLimits.AcceptedAnswerBreaksBound | src/memotron/caveman/dream.py:1841-1890 | A concrete accepted answer over a scope within M = 1 that leaves two types. |
| EdgeVocabulary.RenameKeepsBeliefs | src/memotron/caveman/graph.py:657-687 | An uncollided edge keeps everything but its label; a collided one leaves its evidence on the edge already there. |
| EdgeVocabulary.PassMayStopHalfway | src/memotron/caveman/dream.py:2017-2041 | Merging the ends of any edge and retiring it stops after the merge. |
| GlobalLimits.AcceptedAnswerStopsHalfway | src/memotron/caveman/dream.py:2017-2041 | A concrete accepted answer that fails in the middle of being applied, its merge already made. |
| Compression.RekeyAllHas | src/memotron/caveman/ledger.py:425-438 | A merge moves exactly the absorbed nodes' entries to the survivor. |
| Compression.DivideReaches | src/memotron/caveman/ledger.py:440-454 | A split strands no entry exactly when the parts were given all of the parent's. |
| Compression.EvidenceSurvives | examples/caveman_demo.py:2344-2369 | Over every validated run of passes a ledger entry can be read from a live node exactly when some pass bound it and none has erased it since. |
| Compression.ErasureLeaves | src/memotron/caveman/dream.py:2245-2270 | An erasure forgets exactly the erased entries, deletes exactly the nodes left without any, and marks exactly those left with some. |
| Compression.NamesSurvive | examples/caveman_demo.py:1889-1921 | Over every validated run a surface leads, along the absorption records, to a live node answering to it, unless split or erased. |
| Compression.SurvivorsKeepTheirNames | examples/caveman_demo.py:1100-1135 | No pass renames a node that stays. |
| Compression.MergedAnswers | src/memotron/caveman/dream.py:2043-2108 | Exactly which surfaces a merged node answers to. |
| Compression.OldNameKeptExactly | src/memotron/caveman/graph.py:369-417 | A merge under a new name loses the old one exactly when nothing involved answers to it. |
| TruthSlots.OutcomeFits | src/memotron/dreaming/_materialization.py:505-830 | Whatever the outcome of a candidate, the rows it changes or points at are active, and nothing that starts later is displaced. |
| TruthSlots.OutcomeIsUnique | src/memotron/dreaming/_contradiction.py:395-500 | The rules leave one outcome for a candidate. |
| TruthStore.TruthStore.FindTarget | src/memotron/dreaming/_contradiction.py:177-305 | The two passes find the first exact row, else the closest admissible paraphrase, else nothing reinforceable exists. |
| TruthStore.TruthStore.RunGate | src/memotron/dreaming/_contradiction.py:452-495 | The loop names the blocking incumbent of highest authority and start, and those let past by recency only. |
| TruthStore.TruthStore.Decide | src/memotron/dreaming/_materialization.py:505-830 | The decision taken is the one the rules prescribe. |
| TruthStore.TruthStore.Write | src/memotron/dreaming/_materialization.py:640-1182 | Reinforcing, inserting, superseding, resolving siblings and discounting row by row give the specified rows. |
| TruthUpkeep.OutcomeExactly | src/memotron/dreaming/_materialization.py:505-830 | In the fields themselves: a candidate repeats exactly when some row says what it says, else is history exactly when a row it contradicts starts later, else is parked exactly when one withstands it, else takes the slot from all it contradicts. |
| TruthUpkeep.NamedExactly | src/memotron/dreaming/_contradiction.py:395-500 | The repeated row is the first in the same words or else the most alike; history ends at the next start; the blocker is of most authority, then of latest start, then earliest. |
| TruthUpkeep.SettledExactly | src/memotron/dreaming/_contradiction.py:501-567 | Siblings are settled exactly when their number let the candidate past an established equal, and rows are bypassed exactly where it would have been held were it not newer. |
| TruthUpkeep.WriteLands | src/memotron/dreaming/_materialization.py:640-1182 | A candidate that takes the slot makes exactly what it contradicts give way, at its observation or no later than its episode; history changes no row; a parked one touches its incumbent's confidence only. |
| TruthTallies.NewRow | src/memotron/dreaming/_materialization.py:640-1182 | A candidate's own row says what it claims, is believed as far as the candidate, was seen once, and is in force exactly when it took the slot. |
| TruthTallies.SightingsTallied | src/memotron/dreaming/_contradiction.py:780-830 | Over any run a row has been seen once more for every repeat, its dates are the earliest and latest of those and its own, and it starts at the earliest once repeated. |
| TruthTallies.ConfidenceTallied | src/memotron/dreaming/_contradiction.py:806-817 | Over any run a held row keeps its confidence and any other's is what its repeats and the challenges parked against it, in order, make of it. |
| TruthTallies.BelievedExactly | README.md:3120-3123 | Over any run an undisputed row is believed as its repeats' closed form says, and an unrepeated one as its disputes', exactly when it started within the bound or was touched at all. |
| TruthStore.TruthStore.Resolve | src/memotron/client/_governance.py:412-563 | An approval displaces exactly the surviving incumbents and activates the challenger; a rejection changes only the review. |
| TruthUpkeep.ApprovalLands | src/memotron/client/_governance.py:412-563 | An approved challenger is in force from then on at every time, saying what it said; exactly what it contests gives way to it now. |
| TruthStore.TruthStore.Repair | src/memotron/dreaming/_lifecycle.py:995-1065 | The repair supersedes exactly the approved losers to the winner. |
| TruthUpkeep.RepairLands | src/memotron/dreaming/_lifecycle.py:995-1065 | Exactly the approved rows in force in the slot other than the winner give way to it, from its start on. |
| TruthStore.TruthStore.RestorePredecessor | src/memotron/dreaming/_lifecycle.py:298-413 | A restoration happens exactly when allowed, and re-creates the predecessor's interval from the override's end. |
| TruthUpkeep.RestorationLands | src/memotron/dreaming/_lifecycle.py:298-413 | The restored row says what the old one said, from the override's end to the end it had, and nothing else changes but the override's mark. |
| TruthStore.TruthStore.Revive | src/memotron/storage/sqlite/_operational.py:598-628 | Reviving makes an archived row active again and leaves everything else of it. |
| TruthUpkeep.ArchiveAndRevive | src/memotron/dreaming/_lifecycle.py:454-520 | An archived row is out of force as it stood and, unless elapsed, reviving it gives it back with no end. |
| TruthLinks.SupersessionNeverLoops | README.md:432 | Runs that revive no superseded row never loop and never show a superseded row. |
| TruthLoops.StepLoopsExactly | src/memotron/dreaming/_lifecycle.py:995-1065 | A step closes a circle of superseded-by links exactly when it is a repair whose winner already led to a row it displaces. |
| TruthLoops.AcyclicExactly | README.md:432 | Over any run the links stay acyclic throughout exactly when no step is such a repair. |
| TruthLoops.RootedExactly | src/memotron/storage/sqlite/_operational.py:598-628 | Over any run current truth is never itself superseded exactly when no step revives a row with a successor. |
| TruthLinks.ReviveRootsExactly | src/memotron/storage/sqlite/_operational.py:598-628 | Reviving keeps active rows unsuperseded exactly when the row had no successor. |
| TruthLinks.StepOrdersExactly | README.md:428-437 | In any store whose links point at its rows, one step keeps starts non-decreasing along displacement links exactly when its check passes. |
| TruthLinks.HistoryOrderedExactly | README.md:428-437 | Over any run, those that revive superseded rows or close circles included, starts stay ordered throughout exactly when every step passes its check. |
| TruthSettled.StepSettlesExactly | README.md:430 | One step keeps every single-active slot to one current fact exactly when it passes its check. |
| TruthSettled.OneFactExactly | README.md:430 | Over a run, no slot ever shows two facts exactly when every step passes its check. |
| TruthSettled.RepairSettles | src/memotron/dreaming/_lifecycle.py:995-1065 | A fully approved repair leaves the winner alone in its slot and every other slot alone. |
| TruthSettled.RepairIsIdempotent | src/memotron/dreaming/_lifecycle.py:995-1065 | A second repair finds the same winner and changes nothing. |
| TruthSettled.WinnerExists | src/memotron/dreaming/_lifecycle.py:1066-1076 | Of facts in force in one slot there is always exactly one winner. |
| TruthGate.AuthorityNeverSinks | README.md:432 | However many candidates are written or turned down, the authority behind a slot is never lowered. |
| TruthGate.StepUsurpsExactly | README.md:432 | A step displaces higher authority without an approval exactly when it is a write with the authority gate off, or a repair whose winner ranks below an approved loser. |
| TruthGate.AuthorityRespectedExactly | README.md:432 | Over any run of every kind of step, lower authority never displaces current truth unapproved exactly when no step is one of those. |
| TruthGate.YieldsExactly | README.md:3115-3116 | With one rival, no recency kind and nothing to reinforce, an established fact withstands exactly `corroboration_required` minus one uninterrupted observations of one challenge and yields to the next; interleaved runs are the rows that follow. |
| TruthQuorum.StepTopplesExactly | src/memotron/dreaming/_lifecycle.py:995-1065 | A step makes an established fact give way to its equal without approval, recency or quorum exactly when it is a repair whose unapproved winner ranks equal to an approved, established loser. |
| TruthQuorum.QuorumRespectedExactly | README.md:3115-3116 | Over any run of every kind of step, established facts give way to their equals only by quorum, recency or approval exactly when no step is such a repair. |
| TruthQuorum.VoicesAreHeard | src/memotron/dreaming/_lifecycle.py:345-360 | The rows that speak for a challenge grow by exactly the observations a run parks for want of corroboration and the copies of them it restores. |
| TruthQuorum.CountedWereHeard | src/memotron/dreaming/_contradiction.py:501-567 | In a run from an empty store, a write never counts more siblings than were parked for its challenge before it, or restored. |
| TruthQuorum.YieldsOnlyByQuorum | README.md:432 | In a run from an empty store, an established fact that gives way to its equal unapproved does so to newer information, after `corroboration_required` observations of the challenge, or in a repair that prefers its equal. |
| TruthGate.BypassIsClamped | README.md:434 | What the recency bypass closes started, and closes, no later than the candidate's own episode. |
| TruthGate.BackfillDisplacesNothing | README.md:432 | A backfilled fact changes no stored row and ends before what follows it. |
| TruthGate.CorrectionLandsExactly | README.md:432 | A correction that outranks every rival takes the slot exactly when none claims a later start. |
| TruthLimits.ReadOverturnsTruth | src/memotron/client/_archive.py:374-412 | A default run in which a read and a repair put an untrusted claim over an operator's, with links in a loop. |
| TruthLimits.OneVoiceTopples | src/memotron/storage/sqlite/_operational.py:598-628 | A default run in which a fact said three times gives way to a challenge made once, parked, revived by a read and preferred by the repair; authority is respected throughout. |
| TruthLimits.FutureStartHolds | src/memotron/dreaming/_materialization.py:516-540 | A future-dated user fact keeps the slot against a system correction. |
| TruthLimits.GeneratedRepeatDoubles | src/memotron/dreaming/_contradiction.py:246-254 | Generated output repeating a fact leaves the slot showing it twice. |
| TruthLimits.NestedOverrideEmptiesSlot | src/memotron/dreaming/_lifecycle.py:298-345 | After an override outlasts the temporary fact it replaced, nothing can be restored and the slot stays empty. |
| TruthOverrides.OverrideEndsExactly | src/memotron/dreaming/_lifecycle.py:298-413 | In any run, when a temporary fact has run out in a free slot, what it hid may be restored exactly when that was unbounded or bounded beyond the end, nothing else may be, and the slot then shows it alone, from that end to its old bound, exactly while the bound lies ahead. |
| TruthKeys.StepFreshExactly | src/memotron/dreaming/_predicates.py:227-408 | One step keeps every live row on the key the registries name exactly when its check passes; sweeping steps always do. |
| TruthKeys.FreshReads | src/memotron/dreaming/_predicates.py:227-408 | A row is fresh exactly when it is filed under its subject and verb as the registries have them, and in a slot of several under its value too. |
| TruthKeys.KeysFreshExactly | README.md:430 | Over any interleaving of writes, registrations, demotions, reviews, archives and sweeps, live keys are those recomputed from scratch exactly when every step passes its check. |
| TruthKeys.NarrowSweepSuffices | src/memotron/dreaming/_entities.py:319-348 | Re-keying only the rows that mention an activated alias reaches every row it moves. |
| TruthRekeyed.SweepSettlesExactly | README.md:430 | A sweep keeps one fact a slot exactly when no two facts in force are stated in words that have come to mean one slot. |
| TruthRekeyed.RepairRestores | src/memotron/dreaming/_lifecycle.py:995-1065 | Repairing every slot a re-key crowded leaves one fact in each, and every slot that showed a fact still does. |
| TruthSweeps.BackfillsCommute | README.md:430 | The two backfills end in one state in either order and touch no frozen row. |
| TruthSweeps.BackfillIsIdempotent | src/memotron/client/_governance.py:49-110 | A repeated backfill changes nothing, even under another similarity. |
| TruthSweeps.KeyedScope.SweepRegistering | src/memotron/dreaming/_predicates.py:227-408 | One pass that registers as it goes leaves no earlier row behind. |
| TruthSweeps.KeyedScope.Link | src/memotron/dreaming/_entities.py:319-348 | Activating an alias moves exactly the live rows it re-keys, and reports them. |
| Epochs.Heads | src/memotron/epochs.py:771-792 | The row that stands for a slot is the last one shown, on both sides of a diff. |
| EpochProof.AdoptFaithfulExactly | src/memotron/epochs.py:880-968 | Adoption shows the agreed rows and the branch's copies and nothing else exactly when the branch fits the head. |
| EpochProof.SlotShowsBranch | README.md:460-461 | After adopting a branch cut from the head, every row shown has the branch's face, which `EpochFaces.AdoptionStates` spells out field by field. |
| EpochProof.SlotsShownExactly | README.md:460-461 | The slots shown after such an adoption are exactly those the branch shows, each with the branch's face. |
| EpochProof.SurvivesExactly | src/memotron/epochs.py:771-830 | A shown fact survives an adoption untouched exactly when the branch shows the same face in its slot. |
| EpochFaces.AdoptionStates | README.md:460-461 | After adopting a branch cut from the head every row shown states the fact, confidence and status of the branch's last active row of its slot, and a slot shows a row exactly when the branch has one active in it. |
| EpochFaces.KeptExactly | src/memotron/epochs.py:716-721 | A shown row is kept exactly when the branch's row of its slot states the same fact, confidence and status; otherwise it is superseded now, by the copy of that row and its run, or by nothing if there is none. |
| EpochFaces.NamesResolve | src/memotron/epochs.py:946-958 | After an adoption every branch name resolves as in the branch, stamped with the epoch exactly when that is news, and every other name as before. |
| EpochFaces.EpochsMove | src/memotron/epochs.py:960-966 | The adopted epoch is head, its parent replaced, every other epoch as it was. |
| EpochProof.RollbackRestoresExactly | src/memotron/epochs.py:970-1029 | Rolling back restores registries, head and everything the graph hash reads exactly when no copied row belongs to the older head. |
| EpochProof.RollbacksUndoAdoptions | README.md:460-461 | Any stack of clean adoptions is undone by as many rollbacks. |
| EpochProof.UnbranchedSeesAll | src/memotron/storage/sqlite/_graph.py:364-389 | On an unbranched scope the epoch filter hides nothing. |
| EpochStore.ScopeStore.Adopt | src/memotron/epochs.py:880-968 | Copying, retiring and overlaying in place give the specified state; an epoch that cannot be adopted, or is given as not replaying, changes nothing. |
| EpochStore.ScopeStore.RollBack | src/memotron/epochs.py:970-1029 | The in-place rollback gives the specified state, or refuses without effect. |
| EpochStore.ReinforcedCopyOutlivesRollback | src/memotron/epochs.py:331-364 | A concrete branch after whose rollback a slot shows two rows. |
| EpochStore.SecondSiblingHidesTheFact | src/memotron/epochs.py:880-968 | A second branch of one head that agrees on a fact hides it when adopted. |
| Claims.DreamClaims.ClaimEpisodes | src/memotron/storage/_shared/_claims.py:59-107 | One claim takes exactly the first claimable episodes up to the limit. |
| Claims.ClaimFromTakes | src/memotron/storage/_shared/_claims.py:59-107 | A claim takes only what was claimable and leaves every other open claim. |
| Claims.ClaimsInOrder | src/memotron/storage/_shared/_claims.py:59-107 | No more than the limit are taken, in the order offered, and everything claimable while the limit is not reached. |
| Claims.AtMostOnce | README.md:3173 | With any number of runs interleaving, if none outlives its claims or stops between writing and marking, no episode is written twice for a consumer. |
| Claims.RepeatsExactly | README.md:3173 | In every interleaving, an episode is written again exactly when it is then already marked, another run is at it, or a run that has ended had written it. |
| Claims.OpenBatchesDisjoint | README.md:3173 | In every interleaving, two runs with open windows never hold the same episode. |
| Claims.CrashedIsClaimableAgain | src/memotron/storage/sqlite/_operational.py:140-156 | A crashed run's episode is claimable again exactly when its window has passed. |
| Claims.OutlivingMaterialisesTwice | src/memotron/storage/base.py:1297-1312 | A run longer than its claim window: the episode is written twice. |
| Claims.KillBetweenMaterialisesTwice | src/memotron/dreaming/_formation.py:815-832 | A kill between writing and marking: the episode is written again. |
| Claims.ExitBetweenMaterialisesTwice | src/memotron/dreaming/__init__.py:507-513 | An exception between the two releases the claims at once: the episode is written again. |
| Migration.PurgeMeansUnchanged | src/memotron/migration.py:624-652 | A purge runs only on a source whose hashed rows and counted collections are as they were when the copy began. |
| Migration.OnlyWritersTouch | src/memotron/migration.py:624-652 | Up to the purge, and for good after an abort, the source is exactly what the other writers made of it. |
| MigrationCheck.CheckVerifies | src/memotron/migration.py:654-684 | Over every interleaving the check passes exactly when the copies, or within one file the agents' scopes as they stand, number what the preview counted in each of four figures; only then do captured agents change hands. |
| MigrationCheck.MismatchAborts | src/memotron/migration.py:654-684 | A mismatch ends the run for good: nothing is purged, the source is what the other writers made of it, and the agents are those registered. |
| MigrationCheck.CopyTakes | src/memotron/migration.py:845-900 | If the preview counted a fact a copy takes exactly the scope's active facts as they stand and its episodes, otherwise the tenant's episodes alone. |
| Migration.PurgedIsCopied | README.md:146-194 | In every interleaving, the hashed content of every active fact of a copied scope has arrived at the lock exactly when facts were copied and all that the watermark has active stood the same at the copy, or none is active. |
| Migration.PurgeLosesExactly | src/memotron/migration.py:597-617 | Row by row: hashed content arrives exactly when copied that way, unhashed content exactly when unchanged since the copy, an inactive row never, episodes stay, and the evidence plane is always lost. |
| Migration.PurgeReachesExactly | src/memotron/storage/sqlite/_governance.py:1102-1130 | A run's purge destroys exactly the tenant's scope, the captured ones when two files differ, and those whose agent was registered after the check, or, if never captured, after the scopes were listed. |
| Migration.MovedAgentScopesSurvive | src/memotron/migration.py:926-942 | Within one file every captured agent's memory survives a run's purge whole, unless the agent was registered back after the check. |
| Migration.LateFirstFactIsLost | src/memotron/migration.py:811-845 | A first fact between preview and watermark is purged without a copy. |
| Migration.UnhashedEditUnnoticed | src/memotron/migration.py:597-617 | An edit outside the hashed fields passes the re-verify unnoticed. |
| Migration.UndoneEditIsLost | src/memotron/migration.py:597-617 | An edit copied and then taken back: the purge destroys the fact while the copy holds the edit. |
| Demotion.DemoteContradicted | src/memotron/retrieval.py:378-414 | Grouping and keeping the newest of each group demotes exactly the rows with a newer one in their cluster. |
| Demotion.NoContradictionSurvives | README.md:436 | No two survivors contradict each other, and every row outside any slot survives. |
| Demotion.DemotedHasNewerSurvivor | README.md:436 | Every demoted row has a newer survivor in its own cluster. |
| Demotion.DemotedForNewer | src/memotron/retrieval.py:378-414 | The survivor is valid from later, failing that created later, failing that of the greater id. |
| Demotion.KeepsRuleExactly | README.md:436 | The documented rule holds exactly when every cluster of several rows is disputed. |
| Confidence.AccumulationIsClosed | README.md:3120-3123 | Folding observations has the closed form min(ceiling, 1 - (1 - c)·Π(1 - gain·o)) exactly when the row starts below the ceiling or is observed. |
| Confidence.DisputesAreClosed | src/memotron/dreaming/_contradiction.py:720-737 | Disputes have the closed form max(floor, c·Π(1 - discount·o)) exactly when the row starts at the floor or is disputed. |
| Confidence.EvidenceOrderIrrelevant | README.md:431-432 | The order of observations does not matter and the ceiling bounds what they reach. |
| Confidence.CertaintyExactly | README.md:431-432 | No amount of evidence is certainty, except under a ceiling of one when a certain observation counts in full. |
| Confidence.DisputeLowersExactly | src/memotron/dreaming/_contradiction.py:725-737 | A dispute lowers confidence except below the floor, where it lifts it. |
| Confidence.ConfidenceStaysBounded | README.md:3120-3123 | Mixed evidence and disputes keep confidence within its bounds. |
| Ranking.TieringBoundExact | README.md:2682-2698 | Scope tiers strictly exactly when its weight exceeds the number of scopes times the other weights together. |
| ReadOrder.RankIgnoresAssemblyExactly | src/memotron/caveman/rank.py:440-473 | The ranking is independent of how candidates were assembled exactly when no two different ones share the key. |
| ReadOrder.FloorsHoldExactly | src/memotron/caveman/rank.py:404-439 | The ranking keeps to the floors exactly when no lower-tier line beats a higher-tier one on the key. |
| ReadOrder.MeasuredKeepsFloors | src/memotron/caveman/rank.py:146-186 | Measured ranks less than one floor apart are enough for that. |
| ReadOrder.WithinATier | src/memotron/caveman/rank.py:440-473 | Within a tier the better measured line comes first, then the first node name, then the first line. |
| ReadBlocks.FoldKeepsAVoice | src/memotron/caveman/rank.py:657-715 | Every folded line has a higher-ranked kept line that says the same. |
| ReadBlocks.RestatesExactly | src/memotron/caveman/rank.py:657-715 | Two lines are one exactly when they are of one kind, hold the same coded words and share six in ten of their words. |
| ReadBlocks.DroppedForItsLike | src/memotron/caveman/rank.py:657-715 | A line is dropped only for a kept one above it that agrees coded word for coded word: lines on two issues never fold. |
| ReadBlocks.FoldKeepsOrder | src/memotron/caveman/rank.py:657-715 | No two kept lines restate one another, and rank and floor order survive the fold. |
| ReadBlocks.DedupeLines | src/memotron/caveman/rank.py:657-715 | The loop keeps exactly the standing lines and loses none: kept and dropped together are the input. |
| ReadBlocks.CutToBudget | src/memotron/caveman/rank.py:474-519 | The cut is the longest prefix both budgets allow, saturated exactly when something was dropped. |
| ReadBlocks.BodyIsTheLines | src/memotron/caveman/render.py:366-394 | A block's fixed reading order loses no line, repeats none, and puts rules first. |
| ReadBlocks.BlocksEmitTheKept | src/memotron/caveman/read.py:650-700 | Every kept line is emitted as often as it was kept, in its own node's block only. |
| ReadBlocks.GroupByNode | src/memotron/caveman/read.py:680-688 | Grouping by first appearance gives each node its kept lines in rank order. |
| ReadBlocks.ReadKeepsFloorOrder | README.md:1240-1250 | Whatever is folded and wherever the budget falls, blocks come as the exactly named, those showing a rule, the rest. |
| ReadBlocks.FoldTakesAnOnlyRule | examples/caveman_demo.py:2394-2404 | A fold that takes a node's only rule, after which its block reads behind one that holds none. |
| Rendered.SplittingUndoesJoining | src/memotron/caveman/read.py:700 | Splitting at blank lines undoes joining with them. |
| Rendered.ReaderRecovers | examples/caveman_demo.py:903-931 | Under each header the reader recovers what the last block with that header says. |
| Rendered.RenderedReadRoundTrips | examples/caveman_demo.py:903-931 | With headers distinct from one another and the footer, every node's exact lines come back. |
| Rendered.LinesComeBackExactly | src/memotron/caveman/render.py:244-245 | Lines that hold something come back exactly when none holds anything that ends a line for the reader. |
| Rendered.ReadComesBackExactly | examples/caveman_demo.py:903-931 | With headers distinct, every node's exact lines come back from a rendered read exactly when no line holds anything that ends one. |
| Rendered.Snapshot | examples/caveman_demo.py:903-931 | The reader's loop returns exactly the recovered bodies, or fails on the first header without a block. |
| Rendered.SeparatorSplitsAFact | src/memotron/caveman/render.py:244-245 | A rendered read of a fact with a Unicode line separator, which validation admits, gives back two lines. |
| Surfaces.UnionHasNoRepeats | src/memotron/caveman/graph.py:138-153 | A union of repeat-free lists has no repeats. |
| Surfaces.MergeEvidence | src/memotron/caveman/graph.py:138-153 | The accumulating loop computes the union in arrival order. |
| GraphStore.InMemoryGraph.ReplaceFacts | src/memotron/caveman/graph.py:341-367 | The in-place rewrite is the one `NodeContents.RewrittenNode` describes, refusals included. |
| GraphStore.InMemoryGraph.DropRelationsTouching | src/memotron/caveman/graph.py:688-695 | Exactly the edges touching the given nodes go. |
| GraphStore.InMemoryGraph.RetireRelation | src/memotron/caveman/graph.py:628-631 | Exactly one edge goes, or the id is refused. |
| GraphStore.InMemoryGraph.MarkDirty | src/memotron/caveman/graph.py:741-751 | The listed nodes that exist are flagged and nothing else changes; unknown ids are ignored. |
| GraphStore.InMemoryGraph.ClearDirty | src/memotron/caveman/graph.py:756-766 | Bookkeeping that changes no belief. |
| GraphStore.InMemoryGraph.RecordRead | src/memotron/caveman/graph.py:768-774 | Read counts grow by one a listing and nothing else changes. |
| JournaledStore.JournaledGraph.CreateNode | src/memotron/caveman/graph.py:953-982 | The wrapper creates and appends the node's event. |
| JournaledStore.JournaledGraph.AddAliases | src/memotron/caveman/graph.py:984-996 | The wrapper unites aliases and appends the node's new content. |
| JournaledStore.JournaledGraph.ReplaceFacts | src/memotron/caveman/graph.py:998-1030 | The wrapper rewrites and appends the event `EventContents.RewriteJournalled` describes. |
| JournaledStore.JournaledGraph.SplitNode | src/memotron/caveman/graph.py:1073-1093 | The wrapper splits and appends the parts with the edges they claimed. |
| JournaledStore.JournaledGraph.DeleteNodes | src/memotron/caveman/graph.py:1095-1116 | The wrapper deletes and appends one event under the first held node's scope. |
| JournaledStore.JournaledGraph.UpsertRelation | src/memotron/caveman/graph.py:1118-1161 | The wrapper upserts and appends the edge as it now stands. |
| JournaledStore.JournaledGraph.RetireRelation | src/memotron/caveman/graph.py:1163-1174 | The wrapper retires and appends the edge's id. |
| JournaledStore.JournaledGraph.RenameEdgeType | src/memotron/caveman/graph.py:1176-1197 | The wrapper renames and appends the two labels. |
| JournaledStore.Replayer.Apply | src/memotron/caveman/replay.py:193-266 | Applying one event in place is the specified step, or its refusal. |
| Compression.DivideConserves | src/memotron/caveman/ledger.py:440-453 | A split binds exactly the entries that were bound. |
| ContentDigest.TwinsHideStructure | src/memotron/caveman/replay.py:299-353 | Graphs whose nodes assert the same digest alike although no renaming of nodes makes them one. |
| Claims.DreamClaims.MarkProcessed | src/memotron/storage/sqlite/_operational.py:105-138 | Marking adds one processed marker and leaves claims alone. |
| Claims.DreamClaims.Release | src/memotron/storage/sqlite/_operational.py:177-186 | Releasing removes exactly one run's claims. |
| Migration.DeregisteredAtCheck | src/memotron/migration.py:926-937 | Within one file, a run that reaches the lock left its check with no captured agent registered. |
| Demotion.DemotionIdempotent | src/memotron/retrieval.py:378-414 | Demoting again changes nothing. |
| TruthStore.TruthStore.Archive | src/memotron/dreaming/_lifecycle.py:454-520 | Archiving closes an active row and leaves a restorable ghost, unless its interval had elapsed. |
| TruthStore.TruthStore.FirstLater | src/memotron/dreaming/_contradiction.py:144-165 | The earliest rival that starts after the candidate is found, if there is one. |
| TruthStore.TruthStore.FindSiblings | src/memotron/dreaming/_contradiction.py:501-567 | Exactly the parked observations of the same challenge are collected. |
| TruthSweeps.KeyedScope.Learn | src/memotron/dreaming/_predicates.py:78-200 | Registering a predicate re-keys exactly the live rows stated under it. |
| ReadOrder.OvertakingNeedsAFloor | src/memotron/caveman/rank.py:146-186 | A lower tier comes first only on a measured rank a whole floor higher. |
| ReadBlocks.FoldIsIdempotent | src/memotron/caveman/rank.py:657-715 | Folding what is folded changes nothing. |
| ReadBlocks.CutIsLongest | src/memotron/caveman/rank.py:474-519 | No longer prefix fits either budget. |
| Rendered.EqualHeadersOverwrite | examples/caveman_demo.py:909-915 | Of two nodes with one header the reader sees the second one's lines for both. |

## Left out

- TruthGate.YieldsExactly: one rival, no recency kind, nothing to reinforce, uninterrupted repeats of one challenge; every other run is covered by `TruthQuorum.QuorumRespectedExactly` and `TruthQuorum.YieldsOnlyByQuorum`, which bound the count from one side.
- ContentDigest.DigestDetermines: sufficient only. Exactly which scopes with twins are still determined, such as those whose twins have no edges, is not stated.
- EpochStore.ScopeStore.Adopt: whether every run of the branch replays is a given flag, so that a failed replay changes nothing is the order of the steps and not a fact about replay.
- EvidenceRuns.EvidenceOverRuns: runs in which a merge fails midway are left out: such a merge leaves edges on nodes that are gone. A pass cannot make one over a blank name, because it unites the surfaces before the call (`GlobalPass.Stopped`).
- GlobalAnswer.AppliesWholeExactly: the evidence a global answer's facts and edges cite, and the wording of its lines, are not part of what "accepted" means here; neither can make a store call fail. Whether two nodes share a surface is a given set.
- LLM extraction, reconcile and dream prompts, embeddings, cosine and logarithms: answers are arbitrary validated operations, similarities and measured ranks are given values, and evidence weight enters a rank as a given product.
- Diagnostic counters and stamps on a truth row that no rule reads: disputes and suppressed escalations counted, the run and the time of a change, episode lists.
- Storage engines, transactions inside them, servers, credentials, the admin UI: a transaction is one step.
- Receipts, state-hash chains and byte replay of runs: adoption takes "every run replays" as a given answer, and the graph hash is represented by the fields it reads.
- Redaction, erasure certificates, crypto-shredding and content commitments: objects are compared as normalised text, and a content-protected scope, which is pinned to commitments, is not modelled.
- Unicode case folding: surfaces fold ASCII letters only. `normalize_key` is taken as already applied to keys, predicates and names in the truth modules.
- The norm of an embedding is a sum over reals, not floats; scores and confidence are reals.
- A node's `ledger_key` (always its id) and the `before` payloads of journal events, which replay does not read.
- The order in which `relations()` lists edges during a rename: the rename is proved for every order.
- Negation-marker stripping, identifier-token clashes, stance conflicts and alias link scores: given functions; which alias is proposed or linked is any choice.
- Relationship endpoints, episode lists, `rolled_up_by`, rollups, duplicates parked for a superseded row, soft caps, staleness and retention gates: any row may be archived at any time, which covers every such policy.
- Truth rows written before `predicate_canonical`, `valid_from` or embeddings were stamped: rows carry a start and a recomputable key. A predicate registry entry removed by an epoch rollback is not combined with re-keying.
- The order in which an adoption copies rows (by slot in the program, by position here): only fresh ids depend on it. Nodes upserted by a copy are not modelled.
- Epoch tier selection, episode selection and the shadow recompute: a branch is any store of rows and names.
- Theme synthesis, salience, motives, profile rendering, coherence scanning and the demo's printing: prompt-dependent or single-branch reads.
- TruthSlots.OutcomeIsUnique: the tie between two equal paraphrase scores is broken by store order, as in the program; the engine's row order for rows created in one instant is by uuid, here by position.
