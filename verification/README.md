# Verified models of the durable stores, ledgers and mesh algorithms

This project models the parts of the repository's Python tooling that are hard to get right, and
proves what they are for. `dafny verify dfyconfig.toml` checks all of it.

How the world is modelled:

- **Files.** A directory is a record or a map of its files. A rename, an unlink and an exclusive create
  are single steps; a copy or a tree removal may stop half-way and leave a prefix or a part. After every
  step the process may die (`Common.Survives`), also inside recovery. What has been flushed is durable.
- **Hashes, JSON and floats.** SHA-256 is an injective function (a datatype constructor, or a function
  parameter with the laws it needs). JSON is a codec with an inverse. Numbers are exact: integers for
  seeds, bytes and rounded positions, reals for UV coordinates, weights and colours.
- **Choice.** Random draws, set iteration order and the interleaving of processes are nondeterministic,
  so results hold for all of them.

| file | what it models |
|---|---|
| `CheckpointStore` | one durable checkpoint, replaced through NEXT, PREVIOUS, INTENT and INTENT_NEXT |
| `PairTransaction` | a staging tree and a recipe file promoted together under a marker |
| `LedgerArchive` | the hash-linked archive of allocations: segments, manifest, append-only rules, cached hash |
| `SeedRanges`, `SeedReservations` | merged intervals, binary search, and allocations that never collide |
| `BatchSeeds` | the assessment plan, the seeds its batches tile, and the bank compiled from them |
| `BatchLedger`, `BatchRuns` | numbered stages claimed by many processes: what `load` accepts, and every run |
| `TaskSelection` | the discovery evidence, the difficulty ladder, the balanced baseline and the random adaptive list |
| `MapLayout`, `Reachability` | the growing-queue check that the food can be walked to; walks in a graph |
| `MeshComponents` | union-find with path halving over coincident vertices |
| `MeshTopology`, `MeshParts`, `MeshDecimation` | topology counts, their additivity, and the per-component choice |
| `DetailGrid` | the multi-source flood fill of the UV detail grid |
| `TexelBins` | the binned triangle search against brute force |
| `TerrainChunk` | perimeter and skirt of a terrain chunk |
| `GlbContainer`, `GlbCompaction` | the GLB container, rows of accessors, and the colour repacker |
| `AncestryPack`, `AncestryManifest` | the ancestry pack format, its reader, and the manifest's preflight |
| `Common`, `Arithmetic`, `Bytes` | shared helpers |

## What was found

- **First import.** `recover` unlinks a partial NEXT and then copies the candidate again. A crash between
  the two leaves an empty store on which the next recovery settles; the candidate stays in the run
  directory but is not published (`CheckpointStore.ImportWindow`). The window is exactly the disk without
  NEXT, with INTENT_NEXT still there or already unlinked; every other crash point of a recovery keeps the
  outcome (`ExactWindow`, ensured by `Store.Recover`). Publishing over an empty store without an import
  run is recoverable exactly when the copy had not begun (`UncommittedLeftovers`).
- **Leftover intent.** When INTENT exists, recovery does not remove INTENT_NEXT. The two never coexist
  (`Consistent`, kept by every operation), so nothing is left behind.
- **A recovery that refuses** may already have unlinked NEXT, when INTENT_NEXT is too large; the store
  still refuses afterwards (`Store.Recover`).
- **Pair promotion.** When the old and the new recipe have the same bytes, the pair is already the new one
  once the tree is renamed, before the recipe is; the recipe rename decides if and only if the recipes
  differ (`Workspace.RecipeRenameDecides`). A crash before the marker leaves the prepared operands and
  possibly the recipe's rollback copy behind.
- **Decimation.** The component, island and boundary checks after the per-component choice can never
  fail. The non-manifold check fails exactly when some component falls back to source triangles that
  were not manifold themselves (`MeshDecimation.Decimate`).
- **Texel bins.** The bins use a tolerance in texels and the weights use one in barycentric units. When no
  triangle contains the texel's centre, the best triangle of a full search can be missing from the bin:
  it is then chosen by distance only, or loses to a worse fit (`TexelBins.NearMissIsNotBinned`,
  `SearchesDiffer`). The searches agree on every part of the triangles if and only if each triangle with
  weights covers the texel (`AgreeExactly`). Triangles of at most half a texel always do, and half a texel
  is the exact bound wherever such triangles are not degenerate (`HalfATexel`).
- **Writing rows.** `set_values` on a binary that is too short appends instead of raising. The rows are
  readable afterwards if and only if none starts beyond what was reached (`GlbContainer.ByteArray.SetRows`).
- **An error that cannot occur.** The connected-faces error of `topology_metrics` is unreachable (`MeshTopology.Measure`).

## Model

| member | source | states |
|---|---|---|
| CheckpointStore.RecoveryEndsSettled | scripts/current_checkpoint_store.py:197-277 | a recovery that succeeds leaves no transient file, ends on an admitted checkpoint that was complete on disk, never loses a current one, and recovering again changes nothing |
| CheckpointStore.ImportRecovers | scripts/current_checkpoint_store.py:205-220 | an interrupted import is recovered if and only if its run has no active writer, is an import, and holds an admitted candidate with exactly the recorded digest |
| CheckpointStore.IntentDecides | scripts/current_checkpoint_store.py:279-305 | on every disk `CutShort` describes, and `Publish` ensures it leaves no other over a settled store, recovery yields exactly the old bytes before the intent rename and exactly the new bytes after it, up to and past the unlinking of the intent; a full copy of one of them is always current |
| CheckpointStore.UncommittedLeftovers | scripts/current_checkpoint_store.py:200-229 | leftovers before the intent are swept over an existing current; over an empty store recovery succeeds if and only if an import run still holds the candidate |
| CheckpointStore.ImportWindow | scripts/current_checkpoint_store.py:205-220 | in every interrupted import, on every disk without NEXT, INTENT_NEXT present or not, recovery settles on the empty store instead of the candidate |
| CheckpointStore.FatesCompose | scripts/current_checkpoint_store.py:197-277 | any number of crashed recoveries leaves the outcome of the first disk, or a disk of its import window |
| CheckpointStore.Store.Enter | scripts/current_checkpoint_store.py:180-195 | a held lock or an unknown entry is refused with nothing touched; uninterrupted it succeeds if and only if the lock is free, all entries are known and the files can be recovered; on refusal or crash the lock is not held and the fate is unchanged |
| CheckpointStore.Store.Recover | scripts/current_checkpoint_store.py:197-277 | recovery computes the recovered files or refuses exactly when there are none; a crash changes the outcome only if it falls into the exact import window, and never loses the current checkpoint; a committed publication stays one `CutShort` describes; the recursion with publish terminates |
| CheckpointStore.Store.ResumeImport | scripts/current_checkpoint_store.py:206-220 | the initial-import branch publishes the retained candidate of a resumable run, refuses only where recovery is impossible, and a crash changes the outcome only in the exact window |
| CheckpointStore.Store.RollForward | scripts/current_checkpoint_store.py:230-277 | after a commit every crash leaves a disk with the same recovery, again one `CutShort` describes |
| CheckpointStore.Store.PreservePrior | scripts/current_checkpoint_store.py:244-254 | the prior copy is rebuilt whole, or a crash leaves it absent, stale or a prefix, and nothing else changes |
| CheckpointStore.Store.StageIntent | scripts/current_checkpoint_store.py:287-304 | up to the intent rename nothing but partial NEXT and INTENT_NEXT is left; the rename leaves the full candidate and the whole intent |
| CheckpointStore.Store.Publish | scripts/current_checkpoint_store.py:279-305 | done means exactly the candidate is current over the recovered store; before the intent rename a crash changes no outcome (but for the import window), after it every recovery gives the candidate; over a settled store every crash point is a disk `CutShort` describes; refusal says which demand failed |
| CheckpointStore.Store.RemoveRun | scripts/current_checkpoint_store.py:320-326 | refused if and only if the lock, the admitted current, a readable run without an active writer, or its reconciliation to current is missing; a crash leaves part of the run and touches nothing else |
| CheckpointStore.Store.Reopen | scripts/current_checkpoint_store.py:180-229 | after any number of crashed recoveries one uninterrupted recovery succeeds whenever the first could have, with the first disk's outcome or, for an import, the empty store |
| CheckpointStore.Store.PublishThroughCrashes | scripts/current_checkpoint_store.py:279-305 | publish over a valid current, die anywhere, die again in any number of recoveries, recover: the store is settled on exactly the old or exactly the new checkpoint |
| PairTransaction.OpenResolves | scripts/build_geneforge_creature_parts.py:2704-2785 | an open transaction always resolves, both halves to one generation, with no operand and no marker left |
| PairTransaction.PhaseIsIrrelevant | scripts/build_geneforge_creature_parts.py:2704-2785 | recovery comes to the same result whatever phase text the marker holds |
| PairTransaction.MatchingIsIdentity | scripts/build_geneforge_creature_parts.py:2672-2696 | a tree or recipe that matches the recorded digests is that very generation |
| PairTransaction.RecoversExactly | scripts/build_geneforge_creature_parts.py:2704-2785 | on the contents of the places alone: recovery succeeds if and only if the fresher pair is live or each half of the prior one is live or in its backup; otherwise it refuses |
| PairTransaction.Workspace.Recover | scripts/build_geneforge_creature_parts.py:2704-2785 | recovery keeps a complete live pair or rolls both halves back; a crash inside leaves the transaction open or resolved, and in the order promotion works in does not change what recovery comes to |
| PairTransaction.Workspace.RollBack | scripts/build_geneforge_creature_parts.py:2744-2780 | the tree is put back before the recipe, from verified backups only, and a crash in between keeps a verified old pair |
| PairTransaction.Workspace.ClearOperands | scripts/build_geneforge_creature_parts.py:2782-2785 | the operands go before the marker; a crash never removes the marker early |
| PairTransaction.Workspace.Planned | scripts/build_geneforge_creature_parts.py:2824-2850 | the recorded generations are those of the live pair and of the pair to be promoted |
| PairTransaction.Workspace.WritePhase | scripts/build_geneforge_creature_parts.py:2699-2701 | a new phase text replaces the marker atomically or not at all |
| PairTransaction.Workspace.RecipeRenameDecides | scripts/build_geneforge_creature_parts.py:2851-2870 | after the recipe rename recovery keeps the new pair; before it, with the tree renamed, it keeps the new pair if and only if old and new recipe are the same bytes |
| PairTransaction.Workspace.PromoteSteps | scripts/build_geneforge_creature_parts.py:2851-2870 | at every step, crashed or raised, the disk resolves to all-old or all-new, decided by the recipe rename when the recipes differ; until the recipe rename a verified old tree and recipe exist live or in backup |
| PairTransaction.Workspace.Promote | scripts/build_geneforge_creature_parts.py:2788-2874 | without crash or fault it succeeds over every readable pair with a free backup place, and success is exactly the new pair; a step that raises is recovered at once, leaving no marker; without a marker ever written nothing but the rollback copy is touched, and with one written and gone all operands are gone |
| PairTransaction.Workspace.PromoteThroughCrashes | scripts/build_geneforge_creature_parts.py:2704-2874 | promote, fail anywhere, crash in any number of recoveries, recover: once the marker had been written all four operands and the marker are gone and both halves are old or both new, by the recipe rename when the recipes differ; otherwise only the rollback copy was touched |
| LedgerArchive.StreamHash | scripts/mixed_care_ledger.py:27-39 | the streaming hash is the hash of the whole prefix text |
| LedgerArchive.TextDetermines | scripts/mixed_care_ledger.py:27-39 | equal list texts, whatever follows them, are texts of equal run lists |
| LedgerArchive.HashIdentifiesHistory | scripts/mixed_care_ledger.py:27-39 | equal prefix hashes mean equal prefixes |
| LedgerArchive.SealedNeverChanges | scripts/mixed_care_ledger.py:142-153 | an accepted or abandoned attempt of any earlier ledger is still there unchanged |
| LedgerArchive.HistoriesOnlyGrow | scripts/mixed_care_ledger.py:135-162 | in any sequence of ledgers that each extend the one before, every later ledger keeps the runs, sealed attempts, identities and excluded seeds of every earlier one |
| LedgerArchive.KeptFurther | scripts/mixed_care_ledger.py:135-162 | keeping a history composes with one more permitted change, exclusions included |
| LedgerArchive.ExclusionsGrow | scripts/mixed_care_ledger.py:159-162 | the interval-inside-interval test holds exactly when every excluded seed stays excluded |
| LedgerArchive.ChainLength | scripts/mixed_care_ledger.py:184-215 | an accepted chain has exactly the declared number of runs |
| LedgerArchive.ChainSurvives | scripts/mixed_care_ledger.py:81-105 | publishing more files never changes what a chain holds |
| LedgerArchive.ReadSurvives | scripts/mixed_care_ledger.py:218-232 | publishing more files never changes what a ledger reads as |
| LedgerArchive.CheckManifest | scripts/mixed_care_ledger.py:165-181 | the checks on a manifest pass exactly for one of this origin whose head, count, backup and metadata agree and that has at most one current run |
| LedgerArchive.Walk | scripts/mixed_care_ledger.py:195-215 | the newest-first walk with its cycle guard ends and collects exactly the chain |
| LedgerArchive.KeptHistoriesExtend | scripts/mixed_care_ledger.py:135-153 | what passes the checks keeps the protected prefix and only extends the current run |
| LedgerArchive.KeptExactly | scripts/mixed_care_ledger.py:123-153 | with a current run the checks allow exactly the histories that extend the last run and keep the others; without one exactly those that add runs |
| LedgerArchive.ChainGrows | scripts/mixed_care_ledger.py:251-258 | with the new segments published, every new head leads to exactly the runs before it |
| LedgerArchive.WrittenReads | scripts/mixed_care_ledger.py:263-266 | the manifest that is encoded reads back as runs, metadata, head, count and backup it was written from |
| LedgerArchive.PublishedReads | scripts/mixed_care_ledger.py:235-271 | with segments and backup on disk the new manifest reads back as the whole state |
| LedgerArchive.State.Empty | scripts/mixed_care_ledger.py:109-121 | a new state's cached hash is that of the empty history |
| LedgerArchive.State.Admit | scripts/mixed_care_ledger.py:218-232 | a state that was read is bound to exactly what was read |
| LedgerArchive.State.BindHistory | scripts/mixed_care_ledger.py:123-132 | the cached prefix hash always equals the whole-prefix hash recomputed, also when it is reused |
| LedgerArchive.State.Commit | scripts/mixed_care_ledger.py:276-279 | after a write the state is what a read would build, cache included |
| LedgerArchive.State.AttemptsKept | scripts/mixed_care_ledger.py:145-153 | accepted exactly when every earlier attempt is kept, pending ones with their identity |
| LedgerArchive.State.AppendOnly | scripts/mixed_care_ledger.py:135-162 | from the cached hash and copies alone, accepts exactly the histories that keep the bound one and the metadata that extends it |
| LedgerArchive.Archive.Open | scripts/mixed_care_ledger.py:218-232 | a state exactly when the bytes on disk stand for a ledger, and then that ledger |
| LedgerArchive.Archive.Immutable | scripts/mixed_care_ledger.py:81-105 | a file is published under its content's name or found to be the same; refused if and only if that name holds something else |
| LedgerArchive.Archive.BuildSegments | scripts/mixed_care_ledger.py:249-258 | every run that stops being current becomes a segment on the previous head; refused only for an uncertain attempt or an oversize document |
| LedgerArchive.Archive.PublishSegments | scripts/mixed_care_ledger.py:270-271 | all new segments are on disk under their hashes, older files untouched |
| LedgerArchive.Archive.Check | scripts/mixed_care_ledger.py:235-250 | passes exactly for a state that belongs to this document and makes permitted changes |
| LedgerArchive.Archive.MakePlan | scripts/mixed_care_ledger.py:249-266 | every size and certainty check precedes publication, and nothing else is refused |
| LedgerArchive.Archive.PlanWrite | scripts/mixed_care_ledger.py:235-266 | everything before the first file is touched: a plan is refused only for a reason to refuse, and then only an occupied name can still block the write |
| LedgerArchive.Archive.Stage | scripts/mixed_care_ledger.py:237-274 | up to the manifest the ledger on disk reads as before; it refuses only if it must, and what it has prepared reads back as the new state |
| LedgerArchive.Archive.Write | scripts/mixed_care_ledger.py:235-279 | uninterrupted it refuses if and only if the state is not permitted, a run to archive is uncertain, a document is too large, or the name of one of its documents holds something else; otherwise the ledger on disk becomes exactly the state; a crash leaves the full old or the full new ledger; whatever was on disk is extended |
| LedgerArchive.Archive.Sessions | scripts/mixed_care_ledger.py:208-279 | any number of writers that read at any time, change their state in any way, write and crash: of all ledgers ever on disk each keeps everything of every one before it |
| SeedRanges.RangesOfCovers | scripts/grab_food_seed_reservations.py:53-68 | merging gives sorted, separated ranges that hold exactly the seeds of the given pairs |
| SeedRanges.CanonicalFormIsUnique | scripts/grab_food_seed_reservations.py:62-68 | a set of seeds has only one merged form |
| SeedRanges.MergingIsIdempotent | scripts/grab_food_seed_reservations.py:53-68 | merging a merged list gives it back |
| SeedRanges.Ranges | scripts/grab_food_seed_reservations.py:53-68 | the loop that widens the last interval computes the merged form, or refuses exactly the malformed lists |
| SeedRanges.BisectSplits | scripts/grab_food_seed_reservations.py:79-81 | the bisection splits a sorted list at the key |
| SeedRanges.ContainsIsMembership | scripts/grab_food_seed_reservations.py:79-81 | on merged ranges the binary search agrees with membership |
| SeedRanges.WithinIsInclusion | scripts/mixed_care_ledger.py:159-161 | every interval inside some interval, if and only if the set is included |
| SeedReservations.GatherReceipts | scripts/grab_food_seed_reservations.py:116-124 | every surviving receipt contributes its interval and assessment seed; one invalid receipt stops admission |
| SeedReservations.ReadHistory | scripts/grab_food_seed_reservations.py:90-99 | a history is taken up exactly when it is complete, of the admitted source and holds the source seed; its merged intervals come back |
| SeedReservations.ReadLedger | scripts/grab_food_seed_reservations.py:100-124 | a ledger is taken up exactly when every part and receipt of it is valid; the surviving receipts join its intervals and assessment seeds |
| SeedReservations.Prepare | scripts/grab_food_seed_reservations.py:84-134 | raises if and only if the request is not admissible: malformed, against an unfit history or ledger, beyond the bounds on entries, or colliding with a reserved or assessed seed; otherwise it gives the specified ledger |
| SeedReservations.PreparedExactly | scripts/grab_food_seed_reservations.py:84-134 | admission, on pairs and receipts: no requested seed is reserved or assessed, and no assessed seed is reserved |
| SeedReservations.PreparedIsCanonical | scripts/grab_food_seed_reservations.py:132-134 | a prepared ledger has merged intervals and strictly ascending assessment seeds |
| SeedReservations.KnownIsReserved | scripts/grab_food_seed_reservations.py:96-125 | the intervals tested are exactly the seeds reserved by history, ledger or any receipt |
| SeedReservations.PreparedReserves | scripts/grab_food_seed_reservations.py:125-134 | a prepared ledger reserves exactly the earlier seeds and the new ones, which were free; no assessment seed is a training seed |
| SeedReservations.NewReceiptApart | scripts/grab_food_seed_reservations.py:114-145 | a committed receipt collides with no earlier one, even if the top-level intervals had been lost |
| SeedReservations.StepKeepsApart | scripts/grab_food_seed_reservations.py:84-145 | each event keeps all allocations apart and drops no receipt |
| SeedReservations.RunsNeverCollide | scripts/grab_food_seed_reservations.py:84-145 | over every run, with any losses of the top-level lists, allocations stay pairwise disjoint and off every assessment seed |
| SeedReservations.ReservationsGrow | scripts/grab_food_seed_reservations.py:132-145 | without losses reserved training and assessment seeds never shrink |
| BatchSeeds.PlannedSeedsAreReserved | scripts/care_scenario_batches.py:62-70 | every seed of every block is in the reserved interval, legal and not excluded |
| BatchSeeds.ValidatePlan | scripts/care_scenario_batches.py:47-73 | accepts exactly the plans within every bound whose reserved seeds are legal and off the exclusions |
| BatchSeeds.SeedsAreDistinct | scripts/care_scenario_batches.py:167-179 | two places in the plan never share a seed |
| BatchSeeds.EverySeedHasAPlace | scripts/care_scenario_batches.py:67-70 | every reserved seed belongs to a block, so the blocks tile the interval |
| BatchSeeds.Inputs | scripts/care_scenario_batches.py:167-179 | the advancing cursor hands out exactly the planned seeds of the batch, per family and role |
| BatchSeeds.BatchTaskAt | scripts/care_scenario_batches.py:167-179 | the task at each position of a role's list is the planned seed of its family in the given order |
| BatchSeeds.CheckTasks | scripts/care_frontier_sampler.py:84-93 | the loop with its seen set accepts exactly the banks with bounded lists, known families and globally distinct seeds |
| BatchSeeds.DiscoveryIsApart | scripts/care_frontier_sampler.py:208-212 | no discovery seed is a pool or holdout seed, in whatever order the recipe lists its families |
| BatchSeeds.InputsAreAdmitted | scripts/care_scenario_batches.py:167-179 | a bank compiled from a valid plan, its families in any order, cannot fail the disjointness or pool-size checks |
| BatchSeeds.CompileLedger | scripts/llm_care_scenarios.py:65-74 | the ledger loop raises exactly unless the ledger covers the recipe's families, each with seeds, and lists them in the recipe's order |
| BatchSeeds.CompileBatch | scripts/llm_care_scenarios.py:63-77 | inputs, compilation and seed checks in a row: for a valid plan and any order of its families none of them raises, and discovery is disjoint from the bank |
| BatchLedger.ReadStages | scripts/care_scenario_batches.py:117-136 | returns the records exactly when every stage is complete and chained; otherwise no reading of the root is |
| BatchLedger.CheckRecords | scripts/care_scenario_batches.py:137-153 | accepts exactly a valid plan followed by its rounds in order, each dispatch naming the founder claim that is there |
| BatchLedger.Load | scripts/care_scenario_batches.py:117-153 | accepts exactly the roots that hold a plan and a chained prefix of its rounds, and returns those records; every dispatch names the founder claim, made for this plan |
| BatchLedger.HoldsOnce | scripts/care_scenario_batches.py:120-136 | a root holds at most one list of records |
| BatchLedger.PrefixIsLawful | scripts/care_scenario_batches.py:146-153 | a prefix of a lawful ledger is lawful |
| BatchLedger.NextIsLawful | scripts/care_scenario_batches.py:239-406 | what any operation appends is the only permitted kind, batch and difficulty, and stays within the planned batches |
| BatchRuns.StepKeeps | scripts/care_scenario_batches.py:102-114 | every file step of every process, crash or raise keeps the ledger orderly |
| BatchRuns.EveryRunIsOrderly | scripts/care_scenario_batches.py:102-406 | under every interleaving stages are made in order, all but the last are complete, one process at most owns the open one |
| BatchRuns.HistoryOnlyGrows | scripts/care_scenario_batches.py:109-114 | complete stages are never changed |
| BatchRuns.ClaimedAndDispatchedOnce | scripts/care_scenario_batches.py:302-339 | no stage is made twice and no batch is dispatched twice, in any run |
| BatchRuns.LoadedLedgersAreRounds | scripts/care_scenario_batches.py:117-153 | whatever any process loads in any run is a chained plan with its rounds, each batch starting from the difficulty the last one ended with |
| BatchRuns.DifficultyStaysOnTheLadder | scripts/care_scenario_batches.py:239-256 | over a whole run of batches the difficulty is on the declared ladder and moves at most one step per batch |
| BatchRuns.AbandonedForever | scripts/care_scenario_batches.py:102-126 | once a stage is abandoned incomplete no stage is claimed, written or sealed and no batch is dispatched again, and no load begun later succeeds |
| BatchRuns.LoadsExactlyWhenQuiet | scripts/care_scenario_batches.py:117-153 | in every reachable state load succeeds exactly when the last stage is complete and the founder claim is not half-written |
| BatchRuns.ListThenReadIsLoad | scripts/care_scenario_batches.py:117-153 | the two load steps of a process, with nothing in between, are `load` |
| BatchRuns.SomethingIsNext | scripts/care_scenario_batches.py:239-345 | an operation claims a stage exactly when there is a record it may append: the planned batches are not exhausted, and a dispatch has its founder |
| BatchRuns.OneProcessGoesOn | scripts/care_scenario_batches.py:102-153 | a process that finds the ledger quiet loads it, claims the next stage and seals any record that may come next |
| BatchRuns.QuietLedgersCanFinish | scripts/care_scenario_batches.py:239-406 | a ledger that has not been abandoned, whatever any processes did before, can be brought to the end of its plan by one process |
| TaskSelection.AdjustDifficulty | scripts/care_frontier_sampler.py:192-201 | raises exactly on impossible evidence; otherwise stays on the ladder and moves one step up exactly at three quarters successes, one step down exactly at one quarter, when three trials exist and there is room |
| TaskSelection.CheckLadder | scripts/care_frontier_sampler.py:81-83 | passes exactly when the declared difficulties are contiguous from zero and contain the current one |
| TaskSelection.MoreSuccessIsNeverEasier | scripts/care_frontier_sampler.py:192-201 | more successes on the same trials never give an easier batch |
| TaskSelection.OneRound | scripts/care_frontier_sampler.py:238-240 | one pass gives each family with tasks left one more pick, until the slots are full |
| TaskSelection.Baseline | scripts/care_frontier_sampler.py:234-240 | ends with exactly the requested slots, fronts of the family queues, picked round by round in the order of the families, no family two picks ahead of one that still has tasks |
| TaskSelection.FrontsAreFromThePool | scripts/care_frontier_sampler.py:235-240 | no task is picked more often than the pool holds it |
| TaskSelection.FrontierWeighs | scripts/care_frontier_sampler.py:223-230 | exactly the frontier families have a positive sampling weight, so the weighted draw never faces zero weights |
| TaskSelection.SortedIsInOrder | scripts/care_frontier_sampler.py:248 | the retention order is by difficulty, then seed |
| TaskSelection.DoseIsTheEasiestQuarter | scripts/care_frontier_sampler.py:244-249 | the retention dose is a quarter of the slots or all there is, and nothing left out is easier than anything kept |
| TaskSelection.PoolsAreApart | scripts/care_frontier_sampler.py:242-250 | retention and candidates share no task |
| TaskSelection.Draw | scripts/care_frontier_sampler.py:251-256 | whatever is drawn, the list fills up to the slots or the candidates run out, without repetition |
| TaskSelection.Adaptive | scripts/care_frontier_sampler.py:241-266 | whether the list is ready does not depend on the draws; when ready it has exactly the requested slots, the retention dose first and target-difficulty frontier tasks after it |
| TaskSelection.PicksAreDistinctAndHeldOut | scripts/care_frontier_sampler.py:84-93 | a list drawn from an admitted pool repeats no seed and contains no holdout |
| TaskSelection.Gather | scripts/care_frontier_sampler.py:204-218 | the loop over observations accepts exactly rows of known recipes, the declared dose, fresh seeds the bank does not use and one frozen source, and groups them as evidence per family |
| TaskSelection.NothingIsLost | scripts/care_frontier_sampler.py:209-218 | the trials of all families add up to the observations: every row counts for exactly one family |
| TaskSelection.EvidenceCounts | scripts/care_frontier_sampler.py:219-229 | a family's trials, survivals and successes are the numbers of its rows, of the surviving and of the nourished surviving ones |
| TaskSelection.TallyCounts | scripts/care_frontier_sampler.py:231-233 | the batch evidence counts exactly the rows whose recipe has the given difficulty |
| TaskSelection.AdaptiveIsFit | scripts/care_frontier_sampler.py:241-266 | ready if and only if the dose of solved easier tasks and the frontier tasks fill the slots; the dose is the easiest, in order, the rest are frontier tasks |
| TaskSelection.Select | scripts/care_frontier_sampler.py:204-266 | raises exactly on inadmissible observations; the target is the ladder step for the counts of the rows at the current difficulty and of the nourished survivals among them; baseline and adaptive list are what the rows call for, without repetition or holdouts, whatever the random choices |
| MapLayout.Seen | scripts/llm_care_scenarios.py:30-35 | the growing queue ends and its seen set is exactly the cells that can be walked to |
| MapLayout.CheckLayout | scripts/llm_care_scenarios.py:24-39 | a map is accepted exactly when it is valid and a chain of cardinally adjacent open cells joins learner and food |
| MapLayout.WalksGoBothWays | scripts/llm_care_scenarios.py:30-35 | reachability between open cells is symmetric |
| MeshComponents.HalvingKeepsRoot | scripts/derive_conifer_leader.py:25-29 | path halving keeps the links acyclic and every root |
| MeshComponents.LinkingMovesTree | scripts/derive_conifer_leader.py:34-35 | linking one root below another moves exactly its tree |
| MeshComponents.Find | scripts/derive_conifer_leader.py:25-29 | find ends, returns the root, and keeps every root while it rewrites the array |
| MeshComponents.Union | scripts/derive_conifer_leader.py:33-35 | joining two vertices merges exactly their two labels |
| MeshComponents.LabelsAreConnection | scripts/derive_conifer_leader.py:31-36 | sound labels that join every triangle are equal exactly on connected vertices |
| MeshComponents.JoinAll | scripts/derive_conifer_leader.py:31-35 | after all triangles the labels are sound and every triangle is joined |
| MeshComponents.Components | scripts/derive_conifer_leader.py:21-37 | the groups are exactly the connected components under shared triangles and coincident positions |
| MeshTopology.UsersExact | scripts/geneforge_blender_worker.py:771-780 | an edge lists exactly the faces with that side, once per side |
| MeshTopology.SidesMeet | scripts/geneforge_blender_worker.py:772-780 | two sides are one edge if and only if group, component and the unordered pair of ends agree |
| MeshTopology.UsesArePlaces | scripts/geneforge_blender_worker.py:772-780 | an edge is used as often as its unordered pair of ends occurs as a side of the same component |
| MeshTopology.TouchIsAdjacent | scripts/geneforge_blender_worker.py:783-786 | faces are neighbours if and only if two of their sides have the same ends in either order |
| MeshTopology.ConnectedFacesShareTheirKey | scripts/geneforge_blender_worker.py:803-807 | connected faces are of one group and component |
| MeshTopology.Search | scripts/geneforge_blender_worker.py:792-802 | the pending list ends and has collected exactly the faces connected to the first |
| MeshTopology.Pieces | scripts/geneforge_blender_worker.py:787-811 | the pieces counted are the classes of connected faces, in total and per identity; an error exactly when a piece has two identities |
| MeshTopology.LinkAll | scripts/geneforge_blender_worker.py:783-786 | the neighbour sets are exactly the faces with an edge in common |
| MeshTopology.CountEdges | scripts/geneforge_blender_worker.py:815-816 | boundary edges have one use and non-manifold edges more than two, counted with multiplicity |
| MeshTopology.Measure | scripts/geneforge_blender_worker.py:756-826 | every reported number is read off the triangles: pieces are classes of triangles with a side in common in either direction, boundary and non-manifold edges are sides that occur once or more than twice; the only errors are a triangle across components and an empty mesh |
| MeshParts.UsesOfPart | scripts/geneforge_blender_worker.py:771-780 | an edge is used within its own component exactly as often as in the mesh |
| MeshParts.ConnectedInPart | scripts/geneforge_blender_worker.py:783-802 | faces of a component are connected within it exactly when they are in the mesh |
| MeshParts.PiecesOfPart | scripts/geneforge_blender_worker.py:787-811 | measuring a component alone counts the pieces of the mesh that lie in it |
| MeshParts.EdgesAddUp | scripts/geneforge_blender_worker.py:812-826 | boundary and non-manifold counts are sums over the components |
| MeshParts.PiecesAddUp | scripts/geneforge_blender_worker.py:808-826 | connected counts per identity are sums over the components |
| MeshDecimation.UseSource | scripts/geneforge_blender_worker.py:1016-1032 | the comparison of metrics is the fallback rule |
| MeshDecimation.Repair | scripts/geneforge_blender_worker.py:1004-1035 | the repaired mesh is the choice of every component, in order |
| MeshDecimation.PartOfJoined | scripts/geneforge_blender_worker.py:1033-1035 | the repaired mesh has for each component exactly the faces chosen for it |
| MeshDecimation.ChoiceIsNoWorse | scripts/geneforge_blender_worker.py:1005-1035 | each choice is nonempty, has no more pieces and no more boundary than its source, and is non-manifold only as a non-manifold fallback |
| MeshDecimation.EdgesPass | scripts/geneforge_blender_worker.py:1043-1053 | the boundary check passes for every decimator output; non-manifold edges exist exactly when a component fell back to a non-manifold source |
| MeshDecimation.PiecesPass | scripts/geneforge_blender_worker.py:1047-1051 | the island counts pass for every decimator output |
| MeshDecimation.Judge | scripts/geneforge_blender_worker.py:1037-1053 | the five checks in order, as properties of the faces |
| MeshDecimation.Decimate | scripts/geneforge_blender_worker.py:1004-1054 | the verdict is not-reduced, non-manifold (exactly for a non-manifold fallback) or accepted; identity, island and boundary errors cannot occur |
| DetailGrid.NearerCellsDone | scripts/geneforge_blender_worker.py:848-857 | while the queue holds layers from some distance on, every nearer cell is done |
| DetailGrid.Flood | scripts/geneforge_blender_worker.py:848-858 | on a grid of any positive side the queue ends and every cell has the mean of an occupied cell at minimum Manhattan distance |
| DetailGrid.Accumulate | scripts/geneforge_blender_worker.py:830-839 | the arrays hold the sum and count of each cell; fallback geometry is refused |
| DetailGrid.CellIsNearest | scripts/geneforge_blender_worker.py:835-837 | each sample falls into the cell within half a cell of its coordinates, or at the border they lie beyond |
| DetailGrid.ComponentDetailGrid | scripts/geneforge_blender_worker.py:829-858 | a grid exactly for nonempty samples with UVs, each value the mean detail of a nearest occupied cell, for the source's side of 64 |
| TexelBins.WeightsReconstruct | scripts/geneforge_blender_worker.py:1171-1182 | the barycentric weights combine the corners to the point |
| TexelBins.ContainedIsBinned | scripts/build_geneforge_creature_parts.py:1133-1155 | a triangle that contains the texel centre is in the texel's bin |
| TexelBins.FillBins | scripts/build_geneforge_creature_parts.py:1131-1155 | every bin lists exactly the triangles whose boxes cover it, in order |
| TexelBins.Best | scripts/build_geneforge_creature_parts.py:1181-1189 | largest least weight, then lowest face, among candidates that have weights |
| TexelBins.BinnedIsBruteForce | scripts/build_geneforge_creature_parts.py:1175-1189 | when some triangle contains the centre, the best of the bin is the best of all same-group triangles |
| TexelBins.AgreeExactly | scripts/build_geneforge_creature_parts.py:1175-1189 | at a texel, bin and full search choose alike for every part of the triangles if and only if every triangle with weights there covers the texel |
| TexelBins.NearMissIsNotBinned | scripts/build_geneforge_creature_parts.py:1135-1142 | a concrete pair at texel (0, 0) of a 4 by 1 image: both have tolerated weights, the better one is not in the bin, the worse one is |
| TexelBins.SearchesDiffer | scripts/build_geneforge_creature_parts.py:1170-1199 | for any such pair the runs differ from a full search: alone the missed triangle is only the nearest, beside the worse one it is not chosen |
| TexelBins.SmallIsBinned | scripts/build_geneforge_creature_parts.py:1135-1150 | a triangle of at most half a texel with weights at the centre, even tolerated negative ones, is always in the bin |
| TexelBins.LargerIsMissed | scripts/build_geneforge_creature_parts.py:1135-1150 | above half a texel a non-degenerate triangle with weights at the centre exists that the bin misses |
| TexelBins.HalfATexel | scripts/build_geneforge_creature_parts.py:1135-1150 | where such triangles are not degenerate, all triangles up to a size are binned with their weights if and only if the size is at most half a texel |
| TexelBins.ChooseTriangle | scripts/build_geneforge_creature_parts.py:1166-1199 | the choice for a texel: the best of the bin, and the only best one, else the nearest of all; it is brute force's winner when the centre is contained or the triangles are at most half a texel wide and high |
| TerrainChunk.RingVisitsOnce | scripts/build_island_terrain.py:182 | the perimeter list steps between neighbours and repeats no vertex |
| TerrainChunk.RingVisitsAll | scripts/build_island_terrain.py:182 | the perimeter list reaches every boundary vertex |
| TerrainChunk.EdgeDeterminesSide | scripts/build_island_terrain.py:179-187 | a directed edge determines the triangle and side it is on |
| TerrainChunk.EdgeHasReverse | scripts/build_island_terrain.py:179-187 | every directed edge off the lower ring has its reverse |
| TerrainChunk.IndexIsOneToOne | scripts/build_island_terrain.py:181-185 | vertex numbers of grid and skirt never coincide |
| TerrainChunk.DirectedEdgesAreUnique | scripts/build_island_terrain.py:179-187 | in the list of faces no directed edge occurs twice |
| TerrainChunk.OnlyTheLowerRingIsOpen | scripts/build_island_terrain.py:179-187 | a directed edge of the list lacks its reverse exactly when it is a step of the lower skirt ring |
| TerrainChunk.TheLowerRingIsThere | scripts/build_island_terrain.py:186-187 | every step of the lower ring is in the list |
| TerrainChunk.EdgeIsRing | scripts/build_island_terrain.py:182 | the four ranges of vertex numbers are the walk around the perimeter |
| TerrainChunk.BuildChunk | scripts/build_island_terrain.py:178-187 | the loops build exactly the described perimeter, lower vertices and faces |
| TerrainChunk.ChunksMeet | scripts/build_island_terrain.py:168-172 | every chunk at every level of detail has at least two samples per axis, and its last sample is the first of the next chunk or the border: no gap |
| GlbContainer.Parse | scripts/finished_island_glb.py:11-30 | accepts exactly the containers with the right header and one JSON and one binary chunk in either order, nothing else, and returns their contents |
| GlbContainer.ParsedExactly | scripts/finished_island_glb.py:11-30 | the chunk loop accepts a document and binary if and only if the bytes are such a container of them |
| GlbContainer.ContainerParses | scripts/finished_island_glb.py:11-30 | a two-chunk container parses back into its chunks |
| GlbContainer.SaveParses | scripts/finished_island_glb.py:70-77 | parsing what was saved gives the document back, and the binary up to its padding |
| GlbContainer.ByteArray.SetRows | scripts/finished_island_glb.py:63-67 | with slice assignment's clipping and growth: rows read back and no byte outside them changes if and only if no row starts beyond what was reached; otherwise the result is too short to be read |
| GlbCompaction.FromUnorm16 | scripts/compact_glb_colors.py:30-34 | the byte is within 128 of the 16-bit value and exact on multiples of 257 |
| GlbCompaction.FromFloat | scripts/compact_glb_colors.py:23-28 | the byte is within a half of 255 times the colour |
| GlbCompaction.QuantisedIsNearest | scripts/compact_glb_colors.py:23-34 | the new byte is a nearest one to the old component on the scale of bytes, for both kinds of colour |
| GlbCompaction.ConvertibleExactly | scripts/compact_glb_colors.py:15-41 | one colour is converted if and only if it is RGB or RGBA of floats in 0..1 or normalized 16-bit, packed alone in a view inside the binary |
| GlbCompaction.SpreadAt | scripts/compact_glb_colors.py:35-39 | padding RGB to a stride of four keeps every component |
| GlbCompaction.ItsTurn | scripts/compact_glb_colors.py:15-41 | with views owned, each colour is handled as if it were alone, in any order |
| GlbCompaction.ReplaceAll | scripts/compact_glb_colors.py:12-41 | with views owned, raises exactly when some colour cannot be handled, and otherwise has handled all of them and nothing else |
| GlbCompaction.Pack | scripts/compact_glb_colors.py:44-51 | the views lie one after another on multiples of four, each with its payload, and every byte between them is zero |
| GlbCompaction.GeometryStays | scripts/compact_glb_colors.py:44-51 | every accessor that is not a wide colour reads the same rows from the packed bytes |
| GlbCompaction.ColoursRound | scripts/compact_glb_colors.py:23-41 | every wide colour reads as the rounded components of its old rows: no byte is closer to the old component |
| GlbCompaction.CompactColors | scripts/compact_glb_colors.py:7-59 | a rewritten file parses, is 4-aligned, in bounds and disjoint, a second run changes nothing, and with views owned geometry is kept and colours are rounded; unchanged exactly when all colours are bytes; with views owned it raises exactly for an unreadable file or an inconvertible colour, or when the result is too long to save |
| AncestryPack.UnpackedIsFramed | scripts/compare_cpu_care_rounds.py:238-252 | what the record loop returns is what the bytes are the framing of |
| AncestryPack.FramedIsUnpacked | scripts/compare_cpu_care_rounds.py:238-252 | every framing of admissible receipts is accepted and decoded |
| AncestryPack.PackExact | scripts/compare_cpu_care_rounds.py:236-252 | a pack is accepted with these receipts if and only if it is their encoding, their hashes new and distinct |
| AncestryPack.Unpack | scripts/compare_cpu_care_rounds.py:236-252 | the loop reads the pack without leaving the buffer and remembers exactly the hashes it met |
| AncestryManifest.AndTestsPowers | scripts/compare_cpu_care_rounds.py:213-214 | the bit test accepts exactly the powers of two |
| AncestryManifest.FallingIsBinary | scripts/compare_cpu_care_rounds.py:209-217 | sizes that pass are the binary expansion of their sum, and of no other number |
| AncestryManifest.BinaryFalls | scripts/compare_cpu_care_rounds.py:209-217 | every number below the limit has sizes that pass |
| AncestryManifest.Preflight | scripts/compare_cpu_care_rounds.py:204-227 | the loop arrives at the preflight total and the expected directory names, or refuses |
| AncestryManifest.PreflightFalls | scripts/compare_cpu_care_rounds.py:209-217 | passing the preflight means falling powers of two and at most 124 receipts |
| AncestryManifest.TotalsAgree | scripts/compare_cpu_care_rounds.py:222-252 | the receipt bytes read equal the total computed before any payload was read |
| AncestryManifest.ReadPayloads | scripts/compare_cpu_care_rounds.py:230-252 | the payload loop returns the receipts of all packs in order |
| AncestryManifest.EvidenceExact | scripts/compare_cpu_care_rounds.py:196-252 | a lineage is accepted with these receipts if and only if its manifest, sizes, hashes, directory and packs describe exactly them, within all bounds |
| AncestryManifest.PackedSeedEvidence | scripts/compare_cpu_care_rounds.py:196-253 | the whole procedure, preflight before payloads, computes that evidence |

## Left out

- Blender authoring, sculpting, rendering and export: foreign calls. The decimator's output is an arbitrary list of triangles.
- SHA-256, JSON text, PNG and CRC internals: abstract functions with injectivity or inverse laws.
- Symlink and reparse checks, path confinement of marker paths, process ids, `flock`, `fsync` and Windows calls: exclusive create, atomic rename and one lock holder are assumed; flushed data is durable.
- CheckpointStore.Store.Recover: the validator is deterministic and a candidate does not change while it is being published; input and output errors other than a crash inside recovery are not modelled.
- CheckpointStore.Store.RemoveRun: `rmtree` is modelled by its two files; other entries of a run directory are not part of this model.
- PairTransaction.Workspace.Promote: the marker's own temporary file and the file-by-file flushing of trees are left out; the recovery path checks of the marker are assumed to pass.
- LedgerArchive.Archive.Immutable: the `.publishing-` temporary file is left out; a file appears under its final name in one step.
- LedgerArchive.Archive.Open: snapshots read from another path, and the shared `verified` table of one admission, are not part of this model.
- LedgerArchive.Archive.Sessions: writers take turns, as the owner lock demands; the second look at the ledger's bytes just before the manifest is replaced guards against writers without that lock and is left out.
- SeedReservations.Prepare: the type checks on JSON values are settled by the model's types; the time stamp is part of the receipt's provenance.
- BatchRuns.StepKeeps: evidence re-verification inside `prepare` and `assess` (archives, evaluator pins, completed markers) can only make an operation raise and is covered by a process that stops; the load's listing and its reading are two steps, and reading the complete stages, which never change, is one.
- BatchRuns.ClaimedAndDispatchedOnce: a batch counts as dispatched when its stage is sealed, which is before the caller receives it.
- TaskSelection.Select: a family key and a frozen source enter as one text each, and the survival rate's exact value in the reported statistics is left out.
- MeshTopology.Measure: positions enter already rounded to nine decimals, and the nested groups enter as one list in sorted group order.
- MeshDecimation.Decimate: building the Blender mesh, UV sampling and the early return when the target is not smaller than the mesh are left out.
- MeshComponents.Components: `changed_normals` of the same script is floating-point vector work without a provable core.
- TexelBins.ChooseTriangle: the closest-point distance enters as a function; decoding the mask, the colour table and the projected record are left out.
- TerrainChunk.BuildChunk: vertex positions, colours and normals are copied unchanged and are not modelled.
- GlbContainer.ByteArray.SetRows: `struct.pack` of a row is its bytes; `transplant`, which composes these operations under identity checks, is not modelled.
- GlbCompaction.CompactColors: only the fields the script reads are named, the others are kept as an opaque rest; sparse accessors and extra buffers are not part of this model.
- AncestryManifest.PackedSeedEvidence: the JSON parsing of the receipts and of the manifest follows and precedes it; file types and the re-read length check are assumed.
- `exclusions`, `history_inputs`, schema validators, receipts and probes: each clause is settled by reading one branch.
- Subprocess running, signals, time-outs and the model endpoint: no logic beyond plumbing.
