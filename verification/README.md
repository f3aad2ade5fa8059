# FrostBuild model and proofs

A Dafny model of the algorithms of FrostBuild, with proofs of what they promise. It covers the incremental build
engine of `frost.py` (planner, scheduler, action cache, closures, state saving), the FastCDC 2020 chunker, the
table-driven POSIX `cksum`, the Windows argument quoting of the daemon launcher, the REAPI Merkle input tree, the
DeltaCDC client, the jobserver lease and the generated benchmark graphs.

`dafny verify dfyconfig.toml` checks the whole project.

## How it is organised

- **Graphs and schedules.** `Graph` states reachability, cycles and dependency-first orders with paths. `Traversals`
  proves the three worklists of `Workspace` and `topo_sort` against it. `Scheduler` is `execute_plan` as a step system
  over submissions and completions, for any interleaving, any number of workers and any choice among ready targets.
  `ListScheduling` puts it on a virtual clock. `Executor` and `Engine` are the loops of `execute_plan` and `run_build`
  as classes, proved to take only steps of that system; `StartOrder` says which target a free worker is given.
- **Content.** `SourceText` and `Actions` are semantic source text, action keys, the sandbox and `execute_action` over
  a cache and a content store. `Planner` is `build_plan`, the metadata catalog and predictive test selection, and
  `Impact` says what a plan comes to in paths, bytes and chains of dependencies. `Settling` says what a build leaves
  behind, `Incremental` compares whole histories of edits, builds and aborts with a recursive from-scratch build,
  `PartialBuilds` says what builds that leave something out promise, and `Manifests` what a manifest must satisfy;
  `Witnesses` (with `Letters`) holds the example builds. `Materialize` looks below values at inodes. `CasGc` is the
  byte-budget collection.
- **Kernels.** `Words` (with `Numbers`) gives Python-int `^`, `&` and `% 2**64` on naturals. `FastCdc`, `Cksum`,
  `ArgvQuoting`, `Merkle`, `Jobserver`, `FanIn` and `ScaleModel` stand on their own. DeltaCDC is split into
  `DeltaChunks`, `BaseSelection`, `DeltaTransfer`, `DeltaStore`, `DeltaTotals` and `DeltaRun`.

Two conventions hold throughout. A digest is a constructor around the bytes it names, so it never collides. What an
action renders is an arbitrary function of its JSON payload and the previews of its dependencies' outputs, so no result
depends on how outputs are printed.

## Where the code does not meet its promise

Each of these is a theorem about the code as it is.

- **Hard links.** README.md:217 promises copy materialisation; `materialize_blob` links first (frost.py:866), and the
  next `write_text` (frost.py:1081) rewrites the blob through the shared inode. `Materialize.LinkCorruptsBlob` is the
  run that ends with a blob holding other bytes than its name says. `Materialize.RunIntegrity` says exactly which runs
  keep the store intact, and `Materialize.CopyKeepsIntegrity` that the copying branch always does.
- **The catalog misses inputs.** Its source index lists primary sources only (frost.py:456-457). With a usable catalog a
  changed declared input selects nothing (`Planner.CatalogMissesDeclaredInput`); `Planner.CatalogClosureContained`
  states when catalog and graph agree, in both directions.
- **Partial and failed builds forget edits.** State is saved for every source whatever was built (frost.py:1291), so an
  edit that a build did not act on is never noticed again. `PartialBuilds.BuildUpToDateIff` and, for keep-going builds
  with failures, `Engine.FinishedUpToDateIff` give the exact condition: the workspace is up to date afterwards if and
  only if every existing output that was not built was clean before. `PartialBuilds.PartialBuildForgetsEdits` and
  `Engine.FailedBuildForgets` follow the stale output into an empty next plan, and `Witnesses.PartialBuildWitness` is a
  workspace on which it happens. The main theorem therefore needs successful full-scope builds.
- **Aborted builds forget the other way.** A build that raises has rewritten outputs and saves no state
  (frost.py:1265-1266), so when the sources it acted on are put back the stale outputs stay and the next plan is empty
  (`PartialBuilds.AbortForgets`; `Witnesses.AbortWitness` is an instance). Aborts are harmless as long as no source that
  differed from the saved state at the abort is back at its saved content when the next build starts; with that, the main
  theorem covers them.
- **Manifests are not checked for shared or generated files.** `_validate` (frost.py:232-241) lets two targets write one
  file, and one target's source be another's output. `Manifests.CleanBuildsExact` states exactly which manifests keep the
  promise, over all ways of printing and all histories: those with distinct outputs in which whoever reads a generated
  source depends, directly or not, on a reader of it that lists the writer among its dependencies. A dependency that only
  orders reader and writer is not enough, because repair looks at listed dependencies (`Manifests.UndeclaredBreaks`), and
  listing the writer oneself is not necessary (`Manifests.ChainNeedsReader`).
- **A cache hit bypasses the sandbox.** A hit returns before `sandbox_check` (frost.py:1021-1043), and the flag is not in
  the key. `Actions.ActionTransparency` says exactly when a hit and an uncached run agree, `Actions.SandboxBypass` makes
  them differ, and a cache filled in the sandbox alone never does (`Actions.ScreenedNext`).
- **The key leaves the kind open.** With a command of its own a target's kind is printed (frost.py:1068-1076) but is not
  in its key, so after changing it the old output counts as current (`Actions.KindEditKeepsKey`).
  `Actions.KeyAcrossManifests` says exactly what equal keys leave open across a manifest edit.
- **Predictive mode can drop a test.** In change-driven plans it drops only tests selected to repair a missing output
  (`Planner.DroppedWasRepair`). What is left is then not repaired (`Planner.PredictedIsRepaired`, both directions), so
  such a build never succeeds (`Incremental.PredictiveSuccessDropsNothing`): the flag turns it into a "missing dep output"
  error. A forced or first plan loses exactly the unchanged tests without dependencies, as soon as another test scores
  (`Planner.ForcedPlanDrops`, both directions, with `Planner.ForcedPlanDropsTest` as an instance).
- **Chunking can stall.** With `min_size` below 2 the boundary search can return zero, on which `chunk` would not
  advance (`FastCdc.ZeroBoundary`, both directions); whatever the tables hold, some seed does it on some input
  (`FastCdc.StallingSeed`). The shifted mask test equals the plain one exactly for masks without the top bit
  (`Words.ShiftedTest`).
- **Quoting the program name.** The launcher's comment promises a round trip for every argument (daemon.rs:45-47). The
  first argument follows its own rule, so the promise holds exactly when it has no quote and does not end in a backslash
  (`ArgvQuoting.QuotingRoundTrip`).
- **Fan-out one.** `_bench_fanin` only shrinks a level when the fan-out is at least two (`FanIn.GroupLayer`, both
  directions).

## Model

| member | source | states |
|---|---|---|
| Scheduler.StepInv | frost.py:1238-1275 | every submission, success and failure keeps: the five target sets apart, waiting sets exact, nothing started before its dependencies, completion order dependency-first |
| Scheduler.RunLimit | frost.py:1241-1244 | over every run no more than `jobs` actions are running |
| Scheduler.ScheduleIndependence | frost.py:1205-1289 | for every interleaving, worker count and policy, a finished keep-going run has the same completed, failed and skipped sets, given by paths to failing targets, and a dependency-first completion order |
| Scheduler.AcyclicPartition | frost.py:1286-1289 | on an acyclic selection the three sets are disjoint and cover it |
| Scheduler.MissingIffReachesCycle | frost.py:1286-1289 | with nothing failing, the targets reported missing are exactly those that can reach a cycle |
| Scheduler.NotStuck | frost.py:1240-1247 | an unfinished run with at least one worker always has a next event |
| ListScheduling.CriticalPathIsLongest | frost.py:1141-1157 | the largest priority is the weight of a heaviest dependency chain: an upper bound on all chains, and attained |
| ListScheduling.MemoScore | frost.py:1150-1155 | the memoised recursion only ever stores exact scores and returns with the target's score stored |
| ListScheduling.CriticalPathPriorities | frost.py:1141-1157 | every selected target gets the weight of its longest chain of users |
| ListScheduling.BatchContinues | frost.py:1248-1275 | of actions that end at one instant, each may be handled right after the one before, with no refill in between |
| ListScheduling.ListSchedulingBound | frost.py:1238-1275 | the greedy refill loop on m workers, however many actions end at one instant before the next refill, ends at T with T >= critical path, m*T >= work and m*T <= work + (m-1)*critical path |
| ListScheduling.TimedIsRun | frost.py:1238-1275 | a timed run is a run of the step system with a clock |
| ListScheduling.TimedCanFinish | frost.py:1238-1248 | every timed run can be continued to a finished one |
| StartOrder.CriticalPathFirstIsDue | frost.py:1213-1240 | over every run that follows the priorities, whatever is started has a chain of users at least as heavy as every chain of users of any other ready target, and the least name among the equally heavy |
| StartOrder.FifoIsQueue | frost.py:1213-1240 | without priorities targets are started exactly in the order in which they became ready |
| Traversals.ClosureVisitor.Visit | frost.py:267-271 | a visit adds only reachable targets and leaves every added target with all its dependencies seen |
| Traversals.TargetClosure | frost.py:264-274 | the result is the set of targets reachable from the roots |
| Traversals.ReverseClosure | frost.py:276-286 | the result is the set of targets that reach a root, given the graph's index of users, which a fresh catalog has too (frost.py:491-501) |
| Traversals.ClosureDuality | frost.py:264-286 | a target is in the reverse closure of another exactly when the other is in its closure |
| Traversals.TopoSort | frost.py:607-625 | an order comes back exactly when the induced subgraph is acyclic, and is then duplicate-free, complete and dependency-first; otherwise the reported target lies on a cycle |
| Traversals.RunCompletesIffSortable | frost.py:607-625 | the scheduler completes everything exactly when the subset can be sorted |
| SourceText.SemanticKeepsLines | frost.py:301-302 | the lines of the semantic text are exactly the source's lines that are not comments, in order |
| SourceText.UniversalKeepsLines | frost.py:1056 | reading a file as text changes no line and leaves no carriage return |
| SourceText.FailLine | frost.py:1045-1047 | every file with a line whose first word is `FAIL` makes its action fail |
| SourceText.CommentLineIsInvisible | frost.py:301-302 | inserting a whole comment line leaves the semantic text unchanged |
| Actions.KeyTells | frost.py:783-847 | equal action keys, even across manifests, mean the same target, toolchain, command, platform, directory and whitelisted variables, the same input paths, and the same file at every source, declared, recorded and dependency path |
| Actions.KeyEqualIff | frost.py:783-847 | in one workspace a target's keys are equal exactly when platform, directory, whitelisted variables, declared and recorded paths and all input files are; other variables do not matter |
| Actions.HitHasRun | frost.py:1009-1113 | in every history that starts with an empty cache, an action answered by the cache was run before: same target, surroundings, input paths and input files |
| Actions.OtherSurroundingsMiss | frost.py:783-847 | a cache filled only on another platform, in another directory or with a whitelisted variable set differently never answers |
| Actions.PrintedTells | frost.py:1068-1082 | two actions print the same exactly when target, kind, source path, toolchain, lines that are not comments and the dependencies' bytes by name agree; tests print PASS and builds BUILT |
| Actions.StatusIs | frost.py:1009-1113 | over any valid store: a source that asks to fail always fails, an undeclared read is refused in the sandbox unless the cache answers, a missing dependency output crashes, and none of these changes anything; otherwise exactly the output file changes, to what printing prescribes, and the store holds it |
| Actions.DeniedIff | frost.py:981-1006 | the sandbox objects exactly when a sandboxed target's source reads a path that is neither its source nor a declared, recorded or dependency path |
| Actions.KeyAcrossManifests | frost.py:1068-1076 | across a manifest edit, equal keys give equal payloads exactly when kind, source and the dependencies, in any order, with each one's bytes agree |
| Actions.KeyAndRowFixRun | frost.py:783-847 | when the manifests agree on a target's row, equal keys give equal outcomes |
| Actions.DefaultCommandFixesKind | frost.py:783-847 | without commands of their own, two targets have the same command line exactly when name, kind and source agree, so a key fixes all three |
| Actions.KindEditKeepsKey | frost.py:783-847 | with a command of its own, a changed kind keeps every key and changes the payload |
| Actions.ActionTransparency | frost.py:1009-1113 | one cached action leaves the store valid, and the files and success an uncached execution would exactly when the cache does not answer for an action the sandbox would deny |
| Actions.ScreenedNext | frost.py:989-1043 | actions run in the sandbox only ever cache what the sandbox lets pass |
| Actions.SandboxBypass | frost.py:1021-1043 | an action that the sandbox denies succeeds in it from the cache, once it has run outside |
| Actions.CacheTransparency | frost.py:859-921 | over every history of actions, edits, evictions and lost cache entries every blob hashes to its name and the files equal those of the cache-free history, if no sandboxed action follows one outside the sandbox or with recorded inputs |
| Actions.CommentEditSameRun | frost.py:1056-1082 | a comment edit does not change what an action writes |
| Actions.CommentEditStopsAtLeaf | frost.py:1017-1055 | after such an edit and a rerun no other target's key changes: early cutoff |
| CasGc.Collect | frost.py:891-911 | within budget afterwards; what went is the least recently used prefix, no more than needed; bytes before equal bytes after plus bytes removed |
| Planner.FreshCatalogAgrees | frost.py:429-501 | a catalog that is not stale has this workspace's reverse edges, and its changed targets are the users of the changed primary sources |
| Planner.RepairedIsLeast | frost.py:554-563 | the repaired selection is the least one containing the base and closed under dependencies whose output is missing |
| Planner.RepairSweep | frost.py:554-563 | one pass stays below every repaired selection, and reports no change exactly when the selection is already repaired |
| Planner.Repair | frost.py:554-563 | the fixpoint loop terminates with the least repaired selection |
| Planner.BuildPlan | frost.py:530-567 | the plan is the affected part of the root closure, filtered by kind and repaired |
| Impact.SourceChangedIff | frost.py:504-527 | a path counts as changed exactly when it is on the explicit list or, without one, some target reads it and its hash is not the saved one |
| Impact.ChangedIff | frost.py:504-543 | a target is changed exactly when its source, a declared input or a recorded one changed; with a usable catalog exactly when its source did |
| Impact.PlanIsExact | frost.py:530-567 | a plan affects exactly the requested targets that lead to a changed one, or all requested ones when forced or first; it selects exactly what is reached from the affected targets of the wanted kinds over missing outputs; it prunes the other requested ones of those kinds |
| Impact.ChangeIsNoticed | frost.py:504-553 | without a catalog, an unforced request for everything affects and selects every target above one that reads a path whose hash changed, recorded inputs included |
| Impact.RecordedHeaderIsNoticed | frost.py:383-397 | after an action recorded a depfile and the state was saved, editing a header it named selects the target and all above it |
| Impact.StaleIff | frost.py:400-480 | a catalog is usable exactly while toolchain, whitelist and every target's row are those it was written for, up to the order of dependencies |
| Planner.AffectedHasCause | frost.py:541-553 | an affected target changed itself or depends directly on an affected one |
| Planner.CatalogClosureContained | frost.py:483-501 | the catalog never affects more than the graph; the two agree exactly when every secondary user of a changed path depends on a primary one |
| Planner.CatalogPlanContained | frost.py:504-551 | whole plans: affected is contained, and the plans are equal when changed paths are used only as primary sources |
| Planner.PredictiveIsSafe | frost.py:577-604 | in every change-driven plan predictive mode keeps all affected tests and everything that is not a test |
| Planner.DroppedWasRepair | frost.py:577-604 | what it drops was selected only because its output was missing and a selected target reads it |
| Planner.PredictedIsRepaired | frost.py:577-604 | in a change-driven plan what predictive mode leaves holds every missing dependency exactly when it dropped nothing |
| Planner.ForcedPlanDrops | frost.py:577-604 | a forced or first plan loses exactly the unchanged tests without dependencies, once another selected test changed or has one |
| Planner.ForcedPlanDropsTest | frost.py:577-604 | a forced plan of two tests over unchanged sources from which predictive mode drops one |
| Planner.CatalogMissesDeclaredInput | frost.py:456-457 | a changed header selects its user without the catalog and nothing with it |
| Settling.RunSettles | frost.py:1009-1113 | along any dependency-first order, cached or not, that reads no generated source too early, every finished target holds the output a recursive build prescribes |
| Settling.OutputsIgnoreSchedule | frost.py:1205-1289 | of one selection, any two orders in which the same part completed leave the same files, with any cache settings |
| Incremental.FullScopeCovers | frost.py:504-604 | a full-scope plan, with or without the catalog and predictive mode, selects every target whose output may be out of date |
| Incremental.FullScopeReads | frost.py:504-604 | whatever part of a full-scope plan has run, no generated source was read too early |
| Settling.RunNeedsRepair | frost.py:1058-1066 | actions can only all succeed over a selection that holds every dependency whose output was missing |
| Incremental.PredictiveSuccessDropsNothing | frost.py:577-604 | a change-driven predictive build that succeeds has dropped nothing |
| Incremental.BuildIsClean | frost.py:1290-1291 | a successful build that covers what is dirty and reads no generated source too early leaves every existing output clean and the saved hashes consistent |
| Incremental.SuspectIff | frost.py:518-527 | a build that raises leaves in doubt exactly the sources of targets whose hash is not the saved one |
| Incremental.AbortKeepsInv | frost.py:1260-1266 | after a build that raised, every output that no changed source is below is what the saved state would have it be |
| Incremental.IncrementalEqualsClean | frost.py:504-567 | over every history of edits, output deletions, evictions, lost cache and lost state, aborted builds and successful full-scope builds, predictive ones included, after each build every existing output equals that of a from-scratch build, if no source changed at an abort was put back first |
| PartialBuilds.UpToDateAfterIff | frost.py:1290-1291 | after a saved run that read no generated source too early the workspace is up to date exactly when the existing outputs it did not build were clean before |
| PartialBuilds.BuildUpToDateIff | frost.py:1349-1372 | the same for the plan of any request, partial, explicit, forced or predictive |
| PartialBuilds.NothingChangedAfterBuild | frost.py:541-553 | right after the state was saved, an unforced plan selects nothing |
| PartialBuilds.PartialBuildForgetsEdits | frost.py:1290-1291 | a stale output that a partial request did not ask for stays stale, and the next plan is empty |
| PartialBuilds.AbortForgets | frost.py:1260-1266 | after an abort and with all sources put back the next plan is empty, and a rewritten output is clean exactly when the sources at the abort gave the same output as the saved ones |
| Witnesses.AbortWitness | frost.py:1260-1266 | two targets built, one edited and the other made to fail, a build that aborts, both edits taken back: the first output is stale and the next plan for everything is empty |
| Witnesses.PartialBuildWitness | frost.py:1290-1291 | two targets built, both edited, one built: the other is left out, keeps its old text, and the next plan for everything is empty |
| Manifests.CleanBuildsExact | frost.py:232-241 | for every acyclic manifest the loader accepts: every build of every history is clean, however actions print, exactly when outputs are distinct and every generated source has its writer declared |
| Manifests.SharedOutBreaks | frost.py:232-241 | any two targets with one output break the first build |
| Manifests.UndeclaredBreaks | frost.py:554-563 | any generated source without a declared writer breaks the build after the file is lost |
| Manifests.CyclicIsNeverBuilt | frost.py:1286-1289 | in a manifest with a cycle no full-scope build ever succeeds |
| Manifests.ChainNeedsReader | frost.py:554-563 | in a chain of three whose last target reads what the first writes, the writer is declared exactly when the middle one reads it too |
| Executor.SortedNames | frost.py:1213 | the names of a set in ascending order, each once |
| Executor.PopIndex | frost.py:1227-1230 | the front of the deque, or a ready target whose priority is the largest, with the least name among those |
| Executor.Release | frost.py:1271-1275 | the dependency sets shrink by the finished target and exactly the users with nothing left are pushed, in the order of their names |
| Executor.Run.Refill | frost.py:1241-1244 | submits until nothing is ready or every worker is busy, keeping the run a run of the step system that follows its policy |
| Executor.Run.Succeed | frost.py:1269-1275 | a success is a step of the system and appends to the completion order |
| Executor.Run.Fail | frost.py:1260-1267 | a failure is a step of the system and adds to the failed set |
| Executor.Run.Sweep | frost.py:1277-1285 | after the sweep the skipped set is exactly the strict dependents of failed targets |
| Engine.Engine.ExecuteAction | frost.py:1009-1113 | the method that updates files, cache and store does what the action function says |
| Engine.Engine.ExecutePlan | frost.py:1178-1310 | a plan that finishes has the prescribed three sets, the files of the fold over its completion order and saved state; one that raises has a real cause, leaves the files of the actions that ran and saves nothing; either way its events start nothing that is not due: heaviest remaining chain first, or first in first out |
| Engine.Engine.RunBuild | frost.py:1349-1399 | plan, predictive selection, dry run, execution and state together: it ends as `execute_plan` does, misses a dependency only when predictive mode dropped something, a successful full-scope build leaves every existing output as a clean build would and every selected output present, and a build that raises leaves only outputs above changed sources in doubt |
| Engine.SameResults | frost.py:1205-1291 | two finished plans of one selection from one start, with any workers, policy, cache setting and keep-going, both sandboxed or neither, have the same files and the same completed, failed and skipped sets, whatever failed |
| Engine.FinishedUpToDateIff | frost.py:1286-1291 | a finished plan, with failures or not, leaves the workspace up to date exactly when the outputs it did not rebuild were clean before |
| Engine.FailedBuildForgets | frost.py:1286-1291 | after failures an old output of a failed or skipped target stays, and the next plan is empty; outside the sandbox, with failing sources that no target writes, a clean build has no such output |
| Materialize.IntegrityStep | frost.py:859-888 | one disk operation keeps blobs intact exactly when it is not an in-place write of other bytes through a blob's inode |
| Materialize.RunIntegrity | frost.py:859-888 | a run keeps every blob intact at every point exactly when each of its writes is safe when it happens |
| Materialize.CopyRefinesValues | frost.py:869-888 | without links the inode model and the value model of files and store agree step by step |
| Materialize.ActionOnDisk | frost.py:1009-1113 | without links `execute_action` on values is what happens on disk: a hit is one copy, a run a write and a store, a failure nothing |
| Materialize.CopyKeepsIntegrity | frost.py:869-888 | without links every run keeps every blob intact |
| Materialize.LinkCorruptsBlob | frost.py:865-871 | the linking branch corrupts a blob, and a later restore returns the wrong bytes |
| Words.ShiftedStep | build-cache-delta/pkg/harness/fastcdc.py:62-63 | the first half of the two-byte step is twice the one-byte hash modulo 2^64 |
| Words.ShiftedTest | build-cache-delta/pkg/harness/fastcdc.py:45-65 | the shifted mask test agrees with the plain one on all hashes exactly when the mask lacks the top bit |
| Words.DigitwiseBits | build-cache-delta/pkg/harness/fastcdc.py:62-68 | every binary digit of `^` and `&` is that operation on the operands' digits |
| FastCdc.FastCdcChunker.TwoByteScan | build-cache-delta/pkg/harness/fastcdc.py:61-68 | one two-bytes-per-step loop returns what the one-byte scan returns, for every buffer, offset and length |
| FastCdc.FastCdcChunker.FindBoundary | build-cache-delta/pkg/harness/fastcdc.py:50-78 | the two-byte loops return the cut of the next row |
| FastCdc.BoundaryIsCut | build-cache-delta/pkg/harness/fastcdc.py:50-78 | for every setting and input, the chunk ends at the first byte from the minimum on at which the hash of the bytes since the minimum passes the strict mask before the average size, or the loose one from there on, and at the maximum or the end when there is none |
| FastCdc.RollIsWordSum | build-cache-delta/pkg/harness/fastcdc.py:61-76 | the hash is the sum of the seeded table words, each doubled once per later byte, modulo 2^64 |
| FastCdc.FastCdcChunker.Chunk | build-cache-delta/pkg/harness/fastcdc.py:80-86 | terminates with the span list of the one-byte form |
| FastCdc.ZeroBoundary | build-cache-delta/pkg/harness/fastcdc.py:50-78 | exactly when the search returns zero on a non-empty input |
| FastCdc.StallingSeed | build-cache-delta/pkg/harness/fastcdc.py:50-78 | for any tables and a minimum below two, the seed equal to the first byte's table word makes the search return zero |
| FastCdc.BoundaryBounds | build-cache-delta/pkg/harness/fastcdc.py:52-60 | below the minimum the rest is one chunk; above it the length lies between the minimum, rounded down to even as in the code, and the maximum |
| FastCdc.SpansTile | build-cache-delta/pkg/harness/fastcdc.py:80-86 | spans are contiguous and cover the data; every length but the last lies in [min rounded down to even, max], the last in [1, max] |
| FastCdc.SpansAreCuts | build-cache-delta/pkg/harness/fastcdc.py:80-86 | every chunk ends at the cut of the data from its start on |
| FastCdc.PrefixStability | build-cache-delta/pkg/harness/fastcdc.py:50-86 | appending bytes leaves every chunk that starts at least `max` before the old end unchanged |
| FastCdc.CutThenSuffix | build-cache-delta/pkg/harness/fastcdc.py:80-86 | once a chunk starts where a suffix starts, the remaining chunks are those of the suffix alone |
| FastCdc.Resynchronise | build-cache-delta/pkg/harness/fastcdc.py:80-86 | two inputs with a common suffix, both cut at its start, have the same later chunks up to a shift |
| FastCdc.WindowIs64Bytes | build-cache-delta/pkg/harness/fastcdc.py:61-76 | hashes started from any two states agree after the same 64 bytes |
| Cksum.DivideIsRemainder | scripts/frost_scale.py:205-214 | bit-at-a-time division leaves a remainder of the message polynomial modulo the generator |
| Cksum.RemainderUnique | scripts/frost_scale.py:205-228 | that remainder is unique |
| Cksum.RegisterStep | scripts/frost_scale.py:222-223 | one table step equals eight bit steps, on a register that runs 32 zero bits ahead |
| Cksum.CksumTable | scripts/frost_scale.py:205-213 | each entry is the remainder of its byte followed by 32 zero bits |
| Cksum.DividendIsNumber | scripts/frost_scale.py:219-228 | what is divided is the number written by the data and the length octets, times x^32 |
| Cksum.LengthIsLittleEndian | scripts/frost_scale.py:224-227 | the length octets are the length, least significant first, without leading zeros |
| Cksum.GeneratorTerms | scripts/frost_scale.py:205-213 | the generator is x^32 + x^26 + x^23 + x^22 + x^16 + x^12 + x^11 + x^10 + x^8 + x^7 + x^5 + x^4 + x^2 + x + 1 |
| Cksum.PosixCksum | scripts/frost_scale.py:219-228 | the result is the complement of the one remainder of data, minimal length octets and 32 zero bits, as the `cksum` utility of POSIX.1-2017 requires |
| ArgvQuoting.CommandLine | crates/frostbuild-cli/src/daemon.rs:48-74 | the loop prints the quoted form, and parsing it returns the arguments exactly under the condition of the next row |
| ArgvQuoting.EscapingRules | crates/frostbuild-cli/src/daemon.rs:56-72 | n backslashes are doubled before the closing quote, doubled plus one before a quote, and kept before anything else |
| ArgvQuoting.DocumentedRules | crates/frostbuild-cli/src/daemon.rs:43-45 | the parser the arguments go through follows the documented rules for backslashes, quotes, doubled quotes, blanks and tabs |
| ArgvQuoting.QuotingRoundTrip | crates/frostbuild-cli/src/daemon.rs:45-74 | for every list: parsing the line by the Microsoft C rules returns it exactly when it is not empty, no argument holds a NUL, and the first has no quote and no trailing backslash |
| ArgvQuoting.ReadQuoted | crates/frostbuild-cli/src/daemon.rs:58-72 | any later argument comes back: empty, blanks, quotes, backslash runs |
| ArgvQuoting.DaemonCommandLine | crates/frostbuild-cli/src/daemon.rs:48-75 | the daemon receives its five arguments intact exactly when the executable's path is plain, whatever the root is; for plain paths the line is the five arguments in quotes with single spaces and a NUL |
| Merkle.Collector.Visit | scripts/reapi_poc.py:55-71 | succeeds exactly for trees without links or special files; then returns the root digest and has added exactly the tree's contents |
| Merkle.MessageIsCanonical | scripts/reapi_poc.py:55-71 | a directory's message holds exactly its files and its directories, ascending by name, with their digests and executable bits |
| Merkle.CollectInputRoot | scripts/reapi_poc.py:47-73 | the blob map holds exactly the contents of the tree, each under its own digest |
| Merkle.BlobsAreClosed | scripts/reapi_poc.py:47-73 | every directory of the tree parses back from the map, and every digest it mentions is a key |
| Merkle.InputRootRebuilds | scripts/reapi_poc.py:47-73 | following digests from the root rebuilds the tree |
| Merkle.RootDigestIdentifies | scripts/reapi_poc.py:56-71 | two trees have the same root digest exactly when they are equal |
| Merkle.OutputFile | scripts/reapi_poc.py:175-198 | following digests down any path finds exactly the file the tree has there, and fails exactly when there is none or its data is not stored |
| DeltaChunks.FeaturesAreSmallest | build-cache-delta/pkg/harness/deltacdc.py:145-153 | a chunk's features are its smallest sub-chunk digests, at most eight, ascending |
| DeltaChunks.ChunkFacts | build-cache-delta/pkg/harness/deltacdc.py:337-349 | every chunk lies where its span does, is named by its bytes, and has as features hashes of the sub-chunks that start in it: all of them, or the eight smallest |
| DeltaChunks.ChunksCover | build-cache-delta/pkg/harness/deltacdc.py:337-349 | the chunks concatenate to the artifact and their lengths add up to its size |
| BaseSelection.BestIsFirstHighest | build-cache-delta/pkg/harness/deltacdc.py:515-549 | the running-best loop finds nothing exactly when nothing scores, and else the first element of highest score |
| BaseSelection.OverlapBase | build-cache-delta/pkg/harness/deltacdc.py:515-529 | the loop is that running best under byte-range overlap |
| BaseSelection.OverlapPicksMost | build-cache-delta/pkg/harness/deltacdc.py:515-529 | a positional base exists exactly when some chunk of the previous version shares a position with the target, and is the first to share the most |
| BaseSelection.SketchBase | build-cache-delta/pkg/harness/deltacdc.py:532-550 | voting over the index computes the running best under resemblance, in the dictionary's order |
| BaseSelection.SketchSearchesTheStore | build-cache-delta/pkg/harness/deltacdc.py:532-550 | asking the index equals searching the whole store: a base exists exactly when some stored chunk shares a feature, and no stored chunk has more shared features times the ratio of the smaller to the larger size, compared in whole numbers |
| DeltaTransfer.CandidatesMean | build-cache-delta/pkg/harness/deltacdc.py:414-426 | the positional and sketch selectors find a base exactly when something is shared, and the hybrid when either does, preferring the sketch |
| DeltaTransfer.BasesAreHeld | build-cache-delta/pkg/harness/deltacdc.py:414-426 | every selected base is a chunk the client holds, with the same bytes |
| DeltaTransfer.ReceiveAfterSend | build-cache-delta/pkg/harness/deltacdc.py:451-480 | a chunk arrives intact whatever base was chosen |
| DeltaTotals.ChargeAllEffect | build-cache-delta/pkg/harness/deltacdc.py:400-480 | over any residual chunks no plan pays more than sending them compressed, and selector counts add up |
| DeltaTotals.MissedIsExact | build-cache-delta/pkg/harness/deltacdc.py:355-480 | an artifact the client lacks adds exactly: its bytes raw and compressed, hits plus residual chunks equal to its chunks, the residual bytes, the smaller of whole-artifact delta and artifact, and per plan the sum over residual chunks of the smaller of delta and whole |
| DeltaStore.RecordsGrow | build-cache-delta/pkg/harness/deltacdc.py:484-492 | after an artifact the store holds exactly the chunks of all versions, each listed under exactly its features, and the previous versions are up to date |
| DeltaStore.ListFeatures | build-cache-delta/pkg/harness/deltacdc.py:488-490 | appending a new chunk under its features keeps index and store in agreement |
| DeltaRun.Measurement.Measure | build-cache-delta/pkg/harness/deltacdc.py:400-480 | one residual chunk adds the size of its message to every plan, each distinct delta measured once |
| DeltaRun.Measurement.Artifact | build-cache-delta/pkg/harness/deltacdc.py:331-492 | a hit only counts; a miss adds exactly what its residual chunks cost; either way the records and the order of the totals hold |
| DeltaRun.Measurement.Run | build-cache-delta/pkg/harness/deltacdc.py:331-492 | for every sequence of artifacts: cdc = residual bytes <= raw, each plan's total <= cdc+zstd, misses = distinct blobs, and store and index agree |
| DeltaRun.NextArtifactArrives | build-cache-delta/pkg/harness/deltacdc.py:1-39 | at any point of a run, under every plan, what the client holds plus the messages rebuild the next artifact |
| Jobserver.BorrowPipeTokens | frost.py:643-667 | borrows as many tokens as the limit and the pipe allow, none from an unreadable pipe, and takes exactly those out |
| Jobserver.FromEnvironment | frost.py:106-142 | a client's jobs are one plus what it borrowed, never more than requested; without a usable jobserver the whole request |
| Jobserver.JobserverLease.Close | frost.py:168-176 | all borrowed tokens go back unless the pipe cannot be written |
| Jobserver.StepInv | frost.py:643-667 | every step of every process keeps tokens accounted for and every lease within its bounds |
| Jobserver.TokensConserved | frost.py:106-182 | for every interleaving: tokens in the pipe plus borrowed plus lost stay at N-1, and running actions never exceed N-1 plus the live processes |
| Jobserver.TokensComeBack | frost.py:168-182 | once all leases are closed the server has all its tokens, if every write got through |
| Jobserver.NeverStarved | frost.py:123 | at any point of any interleaving a process with nothing running may start one action |
| Jobserver.BorrowIsRun | frost.py:643-667 | the borrowing loop is a run of single-token steps |
| FanIn.GroupLayer | scripts/frost_scale.py:303-306 | one layer reads the level below exactly once, in order, in groups within the width; it is shorter exactly when the width is at least two |
| FanIn.ScaleFanIn | scripts/frost_scale.py:290-309 | terminates for every child list and fan-out; the tree reads each child and each aggregator but the root exactly once, dependencies first, within the width |
| FanIn.BenchFanIn | frost_bench.py:3111-3129 | the same for the benchmark's builder, where a single child is its own root |
| FanIn.ExactlyOnePath | scripts/frost_scale.py:290-309 | every child and aggregator is reached from the root by exactly one path |
| FanIn.BenchGraphNodes | frost_bench.py:3055-3108 | in every generated graph names are distinct, dependencies precede users, fan-in is bounded and every node is reachable from `all` |
| ScaleModel.Rdeps | scripts/frost_scale.py:166-171 | a label is listed under another exactly when it depends on it |
| ScaleModel.AffectedActions | scripts/frost_scale.py:173-186 | the worklist counts the actions of exactly the targets that depend, directly or not, on a changed source |

## Left out

- Names, paths and labels: targets, entries and blobs are numbered in their sorted order; JSON, TOML and protobuf text
  is not printed. Formatted names (`f"{prefix}{layer}_{index:05d}"`) are constructors, so taken as distinct.
- Lists the code sorts (inputs in keys, dependencies in payloads and fingerprints) are multisets.
- The stat cache of `hash_files_cached` (reusing a hash while size and time stamps stay the same), clocks and journals.
  Duration estimates are given numbers, floats are reals.
- Threads: an action takes effect at completion, as one step. Sub-process commands, depfile parsing and the parsing of
  `READ` lines appear as given data (`depfiles`, the arbitrary `render` and `readLines`). The toolchain, with its
  compiler's digest, is one string; working directories are taken as already made relative to the workspace.
- Executor.Run.Refill: the selector's heap is a sequence searched for its least entry, so heap layout is not modelled.
- Engine.Engine.ExecutePlan: with `critical` it requires an acyclic selection, because `critical_path_priorities` has no
  cycle guard and would not return; the fifo policy has no such condition. Selections must not read a generated source
  too early (`Settling.WellRead`), and in the sandbox the cache must have been filled there (`Actions.Screened`);
  otherwise what fails depends on the schedule.
- Engine.Engine.RunBuild: asks for acyclic manifests with listed writers, which makes every selection well read; which
  blobs the collection at the end evicts is `CasGc`.
- Incremental.IncrementalEqualsClean: histories hold aborted builds and successful full-scope builds; partial and
  failed builds and explicit lists have their exact conditions in `PartialBuilds` and `Engine`. Edits during a build, of
  generated files by hand, and manifest edits between builds are outside (`Actions.KeyAcrossManifests` covers the keys).
- CasGc.Collect: another process deleting a blob between listing and unlinking is not modelled.
- FastCdc.FastCdcChunker.constructor: the mask and gear tables are parameters, masks lacking the top bit, since
  `fastcdc_params.json` is not part of this model.
- Cksum.PosixCksum: the decimal line it prints is left as the pair of numbers.
- ArgvQuoting.DaemonCommandLine: `CreateProcessW` itself, and decoding of UTF-16 pairs.
- Merkle.OutputFile: the component path and file name are parameters, and the directory tree the server returned is
  assumed to describe some tree; transport errors are left out.
- DeltaRun.Measurement.Artifact: CPU times, per-chunk report rows and the randomly sampled oracle selector.
- Jobserver.JobserverLease.Close: a lease is closed once, as `with` does; closing one twice would return its tokens
  twice. Partial writes to a full pipe and the parsing of `MAKEFLAGS` are left out.
- FanIn.BenchGraphNodes: sizes of at least one; for size zero the source fails or emits a null dependency. Sources,
  directories and output paths of nodes are left out.
- Shared and remote caches, the Ninja importer, the simulator, the Rust engine crates and all reporting.
