# Verified model of GRPM's stateful core

GRPM is a package manager for Gentoo written in Go. This project models, in Dafny, the parts of it
that keep state or reorder work, and proves what they do on every input, in every run and under
every interleaving: the parallel build scheduler, the sequential build order, the LRU metadata
cache, the edit distance behind command suggestions, the two eclass loaders, the job queue with its
conflict detector, the XPAK metadata block of TBZ2 packages, and the merge of package.use entries.

`dafny verify dfyconfig.toml` checks the whole project.

## How it is laid out

Where the Go code works by changing things step by step, the model is a class or a method with
loops, proved against a function on values; the laws are then lemmas about those functions.
Goroutines are a transition system: one event is one critical section or channel operation of one
goroutine, and a run is any feasible sequence of events. Ranges over Go maps take an arbitrary
element each time, so nothing proved depends on their order.

| files | subject |
|---|---|
| `digraph.dfy`, `kahn.dfy`, `ordering.dfy`, `wrappers.dfy` | finite graphs and cycles, the bookkeeping both uses of Kahn's algorithm share, sorting |
| `task_graph.dfy` | tasks, dependencies and the cycle check of the scheduler |
| `scheduler_protocol.dfy` and the other `scheduler_*.dfy` | the running scheduler: events, safety, exactly-once, finiteness, endings, the failure modes, the verdict, when it returns, and the runs that go wrong |
| `emerge_graph.dfy`, `emerge_order.dfy`, `emerge_rules.dfy` | the sequential build order, and which dependencies decide it |
| `memory_cache.dfy`, `lru_*.dfy` | the metadata cache, its runs, inclusion and history, and what its keys tell apart |
| `edit_distance.dfy`, `suggest.dfy` | Levenshtein distance and suggestions |
| `eclass_registry.dfy`, `eclass_dynamic.dfy`, `eclass_postorder.dfy`, `eclass_inheritance.dfy` | the two eclass loaders |
| `package_names.dfy`, `conflict_detector.dfy`, `job_queue.dfy`, `job_runs.dfy` | job admission and the job queue |
| `xpak.dfy`, `xpak_layout.dfy`, `xpak_panics.dfy`, `xpak_writer.dfy`, `xpak_samples.dfy` | the XPAK parser, its layout, its panics, the writer, and samples byte by byte |
| `package_atom.dfy`, `package_use.dfy`, `package_use_rule.dfy`, `package_forms.dfy` | package atoms, the package.use merge, and the precedence of the forms of atoms |

## What turned out not to hold

Each is stated as a lemma, with the exact condition.

- **A build can succeed and still be lost.** The seeding loop sets every task to Waiting
  (internal/daemon/scheduler.go:638-650) while the collector already releases tasks. If it
  overwrites Completed before the collector has read it, that build never enters `completedSet`,
  and neither does anything that needs it. In a run to the end in which all builds succeed and
  nobody interrupts, on a graph without cycles that sends once (see below), what is missing is
  exactly what was dropped or overwritten and what needs it (`EndOfHealthyRun`). All such runs of
  such a graph complete everything exactly if no task has a dependency (`AlwaysCompletesExactly`).
- **The collector may wait forever, also when nothing failed.** It counts tasks that are never
  reported. On a graph that sends once, a run to the end that nobody interrupts lets it return
  exactly if every task had all its dependencies recorded and was not dropped (`EndOfRun`). So
  every such run lets it return exactly if no task has a dependency, cycles or not
  (`AlwaysReturnsExactly`): a failed build (`WaitsForever`) or a lost one keeps the tasks above it
  from being sent. When all builds succeed and the graph has no cycle, it returns exactly if
  nothing was dropped and no overwritten task has a dependent (`EndOfHealthyRun`). A lost build
  with a dependent thus makes it wait forever, and one without lets it return nil
  (`LostCompletion`). If no more than twice as many tasks as workers are independent of each other,
  all these runs let it return exactly if no task with a dependency has a dependent
  (`NarrowReturnsExactly`).
- **A failed build can go unnoticed.** The seeding loop overwrites Failed as it does Completed. If it
  does before the collector has read it, the scheduler returns nil although a build failed
  (`FailureHidden`). In a run that nobody interrupts, on a graph that sends once, nil means that all
  tasks were built exactly if this did not happen (`VerdictIsRight`); it does not if the loop is
  through before the first task is recorded (`SeedFirstHidesNothing`). An error always names a task
  that was started and did not succeed.
- **After an interrupt Start may wait forever** for a worker whose result nobody receives: some run
  does as soon as more than twice as many tasks as workers have no dependencies (`WideStartHangs`).
  On a graph that sends once and in which no more than twice as many tasks as workers are
  independent, it returns exactly if the collector does (`NarrowStartReturns`). For tasks without
  dependencies the two meet (`FlatHangsExactly`).
- **A task can be sent twice** when an edge to it was added twice. A graph *sends once* if such an
  edge is never to a dependency that can be the last one completed. This is exact: of a graph
  without cycles, no run with any number of workers sends a task twice exactly if it sends once
  (`SendsOnceExactly`).
- **The edit distance counts bytes against the empty string** (internal/cli/suggest.go:72-122), so
  it is not always the least number of edits (`DistanceIsExact` says when it is) and not always a
  metric (`DistanceTriangle` says when the triangle inequality holds).
- **The recency list can repeat a key** when another call runs between the two critical sections
  of `Get` (`OrderCanRepeat`). It lists the stored keys, each once, at all times exactly if every
  touch finds its key (`ListedExactly`), and repeats none exactly if no Put stores a key that a late
  touch left listed (`RepeatsExactly`). The bound on the number of entries survives in any case
  (`AlwaysWithinBounds`).
- **Invalidating a package of the cache removes more**, namely the older entries of every package
  whose name begins with its name and a hyphen (`LongerNamesLeave`).
- **Submitting an ended job again can break the disjointness of active jobs**
  (`ResubmissionBreaksIt`): while it waits it counts as ended. In any run, active jobs are disjoint
  at all times exactly if no worker takes an ended job that overlaps an active one
  (`ActiveJobsApartExactly`), and whenever an ended job is accepted again the run can go on to an
  overlap (`AcceptedAgainMeets`). A job refused because the queue is full stays Pending and blocks
  its packages until it is cancelled (`StrandedBlocks`).
- **Cancelling a running job frees its packages while its function still runs**
  (`CancelledJobStillExecutes`). In a run that submits no ended job again, two functions are never at
  work on one package exactly if no worker begins a job that overlaps a cancelled one still being
  executed (`ExecutedJobsApartExactly`).
- **The XPAK writer and parser disagree** on the order of offset and length and on whether the
  length in the footer counts the footer, so the parser refuses everything the writer writes
  (`WrittenIsNeverParsed`). With the footer corrected it reads the block, but gets the map back
  exactly if every value is empty (`FooterAloneIsNotEnough`). The writer's comment promises sorted
  keys, but the bytes depend on the order in which the map yields them (`DifferentOrdersShow`).
- **The XPAK parser can panic** on lengths or records whose 32-bit sums wrap around
  (`FooterPanics`, `RecordPanics`), exactly as `PanicsExactly` says.
- **Ties in package.use go to the earlier entry**, although the comment at
  internal/config/config.go:651-653 says that later entries of the same specificity override
  (`SecondDoesNotOverride` is the plainest case). The last one decides exactly if its last word is
  that of the first (`LastDecidesExactly`).

The resolver labels a slotted package `name:slot`, so the base name that the conflict detector
compares keeps the slot; the model compares base names as the code computes them.

## Model

| member | source | states |
|---|---|---|
| `TaskGraph.BuildScheduler.AddTask` | internal/daemon/scheduler.go:281-295 | refused while running or for a known ID, leaving the tasks alone; otherwise it is stored under its ID; a fresh task keeps both ends of all edges in agreement |
| `TaskGraph.BuildScheduler.AddDependency` | internal/daemon/scheduler.go:309-332 | the three error cases change nothing; otherwise one more edge is recorded on both ends, also for repeated edges and self-edges, and the ends stay mirror images |
| `TaskGraph.BuildScheduler.CountDependencies` | internal/daemon/scheduler.go:464-475 | in-degrees count repeated dependencies |
| `TaskGraph.BuildScheduler.EmitAll` | internal/daemon/scheduler.go:463-499 | the main loop emits, each once and after its dependencies, exactly the tasks that neither lie on a cycle nor depend on one |
| `TaskGraph.BuildScheduler.TopologicalSort` | internal/daemon/scheduler.go:455-507 | succeeds if and only if the dependency graph has no cycle, and then returns a permutation of the tasks with every dependency before its dependents |
| `Kahn.MirrorAddEdge` | internal/daemon/scheduler.go:327-329 | adding one edge on both ends keeps the two records of the graph equal, multiplicities included |
| `Kahn.Decrement` | internal/daemon/scheduler.go:489-497 | decrementing one dependent, repeated edges included, keeps the relation between in-degrees, remaining edges, queue and result |
| `Kahn.Drained` | internal/daemon/scheduler.go:482-499 | when the queue is empty, a task was emitted exactly if it needs no cycle, and the list is in dependency order |
| `Kahn.LengthTest` | internal/daemon/scheduler.go:501-504 | comparing lengths decides the existence of a cycle, in both directions |
| `SchedulerProtocol.GraphGivesConfig` | internal/daemon/scheduler.go:309-332 | the graph as recorded is what the running scheduler sees; it has repeated dependents exactly if some edge was added twice, and sends once if none was |
| `SchedulerSafety.AlwaysSafe` | internal/daemon/scheduler.go:510-700 | the safety invariants hold after every feasible run: tasks in channels and workers add up to the sends, whatever was sent has its dependencies recorded, only successful builds are recorded |
| `SchedulerSafety.StartsAfterDependencies` | internal/daemon/scheduler.go:510-538 | in any interleaving with failures, cancellation and drops, a build about to start has all direct and transitive dependencies built and in completedSet |
| `SchedulerSafety.NothingStartsBelowAFailure` | internal/daemon/scheduler.go:583-687 | no direct or indirect dependent of a task without a successful build is ever started |
| `SchedulerSafety.CompletionOrder` | internal/daemon/scheduler.go:608-612 | completedSet is duplicate-free, in dependency order by insertion, hence dependency-closed, and holds only tasks that were built |
| `SchedulerSafety.CompletedIsClosed` | internal/daemon/scheduler.go:677-687 | whatever a completed task depends on, over any path, is completed |
| `SchedulerSafety.NoSendAfterClose` | internal/daemon/scheduler.go:380-384 | no goroutine can send on readyQueue after it was closed |
| `SchedulerVerdict.ChannelsNeverOverflow` | internal/daemon/scheduler.go:272-273 | after any run neither channel holds more than twice as many tasks as there are workers |
| `SchedulerModes.NoneStartedAfterFailure` | internal/daemon/scheduler.go:520-525 | in stop mode, from the moment the collector has noticed a failure, no build is started any more but by workers that had passed the check |
| `SchedulerModes.SkippedIsCanceled` | internal/daemon/scheduler.go:520-525 | such a task, if no worker had passed the check with it and the seeding loop had come to it, is Canceled when it is reported, and was not started since |
| `SchedulerModes.ReportedWasStarted` | internal/daemon/scheduler.go:519-538 | in continue mode, and in stop mode before a failure is noticed, every report is that of a build that was started |
| `SchedulerModes.NothingCanceled` | internal/daemon/scheduler.go:600-606 | in continue mode, and before a failure is noticed, no task is Canceled unless there was an interrupt |
| `SchedulerModes.FailureEndsWaiting` | internal/daemon/scheduler.go:600-606 | in stop mode, once the first failure has been dealt with, no task that the seeding loop had come to is Pending or Waiting, then and ever after |
| `SchedulerModes.InterruptedIsCanceled` | internal/daemon/scheduler.go:561-570 | a task not over when the interrupt comes, and that the seeding loop had come to, never counts as built, and is Canceled when it is reported |
| `SchedulerOnce.ExactlyOnce` | internal/daemon/scheduler.go:583-687 | on a graph that sends once, every task is sent, started and reported at most once in any interleaving, and pendingCount is the number of tasks not reported |
| `SchedulerRepeats.SendsOnceExactly` | internal/daemon/scheduler.go:677-700 | of an acyclic graph, no run with any number of workers sends a task twice if and only if no edge was added twice to a dependency that none of the other dependencies of the task needs |
| `SchedulerRepeats.SomeRunSendsTwice` | internal/daemon/scheduler.go:677-700 | with two workers and room for all tasks, any other acyclic graph has a run with successful builds that sends a task twice |
| `SchedulerOnce.OpenAreIndependent` | internal/daemon/scheduler.go:583-700 | tasks that can be sent or were, and are not reported, never depend on each other |
| `SchedulerOnce.NoDropWhenNarrow` | internal/daemon/scheduler.go:664-671 | on a graph that sends once and in which no more than twice as many tasks as workers are independent, the drop branch is never enabled |
| `SchedulerOnce.SmallIsNarrow` | internal/daemon/scheduler.go:272-273 | a graph with no more than twice as many tasks as workers is of this kind |
| `SchedulerRank.RankDecreases` | internal/daemon/scheduler.go:510-700 | every event of every goroutine lowers a natural-number rank, whatever the graph |
| `SchedulerRank.RunsAreFinite` | internal/daemon/scheduler.go:336-386 | every run ends after at most (3n + 7k + 13)n + workers + 3 events, where k is the length of the longest list of dependents, repeated edges included, whatever fails, is canceled or dropped |
| `SchedulerOutcome.AllQuiet` | internal/daemon/scheduler.go:583-635 | when nobody can move and the collector has not returned, everything sent was reported and the seeding loop is through |
| `SchedulerOutcome.CollectorNext` | internal/daemon/scheduler.go:583-700 | the collector always has a step to take unless it returned or waits for a result |
| `SchedulerEndings.EndOfRun` | internal/daemon/scheduler.go:583-635 | at the end of any uninterrupted run on a graph that sends once, whatever failed or was lost: completedSet is the set of successful builds less the overwritten ones, the tasks reported are those not dropped whose dependencies are in it, and the collector has returned exactly if that is all of them, with the first failure or nil |
| `SchedulerEndings.EndOfHealthyRun` | internal/daemon/scheduler.go:583-700 | if moreover all builds succeed and there is no cycle: a task is completed if and only if neither it nor anything it needs was dropped or overwritten, and the collector has returned if and only if nothing was dropped and no overwritten task has a dependent |
| `SchedulerEndings.CompletesUnlessLost` | internal/daemon/scheduler.go:336-386 | in particular, such a run completes every task if and only if nothing was dropped and no status overwritten; then collectResults returns nil |
| `SchedulerVerdict.VerdictIsRight` | internal/daemon/scheduler.go:592-635 | at the end of any uninterrupted run on a graph that sends once: an error names a task that was started and not built; without one, all tasks were built if and only if the seeding loop never overwrote the status Failed |
| `SchedulerVerdict.SeedFirstHidesNothing` | internal/daemon/scheduler.go:638-650 | it never does in a run that ranges over all tasks before the first one is recorded, nor in any run of tasks without dependencies |
| `SchedulerVerdict.FailureHidden` | internal/daemon/scheduler.go:638-650 | a run of two tasks in which the second build fails and the collector returns nil |
| `SchedulerEndings.NothingOverwritten` | internal/daemon/scheduler.go:638-650 | on a graph that sends once, without failures and interrupts: if the seeding loop has ranged over all tasks before the first one is recorded, no status is overwritten |
| `SchedulerEndings.NothingDropped` | internal/daemon/scheduler.go:664-671 | on a graph that sends once and in which no more than twice as many tasks as workers are independent, nothing is ever dropped, in runs of any kind |
| `SchedulerEndings.NarrowRunsComplete` | internal/daemon/scheduler.go:336-386 | on such a graph, if it has no cycle, a maximal run with successful builds that ranges over all tasks first completes them all and returns nil |
| `SchedulerRuns.MaximalRunExists` | internal/daemon/scheduler.go:336-386 | every run goes on to one in which nobody can move, healthy or uninterrupted if it was so itself |
| `SchedulerRuns.LostCompletion` | internal/daemon/scheduler.go:638-650 | a run of two tasks and one worker in which both builds succeed, the scheduler returns nil, and the second task is not in completedSet |
| `SchedulerRuns.WaitsForever` | internal/daemon/scheduler.go:583-635 | an uninterrupted run of the same two tasks in which the first fails and then nobody can move, while the collector still waits for results |
| `SchedulerRuns.StuckWorkers` | internal/daemon/scheduler.go:380-384 | when nobody can move and readyQueue is closed, every worker has left or holds a result for a full channel |
| `SchedulerRuns.SeedFirstRunExists` | internal/daemon/scheduler.go:638-660 | every graph that sends once and in which no more than twice as many tasks as workers are independent has a maximal run with successful builds that ranges over all tasks first |
| `SchedulerRuns.NarrowStartReturns` | internal/daemon/scheduler.go:336-386 | on a graph that sends once and in which no more than twice as many tasks as workers are independent, at the end of a run of any kind all workers have left and Start returns if and only if the collector has returned |
| `SchedulerRuns.WideStartHangs` | internal/daemon/scheduler.go:380-384 | with more than twice as many tasks without dependencies as workers, there is a run to the end after which the collector has returned and Start never does |
| `SchedulerRuns.FlatHangsExactly` | internal/daemon/scheduler.go:336-386 | of tasks without dependencies: such a run exists if and only if there are more than twice as many tasks as workers |
| `SchedulerRuns.InterruptAbandons` | internal/daemon/scheduler.go:510-518 | there is a run that seeds its tasks and is interrupted before any worker takes one, after which Start returns with nothing started |
| `SchedulerLosses.SomeRunLosesThis` | internal/daemon/scheduler.go:638-687 | for any task all of whose dependencies have none, there is a maximal run with successful builds in which it is overwritten, or some task is dropped |
| `SchedulerLosses.SomeRunLoses` | internal/daemon/scheduler.go:638-687 | in any acyclic graph that sends once and has a dependency, some maximal run with successful builds does not complete every task |
| `SchedulerLosses.AlwaysCompletesExactly` | internal/daemon/scheduler.go:336-386 | on an acyclic graph that sends once, every maximal run with successful builds and no interrupt completes every task if and only if no task has a dependency |
| `SchedulerReturns.AlwaysReturnsExactly` | internal/daemon/scheduler.go:583-635 | on a graph that sends once, with cycles or without, the collector returns at the end of every uninterrupted run if and only if no task has a dependency |
| `SchedulerReturns.SomeHealthyRunWaits` | internal/daemon/scheduler.go:583-687 | if some task with a dependency has a dependent, on an acyclic graph that sends once, there is a run to the end in which every build succeeds and the collector waits forever |
| `SchedulerReturns.NarrowReturnsExactly` | internal/daemon/scheduler.go:583-687 | on an acyclic graph that sends once and in which no more than twice as many tasks as workers are independent, the collector returns at the end of every run with successful builds and no interrupt if and only if no task with a dependency has a dependent |
| `EmergeGraph.EdgesMean` | internal/cli/emerge.go:532-547 | an edge exists exactly if the other package satisfies some dependency that is merged first |
| `EmergeGraph.AddPackage` | internal/cli/emerge.go:531-547 | the edges of one package are added to both maps, keeping in-degrees and edge lists mirror images |
| `EmergeGraph.BuildDepEdges` | internal/cli/emerge.go:519-549 | in-degrees and edge lists are two records of the slot-filtered graph without PDEPEND, repeated edges counted |
| `EmergeOrder.Emit` | internal/cli/emerge.go:563-576 | the sorted queue always yields the least ready package, and exactly the packages that need no cycle are emitted |
| `EmergeOrder.Remaining` | internal/cli/emerge.go:579-591 | the packages left over, in ascending order of name and slot |
| `EmergeOrder.TopologicalSort` | internal/cli/emerge.go:551-594 | the result is a function of the solution alone, whatever order Go ranges over its maps |
| `EmergeOrder.OrderOfAnySolution` | internal/cli/emerge.go:551-594 | on any graph a permutation of the keys whose first part holds exactly the packages not reachable from a cycle, in dependency order, and whose rest is sorted |
| `EmergeOrder.GreedyIsLeast` | internal/cli/emerge.go:563-576 | taking the least ready package each time agrees with or precedes every linear extension |
| `EmergeOrder.CanonicalOrder` | internal/cli/emerge.go:551-594 | on an acyclic graph the result is the lexicographically least linear extension by name and slot |
| `EmergeRules.DependencyComesFirst` | internal/cli/emerge.go:532-547 | on an acyclic graph, another package with the name of a runtime, build, build-host or install dependency, and with its slot if it names a concrete one, comes first |
| `EmergeRules.OnlyOrderingCounts` | internal/cli/emerge.go:532-547 | two solutions with the same packages that agree on such dependencies, as far as another package answers them, have the same order |
| `EmergeRules.OthersCanBeLeftOut` | internal/cli/emerge.go:533-544 | leaving out a post-merge dependency, or one for which no other package has the name and the concrete slot, changes nothing |
| `EmergeRules.IndependentByName` | internal/cli/emerge.go:596-603 | where no dependency orders, packages come by name in the alphabet and then by slot |
| `Ordering.SortBySorts` | internal/cli/emerge.go:596-603 | sorting gives a sorted permutation for any strict weak order |
| `Ordering.SortedUnique` | internal/cli/emerge.go:596-603 | for a total order there is only one |
| `Ordering.LessIsAlphabetical` | internal/cli/emerge.go:596-603 | one string is before another exactly if it has the lesser character, or ends, at the first place where they differ |
| `MemoryCache.MemoryCache.LookupEntry` | internal/cache/memory.go:61-68 | the first critical section of Get: the entry if present, otherwise a counted miss |
| `MemoryCache.MemoryCache.TouchKey` | internal/cache/memory.go:70-76 | the second critical section, which lists the key last even if it is gone by then |
| `MemoryCache.MemoryCache.Lookup` | internal/cache/memory.go:54-81 | both sections without interruption: the entry and one hit more if the key is stored, otherwise an error and one miss more; the entries stay |
| `MemoryCache.MemoryCache.Store` | internal/cache/memory.go:84-127 | nil is refused and changes nothing; a known key is replaced and listed last; a new key is stored after the eviction loop, which terminates on the length of the order |
| `MemoryCache.MemoryCache.StoreBatch` | internal/cache/memory.go:130-142 | stores up to the first nil entry, which is the error |
| `MemoryCache.MemoryCache.Remove` | internal/cache/memory.go:145-163 | a known key leaves the map and loses its first place in the order |
| `MemoryCache.MemoryCache.RemoveStale` | internal/cache/memory.go:166-191 | exactly the keys with the prefix and an older modification time leave, in whatever order they are found |
| `MemoryCache.MemoryCache.RemoveAll` | internal/cache/memory.go:194-208 | the cache is empty and both counters are zero |
| `MemoryCache.MakeRoom` | internal/cache/memory.go:115-117 | after eviction there is room; what is left is unchanged and still listed |
| `LruEntries.SharedKeys` | internal/cache/memory.go:48-50 | two packages share a key exactly if category/name-version reads the same |
| `LruEntries.PutThenGet` | internal/cache/memory.go:54-127 | after one version is put into an empty cache, looking up a version of the same package is a hit if and only if it is that one |
| `LruEntries.PutStoresAll` | internal/cache/memory.go:84-127 | what is stored has every field given, and the time of the Put if none was given; other entries stay or are evicted |
| `LruEntries.InvalidateLeaves` | internal/cache/memory.go:166-191 | a stored entry stays exactly if it is not older than the time given or its key does not begin with category/name- |
| `LruEntries.OlderVersionsLeave` | internal/cache/memory.go:166-191 | of the package itself, in any version, exactly the older entries leave |
| `LruEntries.LongerNamesLeave` | internal/cache/memory.go:172-181 | the same happens to packages whose name goes on with a hyphen |
| `LruEntries.EveryGetCounts` | internal/cache/memory.go:54-81 | in any run of atomic operations without InvalidateAll, hits and misses add up to the number of lookups |
| `LruRuns.AlwaysWithinBounds` | internal/cache/memory.go:59-74 | with lookups and touches interleaved in any way with the other operations, at most maxEntries are stored, every stored key is listed, and each eviction shortens the order |
| `LruRuns.GetIsBothSections` | internal/cache/memory.go:59-81 | a Get is its first section, and its second if the first finds the key; the one counts the miss, the other the hit |
| `LruRuns.OrderCanRepeat` | internal/cache/memory.go:59-74 | a run of five critical sections after which the order lists one key twice |
| `LruRuns.StepListed` | internal/cache/memory.go:70-76 | from any state in which the order lists the stored keys, each once, a critical section keeps it so if and only if it is not a touch of an absent key |
| `LruRuns.ListedExactly` | internal/cache/memory.go:59-74 | in any interleaving, the order lists the stored keys, each once, at all times if and only if every touch finds its key |
| `LruRuns.RepeatsExactly` | internal/cache/memory.go:59-127 | in any interleaving, the order never repeats a key if and only if no Put stores an absent key that is still listed after eviction |
| `LruRuns.BatchIsPuts` | internal/cache/memory.go:130-142 | a batch does what its single Puts up to the first nil entry do |
| `LruInclusion.InclusionProperty` | internal/cache/memory.go:54-208 | two caches of capacity n <= m fed the same operations: the smaller order is the larger one cut down, common keys hold equal entries, every key of the smaller is in the larger, and the smaller counts no more hits |
| `LruHistory.LruRefinement` | internal/cache/memory.go:54-208 | the order is the order of last use; a stored entry is the last one put and not deleted or invalidated since; a key is evicted only after maxEntries distinct other keys were put or hit |
| `LruHistory.ExactlyTheRecent` | internal/cache/memory.go:84-127 | with Puts and Gets only, a key is stored if and only if it was put and fewer than maxEntries distinct keys were used since its last use |
| `EditDistance.FillRow` | internal/cli/suggest.go:100-115 | one row of the matrix from the one before |
| `EditDistance.TwoRows` | internal/cli/suggest.go:86-121 | the two-row loop with swapped rows returns the last cell of the matrix |
| `EditDistance.Levenshtein` | internal/cli/suggest.go:72-122 | with the early returns and the swap of the arguments: byte length against the empty string, otherwise the recurrence |
| `EditDistance.NoScriptIsShorter` | internal/cli/suggest.go:60-71 | no script of insertions, deletions and substitutions is shorter than the recurrence says |
| `EditDistance.DistIsLeast` | internal/cli/suggest.go:60-71 | the recurrence is the least length of an edit script: one exists, none is shorter |
| `EditDistance.Triangle` | internal/cli/suggest.go:60-71 | the triangle inequality of the recurrence |
| `EditDistance.DistanceIsExact` | internal/cli/suggest.go:72-82 | the program returns that least length if and only if it is not comparing the empty string with one that has characters outside ASCII |
| `EditDistance.DistanceCountsBytes` | internal/cli/suggest.go:72-82 | one accented letter against nothing gives 2, although one insertion is enough |
| `EditDistance.WidthIsLeast` | internal/cli/suggest.go:72-82 | a character counts as many bytes as the least UTF-8 sequence that can hold it |
| `EditDistance.DistanceSymmetricZero` | internal/cli/suggest.go:72-122 | the result is symmetric and zero exactly for equal strings |
| `EditDistance.DistanceTriangle` | internal/cli/suggest.go:72-122 | the triangle inequality holds between two strings for every third one if and only if neither is empty, or the other is ASCII or a single character of two bytes |
| `Suggest.SuggestCommand` | internal/cli/suggest.go:18-58 | each command within the threshold as often as it is listed, no other, those at lesser distance first and those at the same distance in alphabetical order |
| `Registry.EclassRegistry.MarkLoaded` | internal/ebuild/eclass.go:102-114 | the path is recorded and the name appended to INHERITED unless it is there |
| `Registry.EclassRegistry.ExportFunction` | internal/ebuild/eclass.go:221-231 | an error exactly outside of an eclass; otherwise the phase belongs to the one being sourced |
| `EclassDynamic.DynamicEclassLoader.Inherit` | internal/ebuild/eclass_bridge.go:133-158 | terminates on any inherit graph, cycles included; every eclass newly marked is sourced once, in the order it is listed; every eclass listed is recorded with the path of its own file |
| `EclassDynamic.DynamicEclassLoader.Source` | internal/ebuild/eclass_bridge.go:291-298 | sourcing replays the inherit calls through the loader |
| `EclassDynamic.PreorderUnfolds` | internal/ebuild/eclass_bridge.go:133-158 | the order is depth-first preorder: list the next new name, then put what it inherits in front of the rest |
| `EclassDynamic.InheritListsReachable` | internal/ebuild/eclass_bridge.go:133-158 | succeeds if and only if everything reachable has a file; then INHERITED gains exactly what is reachable, each once, and keeps its front |
| `EclassDynamic.DescendantsFollow` | internal/ebuild/eclass_bridge.go:133-158 | an eclass is followed by one block holding exactly what is reachable from it and was not listed before |
| `EclassPostorder.EclassLoader.Inherit` | internal/ebuild/eclass.go:263-279 | currentEclass and eclassDepth return to their values, also after an error; the registry is what running the sources gives |
| `EclassPostorder.EclassLoader.LoadEclass` | internal/ebuild/eclass.go:286-339 | a loaded eclass is skipped; otherwise its source runs as the current eclass and it is marked afterwards, with the path of its file, if that succeeded; earlier paths stay |
| `EclassPostorder.EclassLoader.Export` | internal/ebuild/eclass_helpers.go:568-576 | phases are exported for the current eclass up to the first error |
| `EclassInheritance.PostorderListsNeeded` | internal/ebuild/eclass.go:286-339 | on success INHERITED holds exactly the eclasses needed, each once and after everything it inherits, and none of them lies on a cycle |
| `EclassInheritance.PostorderSucceeds` | internal/ebuild/eclass.go:263-339 | ends successfully if and only if nothing needed lies on a cycle, lacks a file or exports under the empty name; ends whenever there is no cycle, nesting no deeper than there are files; never ends if only a cycle stands in the way |
| `EclassInheritance.BothLoadTheSame` | internal/ebuild/eclass.go:263-339 | whenever this loader succeeds, the dynamic one succeeds too and loads the same set |
| `EclassInheritance.ExportsAreOwn` | internal/ebuild/eclass.go:296-304 | a phase is provided if and only if a loaded eclass exports it, and by an eclass that does, however loading nests |
| `PackageNames.LooksLikeVersion` | internal/daemon/conflict_detector.go:232-262 | true exactly for strings that start with a digit and hold version characters only |
| `PackageNames.ExtractPackageName` | internal/daemon/conflict_detector.go:194-229 | cuts at the last dash whose tail looks like a version, in names with exactly one slash |
| `PackageNames.SplittingInvertsJoining` | internal/daemon/conflict_detector.go:194-229 | taking apart category/name-version gives category/name if and only if the version looks like one and no tail of it after a hyphen does |
| `PackageNames.BareNameMatches` | internal/daemon/conflict_detector.go:183-188 | a bare name counts as the same package as the versioned one if and only if no tail of the name looks like a version |
| `PackageNames.OddNamesStay` | internal/daemon/conflict_detector.go:194-229 | a text without a slash or with more than one is its own base name, and so is a name without a version |
| `PackageNames.SplitPkgNameVersion` | internal/binpkg/gpkg.go:281-299 | splits at the last hyphen before a digit, or not at all |
| `PackageNames.SplittersAgree` | internal/binpkg/gpkg.go:281-299 | the two splitters find the same name if and only if the reader finds no version or one that looks like a version to the detector |
| `PackageNames.SplittersAgreeOnPlainNames` | internal/binpkg/gpkg.go:281-299 | over letters, digits, dots, dashes and underscores they always agree |
| `ConflictDetection.ConflictDetector.GetAffectedPackages` | internal/daemon/conflict_detector.go:144-166 | the package itself and, for installs and updates that resolve, everything the resolver names, in any order |
| `ConflictDetection.ConflictDetector.CheckJobConflict` | internal/daemon/conflict_detector.go:90-140 | a conflict if and only if the two jobs affect a common base package; the package reported is one, and the kind says whether the jobs name the same package |
| `ConflictDetection.ConflictDetector.DetectConflicts` | internal/daemon/conflict_detector.go:62-166 | a conflict if and only if some base name is touched by the new job and by one that is pending or running: that of its package or, for installs and updates that resolve, of a package to install at its version or of a package to update |
| `ConflictDetection.OverlapMeans` | internal/daemon/conflict_detector.go:144-166 | two jobs overlap exactly if they touch some base name in common, in the same terms |
| `ConflictDetection.PlainJobsOverlap` | internal/daemon/conflict_detector.go:144-166 | jobs for which nothing is resolved overlap exactly if the base names of their packages agree |
| `JobQueues.JobQueue.Submit` | internal/daemon/job.go:290-321 | refused on a conflict, leaving everything alone; otherwise registered, and queued if there is room, else refused although it stays registered |
| `JobQueues.JobQueue.TakeJob` | internal/daemon/job.go:241-254 | a cancelled job is dropped, any other becomes Running |
| `JobQueues.JobQueue.FinishJob` | internal/daemon/job.go:256-286 | Cancelled is kept; otherwise success gives Completed, and an error Cancelled after a cancellation and Failed without one |
| `JobQueues.JobQueue.CancelJob` | internal/daemon/job.go:350-359 | a known job becomes Cancelled, whatever it was |
| `JobRuns.StepKeepsApartExactly` | internal/daemon/job.go:241-321 | from any state with disjoint active jobs, reachable or not, a step keeps them disjoint if and only if it is not a worker taking an ended job that shares a package with another active one |
| `JobRuns.ActiveJobsApartExactly` | internal/daemon/job.go:241-321 | in any run, distinct Pending or Running jobs affect disjoint sets of packages at all times if and only if no worker ever takes an ended job that overlaps an active one |
| `JobRuns.ActiveJobsStayApart` | internal/daemon/job.go:241-321 | in particular, in every state reached without submitting an ended job again they do, stranded ones included |
| `JobRuns.NoneBecomesActiveAgain` | internal/daemon/job.go:241-286 | from such a state no step makes an inactive job active |
| `JobRuns.BecomesActiveAgain` | internal/daemon/job.go:241-254 | in any state, a job becomes active again if and only if a worker takes it from the queue after it completed or failed |
| `JobRuns.AcceptedAgainMeets` | internal/daemon/job.go:241-321 | in any reached state, if an ended job is submitted again and accepted, the run can go on to a state in which two active jobs share a package |
| `JobRuns.ResubmissionBreaksIt` | internal/daemon/job.go:290-321 | a run with a second submission of a completed job after which two active jobs share a package |
| `JobRuns.StepExecutesApartExactly` | internal/daemon/job.go:241-286 | from any state of an orderly run whose executed jobs are disjoint, a step that submits no ended job again keeps them disjoint if and only if it does not begin a job that overlaps a cancelled one still being executed |
| `JobRuns.ExecutedJobsApartExactly` | internal/daemon/job.go:241-286 | in any run that submits no ended job again, no two jobs being executed ever share a package if and only if no worker begins a job that overlaps a cancelled one still being executed |
| `JobRuns.ExecutedJobsStayApart` | internal/daemon/job.go:241-286 | in such a run, of two jobs being executed that share a package one was cancelled |
| `JobRuns.CancelledJobStillExecutes` | internal/daemon/job.go:153-158 | a run after which two functions on one package are executed at once, one of them cancelled |
| `JobRuns.FullQueueStrands` | internal/daemon/job.go:309-320 | a new job refused by a full queue is registered as Pending, in no queue and with no worker |
| `JobRuns.StrandedBlocks` | internal/daemon/job.go:309-320 | it is never begun, and until it is cancelled every job that shares a package with it is refused |
| `JobRuns.NeverTooMany` | internal/daemon/job.go:222-256 | in any run no more jobs wait than the queue has places, and no more are executed than there are workers |
| `Xpak.ReadRecord` | internal/binpkg/xpak.go:96-119 | reads one index record or reports that the bytes run out |
| `Xpak.ParseXPAKEntries` | internal/binpkg/xpak.go:91-140 | the loop over the index, with the 32-bit bounds test as coded |
| `Xpak.ParseXPAK` | internal/binpkg/xpak.go:33-88 | the checks on the footer, the magic and the lengths, in the order of the code, with panics told apart from errors |
| `Xpak.FindXPAKOffset` | internal/binpkg/tbz2.go:218-249 | the file size less the footer and the length found in it, unchecked |
| `XpakLayout.ParserReadsLayout` | internal/binpkg/xpak.go:33-140 | for any prefix and any records within the data, below 2^32 bytes, the parser returns exactly what the records say, and the block is found where it starts |
| `XpakLayout.ParsesExactlyLayouts` | internal/binpkg/xpak.go:33-140 | parsing succeeds with a map if and only if the file is an archive in the parser's layout whose records say that map |
| `XpakSamples.Marks` | internal/binpkg/xpak.go:33-70 | the marks are the texts XPAKPACK and XPAKSTOP |
| `XpakSamples.BigEndian` | internal/binpkg/xpak.go:96-119 | words have their highest byte first, read and written |
| `XpakSamples.ParserSample` | internal/binpkg/xpak.go:33-140 | a file given byte by byte: the length before the offset in a record, the lengths of index, data and block in the footer |
| `XpakPanics.EntriesPanicExactly` | internal/binpkg/xpak.go:91-140 | the loop over the index panics if and only if, after records that fit, one has an offset and a length whose sum wraps around to within the data |
| `XpakPanics.PanicsExactly` | internal/binpkg/xpak.go:33-88 | the parser panics if and only if the footer passes its checks and the block is shorter than the magic, or begins with it and the lengths wrap around or the records do |
| `XpakPanics.FooterPanics` | internal/binpkg/xpak.go:58-87 | a file of twenty bytes that panics over its footer |
| `XpakPanics.RecordPanics` | internal/binpkg/xpak.go:120-140 | a file with correct lengths that panics over its only record |
| `XpakWriter.MapRoundTrip` | internal/binpkg/xpak.go:33-140 | any map below 2^32 bytes, laid out in any order of its keys as the parser reads it, is parsed back exactly |
| `XpakWriter.RecordsTile` | internal/binpkg/tbz2_writer.go:313-331 | for any key order the records cut the data section into adjacent pieces, without gaps and to its end, each the value of its key |
| `XpakWriter.EncodeXPAK` | internal/binpkg/tbz2_writer.go:293-356 | the output is the writer's layout for some order of the keys |
| `XpakWriter.WrittenFooter` | internal/binpkg/tbz2_writer.go:339-353 | the three footer words are the lengths of the index, of the data, and of the whole block with its footer, modulo 2^32 |
| `XpakSamples.WriterSample` | internal/binpkg/tbz2_writer.go:293-356 | the output for one entry byte by byte: the offset before the length, the footer counted in the last word |
| `XpakWriter.WrittenIsNeverParsed` | internal/binpkg/tbz2_writer.go:339-342 | the parser refuses every output of the writer, behind any prefix |
| `XpakWriter.WrittenIsFoundTooEarly` | internal/binpkg/tbz2_writer.go:342 | the start of the block is found twenty bytes before it |
| `XpakWriter.FooterAloneIsNotEnough` | internal/binpkg/tbz2_writer.go:318-342 | the written block under a footer that does not count itself is parsed, and gives the map back if and only if every value is empty |
| `XpakWriter.DifferentOrdersShow` | internal/binpkg/tbz2_writer.go:304-331 | two orders of the keys are written as the same bytes if and only if they are the same order, so the output is sorted only if the map yields its keys so |
| `PackageAtoms.MatchPatternMeans` | internal/config/atom.go:234-255 | a star stands for any text at one end of the pattern, the last one if there are two, and nowhere else |
| `PackageAtoms.StripRevision` | internal/config/atom.go:282-294 | the backward scan for a revision |
| `PackageAtoms.StripsOneRevision` | internal/config/atom.go:282-294 | a revision after a nonempty base is taken off |
| `PackageAtoms.StripsNothingExactly` | internal/config/atom.go:282-294 | a version is left as it is if and only if it ends in no revision after a nonempty base |
| `PackageForms.PlainAtomsMatchOne` | internal/config/atom.go:170-182 | an atom without a star matches its own package only |
| `PackageForms.ByAge` | internal/config/atom.go:200-224 | which of the five comparisons match an older, an equal and a newer version |
| `PackageForms.ByText` | internal/config/atom.go:216-222 | a tilde matches every revision of its version, and an equals sign with a star the versions that begin with the text |
| `PackageForms.UnknownParts` | internal/config/atom.go:184-204 | what becomes of packages without a known version or slot |
| `PackageForms.SlotsAgree` | internal/config/atom.go:257-280 | slots match by main part and, where both have one, subslot, with a star for either |
| `PackageUse.Accumulate` | internal/config/config.go:661-678 | after the first pass the two flag sets are disjoint and say, for every flag, what the most specific mention says |
| `PackageUse.BuildList` | internal/config/config.go:680-705 | the second pass lists each base flag at its first mention, with that sign |
| `PackageUse.GetPackageUSEForPackage` | internal/config/config.go:623-706 | collecting, sorting and both passes together |
| `PackageUseRule.MergeIsPriorityRule` | internal/config/config.go:623-706 | each flag that a matching entry mentions is listed exactly once and never with both signs; its sign is the last word of the entry with the highest specificity, and among equals of the one listed first |
| `PackageForms.FormDecides` | internal/config/atom.go:141-166 | of the entries that mention a flag, the first of the most specific form decides it; the forms are, from the most specific one: version, any revision, version prefix, name and slot, range, name, pattern with slot, pattern |
| `PackageUseRule.HigherListedFirst` | internal/config/config.go:680-705 | a flag of one entry is listed before any flag that only entries of lower precedence mention |
| `PackageUseRule.LessSpecificNeverChanges` | internal/config/config.go:654-678 | replacing entries less specific than the winner by any others leaves the flag as it is |
| `PackageUseRule.LastDecidesExactly` | internal/config/config.go:651-659 | of the most specific entries that mention a flag, the last one decides its sign if and only if its last word agrees with that of the first one |
| `PackageUseRule.SecondDoesNotOverride` | internal/config/config.go:651-659 | of two entries for one atom that give a flag opposite signs, the first keeps its word, for either sign |

## Left out

- TaskGraph.BuildScheduler: tasks are keyed by an identifier type around the ID text; names and versions are only joined to it. AddTasks, a loop of AddTask, is not modelled.
- SchedulerProtocol.Config: one call of Start on a scheduler; a second Start finds the old completedSet and a closed channel and is not modelled. Stop cancels a context that Start does not use, so it is no event.
- SchedulerProtocol.State: progress callbacks, logging, output, times, statistics and error texts. A scheduler that waits forever is a state without steps.
- MemoryCache.MemoryCache: Close, which sets the map to nil, last access times, which nothing reads, and the wrap-around of the 64-bit counters. Times are given numbers; zero stands for an unset time.
- LruRuns.Op: PutBatch and Invalidate are single steps or sequences of Puts; two Puts overlap only as whole critical sections, as the lock has it.
- Ordering.SortBy: sort.Slice is represented by an insertion sort; all orders used are total on the elements present, or only sortedness and contents are claimed.
- EditDistance.Distance: strings are sequences of characters with their UTF-8 widths; invalid UTF-8 is not modelled.
- EclassDynamic.DynamicEclassLoader: the hybrid loader and the executor behind it are reduced to replaying a source's inherit calls; Go fallback eclasses are not modelled.
- EclassPostorder.EclassLoader: recovery from interpreter panics, which marks the eclass as loaded, and failures of other commands in a source. The methods take the nesting depth as a ghost argument and ask that it suffices; where none does the program recurses without end.
- ConflictDetection.Resolver: the dependency resolver is a fixed function of the package name. The error branches of the detector are dead code, since affected packages never fail to be determined. The text of a conflict is left out.
- JobQueues.Config: a queue size of zero, with which Go hands a job to a waiting worker directly. Submit is one step, as is the start of a job; two overlapping Submits can both pass the check.
- JobQueues.JobQueue: priorities, progress, times, Stop and statistics.
- Xpak.Outcome: file errors other than a file that is too short; allocation failures.
- PackageAtoms.MatchVersion: the comparison of versions is a parameter; parsing of atoms and of package.use files is not modelled.
- HTTP, archives, signing, the SQLite cache, the dependency solver, the ebuild interpreter and the command line are not part of this model.
