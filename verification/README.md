# Habitat update core in Dafny

Habitat is a small deployment agent. It keeps a list of *plans*. A plan names a Git repository and branch, a build script, a launch script and an environment. A timer asks the scheduler whether any plan is stale: first 10 seconds after start, then every 15 seconds, with a leeway of 60 seconds. For every stale plan, the scheduler builds a small graph of asynchronous operations: clone the repository if it was never checked out, then check out the branch. It submits all these graphs to an operation queue as one batch. It stays in the state *updating* until a completion operation, which depends on every update, has run.

This project models that core as immutable values and pure transitions, and proves properties of the model. Modules follow the Swift files:

- `SwiftCore` (`swift_core.dfy`): Swift optionals (`T?`), `throws` outcomes, `try?` and `??`.
- `ResultOperation` (`result_operation.dfy`): the result type and the ready/executing/finished lifecycle of `AsynchronousOperation` and `ResultOperation`. Cancellation is a flag. The execution block is represented by the outcome of one invocation.
- `OperationQueue` (`operation_queue.dfy`):
  - the operation records of the queue, keyed by id, and their dependency graph;
  - `addOperation(includingDependencies:)` as a fuel-bounded recursion. Running out of fuel stands for the recursion never ending. The scheduler never calls this helper: Scheduler.swift enqueues with plain `addOperation` and `addOperations` (lines 41-44).
- `Repositories` (`repositories.dfy`):
  - the plan, the plan builder and the `Head` codec;
  - the staleness test against a modelled Git world;
  - `AssetLocator`, and the operation graph `makeUpdate` builds;
  - the checkout block, including whether the checkout itself succeeds and where it leaves the head;
  - the process descriptions for the build and launch scripts.
- `Scheduling` (`scheduling.dfy`):
  - the scheduler state and the tick `updateIfNeeded`;
  - an abstract queue step that runs one ready operation. Running the completion operation sets the state back to idle.
  - The queue is a map of operations plus a trace of the events an observer sees: state changes, operations added, operations run.
- `App` (`app.dfy`):
  - the pure logic of the web handlers: the `KEY=VALUE` environment text, both ways;
  - the form checks of the create and edit handlers;
  - the list edits on the scheduler's plans: append, replace at an index, remove at an index.

The model follows the code as written. In several places the code does something other than what its names and comments suggest. The model keeps the code's behaviour and proves what the code does:

- `needsUpdate` on a checked-out plan calls `isMostRecent(in:)`. That call opens the repository at the plan's remote URL (`repository.url`), not the working copy that `makeUpdate` checks out. It fetches "origin" there and compares that repository's branch tip with that same repository's `HEAD`.
  - It answers *stale* when the two are **equal**, and it never reads the commit recorded in the plan.
  - When the remote URL is not a repository on the local disk, opening fails. A checked-out plan is then never stale.
  - The name `needsUpdate` and the comment on `updateIfNeeded` ("Perform deployment of all plans that need it") suggest the opposite: a plan should be stale when the branch has moved past the deployed commit.
  - See `NeedsUpdateDecision`, `NeedsUpdateIgnoresRecordedCommit`, `UpToDatePlanIsStale` and `UnopenableRemoteNeverStale`.
- `makeUpdate` only builds *clone → checkout*. Nothing advances the plan's `head`, so a plan never checked out stays stale on every tick. Build and launch are not part of the pipeline; they are only described as processes.
- The tick does not read the scheduler state. A tick while a batch is in flight starts another batch instead of being ignored. See `TickIgnoresState` and `TickWhileUpdatingStartsAnotherBatch`.
- `execute()` without a block records `noExecutionBlock` and never finishes the operation. See `NoBlockNeverFinishes`.
- Both form handlers store the `launch` field as the build script and the `build` field as the launch script. See `PostThenGetSwapsScripts` and `ResubmitSwapsScripts`.
- Malformed environment lines are not rejected; they are silently dropped. A run of `=` counts as one separator. See `ValueWithEqualsIsDropped` and `RepeatedEqualsCollapse`.
- The recursive `addOperation(includingDependencies:)` has no guard against cycles or repeats. The lemmas describe the recursion itself, without Foundation's exception for an operation added twice:
  - its calls never end exactly when a cycle is reachable (`CompletesUnlessCycle`, `CycleNeverCompletes`);
  - nothing is de-duplicated: on any graph, an operation reachable from two distinct dependencies gets at least two `addOperation` calls (`SharedDependencyAddedTwice`); in a diamond it gets exactly one per path (`SharedDependencyAddedOncePerPath`). With Foundation's check, the second call would raise instead.

Parameters stand in for what the model cannot see:

- the Git world (a map from path to repository state);
- whether `URL(string:)` accepts a text (`urlParses`);
- the asset locator used for each plan in the tick (`locate`). The source calls an `AssetLocator(root:plan:)` initializer that does not exist.
- the iteration order of a dictionary (`order`);
- the process environment (`ambient`).

## Model

| member | source | states |
|---|---|---|
| SwiftCore.Try | Sources/Repositories.swift:155 | `try?` is `nil` exactly when the call threw, and otherwise the returned value |
| SwiftCore.OrElse | Sources/Repositories.swift:51 | `o ?? fallback` is the wrapped value when there is one, else the fallback |
| ResultOperation.OkOr | Sources/ResultOperation.swift:7-12 | `ok(or:)` gives the value of `Ok` and the fallback for `Error` |
| ResultOperation.ValueOf | Sources/ResultOperation.swift:14-19 | `value` is present exactly for `Ok`, and is its value |
| ResultOperation.OkOrIsValueOrElse | Sources/ResultOperation.swift:7-19 | `ok(or:)` agrees with `value ?? fallback`; a result other than the fallback proves `Ok` |
| ResultOperation.New | Sources/ResultOperation.swift:30-32 | a new operation is ready, has no block, and its result is `didNotStart` |
| ResultOperation.WithBlock | Sources/ResultOperation.swift:34-37 | the convenience initializer is a new operation holding the block |
| ResultOperation.SetExecutionBlock | Sources/ResultOperation.swift:39-41 | installs the block and changes nothing else |
| ResultOperation.SetExecutionBlockReplaces | Sources/ResultOperation.swift:39-41 | a second block replaces the first, and executing runs only the second |
| ResultOperation.Finish | Sources/ResultOperation.swift:137-139 | `finish()` moves to finished and changes nothing else |
| ResultOperation.Execute | Sources/ResultOperation.swift:43-58 | no block: the result is `noExecutionBlock` and the state is untouched; with a block: one invocation, its value or error stored, then finished |
| ResultOperation.Start | Sources/ResultOperation.swift:114-124 | cancelled: finished with the result untouched and no invocation; otherwise executing, then what `execute()` does (without a block only the state and `noExecutionBlock` change, with no invocation); never ready afterwards |
| ResultOperation.IsReady | Sources/ResultOperation.swift:97-99 | ready state and finished dependencies; exclusivity with the other flags is `FlagsAreExclusive` |
| ResultOperation.IsExecuting | Sources/ResultOperation.swift:101-103 | the executing state; exclusivity is `FlagsAreExclusive` |
| ResultOperation.IsFinished | Sources/ResultOperation.swift:105-107 | the finished state; exclusivity is `FlagsAreExclusive` |
| ResultOperation.FlagsAreExclusive | Sources/ResultOperation.swift:98-108 | at most one of executing and finished holds, and ready excludes both |
| ResultOperation.NeverBackToReady | Sources/ResultOperation.swift:114-139 | starting a ready operation moves it strictly forward, and repeated starts or executes never return to ready; a second uncancelled start of a finished operation without a block goes back to executing |
| ResultOperation.CancelledBeforeStartDidNotStart | Sources/ResultOperation.swift:114-120 | a fresh operation cancelled before start finishes with `didNotStart` and never invokes its block |
| ResultOperation.NoBlockNeverFinishes | Sources/ResultOperation.swift:43-49 | a fresh operation without a block stays executing with `noExecutionBlock` |
| OperationQueue.AddIncludingDependencies | Sources/OperationQueue+IncludingDependencies.swift:4-9 | when the recursion ends, the operation itself is added first |
| OperationQueue.EnqueuedExactlyReachable | Sources/OperationQueue+IncludingDependencies.swift:4-9 | when the recursion ends, an operation is added iff it is reachable from the start along dependency edges |
| OperationQueue.AddedAreReachable | Sources/OperationQueue+IncludingDependencies.swift:5-7 | every added operation is reachable from the start |
| OperationQueue.PathEndIsAdded | Sources/OperationQueue+IncludingDependencies.swift:5-7 | the end of every dependency path from the start is added |
| OperationQueue.TerminatesWhenRanked | Sources/OperationQueue+IncludingDependencies.swift:4-9 | on a graph ranked by a measure that decreases along every edge, the recursion ends within rank + 1 levels |
| OperationQueue.FuelIrrelevant | Sources/OperationQueue+IncludingDependencies.swift:4-9 | once the recursion ends, a larger depth bound gives the same sequence |
| OperationQueue.DivergingDependency | Sources/OperationQueue+IncludingDependencies.swift:6-7 | if one dependency's recursion does not end, neither does the operation's |
| OperationQueue.CycleNeverCompletes | Sources/OperationQueue+IncludingDependencies.swift:6-7 | from any operation on a dependency cycle, the recursion never ends |
| OperationQueue.ReachingCycleNeverCompletes | Sources/OperationQueue+IncludingDependencies.swift:6-7 | from any operation that reaches a cycle, the recursion never ends |
| OperationQueue.AddEachAppend | Sources/OperationQueue+IncludingDependencies.swift:6-8 | the loop over two lists of dependencies adds what each adds, one after the other |
| OperationQueue.SharedDependencyAddedTwice | Sources/OperationQueue+IncludingDependencies.swift:4-9 | on every graph, an operation reachable from two distinct dependencies of the start is added at least twice |
| OperationQueue.SharedDependencyAddedOncePerPath | Sources/OperationQueue+IncludingDependencies.swift:4-9 | in a diamond, the shared dependency is added twice, once per path |
| OperationQueue.AddEachDiverges | Sources/OperationQueue+IncludingDependencies.swift:6-7 | the loop fails to end only when some dependency's recursion does |
| OperationQueue.DivergingPath | Sources/OperationQueue+IncludingDependencies.swift:4-9 | a recursion cut off at depth n follows a walk of n + 1 operations from the start |
| OperationQueue.LongPathReachesCycle | Sources/OperationQueue+IncludingDependencies.swift:6-7 | a walk longer than the graph repeats an operation, so a cycle is reachable |
| OperationQueue.CompletesUnlessCycle | Sources/OperationQueue+IncludingDependencies.swift:4-9 | with a depth bound beyond the number of operations, the recursion fails to end iff a cycle is reachable from the start |
| OperationQueue.WellFormedTasksTerminate | Sources/OperationQueue+IncludingDependencies.swift:4-9 | on operations whose dependencies have smaller ids, the recursion always ends |
| OperationQueue.GraphOf | Sources/OperationQueue+IncludingDependencies.swift:6 | the dependency graph has one node per operation with that operation's dependencies |
| Repositories.NewRepository | Sources/Repositories.swift:250-253 | the branch defaults to "master" |
| Repositories.NewPlan | Sources/Repositories.swift:141-148 | the short initializer makes a plan not yet checked out with the given fields |
| Repositories.SetName | Sources/Repositories.swift:22-24 | sets the name and nothing else |
| Repositories.SetRepository | Sources/Repositories.swift:26-28 | sets the repository and nothing else |
| Repositories.SetHead | Sources/Repositories.swift:30-32 | sets the head commit and nothing else |
| Repositories.SetBuild | Sources/Repositories.swift:34-36 | sets the build script and nothing else |
| Repositories.SetLaunch | Sources/Repositories.swift:38-40 | sets the launch script and nothing else |
| Repositories.SetEnvironment | Sources/Repositories.swift:42-44 | sets the environment and nothing else |
| Repositories.Make | Sources/Repositories.swift:46-54 | throws `missingParameter` iff name, repository, build, launch or environment is unset; otherwise the plan has those fields, and its head is the set commit or not yet checked out |
| Repositories.BuilderRoundTrip | Sources/Repositories.swift:22-54 | every plan is rebuilt exactly by setting its fields and calling `make()` |
| Repositories.MakeNeedsEveryRequiredField | Sources/Repositories.swift:46-49 | leaving out any one required setter makes `make()` throw |
| Repositories.IsNotYetCheckedOut | Sources/Repositories.swift:67-74 | true only for `notYetCheckedOut`; `EncodeHead` and `MakeUpdate` state what depends on it |
| Repositories.EncodeHead | Sources/Repositories.swift:98-106 | the container holds exactly one key, `notYetCheckedOut` exactly for the unchecked head |
| Repositories.DecodeHead | Sources/Repositories.swift:85-96 | `notYetCheckedOut` present wins; otherwise a decodable `commit`; otherwise a decoding error |
| Repositories.HeadRoundTrip | Sources/Repositories.swift:85-106 | decoding an encoded head gives it back |
| Repositories.DecodeHeadRejects | Sources/Repositories.swift:85-96 | empty or undecodable containers are rejected, but `notYetCheckedOut` wins over a bad commit |
| Repositories.Open | Sources/Repositories.swift:217 | opening succeeds exactly for a path that holds a repository |
| Repositories.IsMostRecent | Sources/Repositories.swift:215-225 | succeeds iff open, fetch of "origin", branch, head and both SHAs all succeed, and is then true iff branch tip SHA equals head SHA |
| Repositories.NeedsUpdate | Sources/Repositories.swift:150-157 | `needsUpdate`; its full case split is stated by `NeedsUpdateDecision` |
| Repositories.NeedsUpdateDecision | Sources/Repositories.swift:150-157 | never checked out: stale; checked out: stale iff every Git query on the repository at the remote URL succeeds and its branch tip equals its own head; any failure: not stale |
| Repositories.NeedsUpdateIgnoresRecordedCommit | Sources/Repositories.swift:150-157 | the answer does not depend on the commit recorded in the plan |
| Repositories.UpToDatePlanIsStale | Sources/Repositories.swift:150-157 | a plan recorded at the branch tip, whose remote repository has its head at that tip, is reported stale |
| Repositories.UnopenableRemoteNeverStale | Sources/Repositories.swift:154-155 | a checked-out plan whose remote URL cannot be opened is never stale |
| Repositories.LocatorForPrefix | Sources/Repositories.swift:237-243 | `nil` iff "~/prefix/Repository" is not a URL; otherwise that path |
| Repositories.LocatorForPlan | Sources/Repositories.swift:233-235 | the plan's name is the prefix |
| Repositories.RepositoryPathInjective | Sources/Repositories.swift:239 | distinct prefixes get distinct working-copy paths |
| Repositories.MakeUpdate | Sources/Repositories.swift:159-182 | always an update; a ready checkout of the plan's branch in the locator's working copy; one clone dependency exactly when not yet checked out, none otherwise; fresh ids, well formed |
| Repositories.ClonedRepository | Sources/Repositories.swift:175-176 | the cloned repository is present iff there is a clone operation whose result is `Ok`, and is then that result's value |
| Repositories.CheckoutBlock | Sources/Repositories.swift:168-180 | uses the clone's repository if any, else opens the working copy; succeeds iff the repository has a head, the branch exists and its checkout does not fail; a failed checkout names the plan's branch; afterwards the head is at the branch tip and nothing else changed |
| Repositories.FailedCloneFallsBackToOpen | Sources/Repositories.swift:175-176 | after a failed clone the block behaves as if there were no clone |
| Repositories.MergeEnvironment | Sources/Repositories.swift:199-203 | the merged environment has the keys of both; plan entries override the ambient ones |
| Repositories.ProcessFor | Sources/Repositories.swift:192-209 | runs `/usr/bin/env` with the script URL as its one argument, in the directory of the repository URL, with the merged environment |
| Repositories.BuildProcess | Sources/Repositories.swift:184-186 | the build process runs the build script through `/usr/bin/env` in the repository URL's directory; plan variables override, the other ambient ones are kept |
| Repositories.LaunchProcess | Sources/Repositories.swift:188-190 | the launch process runs the launch script through `/usr/bin/env` in the repository URL's directory; plan variables override, the other ambient ones are kept |
| Scheduling.Init | Sources/Scheduler.swift:7-14 | a new scheduler is idle, holds the plans and an empty queue, and is valid |
| Scheduling.StalePlans | Sources/Scheduler.swift:31 | a plan is selected iff it is in the list and needs an update |
| Scheduling.StalePlansAppend | Sources/Scheduler.swift:31 | filtering two lists one after the other gives the filtered lists one after the other |
| Scheduling.StalePlansOfOne | Sources/Scheduler.swift:31 | a single plan is kept iff it needs an update; with `StalePlansAppend` this fixes the order and the repetitions |
| Scheduling.BuildUpdates | Sources/Scheduler.swift:31-32 | one update per stale plan, on fresh consecutive ids |
| Scheduling.BuildUpdatesWellFormed | Sources/Scheduler.swift:31-32 | the created operations form a well-formed graph of ready operations, none a completion |
| Scheduling.BuildUpdatesRoots | Sources/Scheduler.swift:31-32 | the i-th update checks out the i-th stale plan's branch, with one dependency iff never checked out, and that dependency is a ready clone of the plan's remote into its locator's working copy |
| Scheduling.BuildUpdatesCoverage | Sources/Scheduler.swift:31-32 | update ids increase, and every other created operation is a dependency of an update |
| Scheduling.DirectDependencies | Sources/Scheduler.swift:43 | an id is listed iff it is a dependency of some update |
| Scheduling.AddedAll | Sources/Scheduler.swift:42 | one added event per operation, in order |
| Scheduling.Enqueue | Sources/Scheduler.swift:36-44 | enters updating; the completion depends on exactly the updates; old operations are kept; the trace only grows |
| Scheduling.EnqueueQueuesWhatItCreates | Sources/Scheduler.swift:41-44 | the queued operations grow by exactly the completion and the created operations |
| Scheduling.EnqueueQueuesExactlyNew | Sources/Scheduler.swift:41-44 | on fresh ids, the operations queued are exactly those added to the queue's map |
| Scheduling.EnqueueEntersUpdatingFirst | Sources/Scheduler.swift:40-44 | the state change to updating is appended first, and every later event adds an operation |
| Scheduling.EnqueuePreservesValid | Sources/Scheduler.swift:36-44 | adding a well-formed batch on fresh ids keeps the queue well formed |
| Scheduling.Tick | Sources/Scheduler.swift:30-45 | with no stale plan nothing changes; otherwise updating, with new ids; existing operations and trace are kept |
| Scheduling.TickEntersUpdatingBeforeEnqueueing | Sources/Scheduler.swift:40-44 | the state change to updating comes before every operation is added |
| Scheduling.TickCompletionWaitsForEveryUpdate | Sources/Scheduler.swift:36-41 | the completion is new and depends on one new checkout per stale plan, in order |
| Scheduling.TickEnqueuesWhatItCreates | Sources/Scheduler.swift:41-44 | what a tick queues is exactly what it creates |
| Scheduling.TickPreservesValid | Sources/Scheduler.swift:30-45 | a tick keeps the queue well formed, hence acyclic |
| Scheduling.TickIgnoresState | Sources/Scheduler.swift:30-45 | the tick does the same work from idle and from updating |
| Scheduling.TickWhileUpdatingStartsAnotherBatch | Sources/Scheduler.swift:30-45 | while updating, a plan never checked out makes the tick add another batch |
| Scheduling.Step | Sources/Scheduler.swift:36-38 | an operation that cannot run changes nothing; one that can (queued, ready, dependencies finished) becomes finished and is appended to the trace as run; the completion, and only it, sets idle; other operations and the queued set are unchanged |
| Scheduling.IdleOnlyAfterAllUpdatesFinish | Sources/Scheduler.swift:36-39 | the state returns to idle only by running a completion whose dependencies have all finished |
| Scheduling.RunsAtMostOnce | Sources/Scheduler.swift:36-38 | an operation that ran cannot run again |
| Scheduling.StepPreservesValid | Sources/Scheduler.swift:36-39 | running operations keeps the queue well formed |
| App.RunLength | Sources/App.swift:59 | the length of the longest separator-free prefix |
| App.Split | Sources/App.swift:59 | the pieces are non-empty, separator-free, and made of the text's characters |
| App.Join | Sources/App.swift:26 | `joined(separator:)`; `SplitJoin` states that splitting undoes it |
| App.SplitJoin | Sources/App.swift:26-59 | splitting undoes joining for non-empty, separator-free pieces |
| App.RunLengthIsFirstSeparator | Sources/App.swift:59 | a piece ends at the first separator and nowhere else |
| App.SplitAtSeparator | Sources/App.swift:59 | splitting text joined at a separator gives the pieces of each side, concatenated |
| App.SplitLeadingSeparator | Sources/App.swift:59 | a leading separator is ignored |
| App.SplitTrailingSeparator | Sources/App.swift:59 | a trailing separator is ignored |
| App.ParseLine | Sources/App.swift:61-66 | a line without a line break parses to a key and a value that are tokens, or to nothing |
| App.ParseLineOfPair | Sources/App.swift:61-66 | `key=value` parses back to that pair |
| App.ParsePairs | Sources/App.swift:60-67 | at most one pair per line, all tokens |
| App.ParsePairsAllParse | Sources/App.swift:60-67 | when every line parses, the pairs are those of the lines, in order |
| App.ParsePairsOfOne | Sources/App.swift:60-67 | one line gives its pair if it splits into exactly two pieces, and nothing otherwise |
| App.ParsePairsAppend | Sources/App.swift:60-67 | the pairs of two blocks of lines are those of the first followed by those of the second |
| App.Dictionary | Sources/App.swift:68 | the keys are the pairs' keys, and each maps to the value of its first pair |
| App.ParseEnvironment | Sources/App.swift:59-68 | every parsed key and value is a token |
| App.Lines | Sources/App.swift:26 | one `key=value` line per key, in the given order |
| App.SerializeEnvironment | Sources/App.swift:26 | the environment text; `LinesReadBack` and `EnvironmentRoundTrip` state that it parses back to the environment |
| App.EnvironmentRoundTrip | Sources/App.swift:26-68 | an environment of tokens parses back from its text unchanged, in any order |
| App.ParsedEnvironmentIsStable | Sources/App.swift:26-68 | showing a parsed environment and parsing it again changes nothing |
| App.ValueWithEqualsIsDropped | Sources/App.swift:61-64 | a line whose value holds `=` is dropped |
| App.RepeatedEqualsCollapse | Sources/App.swift:61-66 | `A==b` parses as `A` to `b` |
| App.Accepts | Sources/App.swift:40-57 | every field present and the three URL fields parse; `PlanFromForm` rejects exactly the forms it refuses |
| App.PlanFromForm | Sources/App.swift:40-75 | bad request iff a field is missing or a URL field does not parse; otherwise a plan not yet checked out, with the launch text as build script and the build text as launch script |
| App.PlanNames | Sources/App.swift:11-14 | the names of the plans, in order |
| App.PostPlan | Sources/App.swift:39-79 | bad request iff the form is rejected; otherwise the form's plan is appended and nothing else changes |
| App.UpdatePlan | Sources/App.swift:82-124 | form errors first, then an index out of range; an accepted form with an index in range always succeeds, and only the plan at the index is replaced |
| App.DeletePlan | Sources/App.swift:127-131 | out of range iff the index is not a plan; otherwise the plan is removed and the others keep their order |
| App.GetPlan | Sources/App.swift:23-37 | out of range iff the index is not a plan; otherwise the page shows the plan's fields and its environment text |
| App.FormOf | Sources/App.swift:27-35 | the edit page submits exactly the six fields it shows, each with the value shown under its key |
| App.PostThenGetSwapsScripts | Sources/App.swift:23-79 | a created plan's page shows the build text as launch and the launch text as build; its environment reads back unchanged |
| App.ResubmitSwapsScripts | Sources/App.swift:23-122 | saving an edit page unchanged swaps build and launch and forgets the head; nothing else changes |
| App.DeleteAfterPostRestores | Sources/App.swift:77-129 | deleting the plan just created restores the scheduler |
| App.PostedPlanIsListedLast | Sources/App.swift:11-77 | a created plan is listed last under its form name |

## Left out

- Git2Swift calls are modelled as a map from path to repository state. This covers opening, fetching, branch lookup, `HEAD`, SHAs and whether a checkout succeeds. The clone itself is not modelled; its outcome is a parameter.
- Repositories.CheckoutBlock: the checkout's effect is reduced to moving the repository's head to the branch tip. The files of the working tree are not modelled. The result does not flow back into the Git world that later ticks see, because the working copy is not what `needsUpdate` reads.
- Foundation `Process` is left out: only launch path, arguments, working directory and environment are kept. On macOS before 10.13 the source sets the directory from the URL's `absoluteString`. Both branches are modelled as the URL's text. Standard output and standard error are not modelled.
- `super.start()`, `super.isReady` and `Operation.isCancelled` belong to Foundation and are not modelled. Dependency readiness is a boolean parameter of `IsReady`, and cancellation is a flag of `Start`.
- The exceptions `OperationQueue` raises for an operation added twice are not modelled, and neither are worker threads. The cycle and shared-dependency lemmas for `addOperation(includingDependencies:)` therefore describe the recursion alone. On a real queue the second `addOperation` of the same operation would raise before any cycle is walked. Running is one abstract step at a time, and every interleaving of steps is one possible schedule.
- `DispatchQueue`, the state queue of `AsynchronousOperation`, key-value observation and the repeating timer are concurrency and clock machinery, and are not modelled.
- The Vapor and Leaf views are not modelled. Parsing the integer request parameter is not modelled either; the index is an integer argument.
- URL normalisation in `absoluteString` is not modelled: a URL is its text.
- `Config` persistence is not modelled.
- The second `Scheduler` class in Repositories.swift is not modelled, nor is its private `update(for:)`. `Scheduler.update(for:)` in Scheduler.swift is unused and not modelled.
- `Repository.head(_:)` is never called by the core and is not modelled.
- The `AssetLocator(root:plan:)` initializer the tick calls does not exist in the sources; the locator per plan is a parameter.
- Swift string splitting works on grapheme clusters, so "\r\n" counts as one character that is not "\n". The model splits on single characters only.
- App.EnvironmentRoundTrip holds for the character-level model, not for Swift on every token `IsToken` accepts. Two cases break it because Swift splits on grapheme clusters:
  - A value ending in "\r" followed by another line joins with the "\n" into one grapheme. `{"A": "b\r", "C": "d"}` becomes the single line `A=b\r\nC=d`, which has three `=` pieces and is dropped, so Swift reads back an empty map.
  - A value that starts with a combining mark, such as "\u{301}b", fuses with the preceding `=`. The line does not split at `=` and is dropped.
- Swift `String` equality is canonical equivalence of Unicode, not equality of scalar sequences. The model compares strings as sequences of characters. Keys that are canonically equivalent but spelled differently are therefore distinct in the model. They would be one key in the dictionary built by `uniquingKeysWith` (App.swift:68) and in `environment[key] = value` (Repositories.swift:201).
- `OperationQueue.AddIncludingDependencies` has a depth bound `fuel`. With a bound above the number of operations the graph mentions, a result of `None` happens exactly when a cycle is reachable, so it stands for a recursion that does not end (`CompletesUnlessCycle`). A smaller bound can cut off a recursion that would end: with bound 0 the result is always `None`. Once the recursion ends, a larger bound changes nothing (`FuelIrrelevant`).
- `Scheduling.Tick`: the work of the update operations, build and launch is not part of the tick. `makeUpdate` only builds clone and checkout.
- `App.GetPlan`: the index is kept as a number; its rendering as text in the page is not modelled.
- App.GetPlan: an index out of range in `plans[index]` (App.swift:25) traps and ends the process. The model returns a recoverable `OutOfBounds` outcome instead. What a crashed process would do next is not modelled.
- App.UpdatePlan: likewise `plans[index] = plan` (App.swift:122) traps on a bad index; the model returns `OutOfBounds` and leaves the scheduler as it was.
- App.DeletePlan: likewise `remove(at:)` (App.swift:129) traps on a bad index; the model returns `OutOfBounds` and leaves the scheduler as it was.
- App.FormOf: the edit template is not part of this model. The form is assumed to name its inputs after the view's keys, which are the keys `PlanFromForm` reads.
