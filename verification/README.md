# Verified model of the Gremlins mutation engine

Gremlins tests the tests of a Go module: it finds tokens in the source that can be swapped for
others, applies each swap to a private copy of the module, runs the test suite there, and reports
which mutants were killed. It does this with a pool of workers that all mutate the *same* parsed
files in memory while the discovery walk is still reading them. This project models that engine
and proves that the sharing cannot be noticed as long as writes succeed: whenever a run without
I/O faults returns, its verdicts are those of a plain loop that applies each mutant alone to a
pristine copy of the source tree and passes over those whose file the copy lacks. For runs with I/O faults it proves what every test runs on, and
exactly when that is still the mutant alone.

## How the model is organised

* `Mutation` holds statuses, mutant types, tokens and the two tables; `MutationMeaning` says what
  each type of mutant does to Go's operators and that the tables do exactly that. `Coverage` and `Diff` hold
  the two filters that give a mutant its first status.
* `EngineModel` is the run protocol as a transition system, one program point per statement that
  another goroutine can notice: the walker offering mutants on an unbuffered channel, the
  dispatcher counting and queueing them in a channel of capacity one, the workers running
  executors (get a directory, lock, read, set token, write, reset token, unlock, test, restore,
  send, done), the closer waiting for the WaitGroup, and the collector. Read, write and rollback
  faults may strike at any time, as may a cancel.
* `EngineRun` (channels, WaitGroup, stop protocol, conservation), `EngineMemory` (shared ASTs,
  locks, directories), `EngineDiscovery` (the walk over changing ASTs) and `EngineTermination`
  (rank and progress) are the four parts of one invariant. `EngineTheorems` draws the properties
  of all runs from it; `EngineFaultFree` states them for runs without I/O faults, with premises
  on the inputs and the steps alone. `EngineFaults` says exactly what failed writes and rollbacks do to later
  tests, and `EngineWitnesses` builds the runs that show it. `EngineSequential` is the sequential
  loop as a program over the mutator objects. `EngineMeaning` says what a run means for one mutant,
  by its node, its package and the exit of its tests; `EndToEnd` continues back to the coverage
  report and the diff, and forward to the exit code.
* `TokenMutators`, `Workdir`, `Report`, `Snippet`, `Coverage` and `Diff` keep the form of the
  source: classes with the source's fields and loops over them, each proved against a
  specification function or predicate about which the properties are then proved. `LockTable` and
  `WorkdirRuns` are transition systems of their own for the double-checked table of file locks and
  for concurrent calls of the directory dealer; `EngineAtomicity` shows that each of their steps
  is, on the memory of `EngineModel`, either nothing or the one step taken there.

The Go parser gives each file as its token nodes in preorder; the printer is a function from the
tokens of a file to bytes; a test run is a set of possible ends that depends on the contents of
the work directory and the tested package (a set with one element where the outcome is
determined).

## Where the code does not do what one would expect

These are properties of the code, kept as they are and stated in the model.

* A failed write returns from `Apply` before the token is put back
  (`internal/engine/tokenmutator.go:127-129`), so the shared AST keeps the mutated token. The
  model keeps the failed mutants in order; the token of a node is its parsed token folded through
  the replacements of its failed mutants (`FreeFileIsPristine`, `OnlyHoldersNodeDiffers`). Every
  later mutant of the file is printed on top of that, and a later mutant of the same node starts
  from the token left there. So a test can see two mutations (`TwoMutationsAreTested`), and after
  a failed minus-to-plus the next mutant of that node puts the minus back, so that it is the
  unmutated program that gets tested (`UnmutatedProgramIsTested`). `PrintIsOwnMutantIff` gives
  the condition under which a print is nevertheless that of the mutant alone.
* A failed `Rollback` is only logged, so the directory keeps foreign content
  (`internal/engine/executor.go:193-196`) that later tests of the same worker run with
  (`FailedRollbackIsSeen`). `TestIsAloneIff` gives the condition under which a test still runs on
  its own mutant alone, and `AlwaysRightIffAlone` shows that no weaker one would do for every
  test suite. What fails after a mutant's own write cannot touch its verdict
  (`FaultsStayLocal`).
* A failed `Apply` drops the mutant from the results (`internal/engine/executor.go:185-189`). On
  return the dropped mutants are exactly those whose write failed, whose read failed, or whose
  file the copied tree lacks (`ReturnAccountsForAll`).
* That last case needs no fault. The walk opens a symbolic link to a Go file as the file it points
  to (`internal/engine/engine.go:104-126`), the copy leaves out whatever is neither a directory
  nor a regular file (`internal/engine/workdir/workdir.go:142-155`), and `Apply` then finds
  nothing to read. `LinkedFileIsDropped` is such a run. Without faults and a cancel every
  discovered mutant gets a verdict iff the copy has the file of each one that is to be tested
  (`NothingDroppedIffNoneMissing`).
* A negative worker count gives an empty pool. An uncancelled run with anything to test then
  never returns (`EmptyPoolNeverReturns`); `executeTests` returns on every schedule iff there is
  a worker or nothing to test (`AlwaysReturnsIff`). After a cancel `pool.Stop` can return with an
  executor still queued (`EmptyPoolLeavesQueued`). `Stop` waits on every schedule iff there is a
  worker or at most one mutant (`StopAlwaysWaitsIff`).
* `REM_ASSIGN` is mapped to itself (`internal/engine/mappings.go:94`), so that one mutant per
  `%=` is the unchanged program (`DiscoveredMutantChangesItsToken`).
* Changed lines are taken as one stretch per hunk, and a later entry of one new name replaces an
  earlier one. `MarkingIsExactIff` gives the condition under which the answer is right at every
  position; `InterleavedContextMovesTheMark` is an ordinary hunk for which it is wrong,
  `ReplacedEntryIsForgotten` the other way to go wrong. A diff that names no file counts
  everything as changed.
* `Get` is check-then-act: from any state in which two calls have missed the cache for one
  identifier, the run can go on to two directories for it (`OverlappingMissesCanDiverge`).
  Overlapping calls for an identifier that is cached are harmless. The workers of a pool have
  different names, so that their calls never miss one identifier at the same time
  (`WorkersAreExclusive`).
* The documentation says that a run fails if a threshold is not met; in the code a percentage
  equal to the threshold fails as well (`ExitMeaning`).
* The comment on `Start` says that failing tests mean KILLED; only exit code 1 does, exit code 2
  is NOT VIABLE and any other exit code LIVED (`FinalMeaning`).

## Model

| member | source | states |
|---|---|---|
| EngineTheorems.ParallelRefinesSequential | internal/engine/engine.go:202-235 | Whenever `executeTests` has returned with every test run on its own mutant alone, for every schedule and pool size, the collected (mutant, status) pairs are a permutation of what the sequential loop reports over the discovered mutants that were not dropped: over all of them without a cancel, over a prefix of them with one |
| EngineFaultFree.FaultFreeRunRefinesSequential | internal/engine/engine.go:202-235 | For every returned run in which no I/O fault occurs, with no other premise: the collected pairs are a permutation of what the sequential loop reports over the discovered mutants, or a prefix of them after a cancel, whose file the copied tree has; all ASTs and all work directories end as they began |
| EngineFaultFree.FaultFreeRunsAreClean | internal/engine/executor.go:185-198 | In every state of a fault-free run no token is left over and no directory spoilt, and every dropped mutant is one to be tested whose file the copied tree lacks |
| EngineFaultFree.DroppedIffMissing | internal/engine/executor.go:185-189 | A returned fault-free run has dropped each mutant taken in, once, iff it was to be tested and the copied tree lacks its file, and collected each of the others once |
| EngineFaultFree.NothingDroppedIffNoneMissing | internal/engine/executor.go:185-189 | Without a fault and a cancel every discovered mutant gets a verdict iff the copied tree has the file of every one that is to be tested |
| EngineFaultFree.FaultFreeSchedulesAgree | internal/engine/engine.go:202-235 | With determined test outcomes all returned, uncancelled, fault-free runs drop the same mutants and collect the same verdicts, also with pools of different size |
| EngineFaultFree.ReturnedLeavesNoTrace | internal/engine/executor.go:176-198 | After a return without write faults every AST is as parsed and every work directory is the source tree |
| EngineTheorems.SchedulesAgree | internal/engine/engine.go:202-235 | With determined test outcomes two returned, uncancelled runs that dropped the same mutants, with every test run on its own mutant alone, collect the same multiset of verdicts, also with pools of different size |
| EngineTheorems.SequentialIsUnique | internal/engine/executor.go:167-199 | With determined test outcomes the sequential loop has exactly one verdict list |
| EngineTheorems.CollectedAreFinal | internal/engine/executor.go:191-198 | If every test ran on its own mutant alone every collected status is one the mutant gets alone on a pristine tree |
| EngineTheorems.FaultsStayLocal | internal/engine/executor.go:185-196 | A mutant before whose write no write of its file had failed, and whose directory then had no foreign content in other files, is collected with a status it gets alone, whatever fails elsewhere or later, its own rollback included |
| EngineTheorems.VerdictsAreExact | internal/engine/executor.go:191-198 | With any faults, every collected status is one the tests give on the source tree with the foreign content of the directory and the print of the AST as failed writes had left it with the mutant's token replaced |
| EngineTheorems.NoFaultDisturbs | internal/engine/executor.go:185-198 | Without a failed write or rollback so far every test ran on its own mutant alone |
| EngineFaults.AlwaysRightIffAlone | internal/engine/executor.go:191-198 | A test's verdict is one the mutant gets alone for every possible test suite iff the test ran on the source tree with that mutant alone |
| EngineFaults.TestIsAloneIff | internal/engine/executor.go:191-196 | A test runs on the source tree with its own mutant alone iff the printed text is that of the mutant alone and every foreign content outside its file equals the source |
| EngineFaults.PrintIsOwnMutantIff | internal/engine/tokenmutator.go:124-139 | After any failed writes the printer gets the mutant applied alone iff every other node of its file folds back to its parsed token and the token found on its own node has the same replacement as the parsed one |
| EngineWitnesses.FailedWriteIsSeen | internal/engine/tokenmutator.go:127-132 | In every project whose first two mutants are tested, a run in which the first fails in its write, before or after the file was touched, and the second is tested on what that left in the AST and in the directory |
| EngineWitnesses.TwoMutationsAtOnce | internal/engine/tokenmutator.go:127-132 | After a failed write the next mutant of another node of the file is printed with both mutations, unless the failed one maps its token to itself |
| EngineWitnesses.TwoMutationsAreTested | internal/engine/tokenmutator.go:127-132 | A run in which a test sees two mutations |
| EngineWitnesses.UnmutatedProgramIsTested | internal/engine/tokenmutator.go:124-132 | A run in which a mutant is tested on the print of the unmutated program, after a failed write of the other mutant of its minus |
| EngineWitnesses.FailedRollbackIsSeen | internal/engine/executor.go:193-196 | In every project whose first two mutants are tested, a run in which the second is tested with arbitrary content left in the first one's file |
| EngineWitnesses.FailedReadIsDropped | internal/engine/tokenmutator.go:117-120 | In every project whose first mutant is tested, a run in which its read fails: it is dropped although its file is there, and no AST has changed |
| EngineWitnesses.PanicEndsTheRun | internal/engine/executor.go:170-174 | In every project with a mutant and a worker, a run in which the worker gets no directory: nothing can happen any more and `executeTests` has not returned |
| EngineWitnesses.TestsOverlap | internal/engine/engine.go:202-232 | In every project whose first two mutants are tested, with two workers, a run in which both are being tested at once |
| EngineWitnesses.FilesAreAppliedInParallel | internal/engine/tokenmutator.go:33-40 | If those two are in different files, a run in which both are being applied at once |
| EngineWitnesses.WalkMeetsMutatedAst | internal/engine/engine.go:129-157 | A run in which a worker has changed a token of a file that is still being walked |
| EngineTheorems.FaultsCanStrike | internal/engine/executor.go:167-199 | In every reachable state a cancel can come, each read, write and rollback can fail with anything left in the file, and getting a directory can fail |
| EngineWitnesses.MissingMutantIsDropped | internal/engine/workdir/workdir.go:142-155 | In every project with a discovered mutant to be tested whose file the copied tree lacks, a fault-free, uncancelled run that returns without a verdict for it |
| EngineWitnesses.LinkedFileIsDropped | internal/engine/workdir/workdir.go:142-155 | A project and such a run |
| EngineTheorems.TestsAreIsolated | internal/engine/executor.go:176-191 | The directory of a testing worker is the source tree, its own foreign content and its own mutant as printed, whatever the other workers are doing; and exactly the source tree with that mutant alone iff the print is that and the foreign content hidden |
| EngineMeaning.FinalMeaning | internal/engine/executor.go:179-299 | The status a mutant gets alone is its own if it is skipped, not covered or in a dry run; otherwise it is what the tests of its package, or all tests in integration mode, make of the source tree with the mutant in it: timed out past the deadline, killed for exit code 1, not viable for 2, lived for success and any other code |
| EngineMeaning.VerdictMeaning | internal/engine/executor.go:191-227 | The same for a verdict given on the tree that the mutant's write left |
| EngineMeaning.OnlyItsTestsDecide | internal/engine/executor.go:244-247 | Two test suites that agree on the mutant's package, or in integration mode on the whole module, give the same statuses, alone and on any tree |
| EngineWitnesses.ModeDecidesTheTests | internal/engine/executor.go:244-247 | For each mode a project and a fault-free run whose collected statuses the tests of the other mode would change |
| EngineMeaning.NotForTestingIsNeverTouched | internal/engine/executor.go:179-183 | A worker on a skipped or not covered mutant, or in a dry run, holds no lock, writes nothing and sends the mutant with the status it had |
| EngineMeaning.CollectedWasTestedIff | internal/engine/executor.go:179-198 | A collected mutant was tested iff it is neither skipped nor not covered and the run is not dry; otherwise it keeps its status |
| EngineMeaning.DroppedWasForTesting | internal/engine/executor.go:185-189 | Only a mutant that is to be tested can fail to be applied |
| EngineMeaning.TestSeesOneMutation | internal/engine/tokenmutator.go:110-135 | Where nothing failed, a test runs on the source tree with one file, the mutant's below the calling directory, printed from its parsed tokens with one operator turned into what the type says |
| EngineMeaning.OneMutationIsMutated | internal/engine/tokenmutator.go:124-125 | There is only one sequence of tokens that mutates a file as its mutant says |
| EngineTheorems.DirectoryIsPristineOtherwise | internal/engine/executor.go:185-198 | A worker's directory is the source tree, with the content its own failures left if there were any, whenever the worker is not between its write and its rollback |
| EngineTheorems.FreeFileIsPristine | internal/engine/tokenmutator.go:110-135 | While a file's lock is free every token of its AST is the parsed one folded through the failed mutants of its node; the AST is as parsed if no write of the file failed |
| EngineTheorems.OnlyHoldersNodeDiffers | internal/engine/tokenmutator.go:110-135 | A token differs from what failed writes left only on the node the lock holder is altering, where it is the holder's replacement; on a node none of whose writes failed what is left is the parsed token |
| EngineTheorems.CriticalSectionsExclude | internal/engine/tokenmutator.go:111-112 | In no reachable state are two workers between lock and unlock of one file name |
| EngineTheorems.DryRunTouchesNothing | internal/engine/executor.go:179-183 | In a dry run no file is ever locked, no AST and no directory ever changed, and every mutant is collected with its discovered status |
| EngineTheorems.ChannelsAreSafe | internal/engine/engine.go:206-232 | In every reachable state the WaitGroup is exact, no send meets a closed result channel, the queue is neither used nor closed again once closed, the result channel is closed once |
| EngineTheorems.ReturnedIsQuiet | internal/engine/engine.go:224-234 | When the collector returns, the dispatcher has exited, the queue is empty and no executor is running |
| EngineTheorems.MutantsAreConserved | internal/engine/engine.go:212-221 | At any time the mutants sent are a prefix of the discovery on frozen ASTs, and each is held, queued, running, collected, dropped or discarded, exactly once; at most one is discarded, and only after a cancel |
| EngineTheorems.ReturnAccountsForAll | internal/engine/engine.go:224-234 | On return all mutants sent are collected, dropped or discarded; without a cancel collected plus dropped is all that was discovered; the dropped ones are exactly those whose write failed, whose read failed, or whose file the copied tree lacks, and no mutant of the last kind is collected |
| EngineTheorems.StopWaitsForExecutors | internal/engine/workerpool/workerpool.go:119-130 | When `Stop` returns every worker has left and every executor appended before has finished or is still queued; one is still queued iff there is no worker and a mutant was handed over before the discarded one |
| EngineWitnesses.StopAlwaysWaitsIff | internal/engine/workerpool/workerpool.go:119-130 | `Stop` leaves no executor queued on any schedule iff there is a worker or at most one mutant to discover |
| EngineWitnesses.EmptyPoolLeavesQueued | internal/engine/workerpool/workerpool.go:119-130 | With an empty pool and two mutants, a run in which `Stop` returns with the first still queued |
| EngineTheorems.CancelStopsIntake | internal/engine/engine.go:212-218 | From a cancel on, at most one more mutant leaves the walker |
| EngineTheorems.EveryRunReturns | internal/engine/engine.go:202-235 | No run is longer than a bound known at its start; a run that cannot go on without the environment and has not panicked has returned from `executeTests` iff there is a worker or every mutant handed over was discarded, whether or not a cancel arrived |
| EngineWitnesses.AlwaysReturnsIff | internal/engine/engine.go:202-235 | `executeTests` returns on every schedule, panics aside, iff there is a worker or nothing to test |
| EngineTheorems.EmptyPoolNeverReturns | internal/engine/workerpool/workerpool.go:86-89 | With an empty pool and something to test no uncancelled run ever returns |
| EngineTheorems.RunKeepsInv | internal/engine/engine.go:202-235 | The invariant over channels, counter, mutants, memory, discovery and results holds at the end of every run |
| EngineTheorems.InvStep | internal/engine/engine.go:202-235 | Every step of every goroutine, cancels, panics and I/O faults included, keeps the invariant |
| EngineTheorems.ReturnedPrefix | internal/engine/engine.go:213-218 | A returned run has collected or dropped exactly a prefix of the discovered mutants, all of them without a cancel |
| EngineTheorems.Reorder | internal/engine/engine.go:229-232 | Verdicts collected in any order can be put into discovery order |
| EngineTermination.StepsDown | internal/engine/workerpool/workerpool.go:48-60 | Every step of every goroutine lowers the rank of the state |
| EngineTermination.Progress | internal/engine/engine.go:202-235 | Until the collector returns some step is enabled that needs neither a cancel nor a fault |
| EngineTermination.BusyProgress | internal/engine/executor.go:167-199 | A worker with an executor, or the holder of the lock it waits for, can take a step |
| EngineRun.RunInvStep | internal/engine/engine.go:208-227 | Every step keeps the WaitGroup equal to the dispatcher's share plus the executors counted but not done, keeps the close and stop protocols, and conserves every mutant |
| EngineRun.SendMeetsOpenChannel | internal/engine/executor.go:198-198 | While a worker has an executor the counter is positive, the result channel open and the collector receiving |
| EngineRun.WaitGroupNeverMisused | internal/engine/engine.go:208-227 | The counter never goes below zero, is never raised from zero, stays zero once there; after the close nothing is collected |
| EngineMemory.MemoryKept | internal/engine/tokenmutator.go:110-154 | Every operation of an executor, failed ones included, keeps the invariant of ASTs, locks and directories |
| EngineMemory.PrinterSeesOwnMutation | internal/engine/tokenmutator.go:124-139 | When a worker prints a file, the AST is what failed writes have left, with exactly its own token substituted |
| EngineMemory.OneAltererPerNode | internal/engine/tokenmutator.go:111-112 | Two workers in the critical section of one file name are the same worker |
| EngineDiscovery.DiscoverIsExact | internal/engine/engine.go:140-158 | Discovery on frozen ASTs finds every enabled type of every token node exactly once, with the status of its position, and nothing else |
| EngineDiscovery.DiscoveryStep | internal/engine/engine.go:129-157 | Every step keeps: what was offered, followed by what a walk over unchanged ASTs would still offer, is the discovery on frozen ASTs |
| EngineDiscovery.UnvisitedIsParsed | internal/engine/engine.go:141-156 | A node the walk has not reached carries its parsed token, although workers are changing tokens of the same file |
| EngineSequential.RunExecutor | internal/engine/executor.go:167-199 | Without faults one executor leaves ASTs, directory and lock as they were and reports a status the mutant gets alone; it drops the mutant iff it is to be tested and its file is missing from the directory |
| EngineSequential.TestMutant | internal/engine/executor.go:185-196 | Without faults applying, testing and rolling back leaves the AST, the directory and the lock as they were and yields a status the mutant gets alone, or nothing iff its file is missing |
| EngineSequential.RunSequentially | internal/engine/executor.go:167-199 | The loop over any mutants on the mutator objects reports a sequential verdict list of those whose file is there and leaves ASTs and directory as they were |
| EndToEnd.InitialStatus | internal/engine/engine.go:188-200 | The initial status: skipped when the line is not changed, otherwise runnable or not covered |
| EndToEnd.RunnableMeansExecutedAndAdded | internal/engine/engine.go:188-200 | For hunks with their additions together and none in a replaced entry, a mutant is runnable iff the coverage report counts its position and the diff added its line, and skipped iff the diff names files and did not add its line |
| EndToEnd.DiscoveredStatus | internal/engine/engine.go:140-200 | A discovered mutant is runnable iff a counted block of its file encloses the line and column of its node and the diff added that line or names no file; skipped iff the diff names files and did not add the line; otherwise not covered |
| EndToEnd.TestedIffExecutedAndAdded | internal/engine/executor.go:179-198 | In a run that is not dry a collected mutant was tested iff its node was executed and its line added; otherwise it is reported as skipped or not covered |
| EndToEnd.EntriesAreResults | internal/report/report.go:81-91 | The report gets one entry for each result in the order of collection, with its final status, its type and the file, line and column of its node |
| EndToEnd.EntriesCountResults | internal/report/report.go:107-124 | The report's number of mutants with a status is the number of results with that final status |
| EndToEnd.ExitOfARun | internal/report/report.go:229-266 | With which error a run exits, by the numbers of results that were killed, lived or were not covered and by the two configured thresholds |
| EndToEnd.ExitIsThatOfTheSequentialLoop | internal/report/report.go:256-266 | Exit error and status counters of a returned run whose tests all ran on their own mutant alone are those of the sequential loop over the mutants that were not dropped |
| EndToEnd.ExitIgnoresScheduleAndPool | internal/report/report.go:256-266 | With determined test outcomes such runs, uncancelled and having dropped the same mutants, end with the same exit error for all schedules and pool sizes |
| EndToEnd.FaultFreeRunsExitAlike | internal/report/report.go:256-266 | With determined test outcomes all returned, uncancelled, fault-free runs end with the same exit error |
| LockTable.SameNameSameMutex | internal/engine/tokenmutator.go:161-186 | Any two calls of `fileLock`, in any threads and at any times, return the same mutex iff they were for the same name |
| LockTable.EntriesAreForever | internal/engine/tokenmutator.go:161-178 | An entry of the lock table never changes |
| LockTable.FilesAreLockedExclusively | internal/engine/tokenmutator.go:111-112 | No mutex is made beside those in the table; two threads are never in one file's critical section; the deferred unlock releases the mutex that was locked, which this thread holds |
| LockTable.MapWritesAreExclusive | internal/engine/tokenmutator.go:164-169 | While a thread inserts into the map no other reads or writes it |
| LockTable.LockingNeverDeadlocks | internal/engine/tokenmutator.go:110-112 | While a thread is inside the locking of `Apply` some such thread can take a step |
| LockTable.TableRefinesOneLockPerName | internal/engine/tokenmutator.go:161-186 | Every step of the double-checked table is, on the locked names, nothing, the acquisition of a free name or its release by the holder |
| EngineAtomicity.LockTableIsOneStep | internal/engine/tokenmutator.go:110-112 | While the locked names of the table are the engine's locks, a step of the table that completes a lock or unlock is that step of the engine, then enabled, and every other leaves the engine's locks alone |
| EngineAtomicity.DealerIsOneStep | internal/engine/executor.go:169-170 | In runs of the dealer with the workers of one pool as callers, the step in which a worker's call returns is the engine's step of getting a directory, and every other leaves the engine's directories alone |
| TokenMutators.NodeToken.SetTok | internal/engine/node.go:65-72 | Writing through the node's pointer changes this one token of the shared AST; every reference to that token reads the new value, every other its old one |
| TokenMutators.TokenMutator.Apply | internal/engine/tokenmutator.go:110-135 | Success iff file readable, AST printable and write possible; then the file is the print of the AST with one operator turned into what the mutant's type says and the AST is as before. Failed read: nothing changed. Failed write: the token stays substituted. The lock is free on every path |
| TokenMutators.TokenMutator.WriteMutatedFile | internal/engine/tokenmutator.go:137-154 | A failed print leaves the directory alone, a failed write leaves unknown content in this one file |
| TokenMutators.TokenMutator.Rollback | internal/engine/tokenmutator.go:190-214 | The bytes read by `Apply` are written back, and forgotten even if that fails |
| TokenMutators.TokenMutator.RoundTrip | internal/engine/tokenmutator.go:110-195 | `Apply` and `Rollback` leave AST and directory as they were; in between the directory is the old one with the mutant's print |
| Snippet.ExtractSnippet | internal/engine/tokenmutator.go:227-245 | For any content, line and context whose sum is not negative: slice bounds in range, and the snippet is the window of lines around the target |
| Snippet.SnippetShowsTheTarget | internal/engine/tokenmutator.go:227-245 | The snippet is exactly the lines of the file at most context away from the target: at most 2*context+1, a contiguous stretch of the content, holding the target line iff it exists, and the whole content for a large context |
| Snippet.JoinSplit | internal/engine/tokenmutator.go:228-244 | Joining the split lines gives back the content |
| Snippet.SplitJoin | internal/engine/tokenmutator.go:228-244 | Splitting joined lines gives back the lines |
| Workdir.CopyRebuildsTree | internal/engine/workdir/workdir.go:124-174 | Replaying the copy over the walk into a fresh directory never meets a missing parent and rebuilds exactly the directories and regular files of the tree |
| Workdir.CopyNode | internal/engine/workdir/workdir.go:124-155 | The copy of any subtree adds its objects below an existing directory and leaves every other path alone |
| Workdir.CopyDoesNotTruncate | internal/engine/workdir/workdir.go:157-174 | Copying over a file that is there keeps what lies behind the copied content, and no other path changes |
| Workdir.CachedDealer.CopyTree | internal/engine/workdir/workdir.go:81-84 | The walk succeeds iff the file system does; then the new directory is a full copy and all others are untouched |
| Workdir.CachedDealer.Get | internal/engine/workdir/workdir.go:71-89 | A cached identifier gets its directory again; a new one a full copy under a fresh name; an error, whose causes are stated, leaves the cache as it was; different identifiers never share a directory |
| Workdir.CachedDealer.Clean | internal/engine/workdir/workdir.go:97-105 | Afterwards nothing is cached and every cached directory that can be removed is gone, no other |
| WorkdirRuns.OneDirectoryPerIdentifier | internal/engine/workdir/workdir.go:71-122 | While no two calls are past a missed lookup of one identifier, over a whole run of concurrent calls and calls of `Clean`: between two calls of `Clean` two answers are the same directory iff they were for the same identifier, and after a `Clean` every directory is a new one |
| WorkdirRuns.OneDirectoryPerIdentifierIff | internal/engine/workdir/workdir.go:71-122 | Over any run every identifier gets one directory between two calls of `Clean` iff no call stores over an identifier cached since its lookup |
| WorkdirRuns.OverlappingMissesCanDiverge | internal/engine/workdir/workdir.go:71-89 | From any state with two calls past a missed lookup of one identifier the run can go on to two directories for it |
| WorkdirRuns.DirectoriesAreNeverShared | internal/engine/workdir/workdir.go:71-105 | On any run, whoever calls: different identifiers never get one directory between two calls of `Clean`, and no directory given out before a `Clean` is given out after it |
| WorkdirRuns.CleanRemovesWhatIsCached | internal/engine/workdir/workdir.go:97-105 | On any run `Clean` forgets all directories, removes exactly cached ones, each unless it is stuck, and none that is being filled |
| WorkdirRuns.GetIsAtomic | internal/engine/workdir/workdir.go:71-122 | In runs with exclusive misses each step is, on the cache, nothing, one whole `Get` that answers an identifier without a directory with one never given out before, or a `Clean`; all answers are those of the cache |
| WorkdirRuns.WorkersAreExclusive | internal/engine/executor.go:169-170 | Callers that ask only under their own worker name never miss one identifier at the same time |
| WorkdirRuns.WorkersHaveTheirOwnDirectory | internal/engine/executor.go:169-170 | Over runs with such callers each worker has one directory of its own between two calls of `Clean` |
| WorkdirRuns.SimultaneousCallsGetTwoDirectories | internal/engine/workdir/workdir.go:71-89 | A run in which two overlapping calls for one identifier get different directories |
| WorkerPool.Pool.Initialize | internal/engine/workerpool/workerpool.go:77-93 | One worker for each identifier below the size, so that identifiers are unique; none for a negative size |
| WorkerPool.SizeIsPositiveIff | internal/engine/workerpool/workerpool.go:95-104 | The pool has a worker iff the configured count is not negative; zero means one per CPU, integration mode halves but never to zero |
| WorkerPool.WorkerNamesDiffer | internal/engine/executor.go:169-169 | Workers of one pool with different identifiers have different names |
| WorkerPool.WorkerNameReads | internal/engine/executor.go:169-169 | A worker's name is that of the pool, a dash and its number in decimal |
| Report.NewReport | internal/report/report.go:73-105 | No report iff no results; otherwise the report lists every file's mutations in order, counts every status and every type, and holds the two percentages |
| Report.ReportStatus.ReportMutationStatus | internal/report/report.go:107-124 | The counters go from counting the mutants before to counting them and this one |
| Report.ReportStatus.ReportMutatorType | internal/report/report.go:126-151 | The same for the mutant types |
| Report.ReportStatus.Assess | internal/report/report.go:229-250 | The exit error is the gate on the two percentages, efficacy first, the integer reading of a threshold used when the float one is zero |
| Report.Do | internal/report/report.go:256-266 | The exit error is a function of the list of results, none for an empty list |
| Report.ReportIgnoresOrder | internal/report/report.go:73-151 | Permuted results give the same counters, per-file multisets, percentages and exit error |
| Report.StatusesAddUp | internal/report/report.go:107-124 | The seven status counters sum to the number of mutants |
| Report.KindsAddUp | internal/report/report.go:126-151 | The eleven type counters sum to the number of mutants |
| Report.FilesAddUp | internal/report/report.go:81-88 | The lists per file, in any enumeration of the files, hold every mutant once |
| Report.FileListMembers | internal/report/report.go:82-87 | A file is listed iff some mutant is in it |
| Report.PercentagesAreBounded | internal/report/report.go:93-102 | Both percentages lie in 0..100; full efficacy iff something was killed and nothing lived, full coverage iff something was tested and nothing uncovered |
| Report.PercentagesAreShares | internal/report/report.go:93-102 | Efficacy is the share of killed among killed and lived, coverage that of tested, or runnable in a dry run, among those and the not covered; 0 of nothing, without a zero divisor |
| Report.GateMeaning | internal/report/report.go:229-250 | A full run passes iff each percentage exceeds its threshold where that is positive; the efficacy error iff the efficacy threshold is positive and not exceeded |
| Report.ExitMeaning | internal/report/report.go:93-102 | No error for a dry run or an empty list; otherwise the efficacy error iff killed are not more than the demanded per cent of killed and lived, the coverage error iff that is met and tested are not more than the demanded per cent of tested and not covered; the integer reading of a threshold counts iff the float one is zero |
| Report.StatusCountersAreNamed | internal/report/report.go:107-124 | Each status field of a report is the number of places in the list with that status |
| Report.KindCountersAreNamed | internal/report/report.go:126-151 | Each type field of a report is the number of places in the list with that type |
| Report.FileListShows | internal/report/report.go:81-88 | The j-th mutation listed for a file has the line, column, type and status of the j-th mutant in that file |
| Report.KillingNeverHurts | internal/report/report.go:229-250 | Turning a lived or not covered mutant into a killed one lowers neither percentage and never turns a passing run into a failing one |
| Diff.NewChanges | internal/diff/diff.go:34-51 | One stretch per hunk with additions, in order |
| Diff.NewDiff | internal/diff/diff.go:22-32 | The map of all files, a later file of one new name replacing an earlier one |
| Diff.IsChanged | internal/diff/diff.go:55-69 | True iff the diff names no file or some stretch of the position's file holds its line |
| Diff.MarkedLinesFitTheHunk | internal/diff/diff.go:42-47 | A well-formed hunk marks as many lines as it adds, all inside its new range |
| Diff.MarksAreExactIffAdditionsTogether | internal/diff/diff.go:42-47 | The marked lines are the added lines iff the additions stand together behind the leading context |
| Diff.InterleavedContextMovesTheMark | internal/diff/diff.go:42-47 | A hunk with one context line before its addition marks a line that was not added |
| Diff.ChangedMeansAdded | internal/diff/diff.go:22-69 | With additions together in all hunks and none in an entry that a later one of its name replaces, a position is changed iff its line was added, or the diff names no file |
| Diff.MarkingIsExactIff | internal/diff/diff.go:22-69 | For well-formed hunks that share no line of a new file, the answer is right at every position iff every hunk keeps its additions together and no entry with additions is replaced by a later one of its name |
| Diff.ReplacedEntryIsForgotten | internal/diff/diff.go:25-29 | Two entries of one name: a line added by the first is not changed |
| Coverage.BlockTestIsTextOrder | internal/coverage/profile.go:53-96 | The block tests together are containment in lexicographic (line, column) order, ends included |
| Coverage.IsCovered | internal/coverage/profile.go:27-42 | True iff some block of the position's file contains it in text order |
| Coverage.Parse | internal/coverage/coverage.go:177-200 | The map holds exactly the blocks with non-zero count, per normalised name and in report order, and no name without blocks |
| Coverage.AppendCounted | internal/coverage/coverage.go:184-196 | One file's non-zero blocks are put behind those of its name, all other names are untouched |
| Coverage.BlocksOfMembers | internal/coverage/coverage.go:183-197 | A block is in the fold for a name iff the report has it with a non-zero count in a file of that normalised name |
| Coverage.LookupMatchesReport | internal/coverage/profile.go:27-42 | A position is covered by the folded map iff some reported block with non-zero count, in a file whose normalised name is the position's, contains it |
| Mutation.DiscoveredMutantChangesItsToken | internal/engine/mappings.go:27-137 | Every discovered mutant has a replacement token, different from the original except for the one self-mapped entry |
| MutationMeaning.TablesMeanTheTypes | internal/engine/mappings.go:27-137 | A type is tried on a token, with this replacement, iff the replacement does to the token what the type says: a negated comparison is opposite on all operands, a moved boundary differs exactly on equal ones, plus and minus mirror each other, division undoes multiplication and shifts each other, and so on for every type |
| MutationMeaning.KindsHaveReplacements | internal/engine/mappings.go:27-137 | A type is tried on a token iff the second table has an entry for it |
| MutationMeaning.KindsInOrder | internal/engine/mappings.go:27-62 | At most two types are tried on a token, never one twice, in table order |
| MutationMeaning.TwiceGivesBack | internal/engine/mappings.go:64-137 | Replacing twice gives back the token, except for the operators without a partner and the two types that go one way |
| MutationMeaning.AssignmentsFollow | internal/engine/mappings.go:90-112 | An assignment is replaced as its operator is, except for the remainder |

## Left out

- EngineTheorems.EveryRunReturns: asks that tests come back (the deadline kills them in the source); a panic ends the process instead of returning.
- EngineTheorems.ParallelRefinesSequential: asks that every test ran on its own mutant alone, which is what verdicts for any test suite need; `VerdictsAreExact` says what a run reports otherwise.
- EngineAtomicity.DealerIsOneStep: joins single steps and says which workers have a directory; the content of the directory is that of `Workdir.CopyRebuildsTree`, and runs of the two systems are not multiplied out.
- TokenMutators.TokenMutator.Apply: the object runs in one thread; interleavings of its steps are the subject of `EngineModel` and `LockTable`.
- WorkdirRuns.OneDirectoryPerIdentifier: `Clean` is one step, although the source loops over the cache without taking the mutex.
- Workdir.CachedDealer.Get: the object runs in one thread; interleavings are the subject of `WorkdirRuns`. File modes, and sharing of data between files, are not modelled.
- Report.Do: percentages are exact reals; rounding of float64 is not modelled.
- Goroutines, channels and the WaitGroup of `engine.go` and `workerpool.go` are program points of a transition system and not objects; the WaitGroup inside `Stop` is folded into the step that lets `Stop` return.
- Tests that write into their own work directory, or read outside it.
- A panic on a failed `Get` stops the whole process at once; deferred calls running while it unwinds are not modelled.
- After a cancel the walker may stay blocked on its send for ever; termination is about `executeTests` returning.
- The lock key is the file name of the parsed position; `//line` directives, which could change it, are excluded.
- The WaitGroup and RWMutex are modelled without the fairness rules of the Go runtime, such as a waiting writer keeping new readers out.
- Integer widths: lines, columns and counters are unbounded.
- The parser, the printer, the file walk, the git diff parser and the reading of the coverage file are libraries; their results are inputs. The normalisation of file names in coverage is a parameter.
- Starting, timing and killing `go test` processes; the ways they can end are an input.
- The package path of a file (`pkgName`) is an input; so are exclusion rules, which only choose the files of the walk.
- Timeout and test-CPU arithmetic, command line, configuration files, logging, colours, JSON output and the text of diffs shown to the user.
- The signal handling that leads to a cancel; it is one step of the environment.
