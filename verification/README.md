# Judge model

A Dafny model of a code-judging service: submissions run in sandbox containers,
language wrappers build the arguments, call the function and print framed results,
and the judge reads those results back and gives a verdict. The project models the
parts that decide whether that verdict is right and whether the shared Redis state
stays sound, and proves their main guarantees for all inputs and all runs.

`dafny verify dfyconfig.toml` checks the whole project.

## Parts

- `TreeCodec`, `TreeRoundTrip`, `TreeSharing`: four level-order tree builders on heap nodes (Python's
  deque, Go's cursor, Java's queue with nulls, C++'s queue) and the breadth-first
  serializer. One arithmetic specification serves all four: the left child of the node at
  index `i` stands at `1 + 2 * (non-null items before i)`.
- `ListCodec`, `GraphCodec`: linked lists with an optional cycle, and adjacency-list graphs.
- `ContainerPool`, `PoolOwnership`, `PoolImages`, `PoolOperations`: the warm container pool as a state
  machine of any number of jobs, prewarmers and two-step reapers; one Redis command, script
  or pipeline is one step. `PoolOperations` holds the loops themselves on one list, and
  shows that the protocol does the same when nothing comes between its steps.
- `Semaphore`: the Redis counting semaphore with restarts, crashes and stale releases.
- `JobQueue`, `Worker`: the job protocol and the paths of one worker slot.
- `Framing`, `SettledOutput`: marker-delimited blocks inside arbitrary output, the forward and
  backward scans, and output that holds blocks of its own.
- `Collector`: what batch and single wrappers print, and what the judge concludes from it.
- `Comparator`, `Verdict`: the lenient comparator, the two execution modes, the shown values.
- `Executor`: the container of one submission through compilation, judging and cleanup.
- `SignatureLexer`, `ParameterSplit`: blanking of comments and literals in C and C++ sources,
  and splitting of the parameter list.

## What the code turns out to do

- An array with items beyond the slots of reachable nodes does not survive
  build-then-serialize; `TreeRoundTrip.SerializeAfterBuild` gives the exact condition and
  `TreeRoundTrip.OrphanExample` an input.
- The reaper's read and replace are separate commands. Inside that window a pop lets two
  jobs share a container or puts a killed one back into the list, a push below the cap loses
  one, and a second pass kills twice or writes back what the first has killed
  (`PoolOwnership.PopBetweenShares`, `PoolOwnership.StalePopRevives`,
  `PoolOwnership.PushBetweenIsLost`, `PoolOwnership.DoubleReadKillsTwice`,
  `PoolOwnership.DisagreeingReadsRevive`, and the complete run
  `PoolOwnership.SharedContainerRun`). `PoolOwnership.OnePlaceIffHarmless` is the exact
  condition. The cap survives every interleaving.
- Time stamp and push are separate too, and two releases may cross, leaving a list out of
  order (`ContainerPool.CrossingRun`); `ContainerPool.OrderIffPushesInOrder` says exactly when
  the lists stay newest first.
- A semaphore initialiser that crashes after SETNX leaves the epoch without slots of its own:
  none at all before the first restart, and afterwards only those that releases of earlier
  tokens and initialisers of earlier epochs bring (`Semaphore.CrashedInitialiserStarves`,
  `Semaphore.StaleReleaseFeeds`). k restarts can put N(k+1) slots in use
  (`Semaphore.RestartBoundIsTight`), and a late DEL can remove them all
  (`Semaphore.LateDeleteLosesSlots`).
- The start marker overlaps itself on two underscores, so output that merely does not
  contain the marker can still hide the next block (`Framing.JudgeOverlap`);
  `Framing.CutIsExact` is the exact condition.
- A result whose text mentions the end marker is lost (`Collector.EndMarkerDecides`,
  `Collector.ReturningTheMarker`).
- The judge cannot tell the submission's own blocks from the wrapper's. One by one the last
  block counts, so one printed at exit, or before the process ends itself with code 0,
  replaces the result (`Collector.LateBlock`, `Collector.ForgedValue`). In batch mode a block
  too many shifts the results or fails the run (`Collector.ShiftedResults`,
  `Collector.BlockTooMany`), and a run can print any other course of the remaining test cases
  (`Collector.ForgedRun`, `Collector.ForgedValues`). `Collector.SingleEndToEnd` and
  `Collector.BatchEndToEnd` say exactly when the judge sees what happened.
- The parameter list is split as written, so a comma in a comment splits a parameter and a
  bracket in a comment can join two (`ParameterSplit.CommaInComment`,
  `ParameterSplit.BracketInComment`); `ParameterSplit.SplitsAgree` is the exact condition.
- Batch and one-by-one mode disagree when a mismatch precedes the first failing test case,
  and only then, as long as processes end with the exit codes of their wrappers
  (`Verdict.ModesAgree`, `Verdict.ModesDiffer`).
- A process that returns every value and then crashes, as in a destructor, fails in both
  modes, but one by one at the first test case and in batch mode at an index past the last
  one (`Collector.CrashAtExit`, `Verdict.CrashingExit`).
- In batch mode, a process that reports an exception and then hangs on its way out has the
  time limit attributed to the next test case (`Collector.StuckAfterError`, part of
  `Collector.BatchEndToEnd`).
- A result carrying both a non-null value and a mutated argument is accepted by the argument
  and shown by the value (`Verdict.UnshapedResultMisreported`). Wrappers send none, but a
  block of the submission's own can be one.
- The comparator is symmetric but not transitive: the structural comparison is transitive
  through exactly the values without numbers (`Comparator.TransitiveIffNumberFree`), and the
  text rules do not repair it (`Comparator.ToleranceIsNotTransitive`).
- Booleans match the number they stand for without any tolerance, while integers match floats
  with it (`Comparator.BooleansMatch`, `Comparator.NumbersMatch`).
- The result of a job whose client gave up goes to nobody (`JobQueue.GivenUpForGood`).
- The graph serializer uses node values as indices, so a value of zero or less addresses a row
  from the end, or raises (`GraphCodec.Serialize`).

## Model

| member | source | states |
|---|---|---|
| TreeCodec.BuildFromDeque | languages/python_wrapper.py:48-62 | for every array the returned heap nodes represent exactly the tree the array denotes, and all are new |
| TreeCodec.BuildWithCursor | languages/go_wrapper.py:153-186 | the cursor builder gives the same tree, even where it links unreachable nodes to themselves |
| TreeCodec.BuildWithNullQueue | languages/java_wrapper.py:49-73 | the queue-with-nulls builder gives the same tree |
| TreeCodec.BuildWithQueue | docker/cpp_support.hpp:64-92 | the queue builder gives the same tree |
| TreeCodec.RepresentsIsFunctional | languages/python_wrapper.py:25-30 | heap nodes represent at most one tree, so "same tree" is meaningful |
| TreeSharing.NothingShared | languages/python_wrapper.py:48-62 | no node of a built tree is reached by two paths, so changing one node changes one place |
| TreeRoundTrip.Serialize | languages/python_wrapper.py:65-84 | the breadth-first loop returns the level order of the represented tree, trailing nulls trimmed |
| TreeRoundTrip.OrderShape | languages/python_wrapper.py:70-80 | in level order the children of each node stand at the closed-form index |
| TreeRoundTrip.BuildAfterSerialize | languages/python_wrapper.py:48-84 | building from the serialized form of any tree gives back that tree |
| TreeRoundTrip.SerializeAfterBuild | languages/python_wrapper.py:48-84 | serializing a built array gives it back trimmed if and only if no non-null item is an orphan |
| TreeRoundTrip.LevelOrderHasNoOrphans | languages/python_wrapper.py:65-84 | serialized trees always meet that condition |
| TreeRoundTrip.OrphanExample | languages/python_wrapper.py:48-84 | an overlong array that does not come back |
| TreeRoundTrip.ReadingExample | languages/python_wrapper.py:48-62 | the array 1, null, 2, 3 is a root 1 whose right child 2 has left child 3 |
| TreeRoundTrip.DenoteTrim | languages/python_wrapper.py:81-84 | trimming trailing nulls does not change the tree |
| TreeRoundTrip.BuildAndSerialize | languages/go_wrapper.py:153-210 | all four builders followed by the serializer return the same array, for every input |
| ListCodec.Build | languages/python_wrapper.py:87-100 | the nodes hold the values in order; the tail links to node `pos` when it is in range, else to nothing |
| ListCodec.Serialize | languages/python_wrapper.py:103-112 | on any finite heap, cyclic or not, returns the values on the walk until it ends or meets a node again |
| ListCodec.WalkIsWholeList | languages/python_wrapper.py:103-112 | the walk over a built list, with or without a cycle, is exactly its nodes |
| ListCodec.BuildAndSerialize | docker/cpp_support.hpp:35-62 | values come back for every `pos` |
| GraphCodec.Build | languages/python_wrapper.py:119-129 | succeeds exactly when all neighbours are in 1..n, and then builds that graph |
| GraphCodec.Traverse | languages/python_wrapper.py:132-150 | whatever values the nodes have, the search visits exactly the reachable vertices, each once, and terminates |
| GraphCodec.Serialize | languages/python_wrapper.py:132-161 | for any graph and any node values: as many rows as the largest value; each reachable vertex adds its neighbours' values to the row its value addresses, negative indices included; IndexError exactly when a vertex with neighbours addresses none |
| GraphCodec.LandingIsPythonIndex | languages/python_wrapper.py:151-161 | a value addresses a row if and only if its predecessor is that row's index from the front or from the end, and none if and only if that index is out of range |
| GraphCodec.NumberedRows | languages/python_wrapper.py:132-161 | when the nodes have their own numbers there is no error, and row v is the original row of a reachable vertex and empty otherwise |
| GraphCodec.AdjacencyIsUnique | languages/python_wrapper.py:151-161 | that description determines the result |
| GraphCodec.RoundTrip | languages/python_wrapper.py:119-161 | the result is the original list exactly when the last vertex is reachable and every unreachable row is empty; in particular for fully reachable graphs |
| GraphCodec.BuildAndSerialize | languages/python_wrapper.py:119-161 | the composition, with the out-of-range error |
| ContainerPool.CapHolds | execution/container_pool.py:55-62 | no list exceeds the cap in any run, with any number of concurrent two-step reapers |
| ContainerPool.PushKeepsOrder | execution/container_pool.py:55-62 | on an ordered list a push keeps the order if and only if the list is at the cap, empty, or headed by an entry that is not newer |
| ContainerPool.OrderIffPushesInOrder | execution/container_pool.py:210-217 | in every run, with any reapers: all lists are newest first in every state if and only if every push that changes a list is in order |
| ContainerPool.TimelyPushesInOrder | execution/container_pool.py:210-217 | pushes are in order when the clock is monotone and stamping and pushing are one step |
| ContainerPool.CrossingPushes | execution/container_pool.py:210-217 | in any state, two stamps whose pushes cross leave the older entry in front |
| ContainerPool.CrossingRun | execution/container_pool.py:210-217 | a complete run from the empty pool that leaves a list out of order |
| ContainerPool.ReaperCutsTail | execution/container_pool.py:363-385 | on an ordered list the reaper removes exactly a tail segment, the expired entries |
| PoolOwnership.OnePlaceIffHarmless | execution/container_pool.py:151-224 | each started container is in exactly one place in every state of a run if and only if every action is harmless to the lists that reapers are replacing |
| PoolOwnership.SoundStep | execution/container_pool.py:357-385 | step by step: pops of an empty list, pushes at the cap and second reads that evict nothing are harmless inside a window, everything else on the list is not |
| PoolOwnership.ExactlyOnePlace | execution/container_pool.py:151-224 | the places themselves, for every harmless run |
| PoolOwnership.HeldOnce | execution/container_pool.py:151-189 | hence no two jobs hold the same container, and a held container is in no list, under no kill task and not gone |
| PoolOwnership.ListedOnce | execution/container_pool.py:192-224 | with no reaper under way, a container that is not held, dying or gone is in exactly one list position |
| PoolOwnership.PopBetweenShares | execution/container_pool.py:363-385 | a pop between a reaper's read and replace makes two jobs share a container |
| PoolOwnership.PushBetweenIsLost | execution/container_pool.py:363-385 | a push between them loses the container |
| PoolOwnership.StalePopRevives | execution/container_pool.py:162-176 | a pop that finds the entry stale between a read and its replace kills it, and the replace lists it again |
| PoolOwnership.StalePopKillsTwice | execution/container_pool.py:162-176 | a stale pop of an entry the reaper evicts gives it two kill tasks |
| PoolOwnership.DoubleReadKillsTwice | execution/container_pool.py:363-385 | two reads of one expired entry give it two kill tasks |
| PoolOwnership.DisagreeingReadsRevive | execution/container_pool.py:363-385 | a pass that keeps an entry can write it back after another has sent it to be killed |
| PoolOwnership.SharedContainerRun | execution/container_pool.py:357-385 | a complete run from the empty pool that ends with a shared container |
| PoolOperations.WarmList.Acquire | execution/container_pool.py:151-189 | returns the oldest entry that is usable and at most ttl old when popped, drops and kills exactly the ones before it that are older or unusable, none left if nothing qualifies |
| PoolOperations.ReleaseThenAcquire | execution/container_pool.py:151-224 | a released container waits its turn: acquire takes what it would have taken before, the released one when there was none, and never sees it when the list was full |
| PoolOperations.WarmList.ReapOnce | execution/container_pool.py:357-385 | an entry is kept, in order, if and only if it is at most ttl old, and killed otherwise |
| PoolOperations.ReapThenAcquire | execution/container_pool.py:151-189 | a reaper pass before it changes neither what acquire returns nor whether it returns anything |
| PoolOperations.UndisturbedPass | execution/container_pool.py:357-385 | as protocol steps without interference, a pass keeps exactly the entries at most ttl old when it started and has exactly the others killed |
| PoolOperations.PopTakesOldest | execution/container_pool.py:162-176 | a pop takes the last entry; it is checked if at most ttl old and killed otherwise |
| PoolOperations.UndisturbedAcquire | execution/container_pool.py:151-189 | as protocol steps without interference, acquire hands out the entry the loop takes, or gives up on an emptied list |
| PoolOperations.UndisturbedRequest | execution/container_pool.py:151-189 | the same for a process that asks for an image: it runs on an entry of that image's list, or on none |
| PoolImages.ImageKept | execution/container_pool.py:69-224 | in every run, whatever the reaper races: a container is pooled and run only under the image it was started from |
| Semaphore.Conservation | execution/docker_semaphore.py:34-58 | without restarts, whoever crashes: at most one initialiser; live holders, tokens and slots lost with dead holders are N once it has filled, and none exists before that or if it died first |
| Semaphore.EpochAccount | execution/docker_semaphore.py:36-58 | in every run: one initialiser per epoch, and the tokens of the epoch are its fills plus stale releases less what late DELs removed |
| Semaphore.RestartBound | execution/docker_semaphore.py:36-58 | with k restarts and any crashes and stale releases, holders plus tokens plus N per pending initialiser is at most N(k+1) |
| Semaphore.RestartBoundIsTight | execution/docker_semaphore.py:36-58 | for every N and k some run reaches the bound |
| Semaphore.ReplenishedStep | execution/docker_semaphore.py:39-42 | an initialiser that finishes makes at least N tokens available, and no step takes a settled epoch below N slots |
| Semaphore.SlotsComeBack | execution/docker_semaphore.py:36-42 | after any restarts and crashes: once the epoch's initialiser has filled and no DEL of the epoch is without its refill, at least N slots exist |
| Semaphore.LateDeleteLosesSlots | execution/docker_semaphore.py:39-42 | the last condition is needed: an initialiser of an earlier epoch that sends DEL late and dies leaves no slot |
| Semaphore.CrashedInitialiserStarves | execution/docker_semaphore.py:39-42 | in every run: an epoch whose initialiser died before its fill has only slots from stale releases and from initialisers of earlier epochs, none without a restart |
| Semaphore.StaleReleaseFeeds | execution/docker_semaphore.py:55-58 | a run in which such an epoch does get a token, from a release after the restart |
| Semaphore.AlwaysGetsOut | execution/docker_semaphore.py:39-58 | in any state, with or without tokens, a live process gets out by at most three steps of its own |
| JobQueue.ExactlyOneStage | jobqueue/job.py:40-101 | in every run each enqueued job is in exactly one stage: one queue position, one slot, or done |
| JobQueue.FirstInFirstOut | jobqueue/job.py:49-59 | in every run and for each language, the jobs taken so far followed by those still queued, oldest first, are the jobs enqueued, in order and each stamped with the time of its own enqueue |
| JobQueue.RunInTimeOrExpired | worker.py:75-94 | in every run a popped job is one that was enqueued; it is run if that is at most the age limit ago and expires otherwise |
| JobQueue.ClockRun | worker.py:75 | the clock shows the time that passed |
| JobQueue.ProcessedOnce | worker.py:166-192 | no two slots process the same job and a job in a slot is in no queue |
| JobQueue.OneResultEach | jobqueue/job.py:74-101 | a job has exactly one posted result if and only if it is done, and a waiter only gets its own job's |
| JobQueue.ResultsAccounted | jobqueue/job.py:74-101 | the one result of a done job waits in its list or went to exactly one client; other jobs have neither |
| JobQueue.ServedTheVerdict | jobqueue/job.py:74-101 | in every run a client is served the one verdict that was decided about its job |
| JobQueue.GivenUpForGood | jobqueue/job.py:95-101 | once its client has given up, the result of a job is served to nobody in any continuation |
| JobQueue.StatusStep | jobqueue/job.py:65-84 | one step leaves a status alone or moves it queued-running, running-done, or queued-done on expiry |
| JobQueue.StatusNeverMovesBack | jobqueue/job.py:65-84 | over any run a status never moves back |
| JobQueue.DepthBound | jobqueue/job.py:44-59 | with at most P requests inside enqueue no queue exceeds MAX_QUEUE_DEPTH - 1 + P |
| JobQueue.DepthBoundIsTight | jobqueue/job.py:44-59 | for every depth and P some run reaches that length |
| Worker.Slot.MarkDone | jobqueue/job.py:74-84 | status and result together, or neither when the result cannot be encoded |
| Worker.Slot.Process | worker.py:63-158 | exactly one result for every job on every path, and which: expired beyond 300 seconds, the verdict when it encodes, the message of a ValueError from running or encoding, an internal error otherwise; after the right status writes; none for text that is not JSON; JSON of another shape raises |
| Worker.Slot.Serve | worker.py:166-192 | one result per job popped, in order; stops early only on shutdown or after the first item that raises |
| Framing.FoundThere | execution/process.py:66-70 | what the forward search returns is an occurrence |
| Framing.FindsFirst | execution/process.py:66-70 | and no occurrence at or after the start comes before it |
| Framing.RFind | execution/process.py:47 | the last occurrence of the marker |
| Framing.ParseAll | execution/process.py:61-79 | the loop returns the decodable texts the scan specification lists, in order |
| Framing.ForwardScan | execution/process.py:61-79 | for blocks free of the end marker with quiet output before each, the scan returns exactly the printed bodies, then what the trailing output holds |
| Framing.ForwardScanIff | execution/process.py:61-79 | for any printed objects after quiet output, this happens if and only if none of them mentions the end marker |
| Framing.ForwardRoundTrip | execution/process.py:61-79 | with marker-free trailing output: exactly the printed bodies |
| Framing.CutIsExact | execution/process.py:65-73 | a block is cut out where it was printed if and only if the output before it is quiet and the object does not mention the end marker |
| SettledOutput.ScanSettled | execution/process.py:61-79 | after output that closes every block it opens, the scan returns the output's own texts, then the block, then what follows |
| SettledOutput.SettledIsExact | execution/process.py:61-79 | after any output at all, a block is cut out where it was printed if and only if the output is settled in that sense |
| Framing.OverlapShiftsBlock | execution/process.py:24-25 | marker-free output whose end overlaps the marker makes the scan cut out a corrupted text instead |
| Framing.JudgeOverlap | execution/process.py:24-25 | the same at the judge's own markers, on two characters |
| Framing.JudgeMarkers | execution/process.py:24-25 | the judge's two markers meet the assumptions, and the start marker overlaps itself on two characters |
| Framing.LastMarker | execution/process.py:45-58 | whatever was printed before, the last start marker is the last block's if and only if none lies in the object, its end marker and the output after it |
| Framing.LastCutIsExact | execution/process.py:45-58 | the backward scan cuts the last block out where it was printed if and only if the object mentions neither marker and no start marker follows |
| Framing.BackwardRoundTrip | execution/process.py:45-58 | the backward scan then returns the last body |
| Framing.NewlineShields | languages/python_wrapper.py:280-283 | with the newline after a block only the submission's own trailing output matters |
| Framing.NewlineKeepsQuiet | languages/python_wrapper.py:280-283 | the newline before the next output neither creates nor removes quietness |
| Collector.RunBatch | languages/java_wrapper.py:390-415 | the batch loop's transcript and ending: blocks up to the first failing test case, then its error block, its death or silence, what is printed at exit, and the exit code unless the process ends otherwise on its way out |
| Collector.CollectBatch | execution/process.py:160-183 | results if and only if the exit code is 0, there are as many blocks as test cases and none has an error; a time limit exactly if still running, at the test case after the last block; otherwise the first error block's index or position, or the number of blocks when none has an error |
| Collector.RecoveredIff | execution/process.py:170-172 | after settled output the judge finds the submission's own texts and the wrapper's, in order, if and only if no printed object mentions the end marker |
| Collector.BlocksRecovered | execution/process.py:170-172 | if the printed blocks read back, the judge finds, per test case, the submission's own blocks and then the wrapper's |
| Collector.PrintedShape | languages/c_wrapper.py:121-141 | one value block per test case before the first failure, then an error block exactly if that one threw |
| Collector.BatchEndToEnd | execution/process.py:138-183 | wrapper and collector together, whatever is printed and however the process ends: all values if none fails and the exit code is 0, else the first failing test case (past the last one for a crash at exit), as a timeout exactly if it never ended, if and only if the blocks found do not mislead; without blocks of the submission's own they do exactly if an exit hangs after an error |
| Collector.JudgedIsExpected | execution/process.py:165-183 | for any blocks, outcomes and ending, exactly which blocks make the judge conclude something else |
| Collector.CrashAtExit | execution/process.py:181-183 | a run that returns every value and then exits with another code than 0 fails, at an index past the last test case |
| Collector.ErrorKeepsItsPlace | execution/process.py:175-178 | an exception is attributed to the test case that threw, however many error-free blocks the submission printed before |
| Collector.SettledShows | execution/process.py:181-183 | after settled output a run that succeeds is reported with its values if and only if there is no block too many |
| Collector.ShiftedResults | execution/process.py:174-183 | a block of the submission's own shifts the results by one |
| Collector.BlockTooMany | execution/process.py:174-183 | the same output fails a run that succeeds in batch mode and is forgiven one by one |
| Collector.ForgedRun | execution/process.py:138-183 | a run that prints what any other course of the remaining test cases would print and then exits cannot be told from that course |
| Collector.ForgedValues | execution/process.py:174-183 | in particular forged values for test cases that never ran are returned as results |
| Collector.SingleEndToEnd | execution/process.py:127-135 | one test case, whatever is printed before and after the block and however the process ends: its value exactly with exit code 0, timeout or failure, unless a later block or a block before the process ends itself with 0 decides, and then exactly what that block says |
| Collector.ForgedValue | execution/process.py:127-135 | a submission that prints the block of any value and exits with 0 is judged by that value |
| Collector.LateBlock | execution/process.py:45-58 | a block printed after the wrapper's replaces the result |
| Collector.EndMarkerDecides | execution/process.py:45-58 | a returned value is seen if and only if its encoding does not mention the end marker |
| Collector.ReturningTheMarker | execution/process.py:24-25 | returning the end marker itself is a failure for every encoder that writes strings verbatim |
| Comparator.MatchIffPeeledMatch | execution/pipeline.py:65-109 | outputs match if and only if some numbers of one-element lists taken off each side leave a pair the rules on values and texts (next rows) relate |
| Comparator.NumbersMatch | execution/pipeline.py:39-57 | an integer or float matches a float if and only if they differ by at most 0.00001, or by at most that part of either; integers match only themselves |
| Comparator.BooleansMatch | execution/pipeline.py:48-57 | a boolean matches exactly the number 1 or 0 it stands for, without tolerance |
| Comparator.ScaleInvariant | execution/pipeline.py:42-43 | once a magnitude reaches one, whether two floats match does not depend on the unit |
| Comparator.NextToAMillion | execution/pipeline.py:42-43 | 1000000.0 matches 1000000.5 and not 1000011 |
| Comparator.TextRule | execution/pipeline.py:91-98 | values related by no other rule match if and only if they are written alike or float reads both as the same number |
| Comparator.NumericText | execution/pipeline.py:91-98 | a text matches an integer if and only if it is written like it or read by float as that number |
| Comparator.BoxesForgiven | execution/pipeline.py:101-107 | further one-element lists around either side never undo a match |
| Comparator.MatchIsSymmetric | execution/pipeline.py:65-109 | the comparator is symmetric on all values |
| Comparator.ValuesMatchSymmetric | execution/pipeline.py:46-62 | so is the structural comparison |
| Comparator.ShortcutIsRedundant | execution/pipeline.py:46-62 | testing deep equality first at every level never changes the answer: the comparison is the leafwise one, with the tolerance spelled out |
| Comparator.PyEqualTransitive | execution/pipeline.py:48-49 | deep equality across booleans, integers and floats is transitive |
| Comparator.TransitiveIffNumberFree | execution/pipeline.py:46-62 | the structural comparison is transitive through a value if and only if no integer or float occurs in it |
| Comparator.ToleranceIsNotTransitive | execution/pipeline.py:65-109 | three floats of which the whole comparator matches the neighbouring ones, and the outer two exactly if their texts match |
| Verdict.ExecuteSingle | execution/pipeline.py:296-326 | the one-by-one loop: accepted if and only if every run returned and its value matches, or it carries a mutated argument that matches and in_place is not False; else the first other test case is named with its timeout, error, or what is shown for it |
| Verdict.ExecuteBatch | execution/pipeline.py:262-295 | the same for the results of run_batch, with a wrong number of results and each exception; accepted if and only if there is one such result per test case |
| Verdict.CompareBatch | execution/pipeline.py:283-295 | the three batch passes report the first result that is not right, or show all outputs |
| Verdict.SingleTells | execution/pipeline.py:111-142 | which answers pass and what is shown for them, in terms of the in_place setting, the value and the mutated argument alone |
| Verdict.BatchPath | execution/pipeline.py:262-295 | given how the test cases go, the batch path reports the first failure, else the first mismatch |
| Verdict.ModesAgree | execution/pipeline.py:262-326 | both modes give the same verdict, index and outputs if and only if no mismatch precedes the first failing test case |
| Verdict.ModesDiffer | execution/pipeline.py:262-326 | otherwise one-by-one reports the earliest mismatch and batch the later failure |
| Verdict.AcceptedIffAllPass | execution/pipeline.py:322-326 | in either mode accepted means every output matches |
| Verdict.SeenIff | execution/process.py:127-135 | one-by-one mode sees what happened if and only if the submission's last block, where it decides, says so |
| Verdict.ShownOutputsTellTheTruth | execution/pipeline.py:138-142 | for results as wrappers send them and any in_place setting, accepted outputs match their expected outputs and a wrong answer's does not |
| Verdict.RunOneByOne | execution/process.py:127-135 | the outcomes one-by-one mode reads off the texts, which are the real ones if and only if each run is honest |
| Verdict.JudgeBothWays | execution/pipeline.py:209-326 | from printed text to verdict in both modes, whatever is printed and however the processes end: the verdict of what each mode sees; for honest submissions the verdict of what happened, and with the wrappers' exit codes agreement exactly as above, accepted exactly when all pass |
| Verdict.CrashingExit | execution/process.py:127-183 | a submission that crashes on its way out never passes: one by one the first test case fails, in batch mode an index past the last |
| Executor.TypeScriptExecutor.Cleanup | languages/ts.py:129-135 | gives back the held container once, and nothing on a second call |
| Executor.TypeScriptExecutor.Compile | languages/ts.py:46-119 | holds the container on success and when an error outside compilation is raised, semaphore timeouts included; each failing compilation has already given it back |
| Executor.TypeScriptExecutor.Execute | execution/pipeline.py:227-334 | on every path the container taken is given back exactly once, and the reply by what docker and the compiler answered: no slot or an error outside compilation is raised, a container that does not start is an environment error, a compiler timeout, exit code or missing output is a compilation error, else the verdict |
| SignatureLexer.StripComments | languages/c_signature.py:32-65 | the nested loops compute the one-character-at-a-time automaton's cleaned text |
| SignatureLexer.CleanCode | languages/c_signature.py:62-64 | a leading character that begins no comment and no literal is kept, and cleaning goes on after it |
| SignatureLexer.CleanLineComment | languages/c_signature.py:39-42 | a line comment is blanked up to the line break or the end, and cleaning starts afresh after it |
| SignatureLexer.CleanBlockComment | languages/c_signature.py:43-47 | a block comment is blanked up to its first closing or the end, line breaks kept, and cleaning starts afresh after it |
| SignatureLexer.CleanLiteral | languages/c_signature.py:48-61 | a string or character literal keeps its quotes, what is between them is blanked with backslash pairs as two spaces, closed or not, and cleaning starts afresh after it |
| SignatureLexer.PlainBody | languages/c_signature.py:52-58 | text without the quote and without backslashes is blanked as it stands |
| SignatureLexer.CleanKeepsPlaces | languages/c_signature.py:32-65 | same length, each character kept or blanked, line breaks kept except escaped ones in literals, no comment left |
| SignatureLexer.CleanIsIdempotent | languages/c_signature.py:32-65 | cleaning a cleaned text changes nothing |
| SignatureLexer.MatchingParen | languages/c_signature.py:86-95 | the first position where the depth returns to zero, or -1 if it never does |
| SignatureLexer.CleanDepth | languages/c_signature.py:127-139 | depth in the cleaned text is depth in the original counting only parentheses that stand in code |
| SignatureLexer.TrueMatchIsUnique | languages/c_signature.py:86-95 | an opening parenthesis has at most one true match |
| SignatureLexer.CutParams | languages/c_signature.py:127-143 | the parameter text cut from the original ends at the true match of its opening parenthesis, and nothing is cut exactly when there is none |
| SignatureLexer.LiteralHidesParentheses | languages/c_signature.py:127-143 | the true match is found behind a literal, whatever parentheses the literal holds |
| SignatureLexer.ParenthesisCharacter | languages/c_signature.py:48-61 | a concrete signature with a closing parenthesis as a character literal |
| ParameterSplit.SplitTopLevel | languages/c_signature.py:68-83 | the loop returns the stripped segments between top-level commas, the last one only if something is left of it |
| ParameterSplit.SegmentsJoin | languages/c_signature.py:68-83 | the segments with their commas are the text: nothing is lost |
| ParameterSplit.SplitAfterJoin | languages/c_signature.py:68-83 | parameters joined by commas are split into those parameters, whatever they hold inside the four kinds of brackets, nested or not |
| ParameterSplit.StrayClosing | languages/c_signature.py:73-74 | a closing bracket without an opening one changes nothing |
| ParameterSplit.SplitsAgree | languages/c_signature.py:143-148 | splitting the text as written agrees with splitting the cleaned text if and only if every comma is outside all brackets as written exactly when it stands in code outside all brackets of the code |
| ParameterSplit.SplitsAgreeOnCommas | languages/c_signature.py:143-148 | with brackets in code only: if and only if no comma of a comment or literal stands outside all brackets |
| ParameterSplit.CommaInComment | languages/c_signature.py:143-148 | a comma in a comment splits a parameter |
| ParameterSplit.BracketInComment | languages/c_signature.py:143-148 | a bracket in a comment joins two parameters |

## Left out

- Docker, files, temporary directories and image inspection: liveness and usability of a container are arbitrary booleans.
- Wall-clock budgets and output size limits: a timeout is an outcome of a test case, since the two modes use different budgets.
- Redis connection failures, key expiry and direct execution in the API: they break exactly-once accounting and add only I/O cases.
- The prewarm lock, and that the reaper's scan pattern also matches its key: reaper passes are over list keys.
- JSON text: printing and parsing are parameters, assumed inverse on result blocks, with objects starting with `{` and ending with `}` as in section 4 of RFC 8259.
- NaN, infinities and integers too large for a float among compared values; Python's `str` and `float` on texts are parameters.
- Error message texts, metrics, logging, tracing, cancellation of a request, and raw execution.
- Template filling, reflection and type conversion in the wrappers, and their handling of malformed payloads.
- The regular expressions of the signature parser.
- Tree and list values are integers; JSON scalars of other kinds pass through the Python codecs unchanged.
- GraphCodec.Serialize: leaves open the order in which vertices of equal value are written.
- JobQueue.ExactlyOneStage: assumes no worker dies between popping a job and posting its result, since the code then loses the job.
- JobQueue.FirstInFirstOut: a job is stamped when it is pushed, while the code reads the clock just before the push.
- Verdict.ExecuteSingle: takes the outcome of every test case as given, while the code runs a test case only after those before it passed.
- Executor.TypeScriptExecutor.Execute: a container that never started leaves its directory behind, as in the code; directories are not otherwise accounted for.
