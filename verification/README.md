# Verified model of the ROCm test framework's GPU scheduling core

This project models, in Dafny, the parts of the ROCm test framework whose correctness rests on state
that many steps share, and proves what those parts promise.

**GPU slots.** Every pytest-xdist worker process has its own in-memory set of available GPUs per node.
The workers share nothing but one OS file lock per (node, GPU) and a small registry of pending
multi-GPU requests. An acquisition takes a GPU in memory and then tries its file lock without waiting;
four acquisition algorithms (a scan that parks locked GPUs, an all-or-nothing grab, a pinned index, a
pinned index list) roll back in different ways. The model exists twice:

- `Allocator`, `NodePool`, `Acquisition` and `ManualAllocator` are the classes and loops of one worker,
  with exact postconditions (which GPU, from which node, what is left in memory and locks, and exactly
  when the operation fails).
- `SlotProtocol` is a transition system of any number of workers whose steps interleave freely, with
  crashes, lock probes and double releases. `Atomicity` proves all-or-nothing for every interleaving,
  and `ProtocolRefinement` shows that what the sequential passes promise is what a run of that system
  does, that acquisitions always end, and how a double release does harm; `ProtocolSteps` says which steps
  are possible when.

`Pending` and `Priority` model the registry and the yield rule it feeds; `LockFile` the name that
stands for a GPU.

**Remote output.** `PollFormat`, `Streaming`, `BoundedChunks` and `RemoteMkdir` model the
length-prefixed poll reply and its parser, line reassembly by file offset, the bounded tail buffer, and
the batching of quoted directory names into bounded commands.

**Pure transformations.** `PosixPath` and `WorkspaceLayout` model remote path mapping, `AbsolutePaths` where
each category puts absolute local paths, `Scheduler` the
two sorting policies and worker groups, `ChangeDetection` the mapping from changed files to test paths.
`Text` holds decimal numerals, whitespace splitting and line splitting as Python does them, `Orbits` the
repetition of a deterministic step, and `Base` the option and result types.

A file lock is an atomic try-lock that the kernel frees when its process dies. GPU indices are distinct
within a node. VRAM sizes and clock readings are real numbers. In the output modules one character
stands for one byte, and a capture file does not grow between the `wc` and the `tail` of one segment.
Time, the other processes, remote command results and file contents are parameters.

## Findings

Places where the code does something other than its comments or callers might expect, each backed by a
lemma or a method contract:

- A pinned single-GPU request registers the count 1 "so acquire_slot() callers yield"
  (framework/nodes/node_pool.py:823-826), but the yield test ignores counts up to 1
  (framework/nodes/pending_tracker.py:247-248): `Priority.PinnedIntentHasNoEffect`.
- The yield test and the grab are separate steps, so `n` callers can take the free count from `c + 1`
  down to `c + 1 - n` while a request for `c` waits; that bound is exact: `Priority.OvershootBounded`,
  `Priority.OvershootReached`.
- A registry query reads the clock before it takes the registry lock
  (framework/nodes/pending_tracker.py:164-165), so readings may arrive out of order; then the answer can
  miss a request that an earlier query already saw expired: `Pending.OutOfOrderQueryDiffers`, and
  exactly when: `Pending.OutOfOrderQueryOmitsOnlyExpired`.
- `_try_acquire_index_set` raises without rolling back when it reaches an index outside the pool, that
  is, exactly when all earlier indices could be taken: `NodePool.TryPin`; the list `[0, 7]` on a node
  with GPU 0 alone leaves GPU 0 taken and locked: `NodePool.LeakingPin`. The callers' membership check
  is what prevents it: `Acquisition.Pool.PinAttempt`. A pinned list that names an index twice can never
  be served: `NodePool.DuplicatesNeverPin`.
- Releasing a slot twice never breaks exclusion, but it puts a GPU on offer in memory while somebody may
  hold it: `ProtocolRefinement.DoubleReleaseHarms`. Memory stays in order throughout a run if and only
  if every second release concerned a GPU that was in memory anyway: `SlotProtocol.MemoryKeptExactlyWhen`.
- An empty node label means "any node" to the all-or-nothing pass and "the node labelled with the empty
  string" to the capacity precheck (framework/nodes/node_pool.py:499-500), and
  `Acquisition.Pool.PrecheckIsRightExactlyWhen` says when the two agree;
  `Acquisition.Pool.EmptyLabelIsRejected` gives the requests they disagree on.
- A workspace root of `.` defeats the managed-path test for every known category:
  `WorkspaceLayout.InsideExactlyWhen`. A category nobody registered is used as it is
  (framework/common/workspace_layout.py:23-25): `..` leads out of the workspace
  (`WorkspaceLayout.ParentCategoryEscapes`), and `WorkspaceLayout.ContainedExactlyWhen` says for every
  category whether all paths stay inside.
- The comment on pinned tests says that `[2,0]` and `[0,2]` get the same group name
  (framework/scheduling/dynamic_scheduler.py:270); the counter appended to every name makes all names
  distinct: `Scheduler.GroupsAreDistinct`.
- The check against pinned indices together with `hw.multi_gpu` looks for a marker named `multi_gpu`
  (framework/scheduling/dynamic_scheduler.py:252), while everything else reads `hw.multi_gpu`: a pinned
  list is refused if and only if it carries `multi_gpu`, and one with `hw.multi_gpu` is accepted:
  `Scheduler.PinnedConflictExactlyWhen`, `Scheduler.PinnedMultiGpuIsAccepted`.
- A negative length in a poll header moves the parser backwards. It then runs for ever if and only if two
  turns find the same mark (`PollFormat.LoopsExactlyWhen`), as with `@@a 0 -9` and a newline
  (`PollFormat.ShortLoop`); other negative lengths are passed over
  (`PollFormat.OneHeaderLoopsExactlyWhen`).
- For a changed file below `tests/e2e/<area>/src/` the rules promise the whole area
  (build_tools/github_actions/detect_changed_tests.py:19-22), but the directory listed is the file's own,
  which holds none of the area's tests: `ChangeDetection.ListedDirectoryIsArea`,
  `ChangeDetection.SourceChangeMissesTests`.
- Node labels that differ only in blanks, slashes and colons share lock files:
  `LockFile.SameFileExactlyWhen`, `LockFile.LabelsCanCollide`.

## Model

| member | source | states |
|---|---|---|
| `SlotProtocol.Exclusion` | framework/nodes/node_pool.py:574-629 | In every run of any number of workers, with crashes, probes and double releases in any order, a live slot owns its GPU's lock, and two live slots on one GPU are the same slot of the same worker |
| `SlotProtocol.NoPhantoms` | framework/nodes/node_pool.py:722-754 | In every run whose double releases are harmless, what a worker's memory lacks is exactly its slots plus what its acquisition under way holds; between acquisitions memory is the pool minus the slots, also while locks of returned slots are still held |
| `SlotProtocol.MemoryKeptExactlyWhen` | framework/nodes/node_pool.py:1015-1033 | In every run, memory is in order after every event if and only if every second release concerned a GPU that was in memory at that moment |
| `SlotProtocol.NoLeakedLocks` | framework/nodes/node_pool.py:1015-1033 | When no worker is acquiring, returning or probing, the held locks are exactly those of handed-out slots; crashed workers leave none |
| `SlotProtocol.StrayReturnExactlyHarmless` | framework/nodes/node_pool.py:1021-1025 | A second release of a slot keeps the memory invariant if and only if its GPU is in memory already |
| `SlotProtocol.LockInvStep` | framework/nodes/gpu_file_lock.py:98-170 | Every event of every worker keeps lock table and bookkeeping in step, both ways: believed locks are held under the worker's own lock objects, held locks are backed by a live worker |
| `SlotProtocol.MemInvStep` | framework/nodes/node_pool.py:585-626 | Every event keeps available, handed-out and in-flight GPUs a partition of the pool, including the second putting-back of parked GPUs |
| `SlotProtocol.RunKeepsLockInv` | framework/nodes/pending_tracker.py:208-220 | The lock invariant holds after every run, with lock probes interleaved anywhere |
| `SlotProtocol.RunKeepsMemory` | framework/nodes/node_pool.py:874-900 | The memory invariant holds for every worker after every run whose double releases are harmless |
| `ProtocolRefinement.ScanNodeIsProtocolRun` | framework/nodes/node_pool.py:574-629 | The outcome the one-node scan promises is the final state of a run of one worker's protocol steps from the same state |
| `ProtocolRefinement.GatherNodeIsProtocolRun` | framework/nodes/node_pool.py:711-757 | The same for the all-or-nothing grab, both when it wins and when it rolls back |
| `ProtocolRefinement.TryPinIsProtocolRun` | framework/nodes/node_pool.py:868-900 | The same for any pinned list, in its three outcomes: all slots, everything restored, or an index outside the pool raising with the earlier ones kept |
| `ProtocolRefinement.AcquisitionsEnd` | framework/nodes/node_pool.py:588-626 | However the acquiring thread proceeds, its acquisition is over within a number of steps known in advance from the candidates and the plan |
| `ProtocolRefinement.CanAlwaysFinish` | framework/nodes/node_pool.py:588-626 | Whatever locks other workers hold, a worker in the middle of an acquisition always has a next step of the code, and its own steps end the acquisition |
| `ProtocolSteps.OneWayOn` | framework/nodes/node_pool.py:720-757 | Between two grabs of an all-or-nothing or pinned acquisition exactly one of four things is possible: a further grab, the end, the raise, or giving up |
| `ProtocolSteps.ScanExhaustedExactlyWhen` | framework/nodes/node_pool.py:588-626 | A scan gives up on a node iff no eligible GPU is left in memory to take |
| `ProtocolSteps.CrashFreesItsLocks` | framework/nodes/gpu_file_lock.py:98-170 | A worker can die in every state; exactly its own locks go, and a worker started in its place has the whole pool |
| `ProtocolSteps.ReleaseIsProtocolRun` | framework/nodes/node_pool.py:1015-1033 | A release is possible in every state with the slot handed out: memory gains its GPU, its lock goes, and nothing else changes |
| `ProtocolSteps.ProbeIsProtocolRun` | framework/nodes/pending_tracker.py:208-220 | A probe gets a lock iff nobody holds it, and afterwards everything is as before |
| `ProtocolRefinement.DoubleReleaseHarms` | framework/nodes/node_pool.py:1021-1025 | A run that acquires, releases, re-acquires and releases the first slot again leaves a held GPU on offer in memory |
| `Atomicity.AllOrNothing` | framework/nodes/node_pool.py:707-757 | Under every interleaving with other workers and other threads, an acquisition ends with exactly the slots it was asked for, one per GPU, or with none and everything it took given back, or with a pinned index outside the pool having raised |
| `Atomicity.OwnedListIsAtomic` | framework/nodes/node_pool.py:868-900 | A pinned list of indices of the node never ends in the raising case; when it is served, its GPUs are exactly those listed and no index is repeated |
| `Allocator.GpuAllocator.Allocate` | framework/gpu/allocator.py:93-110 | Non-blocking allocation fails iff no available GPU is eligible; otherwise one GPU leaves the available set, with enough megabytes, and no GPU that was available with enough has a lower NUMA node, or the same and a lower index |
| `Allocator.EligibleIsRoom` | framework/gpu/allocator.py:93-98 | A GPU may serve a request iff none of its memory is asked for or its megabytes are at least 1024 times the gigabytes asked for and held back |
| `Allocator.GpuAllocator.AllocateSpecific` | framework/gpu/allocator.py:158-174 | Out of pool, taken, or taken out of the available set: which of the three, and that failure changes nothing |
| `Allocator.GpuAllocator.Release` | framework/gpu/allocator.py:185-198 | The index is available again and nothing else changes |
| `Allocator.RankedIsSorted` | framework/gpu/allocator.py:101-102 | The order of repeated allocation lists exactly the candidates, strictly increasing by (NUMA, index) |
| `NodePool.FileLocks.TryAcquire` | framework/nodes/gpu_file_lock.py:98-149 | A non-blocking lock attempt succeeds iff nobody, this process included, holds the lock |
| `NodePool.FileLocks.Release` | framework/nodes/gpu_file_lock.py:151-170 | Exactly the named lock is given up, and releasing a lock not held changes nothing |
| `NodePool.ParkUntilLocked` | framework/nodes/node_pool.py:588-621 | The inner scan loop terminates, wins the least lockable candidate iff there is one, and has parked only locked candidates |
| `NodePool.ScanNode` | framework/nodes/node_pool.py:585-629 | The scan of a node succeeds iff an eligible GPU has a free lock, returns the least such GPU, and changes memory and locks by it alone although parked GPUs are returned twice |
| `NodePool.GatherNode` | framework/nodes/node_pool.py:718-757 | All-or-nothing: succeeds iff the first count GPUs of the ranking exist and are all unlocked, returns exactly those, and otherwise restores memory and locks |
| `NodePool.NextGather` | framework/nodes/node_pool.py:720-741 | With the first i GPUs taken, the next grab works iff the whole ranking could serve i + 1 |
| `NodePool.RollBackRestores` | framework/nodes/node_pool.py:745-754 | Giving back what is held restores exactly the earlier memory and locks |
| `NodePool.TryPin` | framework/nodes/node_pool.py:868-900 | Pinned lists: success iff every index is in the pool, available, unlocked and not repeated, with all slots in order; raises iff an index outside the pool is reached, leaving exactly the earlier ones taken; otherwise everything is restored |
| `NodePool.LeaksAtLongest` | framework/nodes/node_pool.py:874-900 | Where the loop stops decides between success, raising and rolling back |
| `NodePool.LeakingPin` | framework/nodes/node_pool.py:874-879 | On a node with GPU 0 alone, the list [0, 7] raises and leaves GPU 0 out of memory and locked |
| `NodePool.DuplicatesNeverPin` | framework/nodes/node_pool.py:874-879 | A pinned list with a repeated index cannot be acquired in any state |
| `Acquisition.Pool.ScanPass` | framework/nodes/node_pool.py:574-629 | One pass over the nodes takes the least lockable GPU of the first node that has one, and fails, changing nothing, iff no node has one |
| `Acquisition.Pool.GatherPass` | framework/nodes/node_pool.py:707-757 | One pass takes the first count GPUs of the first target that can serve; every node tried and abandoned is exactly as before |
| `Acquisition.Pool.HasVramCapacity` | framework/nodes/node_pool.py:489-507 | True iff no memory is asked for or some allowed node has count eligible GPUs, used or not |
| `Acquisition.Pool.CapacityAgreesWithIdlePass` | framework/nodes/node_pool.py:679-684 | For the nodes a pass really tries, the precheck accepts a request iff an all-or-nothing pass over the idle fleet with free locks would serve it |
| `Acquisition.Pool.NoCapacityNeverServed` | framework/nodes/node_pool.py:679-684 | A request rejected for those nodes could not be served in any state of memory and locks |
| `Acquisition.Pool.PrecheckIsRightExactlyWhen` | framework/nodes/node_pool.py:499-500 | The precheck as it is asked agrees with the pass iff the label is not empty, or a node with an empty label would do, or no node would |
| `Acquisition.Pool.EmptyLabelIsRejected` | framework/nodes/node_pool.py:499-500 | In a fleet without a node named by the empty string, a request under the empty label that the fleet could serve is rejected although an idle pass would serve it |
| `Acquisition.Pool.YieldCheck` | framework/nodes/node_pool.py:560-571 | A round holds back iff on some node the largest live request is for at least 2 GPUs, not more than the node has, and not fewer than its GPUs with a free lock |
| `Acquisition.TrueAvailable` | framework/nodes/pending_tracker.py:208-220 | Probing takes and drops each free lock: it counts exactly the GPUs whose lock nobody holds and leaves the lock table as it was |
| `Acquisition.FreeLocksCounts` | framework/nodes/pending_tracker.py:208-220 | On a node with distinct indices that count is the number of indices whose lock nobody holds |
| `Acquisition.Pool.ScanRound` | framework/nodes/node_pool.py:553-629 | A round serves iff it does not yield and some node has an offer; it then takes the first offer, otherwise it changes nothing |
| `Acquisition.Pool.AcquireSlot` | framework/nodes/node_pool.py:551-644 | The wait loop ends within ceil(2 * timeout) + 1 rounds, returns in the first round that can serve with that round's first offer, times out only past the deadline, and on failure leaves memory and locks as found |
| `Acquisition.Pool.AcquireSlots` | framework/nodes/node_pool.py:679-776 | The same for count GPUs of one node, all or nothing; the node that serves is the first in the order of nodes that is meant by the label and can, and before that round no such node could |
| `Acquisition.RoundsBounded` | framework/nodes/node_pool.py:631-644 | With half a second per round, rounds that start before the deadline number at most ceil(2 * timeout) + 1 |
| `Acquisition.Pool.PinAttempt` | framework/nodes/node_pool.py:925-950 | Pinned lists on the first node that owns them all: every index in order, or nothing changed, and exactly when |
| `Acquisition.Pool.AcquirePinned` | framework/nodes/node_pool.py:829-866 | Both pinned wait loops: they serve in the first round that can, at the first node that owns the indices, and report that nobody owns them iff every node lacks one; they give up in the first round that looks at the clock past the deadline, leaving memory and locks as found; a dead holder makes the single-GPU variant skip the clock |
| `Acquisition.Pool.Release` | framework/nodes/node_pool.py:1015-1033 | Memory gains exactly the slots' GPUs on their nodes and the locks lose exactly the slots' keys |
| `Acquisition.Pool.ReleaseUndoesAcquire` | framework/nodes/node_pool.py:1021-1025 | Releasing what an acquisition took restores memory and locks of all nodes |
| `ManualAllocator.ManualGpuAllocator.Acquire` | framework/plugins/remote_node_plugin.py:1137-1179 | A GPU is handed out and remembered iff the wait at its first owner ends in a round that can serve it; nothing is lost either way |
| `ManualAllocator.ManualGpuAllocator.Release` | framework/plugins/remote_node_plugin.py:1181-1206 | Exactly the named group's entry goes; releasing a group twice, or an unknown one, changes nothing |
| `ManualAllocator.ManualGpuAllocator.Cleanup` | framework/plugins/remote_node_plugin.py:1236-1255 | After any acquires and releases, teardown restores memory and locks to what they were before the test and reports exactly what was still held |
| `ManualAllocator.Take` | framework/plugins/remote_node_plugin.py:1160-1177 | Taking a free slot keeps the account of memory, locks and held slots balanced |
| `ManualAllocator.Give` | framework/plugins/remote_node_plugin.py:1196-1206 | Giving a held slot back keeps it balanced |
| `LockFile.NameAsText` | framework/nodes/gpu_file_lock.py:75-82 | The file of a label without blanks, slashes and colons is the label, _gpu, the index and .lock |
| `LockFile.SafeLabelAt` | framework/nodes/gpu_file_lock.py:76-76 | In a label, blanks, slashes and colons become underscores and every other character stays |
| `LockFile.SameFileExactlyWhen` | framework/nodes/gpu_file_lock.py:75-82 | Two GPUs share a lock file iff their indices and their sanitised labels are equal |
| `LockFile.LabelsCanCollide` | framework/nodes/gpu_file_lock.py:76-76 | Labels that differ only in replaced characters do share one |
| `Pending.Tracker.Register` | framework/nodes/pending_tracker.py:101-128 | The registry file gains the entry |
| `Pending.Tracker.Deregister` | framework/nodes/pending_tracker.py:130-151 | The registry file loses the entry, and only it |
| `Pending.Tracker.MaxPendingCount` | framework/nodes/pending_tracker.py:153-179 | The answer is the maximum live count, 0 for none, and exactly the expired entries are pruned |
| `Pending.ReplayIsOutstandingUnpruned` | framework/nodes/pending_tracker.py:164-172 | After any history with any clock readings the file holds exactly the outstanding registrations that no later query saw expired |
| `Pending.PrunedAnswersAsFullHistory` | framework/nodes/pending_tracker.py:113-172 | With a monotone clock a query's live counts are those of all requests ever registered, not deregistered and not expired: pruning never changes an answer |
| `Pending.OutOfOrderQueryOmitsOnlyExpired` | framework/nodes/pending_tracker.py:164-172 | Without a monotone clock a live request is missing iff some later query had read a clock past its deadline |
| `Pending.OutOfOrderQueryDiffers` | framework/nodes/pending_tracker.py:164-166 | A history in which that happens |
| `Pending.ExpiredIntentHasNoEffect` | framework/nodes/pending_tracker.py:164-172 | Answers at time t are as if requests with deadline up to t had never been registered, whatever became of their owners |
| `Priority.MayGrabExactlyWhen` | framework/nodes/pending_tracker.py:246-265 | A single-GPU caller may go on iff no live request is for more than one GPU, or one exceeds the node, or more GPUs are free than any of them asks for |
| `Priority.ThresholdPreserved` | framework/nodes/pending_tracker.py:246-265 | While a request for c > 1 waits and all live requests fit the node, runs of atomic check-and-grab steps and releases never take the free count from c or more to below c |
| `Priority.GrabAtThreshold` | framework/nodes/pending_tracker.py:250-261 | At exactly c free GPUs a grab is allowed iff some live request exceeds the node's GPUs |
| `Priority.OvershootBounded` | framework/nodes/node_pool.py:565-574 | With check and grab as separate steps, n callers never take the free count below c + 1 - n |
| `Priority.OvershootReached` | framework/nodes/node_pool.py:565-574 | A run under the very conditions of that bound, with n callers that each check and then grab, ends at c + 1 - n |
| `Priority.PinnedIntentHasNoEffect` | framework/nodes/pending_tracker.py:246-248 | Registering a count of 1 never changes a yield decision |
| `PollFormat.ParseInvertsPrint` | framework/executors/ssh_executor.py:195-229 | Parsing printed segments yields exactly those segments, whatever their data contains, and the parser never gets stuck on them |
| `PollFormat.ParseReply` | framework/executors/ssh_executor.py:206-229 | The same with a banner in front that contains no mark |
| `PollFormat.Parse` | framework/executors/ssh_executor.py:206-229 | The loop's yielded segments when it ends, and exactly whether it ever does |
| `PollFormat.LoopsExactlyWhen` | framework/executors/ssh_executor.py:209-229 | For every reply and position, the loop runs for ever iff two of its turns find the same mark, and iff it has not ended after one turn more than the reply has characters |
| `PollFormat.ReturnsToOwnMarkExactlyWhen` | framework/executors/ssh_executor.py:211-229 | A single turn comes back to its own mark iff the next position lies at or before it with no mark in between; only a negative length does that |
| `PollFormat.OneHeaderLoopsExactlyWhen` | framework/executors/ssh_executor.py:218-229 | A reply of one header loops iff its length field points back to the start of the reply; every other length is passed over |
| `PollFormat.ShortLoop` | framework/executors/ssh_executor.py:222-229 | The reply @@a 0 -9 with a newline loops for ever |
| `PollFormat.UnreadableLineIsSkipped` | framework/executors/ssh_executor.py:211-226 | When the line at the next mark is no header, the loop goes on after that line as if it started there |
| `PollFormat.NoiseIsSkipped` | framework/executors/ssh_executor.py:211-226 | A first line that holds a mark but no header does not disturb the segments after it |
| `PollFormat.HeaderExactly` | framework/executors/ssh_executor.py:218-226 | A header is three words of which the second and third read as integers, and those are its fields |
| `PollFormat.NegativeLength` | framework/executors/ssh_executor.py:227-229 | A negative length moves the next position back by as much, and the data is empty unless that position is before the reply, where it counts back from the end |
| `Text.ParseStr` | framework/executors/ssh_executor.py:222-223 | Reading a printed integer gives the integer |
| `Text.ParsesExactlyWhen` | framework/executors/ssh_executor.py:222-226 | int accepts digits with single underscores between them, behind at most one sign, and nothing else |
| `Text.SignsExactly` | framework/executors/ssh_executor.py:222-223 | A plus sign changes nothing, a minus sign negates |
| `Text.UnderscoreIsIgnored` | framework/executors/ssh_executor.py:222-223 | An underscore between two numerals does not change the value |
| `Text.SpacesExactly` | framework/executors/ssh_executor.py:217-217 | The one-byte characters that separate words |
| `Text.SplitLinesConcat` | framework/executors/ssh_executor.py:359-366 | Splitting a text may stop anywhere: the last part is carried over into the rest |
| `Streaming.Handle.Feed` | framework/executors/ssh_executor.py:355-368 | New data of one stream becomes complete lines and a remainder; the other stream is untouched |
| `Streaming.Handle.FlushPartial` | framework/executors/ssh_executor.py:370-377 | Non-empty remainders become last lines |
| `Streaming.FeedIsExact` | framework/executors/ssh_executor.py:355-368 | Emitted lines plus remainder stay an exact split of everything fed |
| `Streaming.StreamingIsExact` | framework/executors/ssh_executor.py:231-252 | For every growing file and every sequence of polls, what was consumed is the last snapshot, and lines plus remainder are that text split at newlines |
| `Streaming.ConsumedIsWhole` | framework/executors/ssh_executor.py:231-252 | Lines and remainder joined give back the file, and the remainder is empty iff the file is empty or ends with a newline |
| `Streaming.FlushEmitsWholeFile` | framework/executors/ssh_executor.py:370-377 | After the final flush nothing is held back and the emitted lines, each with its newline, are the whole file, plus the newline its last line may lack |
| `Streaming.LinesAreDetermined` | framework/executors/ssh_executor.py:355-377 | Only one list of lines writes a given text |
| `Streaming.PollOnce` | framework/executors/ssh_executor.py:231-252 | One reply brings both streams of every handle up to their files; a failed exchange changes nothing |
| `BoundedChunks.Buffer.Append` | framework/executors/background_process.py:179-185 | After every append the kept chunks are the right cut of the whole history |
| `BoundedChunks.ValidIsRightCut` | framework/executors/background_process.py:173-185 | The total is the exact length of the kept chunks and truncated holds iff something was dropped |
| `BoundedChunks.RightCutIsLongestFit` | framework/executors/background_process.py:159-185 | The right cut is the longest suffix of whole chunks within the cap, or the last chunk alone if even that exceeds it |
| `BoundedChunks.RightCutUnique` | framework/executors/background_process.py:179-185 | There is only one right cut of a history |
| `RemoteMkdir.MkdirRemoteDirs` | framework/executors/ssh_executor.py:687-715 | The commands sent are those of the plan, up to and including the first that fails; on success a shell reading them is asked for exactly the given directories, in order |
| `RemoteMkdir.SentExactly` | framework/executors/ssh_executor.py:696-715 | Commands go out in the order of the plan; either all succeed and all are sent, or the last one sent is the first that fails |
| `RemoteMkdir.PlanAsks` | framework/executors/ssh_executor.py:692-710 | The commands of a plan ask a shell for every directory, in order, whatever characters the names contain |
| `RemoteMkdir.PlanIsComplete` | framework/executors/ssh_executor.py:692-710 | Every quoted name is in exactly one batch, in order |
| `RemoteMkdir.PlanFits` | framework/executors/ssh_executor.py:696-697 | No command is empty, and only a single overlong name makes a command exceed 24000 characters |
| `RemoteMkdir.PlanIsGreedy` | framework/executors/ssh_executor.py:696-697 | No batch could have taken the next batch's first name as well |
| `RemoteMkdir.SizeIsExact` | framework/executors/ssh_executor.py:693-706 | The running counter is the exact length of the command |
| `RemoteMkdir.CommandReadsBack` | framework/executors/ssh_executor.py:695-698 | A shell reads the command as its two leading words and exactly the directory names, whatever characters they contain |
| `RemoteMkdir.CommandAsks` | framework/executors/ssh_executor.py:697-698 | A command starts with the text "mkdir -p ", a shell reads mkdir and -p as its first two words, and it asks for exactly the directories of the batch |
| `RemoteMkdir.QuoteOnlyWhereNeeded` | framework/executors/ssh_executor.py:695-695 | A name is sent unquoted iff it is not empty and consists of harmless characters |
| `RemoteMkdir.SafeExactlyWhen` | framework/executors/ssh_executor.py:695-695 | Harmless are the printable characters that mean nothing to a shell, except the caret |
| `PosixPath.SlashesExactly` | framework/common/workspace_layout.py:30-30 | Of leading slashes, none, one or exactly two are kept as they are; three or more count as one |
| `PosixPath.UpExactly` | framework/common/workspace_layout.py:30-30 | Resolving ".." takes back a name, stays at the root, and is kept at the start of a relative path |
| `PosixPath.NormPathIsIdempotent` | framework/common/workspace_layout.py:30-30 | Normalised text reads back as the resolved path, so normalising twice is normalising once |
| `PosixPath.JoinPathIsAppend` | framework/common/workspace_layout.py:71-71 | Joining a relative part appends its components and keeps the root |
| `WorkspaceLayout.ManagedExactlyWhen` | framework/common/workspace_layout.py:28-32 | For every normalised root, what the textual prefix test means for the path's resolved components |
| `WorkspaceLayout.TrimGoesDown` | framework/common/workspace_layout.py:127-144 | Whatever the path, what is appended below a category root has no "..", no empty part and no leading slash |
| `WorkspaceLayout.LandsBelow` | framework/common/workspace_layout.py:66-71 | A path not yet managed lands at workspace / category root / something that only goes down |
| `WorkspaceLayout.ContainedExactlyWhen` | framework/common/workspace_layout.py:23-71 | For any normalised root and any category, registered or not, every path maps into the workspace iff the root is not "." and the category's own directory lies in the workspace |
| `WorkspaceLayout.StaysInside` | framework/common/workspace_layout.py:53-71 | For a normalised root other than "." and any category root that is relative and does not climb, every path maps into the workspace |
| `WorkspaceLayout.MappingAgainNormalises` | framework/common/workspace_layout.py:66-68 | For every category whose directory lies in the workspace, mapping a mapped path again, under any category, only normalises it, and a third time changes nothing |
| `WorkspaceLayout.InsideExactlyWhen` | framework/common/workspace_layout.py:13-32 | For known categories and a normalised root, the result is managed iff the root is not "." or the path itself normalises to "." |
| `WorkspaceLayout.ManagedIsNormalised` | framework/common/workspace_layout.py:66-68 | A path already in the workspace is only normalised, whatever the category |
| `WorkspaceLayout.RootedCategoryIgnoresRoot` | framework/common/workspace_layout.py:23-71 | A category that is an absolute path sends an ordinary path there, whatever the root |
| `WorkspaceLayout.ParentCategoryEscapes` | framework/common/workspace_layout.py:23-25 | The category ".." maps a path out of a workspace at /c |
| `WorkspaceLayout.DetourStaysInside` | framework/common/workspace_layout.py:23-25 | The category "a/.." is not plain and still keeps every path inside |
| `WorkspaceLayout.OutputPrefixIsNotRepeated` | framework/common/workspace_layout.py:127-144 | A relative output/x maps to output/x below the workspace, not output/output/x |
| `AbsolutePaths.OutputKeepsItsPlace` | framework/common/workspace_layout.py:117-118 | Every absolute local path that is not managed keeps what follows its first /output/, colons replaced, at the same place below the remote output directory |
| `AbsolutePaths.NestedKeepsItsPlace` | framework/common/workspace_layout.py:119-123 | For logs and generated, what follows the first /output/logs/ or /output/generated/ stands at the same place below that remote directory |
| `AbsolutePaths.ExternalKeepsItsPlace` | framework/common/workspace_layout.py:113-116 | For external, what follows the first of the three markers found stands below the remote external directory, less leading dots and one further category prefix |
| `AbsolutePaths.ExternalRemainderIsKept` | framework/common/workspace_layout.py:113-144 | Without such dots and prefix it stands there as it is |
| `AbsolutePaths.UnmarkedKeepsItsText` | framework/common/workspace_layout.py:110-144 | An absolute path without its category's marker keeps its whole normal text, colons replaced, below the category root, less leading slashes and dots and one category prefix |
| `AbsolutePaths.AfterFirstAt` | framework/common/workspace_layout.py:115-118 | The cut is at the first occurrence of the marker, wherever that is |
| `AbsolutePaths.CategoryRoots` | framework/common/workspace_layout.py:13-25 | work and output share the root output; logs and generated lie below it; every other category is its own root |
| `AbsolutePaths.CategoryPrefixes` | framework/common/workspace_layout.py:133-140 | The prefixes each category root cuts off, in the order in which they are tried |
| `Scheduler.PinnedConflictExactlyWhen` | framework/scheduling/dynamic_scheduler.py:245-269 | A well-formed pinned list without gpu_count is refused iff it carries the marker multi_gpu; hw.multi_gpu makes no difference |
| `Scheduler.PinnedMultiGpuIsAccepted` | framework/scheduling/dynamic_scheduler.py:252-252 | A test pinned to GPU 0 and marked hw.multi_gpu is accepted and grouped as pinned |
| `Scheduler.CheckExactlyWhen` | framework/scheduling/dynamic_scheduler.py:245-269 | For every combination of markers, which misuse is reported, the first that applies |
| `Scheduler.NeedInMarkers` | framework/scheduling/dynamic_scheduler.py:62-97 | How many GPUs a test is taken to need, read off its markers: its pinned indices if it has any, else its gpu_count above 1, a million for all, 2 for hw.multi_gpu, else 0 |
| `Scheduler.PoliciesOrderByNeed` | framework/scheduling/dynamic_scheduler.py:100-145 | Under resource-most multinode tests come first and then needs never rise; under resource-least needs never fall and multinode tests come last |
| `Scheduler.KeysAreOpposite` | framework/scheduling/dynamic_scheduler.py:100-145 | The two sort keys order any two tests in opposite ways |
| `Scheduler.StableSortIsStable` | framework/scheduling/dynamic_scheduler.py:196-197 | The sort is a permutation in key order that keeps the order of tests with equal keys |
| `Scheduler.SortedIsUnique` | framework/scheduling/dynamic_scheduler.py:196-197 | Those properties determine the schedule |
| `Scheduler.PoliciesAreDual` | framework/scheduling/dynamic_scheduler.py:100-197 | The least-first schedule of any list is the reverse of the most-first schedule of the reversed list |
| `Scheduler.SortIntsSorts` | framework/scheduling/dynamic_scheduler.py:270-272 | Pinned indices are written in rising order, each as often as it was listed |
| `Scheduler.OrderIsForgotten` | framework/scheduling/dynamic_scheduler.py:270-271 | The order in which a list pins its indices does not show in the group name before the counter |
| `Scheduler.UnderscoredExactly` | framework/scheduling/dynamic_scheduler.py:271-271 | Indices are written one after the other with an underscore between |
| `Scheduler.GroupNames` | framework/scheduling/dynamic_scheduler.py:270-290 | The group names as text: gpu_indices_, multinode_ or multi_gpu_ with what the test asks for and the number of earlier tests of its kind; a test that needs no more than one GPU keeps what it has |
| `Scheduler.GroupsAreDistinct` | framework/scheduling/dynamic_scheduler.py:236-290 | No two tests of any list get the same group name, across all three naming schemes |
| `Scheduler.AssignedGroupsAreDistinct` | framework/scheduling/dynamic_scheduler.py:221-290 | After annotation every multi-resource test has a group and no two share one |
| `Scheduler.Collection.AssignGroups` | framework/scheduling/dynamic_scheduler.py:236-290 | Each test gets its stem and the number of earlier tests of its kind; the first misused marker stops the pass with the earlier tests annotated |
| `Scheduler.Collection.Schedule` | framework/scheduling/dynamic_scheduler.py:182-197 | The list becomes the stable sort of the annotated list, heaviest tests first under resource-most and lightest first under resource-least; a misuse leaves the order alone |
| `ChangeDetection.DetectImpactedPaths` | build_tools/github_actions/detect_changed_tests.py:281-320 | The result is the sorted list of an answer that depends only on the set of changed files: all areas if some file demands it, otherwise the reduced impacted paths |
| `ChangeDetection.DemandsExactlyWhen` | build_tools/github_actions/detect_changed_tests.py:214-240 | A file demands the full suite iff it is core framework code, a conftest of the first three levels, or shared test code other than the CMake helper |
| `ChangeDetection.E2eFileExactly` | build_tools/github_actions/detect_changed_tests.py:161-183 | A changed tests/e2e/<dirs>/<name>: a test_*.py file asks for itself, a helper, source or build file for its directory, any other file for nothing |
| `ChangeDetection.CommonFileExactly` | build_tools/github_actions/detect_changed_tests.py:231-237 | A changed file of tests/common asks for the full suite, except _cmake_build.py, which asks for the seven CMake areas |
| `ChangeDetection.FrameworkFileExactly` | build_tools/github_actions/detect_changed_tests.py:219-225 | A changed file of framework asks for the full suite iff it lies in one of the five core directories |
| `ChangeDetection.OtherFileExactly` | build_tools/github_actions/detect_changed_tests.py:189-247 | Every other relative path asks for nothing, except conftest.py at the three upper levels, which asks for the full suite |
| `ChangeDetection.AbsolutePathAsksNothing` | build_tools/github_actions/detect_changed_tests.py:214-241 | An absolute path asks for nothing |
| `ChangeDetection.StripExactly` | build_tools/github_actions/detect_changed_tests.py:214-214 | Blanks are taken off both ends of a line, and nothing else |
| `ChangeDetection.DeduplicatedIsReduction` | build_tools/github_actions/detect_changed_tests.py:273-278 | The reduced set covers every impacted path, adds none, keeps the directories and lists no file under a listed directory |
| `ChangeDetection.ReductionIsUnique` | build_tools/github_actions/detect_changed_tests.py:273-278 | It is the only set that does |
| `ChangeDetection.ImpactContainsFile` | build_tools/github_actions/detect_changed_tests.py:161-183 | What a changed file of an area contributes is the file itself or a directory that contains it |
| `ChangeDetection.ListedDirectoryIsArea` | build_tools/github_actions/detect_changed_tests.py:128-145 | The directory listed for a file below an area is the area's iff the file lies directly in it |
| `ChangeDetection.SourceChangeMissesTests` | build_tools/github_actions/detect_changed_tests.py:156-183 | The directory listed for a file in an area's src holds none of the area's test files |
| `ChangeDetection.ChangedFileIsRun` | build_tools/github_actions/detect_changed_tests.py:203-278 | Unless the full suite runs, every changed file with impact is run, alone or with a directory containing it |
| `ChangeDetection.ChangedTestIsRun` | build_tools/github_actions/detect_changed_tests.py:161-278 | Unless the full suite runs, a changed tests/e2e/<dirs>/test_*.py, helper or source is run whatever else changed, alone or with a directory containing it |
| `ChangeDetection.FrameworkChangeRuns` | build_tools/github_actions/detect_changed_tests.py:250-320 | Unless the full suite runs, a change of other framework code runs every smoke test, except where the taxonomy is all that changed there and it brought new areas; new areas of the taxonomy are run |
| `ChangeDetection.LexLessExactly` | build_tools/github_actions/detect_changed_tests.py:278-278 | The order of the list: a proper prefix comes first, otherwise the first differing character decides |
| `ChangeDetection.ListIsUnique` | build_tools/github_actions/detect_changed_tests.py:278-278 | A set of paths has only one strictly sorted list, so the result is determined |
| `ChangeDetection.ResolveFrameworkImpacted` | build_tools/github_actions/detect_changed_tests.py:250-270 | The smoke run happens unless there is no such file or the taxonomy is the only one and brought new areas |

## Left out

- The blocking form of `GpuAllocator.allocate` and `allocate_specific`: the pool only uses the non-blocking one.
- `acquire_multi_node`: it does not give back earlier nodes when a later one fails, so there is no all-or-nothing law to state.
- Acquisition.Pool.AcquirePinned: gives no bound on the number of rounds, because a dead holder makes `acquire_specific_slot` retry without looking at the deadline and a release wakes the waiter early; it assumes some round that looks at the clock past the deadline.
- Acquisition.Pool.AcquireSlot: between rounds, slots that other threads of the same worker return are not added to its memory; `Atomicity` has them return at any time.
- Acquisition.Pool.AcquireSlots: as for `AcquireSlot`, and does not include the registration and deregistration calls around the loop; their effect on other callers is in `Pending` and `Priority`.
- NodePool.FileLocks.Release: frees by GPU where the source frees by lock object; they differ only for a second release after a re-acquisition, which `SlotProtocol` models by object.
- Acquisition.Pool.Release: the same, for slots released twice.
- The `.info` sidecar files and `holder_is_alive`: best-effort metadata that is not synchronised with the lock.
- Failing registry I/O: a registration that could not be written is as if it had not been made, and a query that fails answers 0.
- Several threads of one worker inside acquisitions at once: the pool mutex admits one; returning and probing threads are unrestricted.
- PollFormat.ParseInvertsPrint: does not model decoding of multi-byte characters, where lengths are counted in bytes and sliced in characters.
- The order in which lines of different streams reach the log: only each stream's own lines are modelled.
- Liveness of the poller thread: its stop flag is set outside the lock, so continued polling is not guaranteed by the code.
- Scheduler.StableSortIsStable: takes `gpu_count` arguments as already parsed; arguments that do not parse raise before anything is scheduled.
- Parsing the taxonomy diff and finding the smoke files: regular expressions and file system access; their results are parameters.
- `sftp_stage_path` and the local path helpers of the workspace layout: they resolve against the local file system.
- GPU detection, SSH connections, build executors, session cleanup, reporting and configuration: external tools and plumbing.
- The fingerprint build cache: its correctness depends on failed builds and hash collisions outside the model.
