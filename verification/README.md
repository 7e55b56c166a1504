# Babuza in Dafny

Babuza wraps etcd's raft library into a replicated state machine with client sessions, snapshots,
linearizable reads and a store that carries many raft groups. This project models the state machines around
raft and proves what they promise, over every interleaving of their steps, every log and every crash.

| file | what it models |
|---|---|
| `Scheduler.dfy` | the multi-raft scheduler: shards, workers, coalesced states and ticks |
| `SwapQueue.dfy` | the double-buffered request queue of a replica |
| `MessagePath.dfy` | scheduler and request queues together: from an accepted message to its handling |
| `BlockingQueue.dfy`, `JobQueue.dfy` | the blocking queue with its hand-off, and the sharded job queue on top of it |
| `LinearizableRead.dfy` | batched linearizable reads: callers, the read loop, raft's answers and the applier |
| `Sessions.dfy`, `SessionManagers.dfy` | client sessions as values, and the two session managers as objects |
| `ExactlyOnce.dfy` | the apply pipeline with deduplication |
| `SessionSnapshot.dfy`, `SnapshotTransparency.dfy` | the byte format of saved sessions, and why a restore changes no decision |
| `PeerManager.dfy` | reference-counted transport peers |
| `SnapshotTransfer.dfy` | chunked transfer of snapshot files |
| `Membership.dfy`, `Recovery.dfy` | configuration changes, and recovery as a standalone node |
| `Restart.dfy` | applying entries, the snapshot trigger, crash and restart |
| `Common.dfy` | an option type, sums and distinctness |

Concurrent code is a function `Next` over the steps between two shared accesses and a function `Run` over any
list of steps; the theorems are about all lists. Code that updates an object is a class whose methods are
specified by the same functions.

Inputs that come from outside are parameters: clock readings, map iteration orders, the state machine's apply
function, the response serializer, the checksum functions, the answers of raft and the order in which it hands
out committed entries.

## What the proofs found

Where a promise does not hold as stated, the model keeps the code's behaviour, gives a run or an input that
breaks the promise, and proves the exact condition under which it holds.

- The scheduler never works on group id 0 (`raft/experimental/scheuler.go:146`): state enqueued for it is still
  there at rest (`Scheduler.ZeroIsStranded`), and all other groups drain (`Scheduler.DrainsEmptyIff`). The store
  does not let this happen: it refuses a configuration without a group id
  (`raft/experimental/config.go:211`), so no replica has that id.
- The read loop reuses one context buffer. Reads are fresh exactly if raft compares contexts by value
  (`LinearizableRead.FreshIffContextsAreValues`, `LinearizableRead.StaleRead`). A nudge of a reader is never lost
  exactly if the channel has a slot (`LinearizableRead.NudgedIffSlot`, `LinearizableRead.LostNudge`); the single-raft channel has none. The
  recorded applied index may fall while a disk state machine replays, so freshness is stated of what the machine
  holds (`Restart.HeldRises`).
- A command is executed twice exactly on a retry below a bound that the client has acknowledged before
  (`ExactlyOnce.TwiceIffStaleRetry`, `ExactlyOnce.ExecutedTwice`). A state machine that returns the empty result for
  a command after the first entry of the log makes the node panic on a retry, and only such a one does (`ExactlyOnce.NeverPanicsIff`,
  `ExactlyOnce.EmptyResultPanics`).
- A cached error with an empty text, or one too long for the buffer pool, makes the restore panic
  (`SessionSnapshot.ResultRoundTrip`, `SessionSnapshot.EmptyErrorPanics`).
- An empty file of a snapshot sends no chunk, so a snapshot that lists one is refused after its transfer. The
  session and cluster files have headers; a state-machine file that the application creates uncompressed and
  does not write to is empty (`SnapshotTransfer.CommitsIffNoEmptyFile`, `SnapshotTransfer.EmptyFileIsRefused`).
- Adding a peer with id 0 makes it a member of the store and not of raft (`Membership.AlwaysAgreesIff`,
  `Membership.RunAgreesIff`, `Membership.NoneIsAdded`). An update may make a voter a learner in the store alone
  (`Membership.StepRolesIff`, `Membership.UpdateSplitsRoles`), and is not checked for an address in use
  (`Membership.StepAddressesIff`, `Membership.UpdateTakesAddress`). A restarted node lists itself in its transport,
  and keeps doing so (`Membership.StartDirectory`, `Membership.RunKeepsDirectory`).
- Recovery as a standalone node leaves other members, or makes raft panic, unless the local peer is or can
  become a voter and every other member is listed (`Recovery.StandaloneIff`); learners that only the snapshot
  lists are not (`Recovery.LearnerIsLeft`), and a removed peer cannot (`Recovery.RemovedCannotRecover`).
- A disk state machine that has been opened ahead of its last snapshot can label a snapshot too low while it
  replays, after which a rebuilt machine applies a command twice (`Restart.RunSoundIff`, `Restart.AppliesTwice`);
  a snapshot asked for before its first batch makes the trigger's subtraction wrap (`Restart.RunBehindhandIff`,
  `Restart.Wraps`).
- A snapshot that a caller asks for brings a memory machine's node down exactly if no entry was applied since the
  last one (`Restart.ManualPanicsIff`, `Restart.SecondSnapshotPanics`).

## Model

| member | source | states |
|---|---|---|
| Scheduler.NextKeepsInv | raft/experimental/scheuler.go:103-194 | every step of an enqueuer or worker keeps: one owner per claimed group, ticks flagged and bounded, every pending group watched |
| Scheduler.RunKeepsInv | raft/experimental/scheuler.go:103-194 | the same over every interleaving |
| Scheduler.WorkKeepsExclusive | raft/experimental/scheuler.go:149-183 | a worker's step keeps the in-processing set equal to the groups owned, each by one worker |
| Scheduler.WorkKeepsWatched | raft/experimental/scheuler.go:141-192 | a worker's step, drops included, leaves every pending group queued, about to be queued or held |
| Scheduler.NoLostWakeup | raft/experimental/scheuler.go:103-194 | in every reachable state a group with an entry is queued, about to be put, or held by a worker that has not finished its re-check |
| Scheduler.OneWorkerPerGroup | raft/experimental/scheuler.go:149-183 | in every reachable state no two workers process the same group |
| Scheduler.DrainLowersMeasure | raft/experimental/scheuler.go:137-194 | without new states every worker step lowers a natural-number measure, although a group may be queued several times |
| Scheduler.DrainIsBounded | raft/experimental/scheuler.go:137-194 | so every interleaving of worker steps is no longer than that measure |
| Scheduler.RestIsEmpty | raft/experimental/scheuler.go:137-194 | a shard that cannot step has an empty queue, no claims, idle workers and no entry except possibly that of group 0 |
| Scheduler.ZeroEntryIff | raft/experimental/scheuler.go:146-148 | group 0 has an entry exactly if its state was enqueued at some time |
| Scheduler.DrainsEmptyIff | raft/experimental/scheuler.go:137-194 | at rest the queue is empty, and the state map is empty exactly if group 0 was never enqueued |
| Scheduler.ZeroIsStranded | raft/experimental/scheuler.go:146-148 | state enqueued for group 0 is still there when the shard has come to rest |
| Scheduler.NextConservesTicks | raft/experimental/scheuler.go:114-121 | each step balances ticks enqueued, delivered, dropped by saturation and owed |
| Scheduler.TickConservation | raft/experimental/scheuler.go:114-188 | over every run, ticks enqueued equal ticks delivered, plus claimed and pending, plus dropped by saturation |
| Scheduler.TicksSettle | raft/experimental/scheuler.go:153-188 | no claim carries more than the maximum of ticks; at rest all ticks were delivered or dropped by saturation |
| Scheduler.CallsAre | raft/experimental/scheuler.go:159-182 | the processing steps of one claim call exactly the request queues whose bits are set, in their order, every claimed tick, and then raft's output once if any bit was set |
| Scheduler.EveryBitIsCalled | raft/experimental/scheuler.go:103-194 | over every interleaving, each bit enqueued for a group other than 0 is answered by a callback of that group after the enqueue, once the shard is at rest |
| Scheduler.Sharder.constructor | raft/experimental/scheuler.go:81-84 | an empty shard is the initial state of the step system |
| Scheduler.Sharder.EnqueueState | raft/experimental/scheuler.go:103-128 | the map gets the new bits and the tick, saturated, unless all bits were pending; the group is put exactly if it had no queue bit; which is the map step followed by the put step |
| Scheduler.Sharder.GetOne | raft/experimental/scheuler.go:141-148 | taking a group from the queue is the worker's first step |
| Scheduler.Sharder.LoadOrStore | raft/experimental/scheuler.go:149-152 | claiming a group is the second, and fails exactly if it is claimed |
| Scheduler.Sharder.TakeState | raft/experimental/scheuler.go:153-158 | the claim gets the whole entry and leaves the bare queue bit; the worker's third step |
| Scheduler.Sharder.ProcessRequests | raft/experimental/scheuler.go:159-172 | the callbacks made for the request bits are those of the processing steps, and the rest is left to them |
| Scheduler.Sharder.ProcessClaim | raft/experimental/scheuler.go:159-182 | the body of the worker over one claim makes the callbacks of the processing steps |
| Scheduler.Sharder.Process | raft/experimental/scheuler.go:159-182 | the callbacks of one claim, written out: proposals, configuration changes, messages by their bits, as many ticks as claimed, and raft's output at the end if there was any bit; which are those of the processing steps |
| Scheduler.Sharder.Delete | raft/experimental/scheuler.go:183-183 | giving up the claim is the worker's next step |
| Scheduler.Sharder.Recheck | raft/experimental/scheuler.go:184-190 | the re-check deletes the entry or decides to queue the group again, as its step does |
| Scheduler.Sharder.PutBack | raft/experimental/scheuler.go:191-191 | queueing again is the last step |
| SwapQueue.Fifo | pkg/utility/queue/swap_queue.go:92-152 | over every run of operations, what was pending and accepted equals what was handed out, in order, followed by what is pending |
| SwapQueue.TakesItsSize | pkg/utility/queue/swap_queue.go:92-107 | any elements are taken, in order, up to the size of the queue, and the next one is refused as too many |
| SwapQueue.BufferSlice.constructor | pkg/utility/queue/swap_queue.go:43-47 | a slice is the prefix of its buffer and is not released |
| SwapQueue.SwapBufferQueue.constructor | pkg/utility/queue/swap_queue.go:62-72 | a new queue is empty |
| SwapQueue.SwapBufferQueue.Put | pkg/utility/queue/swap_queue.go:92-107 | accepts exactly if not stopped and below the size, full exactly at the size; the element is appended, and a batch that is handed out is not touched; refines the box's put |
| SwapQueue.SwapBufferQueue.Get | pkg/utility/queue/swap_queue.go:109-152 | the four outcomes by stopped, loan and fill; a batch is everything pending, in a buffer of its own, and leaves the queue empty; refines the box's get |
| SwapQueue.SwapBufferQueue.Release | pkg/utility/queue/swap_queue.go:49-60 | ends the loan once; a second release, or one of a slice without data, changes nothing |
| SwapQueue.SwapBufferQueue.Dispose | pkg/utility/queue/swap_queue.go:74-78 | stops the queue and keeps its contents |
| MessagePath.SendKeepsLocal | raft/experimental/store_api.go:565-576 | a put followed by its notification owed keeps every message accounted for |
| MessagePath.DrainKeepsLocal | raft/experimental/replica_raft_processor.go:120-200 | each step of a drain (length, get, handle, release) keeps it |
| MessagePath.ShardKeepsLocal | raft/experimental/scheuler.go:149-192 | each scheduler step keeps it |
| MessagePath.RunKeepsInv | raft/experimental/store_api.go:551-576 | the joint invariant holds over every interleaving of senders, enqueuers, workers and drains |
| MessagePath.OnlyOneBatch | raft/experimental/replica_raft_processor.go:120-141 | a worker about to take a batch finds no batch of that queue handed out |
| MessagePath.BufferNeverInUse | raft/experimental/replica_raft_processor.go:120-141 | in every reachable state the drain's get returns a batch or nothing, never the buffer-in-use error |
| MessagePath.HandledInOrder | raft/experimental/replica_raft_processor.go:120-200 | handled messages are a prefix of those accepted, each once, in put order; a message not yet taken is covered by a pending or claimed bit, or its sender has not notified yet |
| MessagePath.NothingStranded | raft/experimental/store_api.go:565-576 | when nothing can step, every accepted message of every group other than 0 has been handled |
| MessagePath.StepsLowerMeasure | raft/experimental/scheuler.go:137-194 | a worker or drain step lowers the pair of the scheduler's measure and the steps left inside callbacks |
| MessagePath.DrainIsBounded | raft/experimental/scheuler.go:137-194 | without new messages and ticks every interleaving is no longer than a bound computed from the scheduler's measure, the longest queue and the steps left |
| MessagePath.ReachableDrains | raft/experimental/scheuler.go:137-194 | the same from every reachable state, with the size of the queues |
| MessagePath.RestIsReached | raft/experimental/scheuler.go:137-194 | once all senders have notified, worker and drain steps lead to a state where nothing can step |
| BlockingQueue.NextConserves | pkg/utility/queue/queue.go:216-478 | each step keeps put = taken + dropped by Dispose + left |
| BlockingQueue.FirstInFirstOut | pkg/utility/queue/queue.go:216-387 | over every interleaving of Put, Poll, timeouts and Dispose the items taken, dropped and left are the items put, in order |
| BlockingQueue.PollTakes | pkg/utility/queue/queue.go:337-387 | a poller that takes gets the first items, the smaller of its number and all there are, whether it found them or was woken, and the rest stays |
| BlockingQueue.NoPollerGetsMore | pkg/utility/queue/queue.go:337-387 | over every run a poller that was answered got at least one item and not more than it asked for |
| BlockingQueue.PollParks | pkg/utility/queue/queue.go:344-353 | a poller that finds no item goes to the end of the line and takes none |
| BlockingQueue.PutAppends | pkg/utility/queue/queue.go:216-248 | a Put appends all its items, wakes the first in line, and ends when none is left in line |
| BlockingQueue.FailsIff | pkg/utility/queue/queue.go:216-387 | a call returns an error exactly if it finds the queue disposed of or its timeout fired |
| BlockingQueue.DisposeTakesAll | pkg/utility/queue/queue.go:457-478 | Dispose empties queue and line and returns the items |
| BlockingQueue.NextKeepsInv | pkg/utility/queue/queue.go:216-387 | each step keeps the lock, semaphore and hand-off invariant |
| BlockingQueue.RunKeepsInv | pkg/utility/queue/queue.go:216-387 | the same over every run |
| BlockingQueue.HandOffWorks | pkg/utility/queue/queue.go:216-387 | with the lock free there is never both an item and a waiter, and a woken waiter finds an item |
| BlockingQueue.PutNeverStuck | pkg/utility/queue/queue.go:216-248 | a Put that awaits a response can go on, or the poller it awaits can step |
| BlockingQueue.DisposedReleasesAll | pkg/utility/queue/queue.go:292-478 | over every run no wait-group counter falls below zero, and in a disposed queue every process inside Put or Poll can step |
| BlockingQueue.WithoutWaiterFrom | pkg/utility/queue/queue.go:112-125 | removing a waiter keeps the others and their distinctness |
| BlockingQueue.RemoveWaiter | pkg/utility/queue/queue.go:112-125 | the loop over the waiters removes that semaphore |
| BlockingQueue.GetItems | pkg/utility/queue/queue.go:129-142 | copies the first items into the caller's buffer, leaves the rest of it, and returns the items that remain |
| JobQueue.NextKeepsInv | raft/experimental/job_queue.go:45-82 | every step keeps: jobs taken are those run followed by the rest of the batch, all routed to this shard |
| JobQueue.JobsInOrder | raft/experimental/job_queue.go:45-82 | over every run, a group's jobs that were run, are in hand, were dropped or are queued are the jobs put, in order; other shards run none |
| JobQueue.GroupsAreSharedOut | raft/experimental/job_queue.go:45-48 | group ids go to the shards 0, 1, ... in turn |
| JobQueue.BatchFits | raft/experimental/job_queue.go:65-82 | over every run the worker's batch holds at least one and at most 256 jobs, the size of its buffer |
| LinearizableRead.NextKeepsBooks | raft/raft_linearizable_read.go:32-128 | every step of caller, loop, raft and applier, the recorded applied index falling included, keeps signals, callers and answers in order |
| LinearizableRead.NextKeepsSafe | raft/raft_linearizable_read.go:32-128 | with contexts compared by value every step keeps: an answer in hand is not below the commit index at the swap of its signal, and a signal completed without error means that the machine holds that commit index |
| LinearizableRead.RunKeepsSafe | raft/raft_linearizable_read.go:32-128 | the same over every interleaving |
| LinearizableRead.StaleRead | raft/raft_linearizable_read.go:33-128 | with one shared context buffer a late answer completes a read whose floor is not applied |
| LinearizableRead.FreshIffContextsAreValues | raft/raft_api.go:370-386 | every read that returns nil sees a state machine that holds what was committed when the read fetched its signal, in all runs, exactly if contexts are compared by value |
| LinearizableRead.NudgedIffSlot | raft/experimental/store_api.go:415-440 | in all runs a caller that waits for the current signal has left a token in the channel or in the loop's hands, exactly if the channel has a slot |
| LinearizableRead.LostNudge | raft/raft_api.go:370-378 | without a slot a caller that comes while the loop is not receiving leaves no token |
| LinearizableRead.SignalsCompleted | raft/experimental/replicat_raft_linearizable_read.go:28-69 | a swapped-out signal is open while in the loop's hands and completed after, unless the loop stopped |
| LinearizableRead.ResultsAreEarned | raft/raft_linearizable_read.go:45-74 | over every run a signal carries an error only from a refused or failed request, and no error only from an index that was applied or marked as completed |
| LinearizableRead.AnswerTaken | raft/raft_linearizable_read.go:86-104 | an answer ends the request exactly if its context compares equal, and is otherwise skipped |
| LinearizableRead.AnsweredCompletes | raft/raft_linearizable_read.go:65-73 | an answered request completes its signal without error if the index is applied, goes to wait for it if not, and can do nothing else |
| LinearizableRead.AcquiredWaits | raft/raft_linearizable_read.go:67-68 | it waits exactly if the index has not been marked as completed |
| LinearizableRead.WakeCompletes | raft/raft_linearizable_read.go:67-73 | it wakes up exactly when the channel is closed, completes without error, and marking an applied index that has reached its own closes the channel |
| LinearizableRead.RequestSteps | raft/raft_linearizable_read.go:34-54 | the way to a request: a context that was never used, a new signal before the request, an error for the old one if the request is refused, and back to the top if the leader changes before |
| LinearizableRead.CallerSteps | raft/raft_api.go:370-386 | a caller takes the signal of the moment, returns what it carries, and can give up at any time |
| LinearizableRead.ReadCanSucceed | raft/raft_linearizable_read.go:32-128 | from every state of a safe run with a request out, four steps complete the read without error |
| LinearizableRead.CompletedOnce | pkg/utility/syncutil/notifier.go:58-90 | a completed signal keeps its result for ever |
| LinearizableRead.Completion.constructor | pkg/replier/completion.go:27-34 | nothing is completed or awaited |
| LinearizableRead.Completion.AcquireCompletionChan | pkg/replier/completion.go:36-48 | the channel is closed exactly if the index is completed, and is otherwise the one registered for it |
| LinearizableRead.Completion.MarkCompleted | pkg/replier/completion.go:50-60 | closes and forgets exactly the channels up to the index |
| Sessions.TouchedLaw | pkg/session/lru_manager.go:64-76 | looking a session up changes no session |
| Sessions.RegisteredLaw | pkg/session/lru_manager.go:78-96 | a registration adds one session, may evict another, and changes none |
| Sessions.RegisteredExactly | pkg/session/lru_manager.go:78-96 | a registration of a new id makes an empty session live and leaves every other as it was, except that a full list loses its last; a list for none takes none; a live id changes nothing |
| Sessions.UnregisteredLaw | pkg/session/lru_manager.go:98-109 | an unregistration removes that session and no other |
| Sessions.AfreshLaw | pkg/session/expired_manager.go:100-108 | expiry takes away exactly the sessions of an expiring manager whose time plus limit is not after now, and changes none |
| Sessions.WrappedLaw | pkg/session/expired_manager.go:100-108 | the sum of time and limit is the true one unless it leaves 64 bits, and then off by 2^64 |
| Sessions.StoredLaw | pkg/session/session.go:56-77 | a change of a session's results changes that session only |
| SessionManagers.LruOrder | pkg/session/lru_manager.go:64-109 | after any run of Register, GetSession and UnRegister the list holds each live session once, by falling time of last use, and is not longer than allowed |
| SessionManagers.EvictsLeastRecentlyUsed | pkg/session/lru_manager.go:78-96 | a session that a registration evicts was used before every other, and the others stay |
| SessionManagers.ClientSession.constructor | pkg/session/session.go:40-46 | a new session has no results |
| SessionManagers.ClientSession.ClearResult | pkg/session/session.go:56-62 | drops exactly the results below the bound, and keeps the others and the time |
| SessionManagers.ClientSession.AddResult | pkg/session/session.go:69-77 | adds a result and the time, or fails and changes nothing if the number has one |
| SessionManagers.LruManager.constructor | pkg/session/lru_manager.go:40-55 | an empty manager |
| SessionManagers.LruManager.GetSession | pkg/session/lru_manager.go:64-76 | the no-op session for id 0; otherwise finds exactly the live sessions and moves the one found to the front |
| SessionManagers.LruManager.Register | pkg/session/lru_manager.go:78-96 | refines the specification: refused for a live id, else first in the list, the last one given up beyond the limit; map and list stay linked |
| SessionManagers.LruManager.UnRegister | pkg/session/lru_manager.go:98-109 | refines the specification; map and list stay linked |
| SessionManagers.ExpiredManager.constructor | pkg/session/expired_manager.go:41-55 | an empty manager |
| SessionManagers.ExpiredManager.Register | pkg/session/expired_manager.go:77-86 | refines the specification |
| SessionManagers.ExpiredManager.UnRegister | pkg/session/expired_manager.go:88-98 | refines the specification |
| SessionManagers.ExpiredManager.ExpireSession | pkg/session/expired_manager.go:100-108 | deletes exactly the sessions whose time plus limit, added on 64 bits, is not after now, in any iteration order |
| ExactlyOnce.RunSound | raft/applied_facade.go:152-234 | over every log a live session caches for each number exactly the result of its last execution that was not cleared since |
| ExactlyOnce.ExecutedIff | raft/applied_facade.go:220-234 | a command of a session is executed exactly if the session is found and remembers no result; otherwise it gets the remembered reply |
| ExactlyOnce.ExecutedByThen | raft/applied_facade.go:220-234 | a command that met its session has been executed by then, and its result was not cleared in between |
| ExactlyOnce.FoundIffAlive | raft/applied_facade.go:152-184 | an entry finds its session exactly if the sessions before it, after expiry, hold it |
| ExactlyOnce.TwiceIffStaleRetry | raft/applied_facade.go:152-234 | a number is executed twice exactly if it was sent to the live session, a bound above it was acknowledged there, and it was sent there again |
| ExactlyOnce.ExecutedTwice | raft/applied_facade.go:220-234 | a log in which that happens, for every state machine |
| ExactlyOnce.AtMostOnce | raft/applied_facade.go:152-234 | with clients that do not retry below their bound, every number is executed at most once and a repeat gets the first result |
| ExactlyOnce.StaysGone | raft/applied_facade.go:325-336 | an evicted, expired or unregistered session does not come back |
| ExactlyOnce.GoneSessionsApplyNothing | raft/applied_facade.go:152-184 | its commands are not executed |
| ExactlyOnce.MachineIsFold | raft/raft_apply.go:88-103 | over every log the state machine is the fold of its apply function over exactly the commands that were executed, in log order |
| ExactlyOnce.ExecutedReplies | raft/raft_apply.go:88-103 | an executed command is answered with the apply function's result on that fold, with the log index put in for a configuration change, unless the node goes down |
| ExactlyOnce.EntryReplies | raft/applied_facade.go:152-184 | a command without a session is always executed; a missing session, a registration and an unregistration are answered by what the sessions are at that point |
| ExactlyOnce.ActivityIs | raft/applied_facade.go:152-234 | over every log a live session was active last when its registration or last executed command says so |
| ExactlyOnce.AliveIff | raft/applied_facade.go:152-184 | a command finds a session of the expiring manager exactly if it comes less than the limit after that |
| ExactlyOnce.EmptyResultPanics | raft/raft_apply.go:88-102 | a state machine that returns an empty result for a command after the first entry panics on a log with rising indices that repeats the command |
| ExactlyOnce.NeverPanicsIff | raft/raft_apply.go:88-102 | the panic is out of reach of all logs, with indices as they are delivered, exactly if no command after the first entry gets an empty result |
| ExactlyOnce.Applier.constructor | raft/applied_facade.go:104-120 | the node's initial state |
| ExactlyOnce.Applier.DoExactlyOnce | raft/applied_facade.go:220-234 | returns the cached result, decides on applying, and clears below the bound |
| ExactlyOnce.Applier.ApplyCommand | raft/raft_apply.go:88-103 | one command, with lookup, deduplication, execution and caching, is the specification's step, of which the rows above say what it executes, answers and remembers |
| ExactlyOnce.Applier.ApplyEntries | raft/raft_apply.go:67-115 | the loop over the entries is the specification's run |
| SessionSnapshot.WordRoundTrip | pkg/utility/fileutil/fileutil.go:98-113 | reading eight little-endian bytes gives the 64-bit word written, and leaves the rest |
| SessionSnapshot.WordLayout | pkg/utility/fileutil/fileutil.go:98-113 | a word is its eight bytes, the lowest first |
| SessionSnapshot.ResultLayout | pkg/session/apply_result_serializer.go:43-77 | the bytes of a result: log index, kind 1, 2 or 3, then response, error length and text, or nothing |
| SessionSnapshot.SessionLayout | pkg/session/session.go:84-108 | the bytes of a session: id, time, number of results, then each number with its result |
| SessionSnapshot.FileLayout | pkg/session/lru_manager.go:115-134 | the bytes of a file: version and kind in the halves of the first word, number of sessions, sessions |
| SessionSnapshot.OtherFileIsRefused | pkg/session/lru_manager.go:136-155 | a file with another first word is refused |
| SessionSnapshot.ResultRoundTrip | pkg/session/apply_result_serializer.go:43-134 | a result comes back with its error by text, or its response if it has no error; an error text of no length or over the pool's size panics |
| SessionSnapshot.EmptyErrorPanics | pkg/session/apply_result_serializer.go:79-134 | an error without text is written and cannot be read |
| SessionSnapshot.PairsRoundTrip | pkg/session/session.go:99-139 | the numbered results come back, in any map order |
| SessionSnapshot.SessionRoundTrip | pkg/session/session.go:84-142 | a session comes back with its id, time and results, in any map order, exactly if its results are readable |
| SessionSnapshot.SaveSession | pkg/session/session.go:84-108 | the writing loop yields the format for the order in which it visited the map |
| SessionSnapshot.LoadPairs | pkg/session/session.go:129-139 | the reading loop is the parser |
| SessionSnapshot.ListRoundTrip | pkg/session/lru_manager.go:115-175 | a list of sessions comes back in order |
| SessionSnapshot.FileRoundTrip | pkg/session/lru_manager.go:115-175 | so does the file with its header |
| SessionSnapshot.LruRestored | pkg/session/lru_manager.go:115-175 | restoring a saved LRU manager gives the same sessions in the same order |
| SessionSnapshot.ExpiredRestored | pkg/session/expired_manager.go:110-167 | restoring a saved expiring manager gives the same sessions, in any map order |
| SnapshotTransparency.StepAlike | raft/applied_facade.go:152-234 | managers that differ by what the format drops make the same decisions on an entry and stay so |
| SnapshotTransparency.RunAlike | raft/applied_facade.go:152-234 | the same over every log |
| SnapshotTransparency.LruTransparent | pkg/session/lru_manager.go:115-175 | saving and restoring at any log position, then going on with any log, makes the same decisions and state as not doing so |
| SnapshotTransparency.ExpiredTransparent | pkg/session/expired_manager.go:110-167 | the same for the expiring manager |
| PeerManager.AccountedMade | pkg/transport/peer_manager.go:135-142 | a peer made for a free address keeps every peer live at one address or stopped once |
| PeerManager.AccountedStopped | pkg/transport/peer_manager.go:144-160 | so does taking a live peer out of the map and stopping it |
| PeerManager.AccountedMoved | pkg/transport/peer_manager.go:77-102 | so does a move to another address |
| PeerManager.CountedRetain | pkg/transport/peer_manager.go:135-142 | one more user of an address keeps the counters equal to the users, and an address has no peer exactly if it has no user |
| PeerManager.CountedRelease | pkg/transport/peer_manager.go:144-154 | one user fewer keeps them so, and the counter is 1 exactly for a sole user |
| PeerManager.CountedMoved | pkg/transport/peer_manager.go:77-102 | a move through both keeps them so |
| PeerManager.Manager.constructor | pkg/transport/peer_manager.go:35-41 | an empty, valid manager |
| PeerManager.Manager.GetPeer | pkg/transport/peer_manager.go:43-61 | finds a live, unstopped peer exactly for the known identifiers; the branch for an address without a peer is out of reach |
| PeerManager.Manager.AddPeer | pkg/transport/peer_manager.go:63-75 | refused for a known identifier; makes a peer exactly for an unused address; keeps the invariant and the other peers |
| PeerManager.Manager.UpdatePeer | pkg/transport/peer_manager.go:77-102 | moves an identifier, stops the old peer exactly if it was the sole user, makes one exactly for an unused address |
| PeerManager.Manager.RemovePeer | pkg/transport/peer_manager.go:104-120 | removes an identifier and stops the peer exactly if it was the sole user |
| PeerManager.Manager.RemoveAllPeers | pkg/transport/peer_manager.go:122-133 | afterwards every peer ever made has been stopped, each once |
| PeerManager.Manager.RetainAddress | pkg/transport/peer_manager.go:135-142 | counts a user, with a new peer for a new address |
| PeerManager.Manager.ReleaseAddress | pkg/transport/peer_manager.go:144-154 | counts a user less, and hands out the peer of the last one |
| PeerManager.Manager.StopPeerIfNeeded | pkg/transport/peer_manager.go:156-160 | records the stop of a handed-out peer |
| SnapshotTransfer.RestArrives | pkg/transport/peer/peer.go:285-324 | from any point of a transfer the rest is taken exactly if the declared size is the real one and no running checksum is zero |
| SnapshotTransfer.FileArrives | pkg/transport/peer/peer.go:285-324 | for every file, chunk size and checksum function the sender returns nil exactly under that condition, and then the receiver holds exactly the file, finalized once |
| SnapshotTransfer.SentIsWhole | pkg/transport/peer/peer.go:285-324 | the chunks of a file joined are the file |
| SnapshotTransfer.SentAt | pkg/transport/peer/peer.go:285-324 | each chunk has the next number, the full chunk size except at the end, the checksum of all bytes so far, and the last mark exactly where the declared size is reached |
| SnapshotTransfer.ChunkTakenIff | pkg/snapshot/io/validator.go:49-74 | a chunk for the file that is due is taken exactly if it has the next number and the checksum of all bytes so far and its own; otherwise no file changes |
| SnapshotTransfer.TakenAfterRefused | pkg/snapshot/io/validator.go:49-74 | after a refused chunk the sender's own is still taken, unless the refused one had its number: then its bytes stay in the checksum, and it is taken exactly if that agrees even so |
| SnapshotTransfer.NamesAreTheirOwn | pkg/snapshot/fs/api/path_helper.go:38-51 | no two kinds of file, and no two state-machine tags, share a name; an unknown kind has none |
| SnapshotTransfer.ProcessedFaithful | pkg/snapshot/io/validator.go:49-74 | each message, accepted or rejected, keeps files equal to the accepted chunks and the numbering of each tag |
| SnapshotTransfer.AcceptedRuns | pkg/snapshot/io/receiver.go:55-78 | whatever messages arrive, each file is the concatenation of the chunks accepted for it, those of a tag are numbered 1, 2, ... up to each final one, and no finished validator is asked again |
| SnapshotTransfer.SnapshotArrives | pkg/transport/peer/peer.go:265-272 | a whole snapshot, listed in any order, arrives: the listed files that are not empty, and nothing else |
| SnapshotTransfer.SnapshotSentIff | pkg/transport/peer/peer.go:265-272 | whatever the metadata lists, the transfer succeeds exactly if every file that is not external has a name, exists, has the declared size and no zero checksum |
| SnapshotTransfer.ValidateFiles | pkg/snapshot/io/validator.go:117-160 | the validation passes exactly if every file that is not external exists with its size and checksum |
| SnapshotTransfer.CommitsIffNoEmptyFile | pkg/snapshot/io/receiver.go:84-113 | a transferred snapshot passes it exactly if it lists no empty file |
| SnapshotTransfer.EmptyFileIsRefused | pkg/snapshot/io/receiver.go:84-113 | a snapshot with an empty state-machine file is sent without error and refused |
| SnapshotTransfer.FileSystem.FileAppendData | pkg/snapshot/fs/durable/fs.go:83-93 | appends to the file, which it creates if need be |
| SnapshotTransfer.FileSystem.FileAppendFinalize | pkg/snapshot/fs/durable/fs.go:95-102 | finalizes an existing file and keeps its contents; fails for a missing one |
| SnapshotTransfer.ChunkValidator.constructor | pkg/snapshot/io/validator.go:41-47 | expects chunk 1 with checksum 0 |
| SnapshotTransfer.ChunkValidator.ValidateAndAppend | pkg/snapshot/io/validator.go:49-74 | accepts exactly the next chunk with the right checksum, appends it, and finalizes on the last; a mismatch still moves the checksum |
| SnapshotTransfer.Receiver.constructor | pkg/snapshot/io/receiver.go:41-52 | no validators |
| SnapshotTransfer.Receiver.ProcessChunk | raft/raft_storage.go:175-183 | refuses a zero checksum, otherwise saves the chunk; refines the receiver as a value |
| SnapshotTransfer.Receiver.SaveChunk | pkg/snapshot/io/receiver.go:55-78 | index check, validator of the tag, validation, and removal of the validator after the last chunk, as the value step does |
| SnapshotTransfer.SendFile | pkg/transport/peer/peer.go:285-324 | the sender's loop is the transfer function, and returns nil only if the bytes sent are the declared size |
| Membership.StepAgreesIff | raft/applied_facade.go:236-313 | a change, accepted or rejected, keeps store and raft in agreement on the members exactly if it does not add node id None |
| Membership.PanicsIff | raft/applied_facade.go:274-283 | raft panics exactly on the removal or demotion of its only voter |
| Membership.AppliedLaw | raft/raft_ready.go:25-27 | what a change does to raft: its own id gets the role of its type, no other id changes, None does nothing, and a panic exactly if no voter would be left |
| Membership.StepKeepsButNone | raft/applied_facade.go:274-283 | every change keeps raft's members equal to the store's other than 0 |
| Membership.RunAgreesIff | raft/applied_facade.go:236-313 | after every run of changes they agree exactly if every accepted addition of 0 was followed by its accepted removal |
| Membership.AlwaysAgreesIff | raft/applied_facade.go:236-313 | they agree throughout a run exactly if no addition of 0 is accepted |
| Membership.RunAgrees | raft/applied_facade.go:236-313 | they agree if no change adds 0 |
| Membership.NoneIsAdded | pkg/cluster/cluster.go:173-192 | an added peer 0 is a member of the store alone |
| Membership.StepKeepsBuried | pkg/cluster/cluster.go:173-229 | members and removed ids stay disjoint, and removed ids stay removed |
| Membership.RemovedForGood | pkg/cluster/cluster.go:173-229 | over every run a removed id is never a member again |
| Membership.RemovalIsFinal | pkg/cluster/cluster.go:220-229 | over every run an id whose removal was accepted is not a member at any later time |
| Membership.StepRolesIff | raft/applied_facade.go:236-313 | a change keeps agreement on learners and voters exactly if it states one role to both sides |
| Membership.UpdateSplitsRoles | pkg/cluster/cluster.go:194-206 | an update may state two |
| Membership.StartDirectory | raft/bootstrap.go:258-365 | both starts meet this: a first start lists the others, a restart lists the local peer as well |
| Membership.StepKeepsDirectory | raft/applied_facade.go:286-310 | the transport keeps knowing exactly the other members and their addresses, and an entry for the local peer stays as it was |
| Membership.RunKeepsDirectory | raft/applied_facade.go:286-310 | the same over every run |
| Membership.StepAddressesIff | pkg/cluster/cluster.go:173-206 | members keep separate addresses exactly if an update does not take one in use |
| Membership.UpdateTakesAddress | pkg/cluster/cluster.go:194-206 | an update may take one in use |
| Membership.Cluster.constructor | pkg/cluster/cluster.go:41-48 | the given members, none removed |
| Membership.Cluster.Add | pkg/cluster/cluster.go:173-192 | accepts exactly a new id, never removed, with an address no member has, whatever the map order |
| Membership.Cluster.Update | pkg/cluster/cluster.go:194-206 | replaces address and learner flag of a member |
| Membership.Cluster.Remove | pkg/cluster/cluster.go:220-229 | removes a member and buries its id |
| Membership.Cluster.Promote | pkg/cluster/cluster.go:231-244 | clears the flag of a learner, and fails for anyone else |
| Membership.Facade.constructor | raft/applied_facade.go:104-120 | the given group |
| Membership.Facade.ValidateAndApply | raft/applied_facade.go:236-252 | dispatches on the change type as the store's specification does |
| Membership.Facade.ProcessConfChange | raft/applied_facade.go:274-313 | the method is the group's step, and reports a removal of the local peer exactly when there is one |
| Recovery.ListIds | raft/bootstrap.go:402-435 | the ids of the snapshot's voters and the history, in rising order, or an error exactly for an unknown type |
| Recovery.Sorted | raft/bootstrap.go:429-434 | the same ids in rising order |
| Recovery.Matches | raft/bootstrap.go:442-447 | whether the local peer is listed |
| Recovery.CreateEntries | raft/bootstrap.go:436-513 | an error exactly for an empty hard state; otherwise the generated changes with contiguous indices from Commit + 1, and Commit moved to the last |
| Recovery.RefoldIsLocal | raft/bootstrap.go:402-513 | listing the ids again over the extended history gives the local peer alone, for every snapshot and history |
| Recovery.RemovalsRun | raft/bootstrap.go:480-508 | with the local peer a voter all removals go through and leave exactly the members not listed |
| Recovery.Joined | raft/bootstrap.go:451-479 | after the optional addition the local peer is a voter exactly if it was one or may be added |
| Recovery.StandaloneIff | raft/bootstrap.go:436-513 | applying the generated changes leaves the local peer as only member of store and raft exactly if it is electable and every other member is listed |
| Recovery.ListedAreMembers | raft/bootstrap.go:402-435 | the listed ids are the members if the snapshot has no learners and the history no rejected change |
| Recovery.LearnerIsLeft | raft/bootstrap.go:404-408 | a learner that only the snapshot lists stays a member |
| Recovery.RemovedCannotRecover | raft/bootstrap.go:451-479 | a local peer that was removed is not admitted, and raft panics |
| Restart.ReplayedSound | raft/raft_apply.go:75-110 | a batch over a state that holds the commands up to the opened index brings it up to the batch, each command once |
| Restart.TakenSoundIff | raft/raft_apply.go:54-62 | a snapshot holds what its index says exactly if no command lies between the applied and the opened index |
| Restart.InstalledSoundIff | raft/raft_apply.go:117-149 | an installed snapshot keeps the state right exactly if no command lies between it and the opened index |
| Restart.NextSoundIff | raft/raft_apply.go:35-149 | each event, crashes and restarts included, keeps soundness exactly if it is faithful; a replay never panics |
| Restart.RunSoundIff | raft/bootstrap.go:562-607 | a whole run with any number of crashes is sound throughout exactly if its events are faithful |
| Restart.MemorySound | raft/raft_apply.go:75-87 | a memory state machine is sound in every run, and never meets an entry below its opened index |
| Restart.EvaluatedIsFolded | raft/raft_apply.go:88-96 | each command once in log order is the uninterrupted fold of any state machine |
| Restart.ReplayReachesFold | raft/bootstrap.go:562-607 | after any faithful run with crashes a state machine that has replayed to an entry is in the state of the uninterrupted fold |
| Restart.HeldRises | raft/raft_apply.go:67-149 | between two starts the last entry the state holds only rises and is never below the recorded applied index |
| Restart.WrapsIff | raft/raft_apply.go:54-54 | the trigger's 64-bit subtraction is the true distance exactly if the last snapshot is not ahead |
| Restart.RunBehindhandIff | raft/raft_apply.go:40-62 | throughout a run the recorded snapshot index is not ahead of what raft has handed out exactly if no snapshot is asked for between a start and the first batch |
| Restart.NeverWraps | raft/raft_apply.go:54-54 | so it does not wrap in such a run |
| Restart.BelowCount | raft/raft_apply.go:51-62 | after every batch the distance is below the snapshot count |
| Restart.FlushPanicsIff | pkg/wal/walbase/storage.go:176-181 | completing the snapshots that were taken brings the node down exactly if one is not later than the one before it |
| Restart.RunInTimeIff | raft/raft_apply.go:151-181 | throughout a run the snapshots under way will not bring the node down exactly if each was later than the last one taken and none was under way below an installed one |
| Restart.MemoryOrderlyIff | raft/raft_apply.go:40-62 | for a memory machine: exactly if snapshots are asked for after a new entry only, and none is under way at an install; the trigger never does harm |
| Restart.ManualPanicsIff | raft/raft_apply.go:40-50 | a snapshot that a caller asks for brings a memory machine's node down exactly if no entry was applied since the last one |
| Restart.SecondSnapshotPanics | raft/raft_apply.go:175-181 | a second snapshot right after the first does |
| Restart.MislabelledSnapshot | raft/raft_apply.go:51-62 | a disk machine labels a snapshot of three commands with index 2 |
| Restart.AppliesTwice | raft/bootstrap.go:566-571 | a machine rebuilt from it applies the third command twice |
| Restart.Wraps | raft/raft_apply.go:40-54 | a snapshot before the first batch makes the next subtraction wrap |
| Restart.Applier.constructor | raft/raft_apply.go:35-38 | nothing applied |
| Restart.Applier.OpenDisk | raft/bootstrap.go:562-580 | opened, applied and snapshot index after a disk start, refused exactly for a disk behind its snapshot |
| Restart.Applier.OpenMemory | raft/bootstrap.go:582-590 | the same after a memory start |
| Restart.Applier.InitializeStatus | raft/bootstrap.go:592-607 | the recorded indices, with the opened index where it is ahead |
| Restart.Applier.ApplyEntries | raft/raft_apply.go:67-115 | the loop, also over no entries, skips or applies as the replay function does, and panics exactly on a memory machine that meets an entry it has |
| Restart.Applier.ProcessBatch | raft/raft_apply.go:51-62 | entries and trigger are the batch event |
| Restart.Applier.TriggerSnapshot | raft/raft_apply.go:175-189 | records the index and takes a snapshot of the state |

## Left out

- Raft itself: its answers to read requests (never below the commit index at submission), its delivery of committed entries in index order from the last snapshot on, and its single-step configuration changes are assumed as the models state them.
- The write-ahead logs, the snapshot file systems' failures, and the S3 file system's way of joining chunk objects.
- Transports, TLS, connection pools, breakers, rate limiters, metrics, logging, the builder and the examples.
- Transport errors and shutdown during a snapshot transfer: the sender gives up, which only shortens the transfer.
- Shutdown of the scheduler, and creation and removal of replicas while it works; `EnqueueBatchState`, which repeats `EnqueueState`; callers never pass the queue bit, so the model's masks have none.
- Agreement of replicas that use the expiring session manager: each reads its own clock.
- A leader's snapshot that is installed below the opened index of a disk machine: `Restart.InstalledSoundIff` says what it loses, and the read model has no such step.
- Session state across restarts of a disk state machine: entries up to the opened index are skipped with their bookkeeping; `Restart` is about commands without a session.
- The no-op session manager, and sessions' gatekeeping of configuration changes: a change that its session refuses reaches neither store nor raft.
- Interleaving of configuration changes, applied when entries are handed out, with normal entries, applied by another goroutine: each side is taken as a sequence of its own.
- The published service addresses: the reply to such an entry carries its log index here, and not the cluster's answer.
- Encoding and decoding of requests, taken as exact; the response serializer, taken as a round trip of its own, also of the raft configuration that a configuration change leaves as its result.
- The peer factory and the order of `Stop` calls after the lock is released: a stop is recorded when its method ends.
- The moment between the storage taking over a leader's snapshot, in the loop that handles raft's output, and the apply loop restoring the state machine from it: an install is one step.
- Concurrent snapshots that complete out of order, and compaction of the log beyond what raft has handed out.
- Restoring the session managers from damaged files beyond the outcomes of the parser; leader transfer, heartbeat coalescing, the multi-raft chunk sender and buffer pools.
- ExactlyOnce.Applier.ApplyCommand: holds the session manager as a value; a session that is changed in place through its reference is stored back into it.
- Membership.AppliedLaw: raft's configuration is two id sets; joint configurations are not used by the source.
- SnapshotTransfer.Receiver.SaveChunk: two files of one path are told apart by type and tag only, without the directory.
- Recovery.CreateEntries: indices are unbounded integers, so a commit index at the end of the 64-bit range is not covered.
