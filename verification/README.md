# Concurrency control, indexes and statement reordering, verified

This project models the parts of two programs whose correctness is hardest to see, and proves what they promise.

DBx1000 is a main-memory database used to compare concurrency-control schemes. Every row has a manager that runs under a latch; transactions of many threads call the managers in any interleaving. The project models

- strict two-phase locking with undo (NO_WAIT, WAIT_DIE, DL_DETECT): the row lock with its owner stack and waiter queue (`RowLockSpec`, `RowLock`), the access list with its before-images (`TxnCleanup`), the system of transactions and rows (`TwoPhaseLocking`), its serializability (`TwoPhaseLocks`, `TwoPhaseSafety`) and its progress (`WaitDieProgress`);
- the deadlock detector, a depth-first search that also picks a victim (`DlDetect`), and that the graph it searches misses no real deadlock (`DeadlockGraph`);
- optimistic control with per-row validation: the row, the sort and the validation (`OccRow`, `AccessOrder`, `OptCC`), the system (`OptimisticRuns`), its serializability (`OptimisticSafety`), its latches (`OptimisticLatches`), and that validation in one go is a sequence of its steps (`ValidationSteps`);
- multiversion timestamp ordering with prewrites, buffered reads and recycled histories (`RowMvccSpec`, `RowMvcc`, `MultiversionReads`);
- basic timestamp ordering (`RowTsSpec`, `RowTs`, `TimestampReads`); the request lists of both are in `RequestQueues`;
- both timestamp schemes as one system of transactions over many rows (`TimestampRows`, `TimestampRuns`, `TimestampLinks`, `TimestampSafety`) with its serial order and its progress (`TimestampOrder`);
- HSTORE partition locks (`PartLockSpec`, `PartMan`, `PartitionRuns`) and the serial execution they give (`PartitionSerial`);
- the B+ tree (`BTreeSpec`, `BTreeSteps`, `BTreeArrays`, `IndexBtree`), the two loops of it that are wrong in the code (`UnsignedLoop`), and the hash index (`IndexHash`), both measured against the log of what was inserted (`Inserts`).

QURO reorders the statements of a transaction so that contended queries run late. The project models the grouping of blocks that must stay together (`DepClosure`), the greedy order of queries (`QueryScheduler`), and the integer program for orders together with what a legal order computes (`OrderIlp`, `StraightLine`, `InitialReads`).

Each row manager and each index is a class with the fields of the original, whose methods are proved equal to functions on values; linked lists are sequences, tree nodes and waits-for entries are records found by number. Each concurrent scheme is a state machine whose steps use the same functions, one step for what happens under one latch, and the main results are about every state of every run. Loops that spin are guards of the next step. The answers of every manager are also stated by exact conditions on locks, versions and timestamps, and for every scheme there is a theorem that a transaction that meets nobody commits, having read what was there and leaving what it wrote (`AloneLocking`, `AloneOptimistic`, `AloneTimestamps`, `AlonePartitions`): safety is not bought by refusing. `SerialRuns` holds what it means to run transactions one after another, `Wants` what a lone transaction should do, `Chains` sequences of steps; `Options`, `Counting` and `TxnMan` hold small shared definitions.

Assumptions, all stated as preconditions or guards: live transactions have distinct timestamps (`thread.cpp` sets them only for HSTORE, MVCC and TIMESTAMP, so for WAIT_DIE this is an assumption on the caller); no transaction asks for the same row or partition twice; a partition lock asks for distinct partitions and a transaction for at least one, and accesses only rows of the partitions it asked for; MVCC timestamps lie below 2^32, the recycling threshold is at most every active or later timestamp, and the read that follows an accepted prewrite finds the request queue not full; the waits-for graph does not change during one search, transaction numbers lie below 2^31 and lock counts below 1000; the order of the B+ tree is at least 3; a program handed to the integer program has fewer than 10000 statements.

Where the code and its comments differ, the model follows the code. Under WAIT_DIE a request waits only if no owner is older, and the waiters are in descending timestamp order; the comments in `row_lock.cpp` (line 86) and `row_lock.h` (line 33) say otherwise. The detector sets the abort flag of the victim it found, not of the caller, unlike the comment above `isCyclic`.

Three properties turned out false of the code.

- In `insert_into_parent` (`index_btree.cpp`, line 494) the shifting loop counts down with an unsigned counter. `UnsignedLoop.ParentLoopEnds` says on which trees it ends: exactly when the node that was split is not the leftmost child of its parent. `UnsignedLoop.LoopWithoutEnd` gives five inserts after which it does not end. The tree is modelled with the signed counter that is evidently meant.
- The search before it (line 490) reads a key before it tests the bound. `UnsignedLoop.SearchReadsPast` says when that is past the stored keys: exactly when the new key is above every key of the parent, that is when its last child was split; and when the parent is full as well, the read is outside the array. The value read decides nothing, so the model tests the bound first.
- In the input of the integer program nothing protects a read of the initial value of a variable. For straight-line code `ControlFlowGraph.cpp` (lines 657-658) creates an entry of definitions for every use, so the branch for uses without one (`CBlocks.cpp`, lines 817-821) adds nothing there; only uses that lines 683-685 copy from condition blocks can lack an entry. `InitialReads.InitialReadUnprotected` gives a program and a legal order that changes what a block reads. `InitialReads.KeptExactlyWhenImplied` says for which programs all legal orders keep all reads, and `InitialReads.Guarded` is a condition that can be read off the constraints: it always suffices, and it is also necessary when the constraints have no triples (`InitialReads.GuardIsExact`).

The bound of 10000 on the number of statements is the constant M of the integer program. The arrays of `generate_ilp.cpp` (lines 9-11, 200 statements, 1000 pairs and 1000 triples) are full long before; `OrderIlp.BoundIsNeeded` is about the formulation, not about an input the program can hold.

## Model

| member | source | states |
|---|---|---|
| TwoPhaseSafety.Serializable | DBx1000/code/system/txn.cpp:53-136 | in every state of every run of the three locking schemes, running the committed transactions one after another in the order they entered cleanup reads every value they read, and gives the store, except on rows an unfinished or aborting writer still holds, where it gives that writer's before-image |
| TwoPhaseSafety.QuietStoreIsSerial | DBx1000/code/system/txn.cpp:53-102 | once every transaction is idle the store is exactly the result of the serial run |
| TwoPhaseSafety.StepKeeps | DBx1000/code/storage/row.cpp:122-194 | every step of every transaction keeps the invariant that links locks, open accesses, before-images, the store and the committed log |
| TwoPhaseSafety.ReleaseLastKeeps | DBx1000/code/storage/row.cpp:262-268 | putting one before-image back and releasing that one lock keeps the invariant, although the other rows of the transaction are still held |
| TwoPhaseSafety.CommitKeeps | DBx1000/code/system/txn.cpp:154-167 | entering cleanup with success is the commit point: the committed state moves by exactly the operations of the transaction and nobody else's view changes |
| TwoPhaseLocks.Exclusive | DBx1000/code/concurrency_control/row_lock.cpp:230-237 | a row one transaction has open for writing is owned by nobody else: two owners of one row both hold it shared |
| TwoPhaseLocks.ReleaseKeepsLocks | DBx1000/code/concurrency_control/row_lock.cpp:165-228 | a release keeps the correspondence of all lock lists with what transactions claim, with promoted waiters now owners |
| TwoPhaseLocks.RequestKeepsLocks | DBx1000/code/concurrency_control/row_lock.cpp:29-162 | so does a request, whether it is granted, queued or refused |
| TxnCleanup.CleanupIsSteps | DBx1000/code/system/txn.cpp:53-102 | a whole cleanup is a sequence of single-release steps of the system and ends with the store and the locks that walking the accesses backwards gives |
| TxnCleanup.AccessList.GetRow | DBx1000/code/system/txn.cpp:104-136 | a granted row is appended to the accesses with its before-image and the write count follows |
| TxnCleanup.AccessList.Cleanup | DBx1000/code/system/txn.cpp:53-98 | the backward loop restores all images of aborted writes, releases every lock and empties the list |
| TxnCleanup.Table.ReturnRow | DBx1000/code/storage/row.cpp:262-268 | an undone write gets its image back, then the lock is released |
| RowLockSpec.GetKeeps | DBx1000/code/concurrency_control/row_lock.cpp:61-133 | a request keeps owners pairwise compatible, nobody listed twice and the head waiter in conflict; it adds exactly the requester unless it is refused |
| RowLockSpec.ReleaseKeeps | DBx1000/code/concurrency_control/row_lock.cpp:165-228 | a release removes exactly that transaction, demotes no owner, and leaves no waiter that could have been admitted; the WAIT_DIE order survives |
| RowLockSpec.PromoteSplits | DBx1000/code/concurrency_control/row_lock.cpp:209-219 | the promotion loop admits a prefix of the queue and nobody else |
| RowLockSpec.GetKeepsAge | DBx1000/code/concurrency_control/row_lock.cpp:83-122 | under WAIT_DIE waiters stay younger-first and older than every owner; whoever waits is older than all owners, whoever is refused met an older owner |
| RowLockSpec.NoWaitOutcome | DBx1000/code/concurrency_control/row_lock.cpp:61-132 | NO_WAIT grants a request exactly when it and all owners are shared, and refuses it exactly when an owner or the request is exclusive |
| RowLockSpec.DlDetectOutcome | DBx1000/code/concurrency_control/row_lock.cpp:61-132 | DL_DETECT grants it exactly when nobody is queued besides, and otherwise queues it at the end |
| RowLockSpec.WaitDieOutcome | DBx1000/code/concurrency_control/row_lock.cpp:61-132 | WAIT_DIE grants it exactly when no younger request is queued besides, and refuses it exactly when it is not granted and an owner is older |
| RowLockSpec.BlocksByTypes | DBx1000/code/concurrency_control/row_lock.cpp:136-154 | a request conflicts exactly with the exclusive ones ahead of it or, when it is exclusive, with all |
| RowLockSpec.BlockedBySomebody | DBx1000/code/concurrency_control/row_lock.cpp:136-154 | in DL_DETECT a request that has to wait conflicts with somebody ahead of it |
| RowLockSpec.WellFormedFacts | DBx1000/code/concurrency_control/row_lock.cpp:202-220 | a lock without owners is free and has no waiters, a lock with owners has their type |
| RowLock.RowLock.LockGet | DBx1000/code/concurrency_control/row_lock.cpp:29-162 | the new lists, counts and lock type, the return code and the ready flag; when the request is granted, by the lock types and timestamps of owners and waiters; in DL_DETECT the reported list holds exactly the transactions ahead that do not share |
| RowLock.RowLock.BlockerList | DBx1000/code/concurrency_control/row_lock.cpp:136-154 | the list built for the waits-for graph contains a transaction exactly when it is ahead and conflicts |
| RowLock.RowLock.LockRelease | DBx1000/code/concurrency_control/row_lock.cpp:165-228 | removal from either list and promotion as specified; exactly the promoted waiters have their ready flag set |
| RowLock.RowLock.PromoteWaiters | DBx1000/code/concurrency_control/row_lock.cpp:209-220 | the loop yields the specified promotion and wakes exactly the new owners |
| AloneLocking.CommitsAlone | DBx1000/code/system/txn.cpp:53-136 | under each locking scheme, from every reachable state where all are idle, a transaction can read and write any rows it wants and commit: it logs the wanted reads with the values of the store and the wanted writes, the store has these writes and no others, and all are idle again |
| AloneLocking.AbortsAlone | DBx1000/code/system/txn.cpp:53-102 | it can as well abort at the end, and then store and log are as before |
| WaitDieProgress.NoWaitCycle | DBx1000/code/concurrency_control/row_lock.cpp:61-122 | in every state of every WAIT_DIE run the waits-for graph over all rows has no cycle |
| WaitDieProgress.NoDeadlock | DBx1000/code/concurrency_control/row_lock.cpp:86-119 | behind every blocked transaction there is a younger one that can take its next step |
| WaitDieProgress.BlockedHasOwner | DBx1000/code/concurrency_control/row_lock.cpp:209-220 | a blocked transaction is queued on a row that somebody owns: no wakeup is lost, in all three schemes |
| WaitDieProgress.StepKeepsAge | DBx1000/code/concurrency_control/row_lock.cpp:202-219 | every step keeps the age order of owners and waiters on every row |
| DlDetect.DlDetect.DetectCycle | DBx1000/code/concurrency_control/dl_detect.cpp:100-141 | on a frozen graph the answer is yes exactly when the start is live and a cycle of live edges can be reached from it; then every transaction on the cycle found is in the list of the one before it, the one told to abort is on it and holds the fewest locks there, and no other is told |
| DlDetect.DlDetect.FindCycle | DBx1000/code/concurrency_control/dl_detect.cpp:94-125 | the search behind it: whether there is a cycle, and the transaction with the fewest locks on it |
| DeadlockGraph.RealCyclesAreFound | DBx1000/code/storage/row.cpp:141-182 | in every state of every DL_DETECT run, when the transactions on a real circle of waits have put their reported blockers into the graph, the circle is a cycle of the graph and a search from any of them finds one |
| DeadlockGraph.WaitsAreReported | DBx1000/code/concurrency_control/row_lock.cpp:136-154 | in every state of every run a transaction waits only for transactions it reported when it was queued |
| DeadlockGraph.ReleaseAddsNothing | DBx1000/code/concurrency_control/row_lock.cpp:165-228 | a release with its promotions makes nobody wait for more |
| DeadlockGraph.AddDepRegisters | DBx1000/code/concurrency_control/dl_detect.cpp:20-34 | adding the reported blockers registers the transaction and leaves those of other threads registered |
| DlDetect.DlDetect.NextNode | DBx1000/code/concurrency_control/dl_detect.cpp:36-92 | a visit either finishes everything it can reach, in an order without back edges, or finds a cycle and keeps the minimum over the nodes of the cycle it has left |
| DlDetect.DlDetect.Follow | DBx1000/code/concurrency_control/dl_detect.cpp:62-80 | one neighbour: a live node on the stack closes a cycle, a finished one adds nothing |
| DlDetect.DlDetect.LeaveNode | DBx1000/code/concurrency_control/dl_detect.cpp:81-91 | leaving a node updates stack, minimum and loop marker as specified |
| DlDetect.LeaveUnwinds | DBx1000/code/concurrency_control/dl_detect.cpp:81-91 | the update on leaving a node extends the minimum by exactly the nodes of the cycle and stops at its start |
| DlDetect.CycleIs | DBx1000/code/concurrency_control/dl_detect.cpp:62-80 | a cycle is a closed way on which every entry lists the transaction that the next thread still runs; entries of finished transactions do not count |
| DlDetect.NoCycle | DBx1000/code/concurrency_control/dl_detect.cpp:62-91 | when the finished nodes are in an order where each comes after all it waits for, no cycle can be reached from them |
| DlDetect.DlDetect.AddDep | DBx1000/code/concurrency_control/dl_detect.cpp:20-34 | the entry of the thread gets the transaction, its lock count and the new dependencies behind the old ones; no other entry changes |
| DlDetect.DlDetect.ClearDep | DBx1000/code/concurrency_control/dl_detect.cpp:143-154 | the entry of the thread becomes empty and stale; no other entry changes |
| AloneOptimistic.CommitsAlone | DBx1000/code/concurrency_control/occ.cpp:35-85 | from every reachable state where all are idle, a transaction can read and write any rows it wants, pass validation in whatever order the sort leaves equals, and commit with exactly its writes stored |
| AloneOptimistic.FreshReader | DBx1000/code/system/thread.cpp:93 | in every state of every run a transaction that starts now is given every unlatched row as it is |
| AloneOptimistic.AccessOutcome | DBx1000/code/concurrency_control/row_occ.cpp:17-30 | an access step hands out a copy exactly when the row was last written at or before start_ts, and otherwise the transaction gives up |
| OptimisticSafety.Serializable | DBx1000/code/concurrency_control/occ.cpp:64-82 | in every state of every run the transactions that drew end_ts are serializable in end_ts order, and every row nobody latches holds the value and stamp of the serial run |
| OptimisticSafety.DrawStep | DBx1000/code/concurrency_control/occ.cpp:69-75 | drawing end_ts under all latches commits: every value the transaction read is current, and its writes become the committed ones although they are stored later |
| OptimisticSafety.OtherReadsOk | DBx1000/code/concurrency_control/row_occ.cpp:17-43 | whoever is still validating has read nothing that the committing transaction writes, or will fail |
| OptimisticSafety.StepKeeps | DBx1000/code/concurrency_control/occ.cpp:36-85 | every step keeps the invariant that links latches, stamps, pending writes and the log |
| OptimisticLatches.NoLatchCycle | DBx1000/code/concurrency_control/occ.cpp:41-68 | the waits for latches never form a cycle |
| OptimisticLatches.SomebodyValidates | DBx1000/code/concurrency_control/occ.cpp:64-68 | in every state of every run, from any waiting validator the waits lead to one that holds a latch and has an enabled step |
| AccessOrder.SortAccesses | DBx1000/code/concurrency_control/occ.cpp:41-51 | the bubble sort yields a permutation in (table name, primary key) order |
| AccessOrder.LessIsOrder | DBx1000/code/concurrency_control/occ.cpp:43-45 | the comparison is a strict total order and the test of the sort is its converse |
| AccessOrder.LessByTable | DBx1000/code/concurrency_control/occ.cpp:43-45 | rows of one table are ordered by key alone, rows of different tables by the first character at which the names of their tables differ |
| ValidationSteps.ValidationIsSteps | DBx1000/code/concurrency_control/occ.cpp:35-85 | the validation of one transaction that nobody disturbs is a sequence of steps of the interleaved system with the same outcome: commit exactly when no accessed row was written after the start, then its writes stored with end_ts, otherwise no row changed, and no latch left |
| OptCC.PerRowValidate | DBx1000/code/concurrency_control/occ.cpp:35-85 | run alone, a transaction commits exactly when no accessed row was written after its start; then exactly its writes are stored with end_ts, otherwise no row changes, and no latch stays behind |
| OptCC.LatchAndValidate | DBx1000/code/concurrency_control/occ.cpp:60-68 | latches in order until a row fails and reports how many are held |
| OptCC.ReturnRows | DBx1000/code/system/txn.cpp:54-83 | only writes of a committing transaction reach their rows |
| OccRow.RowOcc.Access | DBx1000/code/concurrency_control/row_occ.cpp:17-32 | a copy of the row, refused when the row was written after the start |
| OccRow.RowOcc.Validate | DBx1000/code/concurrency_control/row_occ.cpp:39-43 | true exactly when the row was not written after the start |
| MultiversionReads.ReadOutcome | DBx1000/code/concurrency_control/row_mvcc.cpp:183-255 | in every state of every run a read is served exactly when a version has been written between every older pending prewrite and it, and refused only when it is not served and the buffer is full |
| MultiversionReads.PrewriteOutcome | DBx1000/code/concurrency_control/row_mvcc.cpp:183-265 | a prewrite is refused exactly when it falls between a served read and the version that read got, or when there is no room |
| MultiversionReads.RecycleOutcome | DBx1000/code/concurrency_control/row_mvcc.cpp:27-58 | histories of at most ten entries are left alone; otherwise at most one entry below the threshold stays in each, and the row keeps the newest version that went |
| MultiversionReads.ReadsNeverStale | DBx1000/code/concurrency_control/row_mvcc.cpp:183-279 | a read served at any time, at once or from the buffer, got the newest version at or below its timestamp among all versions written until any later time, and no prewrite is pending between |
| MultiversionReads.ReadVersionStays | DBx1000/code/concurrency_control/row_mvcc.cpp:281-299 | the version an active transaction read is never recycled or overwritten |
| MultiversionReads.RecycleIsInvisible | DBx1000/code/concurrency_control/row_mvcc.cpp:27-58 | recycling at a threshold changes no version lookup and no conflict test at or above it |
| MultiversionReads.BufferedReadsHaveCause | DBx1000/code/concurrency_control/row_mvcc.cpp:310-333 | every buffered read has an older prewrite pending, so the end of that prewrite releases it |
| MultiversionReads.StepKeeps | DBx1000/code/concurrency_control/row_mvcc.cpp:227-308 | every request and every recycling keeps the invariant of queues, histories and served reads |
| MultiversionReads.ReadSeesNewest | DBx1000/code/concurrency_control/row_mvcc.cpp:189-202 | a read that passes the conflict test gets a version no pending prewrite can come between |
| MultiversionReads.PrewriteMissesReads | DBx1000/code/concurrency_control/row_mvcc.cpp:203-225 | a prewrite that passes the conflict test falls between no served read and its version |
| MultiversionReads.ReleasedServed | DBx1000/code/concurrency_control/row_mvcc.cpp:310-333 | each read update_buffer serves gets the newest version for good |
| RowMvccSpec.LookupIsNewest | DBx1000/code/concurrency_control/row_mvcc.cpp:247-251 | the lookup returns the newest stored version at or below the timestamp, or the row when there is none |
| RowMvccSpec.LookupAfterInsert | DBx1000/code/concurrency_control/row_mvcc.cpp:158-181 | storing a version changes exactly the lookups at or above it that found an older one |
| RowMvccSpec.KeepLenCuts | DBx1000/code/concurrency_control/row_mvcc.cpp:35-51 | recycling keeps an entry below the threshold and removes only entries below it |
| RowMvccSpec.AnswerFresh | DBx1000/code/concurrency_control/row_mvcc.cpp:227-279 | every request keeps both histories strictly descending and no timestamp both buffered and recorded |
| RowMvcc.RowMvcc.Access | DBx1000/code/concurrency_control/row_mvcc.cpp:227-308 | the new row and the return code of each request, including the recycling after a success, the value a served reader gets, and the readers a write or a cancellation wakes with their values |
| RowMvcc.RowMvcc.UpdateBuffer | DBx1000/code/concurrency_control/row_mvcc.cpp:310-333 | exactly the buffered reads at or below all pending prewrites are recorded, given their version and woken |
| RowMvcc.RowMvcc.ConflictRead | DBx1000/code/concurrency_control/row_mvcc.cpp:183-225 | true exactly when an older prewrite is pending and no version lies between it and the read |
| RowMvcc.RowMvcc.ConflictPrewrite | DBx1000/code/concurrency_control/row_mvcc.cpp:203-225 | true exactly when a younger read is recorded and no version lies between |
| RowMvcc.RowMvcc.RecycleHistory | DBx1000/code/concurrency_control/row_mvcc.cpp:281-300 | long histories are cut at the threshold and the newest removed version becomes the row |
| RowMvcc.RowMvcc.ClearWrites | DBx1000/code/concurrency_control/row_mvcc.cpp:27-58 | removes the tail of the history and returns the newest version removed |
| RowMvcc.RowMvcc.InsertReadHistory | DBx1000/code/concurrency_control/row_mvcc.cpp:158-181 | a read is entered at its place in descending order |
| RowMvcc.RowMvcc.FindVersion | DBx1000/code/concurrency_control/row_mvcc.cpp:247-251 | the search returns the version the lookup defines |
| RequestQueues.Sift | DBx1000/code/concurrency_control/row_mvcc.cpp:133-152 | takes out exactly the requests at or below the bound, last first, and keeps the others in order |
| RequestQueues.TakeOut | DBx1000/code/concurrency_control/row_ts.cpp:97-111 | takes out the first request of the transaction and nothing else |
| RequestQueues.Smallest | DBx1000/code/concurrency_control/row_ts.cpp:133-150 | the smallest timestamp of a list, or the given maximum |
| MultiversionReads.AccessIsSteps | DBx1000/code/concurrency_control/row_mvcc.cpp:227-308 | one call of the row manager is one step of the row's system and one of recycling: same row, and the same versions for exactly the reads it releases |
| TimestampReads.ReadOutcome | DBx1000/code/concurrency_control/row_ts.cpp:157-176 | in every state of every run a read is refused exactly when a write with a larger timestamp was applied, buffered exactly when it was not and an older prewrite is pending, and served otherwise |
| TimestampReads.PrewriteOutcome | DBx1000/code/concurrency_control/row_ts.cpp:177-184 | a prewrite is refused exactly when a write with a larger timestamp was applied or a read with a larger timestamp was served |
| TimestampReads.OneWriterAtATime | DBx1000/code/storage/row.cpp:212-227 | in every state of every run at most one transaction with a pending prewrite has its value and not yet written |
| TimestampReads.WritesGoThrough | DBx1000/code/concurrency_control/row_ts.cpp:190-226 | a write is never buffered: it is stored at once with a larger timestamp than every earlier write |
| TimestampReads.AcceptedPrewriteReads | DBx1000/code/concurrency_control/row_ts.cpp:159-189 | the read after an accepted prewrite never aborts |
| TimestampReads.ReadsSeeNewest | DBx1000/code/concurrency_control/row_ts.cpp:159-291 | a read served at any time got the newest smaller write among all that are ever applied |
| TimestampReads.BufferedReadsHaveCause | DBx1000/code/concurrency_control/row_ts.cpp:243-263 | every buffered read is above the cached minimum, which is the timestamp of a pending prewrite |
| TimestampReads.StepKeeps | DBx1000/code/concurrency_control/row_ts.cpp:152-241 | every request keeps the invariant, in which the cached minima are exact and no write waits |
| TimestampReads.UpdateKeeps | DBx1000/code/concurrency_control/row_ts.cpp:243-291 | update_buffer after the oldest prewrite is gone restores the invariant |
| TimestampReads.AccessIsSteps | DBx1000/code/concurrency_control/row_ts.cpp:152-241 | one call of the row manager is one step of the row's system: same row, and the same value for exactly the reads it releases |
| AloneTimestamps.CommitsAlone | DBx1000/code/storage/row.cpp:195-244 | under MVCC and TIMESTAMP, from every reachable state where all are finished, a new transaction with a larger timestamp can read and write any rows it wants and commit: it reads what the rows hold, comes last in the log, and the rows then hold its writes and no other changes |
| TimestampOrder.Serializable | DBx1000/code/storage/row.cpp:195-244 | MVCC and TIMESTAMP over many rows: in every state of every run, running the committed transactions one after another by timestamp reads every value they read, and gives what a new reader finds in every row whose committed writes are stored |
| TimestampOrder.SawLast | DBx1000/code/system/txn.cpp:104-136 | every value a committed transaction read is what the last older writer in timestamp order leaves there |
| TimestampOrder.BlockedByOlder | DBx1000/code/storage/row.cpp:221-227 | whoever spins for a value waits for an older transaction that has not finished, so waits over any number of rows lead from younger to older ones |
| TimestampOrder.WaitsFall | DBx1000/code/storage/row.cpp:221-227 | along any path of waits the timestamps fall, so there is no circle |
| TimestampOrder.OldestProceeds | DBx1000/code/storage/row.cpp:195-244 | with room in the request queues the oldest unfinished transaction always has an enabled step |
| TimestampSafety.StepKeeps | DBx1000/code/storage/row.cpp:195-288 | every step of every transaction keeps the prewrites, buffered reads and versions of every row equal to what the transactions have announced, wait for and have written |
| TimestampSafety.ReturnKeeps | DBx1000/code/system/txn.cpp:53-98 | returning one access of a committing or aborting transaction keeps the invariant although its other rows are not returned yet |
| TimestampSafety.CommitKeeps | DBx1000/code/system/txn.cpp:154-167 | a transaction that turns to commit takes its place by timestamp in the log, before any of its writes is stored |
| RowTs.RowTs.Access | DBx1000/code/concurrency_control/row_ts.cpp:152-241 | the new row, the return code and the value every woken reader gets, for each request on all rows, including those where writes wait |
| RowTs.RowTs.UpdateBuffer | DBx1000/code/concurrency_control/row_ts.cpp:243-291 | the loop computes the specified rounds, and every waiting read is woken with the value the row has in the round that releases it |
| RowTs.RowTs.ReadRound | DBx1000/code/concurrency_control/row_ts.cpp:245-268 | one round up to its reads, and whether it goes on |
| RowTs.DropPrewrites | DBx1000/code/concurrency_control/row_ts.cpp:275-284 | the prewrites of all writes taken out go and the oldest write is found |
| AlonePartitions.FinishesAlone | DBx1000/code/system/thread.cpp:77-110 | from every reachable state where all are idle, a transaction can lock any partitions, read and write any rows there, and finish with exactly its writes stored |
| PartitionSerial.Serializable | DBx1000/code/system/thread.cpp:77-110 | in every state of every run, running the finished transactions one after another in the order they finished reads every value they read and gives the store, up to what the running transactions have done on their own partitions |
| PartitionSerial.FinishKeeps | DBx1000/code/system/thread.cpp:97-110 | a transaction that finishes joins the serial order without disturbing what the others have seen |
| PartitionRuns.RunsAlone | DBx1000/code/concurrency_control/plock.cpp:86-113 | in every state of every run a running transaction owns all its partitions, so no two running transactions share one |
| PartitionRuns.RefusedLeavesNoTrace | DBx1000/code/concurrency_control/plock.cpp:96-104 | ready_part is always the number of queues the transaction is in, and once a refused lock is undone the transaction is listed nowhere and ready_part is 0 |
| PartitionRuns.NoWaitCycle | DBx1000/code/concurrency_control/plock.cpp:26-42 | transactions never wait for each other in a circle over several partitions |
| PartitionRuns.OldestProceeds | DBx1000/code/concurrency_control/plock.cpp:86-113 | the oldest transaction that is not idle can always take its next step |
| PartitionRuns.StepKeeps | DBx1000/code/concurrency_control/plock.cpp:86-122 | every step keeps the invariant that links queues, claims and ready_part |
| PartLockSpec.LockKeeps | DBx1000/code/concurrency_control/plock.cpp:19-45 | a request that is not refused lists exactly the requester and keeps the owner older than the strictly sorted queue; a refused one changes nothing and is older than the owner |
| PartLockSpec.UnlockKeeps | DBx1000/code/concurrency_control/plock.cpp:47-74 | an unlock removes exactly that transaction, and only the first waiter leaves the queue with it |
| PartMan.PartMan.Lock | DBx1000/code/concurrency_control/plock.cpp:19-45 | owner, sorted waiter array, count, return code and ready_part as specified |
| PartMan.PartMan.Unlock | DBx1000/code/concurrency_control/plock.cpp:47-74 | the same for giving back, as owner or from the queue, with the ready_part of the promoted waiter or of the one that leaves |
| PartMan.PartMan.Insert | DBx1000/code/concurrency_control/plock.cpp:27-38 | the shifting loop enters the transaction at its place in the array |
| PartMan.PartMan.Remove | DBx1000/code/concurrency_control/plock.cpp:62-71 | the shifting loop takes exactly that transaction out of the array |
| IndexBtree.IndexBtree.IndexInsert | DBx1000/code/storage/index_btree.cpp:111-159 | the item goes in front of those stored under the key and nothing else changes; keys sorted, separators bounding, fanout below order, nodes half full, leaves equally deep, parent pointers and level chains right |
| IndexBtree.IndexBtree.SplitLfInsert | DBx1000/code/storage/index_btree.cpp:403-475 | the same when the leaf is full and the split climbs |
| IndexBtree.IndexBtree.InsertIntoParent | DBx1000/code/storage/index_btree.cpp:477-510 | from a tree in which one node has just been split, the climb ends in a valid tree that holds the same |
| IndexBtree.IndexBtree.SplitNlInsert | DBx1000/code/storage/index_btree.cpp:537-629 | the same from a full parent that has to take in one more child |
| IndexBtree.IndexBtree.CutInner | DBx1000/code/storage/index_btree.cpp:561-621 | the two halves, the key that moves up and the parents of the moved children are those of the specified split |
| IndexBtree.IndexBtree.CutLeaf | DBx1000/code/storage/index_btree.cpp:418-471 | the two leaves, the chain and the separator are those of the specified split |
| IndexBtree.IndexBtree.InsertIntoLeaf | DBx1000/code/storage/index_btree.cpp:381-401 | a present key gets the item in front of its list, a new key its place in the leaf |
| IndexBtree.IndexBtree.InsertIntoNewRoot | DBx1000/code/storage/index_btree.cpp:512-535 | the new root over the two halves |
| IndexBtree.IndexBtree.FindLeaf | DBx1000/code/storage/index_btree.cpp:309-379 | the descent ends in the leaf responsible for the key |
| IndexBtree.IndexBtree.IndexRead | DBx1000/code/storage/index_btree.cpp:85-109 | the items inserted under the key, newest first, exactly when there are any; the cursor then stands on the key |
| IndexBtree.IndexBtree.IndexNext | DBx1000/code/storage/index_btree.cpp:49-70 | moves to the smallest stored key above the cursor's and returns its items, nothing with samekey, and the null pointer exactly at the largest key |
| IndexBtree.IndexBtree.Scan | DBx1000/code/storage/index_btree.cpp:49-110 | index_read of a present key followed by index_next until the null pointer ends and returns the lists of exactly the stored keys at or above it, in ascending order and once each, each list newest first |
| IndexBtree.ScanVisitsAll | DBx1000/code/storage/index_btree.cpp:49-70 | a chain of next stored keys that goes on to the last one visits exactly the stored keys at or above its first |
| IndexBtree.Successor | DBx1000/code/storage/index_btree.cpp:456-460 | the entry after the last of a leaf is the first of its chain neighbour, and both are neighbours among all stored keys |
| BTreeSteps.OneNode | DBx1000/code/storage/index_btree.cpp:330-337 | on every level exactly one node is responsible for a key |
| BTreeSteps.EqualDepth | DBx1000/code/storage/index_btree.cpp:477-510 | all ways from the root to a leaf are equally long |
| BTreeSteps.PutRepresents | DBx1000/code/storage/index_btree.cpp:381-401 | storing an item in the responsible leaf extends what the tree holds by exactly that item |
| BTreeSteps.SplitLeafKeeps | DBx1000/code/storage/index_btree.cpp:436-471 | splitting a leaf leaves every range, parent and chain right except that the parent does not know the new leaf yet |
| BTreeSteps.SplitInnerKeeps | DBx1000/code/storage/index_btree.cpp:584-621 | the same for an inner node whose children move |
| BTreeSteps.PutKidKeeps | DBx1000/code/storage/index_btree.cpp:489-502 | once the parent takes in the new node the tree is valid again |
| BTreeSteps.GrowRootKeeps | DBx1000/code/storage/index_btree.cpp:512-535 | once the new root is in place the tree is valid again |
| BTreeArrays.ShiftInner | DBx1000/code/storage/index_btree.cpp:493-502 | with a signed counter the loop makes room for one key and one pointer |
| BTreeArrays.ShiftLeaf | DBx1000/code/storage/index_btree.cpp:392-397 | the loop makes room for one entry of a leaf |
| UnsignedLoop.ParentLoopEnds | DBx1000/code/storage/index_btree.cpp:493-502 | on every tree where a node was split below a parent with room, the loop with the unsigned counter ends exactly when that node is not the leftmost child |
| UnsignedLoop.LoopWithoutEnd | DBx1000/code/storage/index_btree.cpp:493-502 | with order 3, the keys 7, 6, 5, 4 and 3 lead to the loop that does not end |
| UnsignedLoop.SearchReadsPast | DBx1000/code/storage/index_btree.cpp:489-491 | the search reads past the stored keys exactly when the key is above all of them, that is when the last child was split, and outside the array exactly when the parent is full as well |
| UnsignedLoop.UnsignedLoopEnds | DBx1000/code/storage/index_btree.cpp:494-497 | with the unsigned counter of the code the loop ends exactly when the insertion index is not 0 |
| IndexHash.IndexHash.IndexInsert | DBx1000/code/storage/index_hash.cpp:40-54 | the item goes in front of those stored under the key and nothing else changes |
| IndexHash.IndexHash.IndexRead | DBx1000/code/storage/index_hash.cpp:56-70 | the items inserted under the key, newest first, exactly when there are any |
| IndexHash.BucketHeader.InsertItem | DBx1000/code/storage/index_hash.cpp:97-125 | the key's list grows at the front and no other key's list changes |
| IndexHash.BucketHeader.ReadItem | DBx1000/code/storage/index_hash.cpp:127-137 | the list of the key in the chain |
| IndexHash.IndexesAgree | DBx1000/code/storage/index_hash.cpp:97-137 | after the same inserts both indexes hold the same list for every key |
| Inserts.HoldsWhatWasInserted | DBx1000/code/storage/index_btree.cpp:381-389 | an item is in the list of a key exactly when it was inserted under it |
| Inserts.StandsBehindLater | DBx1000/code/storage/index_btree.cpp:381-389 | each inserted item stands in the list of its key behind exactly as many items as were inserted under the key after it |
| Inserts.AsManyAsInserted | DBx1000/code/storage/index_btree.cpp:381-389 | the list is as long as the number of inserts under the key |
| OrderIlp.IlpIsExact | ILPsolvers/code/gurobi/generate_ilp.cpp:60-106 | for fewer than 10000 statements the ranks of solutions are exactly the distinct ranks in range that put every definition before its use and keep every other definition out of the stretch between |
| OrderIlp.BoundIsNeeded | ILPsolvers/code/gurobi/generate_ilp.cpp:62-70 | from 10000 statements on there are legal ranks without a solution |
| OrderIlp.EmitRows | ILPsolvers/code/gurobi/generate_ilp.cpp:60-80 | the printing loops emit the specified rows in order |
| OrderIlp.RowsHold | ILPsolvers/code/gurobi/generate_ilp.cpp:62-80 | an assignment meets the program exactly when it meets the rows of every pair, every dependency and every triple |
| StraightLine.OrdersAreExact | quro/code/CBlocks.cpp:781-824 | an order of distinct ranks keeps every read exactly when its ranks are legal and every block that reads an initial value stays before all that overwrite it |
| InitialReads.SolutionsComputeTheSame | quro/code/CBlocks.cpp:781-824 | when the constraints put every read of an initial value before the blocks that overwrite it, as is the case when nobody overwrites it, every block computes in the order of any solution what it computed before |
| InitialReads.KeptExactlyWhenImplied | quro/code/CBlocks.cpp:781-824 | all orders the integer program allows keep all reads exactly when every legal choice of ranks puts each read of an initial value before all overwriters |
| InitialReads.GuardIsExact | quro/code/CBlocks.cpp:781-824 | the derivable precedences suffice for that, and are necessary when the constraints have no triples |
| InitialReads.ReadsAreExact | quro/code/CBlocks.cpp:795-824 | an order keeps the definitions every block reads from exactly when, whatever the blocks compute, every block finds the values it found before |
| StraightLine.KeptOrdersComputeTheSame | quro/code/CBlocks.cpp:781-824 | in the order of any solution that keeps the reads of initial values first, every block computes what it computed before |
| StraightLine.ReorderedComputesTheSame | quro/code/CBlocks.cpp:795-824 | an order in which every block reads from the same definitions lets every block compute what it computed before, whatever the blocks do |
| InitialReads.InitialReadUnprotected | quro/code/CBlocks.cpp:817-821 | a program and a legal order in which a block no longer reads the initial value it read before |
| StraightLine.ConstraintRules | quro/code/CBlocks.cpp:781-824 | the two kinds of pairs and the triples, in terms of what the blocks use, define and have entries for |
| StraightLine.OutputConstraints | quro/code/CBlocks.cpp:781-824 | the loops output exactly the pairs and triples the definition maps call for |
| StraightLine.RdsOf | quro/code/CBlocks.cpp:795-823 | for one block: a triple for every use, its definition and every other definition of the variable |
| StraightLine.DepsOf | quro/code/CBlocks.cpp:781-794 | for one block: a pair for every earlier block that may define what it uses |
| QueryScheduler.Schedule | quro/code/CBlocks.cpp:828-859 | the loop ends with a permutation of the queries in which every position holds a ready query of least conflict index |
| QueryScheduler.ParentsOf | quro/code/CBlocks.cpp:697-727 | the parents are the earlier queries that define something the query uses, directly or through blocks that are not queries |
| QueryScheduler.QueriesBelow | quro/code/CBlocks.cpp:710-723 | the search ends and finds exactly the queries that lead to the block |
| QueryScheduler.DefinersComeFirst | quro/code/CBlocks.cpp:828-859 | in the greedy order a query comes after every query that a way of uses and definitions leads to |
| QueryScheduler.ParentIsWay | quro/code/CBlocks.cpp:695-735 | the parents of a query are the queries it uses directly and those some way leads to from a used block that is not a query |
| QueryScheduler.BelowIsWay | quro/code/CBlocks.cpp:695-735 | depending on a block means that there is a way of uses and earlier definitions to it |
| QueryScheduler.GreedyRespects | quro/code/CBlocks.cpp:828-859 | no query comes before one it depends on, also through other blocks |
| QueryScheduler.SomebodyReady | quro/code/CBlocks.cpp:829-858 | as long as a query is left some query is ready |
| QueryScheduler.OrdersAgree | quro/code/CBlocks.cpp:826-859 | two orders that respect the dependencies end in the same state when unrelated queries commute |
| QueryScheduler.ScheduleComputesTheSame | quro/code/CBlocks.cpp:826-859 | the greedy order ends in the state of the original order when unrelated queries commute |
| DepClosure.PropagateAll | quro/code/CBlocks.cpp:662-665 | the pass over all blocks ends and leaves each with exactly the blocks it reaches in the original relation, though later blocks search through closed lists |
| DepClosure.PropagateDep | quro/code/QueryBlock.cpp:784-803 | the search from one block ends with exactly the blocks it reaches, leaving out itself |
| DepClosure.GroupsAreComponents | quro/code/CBlocks.cpp:662-665 | with the symmetric relation, blocks that depend on each other have the same group |
| DepClosure.PairRules | quro/code/QueryBlock.cpp:661-781 | two blocks are paired exactly when, under a common condition, one changes what it tests, or under a common loop one uses what the other defines, in this round or the next, or the earlier one defines what a condition between loop and later block tests |
| DepClosure.SelfRule | quro/code/QueryBlock.cpp:676-714 | a block is paired with itself exactly when it changes a condition around it |
| DepClosure.SetAll | quro/code/CBlocks.cpp:662-663 | the relation is symmetric and holds exactly the pairs the rules call for |
| DepClosure.SetDepBlocks | quro/code/QueryBlock.cpp:661-781 | one block enters exactly its pairs, each on both sides |
| DepClosure.TestLoop | quro/code/QueryBlock.cpp:711-762 | two blocks of a loop stick together when one defines what the other, or a condition further in, uses |

## Left out

- RowMvcc.RowMvcc.Access: the smallest active timestamp is a parameter; freeing of recycled rows is not modelled, memory is garbage-collected.
- OptCC.PerRowValidate: describes one transaction alone and takes end_ts as a parameter; ValidationSteps.ValidationIsSteps puts the same steps into the interleaved system, whose protocol is OptimisticSafety.Serializable.
- DlDetect.DlDetect.DetectCycle: speaks about a graph that is frozen during the search; edges that change meanwhile are not modelled.
- IndexBtree.IndexBtree.IndexInsert: tree nodes are records in a sequence, named by number, and their arrays are sequences; the shifting loops over arrays are BTreeArrays.ShiftLeaf and BTreeArrays.ShiftInner.
- IndexBtree.IndexBtree.IndexRead: a failed assertion that the key exists is the result None; so it is in the hash index.
- InitialReads.SolutionsComputeTheSame: holds for straight-line transactions; for branches and loops the definition maps are only an approximation, and final values of variables nobody reads are not claimed.
- InitialReads.GuardIsExact: necessary only without triples; with them, deciding whether a precedence holds in all legal orders is a search over the choices each triple leaves open.
- DeadlockGraph.RealCyclesAreFound: misses no real deadlock, but a cycle found may be over, because entries stay until cleanup; the victim then aborts for nothing.
- PartitionSerial.Serializable: rows are written in place and never rolled back, as in the code; a transaction that gives up by its own choice keeps its writes.
- OrderIlp.EmitRows: the rows of the program; its objective, the sum of the ranks weighted by conflict indexes, and which of the feasible orders a solver returns are not modelled.
- QueryScheduler.Schedule: takes the queries as sorted by the library sort, with equals in any order.
- A restored image and the release of its lock are one step, as are taking a latch and validating under it: nobody else can see the moment between.
- A scan access locks and behaves like a read.
- Timestamps are not renewed or reused by a transaction that is still live; the order in which restarted transactions draw them is not modelled.
- The fields min_wts and preq_len of the timestamp row manager, which nothing reads, and the counters of statistics.
- Inserted rows and their removal on abort, the central validation of the optimistic scheme, and the VLL scheme.
- Latches and the latch bookkeeping of the B+ tree, which are switched off, and the choice of the partition: one partition is modelled.
- Batch allocation of timestamps, clocks, timeouts, random back-off, thread start-up and memory allocation.
- Parsing of C++ and SQL, reading and printing of the text files between the two QURO programs, the solver calls, reaching definitions, placement of blocks that are not queries, variable renaming and code generation.
- Benchmarks, query generators and configuration.
