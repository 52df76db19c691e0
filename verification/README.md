# Kernel data structures and protocols of Linux 2.4.20, in Dafny

This project models the parts of a Linux 2.4.20 tree where a small amount of C keeps a large
promise, and proves the promises. Each part has two layers: a value-level layer (datatypes,
functions and lemmas about all inputs, all runs or all reachable states), and a class whose
methods make the kernel's in-place updates, loop by loop, and are proved to do what the
value-level layer says. Code between two points where the kernel lets go of a lock is one step;
sleeping is the end of a step.

| files | part of the kernel | main results |
|---|---|---|
| LockRanges, LockScan, LockEdit, LockWalk, LockWraps, LockLeftovers, LockWakes, LockWaits, LockSystem, LockTable | POSIX record locks, `fs/locks.c` | the list edit is an overwrite of a per-byte map, and wakes the waiters of exactly the locks that shrank or went; no byte is ever under conflicting locks and waits stay acyclic, in every run; lists stay canonical until a request wraps |
| SemLedger, SemLive, SemCalls, SemCaps, SemSet | System V semaphores, `ipc/sem.c` | operation arrays are all or nothing; values and undo adjustments balance over whole runs; which wake-ups can be lost, and which cannot |
| MsgQueues, MsgRuns, MsgTable | System V message queues, `ipc/msg.c` | every message is in exactly one place; who gets a message that is sent, and what a receiver gets, told from its own arguments; counters are sums |
| Forests, TreeLayout, MountTree, MountMoves, MountCopy, MountNamespace | the mount tree, `fs/namespace.c` | moving and pivoting keep a forest and its indexes, with exact conditions, and move nothing else; `copy_tree` builds the mirror image |
| DentryCache, DentryFrees, DentryTable | the dentry cache, `fs/dcache.c` | exactly which dentries `dput` and `prune_dcache` free; `shrink_dcache_parent` ends, and leaves below the parent exactly the dentries that someone holds or needs |
| DentryMoves, DentryHash, DentryRename | `d_move`, the dentry hash and rename, `fs/dcache.c`, `fs/namei.c` | lookups agree with a plain search before and after; the exact condition for the tree to survive; a rename frees exactly its target |
| SeqFile | sequential files, `fs/seq_file.c` | reads of any sizes join to the text of the records; seeks continue from the byte sought |
| BufferLists, BufferLru | buffer LRU lists, `fs/buffer.c` | circular lists through links, with counts and sizes; the write-out walk visits each dirty buffer once and collects exactly those due |
| QuotaLedger, QuotaMoves, QuotaLimits, QuotaClocks, QuotaTable | disk quotas, `fs/dquot.c` | charges, inodes and references balance over whole runs, with the exact condition for each step; when a request is refused; limits and grace times over whole runs |
| Pids | `get_pid`, `kernel/fork.c` | the cached range finds the id a plain search finds; fresh ids in every run until a call fails, with the exact condition under which they stay so; when the search ends |
| ArgPages, ElfStack, ExecImage | argument pages, `fs/exec.c`, `fs/binfmt_script.c`, `fs/binfmt_elf.c` | from execve to the new stack: the program finds exactly its arguments and environment, also behind a script |
| Pipes, PipeRuns, PipeTurns | pipes, `fs/pipe.c` | bytes come out in the order they went in, under any interleaving; small writes stay in one piece |
| Lists, Options, Sums | helpers | lists of addresses, optional values, and sums over sequences |

Buffers, mounts, dentries, dquots and messages are named by numbers that stand for their
addresses; 0 is NULL where the code tests for it. Intrusive lists are sequences, except the
buffer lists, which keep their links. Hash functions are arbitrary functions.

Eight properties do not hold of the code without a condition. Each has its exact condition,
over the state or the arguments before the call, and an input for which it fails:

- `fl_end + 1` wraps at `fs/locks.c:930` for a request that runs to the largest offset. The byte map,
  read first lock first, is overwritten all the same. The list stays canonical exactly if the request
  does not wrap, and every byte keeps a single type exactly if there is also no lock of another type
  behind the first lock of the same type that the request touches (`LockWalks.EditOverwrites`,
  `LockLeftovers.WrapExample`). On a list left so, a later unlock of one byte can leave it locked
  (`LockLeftovers.UnlockExample`), and a lock can end up ending before it starts, which covers no byte
  but still blocks other owners (`LockLeftovers.EmptyLockExample`, `LockLeftovers.EmptyLockBlocks`). That
  no byte is under conflicting locks holds all the same, in every run (`LockSystem.RunKeepsInv`); it is
  stated byte by byte because of such empty locks.
- The undo ledger is broken by an exit exactly when the clamp at `ipc/sem.c:1044` fires
  (`SemLedger.ExitKeeps`, `SemLedger.ClampExample`).
- A semaphore value stays within SEMVMX in every run, except that an exit keeps it there exactly when
  the adjustments it applies do, which sem_exit does not look at (`SemCaps.RunCapped`,
  `SemCaps.ExitCapped`, `SemCaps.OverfullExample`).
- `update_queue` goes through the sleepers once. Whenever a sleeper could go on, one that can has been
  told, in every run whose arrays lower some value or only wait for zeros (`SemLive.RunLive`). With any
  other array that can be done at all there is a queue in which it wakes its own sleeper and leaves one
  asleep that could go on (`SemLive.RaiserLoses`, `SemLive.LostExample`). The theorem also takes that a task
  which dies while it is asleep in semop has adjustments in that set to apply.
- `pivot_root` keeps the mount tree exactly when both roots are attached and the current one is not
  below the new one (`MountMoves.PivotExactly`, `MountMoves.PivotExample`).
- `d_move` keeps the dentry tree exactly when neither dentry is below the other; what
  `vfs_rename_dir` checks is not enough by itself (`DentryMoves.MovedTree`,
  `DentryMoves.CheckNotEnough`).
- Quota counters are cut off at 0 when lowered, and the ledger then no longer balances
  (`QuotaLedger.FreeBalanced`, `QuotaLedger.FreeExample`, `QuotaMoves.TransferBalanced`,
  `QuotaMoves.TransferExample`).
- `get_pid` hands out ids in use by no task as long as the cached range is right. A call that returns 0
  leaves a right range exactly under the condition `Pids.LeavesNone`, which looks at processes before the
  first one with the id below the last one given out (`Pids.FailedExactly`). Otherwise the very next call
  returns an id that is in use (`Pids.FailedNext`, `Pids.CrowdedExample`). A later scan makes the range
  right again (`Pids.ScanRestores`).

The search of `get_pid` ends exactly under the condition `Pids.Ends`: started below 300 with every higher
id in use, it would go round for ever (`Pids.NeverEnds`).

Where a comment and the code differ, the model follows the code. The clamp that
`ipc/sem.c:1045` says should not happen can fire, and `SemLedger.ExitKeeps` says what it costs.
`fs/dcache.c:524-529` speaks of the children of one parent, but `prune_dcache` frees from the tail
of the common list, and spares referenced dentries without counting them, so unused dentries
elsewhere may go as well; the theorems about it are about the whole cache.

`dafny verify dfyconfig.toml` checks the whole project.

## Model

| member | source | states |
|---|---|---|
| `LockRanges.ConflictIsByteConflict` | fs/locks.c:541-575 | two locks conflict iff they have different owners, one of them writes, and some byte is in both |
| `LockRanges.CanonicalMeaning` | fs/locks.c:910-917 | in a canonical list every lock covering a byte agrees on its type, so the list means a map from (owner, byte) to type |
| `LockRanges.RegroupCanonical` | fs/locks.c:910-1024 | replacing the contiguous group of one owner by any sorted, disjoint, merged group keeps the list canonical |
| `LockRanges.RegroupMeaning` | fs/locks.c:910-1024 | such a replacement changes the byte map of that owner only, to that of the new group |
| `LockScan.JoinMeaning` | fs/locks.c:919-1024 | wherever the walk stops, the kept lower part, the caller lock and the kept upper part form one group whose byte map is the old one overwritten on the requested range |
| `LockScan.StepMerge` | fs/locks.c:924-951 | absorbing an adjacent or overlapping lock of the same type keeps the state of the walk |
| `LockScan.StepReplace` | fs/locks.c:957-992 | replacing a wholly covered lock of another type keeps the state of the walk |
| `LockEdits.TurnGoes` | fs/locks.c:921-998 | on any list, in order or not, a turn of the walk keeps: every byte under a lock was under such a lock or is requested, what shrank or went has its waiters woken, identities are distinct |
| `LockEdits.EditAccounted` | fs/locks.c:910-1024 | the same of the whole edit of any list |
| `LockWakes.EditWakes` | fs/locks.c:910-1024 | on any list, the waiters of a lock are woken iff the lock is not there any more with its type and at least its bytes |
| `LockWalks.WalkedAt` | fs/locks.c:919-998 | on a canonical list the walk absorbs a stretch of the owner's group and stops past it, or breaks off because the end of the request wraps |
| `LockWalks.ClosedAt` | fs/locks.c:1000-1024 | the list is then what is kept below, the new lock, and what is kept above, one old lock split in two if it sticks out on both sides |
| `LockWalks.EditOverwrites` | fs/locks.c:910-1024 | the edit of a canonical list always overwrites its map on the request, for its owner only; the list is canonical iff the request does not wrap, and gives every byte one type iff it does not clash |
| `LockWraps.OverrunResult` | fs/locks.c:924-1007 | after a wrap: overwritten as asked, never canonical, and of one type per byte iff no lock of another type lies behind the first lock of the same type touched |
| `LockLeftovers.WrapExample` | fs/locks.c:930 | read-locking the whole file over locks [10,20] read and [30,40] write leaves three locks: byte 35 under two types, and another owner's read of it refused |
| `LockLeftovers.UnlockExample` | fs/locks.c:957-1024 | unlocking byte 35 of that list leaves it write-locked |
| `LockLeftovers.EmptyLockExample` | fs/locks.c:919-1024 | five calls, the first of which wraps, leave a write lock that ends before it starts |
| `LockLeftovers.EmptyLockBlocks` | fs/locks.c:541-575 | it covers no byte, but another owner's read across both its ends is refused |
| `LockTables.LockTable.WakeUpBlocks` | fs/locks.c:439-458 | exactly the waiters of the given lock leave the block list; that no two locks share an identity is part of the invariant of runs |
| `LockTables.LockTable.VisitSame` | fs/locks.c:924-951 | the branches at a lock of the same type make the turn of the walk, on any list, and wake the waiters of what they delete |
| `LockTables.LockTable.VisitOther` | fs/locks.c:957-992 | so do the branches at a lock of another type |
| `LockTables.LockTable.WalkLocks` | fs/locks.c:910-998 | the two loops walk the list to where the edit says |
| `LockTables.LockTable.Finish` | fs/locks.c:1000-1024 | insertion, second piece and cuts give the edited list, waking the waiters of what is cut |
| `LockTables.LockTable.Apply` | fs/locks.c:910-1036 | the list becomes its edit, of any list; of a canonical one it is overwritten, canonical iff no wrap, of one type per byte iff no clash |
| `LockTables.LockTable.PosixLocksDeadlock` | fs/locks.c:663-689 | ends, and reports a deadlock iff the caller is reachable from the blocker along waiting owners |
| `LockTables.LockTable.PosixLockFile` | fs/locks.c:860-1036 | conflict, deadlock, sleep and grant exactly as the call relation says, in any state runs can reach |
| `LockTables.LockTable.LeaveBlockLists` | fs/locks.c:398-405 | a sleeper that runs again leaves the block lists and nothing else changes |
| `LockTables.LockTable.RemovePosix` | fs/locks.c:1719-1748 | the restarting loop leaves exactly the locks of other files, in order, and wakes the waiters of what went |
| `LockWaits.ChainsEndAcyclic` | fs/locks.c:663-689 | if every chain of waiting owners ends, no owner waits for itself at any distance |
| `LockWaits.OneMoreWaiter` | fs/locks.c:884-899 | a sleeper not reachable from its blocker adds no cycle |
| `LockWaits.FewerWaiters` | fs/locks.c:439-458 | waking sleepers adds no cycle |
| `LockSystem.GrantedSafe` | fs/locks.c:884-1024 | the edit of any list by a request that passed the conflict scan leaves no byte under conflicting locks of two owners |
| `LockSystem.SafeCompatible` | fs/locks.c:884-891 | then the map has no byte with conflicting owners either |
| `LockSystem.NotOfErases` | fs/locks.c:1719-1748 | a close erases the map of its owners and nothing else, of any list |
| `LockSystem.LockCallKeeps` | fs/locks.c:860-1036 | a lock call, wrapping or not, keeps bytes safe, every sleeper in real conflict, identities distinct and waits acyclic |
| `LockSystem.LeaveCallKeeps` | fs/locks.c:613-621 | so does a sleeper running again |
| `LockSystem.CloseCallKeeps` | fs/locks.c:1719-1748 | so does a close |
| `LockSystem.RunKeepsInv` | fs/locks.c:860-1036 | all of that holds in every state of every run of lock calls, wake-ups and closes |
| `LockSystem.NextOrderly` | fs/locks.c:860-1036 | from canonical lists, a step leaves canonical lists iff it does not grant a request that wraps |
| `LockSystem.RunOrderly` | fs/locks.c:860-1036 | the lists are canonical in every run until a request that wraps has been granted |
| `SemLedger.VerdictOk` | ipc/sem.c:243-290 | an operation array succeeds iff the verdict on each operation, after the ones before it, is that it can be done |
| `SemLedger.VerdictMeans` | ipc/sem.c:243-290 | it succeeds iff in turn every wait for zero finds zero, every value stays within 0 and SEMVMX and every adjustment to keep within a short; otherwise the first operation that cannot be done decides: out of range, or a wait, which is EAGAIN with IPC_NOWAIT |
| `SemLedger.LegalStaysInRange` | ipc/sem.c:243-290 | a legal array never takes a value below 0 or, if it touches it, above SEMVMX, or an adjustment out of range, at any prefix |
| `SemLedger.AttemptResidue` | ipc/sem.c:243-312 | an attempt, successful or not, keeps value plus adjustments minus completed operations without undo |
| `SemLedger.UpdateResidue` | ipc/sem.c:317-343 | so does running through the queue of sleepers |
| `SemLedger.SemopKeeps` | ipc/sem.c:840-978 | so does semop, whether it completes, fails or sleeps |
| `SemLedger.ResumeKeeps` | ipc/sem.c:937-971 | so does a sleeper running again |
| `SemLedger.ExitKeeps` | ipc/sem.c:992-1055 | exit keeps values non-negative, and keeps that sum iff the clamp does not fire |
| `SemLedger.SetValKeeps` | ipc/sem.c:635-651 | SETVAL keeps the set well-formed and non-negative, leaves that sum of every other semaphore alone, and starts that of its own afresh from the new value |
| `SemLedger.SetAllKeeps` | ipc/sem.c:562-597 | SETALL does the same for all semaphores at once, or changes nothing if it is refused |
| `SemLedger.RunNonNegative` | ipc/sem.c:243-343 | no semaphore value is negative in any state of any run |
| `SemLedger.RunBalances` | ipc/sem.c:243-343 | in a run that neither sets nor clamps semaphore j, whatever it does to the others, its value plus all adjustments is the initial value plus the operations completed without SEM_UNDO |
| `SemLedger.ClampExample` | ipc/sem.c:1037-1046 | a run in which the clamp fires: a release with undo, a take without, and the exit of the first process |
| `SemLive.UpdateExactly` | ipc/sem.c:317-343 | among arrays that lower a value or only wait for zeros: update_queue goes up to the first sleeper that lowers a value and could go on, tells it to try, finishes or fails those before it that need not sleep, and changes no value |
| `SemLive.UpdateLive` | ipc/sem.c:317-343 | after it, no sleeper that has not been woken could go on, or one that was told to try can |
| `SemCalls.SemopMeans` | ipc/sem.c:840-936 | semop returns 0 iff every operation can be done in turn, and then they are done: values and adjustments differ by them, and else only by arrays done on behalf of sleepers; it sleeps only if the first that cannot must wait, queued behind the others, or before them if it only waits for zeros |
| `SemCalls.ResumeMeans` | ipc/sem.c:937-971 | a task that has run has left the queue, with its array done iff it was told to try and can; or it waits to be told again with nothing else changed |
| `SemCalls.SetValMeans` | ipc/sem.c:635-651 | SETVAL out of range changes nothing; otherwise, among arrays that lower a value or only wait for zeros, that value is set, its adjustments are 0, and all else is as before |
| `SemCalls.SetAllMeans` | ipc/sem.c:562-597 | likewise SETALL for all semaphores at once |
| `SemCalls.ExitMeans` | ipc/sem.c:992-1055 | the process is off the queue; among such arrays each value has its adjustment added, but is not below 0, its adjustments are gone and those of others are as before |
| `SemLive.StepLive` | ipc/sem.c:317-978 | semop, resuming, exit, SETVAL and SETALL keep that whenever a sleeper could go on, one that can has been told |
| `SemLive.RunLive` | ipc/sem.c:317-978 | so it holds in every state of every run of such arrays: no wake-up is lost |
| `SemLive.RaiserLoses` | ipc/sem.c:317-343 | with any array that raises a value, lowers none and can be done, there is a queue of two in which update_queue leaves a sleeper asleep that could go on, and tells nobody |
| `SemLive.LostExample` | ipc/sem.c:317-343 | a run of three calls in which that happens |
| `SemCaps.StepCapped` | ipc/sem.c:243-343 | every step keeps all values within SEMVMX, an exit if its adjustments do |
| `SemCaps.RunCapped` | ipc/sem.c:243-343 | so they are in every state of a run without such an exit |
| `SemCaps.ExitCapped` | ipc/sem.c:1037-1046 | an exit keeps them within SEMVMX iff value plus adjustment is, for every semaphore |
| `SemCaps.OverfullExample` | ipc/sem.c:1037-1046 | a run in which a value ends above SEMVMX: a take with undo from a full semaphore, a release by another process, and the exit of the first |
| `SemSets.SemSet.RollBack` | ipc/sem.c:300-309 | the backward loop restores all values and adjustments, also with repeated semaphores |
| `SemSets.SemSet.TryAtomicSemop` | ipc/sem.c:243-312 | returns 0 iff in turn every wait for zero finds zero and every value and adjustment stays in range, and otherwise says why the first operation fails that does; values and adjustments change by the sums of the operations on success, and not at all otherwise or when only trying |
| `SemSets.SemSet.UpdateTheQueue` | ipc/sem.c:317-343 | the loop over sleepers, going on behind each one it removes; among arrays that lower a value or only wait for zeros it stops at the first it can tell to try, and then whenever a sleeper could go on, one that can has been told |
| `SemSets.SemSet.SysSemop` | ipc/sem.c:840-936 | argument errors, undo allocation and first attempt; 0 iff every operation can be done in turn, and then they are done; asleep only if the first that cannot must wait, and then only the queue has changed |
| `SemSets.SemSet.WakeUp` | ipc/sem.c:937-971 | the sleep loop, from being scheduled to returning or sleeping again; the process has left the queue, with its array done iff it was told to try and can, or waits to be told again |
| `SemSets.SemSet.SemExit` | ipc/sem.c:992-1055 | leaving the queue, applying and dropping the adjustments, and updating the queue; what that makes of every value and adjustment |
| `SemSets.SemSet.SemctlSetVal` | ipc/sem.c:635-651 | the loop that clears one adjustment everywhere, the new value, and the update of the queue; what that makes of every value and adjustment, or nothing if out of range |
| `SemSets.SemSet.SemctlSetAll` | ipc/sem.c:562-597 | the same for all semaphores, or nothing if one value is out of range |
| `MsgQueues.SearchIsBest` | ipc/msg.c:754-769 | the search finds the first match, or for a negative type the first message of the lowest type not above the bound |
| `MsgQueues.ConvertMeans` | ipc/msg.c:709-726 | the mode and type searched for match a message iff the type asked for does: 0 any, negative at most its absolute value, positive equal, or unequal with MSG_EXCEPT; the least long matches none |
| `MsgQueues.SearchChooses` | ipc/msg.c:709-769 | so the search finds the first message the caller asked for, or of the lowest type for a negative one |
| `MsgQueues.TryReceiveMeans` | ipc/msg.c:754-815 | a receive returns that message, cut to the size asked for, or E2BIG, or no message, or sleeps, with exactly that change to the queue and the counters |
| `MsgQueues.PipelineExact` | ipc/msg.c:600-624 | the message goes to the first listed receiver that matches and has room; every matching one before it leaves with E2BIG, all others stay listed, in order, and no other sleeper is told anything |
| `MsgQueues.ReceiverWakesMeans` | ipc/msg.c:818-843 | a receiver that slept returns the message it was handed, or E2BIG, or EIDRM; told nothing it leaves the list and returns EINTR, or asks again |
| `MsgQueues.SenderWakesMeans` | ipc/msg.c:668-683 | a sender that slept finds its queue gone, or a signal, or room, or none, and its message is freed, sent or still with it accordingly |
| `MsgRuns.TrySendKeeps` | ipc/msg.c:626-707 | a send keeps the whole invariant of the facility: one place per message, no unserved match, right counters |
| `MsgRuns.SenderWakesKeeps` | ipc/msg.c:668-683 | so does a sleeping sender running again, also when its queue is gone |
| `MsgRuns.ReceiveKeeps` | ipc/msg.c:728-815 | so does a receive that takes a message or goes to sleep |
| `MsgRuns.ReceiverWakesKeeps` | ipc/msg.c:818-843 | so does a sleeping receiver running again, and the case the code calls a bug cannot arise |
| `MsgRuns.RemoveQueueKeeps` | ipc/msg.c:281-301 | so does removing a queue with sleepers on both sides |
| `MsgRuns.RunKeepsInv` | ipc/msg.c:600-849 | the invariant holds in every state of every run, and no receiver is ever stranded |
| `MsgRuns.DeliverMeans` | ipc/msg.c:686-696 | a message that is sent is handed to the first sleeper whose own call asks for it and has room, or is the last on the queue |
| `MsgRuns.SendRoom` | ipc/msg.c:647-667 | a send is refused or sleeps iff the messages queued and this one exceed the limit in bytes or in number |
| `MsgRuns.ReceiverGets` | ipc/msg.c:818-843 | in any state runs can reach, a message a woken receiver gets is one its own call asked for, cut to its size |
| `MsgTables.MsgTable.PipelinedSend` | ipc/msg.c:600-624 | the hand-off loop: the message goes to the first listed receiver that matches and has room, matching ones before it leave with E2BIG, all others stay as they are |
| `MsgTables.MsgTable.SendLoaded` | ipc/msg.c:647-707 | from the first look at the queue: refuse, sleep, hand off or enqueue, with all counters |
| `MsgTables.MsgTable.SysMsgsnd` | ipc/msg.c:626-707 | the whole call up to its return or sleep: refused iff size or type is out of range or there is no queue, sent iff there is room, else EAGAIN or asleep |
| `MsgTables.MsgTable.SenderResumes` | ipc/msg.c:668-683 | the sleeper's second half: queue gone, signal, sent or asleep again, each exactly when that is so |
| `MsgTables.MsgTable.FindMessage` | ipc/msg.c:754-769 | the search loop with its moving bound returns the best message |
| `MsgTables.MsgTable.ReceiveFrom` | ipc/msg.c:754-815 | take the message found, or refuse, or register as a receiver |
| `MsgTables.MsgTable.SysMsgrcv` | ipc/msg.c:709-815 | the whole call up to its return or sleep: the message its own arguments ask for, the first or that of the lowest type, cut to size; or why not |
| `MsgTables.MsgTable.ReceiverResumes` | ipc/msg.c:818-843 | the sleeper's second half: a message handed over, an error left for it, or leaving the list and EINTR, or the search its own arguments ask for |
| `MsgTables.MsgTable.ExpungeAll` | ipc/msg.c:266-279 | every sleeping receiver of the queue is told |
| `MsgTables.MsgTable.FreeQueue` | ipc/msg.c:281-301 | receivers told, messages freed and uncounted, the queue gone |
| `MsgTables.LoadMsg` | ipc/msg.c:158-208 | the page-sized segments, all full but the last, join to the bytes loaded |
| `MsgTables.StoreMsg` | ipc/msg.c:210-235 | copies out exactly the first len bytes of what was loaded |
| `TreeLayout.LayoutExists` | fs/namespace.c:118-132 | the tree below any node has a preorder listing in which each subtree is contiguous |
| `TreeLayout.LaidExactly` | fs/namespace.c:118-132 | that listing holds exactly the nodes at or below the top |
| `TreeLayout.WalkVisit` | fs/dcache.c:487-507 | the goto walk: the next child is the next node in preorder, and the walk goes on below it or after it |
| `TreeLayout.WalkAscend` | fs/dcache.c:511-519 | the goto walk: climbing continues after the place of the subtree just finished |
| `MountTree.DetachInv` | fs/namespace.c:98-107 | detaching an attached mount keeps forest, child lists, hash chains and mount counts in agreement |
| `MountTree.AttachInv` | fs/namespace.c:109-116 | attaching a detached mount to a place not below it keeps them |
| `MountTree.LookupAgrees` | fs/namespace.c:71-87 | a mount hangs on (mount, dentry) iff it is in the bucket of that pair with those fields |
| `MountTree.AttachShows` | fs/namespace.c:109-116 | the mount just attached is the one a lookup finds at its place; elsewhere lookups find what they found |
| `MountTree.DetachShows` | fs/namespace.c:98-107 | a lookup that did not find the mount finds after its detach what it found before |
| `MountMoves.MoveInv` | fs/namespace.c:583-597 | moving an attached mount to a place not below it keeps the invariant |
| `MountMoves.MoveMeans` | fs/namespace.c:583-597 | after a move the mount hangs on its new place, and no other mount has another parent, place, root or superblock |
| `MountMoves.MoveLists` | fs/namespace.c:583-597 | it is first in the child list of its new parent and gone from that of the old one, the others in order |
| `MountMoves.MoveShows` | fs/namespace.c:583-597 | a lookup at the new place finds the mount that was moved, and every other lookup that did not find it finds what it found |
| `MountMoves.PivotExactly` | fs/namespace.c:946-963 | pivoting keeps the invariant iff both roots are attached and the current root is not below the new one |
| `MountMoves.PivotMeans` | fs/namespace.c:946-963 | the current root hangs on put_old, the new root where the current one was, and nothing else hangs elsewhere |
| `MountMoves.PivotBelowCurrent` | fs/namespace.c:946-963 | in particular when the new root is below the attached current one |
| `MountMoves.PivotExample` | fs/namespace.c:946-963 | with the unattached root of the namespace as current root all checks pass, and the parent links end in a cycle |
| `MountCopy.GraftInv` | fs/namespace.c:433-438 | cloning a mount and attaching the clone keeps the invariant |
| `MountCopy.CopyStep` | fs/namespace.c:425-440 | one turn of the copy extends the partial mirror image by the next mount in preorder |
| `MountCopy.CopyDone` | fs/namespace.c:413-449 | after the last turn every mount has a clone with the same root, superblock and place, under the clone of its parent, with sibling lists reversed |
| `MountNamespaces.Namespace.LookupMnt` | fs/namespace.c:71-87 | the bucket walk finds the mount shown on (mount, dentry), which is the first in its bucket with those fields, and none iff there is none |
| `MountNamespaces.Namespace.NextMnt` | fs/namespace.c:118-132 | returns the preorder successor, or none at the end |
| `MountNamespaces.Namespace.Rewind` | fs/namespace.c:426-429 | the inner loop climbs to the parent of the next mount, from clone to clone in step |
| `MountNamespaces.Namespace.CopyTree` | fs/namespace.c:413-449 | the result is the mirror image, each mount below the source visited once, in preorder |
| `MountNamespaces.Namespace.TopMount` | fs/namespace.c:89-96 | the climb ends at the root of the mount's tree |
| `MountNamespaces.Namespace.DoMoveMount` | fs/namespace.c:583-597 | refuses a root with EINVAL and a target below the mount with ELOOP; otherwise the mount hangs on its new place and only it has moved; the invariant is kept |
| `MountNamespaces.Namespace.Climbs` | fs/namespace.c:946-955 | the climb from put_old meets the new root iff it is below it |
| `MountNamespaces.Namespace.PivotRoot` | fs/namespace.c:939-963 | the errors; the old root on put_old, the new one in its place, and nothing else moved; and the exact condition for the invariant |
| `DentryCache.KillInv` | fs/dcache.c:148-158 | freeing a childless, unlisted dentry keeps the cache invariant and leaves its parent held once more |
| `DentryCache.GetKeeps` | fs/dcache.c:731-733 | taking a reference on a found dentry keeps the invariant and adds exactly one hold |
| `DentryCache.PutKeeps` | fs/dcache.c:118-160 | dput, through all the parents it frees, keeps the invariant, frees nothing that is held and drops one hold |
| `DentryFrees.PutFrees` | fs/dcache.c:118-160 | dput frees the dentry iff that was its last reference and its file system wants it gone or it is unhashed; and an ancestor iff it is so too and all that referred to it was one child that was freed |
| `DentryFrees.PutStops` | fs/dcache.c:118-160 | the dentry the freeing stops at, if it does not free a root, has one reference less and is first on the unused list if that was its last; all other counts, lists and flags are as before |
| `DentryFrees.PutMeans` | fs/dcache.c:118-160 | both together; and with a last reference on a dentry to keep, only its count and the unused list change |
| `DentryCache.PruneKeeps` | fs/dcache.c:321-352 | pruning keeps the invariant, frees nothing that is held, and frees at least one dentry if any is unused |
| `DentryFrees.EvictFrees` | fs/dcache.c:294-309 | pruning the tail of the unused list frees it and the ancestors that go with it, and no other unused dentry |
| `DentryFrees.PruneExactly` | fs/dcache.c:321-352 | asked for no more than are unreferenced, pruning frees of the unused dentries exactly that many unreferenced ones nearest to the tail, and else only ancestors to be freed with the last reference |
| `DentryFrees.PruneMany` | fs/dcache.c:321-352 | asked for more, it frees all unreferenced ones |
| `DentryFrees.PruneEnough` | fs/dcache.c:321-352 | it stops only when it has freed as many as it was asked for, or none is unused |
| `DentryFrees.PruneLeaves` | fs/dcache.c:321-352 | asked for 0 or for more than there are, it leaves exactly the dentries that someone holds or holds something below |
| `DentryFrees.PruneMeans` | fs/dcache.c:321-352 | all of that; and whatever it was asked for, it frees none that someone holds or holds something below |
| `DentryCache.SelectInv` | fs/dcache.c:477-522 | the dentries selected are exactly the unused ones strictly below the parent, moved to the tail of the unused list |
| `DentryCache.ShrunkExactly` | fs/dcache.c:531-537 | once no dentry below the parent is unused, a dentry below it is left iff it or something below it was held at the start |
| `DentryTables.DentryTable.DgetLocked` | fs/dcache.c:731-733 | one reference more, the referenced flag, and off the unused list; nothing else changes, invariant kept |
| `DentryTables.DentryTable.Dput` | fs/dcache.c:118-160 | with count 1: freed iff doomed or unhashed, otherwise count 0 and first on the unused list with all else unchanged; of the ancestors exactly those freed that are doomed or unhashed and were held by one freed child only; the one it stops at loses one reference, all others are unchanged |
| `DentryTables.DentryTable.PruneDcache` | fs/dcache.c:321-352 | the loop, with spared dentries and its count: which unused dentries are freed, that every other one freed goes with its last child, when it stops, and that nothing is freed that someone holds or holds something below |
| `DentryTables.DentryTable.HaveSubmounts` | fs/dcache.c:432-468 | true iff some dentry at or below the parent is a mount point |
| `DentryTables.DentryTable.SelectParent` | fs/dcache.c:477-522 | the goto walk moves the selected dentries in preorder and returns their number |
| `DentryTables.DentryTable.ShrinkDcacheParent` | fs/dcache.c:531-537 | ends; nothing held is freed anywhere; below the parent exactly the dentries with a holder at or below them are left |
| `DentryMoves.FoundInChain` | fs/dcache.c:703-738 | a dentry a plain search would find is in the one chain looked at, and conversely |
| `DentryMoves.MovedIndexed` | fs/dcache.c:898-926 | after d_move every hashed dentry is in the chain of its own parent and hash, once |
| `DentryMoves.MovedFinds` | fs/dcache.c:898-926 | after d_move a search finds the dentry where it found the target, no longer the target, and all others as before |
| `DentryMoves.MovedHeld` | fs/dcache.c:913-924 | d_move keeps d_count minus the number of children of every dentry |
| `DentryMoves.MovedTree` | fs/dcache.c:898-926 | d_move keeps the tree iff neither dentry is below the other |
| `DentryMoves.EmptyTargetApart` | fs/namei.c:1748-1753 | the checks of rename and a childless target imply that condition |
| `DentryMoves.CheckNotEnough` | fs/namei.c:1748-1753 | the checks alone do not: in a cache of four nested directories, moving the innermost onto its grandparent passes them and breaks the tree |
| `DentryRenames.MoveBothKeeps` | fs/dcache.c:898-926 | with counts, unused list, names and chains as one state, d_move of two that are apart keeps all of them right and in agreement |
| `DentryRenames.PutBothKeeps` | fs/dcache.c:118-160 | so does dput: what it frees leaves its chain, and nothing else does |
| `DentryRenames.RenameFrees` | fs/namei.c:1899-1904 | rename and the dput of its childless target keep all invariants and free exactly the target, if only the caller holds it |
| `DentryRenames.RenameFinds` | fs/namei.c:1899-1904 | after them the dentry is found where the target was, and every other dentry as before |
| `DentryHashes.DentryHash.DLookup` | fs/dcache.c:703-735 | the chain walk finds a dentry iff a plain search of hashed children does |
| `DentryHashes.DentryHash.DDrop` | include/linux/dcache.h:147-153 | the dentry is no longer found, all others are as before |
| `DentryHashes.DentryHash.DRehash` | fs/dcache.c:833-840 | the dentry is hashed, all others are as before |
| `DentryHashes.DentryHash.SwitchHash` | fs/dcache.c:907-911 | inserting after the target and unhashing it puts the dentry in the target's place, or leaves it unhashed if the target was |
| `DentryHashes.DentryHash.SwitchNames` | fs/dcache.c:857-871 | after the copy and the two address fix-ups the dentry has the text, length and hash of the target, inline or outside; the target has the dentry's length and hash, and its text if that was outside; both stay well-formed and no other name changes |
| `DentryHashes.DentryHash.DMove` | fs/dcache.c:898-926 | the steps of d_move give the specified state, index kept, tree kept iff the two are apart |
| `DentryHashes.DentryHash.IsSubdir` | fs/dcache.c:1075-1092 | the climb answers whether one dentry is at or below the other |
| `DentryHashes.DentryHash.RenameDirAllowed` | fs/namei.c:1748-1753 | the check passes iff the target is not below the source and is not its parent |
| `SeqFiles.ReadsJoin` | fs/seq_file.c:45-142 | the outputs of successive reads of any sizes join to the text from the starting position, nothing lost or repeated |
| `SeqFiles.ReadsComplete` | fs/seq_file.c:45-142 | if a last read asked for bytes and got none, the whole text was delivered |
| `SeqFiles.SeekThenRead` | fs/seq_file.c:198-226 | reads after a seek continue from the byte sought, whatever was read before |
| `SeqFiles.SeqFile.Show` | fs/seq_file.c:279-295 | a record that ends before the buffer does is appended; otherwise the buffer reads as full |
| `SeqFiles.SeqFile.Flush` | fs/seq_file.c:64-79 | hands out a prefix of what is pending and keeps the rest pending |
| `SeqFiles.SeqFile.ShowRecords` | fs/seq_file.c:80-117 | fills the buffer with whole records from the current one on, and with something if anything is left |
| `SeqFiles.SeqFile.Deliver` | fs/seq_file.c:118-128 | hands out a prefix and leaves the rest of the last record pending |
| `SeqFiles.SeqFile.SeqRead` | fs/seq_file.c:45-142 | delivers a prefix of the text from the file position, empty only at the end or for no bytes, and advances the position by it |
| `SeqFiles.SeqFile.Traverse` | fs/seq_file.c:144-190 | leaves exactly the text from the given byte on pending |
| `SeqFiles.SeqFile.SeqLseek` | fs/seq_file.c:198-226 | refuses bad origins and negative positions, otherwise moves there |
| `BufferLists.RingInsert` | fs/buffer.c:505-521 | linking a buffer in before the head extends the ring at its end |
| `BufferLists.RingRemove` | fs/buffer.c:523-542 | unlinking any buffer leaves the ring of the others in order |
| `BufferLists.OnOwnList` | fs/buffer.c:505-542 | a buffer has links iff it is on a list, and then on the one b_list names |
| `BufferLists.InsertedOk` | fs/buffer.c:505-521 | all lists, lengths and sizes are right after an insertion |
| `BufferLists.RemovedOk` | fs/buffer.c:523-542 | and after a removal |
| `BufferLrus.BufferLru.InsertIntoLruList` | fs/buffer.c:505-521 | the link updates put the buffer at the end of the list, also of an empty one |
| `BufferLrus.BufferLru.RemoveFromLruList` | fs/buffer.c:523-542 | the link updates take the buffer off, also as head or only member, or do nothing |
| `BufferLrus.BufferLru.RefileBuffer` | fs/buffer.c:1068-1082 | the buffer ends on the dirty list iff it is dirty, on the locked list iff it is locked and not dirty, else on the clean list |
| `BufferLrus.BufferLru.Visit` | fs/buffer.c:212-228 | a buffer of the dirty list is left, collected or moved to the clean list by its device and flags |
| `BufferLrus.BufferLru.WriteSomeBuffers` | fs/buffer.c:198-235 | visits a prefix of the initial dirty list, each buffer once, and collects exactly the dirty, unlocked ones of the device, up to NRSYNC; the three lists and the flags are as that says |
| `QuotaLedger.AllocBalanced` | fs/dquot.c:1020-1052 | an allocation keeps what each dquot is charged beyond its inodes; a refused one changes no counter |
| `QuotaLedger.AllocWithinLimit` | fs/dquot.c:776-815 | a granted allocation does not pass the hard limit of a dquot whose owner may not ignore it |
| `QuotaLimits.AllocExactly` | fs/dquot.c:744-815 | an allocation is refused iff some dquot of the inode would be above its hard limit, or above its soft limit with the grace time over, and may not ignore that; or a preallocation would begin a grace time. Of each dquot: what it is charged, and that its grace time begins iff it goes above the soft limit for the first time, is not refused, and no dquot asked before it refused |
| `QuotaLimits.GraceOver` | fs/dquot.c:776-815 | once its grace time is over, no granted request leaves a dquot above its soft limit, unless limits may be ignored for it |
| `QuotaLimits.GraceRuns` | fs/dquot.c:776-815 | a request within all hard limits is granted while every grace time runs |
| `QuotaLimits.RefusedWhy` | fs/dquot.c:776-815 | a refusal has one of three reasons, at a dquot of the inode: hard limit, grace time over, or preallocation above the soft limit |
| `QuotaLedger.FreeBalanced` | fs/dquot.c:1094-1109 | freeing keeps the ledger iff no counter is cut off at 0 |
| `QuotaLedger.FreeExample` | fs/dquot.c:660-670 | an inode whose blocks were never charged: freeing one unbalances the ledger |
| `QuotaMoves.TransferBalanced` | fs/dquot.c:1135-1217 | a granted transfer keeps blocks, inodes and references of every dquot in balance iff no counter is cut off at 0; a refused one changes none |
| `QuotaClocks.TransferExactly` | fs/dquot.c:744-815 | a transfer is refused iff some dquot moved to refuses one inode or the blocks, by the same rules for inodes and for blocks; and what it makes of every dquot and of the inode, granted or not, with every grace time it begins or ends |
| `QuotaClocks.GiveOver` | fs/dquot.c:744-815 | once a grace time of the new owner is over, for inodes or for blocks, no granted transfer leaves it above that soft limit, unless limits may be ignored for it |
| `QuotaClocks.GiveRuns` | fs/dquot.c:744-815 | a transfer within all hard limits is granted while every grace time runs or may begin |
| `QuotaClocks.FreeExactly` | fs/dquot.c:660-670 | freeing lowers what each dquot of the inode is charged, and ends its grace time iff that is then below its soft limit |
| `QuotaMoves.TransferExample` | fs/dquot.c:1135-1217 | giving such an inode to another owner is granted and unbalances the ledger |
| `QuotaMoves.RunBalanced` | fs/dquot.c:1020-1217 | over any run of allocations, frees and transfers nothing ever gets out of balance, if every dquot is charged at least for its inodes at the start |
| `QuotaClocks.RunHard` | fs/dquot.c:1020-1217 | over any run, a dquot for which limits are never ignored stays within its hard limits |
| `QuotaClocks.RunClock` | fs/dquot.c:1020-1217 | over any run, whoever asks, a dquot above a soft limit has a grace time set, if inodes are only given to another owner and the clock is past 0 |
| `QuotaClocks.RunLate` | fs/dquot.c:1020-1217 | over any run after its grace time, until it has been below its soft limit, what a dquot is charged only goes down, if limits are not ignored for it |
| `QuotaTables.QuotaTable.Dqduplicate` | fs/dquot.c:525-540 | one more reference |
| `QuotaTables.QuotaTable.Dqput` | fs/dquot.c:420-455 | one reference less, if there is one |
| `QuotaTables.QuotaTable.DecrBlocks` | fs/dquot.c:660-670 | the counter lowered but not below 0, and the grace time cleared below the soft limit |
| `QuotaTables.QuotaTable.DquotAllocBlock` | fs/dquot.c:1020-1052 | checks, charges and references step by step; refused iff a limit or a grace time says so, with the charge and the grace time of every dquot told from limits, uses and times; no reference is left over, granted or not |
| `QuotaTables.QuotaTable.DquotFreeBlock` | fs/dquot.c:1094-1109 | likewise for freeing |
| `QuotaTables.QuotaTable.DquotTransfer` | fs/dquot.c:1135-1217 | likewise for a transfer, for inodes and for blocks: refused iff a limit or a grace time of the new owner says so; one reference more on the new dquot and one less on the old, none otherwise |
| `Pids.NeverEnds` | kernel/fork.c:105-118 | outside the stated condition every id tried is in use and the start is never met again |
| `Pids.FailsExactly` | kernel/fork.c:116-117 | the search comes back to the start iff no id of the round but perhaps the start is free |
| `Pids.PidAllocator.Scan` | kernel/fork.c:102-128 | if it finds an id, every id before it was in use, and a last pass met neither it nor anything in the range behind it in any task; it fails iff no id of the round is free, and leaves next_safe as `LeftSafe` says |
| `Pids.PidAllocator.GetPid` | kernel/fork.c:86-140 | takes the fast path or the scan as the step of a run says, in any state; returns 0 iff it scans and none is free; if the cached range was right, returns the id a plain search finds and leaves a right range |
| `Pids.TookFresh` | kernel/fork.c:97-128 | if the cached range is right, the next id taken without a look at any process, or the one scanned for, is the one a plain search finds, in use in no role, and the range left is right |
| `Pids.ScanRestores` | kernel/fork.c:102-128 | a scan that finds an id makes the range right whatever it was |
| `Pids.FailedExactly` | kernel/fork.c:107-118 | a call that returns 0 leaves a right range iff, of the processes before the first with the id below last_pid, one has the id above it and none has it, or it is the highest id |
| `Pids.FailedNext` | kernel/fork.c:95-101 | otherwise the next call returns an id that is in use |
| `Pids.CrowdedExample` | kernel/fork.c:95-118 | with all ids above 300 in use and 300 given out last, the first call returns 0 and the second 301 |
| `Pids.EventInv` | kernel/fork.c:86-140 | forks, exits and group changes keep the cached range right, a failed fork iff it leaves no id in use in it; a fork from a right range gets an id in use in no role |
| `Pids.RunFresh` | kernel/fork.c:86-140 | in every run, as long as no failed fork has left an id in use in the cached range, each new task gets an id no live task has as pid, group, thread group or session |
| `ArgPages.Binprm.CopyToPage` | fs/exec.c:209-252 | the part of a string on one page is written, and nothing else is visible on a page just allocated but zeros |
| `ArgPages.Binprm.CopyStrings` | fs/exec.c:183-259 | the strings stand in order with their NULs just below the old position, all other bytes as before; refused iff they do not fit |
| `ArgPages.Binprm.RemoveArgZero` | fs/exec.c:755-777 | the position moves just past the first NUL, from page to page |
| `ArgPages.ArgZeroRemoved` | fs/exec.c:755-777 | that drops exactly the first string |
| `ArgPages.FirstString` | fs/binfmt_elf.c:219-225 | the first NUL from the start of joined strings ends the first of them |
| `ElfStack.UserStack.Walk` | fs/binfmt_elf.c:219-235 | the loop stores the start of every string and a NULL, and fails iff a string is too long |
| `ElfStack.UserStack.CreateElfTables` | fs/binfmt_elf.c:208-237 | from the final stack address on stand argc, the two table addresses, the start of every argument, NULL, the start of every environment string, NULL |
| `ExecImage.Count` | fs/exec.c:158-176 | the number of strings, or E2BIG iff there are more than the limit |
| `ExecImage.Gather` | fs/exec.c:876-925 | environment behind arguments and the file name behind both, at the top of the pages; E2BIG iff there are more than 32767 arguments or environment strings or they do not fit |
| `ExecImage.DropArgZero` | fs/exec.c:755-777 | the strings left are those after the first argument, if there is an argument |
| `ExecImage.LoadScript` | fs/binfmt_script.c:69-80 | the arguments become interpreter, its argument if any, script, and the rest; refused iff they do not fit |
| `ExecImage.StartElf` | fs/binfmt_elf.c:208-237 | once mapped, strings that were copied are never too long, and the stack lists the start of each |
| `ExecImage.Execve` | fs/exec.c:876-925 | the program finds exactly its final arguments and environment in memory and their addresses on the stack; E2BIG iff the strings given are too many or do not fit, or the final ones do not fit, which are not counted again |
| `Pipes.TakeChunk` | include/linux/pipe_fs_i.h:18-39 | removing a chunk that does not wrap takes a prefix of the ring's contents |
| `Pipes.PutChunk` | include/linux/pipe_fs_i.h:18-39 | writing a chunk at the end position appends to the contents |
| `Pipes.Pipe.CopyOut` | fs/pipe.c:88-110 | the read loop delivers the oldest bytes, as many as wanted and there, in order |
| `Pipes.Pipe.CopyIn` | fs/pipe.c:186-206 | the write loop appends as many bytes as there is room for |
| `PipeRuns.PutInv` | fs/pipe.c:162-228 | a writer's turn keeps: delivered plus ring is the log, each writer's bytes in order, small writes whole |
| `PipeRuns.TakeInv` | fs/pipe.c:88-110 | so does a reader's turn |
| `PipeTurns.PipeInode.ReadTurn` | fs/pipe.c:88-110 | a reader gets the oldest bytes, as many as it wants and are there, and the turn is the step of the run |
| `PipeTurns.PipeInode.WriteTurn` | fs/pipe.c:162-228 | a writer must wait iff there is no room, or on its first turn not enough for all of a write of at most PIPE_BUF bytes, and then nothing changes; otherwise it appends its next bytes until they or the room run out, and the turn is the step of the run |
| `PipeRuns.PipeRun` | fs/pipe.c:39-231 | under any interleaving the bytes delivered are a prefix of the bytes accepted, and a write of at most PIPE_BUF bytes is in one piece |

## Left out

- Page faults on user memory, failing kmalloc and signals during copies: taken as not happening.
- Locks other than POSIX record locks: flock, leases, mandatory locks and lockd's waits.
- sempid.
- Semaphore and message queue creation limits, permissions and IPC_SET.
- `umount_tree` and the lock-step walk of two trees in `copy_namespace`; reference counts of mounts.
- The checks of `sys_pivot_root` on dentries (`is_subdir`, deleted directories).
- Filesystem hooks d_compare, d_hash and d_revalidate; `d_genocide`.
- The two dentry classes are separate objects; only the value-level model (DentryRename) holds counts, unused list, names and chains in one state.
- In a rename, that the caller holds the old directory and the target, and that the file system leaves no child under the target, are taken as given.
- The doubling of the buffer of a sequential file when one record fills it: records are taken as shorter than the buffer.
- Buffer reference counts, the inode queues of buffers and the submission of writes.
- Reading and writing of quota files, the hash and free lists of dquots, warnings to users.
- 32-bit wrap-around of quota counters, semaphore logs and message counters: they are unbounded here.
- The auxiliary vector and the alignment of the stack in `create_elf_tables`, and with them where its tables start.
- The parsing of the first line of a script, and which binary handler takes a file.
- Waking on pipes, non-blocking calls, and how a call is put together from several turns.
- SemLive.RunLive: is about arrays that lower a value or only wait for zeros; `SemLive.RaiserLoses` shows why.
- LockWalks.EditOverwrites: is about canonical lists; of the lists a request that wraps leaves, only what holds of every list is proved (`LockEdits.EditAccounted`, `LockSystem.RunKeepsInv`).
- MsgTables.MsgTable.FreeQueue: lowers the counters in the same step; the source does so after it has let go of the queue's lock.
- MsgRuns.RemoveQueueKeeps: takes removal as that one step, so counters between the unlock and their update are not described.
- MsgTables.MsgTable.ReceiverResumes: takes that the sleeper is not stranded, which `MsgRuns.RunKeepsInv` proves of every run.
- Pids.PidAllocator.GetPid: takes that a scan ends, under the condition that `Pids.NeverEnds` shows to be necessary.
- dquot_alloc_inode and dquot_free_inode; check_idq is covered where dquot_transfer asks it.
- QuotaTables.QuotaTable.DquotTransfer: takes that each dquot of the inode has the inode's reference.
