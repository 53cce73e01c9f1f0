# A verified model of a small distributed file system and transactional store

The C++ sources under `lab41` build a distributed file system in layers: a caching lock service, an
RPC library with at-most-once calls, an inode and block manager, an extent server with coherent
client caches, directories kept as text, and two transactional key-value servers on top. This
project models the logic of those layers in Dafny and proves what they are for.

`dafny verify dfyconfig.toml` checks the whole project.

## How the model is built

Objects that the sources update in place are classes whose methods are proved against functions on
values; loops of the sources are loops with invariants. What several operations have to keep together
is stated about those functions, over whole runs: a run is a schedule of atomic steps, one for each
section of code that holds a mutex, and the theorems quantify over every schedule.

- **Caching locks** (`ClientIds`, `LockServer`, `LockClient`, `LockProtocol`, `LockProgress`, `LockFifo`): any
  number of clients and threads, with messages that overtake each other. Mutual exclusion, no failed
  `VERIFY`, no lost revoke or retry, hand-over within a bounded number of steps, and first come, first
  served among the threads of a client.
- **RPC** (`RpcClient`, `RpcServer`, `RpcProtocol`, `RpcCaller`): a network that loses, repeats and reorders
  packets, with timeouts and rival binds. No call is executed twice, and a call that returns was executed
  exactly once with that result or was refused and not executed at all.
- **Wire format** (`Bytes`, `Marshal`, `MarshalBuffer`, `MarshalLayout`): every value is read back as it was
  written, every byte lies where it should, and the buffer always has room.
- **Transactions** (`Transactions`, `Occ`, `OccRequests`, `OccServer`, `WaitGraph`, `TwoPhase`,
  `TwoPhaseWaits`, `TwoPhaseMeaning`, `TwoPhaseRequests`, `TwoPhaseServer`): every interleaving is
  equivalent to running what the clients of the committed transactions asked for, one after the other, and
  nobody is aborted by the two-phase server without a deadlock.
- **Inodes and blocks** (`Blocks`, `Inodes`, `Ownership`, `InodeFiles`, `InodeRuns`, `InodeFull`,
  `InodeFailures`, `InodeManager`): the disk is bytes, inodes and indirect blocks are read out of those
  bytes. Marked blocks are exactly the disjoint union of what inodes own, and the whole refines a table
  of files.
- **Extents** (`Extents`, `ExtentAttrs`, `ExtentCaches`): after every run the caches of all clients agree with that of the
  server, and after every fitting run, one in which text fits on the disk and goes into inodes in use and
  only files of direct blocks are removed, they agree with the disk.
- **Directories** (`Directory`, `DirectoryOps`, `FileTree`, `FileForest`, `FileSystem`, `FileCalls`,
  `FileSystemFailures`): the text lists exactly the entries made and not removed. Put together with the caches, the inode manager
  and the disk, the directories stay a forest: every listed inode is in use, none is listed twice, and no
  directory is below itself.

Some properties one would expect do not hold in general. Each comes with its exact condition, for all
inputs or runs, and with an input that fails:

- A request is remembered exactly when it does not acknowledge more than its own xid, or a later one is
  in the window (`RpcServer.RememberedExactly`; `RpcServer.AcknowledgingTooMuchRepeats`).
- A first arrival is executed exactly when nothing was executed yet or some executed, unacknowledged
  call has a smaller xid (`RpcProtocol.VerdictExactly`). Otherwise a caller that still waits is refused,
  because another call timed out (`RpcProtocol.WaiterRefused`) or another bind was faster
  (`RpcProtocol.RivalBindRefused`).
- A committed two-phase transaction means what it says exactly when it does not read a slot it deleted
  itself, does not write the remove marker as a value and does not read it in a slot it leaves alone
  (`TwoPhaseMeaning.CommittedMeanWhatTheySay`; `TwoPhaseMeaning.OwnDeleteReadsMarker`,
  `TwoPhaseMeaning.MarkerIsLost`).
- All waits for slot locks are recorded exactly as long as no slot is handed over to one of several waiters
  (`TwoPhaseWaits.WaitsAreRecordedExactly`). Then a request is aborted exactly when it closes a circle of
  waits (`TwoPhaseWaits.AbortsExactlyOnDeadlock`); otherwise a deadlock can go unnoticed for ever
  (`TwoPhaseWaits.DeadlockUnnoticed`).
- A write survives and keeps the whole invariant of the disk exactly when its blocks fit and no text goes
  into an unused inode (`InodeFull.WriteNeedsRoom`; `InodeFailures.FullDiskLosesOwnership`): block 0, which
  stands for a full disk, is used like any other block. Text in an unused inode alone leaves block ownership
  as it was (`InodeFiles.WriteFileRefines`).
- A removal keeps block ownership exactly when the size of the file needs no more than the direct blocks
  (`InodeRuns.RemoveFileRefines`; `InodeFailures.LargeRemovalLosesOwnership`): the old indirect pointer is
  written back after the block is freed, and a later write through it changes another file
  (`InodeFailures.WriteChangesAnotherFile`).
- Every client's get returns what is in the file all along a run exactly when no call of the run changes a
  file that it does not read back into the caches (`Extents.GetsAreRightExactly`), which holds of fitting
  runs (`Extents.CachesAreCoherent`). After a write through such an old pointer every client gets text that
  is no longer in the file (`FileSystemFailures.StaleGet`).
- The directories are one tree that holds everything in use exactly when no directory that had entries was
  removed or emptied (`FileForest.TreeExactly`, `FileSystem.FileSystemIsTree`). Every file system client
  empties the root when it starts, so a second mount leaves what it listed behind
  (`FileSystemFailures.SecondMount`).
- The cached attributes of the root are those of its inode exactly when some call has refreshed them
  (`Extents.CachesAreCoherent`; `Extents.RootAttrStale`).
- What was put is read back exactly when the id is that of an inode or nothing was put, because put masks
  the id and get does not (`Extents.PutThenGet`).
- Listing a directory ends exactly when every ':' the cursor meets has a '/' behind it
  (`Directory.ListingEndsExactly`), which holds for all text written by create (`Directory.EntryCloses`). It
  gives back the entries written exactly when no name has a ':' (`Directory.ListBackExactly`;
  `Directory.ColonNameListsShort`).
- Removing a name takes out its entry exactly when the name occurs in no earlier name and in no earlier
  printed inode number (`DirectoryOps.EraseByEntries`; `DirectoryOps.EraseWrongEntry`).

Where code and comment disagree the model follows the code: `checkduplicate_and_update` is described as
dropping replies up to and including `xid_rep` but drops only those below it (lab41/rpc/rpc.cc:699-701,
lab41/rpc/rpc.cc:709-765).

## Assumptions

- Each section of a handler that holds its mutex is one atomic step. Locks are independent, so one lock
  is modelled. Client ids are distinct and non-empty, condition variables have no spurious wakeups, lock
  messages are delivered once, and a thread releases only what it holds.
- In the RPC protocol xids do not wrap around. Delivery is arbitrary.
- Transaction stores are maps from slots, the hashes of keys; keys that collide share a slot. The order in
  which a commit walks its maps is arbitrary. Transaction ids stay within the dependency matrix.
- Clocks and the uninitialised tail of a block buffer are parameters of writes; the three times one write
  sets are one reading of the clock. A failed assert, a thrown exception or a NULL dereference ends the
  process and is the result `None` or `ok == false`.
- Callbacks of the extent server reach every client, and one client call with its callbacks is one step.

## Model

| member | source | states |
|---|---|---|
| `LockServer.LockServerCache.Acquire` | lab41/lock_server_cache.cc:17-84 | the mutex-held section of acquire turns the lock's entry into the one the state machine prescribes, faults included, and touches no other lock |
| `LockServer.LockServerCache.Release` | lab41/lock_server_cache.cc:86-104 | release hands the lock to the least waiting client, which becomes the retrying one; a failed VERIFY changes nothing |
| `LockClient.LockClientCache.Acquire` | lab41/lock_client_cache.cc:33-72 | entering acquire queues the thread and holds, calls the server or sleeps, depending on state and queue |
| `LockClient.LockClientCache.Woken` | lab41/lock_client_cache.cc:73-84 | what a woken thread does in each state, the first of the queue and the others apart |
| `LockClient.LockClientCache.AcquireReturned` | lab41/lock_client_cache.cc:188-202 | OK holds the lock; RETRY sleeps unless a message came first, and consumes the message |
| `LockClient.LockClientCache.Release` | lab41/lock_client_cache.cc:91-128 | release either passes the lock to the next thread or, when a revoke is memoised, calls the server |
| `LockClient.LockClientCache.ReleaseReturned` | lab41/lock_client_cache.cc:107-128 | after the release call the message is cleared, the thread leaves the queue and the next one is woken |
| `LockClient.LockClientCache.RevokeHandler` | lab41/lock_client_cache.cc:134-157 | a revoke of a free lock releases it, any other is memoised |
| `LockClient.LockClientCache.RetryHandler` | lab41/lock_client_cache.cc:162-175 | a retry is memoised and wakes the front thread |
| `LockProtocol.AdvanceInv` | lab41/lock_client_cache.cc:33-205 | every atomic step of every thread keeps the invariant that ties server owner, client states, queue fronts and messages in flight together |
| `LockProtocol.RunInv` | lab41/lock_client_cache.cc:33-205 | the invariant holds after every schedule |
| `LockProtocol.MutualExclusion` | lab41/lock_server_cache.cc:17-104 | after every schedule of any clients and threads no VERIFY has failed and at most one thread in the system holds the lock, at the client the server names |
| `LockProtocol.UncontendedAcquire` | lab41/lock_server_cache.cc:17-36 | from every initial state a thread that acquires alone holds the lock after its three steps |
| `LockProtocol.RevokeReachesOwner` | lab41/lock_server_cache.cc:37-84 | the owner read after unlocking is still the owner to revoke when the revoke is sent, and it has the lock or is about to |
| `LockProgress.NothingLost` | lab41/lock_client_cache.cc:133-205 | while the server is revoking, the owner has memoised the revoke or somebody is carrying it; dually for retries and releases |
| `LockProgress.NeverStuck` | lab41/lock_server_cache.cc:17-104 | while any thread is in the protocol some thread can take a step |
| `LockProgress.MeasureDrops` | lab41/lock_client_cache.cc:33-205 | every step that neither starts an acquire nor a release decreases a measure, so there is no livelock |
| `LockProgress.InternalRunsAreBounded` | lab41/lock_client_cache.cc:33-205 | a schedule of such steps is no longer than the measure |
| `LockProgress.HandOver` | lab41/lock_server_cache.cc:17-104 | left to itself the protocol comes to rest within that bound, and then some thread holds the lock |
| `LockFifo.OnlyOwnSections` | lab41/lock_client_cache.cc:33-128 | no thread gets, gives back or leaves the lock in a section of another thread |
| `LockFifo.FirstComeFirstServed` | lab41/lock_client_cache.cc:33-128 | in every run the threads of a client get the lock in the order in which they entered acquire, and return from release in that order |
| `LockFifo.HoldsAfterThoseAhead` | lab41/lock_client_cache.cc:119-127 | in every run a thread with k others ahead of it in its client holds the lock after exactly those k have returned from release, in their order |
| `LockFifo.LeastWaiterIsNext` | lab41/lock_server_cache.cc:86-104 | in every run a release chooses a client that was waiting and than which no waiting one is smaller; it alone stops waiting, and it is told to retry |
| `ClientIds.StringLeExactly` | lab41/lock_server_cache.cc:95-95 | the order of the set of waiting clients: the first character that differs decides, a prefix comes first |
| `RpcClient.XidWindow.UpdateXidRep` | lab41/rpc/rpc.cc:413-439 | in whatever order and however often xids are reported, xid 0 included, the window stays sorted and its front is the largest n with 1..n reported |
| `RpcClient.XidWindow.Insert` | lab41/rpc/rpc.cc:421-430 | the insertion loop puts the xid in order, duplicates included |
| `RpcClient.XidWindow.Compress` | lab41/rpc/rpc.cc:432-438 | the compress loop ends, never pops the element under its iterator and leaves the right front |
| `RpcClient.PopKeeps` | lab41/rpc/rpc.cc:432-438 | popping the front when its successor is present keeps the set of finished xids the window stands for |
| `RpcServer.ReplyWindows.CheckDuplicateAndUpdate` | lab41/rpc/rpc.cc:709-765 | the verdict and the new window of a client, other clients untouched |
| `RpcServer.ReplyWindows.AddReply` | lab41/rpc/rpc.cc:772-788 | the reply bytes are stored with the request and nothing else changes |
| `RpcServer.KnownStays` | lab41/rpc/rpc.cc:709-788 | a seen xid stays in the sorted window or below its front over every request and every stored reply |
| `RpcServer.RememberedExactly` | lab41/rpc/rpc.cc:709-765 | a new request is remembered if and only if its acknowledgement does not exceed its xid or a later xid survives the trim |
| `RpcServer.AtMostOnce` | lab41/rpc/rpc.cc:709-788 | over every sequence of requests with xid_rep not above xid, NEW is answered at most once for an xid |
| `RpcServer.AcknowledgingTooMuchRepeats` | lab41/rpc/rpc.cc:709-765 | a request acknowledging more than its own xid is executed twice |
| `RpcProtocol.ExecutedAtMostOnce` | lab41/rpc/rpc.cc:194-345 | in every run of client, network and server, timeouts and rival binds included, no xid is executed twice |
| `RpcProtocol.VerdictExactly` | lab41/rpc/rpc.cc:709-765 | in every run, timeouts and rival binds included, the verdict on every xid is decided by what was executed and the largest acknowledgement among it: DONE with the result, INPROGRESS, NEW or FORGOTTEN |
| `RpcProtocol.WaiterIsServed` | lab41/rpc/rpc.cc:373-439 | in every run a call whose caller waits is never forgotten once it was executed |
| `RpcProtocol.ReturnsTellTheTruth` | lab41/rpc/rpc.cc:531-688 | in every run a call that returns was executed exactly once and returns the bytes of that execution, or it was refused and not executed at all |
| `RpcProtocol.FirstArrivalIsNew` | lab41/rpc/rpc.cc:709-765 | without timeouts and with binds one at a time a first request is always NEW |
| `RpcProtocol.ExactlyOnce` | lab41/rpc/rpc.cc:531-688 | then no returning call is refused: each was executed exactly once and returns the bytes of that execution |
| `RpcProtocol.WaiterRefused` | lab41/rpc/rpc.cc:276-311 | a run in which one call times out and another one that still waits, and was never executed, is refused |
| `RpcProtocol.RivalBindRefused` | lab41/rpc/rpc.cc:203-222 | a run without timeouts in which the slower of two binds is refused |
| `RpcProtocol.AcknowledgesUpToTheOldest` | lab41/rpc/rpc.cc:203-222 | in every run a new call acknowledges exactly the calls before the oldest one whose caller still waits |
| `RpcCaller.Rpcc.Begin` | lab41/rpc/rpc.cc:198-222 | call1 takes a fresh xid and acknowledges the window's front, and refuses calls before bind and a second bind |
| `RpcCaller.Rpcc.GotPdu` | lab41/rpc/rpc.cc:373-410 | the first reply to a call in flight is kept, later ones only advance the window |
| `RpcCaller.Rpcc.End` | lab41/rpc/rpc.cc:304-345 | the call leaves with its reply or a timeout and reports its xid again |
| `Marshal.RoundTrip` | lab41/rpc/rpc.cc:840-1051 | for every value of every type, reading what was written gives the value back and stops right behind it, whatever surrounds it |
| `Marshal.RoundTripVec` | lab41/rpc/marshall.h:211-231 | vectors of any length, nested or not, read back element by element |
| `Marshal.RoundTripMap` | lab41/rpc/marshall.h:233-259 | maps with keys of any type, written in key order and rebuilt by insertion, are the same maps |
| `Marshal.ArgumentsRoundTrip` | lab41/rpc/rpc.cc:840-1051 | every sequence of arguments decodes to itself |
| `Marshal.BodyRoundTrip` | lab41/rpc/rpc.cc:937-947 | after decoding its arguments a body is used up exactly: okdone holds |
| `MarshalBuffer.RequestRoundTrip` | lab41/rpc/marshall.h:83-96 | a request whose header is packed after its body decodes to that header and those arguments |
| `MarshalBuffer.ReplyRoundTrip` | lab41/rpc/marshall.h:98-108 | the same for replies, whose header fills only part of the gap |
| `MarshalBuffer.ReqHeaderBack` | lab41/rpc/marshall.h:175-187 | the five header words come back and the read head stands at the body |
| `MarshalBuffer.Marshaller.RawByte` | lab41/rpc/rpc.cc:815-825 | one byte is appended, the buffer grows when full, bytes behind the head are kept |
| `MarshalBuffer.Marshaller.RawBytes` | lab41/rpc/rpc.cc:827-838 | any number of bytes is appended; the one-step growth always makes enough room |
| `MarshalBuffer.Marshaller.Put` | lab41/rpc/rpc.cc:840-909 | writing a value of any type appends exactly its encoding |
| `MarshalBuffer.Marshaller.PutVector` | lab41/rpc/marshall.h:211-218 | the loop over a vector appends its count and its elements |
| `MarshalBuffer.Marshaller.PutMap` | lab41/rpc/marshall.h:233-243 | the loop over a map appends its count and its entries |
| `MarshalBuffer.Marshaller.PackReqHeader` | lab41/rpc/marshall.h:83-96 | the header goes into its gap; head, size bytes and body stay |
| `MarshalBuffer.Marshaller.PackReplyHeader` | lab41/rpc/marshall.h:98-108 | the same for a reply header |
| `MarshalBuffer.Unmarshaller.Get` | lab41/rpc/rpc.cc:949-1051 | reading a value of any type computes the decoder, the ok flag and head included, on every input |
| `MarshalBuffer.Unmarshaller.GetVector` | lab41/rpc/marshall.h:220-231 | the loop reads count elements onto the back of whatever the vector holds |
| `MarshalBuffer.Unmarshaller.GetMap` | lab41/rpc/marshall.h:245-259 | the loop reads count entries into a map |
| `MarshalBuffer.Unmarshaller.UnpackReqHeader` | lab41/rpc/marshall.h:175-187 | the header is read from its gap and the head set behind it |
| `MarshalBuffer.Unmarshaller.UnpackReplyHeader` | lab41/rpc/marshall.h:189-198 | the same for a reply header |
| `MarshalBuffer.Unmarshaller.OkDone` | lab41/rpc/rpc.cc:937-947 | true exactly when nothing failed and nothing is left |
| `MarshalLayout.NumberBytes` | lab41/rpc/rpc.cc:841-909 | byte i of a number of w bytes is its quotient by 256 to the power of w-1-i, modulo 256; a negative number is sent as its two's complement |
| `MarshalLayout.StringBytes` | lab41/rpc/rpc.cc:896-901 | a string is its length in four bytes and then its bytes |
| `MarshalLayout.VectorInOrder` | lab41/rpc/marshall.h:211-218 | the elements of a vector follow each other in order |
| `MarshalLayout.MapInOrder` | lab41/rpc/marshall.h:233-243 | and so do the entries of a map |
| `MarshalLayout.StringsAscend` | lab41/rpc/marshall.h:239-241 | whose keys ascend: the first byte that differs decides, a prefix comes first |
| `MarshalLayout.ArgumentsInOrder` | lab41/rpc/rpc.h:173-268 | the arguments of a call follow each other in order |
| `MarshalLayout.RequestOffsets` | lab41/rpc/marshall.h:77-91 | size, xid, proc, both nonces, xid_rep and body lie at 0, 4, 8, 12, 16, 20 and 24 |
| `MarshalLayout.ReplyOffsets` | lab41/rpc/marshall.h:93-103 | size, xid, ret and body lie at 0, 4, 8 and 24 |
| `Occ.Serializable` | lab41/ydb_server_occ.cc:42-157 | in every interleaving, gets between the puts of a commit included, each committed transaction read what it would read and left what it would leave in the serial run in commit order, and the store is that run's |
| `Occ.AbortsExactly` | lab41/ydb_server_occ.cc:54-121 | in every run a transaction is refused if and only if two of its reads of one slot, the comparisons at commit included, found different values in the store |
| `Occ.NoFalseAbort` | lab41/ydb_server_occ.cc:92-129 | a transaction that is not given up and never finds two values in one slot is running or committed, whatever others changed meanwhile |
| `Occ.UndisturbedNeverAborts` | lab41/ydb_server_occ.cc:42-129 | in particular one whose read slots nobody else changes |
| `Occ.RepeatableReads` | lab41/ydb_server_occ.cc:104-127 | two gets of a slot the transaction has not written return the same value |
| `OccRequests.OneEvent` | lab41/ydb_server_occ.cc:92-157 | a get, set or del adds its own event to the trace of its transaction, and no step adds any other |
| `OccRequests.TraceIsAsked` | lab41/ydb_server_occ.cc:92-157 | in every run the trace of a transaction is what its client asked for, in order |
| `OccRequests.CommitDoesWhatWasAsked` | lab41/ydb_server_occ.cc:42-77 | every commit of every run leaves the value last set, nothing where the last request was a del, and every other slot as it was, and its gets returned what its predecessors' store and its earlier requests make them |
| `OccServer.Server.Begin` | lab41/ydb_server_occ.cc:33-40 | a fresh id with empty logs |
| `OccServer.Server.Get` | lab41/ydb_server_occ.cc:92-129 | own write first, then the store, with the abort exactly on a changed re-read, which is the step of the interleaved model |
| `OccServer.Server.Set` | lab41/ydb_server_occ.cc:131-157 | the write is logged and the store untouched; a delete is a write of the empty value |
| `OccServer.Server.Abort` | lab41/ydb_server_occ.cc:79-90 | only the transaction's record goes |
| `OccServer.Server.Validate` | lab41/ydb_server_occ.cc:54-66 | the loop answers whether every logged read still holds |
| `OccServer.Server.Commit` | lab41/ydb_server_occ.cc:42-77 | commits exactly when every logged read still holds, and then the store is the old one with the write log on it; either way it is a run of the interleaved model that ends the transaction so |
| `OccServer.Server.WriteBack` | lab41/ydb_server_occ.cc:68-72 | the loop of puts applies the whole write log |
| `TwoPhase.Serializable` | lab41/ydb_server_2pl.cc:121-316 | in every interleaving, slot locks being released one by one during commit, the store is that of the serial run in the order DEPENDENCY was taken, and every get is explained by it |
| `TwoPhase.WaitsStayAcyclic` | lab41/ydb_server_2pl.cc:28-94 | in every reachable state the wait-for graph is acyclic and mentions only active transactions |
| `TwoPhase.LocksMatchLogs` | lab41/ydb_server_2pl.cc:72-94 | log keys and lock set of an active transaction are equal and its handlers are its own; after it ended nothing mentions it |
| `TwoPhaseWaits.RecordedWaitsAreReal` | lab41/ydb_server_2pl.cc:28-94 | in every reachable state outside a commit or abort, a recorded edge is a transaction that waits for a slot the other one has locked |
| `TwoPhaseWaits.NoAbortWithoutDeadlock` | lab41/ydb_server_2pl.cc:28-70 | in every run a request is told to abort only if its wait would close a circle of transactions that do wait for each other |
| `TwoPhaseWaits.WaitsAreRecordedExactly` | lab41/ydb_server_2pl.cc:210-221 | all along a run every wait is in the recorded graph if and only if no slot is handed over to one transaction while another one waits for it too |
| `TwoPhaseWaits.AbortsExactlyOnDeadlock` | lab41/ydb_server_2pl.cc:28-70 | while all waits are recorded, a request for a slot is told to abort if and only if it would close a circle of waits |
| `TwoPhaseWaits.DeadlockStays` | lab41/ydb_server_2pl.cc:216-221 | two transactions that wait for each other do so after every continuation of the run |
| `TwoPhaseWaits.DeadlockUnnoticed` | lab41/ydb_server_2pl.cc:155-161 | a run from any store after which two transactions wait for each other for ever and nobody is told to abort, because the edges of a waiter to the next holder are not recorded |
| `TwoPhaseMeaning.GetsMatchExactly` | lab41/ydb_server_2pl.cc:184-227 | the gets of a transaction return what the operations mean if and only if none reads a slot it deleted itself |
| `TwoPhaseMeaning.LeavesExactly` | lab41/ydb_server_2pl.cc:136-154 | on any store, the log leaves what the operations mean if and only if the marker is neither the last value set in a slot nor the value read in a slot not written |
| `TwoPhaseMeaning.CommittedMeanWhatTheySay` | lab41/ydb_server_2pl.cc:121-316 | every committed transaction of every run from any store means what it says in the serial order if and only if these conditions hold of its trace |
| `TwoPhaseMeaning.OwnDeleteReadsMarker` | lab41/ydb_server_2pl.cc:199-206 | a get after an own delete returns the marker |
| `TwoPhaseMeaning.MarkerIsLost` | lab41/ydb_server_2pl.cc:136-154 | a value equal to the marker is not stored, and one already there is removed by a transaction that only reads it |
| `TwoPhaseRequests.OneEvent` | lab41/ydb_server_2pl.cc:184-316 | a get, set or del adds its own event to the trace of its transaction when it is done, and no step adds any other |
| `TwoPhaseRequests.TraceIsAsked` | lab41/ydb_server_2pl.cc:184-316 | in every run the trace of a transaction is what its client asked for, in order, but for a request that still waits or is refused |
| `TwoPhaseRequests.CommitDoesWhatWasAsked` | lab41/ydb_server_2pl.cc:121-165 | every commit of every run leaves nothing where the last request was a del, the value where it was a set of another value than the marker, and every other slot as it was unless it held the marker |
| `TwoPhaseRequests.GetsSeeWhatWasAsked` | lab41/ydb_server_2pl.cc:184-227 | its gets returned what its predecessors' store and its earlier requests make them, a slot it had deleted as the marker |
| `TwoPhaseRequests.DeletedIsGone` | lab41/ydb_server_2pl.cc:274-316 | after every run whose last commit asked last for a del of a slot, the store has nothing there |
| `TwoPhaseRequests.DeleteDeletes` | lab41/ydb_server_2pl.cc:274-316 | begin, del and commit on any store leave nothing in the slot |
| `TwoPhaseServer.Server.Begin` | lab41/ydb_server_2pl.cc:109-119 | a fresh id without locks or log |
| `TwoPhaseServer.BegunShown` | lab41/ydb_server_2pl.cc:109-119 | what a begin does to the tables is its step of the interleaved model |
| `TwoPhaseServer.RequestedShown` | lab41/ydb_server_2pl.cc:184-316 | what a request does to the tables is its step of the interleaved model |
| `TwoPhaseServer.GrantedShown` | lab41/ydb_server_2pl.cc:216-221 | and so is what follows the grant of a lock |
| `TwoPhaseServer.CommittedShown` | lab41/ydb_server_2pl.cc:121-165 | a commit is a run of commit steps of that model, slot by slot |
| `TwoPhaseServer.AbortedShown` | lab41/ydb_server_2pl.cc:72-94 | an abort is a run of abort steps of that model |
| `TwoPhaseServer.Server.Dfs` | lab41/ydb_server_2pl.cc:51-70 | the search without a visited set terminates and is true exactly when there is a path |
| `TwoPhaseServer.Server.CheckCycle` | lab41/ydb_server_2pl.cc:28-49 | a cycle is reported exactly when the holder reaches the requester; otherwise the edge is added |
| `TwoPhaseServer.Server.Request` | lab41/ydb_server_2pl.cc:184-316 | what get, set and del do before they take a slot lock: an own slot is answered from the log, which always has it; a cycle aborts |
| `TwoPhaseServer.Server.Granted` | lab41/ydb_server_2pl.cc:216-221 | what they do once they have the lock |
| `TwoPhaseServer.Server.ClearEdges` | lab41/ydb_server_2pl.cc:79-83 | the loop removes exactly the edges that mention the transaction |
| `TwoPhaseServer.Server.ReleaseLocks` | lab41/ydb_server_2pl.cc:72-94 | locks, handlers, edges and record of the transaction go, nothing else |
| `TwoPhaseServer.Server.Commit` | lab41/ydb_server_2pl.cc:121-165 | the log is applied to the store, exactly what was locked is released, and the answer is OK exactly for a known transaction |
| `TwoPhaseServer.Server.WriteBack` | lab41/ydb_server_2pl.cc:135-154 | the loop applies and releases every logged slot, removing those with the marker |
| `WaitGraph.AddEdgeAcyclic` | lab41/ydb_server_2pl.cc:38-45 | adding an edge keeps the graph acyclic if and only if its head does not reach its tail |
| `WaitGraph.BelowShrinks` | lab41/ydb_server_2pl.cc:51-70 | along an edge of an acyclic graph the set of reachable nodes gets smaller, which bounds the search |
| `Blocks.Layout` | lab41/inode_manager.h:82-94 | where inode blocks are and where data blocks begin |
| `Blocks.WordsBack` | lab41/inode_manager.cc:195-197 | words stored in a block of bytes are read back |
| `Blocks.FirstFree` | lab41/inode_manager.cc:37-47 | the first unmarked data block, or 0 exactly when there is none |
| `Blocks.AllocTakesOne` | lab41/inode_manager.cc:30-48 | allocation takes exactly one free block, or fails exactly when none is free |
| `Inodes.PutGet` | lab41/inode_manager.cc:326-370 | an inode is read back from the disk as it was put, and no other inode changes |
| `Ownership.OwnDrops` | lab41/inode_manager.cc:240-246 | freeing the tail of a file keeps marked blocks and owned blocks equal and disjoint |
| `Ownership.AllocNthKeeps` | lab41/inode_manager.cc:180-204 | one more block, with an indirect block at the boundary, keeps ownership, the inode table and every byte in use |
| `Ownership.GrowKeeps` | lab41/inode_manager.cc:232-238 | growing to any size does, and takes exactly the counted number of blocks |
| `InodeFiles.ReadChunks` | lab41/inode_manager.cc:160-173 | reading the blocks written gives the bytes back; what lies behind the end is cut off |
| `InodeFiles.WriteFileRefines` | lab41/inode_manager.cc:207-271 | with room, a write of any size below the maximum over any old size makes the file exactly those bytes, leaves every other file alone and keeps ownership; the whole invariant is kept if and only if no text went into an unused inode |
| `InodeFull.WriteNeedsRoom` | lab41/inode_manager.cc:29-48 | a write survives and keeps the invariant if and only if its blocks fit on the disk and no text goes into an unused inode |
| `InodeFailures.FullDiskLosesOwnership` | lab41/inode_manager.cc:29-48 | a fitting run from a formatted disk after which a largest write dies or breaks ownership |
| `InodeRuns.FormatInv` | lab41/inode_manager.cc:62-75 | a formatted disk has the invariant and only empty unused files |
| `InodeRuns.ReadFileReturns` | lab41/inode_manager.cc:140-178 | under the invariant read_file returns the bytes of the file |
| `InodeRuns.AllocInodeRefines` | lab41/inode_manager.cc:297-322 | the first unused inode becomes an empty file; it fails exactly when there is none |
| `InodeRuns.AllocIsFirst` | lab41/inode_manager.cc:297-322 | its number is the least one, from 1 on, of an inode not in use |
| `InodeRuns.RemoveFileRefines` | lab41/inode_manager.cc:374-423 | a removal empties exactly that file, and keeps ownership if and only if the file had no more than NDIRECT blocks |
| `InodeFailures.LargeRemovalLosesOwnership` | lab41/inode_manager.cc:394-423 | a run from a formatted disk that creates, writes and removes a file of 101 blocks and loses ownership |
| `InodeFailures.WriteChangesAnotherFile` | lab41/inode_manager.cc:188-198 | a run from a formatted disk in which, after such a removal, writing one file changes what another one reads |
| `InodeRuns.RunRefines` | lab41/inode_manager.cc:110-423 | every fitting run of allocations, writes and removals keeps ownership and computes the same table of files as plain assignments do |
| `InodeRuns.ReadAfterRun` | lab41/inode_manager.cc:98-178 | from a formatted disk, reading any file after any fitting run gives what that table holds |
| `InodeManager.Manager.constructor` | lab41/inode_manager.cc:62-75 | formats the disk and marks exactly the system blocks |
| `InodeManager.Manager.AllocBlock` | lab41/inode_manager.cc:29-48 | the loop finds the first unmarked data block and marks it, or returns 0 |
| `InodeManager.Manager.FreeBlock` | lab41/inode_manager.cc:50-58 | exactly one mark is cleared |
| `InodeManager.Manager.ReadInode` | lab41/inode_manager.cc:326-355 | the inode in the bytes of its block |
| `InodeManager.Manager.StoreInode` | lab41/inode_manager.cc:357-370 | the inode's bytes are replaced, the rest of its block kept |
| `InodeManager.Manager.GetNthBlockid` | lab41/inode_manager.cc:110-136 | direct or through the indirect block; stops past the maximum or without an indirect block |
| `InodeManager.Manager.AllocNthBlock` | lab41/inode_manager.cc:180-204 | a pointer is allocated directly or in an indirect block made on demand |
| `InodeManager.Manager.ReadFile` | lab41/inode_manager.cc:140-178 | computes the specified bytes and stops exactly where an assert fails |
| `InodeManager.Manager.WriteFile` | lab41/inode_manager.cc:207-271 | computes the specified disk and marks and stops exactly where an assert fails, with a full disk too |
| `InodeManager.Manager.AllocInode` | lab41/inode_manager.cc:297-322 | the loop takes the first unused inode |
| `InodeManager.Manager.FreeInode` | lab41/inode_manager.cc:374-392 | the inode is cleared but for its pointers |
| `InodeManager.Manager.RemoveFile` | lab41/inode_manager.cc:394-423 | frees the blocks and then the inode as stored on disk |
| `Extents.UpdateCacheFixes` | lab41/extent_server.cc:36-80 | refreshing an extent, under its masked id, and telling its clients makes every cache agree on it again |
| `Extents.CallKeeps` | lab41/extent_server.cc:82-186 | every fitting call of every client with any id keeps all caches coherent, and the attributes it refreshes become those of the inode |
| `Extents.RemoveKeepsCoherent` | lab41/extent_server.cc:166-186 | also a fitting removal, after which an absent entry reads like the freed inode |
| `Extents.BootCoherent` | lab41/extent_server.cc:23-26 | a new server is coherent but for the attributes of the root |
| `Extents.CachesAreCoherent` | lab41/extent_client.cc:70-106 | after every fitting run any client's get returns exactly the bytes on disk, and its getattr the inode's attributes if and only if the extent is not the root or some call of the run refreshed the root: a put of it, or a create, symlink or remove in it |
| `Extents.CallPeers` | lab41/extent_server.cc:36-186 | every call that survives, fitting or not, keeps what every client has cached registered and equal to what the server has cached |
| `Extents.ClientsSeeTheServer` | lab41/extent_client.cc:70-106 | after every run that survives every get and getattr of every client returns what the server has cached |
| `Extents.TextStaysRightExactly` | lab41/extent_server.cc:36-186 | a call that survives keeps the server's text that of the files if and only if it changes no file it does not read back |
| `Extents.GetsAreRightExactly` | lab41/extent_client.cc:70-87 | all along a run that survives every client's get returns what is in the file, if and only if every call of the run does that |
| `FileSystemFailures.StaleGet` | lab41/extent_server.cc:117-149 | a run of creates, puts and one removal of a file of 101 blocks from a new server, after which every client gets text that is not in the file |
| `Extents.PutThenGet` | lab41/extent_client.cc:70-117 | what one client puts every client gets, whatever it had cached and whether the inode is in use or not, if and only if the id is that of an inode or nothing was put |
| `Extents.RootAttrStale` | lab41/extent_server.cc:151-164 | on a new server getattr of the root does not return the inode's attributes |
| `ExtentAttrs.SizeIsLength` | lab41/inode_manager.cc:273-292 | the size in an inode is the number of bytes its file reads as |
| `ExtentAttrs.GetAttrTells` | lab41/inode_manager.cc:273-292 | after every fitting run a getattr of any client tells the type of the file, its length, and as all three times the clock of the last call that wrote it, unless the extent is a root not refreshed yet |
| `ExtentAttrs.PutThenGetAttr` | lab41/inode_manager.cc:262-266 | after a put every client's getattr tells the length put and three times the clock of the put |
| `ExtentCaches.ExtentClient.Get` | lab41/extent_client.cc:70-87 | a hit is local, a miss asks the server and registers |
| `ExtentCaches.ExtentClient.GetAttr` | lab41/extent_client.cc:89-106 | the same for attributes |
| `ExtentCaches.ExtentClient.UpdateHandler` | lab41/extent_client.cc:136-143 | both entries of the extent are replaced |
| `ExtentCaches.ExtentClient.RemoveHandler` | lab41/extent_client.cc:128-134 | both entries of the extent go |
| `ExtentCaches.ExtentServer.constructor` | lab41/extent_server.cc:23-26 | a formatted disk with a root directory and empty caches |
| `ExtentCaches.ExtentServer.Get` | lab41/extent_server.cc:130-149 | returns the cached text, an absent entry as empty, and registers the client |
| `ExtentCaches.ExtentServer.GetAttr` | lab41/extent_server.cc:151-164 | the same for attributes |
| `ExtentCaches.ExtentServer.Broadcast` | lab41/extent_server.cc:62-80 | the loop tells exactly the clients registered for the extent and disturbs no other |
| `ExtentCaches.ExtentServer.UpdateCache` | lab41/extent_server.cc:36-60 | text and attributes are read back from the inode and published |
| `ExtentCaches.ExtentServer.Put` | lab41/extent_server.cc:117-128 | write, publish, register, under the masked id |
| `ExtentCaches.ExtentServer.Create` | lab41/extent_server.cc:82-98 | a new inode, its entry in the parent's text, both published |
| `ExtentCaches.ExtentServer.CreateSymLink` | lab41/extent_server.cc:100-115 | the same with the link as its text; the number returned is the new inode's |
| `ExtentCaches.ExtentServer.Remove` | lab41/extent_server.cc:166-186 | the file goes, its entry is erased from the parent's text, its cache entries are dropped everywhere |
| `Directory.NumberBack` | lab41/yfs_client.cc:25-40 | a number printed in decimal is read back |
| `Directory.Find` | lab41/yfs_client.cc:323-338 | the first position of a character from a start, or none |
| `Directory.FindText` | lab41/extent_server.cc:174-174 | the first occurrence of a text, or none |
| `Directory.Readdir` | lab41/yfs_client.cc:307-342 | the cursor loop lists the text, on every text on which it ends |
| `Directory.ListingEndsExactly` | lab41/yfs_client.cc:322-339 | that loop ends if and only if the text is closed |
| `Directory.EntryCloses` | lab41/extent_server.cc:89-91 | text that ends with an appended entry is closed, whatever the names in it are |
| `Directory.ListBackExactly` | lab41/yfs_client.cc:307-342 | listing the text of any entries ends, and gives exactly those entries if and only if no name has a ':' |
| `Directory.ColonNameListsShort` | lab41/yfs_client.cc:307-342 | a name like "a:b" is listed as "a" |
| `DirectoryOps.Lookup` | lab41/yfs_client.cc:273-305 | finds the number of the first entry of that name, and none exactly when there is none |
| `DirectoryOps.AppendText` | lab41/extent_server.cc:89-91 | appending an entry's text is adding the entry at the end |
| `DirectoryOps.EraseExactly` | lab41/extent_server.cc:173-177 | the erase takes out exactly the named entry if and only if the name's first occurrence starts it |
| `DirectoryOps.EraseByEntries` | lab41/extent_server.cc:173-177 | that is, if and only if the name occurs in no earlier name and in no earlier printed number |
| `DirectoryOps.EraseWrongEntry` | lab41/extent_server.cc:173-177 | a name that is part of an earlier one is not removed, but the earlier entry is changed |
| `DirectoryOps.StepMatches` | lab41/yfs_client.cc:208-271 | one create, mkdir, symlink or unlink does to the text what it should do to the list |
| `DirectoryOps.RunMatches` | lab41/yfs_client.cc:414-460 | after every run in one directory the text lists exactly the entries made and not dropped, and no name and no number occurs twice |
| `FileTree.MakeKeeps` | lab41/yfs_client.cc:208-271 | the number the allocator gives a new file is fresh in every directory, because everything listed is in use; the lists stay right |
| `FileTree.DropKeeps` | lab41/yfs_client.cc:440-460 | an unlink takes out the one entry that lists the inode, a directory or not; the lists stay right |
| `FileTree.WriteKeeps` | lab41/yfs_client.cc:12-23 | so they do when a directory is emptied, as the constructor of every client does with the root |
| `FileTree.RunKeepsListing` | lab41/yfs_client.cc:208-460 | over every run directories list distinct clean names, only inodes in use, and no inode twice in the whole file system |
| `FileForest.StepForest` | lab41/yfs_client.cc:208-460 | every operation keeps the directories a forest: besides that, no directory is below itself |
| `FileForest.OrphanStays` | lab41/yfs_client.cc:208-460 | an inode in use that no directory lists is never listed again and never freed |
| `FileForest.WholeIsConnected` | lab41/yfs_client.cc:208-460 | in a forest everything in use is listed if and only if everything in use can be reached from the root |
| `FileForest.TreeExactly` | lab41/yfs_client.cc:208-460 | over every run from a new file system the directories are a forest, and one tree from the root with everything in use if and only if no directory that had entries was dropped or emptied |
| `FileSystem.CreateIsMake` | lab41/extent_server.cc:82-98 | a create through caches, inode manager and disk does to the table of files what is meant |
| `FileSystem.SymLinkIsMake` | lab41/extent_server.cc:100-115 | so does a symbolic link |
| `FileSystem.RemoveIsDrop` | lab41/extent_server.cc:166-186 | and a removal |
| `FileSystem.RunIsMeant` | lab41/yfs_client.cc:12-460 | a fitting run of well-made calls of any clients does to the table of files what the run of meant operations does |
| `FileSystem.FileSystemIsTree` | lab41/yfs_client.cc:12-460 | from a new server, after every such run, the directories on the disk are a forest, and one tree with everything in use if and only if no call removed or emptied a directory that had entries |
| `FileSystemFailures.SecondMount` | lab41/yfs_client.cc:12-23 | a client mounts and creates a file, another client mounts: all calls fit and are well made, and the file is in use and listed nowhere |
| `DirectoryOps.WriteAt` | lab41/yfs_client.cc:376-412 | the loops put the data at its offset, fill holes with zeroes, keep the other bytes, and reading there gives the data back |
| `DirectoryOps.ReadAt` | lab41/yfs_client.cc:344-374 | a read has the smaller of its size and what is left of the file, nothing past the end, and byte i is that at its offset plus i |
| `DirectoryOps.ReadAfterWrite` | lab41/yfs_client.cc:344-412 | a read at any size and offset after a write at any offset gives the patched bytes, cut at the new length |
| `FileCalls.WriteThenRead` | lab41/yfs_client.cc:344-412 | so it is through all caches and the disk, whichever clients write and read |
| `FileCalls.MadeIsFound` | lab41/extent_server.cc:82-115 | the number a create or symlink returns is the least free one and what every client then finds under the name; behind it is a file of that type and text, the directory gains that entry alone, and no other file changes |
| `FileCalls.DroppedIsGone` | lab41/extent_server.cc:166-186 | after an unlink no client finds the name, the file is free and empty, the directory loses that entry alone, and no other file changes |
| `FileCalls.PutWritesMasked` | lab41/extent_server.cc:117-128 | a put writes the inode named by the lower 31 bits of its id and no other |

## Left out

- FUSE glue, server mains, sockets, polling, thread pools, clocks and retransmission timers: they decide when the steps modelled here happen, not what they do.
- Plain lock server and client: the transaction servers use them as a mutex; nothing here depends on how that mutex is built.
- The server without transactions, handles and fifo queues: no layer modelled here reads or changes their state.
- C++ integer widths in buffer sizes, xids and extent ids are unbounded here.
- Checksummed packet headers: the build does not define them, so the header is 24 bytes.
- The lossy-test duplicates of requests: the network of the model already repeats any packet.
- Dispatch to old server instances and clients that opt out of at-most-once.
- Reads of a block outside the disk: they give zeroes, where the source leaves the caller's buffer as it was.
- Unlinking a name that is not in the directory: the source then removes an uninitialised inode number.
- setattr, readlink and the type tests of the file system client: direct uses of get, put and getattr.
- MarshalBuffer.Unmarshaller.Get: does not model the 32-bit wrap-around of the bounds check for counts near 2^32, because what the source then reads lies outside its buffer.
- TwoPhaseServer.Server.Begin: does not model a transaction id at INODE_NUM or above, because the source then writes outside its dependency matrix.
- Directory.NumberBack: does not model 64-bit overflow of the parsed number, because inode numbers are below 1024, nor leading blanks and a sign, which no create writes.
- Directory.Readdir: does not model the endless loop on text that is not closed; that it is endless is Directory.ListingEndsExactly.
