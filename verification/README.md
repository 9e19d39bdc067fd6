# libfabric core structures, modelled and proved in Dafny

This project models the lock-free, linked and ring structures at the core of
libfabric and proves what they are for. `dafny verify dfyconfig.toml` checks all
of it with Dafny 4.11.

- `AtomicQueue`, `AtomicQueueSafety`, `AtomicQueueCalls`: the bounded multi-producer, single-consumer
  queue as a state machine with one step per access to shared memory. Producers keep
  their own, possibly stale, position; a failed compare-and-swap may or may not refresh
  it, as the two atomic back ends differ (`libfabric/include/ofi_atom.h:171-176` and
  `libfabric/include/ofi_atom.h:399-404`). Whole calls, with the steps of other threads in
  between, are runs of this machine.
- `UtHash`, `UtHashGrowth`, `UtHashSort`, `StableSort`, `UtHashRuns`, `UtHashHistory`: the
  intrusive hash table, with its list and bucket chains as links in an explicit memory,
  bucket doubling, the in-place mergesort, whole runs against a plain map, and what the
  buckets owe to such a run.
- `CompletionQueue`: the ring whose slots may stand for a run of entries in a side
  list, as one unbounded FIFO.
- `Iov`, `ByteQueues`, `BufferedSocket`: scatter/gather copies over one flat memory, the
  staging buffer, and the socket that uses both, as one byte stream in each direction.
- `RecvWindow`, `ReorderBooks`, `ReorderPeer`, `ReorderRuns`, `RingBuffer`: the reorder
  window over wrapping ids, the peer that keeps what does not fit it on an overflow list,
  its runs, and the byte ring with a staged suffix, over counters that wrap at 2^64.
- `DLists`, `PoolIndex`, `PoolLinks`, `IndexedPool`: circular lists in one memory, and the
  indexed buffer pool, whose marks and lists are those links.
- `PollWork`, `PollFds`: the poll set as a map, and its queue of requests.
- `Providers`, `InfoList`: the provider registry and the reordering of the info list,
  as relinking of singly linked lists.
- `Basics`, `Bits`, `Wrap`, `Links`, `Chains`: sequences, masks, wrapping counters and
  linked lists in an explicit memory, shared by the others.

A structure the source updates in place is a class whose methods follow the C code;
pure specification functions say what each method computes, and lemmas prove the
properties of those functions. An address is an index into an explicit memory, one
sequence per link field; where a structure's own links are not the point, a list is a
sequence. Ghost fields hold the abstract value (the FIFO, the map, the two streams) and
`Valid` ties it to the real fields. A region under a lock is one step. What the
environment decides is a parameter, so that every contract holds for all of its
choices: socket answers, failing allocations, hash functions, comparison functions and
the scheduling of threads.

## Where the code falls short of its intent

- The atomic queue needs two cells. Its init accepts one, and then "posted" and "free
  for the next lap" are the same `seq`: `AtomicQueueSafety.UnsafeAtOne` is a run that
  returns a later entry in place of an earlier one, and `AtomicQueueSafety.SafetyIff`
  is the exact condition.
- `ofi_recvwin_get_next_msg` tests the address of the head slot, which is never NULL,
  so it cannot report that the next message is missing: `RecvWindow.MissedMessage` is a
  fresh window on which it counts 2^64 - 1 waiting messages, and
  `RecvWindow.Window.GetNextMsg` is right exactly when the message waits. Its caller looks
  first.
- `ofi_recvwin_queue_msg` under an id that waits makes the counters count two messages
  where one is left: `RecvWindow.QueuedTwice`; `RecvWindow.Window.QueueMsg` says exactly
  when. It does not happen to a peer, which appends.
- `ofi_recvwin_slide` over a message that waits leaves it in its cell, where it stands for
  the position one ring length later: `RecvWindow.Window.Slide`. This happens to a peer
  when a failure to process a message ended a drain and another packet for the expected
  message comes in: `ReorderRuns.SteppedOver` is a run, `ReorderRuns.AccountedIff` is the
  exact condition over all runs, and until such a packet comes nothing more is handed on:
  `ReorderRuns.Stalls`.
- The wrapping range test is right for all ids only below half the id space:
  `RecvWindow.InRangeIff`.
- The poll set counts on a slot for every descriptor below its size. That fails when the
  signal descriptor is not below the size, or is itself registered, and all other
  descriptors are: `PollFds.RoomIff` is the exact condition, and `PollFds.HighSignal` and
  `PollFds.SignalRegistered` are runs that store behind the last slot. Both tables are one
  block, so this overwrites the context of descriptor 0.
- `ofi_pollfds_mod` changes the registered entry, or the first queued request, although
  later requests for the descriptor may be queued: `PollFds.ChangeIsLost` is a run in
  which the change is lost, and `PollWork.ModInTime` is the exact condition.
- `ofi_cq_write` on a queue that keeps addresses leaves the slot's earlier address in
  place: `CompletionQueue.StaleAddress` is a run that reads it, and
  `CompletionQueue.Cq.Write` says exactly when.
- `ofi_rbwrite` and `ofi_rbread` check nothing: `RingBuffer.RingBuf.Write` and
  `RingBuffer.RingBuf.Read` say exactly when the ring stays right, and
  `RingBuffer.WrittenOver` and `RingBuffer.ReadUnderflow` are runs in which it does not.
  The test callers make, `ofi_rbavail`, does not see staged bytes: `RingBuffer.RingBuf.Avail`.
- `ofi_reorder_info` moves the tcp entries to the end of the list when there is no
  tcp;ofi_rxm entry to put them before: `InfoList.ReorderedAtEnd`, with
  `InfoList.MovedBack` as an example; `InfoList.ReorderedIff` says exactly when it moves
  nothing.

## Model

| member | source | states |
|---|---|---|
| `AtomicQueueSafety.SafetyIff` | libfabric/include/ofi_atomic_queue.h:161-238 | every run of the queue, with any number of producers and any interleaving, returns the committed entries in ticket order, none lost, repeated, reordered or altered, if and only if the queue has at least two cells |
| `AtomicQueueSafety.InvInit` | libfabric/include/ofi_atomic_queue.h:125-142 | a freshly initialised queue of two or more cells satisfies the invariant |
| `AtomicQueueSafety.InvScan` | libfabric/include/ofi_atomic_queue.h:169-184 | a producer's loads, from positions read at any earlier time, and its failed compare-and-swaps keep the invariant |
| `AtomicQueueSafety.InvCasOk` | libfabric/include/ofi_atomic_queue.h:173-177 | a successful compare-and-swap finds the cell's `seq` equal to the ticket it claims and keeps the invariant |
| `AtomicQueueSafety.InvOwned` | libfabric/include/ofi_atomic_queue.h:222-238 | the owner of a ticket, writing only that ticket's cell, keeps the invariant for all tickets and threads |
| `AtomicQueueSafety.InvHeadLoad` | libfabric/include/ofi_atomic_queue.h:207-213 | the consumer's load of `seq` and its advance over a posted ticket keep the invariant |
| `AtomicQueueSafety.InvHeadTest` | libfabric/include/ofi_atomic_queue.h:214-220 | returning an entry, or finding a no-op, keeps the invariant that what was returned is what was committed under the inspected tickets |
| `AtomicQueueSafety.InvReleaseStore` | libfabric/include/ofi_atomic_queue.h:189-200 | the release store, which frees the cell for the ticket one lap later, keeps the invariant |
| `AtomicQueueSafety.InvStep` | libfabric/include/ofi_atomic_queue.h:161-238 | every step of any thread keeps the invariant that a cell's `seq` encodes the phase of its ticket |
| `AtomicQueueSafety.InvAlways` | libfabric/include/ofi_atomic_queue.h:161-238 | the invariant holds after every run |
| `AtomicQueueSafety.InvSafe` | libfabric/include/ofi_atomic_queue.h:201-221 | the invariant gives the property: returned entries are the committed ones among the inspected tickets, and held entries are unchanged |
| `AtomicQueueSafety.OneOwner` | libfabric/include/ofi_atomic_queue.h:166-200 | in every reachable state a cell has at most one owner, a claiming producer or the consumer |
| `AtomicQueueSafety.CasClaimsFreeCell` | libfabric/include/ofi_atomic_queue.h:166-177 | a compare-and-swap that succeeds claims a cell whose `seq` still equals the ticket, although both loads may have been stale |
| `AtomicQueueSafety.NextRefusal` | libfabric/include/ofi_atomic_queue.h:168-180 | `_next` refuses exactly when, at its load of `seq`, the position was the current `write_pos` and the ticket one lap earlier was not released |
| `AtomicQueueSafety.HeadRefusal` | libfabric/include/ofi_atomic_queue.h:206-211 | the load of `_head` refuses exactly when the ticket at `read_pos` was not posted; if no producer is under way, everything committed has then been returned |
| `AtomicQueueCalls.HeadReturns` | libfabric/include/ofi_atomic_queue.h:206-220 | whatever step ends a `_head` call: either exactly one entry is returned, the one under the ticket before `read_pos`, or the ticket at `read_pos` is not posted and nothing else changes |
| `AtomicQueueCalls.HeadCall` | libfabric/include/ofi_atomic_queue.h:201-221 | a whole `_head` call, with steps of the producers in between, returns the first committed entry at or after `read_pos`, having released the no-ops before it, or comes to a ticket that is not posted and returns nothing |
| `AtomicQueueCalls.HeadFinds` | libfabric/include/ofi_atomic_queue.h:201-221 | whatever happens meanwhile, a `_head` call returns the entry that is first in line when it is called: the first that is no no-op, if all tickets up to it are posted |
| `AtomicQueueCalls.HeadBounded` | libfabric/include/ofi_atomic_queue.h:206-219 | inside a `_head` call the consumer takes at most five steps for each ticket claimed since `read_pos` |
| `AtomicQueueCalls.NextConsumerStep` | libfabric/include/ofi_atomic_queue.h:189-221 | the consumer is never stuck inside a call |
| `AtomicQueueCalls.ReleaseReturns` | libfabric/include/ofi_atomic_queue.h:189-200 | whatever step ends a `_release` call leaves the cell free for the ticket one lap later and returns nothing |
| `AtomicQueueCalls.NextReturns` | libfabric/include/ofi_atomic_queue.h:166-187 | whatever step ends a `_next` call: it claims the ticket at `write_pos` on a released cell, or refuses a full queue and changes nothing |
| `AtomicQueueCalls.NextCall` | libfabric/include/ofi_atomic_queue.h:161-188 | a whole `_next` call, with steps of others in between, returns a ticket not yet claimed when it began, so that calls one after the other get increasing tickets, or refuses a queue that is full |
| `AtomicQueueCalls.NextAlone` | libfabric/include/ofi_atomic_queue.h:166-187 | a `_next` call that runs alone returns within four steps, however stale what it has read |
| `AtomicQueueCalls.CommitsLastWrite` | libfabric/include/ofi_atomic_queue.h:222-229 | what a producer wrote last before its commit is what its ticket and its cell carry, whatever the others do in between |
| `AtomicQueueSafety.UnsafeAtOne` | libfabric/include/ofi_atomic_queue.h:144-155 | with one cell, which `_create(1)` makes, a second producer overwrites a posted entry before it is read: a concrete run returns the wrong entry |
| `Bits.AndMask` | libfabric/include/ofi_atomic_queue.h:169 | masking with a power of two minus one is the remainder by that power, for all numbers |
| `UtHash.Table.Find` | libfabric/include/uthash.h:827-846 | finds the element of a key exactly when a plain map has the key, and the same element |
| `UtHash.Table.Add` | libfabric/include/uthash.h:396-415 | is a plain map insertion for a fresh key, appends to the insertion order, and keeps list, chains and counters consistent; number of buckets, delay factors, statistics and inhibition change only by a doubling, and the keys in the new one's bucket decide whether there is one |
| `UtHash.Table.AddToTable` | libfabric/include/uthash.h:337-345 | files the element under its hash and doubles the buckets exactly when the keys that now fall into its bucket are at least ten times its delay factor plus one and expansion is not inhibited; otherwise nothing but the chain changes |
| `UtHash.FilledAdd` | libfabric/include/uthash.h:849-858 | pushing a handle on its bucket keeps every element on exactly the chain its hash leads to |
| `UtHash.FilledDel` | libfabric/include/uthash.h:871-884 | unlinking a handle from its bucket keeps all other chains and links intact |
| `UtHash.Table.Delete` | libfabric/include/uthash.h:450-477 | removes exactly one element from list, chain and map, whatever its position, and the table with the last one; nothing else about the buckets changes |
| `UtHash.Table.Replace` | libfabric/include/uthash.h:254-262 | is a plain map update, whether or not the key was present, and returns the element replaced; a table whose only element is replaced starts afresh |
| `UtHash.Table.MakeTable` | libfabric/include/uthash.h:212-242 | makes 32 empty buckets with zeroed counters, delay factors and statistics |
| `UtHash.Table.Rehome` | libfabric/include/uthash.h:934-949 | moves one handle to its bucket among the new ones and counts it against the ideal chain length |
| `UtHash.Table.Redistribute` | libfabric/include/uthash.h:932-950 | rehomes every handle of every old chain exactly once although the chain links are overwritten on the way |
| `UtHash.ShiftCeil` | libfabric/include/uthash.h:928-930 | the shift-and-mask expression is the quotient rounded up: the least bucket size that holds all items |
| `UtHash.Table.ExpandBuckets` | libfabric/include/uthash.h:915-963 | doubles the buckets, keeps every element filed, and sets `ideal_chain_maxlen` to the rounded-up quotient, `nonideal_items` to the sum of what exceeds it, each `expand_mult`, `ineff_expands` and `noexpand` |
| `UtHash.Table.Expand` | libfabric/include/uthash.h:915-963 | told from the keys alone: twice the buckets, the rounded-up ideal, the sum of what exceeds it over the buckets the keys fall into, each delay factor, and inhibition exactly after a second doubling in a row that left more than half of the items beyond the ideal |
| `UtHash.Table.LoadIs` | libfabric/include/uthash.h:849-858 | a bucket counts exactly the keys of the map that fall into it |
| `UtHash.Table.Fsck` | libfabric/include/uthash.h:515-562 | the walk over every chain and over the list finds nothing wrong in any table whose operations kept the invariant |
| `UtHash.Table.Sort` | libfabric/include/uthash.h:970-1052 | leaves a stable sorted permutation of the insertion order for any total preorder, with correct links, head and tail, and leaves the chains, hence lookups, untouched |
| `UtHashRuns.Perform` | libfabric/include/uthash.h:156-166 | one lookup, add, replacement, delete or sort answers and acts as on a plain map, and only an addition may change the shape of the buckets |
| `UtHashRuns.Run` | libfabric/include/uthash.h:396-477 | over any run of adds with fresh keys, replacements, deletes, lookups and sorts, through any number of doublings, every answer is that of the plain map, and the shape of the buckets goes from call to call as the keys say |
| `UtHashHistory.WhenDoubles` | libfabric/include/uthash.h:849-868 | in every run from an empty table a call doubles the buckets exactly when it adds a key to a bucket that is then full and doubling is not off |
| `UtHashHistory.ShapeIsOfLastDoubling` | libfabric/include/uthash.h:915-963 | delay factors, statistics and number of buckets are those the last doubling left, or those of a new table if there was none since it was made |
| `UtHashHistory.GivesUpIff` | libfabric/include/uthash.h:953-957 | over every run, doubling is off if and only if the last two doublings of this table both left more than half of the items beyond the ideal length |
| `UtHashHistory.BucketsAre` | libfabric/include/uthash.h:951-952 | there are 32 buckets, doubled once for each doubling since the table was made |
| `UtHashHistory.CollidingRun` | libfabric/include/uthash.h:849-963 | any run of additions of keys with one hash doubles at the 10th and at the 110th and never again |
| `UtHashHistory.Collide` | libfabric/include/uthash.h:849-963 | the table itself after n such additions: 32 buckets up to the 9th, 64 up to the 109th, 128 with doubling off ever after |
| `UtHashSort.MergeRuns` | libfabric/include/uthash.h:996-1037 | the link-by-link merge of two runs behind the list built so far yields that list followed by the sequence merge, links and tail included |
| `UtHashSort.Split` | libfabric/include/uthash.h:986-995 | steps over the left run: its length is the run length or what is left of the list |
| `UtHashSort.PassList` | libfabric/include/uthash.h:980-1042 | one in-place pass computes the sequence pass, and `nmerges` is at most one exactly when two runs held everything |
| `UtHashSort.SortList` | libfabric/include/uthash.h:979-1049 | terminates with a stable sorted permutation, fully linked both ways |
| `StableSort.MergeSorted` | libfabric/include/uthash.h:1010-1025 | merging two sorted runs gives a sorted run |
| `StableSort.MergeClass` | libfabric/include/uthash.h:1010-1025 | merging keeps elements of equal rank in order, left run first |
| `StableSort.PassStep` | libfabric/include/uthash.h:984-1039 | a pass turns sorted runs of length w into sorted runs of length 2w, as a stable permutation |
| `CompletionQueue.Cq.constructor` | libfabric/prov/util/src/util_cq.c:679-686 | an empty queue over a power-of-two ring, with every stored address zero |
| `CompletionQueue.Cq.UsedCnt` | libfabric/include/ofi_rbuf.h:90-93 | the difference of the two wrapping counters is the number of slots in use |
| `CompletionQueue.Cq.WriteEntry` | libfabric/include/ofi_util.h:623-635 | a plain completion takes the next slot and reads back with whatever address that slot holds |
| `CompletionQueue.Cq.WriteSrcEntry` | libfabric/include/ofi_util.h:637-644 | the completion takes the next slot and reads back with its address, which is stored in that slot and no other |
| `CompletionQueue.Cq.Write` | libfabric/include/ofi_util.h:646-662 | appends to the FIFO, in the ring while two slots are free and else through the side list; fails only without memory, changing nothing; the address read back is FI_ADDR_NOTAVAIL if and only if the queue keeps no addresses, the entry overflows, or the slot was left with that |
| `CompletionQueue.Cq.WriteSrc` | libfabric/include/ofi_util.h:664-681 | the same with an address, which the reader gets back on either path and which stays in the slot exactly if one was taken |
| `CompletionQueue.Cq.InsertAux` | libfabric/prov/util/src/util_cq.c:45-55 | appends to the FIFO with a slot of its own or, in a full ring, behind the tail slot |
| `CompletionQueue.Cq.WriteOverflow` | libfabric/prov/util/src/util_cq.c:57-82 | appends a successful completion through the side list, or fails without memory |
| `CompletionQueue.Cq.WriteError` | libfabric/prov/util/src/util_cq.c:84-125 | appends an error through the side list, or fails without memory |
| `CompletionQueue.RingJoin` | libfabric/prov/util/src/util_cq.c:48-54 | in a full ring the tail slot stands for side entries, so a further entry can join its run |
| `CompletionQueue.HeadEntry` | libfabric/include/ofi_util.h:588-593 | a head slot flagged AUX has a side entry bound to it at the front of the side list, as the reader asserts |
| `CompletionQueue.RingPop` | libfabric/include/ofi_util.h:607-615 | the test on the next side entry gives the slot back exactly when the run behind it is over |
| `CompletionQueue.Cq.ReadHead` | libfabric/include/ofi_util.h:581-616 | takes the oldest completion and frees its slot with the last of its run; an error stays and nothing changes |
| `CompletionQueue.Cq.Read` | libfabric/include/ofi_util.h:557-621 | returns the completions before the first error, in order, and removes exactly those; fewer than asked for only if it met an error or returned as many as there were slots in use; "again" exactly on an empty queue, "error available" exactly with an error at the head, which stays |
| `CompletionQueue.Cq.ReadErr` | libfabric/prov/util/src/util_cq.c:280-350 | takes the head if it is an error and leaves a successful completion |
| `CompletionQueue.Cq.Run` | libfabric/include/ofi_util.h:557-681 | over any mix of writes, overflow writes, errors and reads every call is served as an unbounded FIFO serves it: a write succeeds if and only if it has memory or needs none, a read returns as much of what stands first as it may, with the right code, an error read exactly the error at the head; what readers got, followed by what is queued, is what was posted, in order |
| `CompletionQueue.TraceConserves` | libfabric/include/ofi_util.h:557-681 | calls served one by one as on a FIFO lose, repeat and reorder nothing over the whole run |
| `CompletionQueue.StaleAddress` | libfabric/include/ofi_util.h:623-662 | on a queue of two slots with addresses: post with address 7, read, post with 8, read, post without an address, read: the last read returns 7 |
| `Iov.TotalLen` | libfabric/include/ofi_iov.h:48-54 | is the number of addresses the list covers |
| `Iov.BytesToCopy` | libfabric/include/ofi_iov.h:86-106 | how many bytes of a segment a copy uses and where, and the size and offset left for the next |
| `Iov.CopyIovBuf` | libfabric/src/iov.c:40-61 | moves min(size, max(0, total - offset)) bytes and is exactly a scatter to, or a gather from, that window of the list's addresses; the other side is unchanged |
| `Iov.CopyIov` | libfabric/include/ofi_iov.h:111-141 | the single-segment fast path and the loop promise the same effect |
| `Iov.Locate` | libfabric/include/ofi_iov.h:227-256 | names the segment and offset of a flat offset, and fails exactly beyond the end |
| `Iov.RoundTrip` | libfabric/src/hmem.c:422-473 | scatter then gather returns the data, gather then scatter changes nothing, and no other address is touched |
| `Iov.DisjointDistinct` | libfabric/src/hmem.c:422-473 | segments that do not overlap cover no address twice |
| `Iov.InThenOut` | libfabric/src/hmem.c:359-389 | copying in at an offset and out again returns the bytes that fitted and leaves every other byte of memory alone |
| `ByteQueues.ByteQueue.constructor` | libfabric/include/ofi_net.h:455-464 | an empty queue whose size is cut to the block, or to zero |
| `ByteQueues.ByteQueue.Consume` | libfabric/include/ofi_net.h:482-488 | drops the oldest bytes and rewinds an empty queue |
| `ByteQueues.ByteQueue.Add` | libfabric/include/ofi_net.h:490-493 | the bytes behind the tail join the queue |
| `ByteQueues.ByteQueue.Read` | libfabric/include/ofi_net.h:495-513 | hands over the oldest bytes, as many as there are and as fit |
| `ByteQueues.ByteQueue.Write` | libfabric/include/ofi_net.h:515-521 | appends the bytes |
| `ByteQueues.ByteQueue.WriteV` | libfabric/src/common.c:1125-1142 | appends the gathered bytes of the list |
| `ByteQueues.ByteQueue.ReadV` | libfabric/src/common.c:1102-1123 | scatters the oldest bytes onto the list from an offset on |
| `BufferedSocket.Bsock.constructor` | libfabric/include/ofi_net.h:547-564 | both streams start empty |
| `BufferedSocket.Bsock.Flush` | libfabric/src/common.c:1145-1163 | moves as many staged bytes to the wire as the socket takes, without changing the stream; returns the socket's own error if it gave one, else "again" as long as bytes are left |
| `BufferedSocket.Bsock.Send` | libfabric/src/common.c:1184-1234 | wire followed by staged bytes grows by exactly the first final-length bytes of the call, for every answer of the socket, on error paths too; no error the socket gave is lost or changed and none is made up, "again" is returned only for bytes that do not fit, what fits behind staged bytes is accepted, and what the socket would block on is staged if it fits; the wire grows by what the socket said it took |
| `BufferedSocket.Bsock.SendV` | libfabric/src/common.c:1236-1294 | the same laws and outcome as for a send of the gathered bytes |
| `BufferedSocket.Bsock.SendRun` | libfabric/src/common.c:1145-1294 | over any run of sends, vectored sends and flushes on a synchronous socket, every call comes to exactly the outcome, and leaves the send buffer exactly as full, as its state before and the socket's answers say, and every call is truthful about those answers; the wire followed by the staged bytes are the accepted bytes in order |
| `BufferedSocket.Bsock.Prefetch` | libfabric/src/common.c:1311-1322 | fills the empty receive buffer, which has room, with what the socket has |
| `BufferedSocket.Bsock.Recv` | libfabric/src/common.c:1296-1346 | buffered bytes followed by those taken from the socket are the bytes delivered followed by those buffered now; a call that delivers anything succeeds unless io_uring is at work, one that delivers nothing returns the socket's own reply; the socket is asked unless the buffered bytes suffice, for the whole buffer on a small remainder |
| `BufferedSocket.Bsock.RecvV` | libfabric/src/common.c:1348-1412 | the same laws onto a list; with bytes delivered from the buffer a large remainder is left for the next call |
| `BufferedSocket.Bsock.RecvRun` | libfabric/src/common.c:1296-1412 | over any run of non-empty receives, every call takes from the socket, delivers and returns exactly what the buffer before it and the socket's reply say, and every return code is truthful about that reply; the bytes the caller finds in its own memory after each call, followed by what is buffered, are the bytes that were buffered and taken, in order; memory changes only where each call was told to put them |
| `BufferedSocket.FindsWhatIsStored` | libfabric/src/common.c:1296-1412 | what a call stored on its segments is what the caller finds there, if no two places are one |
| `RecvWindow.InRangeDist` | libfabric/include/ofi.h:224-243 | what the wrapping range test computes, for every start, length and value |
| `RecvWindow.InRangeIff` | libfabric/include/ofi.h:240-243 | the range test means fewer than `length` ids after `start`, for all ids, if and only if the length is below half the id space |
| `RecvWindow.Classify` | libfabric/include/ofi_recvwin.h:127-135 | near the expected id, the validity and processed tests sort wrapped ids as the unbounded positions are sorted |
| `RecvWindow.HomesApart` | libfabric/include/ofi_recvwin.h:78-80 | positions less than a ring apart have different cells |
| `RecvWindow.Window.Index` | libfabric/include/ofi_recvwin.h:78-80 | the computed index is the one fixed cell of the message's position, however far the window has moved |
| `RecvWindow.Window.QueueMsg` | libfabric/include/ofi_recvwin.h:72-84 | the message waits under its id, in place of one that did; the counters still count the waiting messages if and only if none did |
| `RecvWindow.QueuedTwice` | libfabric/include/ofi_recvwin.h:72-84 | two messages queued under one id: the second replaces the first, and the counters count both |
| `RecvWindow.Window.GetMsg` | libfabric/include/ofi_recvwin.h:86-96 | gives what was queued under the id, if anything |
| `RecvWindow.Window.Peek` | libfabric/include/ofi_recvwin.h:117 | shows the message whose turn it is, if it waits |
| `RecvWindow.Window.GetNextMsg` | libfabric/include/ofi_recvwin.h:98-107 | as written it always moves on and gives the head cell; that cell holds the expected message and `wcnt - rcnt` counts the messages left if and only if the expected message waits |
| `RecvWindow.Window.TakeNext` | libfabric/prov/efa/src/rdm/efa_rdm_peer.c:321 | with the caller's store the expected message leaves its cell and the window moves on; it stays right if and only if the message waited |
| `RecvWindow.MissedMessage` | libfabric/include/ofi_recvwin.h:98-107 | on a fresh window the call reports no missing message, moves on, and leaves a count of 2^64 - 1 waiting messages |
| `RecvWindow.Window.Slide` | libfabric/include/ofi_recvwin.h:109-115 | the window moves on by one id and the waiting messages keep their cells; one that waits for the position passed over then stands for the position one ring length later, so that the others alone wait if and only if there was none |
| `RecvWindow.Window.PendingCount` | libfabric/include/ofi_recvwin.h:118 | `wcnt - rcnt` is the number of waiting messages, for any wrap of the counters |
| `ReorderPeer.Peer.QueueOrAppend` | libfabric/prov/efa/src/rdm/efa_rdm_peer.c:239-256 | a packet joins the end of the chain that waits under its id, or starts one |
| `ReorderBooks.TriggerWithin` | libfabric/prov/efa/src/rdm/efa_rdm_peer.c:323-325 | an id that makes the overflow list be gone through comes within every window's length, also where ids wrap |
| `ReorderPeer.Peer.MoveOverflow` | libfabric/prov/efa/src/rdm/efa_rdm_peer.c:265-296 | exactly what fits goes to the ends of the chains in the window, in list order; the rest stays in order, and nothing of it can fall due before the list is gone through again |
| `ReorderPeer.Peer.Drain` | libfabric/prov/efa/src/rdm/efa_rdm_peer.c:305-335 | hands on the unbroken run of messages from the expected one on, each the chain that waited followed by what was on the list for it, up to a gap or the first message whose processing fails; all other packets are held as before |
| `ReorderPeer.Peer.Reorder` | libfabric/prov/efa/src/rdm/efa_rdm_peer.c:143-224 | from the wrapped id alone tells late, in turn, early and beyond the window; an early packet goes to the end of its chain in the window and one beyond it to the head of the overflow list, unless memory is short |
| `ReorderPeer.Peer.Arrive` | libfabric/prov/efa/src/rdm/efa_rdm_pke_rtm.c:507-534 | a packet in turn is handed on first, with all that follows; one not in turn waits or is refused; every other packet is held for its position as before, except that a message waiting for the position of a packet in turn is then held for one window later |
| `ReorderRuns.Receive` | libfabric/prov/efa/src/rdm/efa_rdm_pke_rtm.c:507-534 | whatever the order of arrival, with duplicates, wrapping ids, overflowing windows and messages whose processing fails: every packet takes the peer one exact step, the messages handed on are those of consecutive positions, and a refusal has its reason; each message is the sequence of the packets accepted for its position in order of arrival, with those from the overflow list together, the latest of them first, and all others wait likewise, if and only if no packet was in turn while a message waited for its position, which does not happen without a failure |
| `ReorderRuns.AccountedIff` | libfabric/prov/efa/src/rdm/efa_rdm_pke_rtm.c:507-534 | in every run and after each of its packets: every message handed on, and all that waits, is made up of its packets in that order if and only if no packet was in turn while a message waited |
| `ReorderRuns.InArrivalOrder` | libfabric/prov/efa/src/rdm/efa_rdm_peer.c:239-256 | in every run without such a clash, a message for whose position no packet came beyond the window is exactly the sequence of the packets accepted for it, in order of arrival |
| `ReorderRuns.FailureBefore` | libfabric/prov/efa/src/rdm/efa_rdm_peer.c:327-332 | a message waits for the expected position only after a failure to process one ended a drain |
| `ReorderRuns.Stalls` | libfabric/prov/efa/src/rdm/efa_rdm_peer.c:305-335 | while a message waits for the expected position, no packet for any other position makes the peer hand on anything |
| `ReorderRuns.SteppedOver` | libfabric/prov/efa/src/rdm/efa_rdm_pke_rtm.c:524-534 | early packets for positions 1 and 2, then 0, with a failure on 1: a second packet for 2 is handed on alone, and the first is held for position 18 |
| `RingBuffer.RoundUpIsLeast` | libfabric/include/ofi.h:365-383 | the result is the least power of two not below the argument, and fits in 64 bits for arguments up to 2^63 |
| `RingBuffer.Init` | libfabric/include/ofi_rbuf.h:119-132 | refuses exactly size 0 and sizes above SIZE_MAX / 2, and else gives an empty ring of the rounded-up size |
| `RingBuffer.RingBuf.Used` | libfabric/include/ofi_rbuf.h:156-159 | is the number of committed bytes, for any wrap of the counters |
| `RingBuffer.RingBuf.Avail` | libfabric/include/ofi_rbuf.h:161-164 | does not count staged bytes: every write it allows fits if and only if nothing is staged |
| `RingBuffer.HoldsWrite` | libfabric/include/ofi_rbuf.h:170-176 | the one- or two-piece copy puts the bytes behind those the ring holds, wherever the end of the block falls |
| `RingBuffer.ReadsBoth` | libfabric/include/ofi_rbuf.h:190-201 | the one- or two-piece copy reads what the ring holds, oldest bytes first |
| `RingBuffer.HoldsNewest` | libfabric/include/ofi_rbuf.h:166-178 | a write of any length that stays in the block leaves exactly the newest bytes, from the position that many bytes later |
| `RingBuffer.RingBuf.Write` | libfabric/include/ofi_rbuf.h:166-178 | the bytes join the staged suffix, whatever the free space: the ring then holds the newest bytes, and is right if and only if they all fitted; the copy leaves the block if and only if it is longer than the way to the end and the ring together |
| `RingBuffer.WrittenOver` | libfabric/include/ofi_rbuf.h:166-178 | on a ring of two, write 2, commit, write 1: the first byte that can be read is gone |
| `RingBuffer.RingBuf.Commit` | libfabric/include/ofi_rbuf.h:180-183 | the staged bytes join those that can be read |
| `RingBuffer.RingBuf.Abort` | libfabric/include/ofi_rbuf.h:185-188 | the staged bytes are forgotten and the committed ones are as before |
| `RingBuffer.RingBuf.Peek` | libfabric/include/ofi_rbuf.h:190-201 | copies the oldest bytes and removes none; beyond the committed bytes come the staged ones, then what the ring holds; the copy leaves the block under the same condition |
| `RingBuffer.RingBuf.Read` | libfabric/include/ofi_rbuf.h:203-207 | copies and removes the oldest bytes; the ring stays right if and only if as many were committed, and else the count of used bytes wraps to 2^64 less the excess |
| `RingBuffer.ReadUnderflow` | libfabric/include/ofi_rbuf.h:203-207 | a read of one byte from an empty ring leaves a count of 2^64 - 1 bytes in use |
| `RingBuffer.RingBuf.Discard` | libfabric/include/ofi_rbuf.h:209-214 | removes as many of the oldest bytes as there are |
| `DLists.Lists.InsertAfter` | libfabric/include/ofi_list.h:76-89 | four stores insert the item at one position of its list and leave the nodes of all other lists alone |
| `DLists.Lists.Remove` | libfabric/include/ofi_list.h:94-98 | two stores take the item out of its list and nothing else |
| `DLists.Lists.FindFirst` | libfabric/include/ofi_list.h:166-178 | walks to the first item that matches |
| `DLists.Lists.InsertOrder` | libfabric/include/ofi_list.h:204-214 | inserts before the first item the new one precedes, or at the end |
| `DLists.Lists.Splice` | libfabric/include/ofi_list.h:226-258 | moves a whole list over in order, leaves an empty one, and writes no node of any other list |
| `DLists.OtherList` | libfabric/include/ofi_list.h:76-98 | a list none of whose nodes is written stays as it is |
| `PoolIndex.InsertSorted` | libfabric/prov/util/src/util_buf.c:303-321 | ordered insertion keeps the list sorted and adds exactly the new index |
| `IndexedPool.Pool.Grow` | libfabric/prov/util/src/util_buf.c:135-235 | adds one region of free buffers, linked in order on its free list and at the end of the pool's list, or changes nothing at the limit or without memory |
| `PoolIndex.HeadIsLowest` | libfabric/include/ofi_mem.h:579-583 | the first buffer of the first listed region is the lowest free one |
| `PoolIndex.NoRegionNoBuffer` | libfabric/include/ofi_mem.h:574 | no region is listed if and only if every buffer is in use |
| `IndexedPool.Pool.Alloc` | libfabric/include/ofi_mem.h:568-591 | returns the lowest free buffer, growing only if there is none, and links exactly that buffer to itself as in use; its region leaves the pool's list with its last free buffer |
| `IndexedPool.Pool.AllocAt` | libfabric/include/ofi_mem.h:593-619 | returns exactly the buffer of the requested index and marks it, unlinked by its own address, after growing just far enough; a failure keeps the regions added and marks nothing |
| `IndexedPool.Pool.Free` | libfabric/include/ofi_mem.h:485-504 | unmarks exactly that buffer and links it, and its region if its entry is linked to itself, back in order of index |
| `IndexedPool.Pool.IsValid` | libfabric/include/ofi_mem.h:455-467 | a buffer's own link tells whether it is in use |
| `PoolLinks.MarksAreLinks` | libfabric/include/ofi_mem.h:486-503 | in every valid pool a buffer is linked to itself exactly if it is in use, a region's entry exactly if the region is not listed, and a free list's head exactly if the list is empty |
| `PoolLinks.BufferPlace` | libfabric/prov/util/src/util_buf.c:303-311 | by the index fields a buffer goes where its offset goes |
| `PoolLinks.FreeListChange` | libfabric/include/ofi_mem.h:497-498 | relinking inside one region concerns neither the other regions nor the pool's list |
| `PoolLinks.PoolListChange` | libfabric/include/ofi_mem.h:499-503 | relinking the pool's list concerns no free list |
| `PollFds.PollSet.constructor` | libfabric/src/common.c:1798-1839 | 64 slots, the signal descriptor with its events in slot 0 and nothing registered |
| `PollFds.PollSet.Grow` | libfabric/src/common.c:1504-1537 | more room changes nothing that is registered; the new size is 64 larger, or just enough for the descriptor if that is more |
| `PollFds.RemoveSwap` | libfabric/src/common.c:1639-1651 | moving the last entry into the freed slot keeps slots and table mutually inverse and slot 0 in place |
| `PollFds.PollSet.DoDel` | libfabric/src/common.c:1629-1653 | removes exactly one descriptor from the map, or none if it is unknown; all others keep events, reported events and context |
| `PollFds.PollSet.DoAdd` | libfabric/src/common.c:1666-1687 | registers or re-registers a descriptor in the map, or fails without memory changing nothing; it finds no slot if and only if every other descriptor below the size is registered, and then stores the entry over the context of descriptor 0, which lies behind the last slot in the same block |
| `PollFds.RoomIff` | libfabric/src/unix/osd.c:338-353 | a new descriptor finds a slot if and only if some other descriptor below the size is not registered |
| `PollFds.HighSignal` | libfabric/src/unix/osd.c:338-353 | with the signal descriptor at 64, registering 0 to 62 and then 63 overwrites the context of descriptor 0 |
| `PollFds.SignalRegistered` | libfabric/src/unix/osd.c:338-353 | so it does with the signal descriptor at 3, registered among 0 to 62 |
| `PollFds.PollSet.Sync` | libfabric/src/common.c:1655-1699 | a synchronous add or delete has its effect on the map if and only if there is room |
| `PollFds.PollSet.ProcessWork` | libfabric/src/common.c:1701-1725 | working off the queue gives the map that the same calls made at once would give, if and only if there is room for each in its turn |
| `PollFds.PollSet.SyncAll` | libfabric/src/common.c:1655-1699 | a list of synchronous calls gives the same map under the same condition |
| `PollWork.ApartFits` | libfabric/src/common.c:1666-1725 | while the signal descriptor lies below the size and nobody registers it, there is always room |
| `PollFds.PollSet.Run` | libfabric/src/common.c:1562-1725 | over any run of queued requests, some refused for want of memory, and polls: the set is where the same requests made at once take it as far as they are worked off, the others wait in order, and none waits after a poll |
| `PollFds.PollSet.Mod` | libfabric/src/common.c:1597-1622 | changes events and context of a registered descriptor at once, keeping the events reported for it, else those of the first request queued for it |
| `PollWork.ModInTime` | libfabric/src/common.c:1597-1622 | such a change comes to the same as one made after the queue was worked off, if and only if no add which it does not reach is the last request for the descriptor |
| `PollFds.ChangeIsLost` | libfabric/src/common.c:1597-1622 | with a delete and an add queued for a registered descriptor, a change of its events is lost |
| `Providers.LedNext` | libfabric/src/fabric.c:140-183 | every registration keeps the first entry of each name its champion, hidden exactly if the filter excludes it |
| `Providers.GroupedNext` | libfabric/src/fabric.c:153-183 | every registration keeps entries of one name together, all but the first hidden |
| `Providers.CompleteNext` | libfabric/src/fabric.c:153-183 | every accepted registration is listed, as often as it was accepted |
| `Providers.RankedNext` | libfabric/src/fabric.c:178-182 | every registration keeps the names in the order in which they were first placed or registered, a new name last |
| `Providers.LinedNext` | libfabric/src/fabric.c:153-176 | every registration keeps the entries of one name in the order of its lineup: the champion, and behind it whoever lost out at each later registration, the latest loser first |
| `Providers.GrewNext` | libfabric/src/fabric.c:153-183 | every registration fills a place or adds one entry, and all entries there were are still there in the same order |
| `Providers.ChampionIs` | libfabric/src/fabric.c:140-151 | the champion is the first preferred registration of the name, else the earliest of the newest or the first, by the mode |
| `Providers.Registry.GetProv` | libfabric/src/fabric.c:414-425 | finds the first entry of a name |
| `Providers.Registry.InsertProv` | libfabric/src/fabric.c:153-183 | the relinking puts the entry before or behind the first of its name, or at the end, keeps all others in their order, and keeps head and tail right |
| `Providers.Registry.AddPlace` | libfabric/src/fabric.c:464-499 | a placeholder keeps a rank for its name, behind all names there are |
| `Providers.Registry.Register` | libfabric/src/fabric.c:515-592 | accepts exactly named providers with a fabric entry point and version 1.3 or later, fills a placeholder in its place even without memory for a new entry, keeps all earlier entries in their order, and keeps the registry sound: champions first, names in order of first appearance, lineups in order |
| `Providers.Registry.Resolve` | libfabric/src/fabric.c:1581-1583 | `fi_fabric` takes the champion of the name |
| `Providers.Registry.Visible` | libfabric/src/fabric.c:1352-1374 | `fi_getinfo` asks exactly the champions that are not filtered, one for each name, so both resolve a visible name to the same provider; with the flag for hidden ones it asks every accepted registration, those of one name in the order of its lineup; it asks names in the order in which they were first placed or registered; those it skips for other reasons are left out |
| `InfoList.InfoLists.Split` | libfabric/src/fabric.c:1094-1127 | the matching nodes become a list of their own, both lists in order, with the right tail |
| `InfoList.InfoLists.Insert` | libfabric/src/fabric.c:1129-1147 | links the whole list in before the first match, or at the end |
| `InfoList.InfoLists.Reorder` | libfabric/src/fabric.c:1149-1165 | leaves the list linked in the specified order |
| `InfoList.ReorderedIs` | libfabric/src/fabric.c:1149-1165 | the order loses and adds nothing, keeps the tcp entries and all others in their order, and puts every tcp entry before every tcp;ofi_rxm entry |
| `InfoList.ReorderedAtEnd` | libfabric/src/fabric.c:1129-1165 | without a tcp;ofi_rxm entry the tcp entries go behind all others |
| `InfoList.MovedBack` | libfabric/src/fabric.c:1129-1165 | a list of a tcp entry and an unrelated one comes out the other way round |
| `InfoList.ReorderedIff` | libfabric/src/fabric.c:1149-1165 | the list is left alone if and only if it has no tcp entry, or all of them stand together right before the first tcp;ofi_rxm entry, or at the end if there is none |
| `Wrap.SlotOfCount` | libfabric/include/ofi_rbuf.h:95-97 | a ring slot computed from a wrapped counter is that of the unbounded count |

## Left out

- The RDS provider: its README describes a protocol, but its source is not part of this model.
- Weak memory: acquire and release accesses are sequentially consistent steps.
- AtomicQueueSafety.SafetyIff: positions are unbounded, so the overflow of the 64-bit ticket counters is not modelled.
- Producers that die between claiming and posting a ticket: the machine just never takes their next step.
- AtomicQueueCalls.NextAlone: under contention `_next` may be overtaken again and again, and the compare-and-swap may fail without cause, so no bound is stated for it then.
- UtHash.Table.Add: keys must be fresh, as the header demands; equal keys, the in-order variants, `HASH_SELECT`, the bloom filter, the failing-allocation mode and 32-bit overflow of the counters are not modelled.
- UtHash.Table.Sort: says nothing about links of handles that are not in the table.
- Hash functions themselves: the hash is an arbitrary function of the key.
- CompletionQueue.Cq.Write: completion formats and wait objects are not modelled, and application flags never contain the internal AUX bit.
- CompletionQueue.Cq.ReadErr: error data buffers are not modelled beyond whether copying them fails.
- Device memory: the copy loops of `libfabric/src/hmem.c` have the body of `Iov.CopyIovBuf` with device copies in place of memcpy; only system memory is modelled.
- Iov.CopyIovBuf: buffer and list lie in different memories, as memcpy demands of them.
- BufferedSocket.Bsock.Send: an io_uring send in flight counts as nothing accepted; the io_uring completions, zero-copy completion counting and `async_prefetch` are not modelled.
- BufferedSocket.Bsock.Recv: an empty request with bytes buffered is excluded, because the code asserts that it does not happen.
- ReorderPeer.Peer.QueueOrAppend: that only packets of one multi-packet message are appended, which the code asserts, is not modelled.
- ReorderRuns.Receive: packets half the id space away or more are not told apart and are set aside. A packet of a multi-packet message that is being received already is taken aside before the reorder function (`libfabric/prov/efa/src/rdm/efa_rdm_pke_rtm.c:450-468`) and is not one of the packets here; neither are packets that answer a failed read protocol.
- RingBuffer.RingBuf.Write: when the copy leaves the block nothing is said about what follows, and so for `Peek` and `Read`; the fd-signalled ring on top is not modelled.
- IndexedPool.Pool.AllocAt: a buffer that is in use is excluded, as the code asserts; so is the release of one that is not, for `Free`. Non-indexed pools, alignment, use counts and the contents of buffers are not modelled.
- PollFds.PollSet.DoAdd: the overlap of a poll entry and a context is that of a 64-bit machine; nothing is said about an add of a negative descriptor, which the code takes for an index, and nothing about calls after a store behind the last slot, where runs end.
- PollFds.PollSet.Run: the poll call itself and event delivery are not modelled, so reported events are what they were; changes of events are a matter of `PollWork.ModInTime`.
- Providers.Registry.Register: a name stands for all its spellings; the filter is an arbitrary function of the registration, and hooks and logging flags are not modelled.
- Providers.Registry.Visible: the reasons to skip a provider (no getinfo, offload, layering, version) are one arbitrary function of the registration; asking the providers is not modelled.
- InfoList.InfoLists.Reorder: an info is its provider name and endpoint type.
- The free stack of the shared-memory provider, bitmasks, address handling, endianness helpers, capability checks and printing: they would only add easy members.
- Memory registration cache, monitors, address vectors and all providers but the fragments cited above.
