# March runtime: verified models

Models of the concurrency protocols, the heap code, the Vault and the request parser of March's C
runtime, with proofs of what they promise. Each concurrent protocol is a state machine whose steps
are the single atomic accesses of the C code, interleaved in any order among any number of threads;
its theorems speak of every state of every run. Code that works in place is written as classes and
loops and proved against a specification.

| files | what they model |
|---|---|
| `Deque` | the Chase-Lev work-stealing deque: one owner, any number of thieves, a circular buffer |
| `Reclaim`, `RetireList` | epoch-based reclamation: per-thread slots, the scan for the oldest announced epoch, the retire list |
| `Dispatch`, `DispatchPins`, `DispatchRing`, `DispatchSelect` | hot code reload: the ring of three versions, the eight-entry table of pinned epochs, readers that scan the ring while a publisher stages and commits |
| `Frames` | the per-thread stack of code frames with its pins, version references and owned closures |
| `Pool`, `PoolQueue` | the elastic pool for blocking foreign calls, and its linked queue |
| `Mailbox` | the multi-producer mailbox with its flip, pending list and save queue |
| `VaultLock`, `VaultClose`, `VaultTable` | the Vault: striped lock, close under live handles, and the table itself |
| `FwdTable`, `Heap`, `Gc` | the forwarding hash table, the bump-allocated process heap, the copying collector |
| `MsgCopy` | the deep copy of a message into another heap |
| `HttpFind`, `HttpParse`, `HttpConn` | the HTTP/1.x parser, its sixteen-byte finders, and the read loop of a connection |
| `Utf8` | the UTF-8 validator against the encoder |

`dafny verify dfyconfig.toml` checks everything.

Reading conventions:

- Atomics are sequentially consistent steps. A comment in the C code that argues for a fence is taken
  as the reason interleavings are the right model.
- History fields (what was pushed, delivered, taken, freed) are written by the steps and read by none.
- Clocks, malloc, hash functions, the order in which bytes arrive and the answers of foreign code are
  parameters or arbitrary choices of a step.
- Where code and comment differ the code is modelled: a mailbox pop drains the inbox before it looks
  at the save queue (`runtime/march_message.h:105-114` says otherwise), and a bounded push reads the
  tag of a live value whatever it is (the comment at `runtime/march_extras.c:1505-1509` says a
  non-list starts from the empty list).

Four promises hold only under a condition, which is proved to be exact:

- a message copy has a defined result exactly when every word it takes for a pointer, from the value
  on, is an object's address; of the tagged integers its test takes the negative ones and those from
  2048 on for pointers;
- a message copy is disjoint from its source exactly when every pointer in a copied constructor field
  leads to an object whose recorded size is above zero and below 2^24;
- a collection succeeds exactly when no live object points at a dead one;
- a commit leaves an epoch's selection alone exactly when that epoch is below the committed one.

A fifth, pool elasticity, carries a slack term for worker creations that failed, with a run that shows
the slack is needed.

## Model

| member | source | states |
|---|---|---|
| Deque.LegalHistoryConserves | runtime/march_deque.h:31-92 | in a legal history of a sequential deque the items pushed are exactly those removed and those left |
| Deque.PopLoadTopRefines | runtime/march_deque.h:53-75 | the pop's load of top takes the newest item when two or more are left, and changes nothing otherwise |
| Deque.PopCasRefines | runtime/march_deque.h:53-75 | the pop's compare-and-swap takes the last item or finds it stolen |
| Deque.StepRefines | runtime/march_deque.h:31-92 | every atomic step leaves the contents alone or is one push, pop or steal of the sequential deque, despite circular index reuse |
| Deque.RunKeepsInv | runtime/march_deque.h:31-92 | the deque invariant holds at every state of every run |
| Deque.Exactness | runtime/march_deque.h:31-92 | at every state the items pushed are exactly those returned, those in flight and those in the deque: none lost, none twice |
| Deque.Linearizable | runtime/march_deque.h:31-92 | the contents are what a sequential deque holds after the events in the order of their taking steps |
| Deque.PopNullMeansEmpty | runtime/march_deque.h:53-75 | a pop that answers NULL saw an empty deque at a step of its own |
| Deque.PushRefusedMeansFull | runtime/march_deque.h:31-50 | a push is refused if and only if the deque held its full capacity when it loaded top |
| Reclaim.Freeable | runtime/march_reclaim.c:258-262 | the longest prefix of the retire list below the bound, cut at the batch size |
| Reclaim.ScanReadsSlot | runtime/march_reclaim.c:240-249 | reading one more slot keeps the scan's bound at or below every epoch a holder behind it announces |
| Reclaim.RetireHolds | runtime/march_reclaim.c:271-297 | stamping a retired object leaves every holder announcing at or below the stamp |
| Reclaim.TakenNotHeld | runtime/march_reclaim.c:251-269 | no thread holds an entry that a finished scan lets go of, though slots were read one at a time |
| Reclaim.RunKeepsInv | runtime/march_reclaim.c:72-128 | the reclamation invariant holds at every state of every run, with slots claimed, recycled and announced in two steps |
| Reclaim.NeverFreedWhileHeld | runtime/march_reclaim.c:136-216 | no run frees an object that some thread resolved in its current critical section |
| Reclaim.FreedOnceAndForAll | runtime/march_reclaim.c:251-269 | an object is freed only from a batch that took it off the retire list, once, and is never revived |
| Reclaim.CriticalIsAnnounced | runtime/march_reclaim.c:72-128 | a thread inside a critical section owns a slot that announces an epoch no later than the global one |
| RetireList.FreeableIsPrefix | runtime/march_reclaim.c:258-262 | with increasing stamps an entry is below the bound if and only if it is in the prefix the loop takes |
| RetireList.FreeableCount | runtime/march_reclaim.c:258-262 | the prefix length is the only place a scan from the front can stop |
| RetireList.MinOnlineEpoch | runtime/march_reclaim.c:240-249 | the least announced epoch, or none if and only if every slot is offline |
| RetireList.BoundMeans | runtime/march_reclaim.c:240-262 | the minimum exceeds a stamp if and only if every online slot announces a later epoch |
| RetireList.List.MakeRoom | runtime/march_reclaim.c:275-290 | compaction and growth keep the listed entries and leave a free cell |
| RetireList.List.Retire | runtime/march_reclaim.c:271-297 | appends the entry with its stamp and says when a poll is due |
| RetireList.List.CopyFreeable | runtime/march_reclaim.c:258-262 | copies exactly the freeable prefix and changes nothing |
| RetireList.List.Take | runtime/march_reclaim.c:254-266 | moves exactly the freeable prefix from the list to the freed entries |
| RetireList.List.Poll | runtime/march_reclaim.c:251-269 | each round scans the slots as they are then: what is freed was below every epoch some round found announced, what remains starts with an entry some slot of the last round held back, and the list empties when every slot is offline |
| RetireList.FreedInRetireOrder | runtime/march_reclaim.c:226-297 | the freed entries are a prefix of the retired ones, all with smaller stamps than the rest |
| DispatchPins.PinsConserved | runtime/march_dispatch.c:740-817 | in every run the current epoch is pinned and each count equals its holders |
| DispatchPins.OnlyReserveRevives | runtime/march_dispatch.c:740-795 | an epoch out of use comes back only through the publisher's reservation, above the current epoch |
| DispatchPins.UnpinAlwaysFinds | runtime/march_dispatch.c:754-766 | an unpin never runs off the table: the over-release branch is unreachable |
| DispatchPins.RunKeepsPins | runtime/march_dispatch.c:740-817 | the pin-table invariant holds at every state of every run |
| DispatchRing.RefsExact | runtime/march_dispatch.c:450-526 | each version's reference count equals the callers between increment and decrement, so a decrement never wraps |
| DispatchRing.ValidatedVersionIntact | runtime/march_dispatch.c:639-699 | from re-validation to leave, also while the caller pins or unpins in between, a version holds the code it was validated with, fully written, and never one newer than the epoch asked for |
| DispatchRing.PubKeepsIntact | runtime/march_dispatch.c:298-388 | staging, committing and retiring leave every validated version as its readers saw it |
| DispatchRing.NobodyValidated | runtime/march_dispatch.c:241-277 | a zero count read by the publisher means nobody is past validation |
| DispatchRing.RunKeepsRing | runtime/march_dispatch.c:298-526 | the ring invariant holds at every state of every run |
| DispatchSelect.ScanSelects | runtime/march_dispatch.c:639-673 | a finished scan of a ring that did not change found the live version with the largest epoch at or below the one asked for |
| DispatchSelect.NextNewerMeaning | runtime/march_dispatch.c:227-239 | the next newer epoch is the least live epoch above a version's |
| DispatchSelect.ReachIsSelection | runtime/march_dispatch.c:213-277 | a version is kept from reclaim by a pinned epoch if and only if that epoch selects it |
| DispatchSelect.RetireKeepsSel | runtime/march_dispatch.c:298-388 | retiring the version the picker chose changes no pinned epoch's selection |
| DispatchSelect.RunKeepsInv | runtime/march_dispatch.c:213-413 | the selection invariant holds at every state of every run |
| DispatchSelect.PinnedSelectionStable | runtime/march_dispatch.c:213-400 | while a caller stays pinned its epoch selects the same version with the same epoch and code |
| DispatchSelect.EnterGenReturnsSelected | runtime/march_dispatch.c:639-699 | enter_gen of a pinned epoch holds exactly the version that epoch selected when pinned, though its scan interleaves with stage and commit |
| DispatchSelect.EnterGenNeverFails | runtime/march_dispatch.c:639-699 | enter_gen of a pinned epoch finds a version and passes both re-checks |
| DispatchSelect.CommitMovesSelection | runtime/march_dispatch.c:390-400 | a commit moves an epoch's selection if and only if the epoch is at or above the committed one |
| Frames.EnterWorkIsEnterUnit | runtime/march_dispatch.c:927-948 | entering compatible work is entering a unit whose lookup fails on an ABI mismatch |
| Frames.EnterVersionIsDispatch | runtime/march_dispatch.c:950-966 | pinning around the frame's own pin nets out to one pin and one reference, or to nothing when the version is not live |
| Frames.OpBalanced | runtime/march_dispatch.c:847-966 | every operation moves pins, references and closure releases by exactly what it moves in the frames |
| Frames.NestedBalanced | runtime/march_dispatch.c:847-966 | any nesting of operations above a mark keeps the books and leaves the frames below the mark alone |
| Frames.UnwindBalanced | runtime/march_dispatch.c:881-905 | unwinding to a mark releases exactly what the frames above it held |
| Frames.UnwindRestores | runtime/march_dispatch.c:847-966 | whatever was nested above a mark, unwinding restores every epoch count and version reference; the closures released, those left with the frames at or below the mark and those taken back are exactly those held before and those handed over since |
| Frames.Stack.Enter | runtime/march_dispatch.c:852-866 | pushes a linked frame as FrameEnter says, or aborts without effect on an epoch nobody holds |
| Frames.Stack.Pop | runtime/march_dispatch.c:881-897 | unlinks the top frame and releases what it held |
| Frames.Stack.UnwindTo | runtime/march_dispatch.c:899-905 | pops to the mark, with the effect of Unwind |
| Frames.Stack.Own | runtime/march_dispatch.c:868-874 | the top frame takes one more reference to its one closure, or aborts on a second closure or no frame |
| Frames.Stack.Disown | runtime/march_dispatch.c:875-880 | the top frame gives one reference back, and nothing happens for any other closure |
| Frames.Stack.EnterUnitFrame | runtime/march_dispatch.c:914-925 | pushes a frame holding the version enter_gen found, or leaves everything as it was when it found none |
| Frames.Stack.EnterWorkFrame | runtime/march_dispatch.c:927-948 | the same for compatible work; an ABI mismatch drops the reference and the frame |
| Frames.Stack.EnterVersion | runtime/march_dispatch.c:950-966 | pushes a frame holding the given version under its routing epoch, or takes nothing when version or epoch is retired |
| Frames.Stack.Leave | runtime/march_dispatch.c:907-913 | pops the unit's frame if it is on top and releases its version exactly once |
| Pool.RunKeepsInv | runtime/march_ffi.c:297-420 | the pool invariant holds at every state of every run |
| Pool.Elasticity | runtime/march_ffi.c:297-420 | with the mutex free, queued calls are at most workers on their way plus workers promised plus promises lost to failed creations |
| Pool.EachCallRunsOnce | runtime/march_ffi.c:379-420 | a call runs at most once, and exactly once by the time its caller returns |
| Pool.RemoveFacts | runtime/march_ffi.c:315-329 | removing a queued call takes exactly that call out of the sequence and keeps the order of the rest |
| PoolQueue.Queue.Unlink | runtime/march_ffi.c:315-329 | the walk and the splice take the node out of the linked queue if and only if it is queued, with head, tail and every next pointer right again, and say which it was |
| PoolQueue.RemovesItsCall | runtime/march_ffi.c:315-329 | unlinking a node is removing its call from the sequence the pool is proved about |
| PoolQueue.Queue.Enqueue | runtime/march_ffi.c:379-390 | links the call behind the tail, or as the only one |
| PoolQueue.Queue.Claim | runtime/march_ffi.c:331-343 | takes the oldest call, or none if and only if none is queued |
| Pool.DrainsWithoutBusyWorkers | runtime/march_ffi.c:297-420 | while creation never fails, from every reachable state with the mutex free the queue can drain without any busy worker finishing |
| Pool.FailedCreationCanStarve | runtime/march_ffi.c:403-414 | a run in which one failed creation leaves a queued call to a busy worker |
| Mailbox.RunKeepsInv | runtime/march_message.c:344-419 | the mailbox invariant over its three linked lists holds at every state of every run, with freed node addresses reused |
| Mailbox.DeliveredIsPrefix | runtime/march_message.c:344-419 | delivered messages are a prefix of the successful swaps in order, with the rest in the owner's hands or the inbox; messages returned from the save queue a prefix of those saved |
| Mailbox.SavedOnlyWhenDrained | runtime/march_message.c:372-406 | a saved message comes out only of a pop whose exchange found everything sent already delivered |
| Mailbox.TakeSawEmptyInbox | runtime/march_message.c:359-393 | a pop with nothing pending goes back to its own exchange of an empty inbox |
| Mailbox.HeadsHaveCells | runtime/march_message.c:344-419 | every non-null list head has a node, in every run |
| VaultLock.WriterExcludesAll | runtime/march_extras.c:908-960 | a writer past its one-stripe-at-a-time drain overlaps no reader past its re-check and no other writer |
| VaultLock.StripeCountsExact | runtime/march_extras.c:908-960 | each stripe's count equals the readers between increment and decrement on it |
| VaultLock.RunKeepsInv | runtime/march_extras.c:908-960 | the lock invariant holds at every state of every run |
| VaultClose.FreedOnceAndUnused | runtime/march_extras.c:1963-1984 | with any number of closers the table is freed at most once, always by a closer, and never while an operation is inside; a closed table not yet freed has a closer about to free it |
| VaultClose.ClosedIsFreed | runtime/march_extras.c:1963-1984 | every reachable state with the table closed and not yet freed has a continuation that frees it, with the operations inside leaving and the closer waiting the stripes out |
| VaultClose.ClosedForGood | runtime/march_extras.c:1265-1279 | after a close every operation that loads the slot sees the closed mark |
| VaultClose.RunKeepsInv | runtime/march_extras.c:1265-1279 | the close invariant holds at every state of every run |
| VaultTable.Table.Locate | runtime/march_extras.c:1282-1293 | the walk of a bucket finds the key's node if and only if the table has the key, with its value and expiry |
| VaultTable.Table.Overwrite | runtime/march_extras.c:1040-1057 | replaces one node's entry; the books gain one reference for the new value, and the old value's one reference is in the graveyard of the key's shard or, for a leaf, released |
| VaultTable.BuryMoves | runtime/march_extras.c:1040-1057 | burying moves exactly the one reference a value holds: to the graveyard, or to the released ones for a leaf, or none for an immediate |
| VaultTable.SpinesAccounted | runtime/march_extras.c:1510-1575 | every list a push built, to which its element references belong, is in a bucket or a graveyard or was handed back; none is released by the table |
| VaultTable.Table.Set | runtime/march_extras.c:1355-1386 | the key has the value without expiry, all else is kept, exactly one reference is taken whatever the value is, and the value displaced is buried or released |
| VaultTable.Table.SetTtl | runtime/march_extras.c:1390-1418 | the key has the value with the given expiry, all else is kept; one reference is taken and the value displaced is buried or released |
| VaultTable.Table.PutNew | runtime/march_extras.c:1425-1462 | wins if and only if the key is absent or expired, and then takes one reference and buries what had expired; a loser changes nothing |
| VaultTable.Table.Incr | runtime/march_extras.c:1470-1502 | adds to a live integer or to zero; the expiry survives while the entry is live |
| VaultTable.Table.PushCapped | runtime/march_extras.c:1510-1575 | the list becomes the last max_n elements of the old one and the new value, or starts empty on a value that is no list; the expiry survives while live; one reference is taken for the new list and, in a ledger of their own, one for each heap element of its cells |
| VaultTable.Window | runtime/march_extras.c:1523-1552 | the collect-and-cons loops build exactly the kept window, oldest first |
| VaultTable.Table.Get | runtime/march_extras.c:1579-1600 | the value of the key's entry if and only if it is live |
| VaultTable.Table.Drop | runtime/march_extras.c:1604-1624 | the key is gone and nothing else changes; its value is buried, or released for a leaf |
| VaultTable.Table.Reap | runtime/march_extras.c:1703-1732 | hands back the graveyard of the key's shard and empties it, moving exactly those references to the returned ones |
| VaultTable.Table.Close | runtime/march_extras.c:1744-1799 | the table is empty and the returned list is exactly the references it held, live, expired or buried; all ever taken were released as leaves or handed back, and every list a push built was handed back |
| VaultTable.Run | runtime/march_extras.c:1355-1624 | any sequence of operations on the sharded buckets gives the answers and the final state of a plain map from key to value and expiry, and takes exactly one reference per value stored plus one per element of a pushed list |
| VaultTable.PushesKeepTheLast | runtime/march_extras.c:1510-1575 | after any number of pushes on a fresh key the list is exactly the last max_n values pushed |
| VaultTable.IncrementsAddUp | runtime/march_extras.c:1470-1502 | increments of a fresh key add up whatever the clock does |
| VaultTable.OnlyTheFirstWins | runtime/march_extras.c:1425-1462 | of any number of put_new calls on a fresh key without expiry exactly the first wins and its value stays |
| FwdTable.SlotReaches | runtime/march_gc.c:106-121 | linear probing visits every cell of the table |
| FwdTable.MaskedSlot | runtime/march_gc.c:106-132 | the masked index of the code is the remainder by the capacity, a power of two |
| FwdTable.Table.FirstEmpty | runtime/march_gc.c:106-121 | the probe loop stops at the first empty cell from the key's home |
| FwdTable.EmptyCellExists | runtime/march_gc.c:106-121 | below full load an empty cell exists |
| FwdTable.PlaceKeeps | runtime/march_gc.c:106-121 | writing a new key into its first empty cell keeps every other key reachable |
| FwdTable.AllRehashed | runtime/march_gc.c:84-104 | after the loop over the old cells the new table has exactly the old pairs |
| FwdTable.Table.Lookup | runtime/march_gc.c:123-132 | returns the destination of an inserted key and none for any other, for any hash function |
| FwdTable.Table.Grow | runtime/march_gc.c:84-104 | doubles the capacity and keeps the pairs |
| FwdTable.Table.Insert | runtime/march_message.c:113-147 | adds exactly the pair, growing at half load; an empty cell is always found |
| Heap.FlatDistinct | runtime/march_heap.c:55-105 | objects of an arena have distinct aligned addresses past the first page |
| Heap.UsedIsSize | runtime/march_heap.c:55-105 | used bytes are the sum of the sizes of the objects allocated |
| Heap.Arena.NewBlock | runtime/march_heap.c:66-86 | links a block that fits the request by the doubling policy and moves no object |
| Heap.Arena.Alloc | runtime/march_heap.c:55-105 | appends one zeroed object of count one at a new address, adding its aligned size to both byte counts, and keeps the live bytes exact |
| Heap.Arena.RecordDeath | runtime/march_heap.c:137-145 | while each object's death is recorded once and with its own size, the live bytes are the sum of the sizes of the objects not yet dead and the subtraction never stops at zero |
| Gc.Pass1 | runtime/march_gc.c:168-242 | to-space holds verbatim copies of exactly the live objects in walking order, and the table maps each to its copy |
| Gc.Pass2Field | runtime/march_gc.c:269-309 | a field is rewritten when it leads to a live object and kept otherwise, and fails if and only if it leads into from-space at no live object |
| Gc.Pass2Visit | runtime/march_gc.c:269-309 | rewrites exactly the scanned pointers to live objects, and fails if and only if a scanned pointer leads into from-space at no live object |
| Gc.CleanIsPerObject | runtime/march_gc.c:168-309 | scanning block by block and scanning object by object find the same dangling fields |
| Gc.FixFlat | runtime/march_gc.c:168-309 | the second pass moves nothing: same objects at the same addresses, each rewritten |
| Gc.Collect | runtime/march_gc.c:313-400 | succeeds if and only if no live object has a dangling scanned pointer, and then leaves the compacted heap with used and live bytes both the sum of the live sizes and no death outstanding |
| Gc.CompactionIsIsomorphic | runtime/march_gc.c:313-400 | copies stand one-to-one for the live objects at distinct addresses with the same header, size and field count; a scanned pointer to a live object leads to its copy; every other word is kept |
| Gc.NothingLeftBehind | runtime/march_gc.c:313-400 | after a collection no scanned pointer leads into the space about to be freed |
| MsgCopy.CopyValue | runtime/march_message.c:173-283 | terminates on any graph, cycles included; fails only at a pointer-looking word that is no object; otherwise completes every object it newly copies, leaves earlier copies and the source alone, and copies nothing outside any closed set with the value in it |
| MsgCopy.Copy | runtime/march_message.c:302-312 | has a defined result if and only if every word taken for a pointer, from the value on, is an object's address; then the result stands for the value and exactly the objects reached from it were copied, with every slot rewritten or kept as due; a scalar is returned as it is |
| MsgCopy.ReachClosed | runtime/march_message.c:232-280 | the reached objects are closed under followed slots |
| MsgCopy.ReachLeast | runtime/march_message.c:232-280 | and are the least such set with the value in it |
| MsgCopy.CopiedExactlyOnce | runtime/march_message.c:173-283 | the source is unchanged and memory grew by exactly one cell per reached object |
| MsgCopy.SharingKept | runtime/march_message.c:177-179 | followed slots of copies are equal if and only if the slots they came from were |
| MsgCopy.DisjointExactlyWhenAllFollowed | runtime/march_message.c:264-280 | the copy shares nothing with the source if and only if no reached pointer field was left unfollowed, that is none leads to an object of recorded size zero or of 2^24 bytes and more |
| MsgCopy.OversizedIsShared | runtime/march_message.c:275 | a cell whose field is a string allocated at exactly 2^24 bytes is copied into one that still points at the source |
| MsgCopy.TaggedMistaken | runtime/march_message.c:66-67 | the pointer test takes a tagged integer for a pointer if and only if it is negative or at least 2048 |
| MsgCopy.TaggedFaults | runtime/march_message.c:264-280 | copying a cell with one tagged integer that is no object's address has a defined result if and only if the integer is between 0 and 2047 |
| HttpFind.ScalarFind | runtime/march_http_parse_simd.c:49-72 | the least index of a wanted byte |
| HttpFind.ScalarFindCrlf | runtime/march_http_parse_simd.c:58-64 | the least index of a CRLF |
| HttpFind.SimdFind | runtime/march_http_parse_simd.c:114-180 | sixteen bytes at a time with a scalar tail, exactly the scalar answer |
| HttpFind.SimdFindCrlf | runtime/march_http_parse_simd.c:195-210 | jumping to the first CR and walking on gives exactly the scalar answer |
| HttpFind.FindLocal | runtime/march_http_parse_simd.c:49-72 | a byte found stays found at its place when bytes are appended, and is found without the bytes past it |
| HttpFind.FindCrlfLocal | runtime/march_http_parse_simd.c:58-64 | the same for a CRLF |
| HttpParse.Parse | runtime/march_http_parse_simd.c:238-344 | the cursor-advancing parser computes the grammar's outcome with either set of finders |
| HttpParse.RequestSettled | runtime/march_http_parse_simd.c:238-344 | an outcome other than incomplete on a non-empty buffer is unchanged by appending bytes, and a request ending within the buffer is found without the bytes past it |
| HttpParse.RequestReads | runtime/march_http_parse_simd.c:238-344 | every well-formed request written out parses back to itself, whatever follows |
| HttpParse.ParsedIsWellFormed | runtime/march_http_parse_simd.c:238-344 | whatever the bytes, only well-formed requests come out, and parsing, writing out and parsing again changes nothing |
| HttpParse.ReadHeaders | runtime/march_http_parse_simd.c:293-335 | the header loop with its limit of 64 |
| HttpParse.ReadValue | runtime/march_http_parse_simd.c:318-332 | the value between optional blanks, up to the first CRLF |
| HttpParse.BodyLength | runtime/march_http_parse_simd.c:350-372 | the number in the first Content-Length header, whatever its case, or zero |
| HttpParse.DecimalReads | runtime/march_http_parse_simd.c:363-368 | every length written in decimal is read back |
| HttpConn.NextLocal | runtime/march_http_parse_simd.c:374-409 | a complete request with its body is the same whatever follows it |
| HttpConn.ParsePipelined | runtime/march_http_parse_simd.c:374-409 | up to max complete requests from the front, and the bytes they took |
| HttpConn.BatchIsServe | runtime/march_http.c:2072-2079 | answering a batch out of the buffer is a step of serving the whole stream |
| HttpConn.Buffer.Shift | runtime/march_http.c:2239-2245 | leaves exactly the unconsumed bytes |
| HttpConn.Buffer.MakeRoom | runtime/march_http.c:2252-2274 | doubles a full buffer up to the limit and keeps its bytes; refuses if and only if it is full at the limit |
| HttpConn.Connection | runtime/march_http.c:2062-2279 | for every way the bytes arrive, the requests served and how the connection ends are a function of the byte stream alone |
| HttpConn.MoreBytesServeMore | runtime/march_http.c:2062-2279 | more bytes never take back or change a request served |
| Utf8.Encode | runtime/march_extras.c:2606-2656 | one to four bytes if and only if the code point is a scalar value |
| Utf8.EncodedDecodes | runtime/march_ffi.c:62-88 | the first character of an encoding followed by anything is the code point encoded (sections 3 and 4 of RFC 3629) |
| Utf8.DecodedEncodes | runtime/march_ffi.c:62-88 | what passes the lead, continuation, overlong, range and surrogate checks is the encoding of a scalar value |
| Utf8.DecompositionUnique | runtime/march_extras.c:2606-2656 | at most one sequence of scalar values encodes to given bytes |
| Utf8.Utf8Valid | runtime/march_ffi.c:62-88 | accepts a byte string if and only if it is a concatenation of encodings of scalar values |

## Left out

- Weak-memory effects, thread-local storage, signals, and stack switching: atomics are interleaved steps.
- Machine widths: counts, sizes and addresses are unbounded, so wrap-around of 32-bit counters and sizes, of Content-Length and of tagged integers is not modelled.
- Out-of-memory paths: allocation succeeds, except thread creation in the pool, whose failure is modelled.
- Dispatch: the window at start-up before the baseline version is published; runs begin with it live at epoch 0.
- Dispatch: more than one publisher at a time, and version names, hashes and ABI checks beyond the staged fields.
- Frames: an epoch of 0, meaning the current one, is resolved before the call; scheduling and thread-local lookup of the frame slot are not modelled.
- Gc.Collect: a block is a list of objects, not raw bytes, so the walker's corruption checks never fire; the statistics counters are not kept.
- MsgCopy.Copy: memory is a map from address to cell, not the arena of Heap; the string, float, SIMD and native-array payloads are opaque; the capacity word of typed arrays is not copied separately.
- VaultTable.Table.PushCapped: requires that a live value be no tagged integer and no foreign cell with the tag of a Cons, since the code reads either as if it were a list cell and has no defined result.
- VaultTable: the shard entry counters, size, keys, update, the name registry, and the stringification of keys; each operation is one step, its locking being the subject of VaultLock and VaultClose.
- HttpConn.Connection: writing responses, the WebSocket hand-off and the choice to keep a connection alive are one predicate over the requests served so far; the event-loop server is not modelled.
- HttpParse: bytes are numbers and slices are the bytes they denote; chunked transfer coding is not parsed by the source either.
- Utf8: bit masks and shifts are written as division and remainder.
- Sockets, TLS, compression, cryptography, base64, WebSocket framing, the monitor registry, the scheduler around the deque, and the compiler.
