# Collector and parallel runtime of Fork: a verified model

Fork compiles parallel statements to a small fork/join runtime (`parContextManager.cpp`) and runs on a conservative
mark-and-sweep collector (`gc/`).  This project models the parts of both whose state is hardest to keep straight, and
proves what they promise.  The code that works on shared fields is modelled by classes whose methods change those
fields; protocols between threads are transition systems, one step for each atomic operation or locked region, over all
interleavings.

| part | files |
|---|---|
| heap block manager: a two-level index with forwarding counts, 61 free lists, splitting and coalescing, black lists | `Sizes` `HeaderIndex` `HeapShape` `HeapCarving` `Placement` `BlackList` `BlockAllocator` `HeapTotals` |
| sweeping over the index while the callback frees, merges and erases | `BlockSweep` |
| interior pointers to objects; ranges that are not roots | `GcBase` `Exclusions` |
| marking with a bounded stack that overflows; parallel marking | `MarkGraph` `MarkSteps` `Marker` `ParallelMark` |
| lazy sweep, small-object free lists, collection | `LazySweep` |
| hash tables that grow; finalization order; Java finalization | `HashTables` `FinalizeOrder` `FinalizeQueue` `Finalize` |
| the handshake that stops the world | `StopWorld` |
| Fork's manager of parallel statements, and runs of nested statements | `ParContext` `ForkJoin` |

`Collections` holds what several of them share.  Addresses of heap blocks are block numbers, and sizes are those of a
64-bit build: 4096-byte blocks, 1024 slots in a bottom index, 16-byte granules.

Two conventions.  A `seq` or `map` next to the real fields of a class (`index.view`, `lists`, `owner`, `m`, `called`) is
ghost: it says what the linked structure holds, and `Valid()` ties it to the fields.  In contracts `P(..) == true` means
`P(..)`; written as an equation it is proved and used as one fact, without being split into its parts at every call.
Predicates with a helper of their own as the trigger (`Taken` and `TakenAt`, `MarkedFrom` and `MarkedIff`) unfold only
where the helper is mentioned.  Both keep proof obligations small.

The configuration is the plain one: stop-the-world and not incremental, no unmapping of blocks, no disclaim procedures,
no leak reports, memory for headers is always there, and the heap is too small for the guards against signed overflow
in block sizes to matter.

## Model

| member | source | states |
|---|---|---|
| Sizes.BinMonotone | gc/allchblk.c:84-91 | a larger block is never on an earlier list; this is why the search may begin at the list of the request |
| Sizes.BinExactIff | gc/allchblk.c:39-91 | a list holds blocks of a single size if and only if its number is below 32: list 32 is shared by sizes 32 to 39 |
| HeaderIndex.LinkedInsert | gc/headers.c:238-250 | inserting a bottom index between its neighbours keeps the double links, the order of keys and both ends of the list |
| HeaderIndex.Index.GetIndex | gc/headers.c:206-252 | afterwards the block has a bottom index, in key order, and no lookup has a new answer |
| HeaderIndex.Index.InstallCounts | gc/headers.c:273-287 | every slot behind the head, block by block, holds the distance to the head capped at MAX_JUMP, and no other slot changed |
| HeaderIndex.Index.RemoveCounts | gc/headers.c:299-305 | just the slots behind the head become empty, although bottom indices may be missing on the way |
| HeaderIndex.Index.PrevBlock | gc/headers.c:373-402 | the nearest head, free or used, at or below an address, following counts and descending links; 0 if and only if there is none |
| HeaderIndex.Index.NextUsedBlock | gc/headers.c:337-368 | the nearest used head at or above an address, skipping free blocks whole; 0 if and only if there is none |
| HeaderIndex.Index.FreeBlockEndingAt | gc/allchblk.c:323-348 | finds a free block that ends exactly at h if and only if there is one |
| HeapShape.TiledFree | gc/allchblk.c:825-884 | freeing a block keeps the tiling of the heap, and its blocks join the free memory |
| HeapShape.TiledMerge | gc/allchblk.c:853-878 | merging two neighbours keeps the tiling and the set of free blocks, though the second head disappears |
| HeapShape.TiledSplit | gc/allchblk.c:530-559 | cutting a free block in two keeps the tiling and the set of free blocks |
| HeapShape.ListsRemove | gc/allchblk.c:293-313 | unlinking a block by its own prev and next keeps all 61 doubly linked lists, their heads and their byte counts, and takes it off one list only |
| HeapShape.ListsPush | gc/allchblk.c:352-380 | pushing an unlisted block keeps all lists, links and byte counts, and changes only a prev field of the old first block |
| HeapShape.LooseMergePrev | gc/allchblk.c:863-878 | after the merge with the free block before it the result has no free neighbour on either side |
| HeapCarving.SplitDone | gc/allchblk.c:530-559 | GC_split_block leaves the rest on the list of the whole block, which may be the wrong one; all else is as it must be, and used blocks keep their headers |
| HeapCarving.TakePart | gc/allchblk.c:489-514 | cutting off a first part leaves a free rest of its own, of the right size, in a heap that is still tiled |
| HeapCarving.DropDone | gc/allchblk.c:733-770 | turning a black-listed free block into one-block objects keeps the invariant and takes exactly its blocks out of free memory |
| HeapCarving.FoundWasThere | gc/allchblk.c:640-816 | a block found after some were dropped was free, on the same list and of the same size before |
| HeapTotals.ListTotals | gc/checksums.c:159-173 | the byte counts of all lists add up to the free memory of the heap |
| HeapTotals.NoBlockLost | gc/checksums.c:149-173 | used blocks, each counted once and rounded up, and free blocks make up the heap: "LOST SOME BLOCKS" is never printed |
| BlackList.Tables.IsBlackListed | gc/blacklst.c:228-257 | the scan that skips whole zero words returns 0 if and only if every block is clean, and otherwise a later start before which every start is black-listed too |
| Placement.PassOne | gc/allchblk.c:651-674 | passing over a block because the next one fits better, or because it is of no use, never passes over the last usable one |
| Placement.NoneUsable | gc/allchblk.c:640-816 | at the end of a list, after any drops, no block that was on it at the beginning could serve the request |
| Placement.UselessIsSmall | gc/allchblk.c:651-732 | with clean black lists only blocks that are too small are of no use |
| Placement.FailedClean | gc/allchblk.c:576-629 | a search of all lists that fails means that no free block could serve the request; with clean black lists that all free blocks are smaller than it |
| Placement.SplitOnlyIfNeeded | gc/allchblk.c:586-629 | with clean black lists, no block is split while some free block has exactly the right size |
| BlockAllocator.Heap.RemoveFromFlAt | gc/allchblk.c:293-313 | the block leaves its list; the order of the others, and every header that is not on the list, stay |
| BlockAllocator.Heap.AddToFl | gc/allchblk.c:352-380 | the block is the first of the list for its size (lists are not sorted by address) and is marked free |
| BlockAllocator.Heap.Coalesce | gc/allchblk.c:853-878 | merging in both directions leaves a block without free neighbours, the same free memory, and all used headers |
| BlockAllocator.Heap.Freehblk | gc/allchblk.c:825-884 | the whole invariant holds again, exactly the blocks of h joined the free memory, and just h is no longer used |
| BlockAllocator.Heap.SplitBlock | gc/allchblk.c:530-559 | the cut, with n in the place of h on the list: free memory and used blocks stay, and n has what is left of the size |
| BlockAllocator.Heap.GetFirstPart | gc/allchblk.c:489-514 | the block is off its list, and the rest, if any, is listed for its own size |
| BlockAllocator.Heap.FindPlace | gc/allchblk.c:675-733 | the start found is the lowest that the black list allows; if none is found the block is of no use even when it may be split |
| BlockAllocator.Heap.DropBlock | gc/allchblk.c:733-770 | an unusable block becomes one-block pointer-free objects; GC_bytes_dropped grows by its size |
| BlockAllocator.Heap.AllochblkNth | gc/allchblk.c:640-816 | a result was carved, where the black list wants it, out of a block that list n had; the only other change is the dropping of black-listed blocks; 0 if and only if no block of the list was of use |
| BlockAllocator.Heap.Allochblk | gc/allchblk.c:576-629 | the invariant is kept; a result as above; 0 with all lists searched means that no free block could serve the request, and without black-listed blocks that all are too small |
| BlockAllocator.Heap.AddToHeap | gc/alloc.c:1045-1102 | exactly the blocks of the section, but never blocks 0 and 1, join the heap and the free memory; the heap size grows by as much; used blocks stay |
| BlockSweep.WalkVisit | gc/headers.c:309-333 | the callback visits a block that was used at the start and not seen before, and the walk goes on although slots behind it were erased or merged |
| BlockSweep.Sweeper.ReclaimBlock | gc/reclaim.c:374-457 | a block without marks is freed; a block worth a sweep is queued once, for its kind and size; nothing else changes |
| BlockSweep.Sweeper.ReclaimAllBlocks | gc/headers.c:309-333 | every block in use at the start is visited exactly once and no other; those without marks are free at the end, the others are in use, and the reclaim lists hold just those worth a sweep |
| BlockSweep.Sweeper.StartReclaim | gc/reclaim.c:606-660 | the same after the reclaim lists were emptied, from any state of the lists |
| GcBase.OneHolder | gc/misc.c:422-459 | no address lies in two objects |
| GcBase.HeadOf | gc/misc.c:436-442 | following forwarding counts ends at the head of the block around an address |
| GcBase.Base | gc/misc.c:422-459 | the start of the object around any address, in small objects and in blocks of many heap blocks; 0 if and only if no object is there |
| Exclusions.ExclusionTable.NextExclusion | gc/mark_rts.c:417-434 | the binary search finds the first range that ends after an address |
| Exclusions.ExclusionTable.Exclude | gc/mark_rts.c:438-472 | overlap is reported if and only if there is one; otherwise exactly the new range becomes excluded and the table stays sorted and disjoint |
| Exclusions.ExclusionTable.PushWithExclusions | gc/mark_rts.c:491-507 | the ranges handed on are disjoint, and their union is the given range without all exclusions |
| MarkGraph.ClosedHoldsReachable | gc/mark.c:309-428 | a set that holds the roots' objects and is closed under pointers holds everything reachable |
| MarkGraph.MarkedIsReachable | gc/mark.c:368-394 | when nothing is left to scan, and nothing was marked without cause, marked means reachable |
| MarkSteps.ScanStep | gc/mark.c:781-865 | scanning a range marks the target of every aligned word in it, loses no entry of the stack unless the overflow is recorded, and pushes only what it newly marked |
| MarkSteps.TopStep | gc/mark.c:637-690 | a round that takes an entry or its first 127 words loses nothing unless it records an overflow, and marks something new or leaves less to do |
| MarkSteps.DrainStep | gc/mark.c:607-870 | marking until the stack is empty ends, whatever the size of the stack |
| MarkSteps.OverflowNeeds | gc/include/private/gc_pmark.h:418-426 | GC_MARK_FO overflows only if at least as many unmarked objects are ahead of the object as the stack has places |
| MarkSteps.AheadShrinks | gc/include/private/gc_pmark.h:418-426 | marking more never puts more objects ahead of one |
| MarkSteps.BoundIsTight | gc/mark.c:576-591 | for every size of the stack there is a heap in which GC_MARK_FO overflows with exactly that many objects ahead |
| Marker.Marker.DeferredLast | gc/mark.c:781-865 | putting the last plausible pointer of a range off to the end changes nothing |
| Marker.Marker.ScanRange | gc/mark.c:781-865 | both loops, with the deferred word, do what looking at the words in order does |
| Marker.Marker.MarkTop | gc/mark.c:637-870 | one round on the array refines the round on values |
| Marker.Marker.MarkFrom | gc/mark.c:607-870 | loses nothing unless the state becomes MS_INVALID, marks only what is reachable, and marks something or leaves less to do |
| Marker.Marker.PushMarked | gc/mark.c:1727-1775 | afterwards all marked objects of the block are on the stack or scanned, or the state is MS_INVALID, which happens only if the stack was nearly full |
| Marker.Marker.PushNextMarked | gc/mark.c:1835-1846 | the rescan reaches every block: below the block returned all marked objects are dealt with, and 0 means that all are |
| Marker.Marker.PushNextMarkedUncollectable | gc/mark.c:1883-1908 | the same for blocks of uncollectable objects |
| Marker.Marker.PushRoots | gc/mark_rts.c:754-820 | all objects that roots point to are marked or on the stack, unless the state is MS_INVALID |
| Marker.Marker.MarkSome | gc/mark.c:309-428 | every call finishes with exactly the reachable objects marked, or comes nearer to that in a well-founded measure, however often the stack overflows and whether or not it can grow |
| Marker.Marker.ClearMarks | gc/mark.c:226-232 | just the marks of uncollectable objects stay, and the state is one from which marking is complete |
| Marker.Marker.StoppedMark | gc/alloc.c:586-684 | marking ends, and marked is what is reachable from the roots and the objects marked before |
| Marker.Marker.MarkFo | gc/include/private/gc_pmark.h:418-426 | marked is then what is reachable from the old marks and the object's pointers, or, exactly when marking overflows, from the old marks and the object |
| ParallelMark.StepKeepsInv | gc/mark.c:897-1113 | every step of every helper and of the initiator keeps the invariant: the counts of helpers are exact, and all entries below GC_first_nonempty are claimed |
| ParallelMark.LeaveIsQuiet | gc/mark.c:1054-1097 | when a helper leaves, every entry ever deposited is claimed and no helper holds work |
| ParallelMark.QuietStays | gc/mark.c:1014-1113 | from then on, whatever helpers still come, nothing is marked or invalidated, all entries stay claimed and nobody holds work |
| ParallelMark.SharingConserves | gc/mark.c:964-1004 | giving back a local stack, or half of it, neither loses nor duplicates an entry |
| ParallelMark.ParallelMarkIsComplete | gc/mark.c:1119-1181 | in every interleaving, when the initiator is done nobody helps any more and nothing is lost unless the state is MS_INVALID; nothing is marked without cause |
| ParallelMark.RoundIsMarking | gc/mark.c:964-1004 | a round of GC_mark_from on a local stack is one of the marking steps of the protocol |
| ParallelMark.ParallelMarkSome | gc/mark.c:368-394 | with the parallel phase in it GC_mark_some ends with exactly the reachable objects marked, unless entries were dropped |
| ParallelMark.NoDeadlock | gc/mark.c:1014-1181 | until the initiator is done somebody can go on: no notification is missed |
| LazySweep.FreeOnce | gc/reclaim.c:606-683 | no object is twice on the free lists |
| LazySweep.SweepOk | gc/reclaim.c:327-343 | sweeping a block frees its unmarked objects, of which none was free or in use, because in a block that awaits its sweep every one that is free or in use is marked |
| LazySweep.AddBlockOk | gc/new_hblk.c:171-191 | a new block keeps that invariant |
| LazySweep.PopOk | gc/malloc.c:113-147 | an object taken off a free list was not in use, is of the size asked for, and is clear if its kind must be |
| LazySweep.PushOk | gc/malloc.c:478-536 | a freed object keeps the invariant even when its block still awaits its sweep |
| LazySweep.RestartedOk | gc/reclaim.c:606-660 | the invariant holds after marks were set anew and all lists dropped |
| LazySweep.SweptTrans | gc/reclaim.c:667-740 | sweeps in any number add up: only unmarked objects of waiting blocks become free, and each of them once its block was swept |
| LazySweep.CollectedMarks | gc/alloc.c:411-476 | over a whole collection, the client keeps exactly the objects reached and the uncollectable ones |
| LazySweep.ReclaimGeneric | gc/reclaim.c:146-217 | the loop over mark bits links exactly the unmarked objects, once each, and counts their bytes |
| LazySweep.BuildFl | gc/new_hblk.c:109-165 | the loop links all objects of the block, once each |
| LazySweep.Collector.ContinueReclaim | gc/reclaim.c:667-683 | sweeps until the free list has an object or no block of this size waits |
| LazySweep.Collector.ReclaimAll | gc/reclaim.c:694-740 | unless stopped, no block waits at the end; each was swept, but for old ones if those are to be ignored |
| LazySweep.Collector.Free | gc/malloc.c:478-536 | the object goes to the list of its kind and size, in any state of sweeping |
| LazySweep.Collector.ClearFlMarks | gc/alloc.c:765-806 | just the marks of the objects of the list are gone, and the counts of marks stay exact |
| LazySweep.Collector.FinishCollection | gc/alloc.c:825-961 | marked objects stay the client's and the others do not; no free list holds an object; the invariant holds again |
| LazySweep.Collector.TryToCollect | gc/alloc.c:411-476 | a completed collection leaves what was reached or is uncollectable; one that was stopped takes nothing away |
| LazySweep.Collector.AllocObj | gc/alloc.c:1330-1368 | succeeds if and only if the free list is not empty at the end, and takes nothing from the client but what its collections did not reach |
| LazySweep.Collector.GenericMallocInner | gc/malloc.c:104-147 | the result was not in use, has the kind and size asked for, and is clear if it must be; the client loses only what collections on the way did not reach |
| HashTables.HoldsRemove | gc/finalize.c:227-249 | unlinking an entry takes exactly its key out of the map |
| HashTables.HashTable.Grow | gc/finalize.c:100-135 | rehashing into twice as many chains keeps the map and the number of entries |
| HashTables.HashTable.Find | gc/finalize.c:174-187 | the walk of one chain decides whether a key is in the map, and finds what is kept with it |
| HashTables.HashTable.Register | gc/finalize.c:147-209 | the map gains or replaces one key and nothing else, growing first if need be |
| HashTables.HashTable.Unregister | gc/finalize.c:227-249 | the map loses that key and nothing else |
| HashTables.HashTable.DeleteDead | gc/finalize.c:670-732 | one pass over the chains, unlinking on the way, leaves exactly the entries that are not dead |
| HashTables.HashTable.Move | gc/finalize.c:292-341 | a link moves with its object, unless it is missing or the new place is taken, when nothing changes |
| FinalizeOrder.ReadyIff | gc/finalize.c:754-808 | a registered object stays unmarked if and only if it is unreachable, on no path from an unreachable registered object, and its own marking did not overflow |
| FinalizeOrder.CycleNeverReady | gc/finalize.c:754-770 | an object on a cycle is never ready |
| FinalizeOrder.ContentsMarked | gc/finalize.c:754-770 | whatever a registered object leads to is marked |
| FinalizeOrder.SourceStep | gc/finalize.c:754-770 | marking from one more registered object, with or without overflow, gives what is reachable from a set that does not depend on the order of the entries |
| FinalizeOrder.SingleIff | gc/finalize.c:754-808 | a single unreachable registered object stays unmarked if and only if it is on no cycle and, in the state before the call, marking from it does not overflow the stack |
| FinalizeOrder.ReadyObjectWithheld | gc/include/private/gc_pmark.h:418-426 | for every size of the stack there is a heap in which a ready object is withheld, with no more objects ahead of it than the stack holds |
| FinalizeQueue.AccountQueue | gc/finalize.c:780-803 | moving a record from table to queue keeps every record in exactly one place |
| FinalizeQueue.AccountCall | gc/finalize.c:966-1008 | so does calling it, which happens once |
| FinalizeQueue.AccountDrop | gc/finalize.c:461-487 | so does unregistering it |
| FinalizeQueue.AccountReturned | gc/finalize.c:825-858 | so does the loop that puts waiting records back, if what returns is new to the table |
| FinalizeQueue.TableIff | gc/finalize.c:851-854 | pushing the returning records without looking leaves a table in which no key is twice if and only if none of them is registered and all differ |
| FinalizeQueue.RegisteredWaiterClashes | gc/finalize.c:825-858 | an object registered anew while its record waits in the queue ends up twice in its chain |
| FinalizeQueue.FreshIff | gc/finalize.c:825-858 | which records return depends on what was marked on the way; whether they clash is decided before the call by the queue and the table |
| FinalizeQueue.KeptSeparate | gc/finalize.c:825-858 | what stays queued is apart from the table again |
| Finalize.LinkTables.ClearLinks | gc/finalize.c:702-717 | exactly the links to unmarked objects are forgotten |
| Finalize.LinkTables.RemoveDangling | gc/finalize.c:719-732 | exactly the links that lie in unmarked objects are forgotten |
| Finalize.Finalizer.MarkFromRegistered | gc/finalize.c:754-770 | after the loop over the chains marked is what is reachable from the old marks, the contents of all registered objects and the objects of over, each of which had as many unmarked objects ahead as the stack had places |
| Finalize.Finalizer.EnqueueUnmarked | gc/finalize.c:780-808 | exactly the records of unmarked objects leave the table for the queue, with their bases revealed |
| Finalize.Finalizer.RegisterFinalizer | gc/finalize.c:433-553 | returns what was registered, enters, replaces or removes; queue and table stay apart if and only if the object is not both registered now and waiting in the queue |
| Finalize.Finalizer.InvokeFinalizers | gc/finalize.c:966-1008 | every queued finalizer is called once, in the order of the queue, with its object and data |
| Finalize.Finalizer.KeepQueued | gc/finalize.c:809-824 | what ordinary queued finalizers need is marked, and so are their objects |
| Finalize.Finalizer.ReviveWaiting | gc/finalize.c:825-858 | the loop that unlinks from the queue and pushes on chains does what the three functions on the queue say, for any queue and table |
| Finalize.Finalizer.ReviveTable | gc/finalize.c:825-858 | the table still refines a map if and only if the returning records are new to it; then all records are accounted for |
| Finalize.Finalizer.FinalizeJava | gc/finalize.c:809-859 | the same, given what was queued and registered before GC_finalize; every queued record is still queued or back in the table |
| Finalize.Finalizer.GcFinalize | gc/finalize.c:737-876 | the table survives if and only if no waiting record clashes, and then records are conserved; queue and table, if apart before, are apart after; links end up as the marks before and after say |
| Finalize.Finalizer.OrderGuarantee | gc/finalize.c:754-808 | with ordinary finalizers the records queued are those of the objects that are ready, but for objects whose marking overflowed, which cannot be if fewer objects are ahead than the stack has places; exact for a single registered object; what they lead to is marked |
| StopWorld.StoppedMeansParked | gc/pthread_stop_world.c:580-649 | from the return of GC_stop_world to GC_start_world every thread that was signalled is in its handler; without repeated signals in every run, with them if no stop begins while a thread has to answer an older signal |
| StopWorld.NobodyLeavesEarly | gc/pthread_stop_world.c:227-309 | in such runs no thread leaves the handler for a stop before its restart began, even when the next stop has begun |
| StopWorld.SleeperIsWoken | gc/pthread_stop_world.c:285-309 | no thread sleeps through its restart |
| StopWorld.NoThreadIsLost | gc/pthread_stop_world.c:595-632 | the branch that gives up on lost threads is never taken |
| StopWorld.CleanWhenIdle | gc/pthread_stop_world.c:580-649 | without repeated signals all are answered by the time the world restarts |
| StopWorld.NoDeadlock | gc/pthread_stop_world.c:633-649 | while acknowledgements are missing, a thread that owes one can move |
| StopWorld.StopProgress | gc/pthread_stop_world.c:580-649 | every move of such a thread lowers a bound on the moves that are missing, and no other step raises it |
| StopWorld.HandshakeIffClean | gc/pthread_stop_world.c:227-309 | with repeated signals a stop parks all threads and lets none out early, in all runs, if and only if no thread has to answer an older signal when it begins |
| StopWorld.SafeIffClean | gc/pthread_stop_world.c:580-649 | with at least two threads the first half alone has the same condition |
| StopWorld.RepeatedSignalsCanFail | gc/pthread_stop_world.c:580-649 | a run of two threads and two stops in which GC_stop_world returns while a signalled thread runs |
| StopWorld.RepeatedSignalsLeaveEarly | gc/pthread_stop_world.c:227-309 | a run in which a thread leaves the handler for the second stop before the flag for it is set |
| ParContext.CountInRange | parContextManager.cpp:104-162 | an exact count is between 0 and the maximum, and 0 when all is reconciled |
| ParContext.SchedAccounted | parContextManager.cpp:104-114 | scheduling keeps the count exact whether the statement gets a thread or is deferred |
| ParContext.TakeAccounted | parContextManager.cpp:164-180 | taking a future keeps it exact, with the thread still counted |
| ParContext.DestroyAccountedIff | parContextManager.cpp:98-102 | destroying a context keeps the count exact if and only if no statement stored under it has a thread |
| ParContext.LeakIff | parContextManager.cpp:104-114 | scheduling under an unknown context costs a thread for good if and only if the pool had room |
| ParContext.ParContextManager.constructor | parContextManager.cpp:251-258 | the maximum is the number of compute elements, clamped to 2 to 4 |
| ParContext.ParContextManager.Schedule | parContextManager.cpp:104-162 | fails if and only if the context is unknown or the id is in use there for that type, and then the thread is counted all the same; ids of different types are apart |
| ParContext.ParContextManager.TakeFuture | parContextManager.cpp:164-170 | gets and forgets the future; throws if and only if there is none, and then leaves the mutex locked |
| ForkJoin.StepKeepsInv | parContextManager.cpp:91-249 | every step of every statement keeps the invariant: each future stored belongs to the statement scheduled under that context, type and id, and will give its sequential value |
| ForkJoin.AlwaysServed | parContextManager.cpp:98-180 | a statement that waits only for what it scheduled never makes the manager throw or fail |
| ForkJoin.GotValue | parContextManager.cpp:164-180 | a recon returns the value of the statement scheduled under that context and id, deferred or not |
| ForkJoin.NoDeadlock | parContextManager.cpp:104-180 | while any statement has not finished some statement can make a step, whatever the maximum is |
| ForkJoin.StepDecreases | parContextManager.cpp:104-180 | every step lowers a measure |
| ForkJoin.EveryRunFinishes | parContextManager.cpp:91-249 | every run is of bounded length and can go on until all have finished; then the root has the value of its sequential run, nothing is stored, and no threads are counted |

## Findings

What the proofs show of the code, where it does less than its documentation or its users expect.

- **Repeated signals break the handshake** (gc/pthread_stop_world.c:227-309, 580-649).  When `GC_retry_signals` is set,
  GC_stop_world signals again those threads whose stop number it does not see yet.  A thread that has posted its
  acknowledgement but not stored the number gets a second signal, and posts twice.  `StopWorld.RepeatedSignalsCanFail`
  is a run in which the surplus acknowledgement ends the next stop while a thread still runs;
  `StopWorld.RepeatedSignalsLeaveEarly` one in which a thread leaves the handler before the stop is under way.
  `StopWorld.HandshakeIffClean` and `StopWorld.SafeIffClean` give the exact condition: no thread may have to answer an
  earlier signal when a stop begins.  Without repeated signals it always holds (`StopWorld.CleanWhenIdle`).
- **Java finalization can enter an object twice in the table** (gc/finalize.c:825-858).  The loop that puts waiting
  records back pushes them without looking for their keys.  If an object was registered again while its record was
  queued, its chain then has two entries for it (`FinalizeQueue.RegisteredWaiterClashes`).  The table refines a map
  after GC_finalize if and only if no queued waiting record is registered and none is queued twice
  (`FinalizeQueue.TableIff`, `Finalize.Finalizer.GcFinalize`); the registration of a queued waiter is what breaks this
  (`Finalize.Finalizer.RegisterFinalizer`).
- **A ready object can be withheld by an overflow** (gc/include/private/gc_pmark.h:418-426).  When the mark stack
  overflows in GC_MARK_FO, the object itself is marked, and not finalized in this cycle.  This takes at least as many
  unmarked objects ahead of it as the stack has places (`MarkSteps.OverflowNeeds`), and that many can be enough
  (`FinalizeOrder.ReadyObjectWithheld`).  `FinalizeOrder.SingleIff` is exact for one registered object.
- **Destroying a context can lose threads** (parContextManager.cpp:98-102).  The count stays exact if and only if no
  statement stored under the context has a thread (`ParContext.DestroyAccountedIff`); otherwise the pool shrinks for good.
- **Scheduling under an unknown context loses a thread** (parContextManager.cpp:104-114): the thread is started and
  counted before the context is looked up (`ParContext.LeakIff`, `ParContext.ParContextManager.Schedule`).
- **A recon that throws leaves the mutex locked** (parContextManager.cpp:164-170), as it is locked by hand
  (`ParContext.ParContextManager.TakeFuture`).

Comments in the source that the code does not bear out; the model follows the code:

- gc/allchblk.c:39 says that sizes up to 32 blocks have a list each, but list 32 is shared (`Sizes.BinExactIff`);
- gc/allchblk.c:351 says that lists are sorted by address, but blocks are pushed at the front;
- gc/mark.c:877-882 says that GC_active_count stays 0 once it has returned to 0; a helper that comes late may still
  raise it, which does no harm (`ParallelMark.QuietStays`);
- gc/mark_rts.c:461-467 moves entries up before it finds that the table is full.  The model looks first; both end
  the program.

## Left out

- Marker.Marker.PushRoots: the number of root ranges is bounded by half the initial mark stack, because larger numbers
  overflow a stack that GC_push_all cannot enlarge; the source aborts there.
- Marker.Marker.AllocMarkStack: the space of the old mark stack is not recycled as heap blocks.
- Marker.Marker.StoppedMark: stopping early is modelled in LazySweep.Collector.StoppedMark only.
- ParallelMark.RoundIsMarking: the split of large entries between helpers (SHARE_BYTES) is not modelled; an entry is
  taken whole.
- ParallelMark.NoDeadlock: that parallel marking ends under every fair schedule is not stated.  Two helpers may load
  the same entry before either clears it, and both may give parts of their local stacks back, so rounds of marking do
  not make the pending work smaller in every interleaving, as they do for one thread (MarkSteps.TopStep).
- StopWorld.StopProgress: it bounds the steps of threads that owe an acknowledgement; that they get to make them is up
  to the scheduler.
- LazySweep.Collector.TryToCollect: the set of objects that the marker reaches is a parameter; that a finished marker
  leaves exactly the reachable ones marked is Marker.Marker.StoppedMark.  Blocks of large objects, thread-local free
  lists and the adjustment of collection frequency are left out.
- Finalize.Finalizer.InvokeFinalizers: the finalizers called are not modelled; they register nothing while they run.
- Finalize.Finalizer.GcFinalize: that objects of queued records are marked before it runs comes from pushing the queue
  as a root (gc/finalize.c:77-94) and is a precondition; memory words at disappearing links are not part of the marker's
  view of the heap.
- HashTables.HashTable.Unregister: a table exists; before the first registration the source reads a missing array.
- HashTables.HashTable.Move: the same.
- HashTables.HashTable.Register: running out of memory for an entry is left out; for a larger table it is modelled in
  HashTables.HashTable.Grow.
- Exclusions.ExclusionTable.PushWithExclusions: the table is not empty, as the comment at gc/mark_rts.c:414-416 demands.
- BlockAllocator.Heap.Allochblk: failure to get a header or counts, unmapping, and the tests of GC_should_collect, which
  are the parameters useMore and finalizersFreedMuch.
- BlockAllocator.Heap.AddToHeap: the section does not wrap around the end of the address space, and the records of
  heap sections and least and greatest addresses are left out.
- ForkJoin.EveryRunFinishes: statements reconcile all that they schedule before they destroy the context; what happens
  otherwise is ParContext.DestroyAccountedIff.
- Reports of leaks, debugging headers, gcj and typed descriptors, mark procedures of clients, disclaim procedures,
  incremental collection and dirty bits: left out.
- The weak memory model: atomic operations and locked regions are steps of one interleaving.
- Code generation, the parser and the abstract syntax of Fork: left out.
