# Solaris Porting Layer: a verified model of its kernel data structures

The Solaris Porting Layer (SPL) gives ZFS the Solaris kernel interfaces it expects on Linux.  This
project models the parts of it that carry the most state: the slab allocator, the task queue, the
linked list with live iterators, thread-specific data, the XDR codec and its size pass, 64-bit
division on 32-bit machines, the chained hash and its prime search, and the condition variable.

`dafny verify dfyconfig.toml` checks everything.

## How the model is built

Each stateful part has the same three layers.

1. A *state* module gives the data as a value and every lock-held section (or atomic step) as a
   function on it: `KmemState`, `TaskqState`, `ModHashState`, `TsdState`, `CondVar`.
2. A *proofs* module shows that every step keeps the invariants, and a *runs* module draws the
   conclusions about whole runs: any number of threads, processors, slabs, tasks, keys, in any
   interleaving of those sections.  A *moves* module says for every step of every run what goes where,
   in the fields alone and without naming the function that computes it.
3. A class holds the fields the source updates in place, with the source's own loops, and each of
   its methods is proved to compute exactly one step: `KmemCache`, `Taskq`, `LsdList`, `ModHash`,
   `Tsd`, `XdrMem`, `XdrSize`.

The list is a heap structure: nodes, iterators registered with the list, and addresses of `next`
pointers, represented by the node that owns the pointer (`null` for the list's own `head`).  What an
iterator means while the list changes is stated once, on indices, in `ListCursor`, and every operation
of the list carries that record along for each of its iterators; the insertion sort is stated on
sequences in `ListSort`.  The condition variable is an interleaving of atomic steps only:
its code is a handful of atomic operations, and what matters is their order.

## What the model found

Places where the code does less, or other, than its documentation or a reader would expect.  For each
the members named prove the exact condition for all inputs and give a concrete case; where the case is
a state, a run reaches it.

- `spl_kmem_cache_alloc` without sleeping can fail although the refill just filled the magazine: it
  fails exactly when the magazine was empty and either enough objects were free or the grow call gave no
  emergency object (`KmemAlloc.NoSleepFails`, `KmemAlloc.NoSleepWitness`, `KmemCache.KmemCache.Alloc`).
- `spl_slab_size` accepts sizes for which the objects do not fit.  The layout is sound exactly when
  neither the rounded size of an object with its header nor the sum of cells and slab header left 32
  bits; a wrapped product alone does no harm (`SlabLayout.SoundIff`, `SlabLayout.WrapWitness`,
  `SlabLayout.RoundingWitness`, `SlabLayout.ProductWitness`).
- A `KMC_KMEM` slab is not rounded up to the next power of two, as the comment says, but down to the
  greatest one below the size asked for; so it holds the number of objects asked for exactly when they
  fit in two pages (`SlabShape.KmemShape`, `SlabShape.AskedForIff`, `SlabShape.SevenOfEight`).
- A spawn request the private queue refuses leaves `tq_nspawn` raised for good, and `taskq_destroy`
  then waits forever (`TaskqRuns.LostSpawnBlocksDestroy`, `TaskqRuns.LostSpawnWitness`).
- `taskq_destroy` fails its assertion on `tq_nalloc` while a cancelled task still waits for its timer
  (`TaskqRuns.DestroyIff`, `TaskqRuns.DestroyWitness`).
- `taskq_wait_outstanding(id)` waits for `id` itself too; its comment promises the lower ids only
  (`TaskqRuns.WaitsForItself`, `TaskqRuns.WaitOutstandingWitness`).
- `list_remove` removes the last item returned if and only if neither it nor the node right after it
  has been deleted since (`ListCursor.RemoveActs`, `ListCursor.RemoveMissesWitness`).
- `list_sort` resets the iterators only when the list has at least two items (`LsdList.List.SortList`).
- `tsd_create` hands out key 32769, which `tsd_set` rejects, exactly when its counter runs into it
  (`TsdRuns.CreatedKeyUsable`, `TsdRuns.UnusableKeyWitness`), and it fails while the key at its counter
  is still free (`TsdRuns.CreateFails`, `TsdRuns.CreateFailsWitness`).
- `tsd_set` of null over a value runs the destructor on null, and nothing else does
  (`TsdRuns.NullCalls`, `TsdRuns.NullCallWitness`).
- `mod_hash_replace` loses the key when the allocation fails (`ModHashRuns.ReplaceKeeps`), and the walk
  shows nothing when there is one chain (`ModHashRuns.WalkComplete`, `ModHashRuns.OneChainWitness`).  The
  last of two or more chains is never used (`ModHashMoves.RunPlacement`).
- The prime search returns 1 for no chains (`Primes.FirstPrime`), and as compiled it never returns for
  chain counts with no prime between them and 4294967289 (`Primes.FirstPrime32`, `Primes.TrialStuck`,
  `Primes.StuckWitness`).
- `xdr_sizeof` never visits array elements, so an array of characters is sized too small
  (`XdrSize.ArraySizeRight`, `XdrSize.CharArrayWitness`).
- A signal sent without the mutex can be lost between queueing and counting (`CondVar.SignalMisses`,
  `CondVar.LostSignalWitness`).
- `__divdi3` truncates for every pair except the one whose quotient has no 64-bit word
  (`Division.Divdi3`).

## What is assumed of callers

- Slab allocator: a client frees only what it holds, and each object once.
- Task queue: timer expiry and `task_expire` are one step, so a cancelled delayed task does not expire.
  A caller-owned entry is not dispatched again while it is still queued.
- List: the comparator given to `list_sort` is a total preorder where order and stability are claimed;
  permutation and termination need nothing.  Operations run one at a time, as under the list's mutex.
- Thread-specific data: a key that is to get a new entry has been created, as the code asserts.
- Chained hash: at least one chain; keys that compare equal hash alike.  The comparator is given by the
  class of keys it calls equal, which is how all comparators in the file are written.
- Condition variable: nobody calls into it once `__cv_destroy` has begun; checking the magic number and
  taking the reference is one step.
- XDR: element sizes are positive, since the code divides by them, and the stream buffer is not null.

## Model

| member | source | states |
|---|---|---|
| `KmemRuns.RunSafe` | spl/module/spl/spl-kmem-cache.c:580-1545 | every reachable state of every run, for any processors and slabs: each object is in exactly one place (a slab free list, one magazine slot, or a client), lists and counters agree, magazines are within bounds |
| `KmemRuns.NeverHandedOutTwice` | spl/module/spl/spl-kmem-cache.c:1406-1468 | an allocation in any run hands out an object nobody holds, live, and nowhere else afterwards |
| `KmemMoves.StepMoves` | spl/module/spl/spl-kmem-cache.c:403-1545 | every step of every run, in magazines, client hands, emergency objects and slabs only: a pop gives the last slot to the client, a push appends, a refill appends as many objects as are free up to its demand, a flush drops the oldest and keeps the newest, growing adds one slab, reclaim takes exactly the unused ones; nothing else moves |
| `KmemMoves.RunMarks` | spl/module/spl/spl-kmem-cache.c:1117-1149 | in every state of every run each high-water mark is the greatest value its counter has had so far |
| `KmemMoves.TakesFirst` | spl/module/spl/spl-kmem-cache.c:1117-1149 | a refill of one takes the first free object of the first partial slab, which moves to the head of the complete list if that was its last |
| `KmemMoves.FlushesOnTop` | spl/module/spl/spl-kmem-cache.c:1361-1399 | a flush of one puts the oldest magazine object on top of the free list of its slab; the slab goes last when it empties, first when it was full, and otherwise stays where it is |
| `KmemMoves.FlushThenRefill` | spl/module/spl/spl-kmem-cache.c:1361-1399 | an object flushed to the first slab, or to one that was full, is the next one taken unless the slab empties, and slabs and partial list are as before |
| `KmemMoves.GrowsInOrder` | spl/module/spl/spl-kmem-cache.c:310-367 | a fresh slab stands last and has every object free, in address order |
| `KmemMoves.PushThenPop` | spl/module/spl/spl-kmem-cache.c:1438-1444 | what is freed last is allocated first, and the cache is as before |
| `KmemAlloc.NoSleepFails` | spl/module/spl/spl-kmem-cache.c:1438-1452 | with any steps of other threads before the emergency section, a non-sleeping allocation fails if and only if the magazine was empty and the free objects covered the demand or no emergency object came back |
| `KmemAlloc.EmergencyIff` | spl/module/spl/spl-kmem-cache.c:1200-1273 | emergency pages come back if and only if the magazine was empty, the counters show fewer free objects than half a magazine, the cache is marked deadlocked, no reap is in progress, a growth request is under way or could be made, no slab has room, and the page allocator found pages not in the tree yet |
| `KmemAlloc.SleepRestarts` | spl/module/spl/spl-kmem-cache.c:1438-1449 | a sleeping caller never fails, and restarts with an object to find whenever one was free |
| `KmemAlloc.NoSleepWitness` | spl/module/spl/spl-kmem-cache.c:1446-1452 | a run in which the refill fills the magazine and the non-sleeping caller still gets nothing |
| `KmemAlloc.EmergencyWitness` | spl/module/spl/spl-kmem-cache.c:1305-1307 | a run in which the same caller is handed emergency pages |
| `KmemAlloc.AsksIff` | spl/module/spl/spl-kmem-cache.c:1293-1309 | the cache is asked to grow if and only if the counters show fewer free objects than the demand |
| `KmemAlloc.RefillGets` | spl/module/spl/spl-kmem-cache.c:1283-1355 | a refill takes as many objects as are free, up to its demand |
| `KmemAlloc.SpareFacts` | spl/module/spl/spl-kmem-cache.c:1117-1149 | free objects are on partial slabs only and every partial slab has one, so the counters show whether the partial list is empty |
| `KmemRuns.ReclaimComplete` | spl/module/spl/spl-kmem-cache.c:404-451 | the scan from the tail that stops at the first slab in use frees every empty slab and no other |
| `KmemRuns.NoEmptyLeft` | spl/module/spl/spl-kmem-cache.c:418-427 | because used slabs precede empty ones, a used last slab means no slab is empty |
| `KmemRuns.FlushEmpties` | spl/module/spl/spl-kmem-cache.c:580-594 | a full flush leaves the magazine empty: every object in it has a slab counting it |
| `KmemRuns.FlushAllEmpties` | spl/module/spl/spl-kmem-cache.c:832-847 | flushing processor by processor empties all magazines and keeps the invariants |
| `KmemRuns.DestroyClean` | spl/module/spl/spl-kmem-cache.c:1084-1103 | with nothing outstanding, destroying a cache meets all final assertions |
| `KmemRuns.DestroyDirty` | spl/module/spl/spl-kmem-cache.c:1084-1103 | with anything outstanding, one of those assertions fails |
| `KmemRuns.StepSafe` | spl/module/spl/spl-kmem-cache.c:403-1399 | each lock-held section keeps placement, list order, the counters and conservation of objects |
| `KmemProofs.GrowInv` | spl/module/spl/spl-kmem-cache.c:1157-1183 | a new slab at the tail keeps the run order and adds its objects to the totals |
| `KmemProofs.RefillInv` | spl/module/spl/spl-kmem-cache.c:1283-1355 | moving objects from partial slabs to a magazine keeps every invariant, slabs retiring to the complete list when full |
| `KmemProofs.FlushInv` | spl/module/spl/spl-kmem-cache.c:1361-1399 | giving one object back keeps every invariant, including the run order of the partial list |
| `KmemProofs.ReclaimInv` | spl/module/spl/spl-kmem-cache.c:404-451 | freeing empty slabs keeps every invariant and every counter |
| `KmemProofs.EmergencyInv` | spl/module/spl/spl-kmem-cache.c:503-573 | emergency objects are counted and leave slabs alone |
| `KmemProofs.EmptySlabHasAll` | spl/module/spl/spl-kmem-cache.c:375-398 | a slab with no references has all its objects on its free list, so freeing it loses none |
| `KmemProofs.SumMove` | spl/module/spl/spl-kmem-cache.c:1374-1398 | when one slab changes and lists are rearranged, each total changes by that slab share only |
| `KmemCache.KmemCache.constructor` | spl/module/spl/spl-kmem-cache.c:801-826 | a cache with one empty magazine per processor satisfies all invariants |
| `KmemCache.Create` | spl/module/spl/spl-kmem-cache.c:875-1037 | no cache exactly when the object size is refused or memory runs out; otherwise an empty cache, no flag set, with the computed objects per slab, which fill the slab but for less than one where nothing wraps, and the magazine size of the table |
| `KmemCache.MagazineTable` | spl/module/spl/spl-kmem-cache.c:739-761 | the tunable is clipped to 2 and 256; without it the size is 256, 128, 64, 16 or 4 for cells up to 1 KB, 4 KB, 128 KB, 1 MB or above, larger cells never get larger magazines, and a full one holds more than the source comments say |
| `KmemCache.KmemCache.ShrinkObj` | spl/module/spl/spl-kmem-cache.c:1361-1399 | the list moves and counter updates are one shrink step |
| `KmemCache.KmemCache.ShrinkFirst` | spl/module/spl/spl-kmem-cache.c:580-594 | the loop gives back exactly the first objects of the magazine, oldest first |
| `KmemCache.KmemCache.FlushMag` | spl/module/spl/spl-kmem-cache.c:580-594 | the loop plus the closing memmove is the flush step on this magazine |
| `KmemCache.KmemCache.TakeObj` | spl/module/spl/spl-kmem-cache.c:1117-1149 | one object leaves its slab free list for the magazine, with counters |
| `KmemCache.KmemCache.DrainHead` | spl/module/spl/spl-kmem-cache.c:1326-1349 | the inner loop takes from the first slab until it is full or the demand is met, and retires it if full |
| `KmemCache.KmemCache.RefillMag` | spl/module/spl/spl-kmem-cache.c:1283-1355 | the nested loops compute the refill step: the magazine gets the least of half its size, its room and the free objects, and the cache is asked to grow exactly when the free objects are fewer than the demand, with the partial list empty |
| `KmemCache.KmemCache.SlabAlloc` | spl/module/spl/spl-kmem-cache.c:310-367 | a new slab has every object index on its free list once, in order |
| `KmemCache.KmemCache.GrowWork` | spl/module/spl/spl-kmem-cache.c:1157-1183 | the grow step, or nothing without memory; either way both flags are cleared |
| `KmemCache.KmemCache.SlabReclaim` | spl/module/spl/spl-kmem-cache.c:404-451 | the early-stopping reverse scan leaves exactly the slabs in use |
| `KmemCache.KmemCache.Alloc` | spl/module/spl/spl-kmem-cache.c:1406-1468 | one pass: the newest magazine object, emergency pages, null or another turn; a slab object exactly when the magazine had one; emergency pages exactly when it was empty, too few objects were free, the cache was marked deadlocked and not reaping, a growth request was under way or could be made, and the pages are new; null exactly for a non-sleeping caller with an empty magazine and neither; what is handed out was held by nobody |
| `KmemCache.KmemCache.CacheGrow` | spl/module/spl/spl-kmem-cache.c:1200-1273 | an emergency object comes back exactly when the cache was marked deadlocked, no reap is in progress, a growth request was under way or could be made, the partial list is empty, and there are pages not in the tree yet, and it is those pages; every other way out is an error; when the flags are set |
| `KmemCache.KmemCache.PopMag` | spl/module/spl/spl-kmem-cache.c:1438-1444 | the newest magazine object goes to a client that did not hold it |
| `KmemCache.KmemCache.EmergencyAllocObj` | spl/module/spl/spl-kmem-cache.c:503-546 | all four outcomes, and that only success changes the cache |
| `KmemCache.KmemCache.EmergencyFreeObj` | spl/module/spl/spl-kmem-cache.c:552-573 | found exactly when the address is in the tree, which then loses it |
| `KmemCache.KmemCache.PushMag` | spl/module/spl/spl-kmem-cache.c:1538-1539 | a held object goes back to the magazine |
| `KmemCache.KmemCache.Free` | spl/module/spl/spl-kmem-cache.c:1478-1545 | emergency pages leave the tree; a slab object is pushed, after a flush and followed by a reclaim when the magazine was full |
| `KmemCache.KmemCache.ReapNow` | spl/module/spl/spl-kmem-cache.c:1629-1701 | unless another reap is in progress, the local magazine is emptied if magazines expire, and no unused slab survives |
| `KmemCache.KmemCache.FlushMags` | spl/module/spl/spl-kmem-cache.c:832-847 | the loop over the processors flushes every magazine in turn |
| `KmemCache.KmemCache.Destroy` | spl/module/spl/spl-kmem-cache.c:1056-1109 | the closing assertions hold if and only if no client kept an object or emergency pages |
| `KmemCache.Magazine.Shift` | spl/module/spl/spl-kmem-cache.c:591-593 | the memmove drops the first slots and keeps the rest in order |
| `KmemCache.Magazine.Append` | spl/module/spl/spl-kmem-cache.c:1338-1343 | the new object is the last slot; the others stay |
| `SlabLayout.SoundIff` | spl/module/spl/spl-kmem-cache.c:688-732 | the bytes of all objects and headers lie inside an accepted slab and overlap nowhere if and only if neither the rounded size of a cell nor the sum of cells and header left 32 bits |
| `SlabLayout.LayoutSound` | spl/module/spl/spl-kmem-cache.c:335-353 | for a page-aligned slab every object is aligned, behind the slab header, before its own header and inside the slab, and shares no byte with another |
| `SlabLayout.Aligned` | spl/module/spl/spl-kmem-cache.c:250-256 | every object address is a multiple of the alignment, for every power of two from 8 to a page |
| `SlabLayout.CellOrder` | spl/module/spl/spl-kmem-cache.c:345-353 | while the cells stay within 32 bits, each ends before the next begins |
| `SlabLayout.DefaultsFit` | spl/module/spl/spl-kmem-cache.c:688-732 | with the shipped tunables, objects below half a gigabyte are always laid out soundly |
| `SlabLayout.WrapWitness` | spl/module/spl/spl-kmem-cache.c:695-732 | the sum wraps: eight objects of half a gigabyte are promised a slab of no bytes |
| `SlabLayout.RoundingWitness` | spl/module/spl/spl-kmem-cache.c:240-256 | the rounding wraps: the largest object sizes are accepted with cells that hold a header only |
| `SlabLayout.ProductWitness` | spl/module/spl/spl-kmem-cache.c:695-732 | a product that wraps alone gives a smaller but sound slab |
| `SlabLayout.SizeFits` | spl/module/spl/spl-kmem-cache.c:688-732 | header and cells fill the accepted size but for less than one cell when the sum did not wrap; otherwise the slab ends inside its own header |
| `SlabShape.KmemShape` | spl/module/spl/spl-kmem-cache.c:695-732 | a slab of whole pages is the greatest power of two of pages below the 32-bit sum asked for, at least two pages and at most the largest allocation, with the most objects that fit; it is refused exactly when not one does |
| `SlabShape.RoundedMeans` | spl/module/spl/spl-kmem-cache.c:707-718 | that size is a power of two of pages or the largest allocation, at least two pages; the sum asked for is at most twice it unless it is the largest allocation, and above it unless it is two pages |
| `SlabShape.AskedForIff` | spl/module/spl/spl-kmem-cache.c:700-724 | where the sum does not wrap, such a slab holds the number of objects asked for if and only if they fit in two pages |
| `SlabShape.SevenOfEight` | spl/module/spl/spl-kmem-cache.c:707-724 | eight objects of 2 KB are asked for and seven are what the four pages hold |
| `SlabShape.VmemShape` | spl/module/spl/spl-kmem-cache.c:695-732 | where the sum does not wrap and the largest slab has room for a header, a slab of virtual memory holds all objects asked for if they fit the largest slab, else the most that do, and is refused exactly when not one does |
| `SlabLayout.CellWraps` | spl/module/spl/spl-kmem-cache.c:248-266 | when the size of a cell wrapped, the first object covers its header or leaves the slab |
| `SlabLayout.RoundUpExact` | spl/module/spl/spl-kmem-cache.c:240-256 | rounding up gives the least multiple at or above the size |
| `TaskqRuns.RunInv` | spl/module/spl/spl-taskq.c:74-928 | every reachable state of every interleaving satisfies the id, pool and worker invariants |
| `TaskqRuns.RunLowest` | spl/module/spl/spl-taskq.c:226-282 | all work lists stay strictly sorted, the cached lowest id is the minimum of outstanding ids and the next id, and it never decreases |
| `TaskqRuns.RunLater` | spl/module/spl/spl-taskq.c:185-928 | along a run, the next id, the lowest id and the sets of started, finished and cancelled ids only grow |
| `TaskqRuns.RunPlaces` | spl/module/spl/spl-taskq.c:185-928 | each assigned id is pending, prioritised, delayed, active, finished or cancelled, in one of these only; it starts at most once; pending tasks start in id order |
| `TaskqMoves.StepMoves` | spl/module/spl/spl-taskq.c:140-928 | every step of every run, for every id: the only ways into and out of the pending, priority, delay and active lists, the finished and cancelled sets, the entries owned by callers and those awaiting a dead timer |
| `TaskqMoves.DispatchAppends` | spl/module/spl/spl-taskq.c:544-688 | a dispatch hands out the next id and appends it to the pending, the priority or the delay list, as asked, and to no other |
| `TaskqMoves.StartTakesFirst` | spl/module/spl/spl-taskq.c:717-733 | a worker takes the lowest priority task, and the lowest pending task only if there is no priority task |
| `TaskqMoves.PriorityFirst` | spl/module/spl/spl-taskq.c:569-572 | whenever a worker takes a pending task, every task dispatched to the front before is running, finished or cancelled |
| `TaskqMoves.DelayedUntilExpired` | spl/module/spl/spl-taskq.c:599-637 | a delayed task stays on the delay list until its timer expires or it is cancelled, and is not started unless its timer expired |
| `TaskqMoves.ExpiredHasPriority` | spl/module/spl/spl-taskq.c:185-220 | a task whose timer expired waits among the priority tasks until it is taken or cancelled |
| `TaskqMoves.Stays` | spl/module/spl/spl-taskq.c:492-928 | a task stays on its list until the step that expires, starts or cancels it |
| `TaskqMoves.RunBalance` | spl/module/spl/spl-taskq.c:737-928 | in every state of every run the next id and the counts of threads, active threads, pending, queued and lost spawns are what the history of steps adds up to |
| `TaskqMoves.PoolMoves` | spl/module/spl/spl-taskq.c:74-180 | the entry pool changes only when a dispatch draws on it or an entry returns; a returned entry is kept while the pool has no more than its minimum and freed otherwise |
| `TaskqRuns.DoneForGood` | spl/module/spl/spl-taskq.c:864-901 | a finished or cancelled id is never outstanding again |
| `TaskqRuns.WaitId` | spl/module/spl/spl-taskq.c:377-397 | once the wait passes, the id is finished or cancelled in every later state |
| `TaskqRuns.WaitOutstanding` | spl/module/spl/spl-taskq.c:401-424 | once the wait passes, every id up to the one given, or every id assigned when the call was made if none is given, is finished or cancelled for good |
| `TaskqRuns.AllDoneBelow` | spl/module/spl/spl-taskq.c:401-410 | a number is below the cached lowest id if and only if every id up to it is done, whether assigned yet or not |
| `TaskqRuns.WaitsForItself` | spl/module/spl/spl-taskq.c:401-424 | with every lower id done the wait still blocks if and only if the id is the lowest outstanding one, contrary to the comment |
| `TaskqRuns.WaitOutstandingWitness` | spl/module/spl/spl-taskq.c:413-424 | a run with task 1 done and task 2 queued, in which the wait for task 2 blocks |
| `TaskqRuns.WaitAll` | spl/module/spl/spl-taskq.c:428-448 | the check passes exactly when all lists are empty, and then every id assigned so far is done for good |
| `TaskqRuns.RunCrew` | spl/module/spl/spl-taskq.c:757-925 | active never exceeds present, present plus promised never exceeds the maximum, pool entries are conserved and the free list stays within its minimum |
| `TaskqRuns.SpawnedThreadStays` | spl/module/spl/spl-taskq.c:823-838 | a spawned worker never takes the too-many-threads exit |
| `TaskqRuns.LostSpawnBlocksDestroy` | spl/module/spl/spl-taskq.c:1048-1116 | one refused spawn request keeps the count destroy waits for above zero in every later state |
| `TaskqRuns.LostSpawnWitness` | spl/module/spl/spl-taskq.c:757-772 | a run in which the request is refused while the only worker is busy, and the drained, deactivated queue keeps the count |
| `TaskqRuns.DestroyIff` | spl/module/spl/spl-taskq.c:1102-1110 | once no thread is left or promised, the closing assertions hold if and only if nothing is outstanding and no cancel awaits its timer |
| `TaskqRuns.DestroyWitness` | spl/module/spl/spl-taskq.c:1102-1110 | a run in which a delayed task was cancelled and destroy finds an entry missing |
| `TaskqRuns.DrainedPool` | spl/module/spl/spl-taskq.c:140-178 | with the queue drained, all entries are free unless a cancel is in flight |
| `TaskqRuns.StepInv` | spl/module/spl/spl-taskq.c:74-928 | each lock-held section keeps every invariant and only moves forward |
| `TaskqProofs.LowestCorrect` | spl/module/spl/spl-taskq.c:226-258 | looking at list heads only finds the minimum, because the lists are sorted |
| `TaskqProofs.SettleLowest` | spl/module/spl/spl-taskq.c:864-901 | recomputing only when the lowest id leaves restores the minimum |
| `TaskqProofs.InsertFacts` | spl/module/spl/spl-taskq.c:196-217 | insertion from the tail keeps strict order and adds exactly the one id |
| `TaskqProofs.LeavePool` | spl/module/spl/spl-taskq.c:157-178 | an entry goes back to the pool exactly when the queue owns it and no timer holds it |
| `Taskq.Taskq.constructor` | spl/module/spl/spl-taskq.c:988-1036 | a queue with its workers up satisfies all invariants, prepopulated or not |
| `Taskq.Create` | spl/module/spl/spl-taskq.c:963-1044 | no queue exactly when a thread could not be created, and then the destroy that follows meets its closing assertions |
| `Taskq.Taskq.DestroyTail` | spl/module/spl/spl-taskq.c:1093-1110 | freeing the pooled entries meets the closing assertions if and only if nothing is outstanding or being cancelled |
| `Taskq.Taskq.StopThreads` | spl/module/spl/spl-taskq.c:1082-1091 | the threads of an idle queue leave one by one |
| `Taskq.Taskq.Prepopulate` | spl/module/spl/spl-taskq.c:1010-1017 | filling the free list one entry at a time reaches exactly the minimum |
| `Taskq.Taskq.StartWorkers` | spl/module/spl/spl-taskq.c:1019-1036 | each worker counted once; the promised count is reset |
| `Taskq.Taskq.InsertInOrder` | spl/module/spl/spl-taskq.c:264-282 | the backward scan computes ordered insertion |
| `Taskq.Taskq.FindList` | spl/module/spl/spl-taskq.c:289-307 | stopping at the first larger id decides membership of a sorted list |
| `Taskq.Taskq.Find` | spl/module/spl/spl-taskq.c:316-347 | found exactly when outstanding, active exactly when on the active list |
| `Taskq.Taskq.LowestId` | spl/module/spl/spl-taskq.c:226-258 | computes the minimum over the list heads and the next id |
| `Taskq.Taskq.Settle` | spl/module/spl/spl-taskq.c:896-901 | the cached lowest id after a task left |
| `Taskq.Taskq.TryDispatch` | spl/module/spl/spl-taskq.c:544-595 | which dispatches are refused, which get an entry at once, and which must drop the lock; a success appends the next id to the list asked for and to no other, anything else changes nothing |
| `Taskq.Taskq.AfterAlloc` | spl/module/spl/spl-taskq.c:123-133 | a fresh entry is counted and appended, under the next id, to the list asked for and to no other |
| `Taskq.Taskq.DispatchEnt` | spl/module/spl/spl-taskq.c:645-687 | a caller-owned entry goes to the end of the priority list if asked to the front, else of the pending list, without touching the pool; refused exactly when the queue is no longer active |
| `Taskq.Taskq.Enqueue` | spl/module/spl/spl-taskq.c:566-586 | the entry gets the next id and goes to the end of the list asked for, the other lists staying as they are, and all invariants hold |
| `Taskq.Taskq.ThreadSpawn` | spl/module/spl/spl-taskq.c:757-772 | when a worker is promised, and that a refused request still raises the count |
| `Taskq.Taskq.TimerExpired` | spl/module/spl/spl-taskq.c:185-217 | a delayed task moves to its sorted place among the priority tasks |
| `Taskq.Taskq.PickUp` | spl/module/spl/spl-taskq.c:864-882 | a worker takes priority tasks before pending ones and puts its choice in order on the active list |
| `Taskq.Taskq.Complete` | spl/module/spl/spl-taskq.c:887-910 | a completed task is removed, its entry goes back, the lowest id is updated, and after a long enough row of tasks another thread is asked for and the row starts anew |
| `Taskq.Taskq.CancelId` | spl/module/spl/spl-taskq.c:492-538 | cancels exactly what is queued and not active; an active task is reported busy; a timer is left to be stopped |
| `Taskq.Taskq.CancelFinish` | spl/module/spl/spl-taskq.c:515-526 | after the timer is stopped the entry returns to the pool |
| `Taskq.Taskq.WaitIdCheck` | spl/module/spl/spl-taskq.c:377-387 | passes exactly when the id is not outstanding; for an assigned id, exactly when it is done |
| `Taskq.Taskq.WaitOutstandingCheck` | spl/module/spl/spl-taskq.c:401-410 | one comparison decides whether every id up to the given one is done, for any id; it is false for ids not assigned yet |
| `Taskq.Taskq.WaitCheck` | spl/module/spl/spl-taskq.c:428-437 | one comparison decides whether every assigned id is done |
| `Taskq.Taskq.ThreadBegin` | spl/module/spl/spl-taskq.c:823-839 | a spawned worker is always kept and counted |
| `Taskq.Taskq.ShouldStop` | spl/module/spl/spl-taskq.c:784-801 | stops exactly an idle worker that is not the first, with no work, no promise and no active task left, when allowed |
| `Taskq.Taskq.ThreadEnd` | spl/module/spl/spl-taskq.c:920-928 | a worker that ends is removed and uncounted |
| `ListCursor.ReturnedOnceInOrder` | spl/lib/list.c:567-713 | whatever is inserted or deleted during a traversal, every node present from start to end is returned exactly once, in list order |
| `ListCursor.InsertedReturned` | spl/lib/list.c:646-678 | a node linked in during the traversal and still there at its end was returned if and only if it was linked in behind the slot of the iterator |
| `ListCursor.TraversalInv` | spl/lib/list.c:567-713 | at every point of a traversal: initial nodes behind the cursor were returned, nodes ahead were not, in order |
| `ListCursor.EndReturned` | spl/lib/list.c:567-713 | at the end of the list the traversal invariant means returned once and in order |
| `ListCursor.CursorKept` | spl/lib/list.c:664-711 | the assertion the source makes of every iterator is kept by insertion, deletion and stepping |
| `ListCursor.RemoveActs` | spl/lib/list.c:614-626 | in any traversal, list_remove hits the last node returned if and only if neither it nor its successor was deleted since; otherwise it does nothing |
| `ListCursor.RemoveMissesWitness` | spl/lib/list.c:705-706 | three nodes, one returned, its successor deleted: the returned node stays |
| `ListSort.SortStable` | spl/lib/list.c:392-433 | for every total preorder the result ascends and every class of equal items keeps its order |
| `ListSort.SortPermutes` | spl/lib/list.c:392-433 | for any comparator at all the result is a permutation |
| `ListSort.StableSortUnique` | spl/lib/list.c:392-433 | ascending and class-preserving leaves only one result, so the sort is the stable sort |
| `LsdList.List.constructor` | spl/lib/list.c:211-225 | a new list is empty, with the tail at the address of the head |
| `LsdList.List.NodeCreate` | spl/lib/list.c:646-677 | a new node comes in at the slot and the old nodes stay the same nodes; tail, count and every iterator and its traversal are told; without memory nothing moves |
| `LsdList.List.NodeDestroy` | spl/lib/list.c:681-713 | the node at the slot goes and is returned; tail, count and every iterator and its traversal are told; at the end nothing moves |
| `LsdList.ListIterator.NodeLinked` | spl/lib/list.c:668-675 | the two pointer tests move an iterator exactly as index insertion moves its cursor |
| `LsdList.ListIterator.NodeUnlinked` | spl/lib/list.c:703-710 | the two pointer tests move an iterator exactly as index deletion moves its cursor |
| `LsdList.List.Append` | spl/lib/list.c:290-301 | a new node is last and all others are the same nodes; without memory no node and no iterator moves |
| `LsdList.List.Push` | spl/lib/list.c:437-448 | a new node is first and all others are the same nodes; without memory no node and no iterator moves |
| `LsdList.List.Pop` | spl/lib/list.c:452-462 | the first node is removed and its item returned; on an empty list no iterator moves |
| `LsdList.List.IteratorCreate` | spl/lib/list.c:509-526 | a registered iterator at the head; the others are not disturbed |
| `LsdList.List.IteratorReset` | spl/lib/list.c:530-540 | the iterator is back at the head |
| `LsdList.List.IteratorDestroy` | spl/lib/list.c:544-563 | exactly this iterator is unregistered |
| `LsdList.List.Next` | spl/lib/list.c:567-581 | returns the item at the cursor and records its node as returned, or returns nothing at the end |
| `LsdList.List.Traversed` | spl/lib/list.c:567-713 | for every iterator of every list state the operations can make: at the end, each node present since the iterator was created or reset was returned exactly once, in list order |
| `LsdList.List.Insert` | spl/lib/list.c:585-597 | a new node stands right before the last one returned, or at the end, and all others are the same nodes; without memory nothing moves |
| `LsdList.List.Remove` | spl/lib/list.c:614-626 | removes the last node returned if and only if neither it nor its successor was deleted since; otherwise nothing moves |
| `LsdList.List.Find` | spl/lib/list.c:601-610 | the first match from the cursor on; none of the items passed over matches, and all of them count as returned |
| `LsdList.List.DeleteAll` | spl/lib/list.c:341-366 | what remains is the non-matching nodes in order, the deletion function gets the matches in order, and every iterator undergoes the deletions one after the other, keeping its place among what remains |
| `LsdList.SelectMeans` | spl/lib/list.c:341-366 | the nodes kept, and the nodes deleted, are exactly those the predicate rejects, or accepts, each once and in list order |
| `LsdList.List.SortList` | spl/lib/list.c:392-433 | the items in place become the stable sort, the tail is the true end, and all iterators start anew unless there was nothing to sort |
| `LsdList.List.SortStep` | spl/lib/list.c:406-422 | one round, including when the insertion slot is the predecessor slot |
| `LsdList.List.MoveNode` | spl/lib/list.c:411-414 | the three pointer writes move one node up and keep the chain |
| `LsdList.List.FindPlace` | spl/lib/list.c:408-410 | the inner loop ends, at the first larger item |
| `TsdRuns.RunInv` | spl/module/spl/spl-tsd.c:157-676 | in every reachable state each entry is on the list of its key and of its thread and on no other, has the destructor of its key, and is live or destroyed once |
| `TsdRuns.DestructorRunsOnce` | spl/module/spl/spl-tsd.c:129-142 | in every reachable state an entry with a destructor is either live or has had it run, never both and never twice |
| `TsdMoves.StepMoves` | spl/module/spl/spl-tsd.c:157-675 | every operation of every run, for every key and thread: which entries it makes, with the destructor of the key, which it changes, and which it ends |
| `TsdMoves.DestructorOrder` | spl/module/spl/spl-tsd.c:129-147 | each operation calls the destructors of exactly the entries it ends that have one, on the value they end with, oldest entry first |
| `TsdMoves.RunAged` | spl/module/spl/spl-tsd.c:190-198 | in every state of every run the list at each key and at each thread has its newest entry first |
| `TsdMoves.SetReplies` | spl/module/spl/spl-tsd.c:461-503 | set is refused exactly for keys outside 1 to 32768, and out of memory exactly when a new entry is needed and an allocation it needs fails |
| `TsdMoves.KeysMove` | spl/module/spl/spl-tsd.c:216-268 | a key exists from its creation to its destruction and keeps its destructor; creation takes the first key behind the counter that is free |
| `TsdMoves.CreateTakes` | spl/module/spl/spl-tsd.c:229-250 | the search hands out a key if and only if it is free and every key between the counter and it, counting on to 32769 and over to 1, is in use |
| `TsdMoves.ThreadsMove` | spl/module/spl/spl-tsd.c:277-303 | a thread entry exists from the first set that needs one, even if that set then fails, until the last entry of the thread goes or the thread exits |
| `TsdTable.BinHolds` | spl/module/spl/spl-tsd.c:99-118 | an entry stands in the bin that the product of its key and pid hashes to, and in no other |
| `TsdRuns.GetLastSet` | spl/module/spl/spl-tsd.c:461-527 | get returns the value last set, whatever other keys and threads did since |
| `TsdRuns.DestroyExact` | spl/module/spl/spl-tsd.c:563-614 | after destroy nothing is left under the key and everything else is unchanged |
| `TsdRuns.ExitExact` | spl/module/spl/spl-tsd.c:626-676 | after exit nothing is left for the thread and everything else is unchanged |
| `TsdRuns.CreateFails` | spl/module/spl/spl-tsd.c:231-245 | creation fails if and only if every key but the one at the counter is in use; the counter is then back where it was |
| `TsdRuns.CreateFailsWitness` | spl/module/spl/spl-tsd.c:231-245 | a run of 32770 operations after which no key can be created though key 1 is free |
| `TsdRuns.ProbeMeans` | spl/module/spl/spl-tsd.c:231-245 | the search yields the first free key after the counter |
| `TsdRuns.CreatedKeyUsable` | spl/module/spl/spl-tsd.c:461-475 | a created key is accepted by tsd_set unless, before the call, the counter is at most 32768, every key above it up to 32768 is in use and 32769 is free |
| `TsdRuns.HandsOutPast` | spl/module/spl/spl-tsd.c:231-245 | key 32769 is handed out if and only if the counter runs into it before a free key |
| `TsdRuns.UnusableKeyWitness` | spl/module/spl/spl-tsd.c:234-235 | a run of 32767 keys each created and destroyed, after which the next key created is the unusable one though none is in use |
| `TsdRuns.NullCalls` | spl/module/spl/spl-tsd.c:477-483 | in every run, a destructor is called on null by exactly the steps that set null over a value whose key has a destructor |
| `TsdRuns.RunNoNulls` | spl/module/spl/spl-tsd.c:461-501 | no live entry of a reachable state holds null |
| `TsdRuns.NullCallWitness` | spl/module/spl/spl-tsd.c:477-483 | create a key, set a value, set null: the destructor runs on null |
| `TsdProofs.OnceDropAll` | spl/module/spl/spl-tsd.c:129-142 | removing any entries and running their destructors, in any order, keeps the ledger |
| `TsdProofs.SetInv` | spl/module/spl/spl-tsd.c:461-501 | set keeps all three indexes consistent on every path, failed allocations included |
| `TsdTable.DrainedKey` | spl/module/spl/spl-tsd.c:586-600 | the loop of destroy unlinks exactly the entries of the key |
| `TsdTable.DrainedPid` | spl/module/spl/spl-tsd.c:650-663 | the loop of exit unlinks exactly the entries of the thread |
| `TsdTable.TornDown` | spl/module/spl/spl-tsd.c:368-393 | once all entries are taken out, every destructor has run exactly once |
| `Tsd.Tsd.constructor` | spl/module/spl/spl-tsd.c:332-357 | a new table is empty and consistent |
| `Tsd.Tsd.Search` | spl/module/spl/spl-tsd.c:99-119 | the bin search finds key entries, thread entries and thread-specific entries exactly when they exist |
| `Tsd.Tsd.AddKey` | spl/module/spl/spl-tsd.c:216-265 | key creation with its search loop, success exactly when a candidate is free |
| `Tsd.Tsd.FindKey` | spl/module/spl/spl-tsd.c:231-245 | the do-while loop with its post-increment test computes the probe |
| `Tsd.Tsd.AddPid` | spl/module/spl/spl-tsd.c:277-307 | a thread entry with an empty list |
| `Tsd.Tsd.HashAdd` | spl/module/spl/spl-tsd.c:157-202 | the entry joins its bin and both lists, with the destructor of its key |
| `Tsd.Tsd.HashDel` | spl/module/spl/spl-tsd.c:316-322 | the entry leaves its bin and both lists |
| `Tsd.Tsd.RunDtors` | spl/module/spl/spl-tsd.c:129-142 | destructors run in work-list order, skipping key entries and null destructors |
| `Tsd.Tsd.RemoveEntry` | spl/module/spl/spl-tsd.c:403-447 | testing the neighbour on the thread list for being the anchor removes the thread entry exactly with its last entry, and the destructor runs |
| `Tsd.AnchorFound` | spl/module/spl/spl-tsd.c:421-434 | if the list of the thread empties, the neighbour of the entry taken out was the anchor |
| `Tsd.Tsd.SetValue` | spl/module/spl/spl-tsd.c:461-501 | every path of set: rejected key, update, removal, nothing to do, no memory, new entry |
| `Tsd.Tsd.GetValue` | spl/module/spl/spl-tsd.c:513-527 | the value, or null for a bad or unset key |
| `Tsd.Tsd.DestroyKey` | spl/module/spl/spl-tsd.c:563-614 | all entries of the key are gone, their destructors run oldest first, and so is the key |
| `Tsd.Tsd.ExitThread` | spl/module/spl/spl-tsd.c:626-676 | all entries of the thread are gone, their destructors run, and so is the thread entry |
| `Tsd.Tsd.Fini` | spl/module/spl/spl-tsd.c:368-393 | all bins are empty and every remaining destructor has run exactly once |
| `ModHashRuns.RunInv` | spl/module/spl/spl-modhash.c:597-1000 | in every run, failed allocations included, the table stands for a map, and every key and value taken in is stored, handed back or destroyed, each once |
| `ModHashRuns.RunReplies` | spl/module/spl/spl-modhash.c:597-1000 | every reply of every run is the reply of the map |
| `ModHashMoves.StepMoves` | spl/module/spl/spl-modhash.c:597-1000 | every operation of every run, in stored entries only: what it stores, what it leaves, and what the caller is told |
| `ModHashMoves.RunPlacement` | spl/module/spl/spl-modhash.c:597-609 | in every state of every run an entry is on the chain its hash selects among all but the last, so the last of two or more chains is never used |
| `ModHashMoves.RunStats` | spl/module/spl/spl-modhash.c:624-897 | in every state of every run the hits, misses, duplicates and failed allocations counted are what the replies add up to |
| `ModHashRuns.KeysUnique` | spl/module/spl/spl-modhash.c:597-1000 | keys are unique across all chains and the element count is the size of the map |
| `ModHashRuns.ReplaceKeeps` | spl/module/spl/spl-modhash.c:815-833 | after replace the key has its new value if and only if the allocation succeeded; otherwise it is gone |
| `ModHashRuns.WalkComplete` | spl/module/spl/spl-modhash.c:938-954 | the walk visits each pair exactly once if and only if there are two chains or no pairs |
| `ModHashRuns.OneChainWitness` | spl/module/spl/spl-modhash.c:938-954 | a table of one chain and one pair: the walk shows nothing, and a replace without memory loses the pair |
| `ModHashRuns.StepBalanced` | spl/module/spl/spl-modhash.c:597-1000 | each operation accounts for every key and value, with the destructor calls it makes |
| `ModHashProofs.StepRefines` | spl/module/spl/spl-modhash.c:597-1000 | each operation on the table does what it does on a finite map |
| `ModHashProofs.FindMeans` | spl/module/spl/spl-modhash.c:868-885 | lookup agrees with the map, given a hash that respects the comparator |
| `ModHash.ModHash.constructor` | spl/module/spl/spl-modhash.c:504-546 | a new table with the given number of chains |
| `ModHash.ModHash.SeekChain` | spl/module/spl/spl-modhash.c:868-885 | the chain loop stops at the first equal key |
| `ModHash.ModHash.FindNosync` | spl/module/spl/spl-modhash.c:868-885 | the value found, with hit or miss counted |
| `ModHash.ModHash.InsertNosync` | spl/module/spl/spl-modhash.c:624-655 | the entry goes to the head of one chain, the others staying as they are, or the failure is counted |
| `ModHash.ModHash.RemoveNosync` | spl/module/spl/spl-modhash.c:758-792 | the entry is unlinked, its key destroyed, its value returned |
| `ModHash.ModHash.Insert` | spl/module/spl/spl-modhash.c:658-703 | duplicates are refused and counted; otherwise inserted |
| `ModHash.ModHash.Remove` | spl/module/spl/spl-modhash.c:795-804 | the value is handed back, or not found |
| `ModHash.ModHash.Replace` | spl/module/spl/spl-modhash.c:815-833 | remove with destruction, then insert, which may fail |
| `ModHash.ModHash.Destroy` | spl/module/spl/spl-modhash.c:842-858 | key and value are both destroyed |
| `ModHash.ModHash.FindKey` | spl/module/spl/spl-modhash.c:888-897 | the value, or not found |
| `ModHash.ModHash.ClearAll` | spl/module/spl/spl-modhash.c:983-1000 | every key and value destroyed in chain order, and nothing left |
| `ModHash.ModHash.Walk` | spl/module/spl/spl-modhash.c:938-954 | shows a prefix of all entries of all chains but the last, ending early exactly at the first entry that asks to stop |
| `Primes.PrimeAbove` | spl/module/spl/spl-modhash.c:422-443 | primes are unbounded, so the search ends |
| `Primes.TrialEnough` | spl/module/spl/spl-modhash.c:433-436 | no odd divisor up to the square root means prime |
| `Primes.Trial` | spl/module/spl/spl-modhash.c:432-436 | the inner loop decides primality of odd numbers |
| `Primes.FirstPrime` | spl/module/spl/spl-modhash.c:422-443 | the least odd prime above the number of chains, if and only if there is a chain |
| `Primes.Trial32` | spl/module/spl/spl-modhash.c:432-436 | in wrapping 32-bit arithmetic the loop decides primality of every odd word below 4294967289, and never ends for the four from there up |
| `Primes.FirstPrime32` | spl/module/spl/spl-modhash.c:422-443 | as compiled, for any 64-bit chain count: the search ends if and only if an odd prime above the lower word is below 4294967289, or that word is zero or the largest; the result is right if and only if the count is a positive word with such a prime |
| `Primes.TrialStuck` | spl/module/spl/spl-modhash.c:433-436 | for the four largest odd words the loop guard holds for every odd divisor |
| `Primes.StuckWitness` | spl/module/spl/spl-modhash.c:422-443 | for 4294967288 chains there is no such prime |
| `Primes.SquareAtMost` | spl/module/spl/spl-modhash.c:433-433 | no odd square exceeds 4294967289 modulo 2^32 |
| `Primes.SmallTables` | spl/module/spl/spl-modhash.c:422-443 | 8191 is such a prime, so every table of up to 8190 chains is served |
| `CondVar.RunInv` | spl/module/spl/spl-condvar.c:31-354 | in every interleaving the counters, the wait queue and the mutex agree with where the threads are |
| `CondVar.CountersBound` | spl/module/spl/spl-condvar.c:31-129 | the reference count is the owner plus the threads inside, and bounds the waiter count, strictly while the owner holds on |
| `CondVar.DestroyFinal` | spl/module/spl/spl-condvar.c:48-76 | after destroy returns nobody is inside, its final assertions hold, and no later step touches the object |
| `CondVar.SignalMisses` | spl/module/spl/spl-condvar.c:320-336 | a signal that sees no waiters misses a sleeper if and only if one is queued but not yet counted; with the mutex held it misses none |
| `CondVar.SignalWakes` | spl/module/spl/spl-condvar.c:320-354 | a signal sets the longest queued sleeper runnable and nobody else, if there is one; a broadcast, all |
| `CondVarRuns.SignalDelivered` | spl/module/spl/spl-condvar.c:320-354 | in every run, a signal begun under the mutex wakes a thread that slept then, and a broadcast all of them, before it is done |
| `CondVarRuns.FirstComeFirstServed` | spl/module/spl/spl-condvar.c:320-354 | a signal never wakes a sleeper while one that queued earlier still sleeps |
| `CondVarRuns.DestroyReads` | spl/module/spl/spl-condvar.c:48-76 | the two reads of the destroyer decide exactly whether a thread waits and whether one is inside |
| `CondVarRuns.NobodyStuck` | spl/module/spl/spl-condvar.c:80-128 | a thread inside can take a step of its own if and only if it is not asleep in the scheduler |
| `CondVarRuns.SleepersLetGo` | spl/module/spl/spl-condvar.c:80-128 | in every run a waiter owns the mutex until it calls the scheduler, and not from then until it leaves |
| `CondVar.LostSignalWitness` | spl/module/spl/spl-condvar.c:80-129 | a run in which a signal without the mutex is lost and the waiter sleeps on |
| `CondVar.StepInv` | spl/module/spl/spl-condvar.c:31-354 | every atomic step of waiters, signalers and the destroyer keeps the invariants |
| `CondVar.StepGone` | spl/module/spl/spl-condvar.c:60-76 | the two separate reads are enough: nobody is inside once the second reads zero |
| `XdrProofs.RoundTrip` | spl/module/spl/spl-xdr.c:175-496 | decoding a successful encoding of any nested value gives it back and takes exactly its bytes, whatever follows |
| `XdrWire.ScalarBytes` | spl/module/spl/spl-xdr.c:239-342 | characters, shorts and integers are one word whose byte i is the number divided by 256 to the power 3 - i, modulo 256, as in sections 3.1 and 3.2 of RFC 1832 |
| `XdrWire.HyperBytes` | spl/module/spl/spl-xdr.c:345-353 | an unsigned hyper is eight bytes, byte i the number divided by 256 to the power 7 - i, modulo 256 |
| `XdrWire.OpaqueBytes` | spl/module/spl/spl-xdr.c:175-205 | opaque data is its bytes and then zero bytes up to the next multiple of four; refused exactly when the padded count does not fit a word |
| `XdrWire.StringBytes` | spl/module/spl/spl-xdr.c:439-453 | a string is its length as a word, most significant byte first, and then its bytes, padded; refused exactly when it is over its limit or the padded length does not fit a word |
| `XdrWire.ArrayBytes` | spl/module/spl/spl-xdr.c:373-392 | an array is its count as a word and then its items, item i standing right behind the encodings of the items before it; it encodes exactly when the count is within its limits and every item encodes |
| `XdrWire.PairBytes` | spl/module/spl/spl-xdr.c:175-496 | one thing after another is the bytes of the first and then those of the second, and encodes exactly when both do |
| `XdrWire.ScalarRead` | spl/module/spl/spl-xdr.c:252-342 | a scalar is read exactly when four bytes are there and the number they spell, most significant first, is in its range, and is that number |
| `XdrWire.HyperRead` | spl/module/spl/spl-xdr.c:356-370 | a hyper is read exactly when eight bytes are there, the high word first |
| `XdrProofs.Canonical` | spl/module/spl/spl-xdr.c:175-496 | whatever is accepted is exactly what the encoder writes for the value returned, within the buffer |
| `XdrProofs.EncodingUnique` | spl/module/spl/spl-xdr.c:175-453 | two values with the same encoding are the same |
| `XdrProofs.DecodingUnique` | spl/module/spl/spl-xdr.c:208-496 | two inputs that decode to the same value start with the same bytes |
| `XdrProofs.Aligned` | spl/module/spl/spl-xdr.c:175-205 | every encoding is a whole number of four-byte units (RFC 1832, section 2) |
| `Xdr.RoundupMeans` | spl/module/spl/spl-xdr.c:178-182 | the rounded count is too small exactly when the addition wrapped, and otherwise adds at most three bytes |
| `Xdr.WordRoundTrip` | spl/module/spl/spl-xdr.c:239-262 | reading a big-endian word back gives the number |
| `Xdr.WordCanonical` | spl/module/spl/spl-xdr.c:239-262 | writing a word read gives the same bytes |
| `XdrMem.XdrMem.constructor` | spl/module/spl/spl-xdr.c:135-157 | a stream at the start of its buffer |
| `XdrMem.Create` | spl/module/spl/spl-xdr.c:135-157 | no stream exactly for an operation other than encode or decode, or when the end address wraps |
| `XdrMem.XdrMem.EncWord` | spl/module/spl/spl-xdr.c:239-249 | the four bytes of the word appended, most significant first, exactly when they fit |
| `XdrMem.XdrMem.EncOpaque` | spl/module/spl/spl-xdr.c:175-205 | appends the bytes and zero padding exactly when they fit and the count does not wrap; a null pointer is refused |
| `XdrMem.XdrMem.EncHyper` | spl/module/spl/spl-xdr.c:345-353 | high word first, succeeding exactly when both fit |
| `XdrMem.XdrMem.EncString` | spl/module/spl/spl-xdr.c:439-453 | length and bytes, succeeding exactly when within the limit and the room |
| `XdrMem.XdrMem.Enc` | spl/module/spl/spl-xdr.c:265-453 | an encoding procedure succeeds exactly when the value encodes and fits, appends exactly the encoding, and never disturbs what was written before |
| `XdrMem.XdrMem.EncArray` | spl/module/spl/spl-xdr.c:373-392 | both guards, the count, then the elements |
| `XdrMem.XdrMem.EncItems` | spl/module/spl/spl-xdr.c:384-389 | the loop appends the elements in order, failing exactly when one fails or the room runs out |
| `XdrMem.XdrMem.DecUint32` | spl/module/spl/spl-xdr.c:252-262 | a word read exactly when four bytes are left, and it is the number they spell, most significant byte first |
| `XdrMem.XdrMem.DecOpaque` | spl/module/spl/spl-xdr.c:208-236 | reads the bytes exactly when they are there and the padding is zero |
| `XdrMem.XdrMem.DecLimited` | spl/module/spl/spl-xdr.c:276-342 | accepts exactly the words a character, short or integer can have |
| `XdrMem.XdrMem.DecHyper` | spl/module/spl/spl-xdr.c:356-370 | two words, high first |
| `XdrMem.XdrMem.DecString` | spl/module/spl/spl-xdr.c:456-496 | accepts exactly lengths within the limit and bytes without zero, when its target can be allocated |
| `XdrMem.XdrMem.Dec` | spl/module/spl/spl-xdr.c:208-496 | a decoding procedure succeeds exactly when the specification does and needs no more targets than can be allocated; its cursor never passes the end, even on failure |
| `XdrMem.XdrMem.DecArray` | spl/module/spl/spl-xdr.c:395-436 | both guards, the target, then as many elements as counted |
| `XdrMem.XdrMem.DecItems` | spl/module/spl/spl-xdr.c:423-433 | the loop decodes the elements in order, failing exactly when one fails or its targets cannot be allocated |
| `XdrSize.SizeIsLength` | spl/module/spl/spl-xdr_sizeof.c:35-125 | the size pass succeeds whenever the encoder does and gives its length modulo 2^32 for every composition whose arrays are packed |
| `XdrSize.NoArraysExact` | spl/module/spl/spl-xdr_sizeof.c:35-86 | without arrays the two passes fail alike and the size is always right |
| `XdrSize.ArraySizeRight` | spl/module/spl/spl-xdr_sizeof.c:89-100 | an array of fixed-size elements is sized right if and only if it is empty or its element size in memory is its size on the wire |
| `XdrSize.CharArrayWitness` | spl/module/spl/spl-xdr_sizeof.c:98-98 | an array of two characters takes twelve bytes and is sized as six |
| `XdrSize.SizeStream.AddBytes` | spl/module/spl/spl-xdr_sizeof.c:62-71 | adds the padded count, failing on wrap |
| `XdrSize.SizeStream.Proc` | spl/module/spl/spl-xdr_sizeof.c:35-100 | a sizing procedure computes the specified running size or failure |
| `XdrSize.XdrSizeof` | spl/module/spl/spl-xdr_sizeof.c:114-125 | the encoded length for packed compositions below 2^32 bytes, zero on failure |
| `Division.Udivdi3` | spl/module/spl/spl-generic.c:119-150 | the floor of the quotient for every 64-bit dividend and nonzero divisor |
| `Division.Umoddi3` | spl/module/spl/spl-generic.c:170-173 | the remainder of that division |
| `Division.Divdi3` | spl/module/spl/spl-generic.c:157-163 | truncates toward zero for every pair if and only if it is not the least integer by minus one |
| `Division.LeadingZeros` | spl/module/spl/spl-generic.c:82-96 | the shift that brings the top bit of a nonzero word to the top, and 64 for zero |
| `Division.ShiftIfClear` | spl/module/spl/spl-generic.c:88-93 | one halving step shifts exactly the bits known to be clear |
| `Division.DivideNarrow` | spl/module/spl/spl-generic.c:124-135 | two-digit division for divisors below 2^32 is exact, with no word operation wrapping |
| `Division.DivideWide` | spl/module/spl/spl-generic.c:136-149 | estimate, decrement and one correction give the floor for larger divisors |
| `Division.Estimate` | spl/module/spl/spl-generic.c:137-142 | undoing the normalisation leaves the true quotient or one more |
| `Division.CutOff` | spl/module/spl/spl-generic.c:137-140 | what normalisation cuts off is small enough for the estimate to be off by at most one |
| `Division.TwoDigits` | spl/module/spl/spl-generic.c:127-134 | grade-school division one 32-bit digit at a time |
| `Division.Correct` | spl/module/spl/spl-generic.c:143-146 | one comparison repairs a quotient that is exact or one too small |
| `KmemCache.Magazine.constructor` | spl/module/spl/spl-kmem-cache.c:767-785 | an empty magazine of the given size, refilled by half, rounded up |
| `Taskq.Taskq.StartTask` | spl/module/spl/spl-taskq.c:864-882 | the chosen task becomes active in order, with the worker recorded |
| `Taskq.Taskq.RetireTask` | spl/module/spl/spl-taskq.c:887-901 | the finished task leaves the active list and its entry goes back |
| `Taskq.Taskq.Unqueue` | spl/module/spl/spl-taskq.c:500-504 | a queued task leaves the one list it is on |
| `Taskq.Taskq.CancelQueued` | spl/module/spl/spl-taskq.c:500-526 | a queued task is withdrawn and the lowest id settled |
| `LsdList.ListIterator.Advance` | spl/lib/list.c:575-580 | the two conditional pointer moves of list_next are one step of the cursor |
| `LsdList.List.Link` | spl/lib/list.c:661-667 | the new node is chained in, with tail and count |
| `LsdList.List.UnlinkNode` | spl/lib/list.c:697-702 | the node is taken out of the chain, with tail and count |
| `LsdList.List.RepairAll` | spl/lib/list.c:703-710 | every registered iterator is repaired once |
| `LsdList.List.DeleteStep` | spl/lib/list.c:352-362 | one round: a match goes and the slot stays, otherwise the slot moves on |
| `LsdList.List.LinkIn` | spl/lib/list.c:661-676 | the node is chained in and every registered iterator repaired once |
| `LsdList.List.LinkOut` | spl/lib/list.c:697-711 | the node is chained out and every registered iterator repaired once |
| `LsdList.SweepPos` | spl/lib/list.c:352-362 | after any number of rounds an iterator will return next what it would have returned, among the nodes kept |
| `LsdList.List.SortNodes` | spl/lib/list.c:403-423 | the outer loop ends with the items sorted and the slot at the true end |
| `LsdList.List.ResetAll` | spl/lib/list.c:425-429 | all iterators are back at the head |
| `Tsd.Tsd.BinInsert` | spl/module/spl/spl-tsd.c:194-194 | the entry joins the bin it hashes to |
| `Tsd.Tsd.BinRemove` | spl/module/spl/spl-tsd.c:319-319 | exactly this entry leaves its bin |
| `Tsd.Tsd.WriteEntry` | spl/module/spl/spl-tsd.c:479-480 | the value of an existing entry is replaced |
| `Tsd.Tsd.DropPidEntry` | spl/module/spl/spl-tsd.c:433-442 | an empty thread entry leaves the table |
| `Tsd.Tsd.DropKeyEntry` | spl/module/spl/spl-tsd.c:602-609 | the key entry leaves the table |
| `Tsd.Tsd.DrainKeyStep` | spl/module/spl/spl-tsd.c:586-600 | one round of the loop of destroy: the newest entry moves to the work list |
| `Tsd.Tsd.DrainPidStep` | spl/module/spl/spl-tsd.c:650-663 | one round of the loop of exit |
| `Tsd.Tsd.EmptyBin` | spl/module/spl/spl-tsd.c:380-385 | one bin is emptied onto the work list |
| `ModHash.ModHash.KillChain` | spl/module/spl/spl-modhash.c:990-996 | every key and value of a chain destroyed, in order |
| `ModHash.ModHash.WalkChain` | spl/module/spl/spl-modhash.c:948-952 | one chain shown until the callback asks to stop |
| `XdrMem.XdrMem.Copy` | spl/module/spl/spl-xdr.c:194-202 | bytes appended at the cursor |
| `XdrMem.XdrMem.DecItem` | spl/module/spl/spl-xdr.c:427-432 | one element more, or the array fails |

## Left out

- Slab allocator: the `KMC_SLAB` path, which only forwards to Linux, and the choice of cache type; off-slab object layout; constructors and destructors; aging, which is a flush and a reclaim on a timer; the page allocator, which is a source of fresh slab names that may fail; the red-black tree of emergency objects, which is a set of addresses; the object size that makes `spl_slab_size` divide by zero, which is named by `DividesByZero` and excluded from creation.
- KmemCache.KmemCache.ReapNow: does not model the loop that calls a registered reclaim callback first, which is client code.
- KmemCache.KmemCache.Alloc: nothing runs between its refill and its emergency section; what other threads may do there is in `KmemAlloc`.
- Slab allocator: concurrency is the interleaving of sections that hold the cache lock or run with interrupts disabled; the lock-free fast path of one processor is one step.
- Task queue: timers, jiffies, CPU binding and scheduling are nondeterministic steps; `taskq_member`; wrap-around of 64-bit ids; the wait-queue wake-ups around the checks.
- List: memory recycling in `list_alloc_aux`; `list_destroy`, `list_find_first`, `list_for_each`, `list_count`, `list_peek` and `list_delete`, which are one loop or one call over what is modelled; the mutex.
- Thread-specific data: bin and table locks, since callers must prevent racing set, get, create and destroy; `PID_MAX_LIMIT` is a kernel constant, taken as 4194304.
- Chained hash: `highbit`, the string and pointer hash functions and comparators, callbacks of find, reservation handles other than as an allocation that cannot fail, the global list of tables; `ulong_t` wrap-around of the statistics.
- XDR: memory layout of decoded arrays, targets the caller supplies, `xdr_control`, a null stream buffer, and signedness, which does not change the bytes.
- XdrSize.XdrSizeof: signed overflow of the running size at 2^31 is taken as wrap-around modulo 2^32, as compiled.
- Division: the `__aeabi` register wrappers and `ddi_strto` functions.
- Condition variable: the `cv_mutex` debug field, which the code calls best-effort; `__cv_timedwait_hires`; the time arithmetic of timed waits, whose expiry is a step that may happen at any time.
- The rest of the repository: `spl-vnode.c`, `spl-kobj.c`, `spl-proc.c`, `spl-zlib.c`, `spl-thread.c`, `spl-err.c`, `spl-kstat.c`, `spl-id_space.c` and the ZFS headers, which would add input, output or easy members only.
