# Eleos in Dafny

Eleos lets an SGX enclave keep a large data set outside the enclave without
leaving it for every page or system call.  This project models its four hard
parts, and a hash map that one of its tools depends on, and proves that they do
what they are for.

* **Software virtual memory** (`Suvm*.dfy`, `PageCache.dfy`, `CryptoCache.dfy`,
  `Chains.dfy`).  An `Aptr` is a software pointer into an encrypted backing store.
  A dereference outside the current page is a fault, which may evict another page.
  `SuvmMachine` has the protocol for any number of threads, one atomic step at a
  time, with bucket locks held across steps where the code holds them across
  statements.  `SuvmInvariant`, `SuvmEviction`, `SuvmLoading` and `SuvmAptrs` show
  that each step keeps one invariant; `SuvmSafety`, `SuvmPointers` and `SuvmSlack`
  draw the conclusions for all runs.  `Suvm` has the code of one thread as a class over
  arrays and caches, each method of which is proved to be a run of that machine, and
  `SuvmCopy` the copy, set and compare loops against a flat byte memory (`SuvmFlat`).
* **The buddy allocator memsys5** (`Pow2.dfy`, `BuddyHeap.dfy`, `FreeLists.dfy`,
  `Mem5Pool.dfy`, `Mem5.dfy`).  `BuddyHeap` is the theory of a partition into aligned power-of-two
  blocks, `FreeLists` that of the doubly linked lists, and `Mem5.Allocator` is the
  code, with its control bytes, list heads, and links inside the pool.  `Mem5Pool` is
  about the machine arithmetic that sizes the pool.
* **Exit-less calls** (`Rpc*.dfy`): many callers, one worker and a bounded ring with
  32-bit counters; `RpcCode` ties the ring to the queue of the machine.
* **The edge-routine generator** (`Edger*.dfy`): the trusted proxy and the untrusted
  bridge that it emits, each as a small language with an interpreter, and the
  resolution of imports.
* **The data set's hash map** (`Dataset*.dfy`): open addressing that grows in place.

## What is assumed

Page sizes, capacities, the thread set and the cipher are parameters.  Of the
cipher only this is assumed: a text that was encrypted under a nonce decrypts,
with its tag, to itself.  The machine asks of the users of an `Aptr` what the code
relies on: writes go through an `Aptr` with `hint_write`; an `Aptr` that is not
linked is not moved to an offset inside a page; the source of a copy has no offset
in the page below zero; at most 255 `Aptr`s are on one page.  The cache has room
for the slack and one frame for each thread.

## Where code and comments differ

* A comment says that an import is taken off the stack of files after it has been
  read (`Edger/CodeGen.ml:1376-1380`); the code does so only for a file without
  imports.  So a second import of a file that has imports is refused as circular.
  When all files are imported whole, `EdgerResolve.WholeResolves` says exactly which
  files resolve; `EdgerImport.Diamond` is an example.
* The trusted proxy frees the null pointer when it gets no memory
  (`Edger/CodeGen.ml:1231-1235`), which `memsys5Free` does not admit
  (`mem.cpp:400`), so its error return is never reached (`EdgerCall.FreesAreValid`).
* The trusted proxy of a function without parameters or result that propagates
  errno allocates a block for it and never frees it (`EdgerCall.ProxyMeaning`).
* The configured pool of 2 GiB is a negative `int` in `memsys5Init`
  (`mem.cpp:513-531`).  It is sized rightly all the same, because an atom of 16 bytes
  and its control byte divide 2^32 - 1 (`Mem5Pool.ConfiguredPool`).
* The slack is ten threads (`Aptr.cpp:22`); eleven threads are safe and
  twelve are not (`SuvmSlack.SlackIsExact`).

## Model

| member | source | states |
|---|---|---|
| SuvmSafety.NoAssertionFails | eleos_core/trustedlib_lib_services/static_trusted/Aptr.cpp:121-284 | from initialisation, in every interleaving of at most slack + 1 threads, no assertion fails: the pop of a free frame never meets an empty list, the FIFO is never full or empty when it must not be, no cached item is missing, and every stored page decrypts |
| SuvmSlack.SlackIsExact | eleos_core/trustedlib_lib_services/static_trusted/Aptr.cpp:213-232 | the number of threads is exact: all runs are free of failed assertions if and only if there are at most slack + 1 threads, because the test of the cache's size and the pop are separate steps |
| SuvmSafety.ReadsLastWrite | eleos_core/trustedlib_lib_services/static_trusted/Aptr.h:220-268 | after any run, a dereferenced Aptr yields the byte last written at its logical address through whichever Aptr, across any evictions and faults by any threads |
| SuvmSafety.OneFramePerPage | eleos_core/trustedlib_lib_services/static_trusted/Aptr.cpp:198-284 | two linked Aptrs have the same frame if and only if they are on the same page, so racing faults all end at one frame |
| SuvmSafety.NeverHalfEvicted | eleos_core/trustedlib_lib_services/static_trusted/PageCache.h:155-198 | a page that a thread has counted, or that an Aptr is linked to, is not at any stage of an eviction |
| SuvmSafety.PointerStaysValid | eleos_core/trustedlib_lib_services/static_trusted/Aptr.cpp:485-502 | whatever runs until its Aptr is faulted again or destroyed, a dereferenced pointer leads to the frame that caches its page, with the same text if nobody writes there |
| SuvmSafety.FramesConserved | eleos_core/trustedlib_lib_services/static_trusted/Aptr.cpp:213-282 | in every reachable state free frames, counted pages and frames held by threads add up to the capacity, and no frame is listed as free twice, caches two pages, or is both free and cached |
| SuvmSafety.AtRest | eleos_core/trustedlib_lib_services/static_trusted/PageCache.h:200-353 | with no fault in progress the FIFO has each cached page once and nothing else, the size is the number of cached pages, no bucket is locked, and each page's count is the number of Aptrs linked to it |
| SuvmSafety.HolderCanMove | eleos_core/trustedlib_lib_services/static_trusted/PageCache.h:155-198 | the holder of a bucket lock can always take its next step, so no thread waits in a circle |
| SuvmSafety.ShiftKeepsAddress | eleos_core/trustedlib_lib_services/static_trusted/Aptr.cpp:160-185 | the arithmetic shift and mask at a fault keep the logical address, negative offsets included, and leave the offset inside a page |
| SuvmSafety.CopyKeepsAddress | eleos_core/trustedlib_lib_services/static_trusted/Aptr.h:220-231 | a copied Aptr has its source's address |
| SuvmSafety.ConstructAddress | eleos_core/trustedlib_lib_services/static_trusted/Aptr.h:94-111 | a new Aptr has the address that it was made for |
| SuvmPointers.PointersFollow | eleos_core/trustedlib_lib_services/static_trusted/Aptr.h:94-231 | after any run each Aptr has exactly the address and the hint that its constructions, copies, moves and hints have given it, linked or not: faults and evictions by any threads change nothing of what it points to |
| SuvmAptrs.StepKeeps | eleos_core/trustedlib_lib_services/static_trusted/Aptr.cpp:121-284 | every step that any thread can take keeps the invariant: locks, places of frames and queue entries, counts, pins, clean free frames, and agreement of frames, store and metadata with the flat memory |
| SuvmEviction.ClearDirtyKeeps | eleos_core/trustedlib_lib_services/static_trusted/Aptr.cpp:121-135 | clearing the dirty bit before the page is sealed loses nothing, because the evictor is the only one that can reach the page |
| SuvmEviction.SealKeeps | eleos_core/trustedlib_lib_services/static_trusted/Aptr.cpp:134-148 | once encrypted, store and metadata hold the text that the flat memory has for the page |
| SuvmEviction.UnlinkKeeps | eleos_core/trustedlib_lib_services/static_trusted/Aptr.cpp:151-154 | a page leaves the cache only when its last text is in the store and no Aptr is linked to it |
| SuvmLoading.LoadKeeps | eleos_core/trustedlib_lib_services/static_trusted/Aptr.cpp:234-258 | a frame filled from the store holds the page's bytes of the flat memory, whatever other threads do meanwhile |
| SuvmLoading.AddMissKeeps | eleos_core/trustedlib_lib_services/static_trusted/Aptr.cpp:259-283 | the frame that is added for a page nobody else has added becomes the page's only frame |
| Suvm.InitializeAptr | eleos_core/trustedlib_lib_services/static_trusted/Aptr.cpp:64-119 | builds a memory from which every operation can start and which represents the initial state: all frames free and clean, nothing cached |
| Suvm.Memory.PageFault | eleos_core/trustedlib_lib_services/static_trusted/Aptr.cpp:160-284 | the sequential code is a run of the machine after which the Aptr is linked, inside its page, at the address it had, with the flat memory and the other Aptrs as they were |
| Suvm.Memory.EvictPage | eleos_core/trustedlib_lib_services/static_trusted/PageCache.h:174-198 | with some unpinned page in the cache, choice and eviction end, are a run of the machine, and leave a frame to pop |
| Suvm.Memory.TryEvictPage | eleos_core/trustedlib_lib_services/static_trusted/Aptr.cpp:121-157 | clears the bit, encrypts, removes and frees exactly as the machine's eviction of that page |
| Suvm.Memory.MajorFault | eleos_core/trustedlib_lib_services/static_trusted/Aptr.cpp:213-283 | a page that is not cached gets a frame, after an eviction when the size asks for one, and the Aptr is linked to it |
| Suvm.Memory.Deref | eleos_core/trustedlib_lib_services/static_trusted/Aptr.h:239-268 | gives the address of the Aptr's byte in the frame that caches its page, without the dirty bit; the frame is dirty when the Aptr is for writing, and nothing changes at all when it is not and is in its page |
| Suvm.Memory.Construct | eleos_core/trustedlib_lib_services/static_trusted/Aptr.h:94-111 | a fresh object at the address asked for, in the machine's terms |
| Suvm.Memory.Copy | eleos_core/trustedlib_lib_services/static_trusted/Aptr.h:220-231 | a fresh unlinked object at the source's address, for writing exactly when the source is |
| Suvm.Memory.Move | eleos_core/trustedlib_lib_services/static_trusted/Aptr.h:132-137 | the address moves by the distance, whether the Aptr is linked or not, and this is the machine's step |
| Suvm.Memory.SetHint | eleos_core/trustedlib_lib_services/static_trusted/Aptr.cpp:376-376 | the Aptr is for writing from then on or not, at the address it had |
| Suvm.Memory.Reset | eleos_core/trustedlib_lib_services/static_trusted/Aptr.h:196-218 | the Aptr and its count of its page are gone, nothing else |
| Suvm.Memory.LoadBytes | eleos_core/trustedlib_lib_services/static_trusted/Aptr.cpp:349-366 | bytes read through a dereferenced pointer are those of the flat memory at the Aptr's logical address |
| Suvm.Memory.StoreBytes | eleos_core/trustedlib_lib_services/static_trusted/Aptr.cpp:380-397 | bytes written through a pointer for writing change the flat memory at the Aptr's logical address and nowhere else |
| SuvmCopy.MemmoveRegAptr | eleos_core/trustedlib_lib_services/static_trusted/Aptr.cpp:341-371 | ends for every start offset and length, gives the flat memory's bytes of the whole range, and leaves the caller's Aptr at the start of the last chunk |
| SuvmCopy.LastChunkIs | eleos_core/trustedlib_lib_services/static_trusted/Aptr.cpp:352-368 | the last chunk starts in the block, at its start or at a page's, and has the block's last byte on its page |
| SuvmCopy.MemmoveAptrReg | eleos_core/trustedlib_lib_services/static_trusted/Aptr.cpp:373-402 | writes exactly the source bytes at the Aptr's address, across any number of pages; the caller's Aptr stays |
| SuvmCopy.MemsetAptr | eleos_core/trustedlib_lib_services/static_trusted/Aptr.cpp:439-454 | n copies of the low byte are written from the address on, and nothing else |
| SuvmCopy.FilledMemory | eleos_core/trustedlib_lib_services/static_trusted/Aptr.cpp:444-450 | afterwards every address of the range holds the value, and every other one what it held |
| SuvmCopy.CharIs | eleos_core/trustedlib_lib_services/static_trusted/Aptr.cpp:447-447 | the value is a byte, the argument itself where that is one, and the same for arguments that differ by a multiple of 256 |
| SuvmCopy.MemcpyAptr | eleos_core/trustedlib_lib_services/static_trusted/Aptr.cpp:485-502 | what is written is a byte-by-byte forward copy; both pointers stay valid while the other one faults |
| SuvmCopy.ForwardIsCopy | eleos_core/trustedlib_lib_services/static_trusted/Aptr.cpp:494-500 | unless the destination starts inside the source, a forward copy is the source's old content |
| SuvmCopy.ForwardRepeats | eleos_core/trustedlib_lib_services/static_trusted/Aptr.cpp:494-500 | when it does, the bytes before the destination are repeated: each byte is the source's old one at its offset modulo the distance |
| SuvmCopy.MemcmpAptrAptr | eleos_core/trustedlib_lib_services/static_trusted/Aptr.cpp:404-419 | on written ranges the result is the difference of the first bytes that differ in the flat memory |
| SuvmCopy.CompareZero | eleos_core/trustedlib_lib_services/static_trusted/Aptr.cpp:404-419 | that result is zero if and only if the ranges are equal |
| SuvmCopy.CompareFirst | eleos_core/trustedlib_lib_services/static_trusted/Aptr.cpp:410-416 | when it is not zero, it is the first range's byte minus the second's at the first place where they differ |
| SuvmCopy.MemcmpRegAptr | eleos_core/trustedlib_lib_services/static_trusted/Aptr.cpp:421-436 | the same between a buffer and a range of the flat memory |
| SuvmCopy.CompareRegZero | eleos_core/trustedlib_lib_services/static_trusted/Aptr.cpp:421-436 | zero if and only if the buffer equals the range |
| SuvmCopy.CompareRegFirst | eleos_core/trustedlib_lib_services/static_trusted/Aptr.cpp:427-433 | when it is not zero, it is the buffer's byte minus the range's at the first place where they differ |
| PageCacheModel.UsedPagesQueue.Enqueue | eleos_core/trustedlib_lib_services/static_trusted/PageCache.h:57-74 | fails if and only if as many pages are queued as the ring has places, and otherwise appends |
| PageCacheModel.UsedPagesQueue.Dequeue | eleos_core/trustedlib_lib_services/static_trusted/PageCache.h:76-93 | fails if and only if nothing is queued, and otherwise takes the oldest |
| PageCacheModel.PageCache.PageIndexToEvict | eleos_core/trustedlib_lib_services/static_trusted/PageCache.h:174-198 | ends when some queued page is unpinned, returns the first such page with its frame, and puts the pinned ones before it at the end in their order |
| PageCacheModel.PageCache.Get | eleos_core/trustedlib_lib_services/static_trusted/PageCache.h:200-225 | map lookup |
| PageCacheModel.PageCache.TryAdd | eleos_core/trustedlib_lib_services/static_trusted/PageCache.h:229-291 | adds the page to map, FIFO and size, or says that it was there and changes nothing |
| PageCacheModel.PageCache.Remove | eleos_core/trustedlib_lib_services/static_trusted/PageCache.h:311-353 | map removal that leaves the FIFO and the counts alone; fails if and only if the page is absent |
| Chains.ChainFinds | eleos_core/trustedlib_lib_services/static_trusted/PageCache.h:200-216 | a walk along one bucket's chain decides membership in the whole table, for any number of buckets |
| Chains.ChainsRemove | eleos_core/trustedlib_lib_services/static_trusted/PageCache.h:317-348 | unlinking an item anywhere in its chain removes its key and no other |
| CryptoCacheModel.CryptoCache.Get | eleos_core/trustedlib_lib_services/static_trusted/CryptoCache.h:76-95 | the one item of a page, or null |
| CryptoCacheModel.CryptoCache.Add | eleos_core/trustedlib_lib_services/static_trusted/CryptoCache.h:97-153 | the page's item, with its nonce and tag, when there is one, and a fresh one otherwise; other items are untouched |
| BuddyHeap.BuddyIsHead | eleos_core/trustedlib_lib_services/static_trusted/mem.cpp:342-352 | an in-range buddy of a block head is itself a head of no larger size, so the byte read by the merge loop is never stale |
| BuddyHeap.FreeRunInOneBlock | eleos_core/trustedlib_lib_services/static_trusted/mem.cpp:262-286 | a wholly free aligned run lies in one free block at least as large, so the upward search of the free lists misses nothing |
| BuddyHeap.CanonicalHeapUnique | eleos_core/trustedlib_lib_services/static_trusted/mem.cpp:342-372 | two maximally coalesced partitions with the same outstanding allocations are equal, whatever calls led to them |
| BuddyHeap.AllFreedIsInitial | eleos_core/trustedlib_lib_services/static_trusted/mem.cpp:539-548 | with nothing outstanding the blocks are the greedy binary decomposition of the pool |
| BuddyHeap.MergeKeeps | eleos_core/trustedlib_lib_services/static_trusted/mem.cpp:353-363 | fusing a held block with its free buddy keeps the partition and its canonicity and frees nothing else |
| BuddyHeap.SplitKeeps | eleos_core/trustedlib_lib_services/static_trusted/mem.cpp:278-285 | halving a held block keeps the partition and its canonicity |
| FreeLists.LinkKeeps | eleos_core/trustedlib_lib_services/static_trusted/mem.cpp:188-204 | linking at the head keeps all lists acyclic, doubly linked and disjoint |
| FreeLists.UnlinkKeeps | eleos_core/trustedlib_lib_services/static_trusted/mem.cpp:166-182 | unlinking at any position removes that element from its list and keeps all lists |
| Mem5.Allocator.constructor | eleos_core/trustedlib_lib_services/static_trusted/mem.cpp:496-557 | for every pool that its atoms fit in, as computed: the invariant holds, the atom is the least power of two that holds two links and a request, a pool below 4 GiB has as many atoms as fit with one control byte each, and all of them are free |
| Mem5Pool.CountExact | eleos_core/trustedlib_lib_services/static_trusted/mem.cpp:513-531 | below 4 GiB the computed count is the true one if and only if the pool is smaller than 2 GiB or an atom and its control byte divide 2^32 - 1 |
| Mem5Pool.FitsIff | eleos_core/trustedlib_lib_services/static_trusted/mem.cpp:513-533 | up to 2 GiB the computed atoms lie in the pool under the same condition, and otherwise overrun it |
| Mem5Pool.ConfiguredPool | eleos_core/trustedlib_lib_services/untrusted/init_services.cpp:83-83 | the configured 2 GiB are used to the last atom of 16 bytes, and would be overrun with atoms of 8 |
| Mem5.Allocator.MallocUnsafe | eleos_core/trustedlib_lib_services/static_trusted/mem.cpp:241-307 | gives none if and only if the request is over 1 GiB or no aligned run of the rounded size is wholly free; otherwise exactly one fresh block of that size is added, at the start of the free block that heads the first non-empty list, and no smaller free block would do; no word of another block changes |
| Mem5.Allocator.FindBin | eleos_core/trustedlib_lib_services/static_trusted/mem.cpp:265-276 | the first non-empty list at or above the size, all before it being empty; when there is none, no run of that size is free anywhere |
| Mem5.Allocator.BuddyByte | eleos_core/trustedlib_lib_services/static_trusted/mem.cpp:344-352 | the buddy's control byte equals the free byte of the size if and only if the buddy is a free block of that size |
| Mem5.Allocator.FreeUnsafe | eleos_core/trustedlib_lib_services/static_trusted/mem.cpp:312-373 | keeps the invariant, removes exactly the freed block from the outstanding allocations, puts the block that it becomes part of at the head of its list, and changes no word of any other checked-out block |
| Mem5.Allocator.Malloc | eleos_core/trustedlib_lib_services/static_trusted/mem.cpp:378-386 | the same as MallocUnsafe, and none for requests that are not positive |
| Mem5.Allocator.Size | eleos_core/trustedlib_lib_services/static_trusted/mem.cpp:222-229 | the bytes of the outstanding block at the pointer |
| Mem5.Allocator.GrantedSize | eleos_core/trustedlib_lib_services/static_trusted/mem.cpp:222-307 | a block granted for n bytes has the size that n is rounded to |
| Mem5.Allocator.Realloc | eleos_core/trustedlib_lib_services/static_trusted/mem.cpp:436-455 | a block that is large enough is returned with every word as it was; a larger one starts with all the old contents and replaces the old one; none if and only if there is no room, with the old block and its contents intact |
| Mem5.Allocator.Roundup | eleos_core/trustedlib_lib_services/static_trusted/mem.cpp:466-471 | the size that an allocation of n bytes gets, which is the least power of two that holds n and an atom, and 0 over 1 GiB |
| Mem5.Log | eleos_core/trustedlib_lib_services/static_trusted/mem.cpp:483-487 | the ceiling of the binary logarithm, at most 31 |
| Mem5.Allocator.WholePages | eleos_core/trustedlib_lib_services/static_trusted/mem.cpp:262-306 | a block of at least one page covers whole pages, so writing such a page back touches no other block, no link, and nothing behind the last atom, where the control bytes are |
| Mem5.Allocator.FreedHeapIsInitial | eleos_core/trustedlib_lib_services/static_trusted/mem.cpp:539-548 | an allocator in any reachable state with nothing outstanding has the blocks that initialisation built |
| RpcSafety.NeverAborts | eleos_core/trustedlib_lib_services/common/Queue.cpp:24-40 | with no more callers than the ring has places, in every interleaving the ring is never found full and no freed request is touched |
| RpcSafety.NeverAbortsIff | eleos_core/trustedlib_lib_services/common/Queue.cpp:28-33 | and this bound is exact: one caller more has a run that aborts |
| RpcSafety.ExactlyOnceInOrder | eleos_core/trustedlib_lib_services/untrusted/rpc_worker.cpp:32-79 | what has been executed is a prefix of what was enqueued, no call twice, and every call that returned success was executed |
| RpcOrigins.OwnArguments | eleos_core/trustedlib_lib_services/static_trusted/rpc_ocall.cpp:22-42 | in terms of the callers' steps alone: the worker executes the calls in the order in which the callers enqueued them, each with the index and buffer that its caller gave, and a caller returns only after its own call was executed |
| RpcSafety.NoEarlyFree | eleos_core/trustedlib_lib_services/static_trusted/rpc_ocall.cpp:22-42 | a request about to be freed is neither queued nor with the worker, and all that are stay allocated |
| RpcSafety.NobodyWaitsForNothing | eleos_core/trustedlib_lib_services/static_trusted/rpc_ocall.cpp:35-37 | while a caller spins, it can stop or the worker can move |
| RpcQueue.IndexExact | eleos_core/trustedlib_lib_services/common/Queue.cpp:35-36 | with 32-bit counters that wrap, the computed index is in the ring if and only if the counter is in its non-negative half or at a multiple of the size, and then it is the right one |
| RpcQueue.FirstBadEntry | eleos_core/trustedlib_lib_services/common/Queue.cpp:35-36 | the first entry with a negative index is number 2^31 + 1 |
| RpcQueue.Queue.Enqueue | eleos_core/trustedlib_lib_services/common/Queue.cpp:24-40 | with counters that wrap: the abort if and only if 1024 requests are queued, a write outside the array if and only if otherwise the index is bad, and else the request is appended |
| RpcQueue.Queue.Dequeue | eleos_core/trustedlib_lib_services/common/Queue.cpp:42-58 | the oldest request, or NULL if and only if there is none |
| RpcCode.Shared.PutRequest | eleos_core/trustedlib_lib_services/static_trusted/rpc_ocall.cpp:35-36 | a caller's enqueue is the machine's step and never aborts with at most 1024 callers, as long as the counter's index is in the ring |
| RpcCode.Shared.TakeRequest | eleos_core/trustedlib_lib_services/untrusted/rpc_worker.cpp:66-75 | the worker's dequeue is the machine's step, and finds nothing only when nothing is queued |
| EdgerCall.ProxyMeaning | Edger/CodeGen.ml:1246-1289 | for every parameter list, a call through proxy and bridge calls the function once, with every field and buffer as declared; afterwards the [out] and [in, out] buffers hold what it left (a later parameter wins where they overlap), the caller's variable holds its result, nothing else in the enclave has changed, errno is passed on, and the block is freed once, except by a naked function with errno; without memory for the request the function is not called and the buffers get back what was marshalled for them |
| EdgerBridge.BridgeMeaning | Edger/CodeGen.ml:685-708 | given a structure exactly when it expects one, the emitted bridge calls the function once with its fields, stores result and errno where they are declared, and leaves the fields alone |
| EdgerProxy.CallIsReached | Edger/CodeGen.ml:1151-1188 | at the call [in] and [in, out] buffers hold the enclave's bytes, [out] buffers zeros, null pointers are null, other fields are the arguments, and nothing outside the block has changed |
| EdgerProxy.BuffersApart | Edger/CodeGen.ml:1210-1243 | the marshalled buffers are pairwise disjoint and lie inside the one block, behind the structure |
| EdgerCall.WholeBack | Edger/CodeGen.ml:1255-1268 | buffers that do not overlap are copied back whole |
| EdgerCall.NakedMeaning | Edger/CodeGen.ml:1275-1280 | a function without parameters, result and errno is called without a structure |
| EdgerCall.NullIsFreed | Edger/CodeGen.ml:1231-1235 | without memory the run ends at the free of the null pointer, with the function not called and the enclave as it was |
| EdgerCall.FreesAreValid | Edger/CodeGen.ml:1230-1289 | no run of any proxy frees a pointer that is not checked out, a second time included, if and only if malloc gives a block or the function is naked without errno |
| EdgerCall.BadPointer | Edger/CodeGen.ml:1170-1187 | when some checked pointer reaches out of the enclave the function is not called, the enclave is unchanged, and the block is freed once |
| EdgerProxy.ElementInside | Edger/CodeGen.ml:169-185 | every element of an array of any dimensions, in row-major order, lies wholly in the bytes that are marshalled for it |
| EdgerProxy.ElementBytes | Edger/CodeGen.ml:786-830 | a pointer with a count is marshalled as exactly that many elements, each of the given size or else that of its type, and one without a count as one |
| EdgerProxy.StringBytes | Edger/CodeGen.ml:819-820 | a string is marshalled up to and with its first zero byte |
| EdgerImport.ImportFuncs | Edger/CodeGen.ml:1482-1539 | resolution ends on every finite set of files, cyclic or not, because each file with imports that is read leaves the unread ones for good |
| EdgerImport.NamedExactly | Edger/CodeGen.ml:1498-1537 | when functions are imported by name and resolution succeeds, the result has exactly the functions asked for |
| EdgerContent.ImportItems | Edger/CodeGen.ml:1482-1539 | whatever is imported, by name or whole, the result has exactly the trusted functions, untrusted functions, components and headers that are asked for at the end of some path of import expressions, each as what it is declared there |
| EdgerContent.NothingLeft | Edger/CodeGen.ml:1483-1489 | the result has no imports left, and begins with what a file imported whole has itself, in its order |
| EdgerContent.NotFoundMeans | Edger/CodeGen.ml:1531-1534 | a function is reported as not found only if it is imported by name and a file it was wanted from has neither a declaration of it nor imports |
| EdgerContent.FirstMissing | Edger/CodeGen.ml:1511-1534 | from a file without imports the first function that is not there is the one reported |
| EdgerResolve.WholeExactly | Edger/CodeGen.ml:1521-1527 | a file imported whole gives exactly its own functions, those that import expressions name, and those of the files reached by whole imports |
| EdgerResolve.WholeResolves | Edger/CodeGen.ml:1491-1527 | when all files are imported whole, resolution succeeds if and only if every file that is reached exists, is not the one it started from, and, if it has imports of its own, is named by a single import expression |
| EdgerResolve.FailureExplained | Edger/CodeGen.ml:1381-1385 | whatever is imported by name, a file is called circular only if it is the one resolution started from, or has imports and is named by two expressions; and called missing only if it is reached and missing |
| EdgerImport.Diamond | Edger/CodeGen.ml:1491-1497 | an example: two files import a third one whole, which is refused as circular when it has an import itself and accepted when it has none |
| EdgerImport.Resolver.Resolve | Edger/CodeGen.ml:1521-1537 | the code over the mutable stack gives the specified result, stack and first error |
| EdgerImport.SimpleStack.Pop | Edger/SimpleStack.ml:36-39 | first out, or the exception when there is nothing |
| DatasetMap.HashMap.Get | face_verification_server/workload_generator/generate_encrypted_dataset.c:205-220 | ends and gives the value that the finite map has for the key, or nothing |
| DatasetMap.HashMap.Put | face_verification_server/workload_generator/generate_encrypted_dataset.c:222-251 | updates the finite map at the key, or leaves it when the key is there and is not to be overridden |
| DatasetMap.HashMap.Rehash | face_verification_server/workload_generator/generate_encrypted_dataset.c:180-203 | keeps every lookup, and doubles the buckets if and only if the map is at least half full |
| DatasetTable.NotThere | face_verification_server/workload_generator/generate_encrypted_dataset.c:209-219 | a probe that meets an empty slot or has gone round proves that the key is in no slot |
| DatasetTable.PutKeeps | face_verification_server/workload_generator/generate_encrypted_dataset.c:239-247 | writing where a probe stops keeps every other key reachable and the table a map |
| DatasetTable.HashAppends | face_verification_server/workload_generator/generate_encrypted_dataset.c:147-156 | each further character multiplies the hash by 33 and is added, modulo 2^64 |
| DatasetTable.LoadTestsAgree | face_verification_server/workload_generator/generate_encrypted_dataset.c:181-181 | the two different load tests decide alike for every number of entries if and only if the number of buckets is even |

## Left out

- SuvmSafety.ReadsLastWrite: speaks of bytes that were written; the code promises nothing of others.
- SuvmSafety.HolderCanMove: progress of a lock's holder, not fairness of the scheduler or of the spin locks.
- SuvmSlack.SlackIsExact: for a store with more pages than the cache has frames, as it is configured.
- Suvm.InitializeAptr: does not set up the allocator, which is modelled apart from the pager.
- Suvm.Memory.MajorFault: one thread, as PageFault.
- Suvm.Memory.PageFault: one thread, so the branch in which another thread has added the page meanwhile is only in the machine (`SuvmInvariant.AddHitKeeps`, `GiveBackKeeps`).
- SuvmCopy.MemmoveRegAptr: lengths are not narrowed to the C `int` that counts them, so copies of 2^31 bytes and more are not modelled.
- SuvmCopy.MemcmpAptrAptr: nothing is promised of ranges with bytes that were never written.
- PageCacheModel.UsedPagesQueue.Enqueue: the 64-bit counters of the ring do not wrap.
- PageCacheModel.PageCache.TryAdd: bucket chains are sequences; `next` pointers, and lock words in these sequential classes, are not modelled (the locks are in the machine).
- CryptoCacheModel.CryptoCache.Get: the lookup of the metadata and the decryption with it are one step of the machine.
- RpcQueue.Queue.Enqueue: C leaves the increment at 2^31 - 1 undefined; the counters here wrap.  What a write outside the array does is not modelled.
- Mem5.Allocator.constructor: asks that the computed atoms lie in the pool, as `Mem5Pool.FitsIff` says exactly for pools up to 2 GiB; what an overrun does is not modelled.  A NULL pool, the error return for it and the allocator's lock are left out; the pool is words, four bytes each, not bytes.
- Mem5.Allocator.FreeUnsafe: the fills and statistics of debug builds are left out.
- EdgerCall.ProxyMeaning: for a block that lies outside the enclave and a function that writes nothing inside it nor changes the marshalling structure; sizes are not cut to `size_t`.
- EdgerCall.FreesAreValid: says that the free of the null pointer happens, not what follows when the assertion in it is compiled out.
- EdgerResolve.FailureExplained: when files are imported by name, the reasons of a failure, but not a condition for success.
- EdgerImport.ImportFuncs: files are given parsed; lexing, grammar, file names and the checks for duplicates and unknown functions are left out.
- DatasetMap.HashMap.Put: keys are strings of fewer than 40 bytes, as the entry demands; `int` and `long` do not overflow.
- Frames and store are sequences of bytes for each frame and page; slab alignment and pointer casts are left out.
- `APTR_RANDOM_ACCESS` (sub-pages, `aptr_fsync`, `try_remove`) is compiled out.
- `strncmp_aptr`, and the comparison operators and `is_not_null` of `Aptr`: precedence and signedness quirks, of no use to the pager.
- Freeing and reusing pool blocks under cached pages: the clean-up for it is commented out in the code.
- Robson's bound on fragmentation, which this version's choice of a block does not settle.
- The worker's shutdown and its special request -1: they touch no request of a caller.
- The trusted bridge and the untrusted proxy, pointer arrays, `sizefunc` and wide strings in the generator: variations on the statements that are modelled.
- Real cryptography, random nonces, enclave entry and exit, sockets, files and the other servers: outside the logic modelled here.
- `win/SUVM`: copies of the same code.
