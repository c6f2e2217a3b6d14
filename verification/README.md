# WeensyOS memory management: a verified model

WeensyOS is a small teaching operating system for x86-64. This project models
the parts of it that manage memory, in Dafny, and proves what they promise.

**The heap allocator** (`uspace/malloc.c`). Two intrusive doubly linked lists live
inside the memory they describe: free blocks ascending by address, allocations
descending by requested bytes. `Allocator` is the imperative form, a class with the
six global variables, the break and a byte memory; every header field is eight little-endian
bytes of it. `HeapSpec` says what each call does to an abstract pair of lists;
every method of the class is proved to do exactly that, and to leave every byte of every live
payload alone. `HeapLaws` says what each call owes without those functions, and every method ensures it.
About the abstract state it is then proved that the blocks of both lists
always tile the heap (`HeapInvariant`), that malloc is first fit (`HeapFacts`), that defrag
computes the one canonical free list (`Canonical`), and, over whole histories, that a live byte
holds what the program last wrote there and that nothing leaks (`HeapRuns`, `AllocatorRuns`).

**Page tables** (`kernel/vm.c`, `shared/x86-64.h`). `PageTables` has the index arithmetic, the
four-level walk and the tree shape of the tables; `VirtualMemory` has the map and lookup loops, proved to
refine a map from virtual page to entry.

**The kernel's accounting** (`kernel/kernel.c`, `kernel/k-loader.c`). `Kernel` holds the page ownership array,
the process table and physical memory, with palloc, sbrk, brk, the page-fault case, exit, the mapping call, the
trap handler, runs of traps and stores, and the kernel's own checks; `KernelSpec` says what each step does.
`KernelState` is the invariant: each owned frame is referenced once and has one use. `Isolation` says what other
processes read is untouched, and `KernelRuns` carries that, the kernel's own frames, its checks and fairness,
over whole runs; `KernelLaws` says in numbers, pages and frames what each step owes, and `MappingCall` when the
mapping call writes and whom its 24 bytes can reach. `Loader`, `Setup` and `Boot` take processes from nothing to
running. `Scheduler` is the round robin.

**Two smaller cores.** `Quicksort` is the explicit-stack sort of `tests/p-heapinfo.c`, over
any total preorder. `Numerals` and `Printer` are the number and string formatter of `shared/lib.c`;
`PrinterLaws` says what each conversion prints, from the directive as it is written.

`Words` holds 64-bit words in byte memory, `Blocks` the heap's block lists and their tiling,
`HeapMemory` the lists as they lie in memory, `HeapCounts` the totals heap_info reports.

Where the code and its own documentation part ways, the model follows the code, and a lemma says exactly when
they agree: `HeapFacts.SoundExactly` (huge requests), `HeapRuns.OverreadExactly` (realloc's copy),
`VirtualMemory.RightsAgree` (access rights), `Kernel.ShrinkKeepsBelow` and `Kernel.ShrinkReachesStack` (what a
shrink drops), `Loader.ImageInPlace` (where an image lands), `Boot.ProcessSetup` (a stack when no frame is left),
`MappingCall.LandsWhereAsked` and `MappingCall.HarmlessExactly` (where the mapping call writes),
`Quicksort.ComparatorExact` (how far apart sizes may be).

## Model

| member | source | states |
|---|---|---|
| HeapSpec.RequestArithmetic | uspace/malloc.c:187-193 | malloc's 64-bit size computations are exact if and only if the request is at most MAX_REQUEST: the block then holds header and request, with less than 8 bytes of slack, and the chunk is a positive intptr_t |
| HeapSpec.LargeSizes | uspace/malloc.c:187-193 | past that limit: what the wrapped or oversized block and chunk sizes come to, for every 64-bit request |
| HeapSpec.CallocTestExact | uspace/malloc.c:217-224 | the division test rejects exactly the products that do not fit 64 bits |
| Blocks.UnlinkFree | uspace/malloc.c:125-142 | unlinking a free block keeps tiling and list orders, with that block now in neither list |
| Blocks.UnlinkAlloc | uspace/malloc.c:143-158 | the same for an allocated block |
| Blocks.LinkFree | uspace/malloc.c:48-85 | inserting a loose block in address order keeps tiling and strict address order |
| Blocks.LinkAlloc | uspace/malloc.c:86-122 | inserting an allocation in request order keeps tiling and the non-increasing order |
| Blocks.Retile | uspace/malloc.c:200-208 | replacing some blocks by others that fill the same bytes keeps the tiling |
| Blocks.Extend | uspace/malloc.c:191-199 | a chunk from sbrk tiles the grown heap together with what was there |
| HeapInvariant.CarveInv | uspace/malloc.c:200-210 | turning a fitting free block into an allocation, whole or split, keeps the invariant |
| HeapInvariant.GrowFits | uspace/malloc.c:191-199 | after a growth only the new chunk fits, and the second search finds it |
| HeapInvariant.MallocInv | uspace/malloc.c:183-214 | malloc of every sound request keeps the invariant: blocks disjoint, tiling [base, break), sizes multiples of 8 and at least 32, requests within their blocks, both list orders |
| HeapInvariant.LargeRefused | uspace/malloc.c:183-199 | a sound request past the limit is refused: no block fits, sbrk fails, nothing changes |
| HeapInvariant.FreeInv | uspace/malloc.c:173-181 | free keeps the invariant |
| HeapInvariant.CoalesceInv | uspace/malloc.c:256-276 | the coalescing pass keeps it from any point of the free list on |
| HeapInvariant.DefragInv | uspace/malloc.c:256-276 | defrag keeps the invariant |
| HeapFacts.MallocAdds | uspace/malloc.c:200-214 | a successful malloc adds one new live allocation of the requested bytes at the returned pointer, well shaped and in list order, and no other |
| HeapFacts.FirstFitLowest | uspace/malloc.c:161-171 | the search stops at the lowest-addressed block that can serve the request, and fails if and only if none can |
| HeapFacts.MallocFirstFit | uspace/malloc.c:183-214 | with a fitting block malloc succeeds in the lowest one without growth; otherwise it grows once and succeeds at the old break, or fails exactly when the heap cannot grow and changes nothing |
| HeapFacts.SoundExactly | uspace/malloc.c:183-199 | for every heap and every 64-bit request, the decision malloc comes to (refuse, take a block, list a chunk) is the one it owes, by unbounded arithmetic, if and only if the request is sound: no size wraps and no negative increment is granted, or there is nothing to hand out and no room to grow |
| HeapFacts.ShortBlock | uspace/malloc.c:183-213 | after one malloc, a request of 2^64 - 1 bytes is answered with a block that is a header and no more |
| HeapFacts.ShrinkingRequest | uspace/malloc.c:190-199 | on every heap of 16384 bytes or more, one request makes sbrk lower the break and malloc list a chunk there |
| HeapFacts.FreeRemoves | uspace/malloc.c:173-181 | free removes exactly the allocation it is given |
| HeapFacts.Findable | uspace/malloc.c:173-178 | every live allocation is the one found through its payload address |
| HeapLaws.BytesConserved | uspace/malloc.c:48-214 | free and allocated bytes, headers included, add up to the heap |
| HeapLaws.CarveObeys | uspace/malloc.c:200-210 | the allocation starts where the free block did and is header and request rounded up to 8 if what is over can hold a header, all of the block otherwise; what is over is free |
| HeapLaws.MallocObeys | uspace/malloc.c:183-214 | malloc's law, without the functions that compute it: the lowest fitting block, or else the chunk above the break if that ends below the stack page, is handed out in that way; otherwise NULL and nothing changes |
| HeapLaws.MallocBytes | uspace/malloc.c:183-214 | so the size of the new block, and the free bytes afterwards: those before, plus the chunk if the heap grew, minus that block |
| HeapLaws.FreeObeys | uspace/malloc.c:173-181 | free's law: exactly that allocation goes, and exactly its block is added to the free ones |
| HeapLaws.CallocObeys | uspace/malloc.c:217-230 | calloc's law: malloc of the product if both numbers are positive and it fits 64 bits, else NULL and no change |
| HeapLaws.CallocReturns | uspace/malloc.c:217-230 | it returns memory if and only if both numbers are positive, the product fits 64 bits and a free block fits it or the heap can grow; then exactly one allocation of the product is added there, otherwise nothing changes |
| HeapLaws.ReallocObeys | uspace/malloc.c:232-254 | realloc's law: malloc for NULL, free for size 0, else malloc and, if that succeeds, free of the old block |
| HeapLaws.ReallocMoves | uspace/malloc.c:232-254 | on success the allocations are those before, minus the old block, plus one of the size at the returned pointer; it fails if and only if no free block fits and the heap cannot grow, and then nothing changes |
| HeapLaws.HeapInfoObeys | uspace/malloc.c:293-309 | heap_info's law: no allocation when nothing is live, else one array of 8 bytes an allocation and then another; it fails if and only if it cannot have both |
| HeapCounts.MaxSizeIsMax | uspace/malloc.c:282-291 | the largest free chunk is an upper bound and attained |
| HeapCounts.FreeTotals | uspace/malloc.c:282-291 | free space and largest chunk are at most the heap, so they fit the int fields |
| HeapCounts.AllocCount | uspace/malloc.c:278-300 | there are at most as many live allocations as addresses, so the count and array sizes cannot overflow |
| Canonical.CoalesceBytes | uspace/malloc.c:256-276 | coalescing neither loses nor adds a free byte |
| Canonical.CoalesceSeparates | uspace/malloc.c:256-276 | after it no two free blocks touch |
| Canonical.RunsUnique | uspace/malloc.c:256-276 | two gap-separated lists holding the same bytes are equal |
| Canonical.DefragMaximal | uspace/malloc.c:256-276 | every block defrag leaves is a maximal run of free bytes |
| Canonical.DefragCanonical | uspace/malloc.c:256-276 | its result depends only on the set of free bytes |
| Canonical.DefragIdempotent | uspace/malloc.c:256-276 | defragmenting twice is defragmenting once |
| Canonical.FreeIsComplement | uspace/malloc.c:48-214 | the free bytes are exactly the heap bytes no allocation holds |
| Canonical.SameAllocsSameRuns | uspace/malloc.c:256-276 | states with the same allocations and bounds defragment alike, whatever their histories |
| Canonical.Reclaims | uspace/malloc.c:173-181 | once everything is freed, defrag leaves one block covering the whole heap |
| Canonical.MallocFreeAllocs | uspace/malloc.c:173-214 | free undoes malloc on the allocated list |
| Canonical.MallocFreeDefrag | uspace/malloc.c:173-276 | from a coalesced heap, malloc without growth, free and defrag restore the state exactly |
| HeapMemory.FieldWrite | uspace/malloc.c:3-8 | writing one of the four header fields changes that field alone |
| HeapMemory.InsertLinked | uspace/malloc.c:48-122 | the pointer writes of an insertion spell out the list with the block inserted |
| HeapMemory.RemoveLinked | uspace/malloc.c:125-159 | the pointer writes of a removal spell out the list without the block |
| HeapMemory.HeadersMissPayload | uspace/malloc.c:48-159 | header writes fall outside every payload |
| HeapMemory.PayloadWrite | uspace/malloc.c:211-213 | a program's write inside one live payload keeps both lists and every other payload |
| HeapRuns.ApplyInv | uspace/malloc.c:173-324 | every call keeps the invariant |
| HeapRuns.RunInv | uspace/malloc.c:173-324 | it holds in every reachable state |
| HeapRuns.StepObeys | uspace/malloc.c:173-324 | every step of a history obeys its call's law |
| HeapRuns.RunRealloc | uspace/malloc.c:232-254 | a step that reallocates a live block leaves exactly the allocations of before, without that block and with one of the new size, or everything as it was |
| HeapRuns.StaysLive | uspace/malloc.c:173-324 | an allocation stays live, unmoved and unresized until it is freed or reallocated |
| HeapRuns.PayloadIsLastWrite | uspace/malloc.c:48-324 | over any history, a byte of a live allocation holds what the program last wrote there |
| HeapRuns.RunReclaims | uspace/malloc.c:256-276 | after any history that freed everything, defrag leaves the whole heap as one block |
| HeapRuns.CopyStaysInHeap | uspace/malloc.c:244-251 | a copy out of a live block stays below the break of the heap it is made in if and only if the block is not that heap's topmost or the request is at most its payload |
| HeapRuns.OverreadExactly | uspace/malloc.c:232-254 | for every heap, live block and sound size, as they are before the call: realloc copies from past the break if and only if the block is topmost, the request exceeds its payload and some free block fits; with none, the heap grows first, past the end of the copy |
| HeapRuns.CopyPastBreak | uspace/malloc.c:244-251 | a heap in which realloc, to a larger size, succeeds and copies from past the break |
| HeapRuns.OverreadReached | uspace/malloc.c:173-214 | that heap is reached from an empty one by two mallocs and a free |
| Allocator.Heap.constructor | uspace/malloc.c:13-18 | the empty heap satisfies the invariant |
| Allocator.Heap.Bypass | uspace/malloc.c:125-159 | a node's neighbours skip it, and no other header changes |
| Allocator.Heap.LinkBetween | uspace/malloc.c:48-122 | a node is hooked between two neighbours, and no other header changes |
| Allocator.Heap.RemoveFree | uspace/malloc.c:125-142 | remove_list on the free list: the list without that block, payloads untouched |
| Allocator.Heap.RemoveAlloc | uspace/malloc.c:143-158 | remove_list on the allocated list |
| Allocator.Heap.ScanFree | uspace/malloc.c:63-84 | the insertion scan of the free list ends at the address-ordered place |
| Allocator.Heap.ScanAlloc | uspace/malloc.c:98-121 | the insertion scan of the allocated list ends after every request of the same size |
| Allocator.Heap.AppendFree | uspace/malloc.c:48-85 | append_list_ordered for a free block: inserted in address order, payloads untouched |
| Allocator.Heap.AppendAlloc | uspace/malloc.c:86-122 | append_list_ordered for an allocation: inserted in request order after equals, payloads untouched |
| Allocator.Heap.SearchFree | uspace/malloc.c:161-171 | the loop finds the first fitting block of the list, NULL if there is none |
| Allocator.Heap.Sbrk | kernel/kernel.c:161-185 | for every 64-bit increment: the old break and the new one, or -1 and no change when the unbounded sum is below the heap base or reaches the stack page |
| Allocator.Heap.Begin | uspace/malloc.c:183-195 | for every 64-bit request, the sizes, the search and the system call come to the decision `SoundExactly` is about |
| Allocator.Heap.Take | uspace/malloc.c:200-213 | the tail of malloc: the found block is carved as `HeapLaws.CarveObeys` says, payloads untouched |
| Allocator.Heap.Malloc | uspace/malloc.c:183-214 | for every sound request malloc obeys its law, changes no live payload, and changes no byte when it fails |
| Allocator.Heap.Free | uspace/malloc.c:173-181 | free obeys its law and changes no other live payload; NULL is a no-op |
| Allocator.Heap.Memset | shared/lib.c:36-41 | fills exactly the given bytes |
| Allocator.Heap.Memcpy | shared/lib.c:12-18 | copies exactly the given bytes when the ranges do not overlap |
| Allocator.Heap.Calloc | uspace/malloc.c:217-230 | for every product that overflows or is sound, calloc obeys its law and the product's worth of bytes reads zero |
| Allocator.Heap.CopyPayload | uspace/malloc.c:243-251 | realloc copies exactly the smaller of the request and the old block's size, header included; the copy stays inside the new block and off every other payload, and its two ranges do not overlap |
| Allocator.Heap.Realloc | uspace/malloc.c:232-254 | for every sound size realloc obeys its law, carries over the old payload up to the new size, and keeps every other live payload; on failure nothing changes |
| Allocator.Heap.Absorb | uspace/malloc.c:266-269 | one merge of defrag |
| Allocator.Heap.Defrag | uspace/malloc.c:256-276 | the loop computes the coalesced list and changes no live payload |
| Allocator.Heap.StoreByte | uspace/malloc.h:14-19 | the program may write what it was given |
| Allocator.Heap.FreeStats | uspace/malloc.c:282-291 | the loop computes the sum and maximum over the free list |
| Allocator.Heap.FillArrays | uspace/malloc.c:311-320 | the reporting loop stores every allocation but the two arrays, pairwise and in list order, within bounds |
| Allocator.Heap.HeapInfo | uspace/malloc.c:278-324 | fails exactly when an array cannot be had; otherwise reports the allocations and free totals as they were at entry; the first array stays allocated if the second fails |
| Allocator.SkipRank | uspace/malloc.c:311-320 | skipping the two arrays, the list is the one at entry, in its order |
| AllocatorRuns.Perform | uspace/malloc.c:173-324 | each call of the allocator object is a step of the histories `HeapRuns` is about, and puts calloc's zeros or realloc's copy into the block it returns |
| AllocatorRuns.PerformAll | uspace/malloc.c:173-324 | any sequence of allowed calls on a fresh heap is such a history |
| PageTables.IndicesAreDigits | shared/x86-64.h:29-32 | the four indices are the base-512 digits of the page number |
| PageTables.IndexBijection | shared/x86-64.h:29-32 | every four indices are the path of exactly one page |
| PageTables.WalkLayout | kernel/vm.c:145-185 | in a table tree, a walk arrives at the one page laid out for its index path |
| PageTables.TreeFrame | kernel/vm.c:74-87 | writes outside the table pages keep tree and page map |
| PageTables.LeafWrite | kernel/vm.c:113-135 | storing a leaf entry changes the page map at one page alone and keeps the tree |
| VirtualMemory.LookupRights | kernel/vm.c:192-206 | for any tables, the lookup yields the leaf's frame, with W or U cleared exactly when level 2 grants it and level 1 does not |
| VirtualMemory.RightsAgree | kernel/vm.c:195-198 | W, and likewise U, is reported as the conjunction over all four levels that section 4.6 of the Intel SDM Volume 3A prescribes, if and only if the leaf denies it, or level 2 grants it and level 1 does not, or all three interior levels grant it |
| VirtualMemory.RightsOverstated | kernel/vm.c:195-198 | tables for which the reported rights exceed those of section 4.6 |
| VirtualMemory.LookupTranslates | kernel/vm.c:192-206 | in the tree the system builds, the lookup is the page map's translation |
| VirtualMemory.FollowAbsent | kernel/vm.c:195-205 | a walk that breaks off leaves the loop with an entry that is not present |
| VirtualMemory.LookupAnswers | kernel/vm.c:192-206 | for any tables: where the walk stops short of a present leaf the answer is page number -1, address 2^64 - 1 and no flags; otherwise the leaf's frame, its address plus the offset, and its low 12 bits but for the W or U that level 2 grants and level 1 does not |
| VirtualMemory.FollowWraps | kernel/vm.c:192-206 | the entry found depends on the low 48 bits of the address alone |
| VirtualMemory.PhysicalMemory.Fill | shared/lib.c:36-41 | fills exactly the given bytes |
| VirtualMemory.PhysicalMemory.Copy | shared/lib.c:12-18 | memcpy to a physical address: exactly those bytes |
| VirtualMemory.PhysicalMemory.LookupL4PageTable | kernel/vm.c:145-185 | the leaf table on the path of the address, NULL if and only if a level is missing |
| VirtualMemory.PhysicalMemory.VirtualMemoryMap | kernel/vm.c:98-137 | on success exactly the pages of the range get their new entries and every other page keeps its own; it fails at the first page without a leaf table; the table tree survives |
| VirtualMemory.PhysicalMemory.VirtualMemoryLookup | kernel/vm.c:192-206 | for every 64-bit address and any tables, the loop comes to that answer |
| KernelState.AllocFrame | obj/kernel.asm:5203-5265 | handing out and filling a free frame keeps the accounting and every page map |
| KernelState.MapLoose | kernel/kernel.c:355-361 | mapping a handed-out frame at an unmapped page keeps the accounting |
| KernelState.Unmap | kernel/kernel.c:172-179 | unmapping a page and freeing its frame keeps the accounting |
| KernelState.Remap | kernel/k-loader.c:104-111 | changing only a page's flags keeps the accounting |
| KernelState.WriteFrame | kernel/k-loader.c:96-98 | a process's writes to its own frames keep the accounting and every page map |
| Isolation.StoreSeen | kernel/k-loader.c:96-98 | a store is read back where it was made and nowhere else, in no process |
| Isolation.SpliceSeen | kernel/kernel.c:216-216 | so are several bytes copied within one page, and no frame of the kernel's changes |
| Isolation.UserReach | obj/kernel.asm:5488-5713 | what a process may touch, by its page table, is the console page and frames of its own that are no page tables, whatever the address |
| Isolation.TableWriteUnseen | kernel/kernel.c:171-180 | changing one process's leaf tables changes nothing another process reads |
| Isolation.FillUnseen | obj/kernel.asm:5203-5265 | palloc's fill is seen by no process |
| Isolation.PhysDistinct | kernel/kernel.c:538-566 | distinct mapped user addresses of a process are distinct bytes |
| Scheduler.NextUnique | kernel/kernel.c:405-415 | the runnable slot nearest after the current one is unique |
| Scheduler.NextIsFirst | kernel/kernel.c:405-415 | that slot is the first runnable one the scan comes to, counting upwards and around, the current slot last |
| Scheduler.PassedOver | kernel/kernel.c:405-415 | being passed over brings a runnable slot strictly closer |
| Scheduler.StillWaiting | kernel/kernel.c:405-415 | a slot passed over k times is within the remaining cyclic distance |
| Scheduler.Fair | kernel/kernel.c:405-415 | a slot runnable throughout is chosen within as many choices as there are slots |
| Scheduler.Next | kernel/kernel.c:405-415 | the scan finds the nearest runnable slot |
| Kernel.System.constructor | kernel/kernel.c:446-462 | after pageinfo_init reserved pages have owner -1, the other pages of the kernel's image and the page of its stack have owner -2, each counted once; the frames palloc may hand out are exactly the rest from 1 on, and the accounting holds |
| Kernel.System.Palloc | obj/kernel.asm:5203-5265 | the first unowned, unreferenced frame from page 1 on, owned, referenced once and filled with 0xCC, or NULL and no change when there is none; no page map and no byte any process reads changes |
| Kernel.System.LookupPage | kernel/kernel.c:172-173 | the frame of a user page, or -1 |
| Kernel.System.MapPage | kernel/kernel.c:361-361 | a handed-out frame becomes the page at an unmapped address |
| Kernel.System.DropPage | kernel/kernel.c:172-179 | the loop body of a shrink |
| Kernel.System.Shrink | kernel/kernel.c:170-181 | the loop terminates without wrapping, unmaps exactly the pages from the first bound through the second, frees exactly their frames, and no other process notices |
| Kernel.System.Sbrk | kernel/kernel.c:161-185 | for every 64-bit increment: the old break if the unbounded sum is at least the original break and below 0x2FF000, else -1 and no change; a shrink drops exactly the pages named |
| Kernel.System.Brk | kernel/kernel.c:187-193 | the same for every 64-bit address |
| Kernel.System.PageFault | kernel/kernel.c:349-384 | an absent page between the breaks gets the first free frame, filled with 0xCC, and physical memory changes in that frame and the process's leaf tables alone; any other fault, or none being free, ends the process and gives its frames back |
| Kernel.System.ProcessFree | obj/kernel.asm:5284-5486 | process_free gives back every frame of the process, tables included, and no other, finds each referenced once, and frees the slot |
| Kernel.System.FreePages | obj/kernel.asm:5295-5353 | its loop frees exactly the frames mapped at user pages |
| Kernel.System.FreeTables | obj/kernel.asm:5354-5486 | the five pages it reaches from the root are freed, each asserted to be referenced once |
| Kernel.FiveTables | obj/kernel.asm:5354-5380 | those five are all the table pages the process has |
| Kernel.ProcessGone | obj/kernel.asm:5284-5486 | without them the accounting of the other processes stands |
| Kernel.System.HandleFault | kernel/kernel.c:349-397 | the fault case and what runs after it |
| Kernel.System.Leave | kernel/kernel.c:304-309 | the exit call and what runs after it |
| Kernel.System.Schedule | kernel/kernel.c:405-415 | the next process is the nearest runnable one; with none the scan goes on for ever |
| Kernel.System.Exception | kernel/kernel.c:288-398 | brk, sbrk, fault, yield or timer, exit, and a mapping copied within one page: exactly the change the case makes, the value returned in rax, what runs next, and no byte another process reads changed |
| Kernel.System.SyscallMapping | kernel/kernel.c:196-217 | for all 64-bit arguments: the two checks as they are, then 24 bytes from the physical address of the first on, whatever frame comes next |
| Kernel.InfoStore | kernel/kernel.c:196-217 | for a destination within one page off the console, the checks pass if and only if the page table lets the process write there, and the copy goes where it is mapped |
| Kernel.InfoSeen | kernel/kernel.c:216-216 | such a copy reads back where it was asked for; every other byte any process reads, the accounting and the kernel's frames stand |
| Kernel.System.StoreVirtual | kernel/vm.c:192-206 | a process's store off the console page happens if and only if the page table lets it write there, and changes that byte alone |
| Kernel.System.Step | kernel/kernel.c:242-440 | one step of a run: one of those traps, or a store, which faults when it is not allowed |
| Kernel.System.Run | kernel/kernel.c:242-440 | any run of those traps and of the processes' own stores, from any valid state: every state follows from the one before and keeps the accounting and the order of the process slots, until no process is left |
| Kernel.BreakTest | kernel/kernel.c:163-167 | the wrapped unsigned comparison accepts exactly the unbounded sums in range |
| Kernel.ShrinkKeepsBelow | kernel/kernel.c:170-181 | a shrink keeps every byte below the new break if and only if that break is page-aligned or its page was not mapped |
| Kernel.ShrinkReachesStack | kernel/kernel.c:170-181 | a shrink drops a mapped stack page if and only if the old break is past the page below it |
| Kernel.OwnedOnce | kernel/kernel.c:538-566 | a process-owned frame has reference count 1 and is one of its owner's tables, mapped nowhere, or mapped at one user page of its owner alone |
| Kernel.FreeUnused | kernel/kernel.c:538-566 | a frame palloc may hand out is no table and mapped at no user page |
| Kernel.MappingsCheckPasses | kernel/kernel.c:469-491 | check_page_table_mappings passes on every process's table |
| Kernel.ReferencedCheckPasses | kernel/kernel.c:560-565 | every referenced frame of a process belongs to an active one |
| Kernel.OwnershipCheckPasses | kernel/kernel.c:517-531 | the recursive ownership check passes on every table tree whose pages have one owner and one reference |
| Kernel.KernelTablesKept | kernel/kernel.c:538-552 | the kernel's tables stay a tree that maps physical memory to itself while the frames the kernel holds keep their bytes |
| Kernel.CheckVirtualMemory | kernel/kernel.c:534-566 | all of check_virtual_memory passes, kernel_pagetable included, in every state that keeps the accounting, with the slots in order and the kernel's tables in place |
| KernelRuns.StepByte | kernel/kernel.c:242-440 | a modelled step (brk, sbrk, fault, yield, exit, a mapping copied within one page, a store) changes a byte of a process only by that process's own store or mapping call, or its own shrink or fault over the page; page-alloc, fork, mem_tog and panic are not among the steps |
| KernelRuns.ByteIsLastStored | kernel/kernel.c:242-440 | over any run of the modelled steps, a byte whose page its process neither shrinks past nor faults in reads as the process last put there, by a store or a mapping call of its own, whatever modelled steps the others take; page-alloc, fork, mem_tog and panic are left out |
| KernelRuns.InfoReadsBack | kernel/kernel.c:213-216 | the 24 bytes a mapping call copies read back, as the struct they are, as the lookup's answer |
| KernelRuns.InfoOfAbsent | kernel/kernel.c:213-216 | for an address that is not mapped, whatever the tables, page number and address read as all ones and no flag is set |
| KernelRuns.KernelFramesKept | kernel/kernel.c:242-440 | over any run of the modelled steps, the kernel's frames and the reserved ones keep every byte and their entries in pageinfo |
| KernelRuns.ChecksPass | kernel/kernel.c:534-566 | so check_virtual_memory passes in every state of a run that begins with the kernel's tables in place |
| KernelRuns.TurnStep | kernel/kernel.c:405-440 | every step brings a waiting runnable process no further from its turn, every yield nearer |
| KernelRuns.EveryTurnComes | kernel/kernel.c:405-440 | in any run, as many yields as there are slots do not pass without a process that stays runnable becoming current |
| KernelRuns.LoseStack | kernel/kernel.c:170-181 | two sbrk calls by which any loaded process with a break at most a page below the stack's unmaps its stack |
| KernelRuns.LosePartialPage | kernel/kernel.c:170-181 | a process whose first heap page is not mapped yet grows by two bytes, stores the first, gives back the second, and has lost the first |
| KernelLaws.BreakObeys | kernel/kernel.c:161-193 | a break from the original one up to 0x2FF000 is taken; a shrink unmaps exactly the pages that begin less than a page below the new break and less than a page above the old one, and frees exactly their frames; any other break changes nothing |
| KernelLaws.FaultObeys | kernel/kernel.c:349-397 | a fault between the breaks, on an unmapped page and with a frame free, makes the lowest free frame the page, filled with 0xCC; any other ends the process |
| KernelLaws.ExitObeys | kernel/kernel.c:304-309 | an exit gives back the slot, the tables and exactly the frames the process owned, and the nearest runnable process is next, if there is one |
| KernelLaws.RunObeys | kernel/kernel.c:242-440 | every step of a run obeys the law of its event |
| MappingCall.LandsWhereAsked | kernel/kernel.c:196-217 | the bytes the mapping call copies all land where the process has their addresses mapped if and only if they lie in one page or the next page is mapped to the adjacent frame |
| MappingCall.WritesExactly | kernel/kernel.c:203-211 | for every 64-bit destination, in one page or across two, the call writes if and only if the process may write the first byte and the last byte's page is mapped and writable or has the page number of the address asked about, modulo 2^32 |
| MappingCall.CallWrites | kernel/kernel.c:196-217 | then 24 bytes are written from where the destination is mapped, and otherwise nothing changes |
| MappingCall.CopyAddress | kernel/kernel.c:196-217 | the first check makes the copy go to a frame of the process's own, for every 64-bit destination off the console |
| MappingCall.HarmlessExactly | kernel/kernel.c:196-217 | copying any 24 bytes there keeps the accounting, every other process's bytes and the kernel's frames, whatever the bytes are, if and only if they lie in one page or the next frame is free, mapped by the process itself, or past the end of memory |
| MappingCall.CallUnnoticed | kernel/kernel.c:196-217 | so under that condition the call does, whatever its arguments |
| Loader.WriteVirtual | kernel/k-loader.c:96-98 | a kernel store through a process's page table |
| Loader.StoreBytes | kernel/k-loader.c:96-98 | memcpy to, or memset of, process memory: those bytes read as stored, all others as before |
| Loader.AllocPages | kernel/k-loader.c:82-91 | every page of the range gets a frame that was free; it succeeds if and only if enough are free, and takes just those |
| Loader.WriteProtect | kernel/k-loader.c:104-111 | the pass removes W from the range and changes no translation and no byte |
| Loader.LoadSegment | kernel/k-loader.c:74-117 | succeeds if and only if enough frames are free; then: fresh pages with the segment's rights, the image at the page boundary below p_va, zeros up to the end, everything else as before, both breaks at the rounded end, and the image reads at p_va if and only if it is unchanged by the shift |
| Loader.ImageInPlace | kernel/k-loader.c:67-79 | so the documented promise that the image reads at p_va is met for every image if and only if p_va is page-aligned or the file part is empty |
| Loader.ImageReads | kernel/k-loader.c:96-98 | what reads at p_va in the loaded memory is the image if and only if the image is unchanged by the shift |
| Loader.MisplaceImage | kernel/k-loader.c:74-117 | at every unaligned p_va, an image whose first byte is not what reads there |
| Setup.SetupTree | obj/kernel.asm:5488-5713 | the five linked pages are a table tree |
| Setup.SetupWalk | obj/kernel.asm:5488-5713 | every address below 3 MB walks to one of its two leaf tables, unmapped at first |
| Setup.VirtualMemoryInit | kernel/vm.c:22-52 | the kernel's own tables are a tree that maps physical memory to itself with all rights, and no byte outside their five pages changes; the checking loop's asserts hold |
| Setup.LooseWrite | obj/kernel.asm:5488-5713 | writes into handed-out frames keep the accounting and are seen by no process |
| Setup.AddProcess | obj/kernel.asm:5488-5713 | a finished set of tables becomes a process's without breaking the accounting |
| Setup.MapLow | obj/kernel.asm:5488-5713 | low memory is identity mapped, the console page for the user too, and nothing above |
| Setup.ConfigTables | obj/kernel.asm:5488-5713 | process_config_tables succeeds if and only if five frames are free; otherwise every frame is given back |
| Boot.LoadProgram | kernel/k-loader.c:42-64 | succeeds if and only if the frames suffice; then every segment is in place at once, and nothing is mapped above the break |
| Boot.SetupStack | obj/kernel.asm:5734-5758 | the stack page is mapped to the first free frame, or to frame 0 when there is none; the accounting holds afterwards if and only if a frame was free |
| Boot.NullStackBreaks | obj/kernel.asm:5734-5758 | a stack on frame 0 breaks the accounting, whoever frame 0 belongs to |
| Boot.ProcessSetup | kernel/kernel.c:117-127 | the asserts hold if and only if enough frames are free for tables and program; then the process is runnable with its segments in place and breaks set, nothing mapped between break and stack, no existing process and no frame of the kernel's changed, and the system is valid if and only if one more frame was free: without it the stack is frame 0 |
| Boot.TakeLastFrames | kernel/kernel.c:117-127 | on any valid system with a free slot and more than five free frames there is a program for which that happens |
| Boot.LoseFirstByte | kernel/kernel.c:170-181 | any program that ends at least two pages below the stack, set up with two frames to spare, loses the first byte of its heap to a two-byte growth and a one-byte shrink |
| Boot.Prepare | kernel/kernel.c:80-108 | virtual_memory_init, pageinfo_init and the set-up of several processes: with enough frames every program is in place, and the kernel's frames hold what virtual_memory_init left there |
| Boot.Start | kernel/kernel.c:80-111 | from boot through the set-up of several processes to any run of the modelled steps: with enough frames, every program is in place at the start, every state keeps the accounting and passes check_virtual_memory, and the kernel's image, its tables aside, and its stack hold the bytes they held before boot |
| Quicksort.MedianOfThree | tests/p-heapinfo.c:68-82 | lo, mid and hi are put in order |
| Quicksort.ScanUp | tests/p-heapinfo.c:90-91 | the left scan stops inside the partition, at the first element not below the pivot |
| Quicksort.ScanDown | tests/p-heapinfo.c:92-93 | the right scan stops inside the partition |
| Quicksort.Partition | tests/p-heapinfo.c:65-111 | collapsing the walls leaves everything before the left part at most the pivot and everything after the right at least it, moving elements only within the partition |
| Quicksort.SplitPending | tests/p-heapinfo.c:112-139 | after a split every position is finished, in a run of at most five, or in one of the disjoint pending partitions |
| Quicksort.ShallowPush | tests/p-heapinfo.c:128-139 | pushing the larger side keeps length times 2^depth at most the element count |
| Quicksort.StackFits | tests/p-heapinfo.c:61-140 | so 64 stack entries always suffice |
| Quicksort.SortRuns | tests/p-heapinfo.c:57-141 | the stack loop leaves runs of at most five elements, in order among each other |
| Quicksort.GlobalMinimum | tests/p-heapinfo.c:153-160 | the least of the first elements is the least of all |
| Quicksort.FrontMinimum | tests/p-heapinfo.c:148-160 | it is moved to the front |
| Quicksort.InsertAll | tests/p-heapinfo.c:161-182 | with it there, the unguarded insertion scan never leaves the array, and the result is sorted |
| Quicksort.Sort | tests/p-heapinfo.c:48-184 | a sorted permutation of the input, for any total preorder |
| Quicksort.SortedUnique | tests/p-heapinfo.c:48-184 | sorted permutations agree position by position up to equivalence |
| Quicksort.ComparatorIsPreorder | tests/p-heapinfo.c:186-191 | ptr_comparator is a total preorder on sizes that fit a non-negative int |
| Quicksort.ComparatorExact | tests/p-heapinfo.c:186-191 | on sizes from lo to hi ptr_comparator is a total preorder if and only if hi - lo is below 2^31 |
| Quicksort.ComparatorWraps | tests/p-heapinfo.c:186-191 | allocation sizes it orders wrongly: two that each come before the other, and three in a circle |
| Numerals.NumeralDenotes | shared/lib.c:112-128 | the digits denote the value, without a leading zero |
| Numerals.NumeralUnique | shared/lib.c:112-128 | no other digit string without leading zeros does |
| Numerals.NumeralFits | shared/lib.c:112-128 | a 64-bit value takes at most 20 digits |
| Numerals.FillNumbuf | shared/lib.c:112-128 | fill_numbuf writes that numeral and a terminator, in at most 21 of 24 bytes |
| Printer.Field | shared/lib.c:252-298 | a conversion other than the colour change prints max(width, prefix + zeros + data) characters |
| Printer.BodyDenotes | shared/lib.c:252-298 | zero padding never changes the number printed, in any base |
| Printer.SignedReadsBack | shared/lib.c:252-298 | whatever its flags, width and precision, a signed field reads back as its number |
| Printer.PlainText | shared/lib.c:146-150 | a format without percent signs prints itself |
| Printer.TextThenDirective | shared/lib.c:142-301 | text before a directive prints first and uses no argument |
| Printer.LongRoundTrip | shared/lib.c:142-301 | any long printed with "%ld" takes at most 20 characters and reads back as itself |
| PrinterLaws.Parsed | shared/lib.c:152-246 | reading a directive undoes writing it: whatever flags, width, precision, length letters and conversion letter are written, with stars for arguments, those are what is found |
| PrinterLaws.FieldPrints | shared/lib.c:191-298 | what each letter prints of its argument, under every combination of flags, width and precision |
| PrinterLaws.ConversionPrints | shared/lib.c:146-301 | a written directive prints, before what follows it: for d and i the signed int or long with sign, for u, x, X and p the canonical numeral in its base and case with its marker, for s the characters before the first NUL cut to the precision, for c the byte, for any other letter itself; then zeros and blanks as flags, width and precision ask |
| PrinterLaws.PercentAtEnd | shared/lib.c:236-245 | a percent sign at the end of the format prints itself |
| PrinterLaws.BarePrints | shared/lib.c:191-246 | without flags, width and precision the whole output is just that: it reads back as the argument reduced to its width, or is its characters |
| Printer.ScanFlags | shared/lib.c:152-161 | the loop collects exactly the flag characters |
| Printer.ScanNumber | shared/lib.c:165-168 | the loop reads the number its digits denote |
| Printer.ScanPrecision | shared/lib.c:174-189 | a negative or missing precision after the point counts as 0 |
| Printer.Convert | shared/lib.c:191-246 | the switch keeps of the argument what the directive's item stands for; what that prints, letter by letter, is `PrinterLaws.ConversionPrints` |
| Printer.StringPrinter.Putc | shared/lib.c:350-356 | the character is printed, and stored if there is room |
| Printer.StringPrinter.Emit | shared/lib.c:283-298 | the five loops print padding, prefix, zeros, data and padding |
| Printer.StringPrinter.PrintItem | shared/lib.c:248-298 | prefix, length and zeros come out as the field has them |
| Printer.StringPrinter.PrintDirective | shared/lib.c:152-299 | one directive prints its field and moves on to the right place |
| Printer.StringPrinter.VPrintf | shared/lib.c:142-301 | the whole format prints its full output |
| Printer.Vsnprintf | shared/lib.c:358-368 | with size at least 1 the buffer gets exactly the start of the full output that fits, then a NUL, and the stored length is returned; with size 0 nothing is touched |

## Left out

- Allocator.Heap.Malloc: takes sound requests. `HeapFacts.SoundExactly` shows that these are exactly the ones the code answers as it should; for the others the model stops at the decision (`Allocator.Heap.Begin`), before the damage.
- Allocator.Heap.Calloc: a product that overflows is handled; one that does not must be sound.
- Allocator.Heap.Realloc: takes sound sizes. The copy may read up to 32 bytes past the old block; memory past the break reads as some byte in the model, and only the old payload is claimed to arrive.
- Allocator.Heap.Absorb: stores the enlarged size after unlinking the absorbed block, the code before it; the two touch different words.
- Allocator.Heap.Sbrk: the break only; what a shrink unmaps is `Kernel.System.Sbrk`. The allocator is assumed to be the only caller of sbrk in its process.
- append_list_ordered and remove_list are two methods each, one per list, and share LinkBetween and Bypass for the pointer writes.
- The heap's int counters are unbounded; `HeapCounts` shows they stay below the heap size.
- Memory is a sequence of byte values held in a field, page ownership and the process table are sequence fields, and page-table entries are numbers whose bits are read by division: nothing here depends on a bit-vector theory.
- VirtualMemory.RightsAgree: says when the lookup's rights are those of the processor manual; the code is kept as it is.
- VirtualMemory.PhysicalMemory.VirtualMemoryMap: takes ranges within 2^48 and tables that are a tree; wider ranges and other tables are left out.
- Large pages, accessed and dirty bits, TLB and CR3 effects.
- Kernel.System.Exception: the cases that move the break, fault, yield, exit or copy a mapping within one page off the console. The page-alloc, mem_tog, fork, getpid and panic calls, the console and the keyboard are not modelled; nor are a process's stores to the console page. getpid and mem_tog touch nothing that is modelled; page-alloc and fork change page tables.
- Kernel.System.Run: takes mapping calls whose 24 bytes lie in one page off the console. `Kernel.System.SyscallMapping` is the call for all arguments, and `MappingCall.HarmlessExactly` says when the others would do.
- Kernel.System.Step: an address that is not canonical is taken to fault like one that is not mapped.
- Kernel.System.PageFault: the processor is assumed to report a fault as absent exactly when the page is not mapped.
- Only mappings from 1 MB up are counted as uses of a frame: low memory is identity mapped in every process. Kernel-mode faults are not modelled.
- palloc, process_config_tables, process_setup_stack and process_free have no C source; they follow the disassembly in obj/kernel.asm.
- Boot.LoadProgram: takes segments that ascend, share no page and end at or below the stack page; parsing the ELF headers is left out.
- Loader.LoadSegment: takes a segment whose pages are in the user range and not yet mapped. The console message on failure is left out.
- Quicksort.Sort: moves whole elements where the code moves their bytes, so an element's size plays no part.
- Printer.Convert: a missing argument reads as 0 or the empty string, where C leaves it undefined; width and precision are unbounded.
- The printer is not C11's: precision 0 with value 0 prints a digit, a negative `*` width is ignored, and vsnprintf returns the stored length. The model follows the code.
- The console printer, app_printf, and the colour argument, which the string printer ignores.
- append_list and assign_physical_page, which nothing calls, and the string helpers, which touch no memory the allocator or the kernel manages.
