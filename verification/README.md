# Verification of the kernel's core

A Dafny 4.11 model of the parts of this Raspberry Pi 3 kernel in which state is intricate: the
buddy allocator (`src/mm.c`), the slab layer above it (`src/alloc.c`), the virtual file system with
its mounts (`src/fs_vfs.c`) over tmpfs (`src/fs_tmpfs.c`), the scheduler (`src/sched.c`), the timer
queue (`src/timer.c`), the UART rings (`src/uart.c`) and the cpio walker (`src/cpio.c`).
`dafny verify dfyconfig.toml` checks all of it.

## How it is built

Each component has two layers.

* A **specification on values**: datatypes for the state, a function for every operation, and the
  laws of these functions as lemmas (`Buddy`, `Slab`, `Path`, `Vfs`, `Sched`, `Timer`, and the
  machines in `Uart` and `TmpfsFile`). Invariants, safety over whole runs, frames and round trips
  are proved here.
* The **source's own form**: classes whose fields are the globals and linked records of the source,
  with its loops and in-place updates (`PageAllocator`, `KernelAllocator`, `VfsObject`,
  `TmpfsFile.File`, `SchedObject`, `TimerObject`, `Uart.Buffer`) and the loops of `Path` and `Cpio`.
  Each method is proved to compute exactly the function of the same operation, so the laws hold of it.

| component | specification | laws | source's form |
|---|---|---|---|
| page allocator | `Buddy.dfy` | `PowersOfTwo`, `BuddyTiling`, `BuddySteps`, `BuddyLaws`, `BuddyReserve`, `BuddyRuns` | `PageLinks.dfy`, `PageAllocator.dfy` |
| slab layer | `Slab.dfy` | `SlabLaws.dfy`, `SlabCounts.dfy`, `SlabRuns.dfy` | `ChunkLinks.dfy`, `KernelAllocator.dfy` |
| file system | `Path.dfy`, `Vfs.dfy` | `VfsLaws.dfy`, `VfsFrames.dfy`, `VfsCodes.dfy` | `VfsObject.dfy`, `Path.GetNextComponent` |
| file buffers | `TmpfsFile.dfy` | `TmpfsFile.dfy` | `TmpfsFile.File` |
| scheduler | `Sched.dfy` | `Sched.dfy`, `SchedEffects.dfy`, `SchedWaiting.dfy` | `SchedObject.dfy` |
| timer queue | `Timer.dfy` | `Timer.dfy` | `TimerObject.dfy` |
| UART rings | `Uart.dfy` | `Uart.dfy` | `Uart.Buffer` |
| cpio walk | `Cpio.dfy` | `Cpio.dfy` | methods of `Cpio` |

Conventions: pages and vnodes are numbers, `-1` is NULL; a byte address is an offset from
`memory_start`, which is 0; whether an allocation succeeds, the readings of the tick counter and the
characters arriving at the UART are parameters; page count and number of orders are parameters of
the page allocator, with the page count a multiple of the top block as in `include/mm.h`.

## Where the code does less than one would expect

These are properties of the code, kept as it is. Where a property fails, the condition under which it
does hold is given exactly.

* Pages are lost in exactly two ways (`BuddyRuns.StepConserves`, over whole runs
  `BuddyRuns.EveryRunConserves`). A block freed at, or merged up to, the top order is put on no list,
  since `_free` leaves its loop before the branch that relinks: straight after `mm_init`, allocating a
  page and freeing it is enough (`BuddyRuns.TopBlockIsLost`). And an allocation that picks block 0
  reaches its caller as NULL, because the address of page 0 is 0, and `_free` ignores NULL.
* Hence freeing what was just allocated restores the heap exactly when the block came from a list below
  the top order and was not block 0 (`BuddyRuns.FreeUndoesAlloc`).
* "NULL only if no block fits" holds for a request exactly when the front of the first list that can
  serve it is not block 0 (`BuddyRuns.NullMeansNoneExactly`, with a counterexample for every memory of
  more than one page in `BuddyRuns.NullIsAmbiguous`). Boot reserves page 0 first, and from then on it
  always holds (`BuddyRuns.EveryRunNullMeansNone`).
* `request_page` starts its carving loop at 1 and so publishes one chunk fewer than the page holds.
* A ready task at position `k` is sure to run within `k + 1` calls of `schedule` exactly when the
  current task is not in front of it in the ready queue. That the *head* of the queue differs from
  the current task is not enough: killing the tasks before a launched thread makes `schedule` do
  nothing for ever (`SchedWaiting.BoundedWaitingExactly`, `SchedWaiting.HeadIsNotEnough`).
* A launch forgets the task that was current, unless that task is in the ready queue: it is on no
  queue and is neither run nor reclaimed again. No other step forgets a task
  (`SchedEffects.StepPlaces`, `SchedEffects.EveryRunPlaces`).
* A thread whose working directory was mounted on meanwhile can make a name there with success and
  not find it: the new node copies the mount field of its directory. A path leads to what was made
  under it exactly when its parent directory is not a mount point (`VfsFrames.MakeFrame`,
  `VfsFrames.CoveredDirectoryHides`, `VfsFrames.CoveredDirectoryReached`). Such nodes are never
  reached by any lookup and harm no other path.
* The timer handler disables the interrupt and re-enables it only if it removed a timer. It leaves
  pending timers armed exactly when it is entered with an expired head or with no timer at all
  (`Timer.HandlerRearmsExactly`). Interrupts raised by the comparator never enter it otherwise, so no
  run of the modelled events forgets a timer (`Timer.EveryRunStaysArmed`).
* The loop of the timer handler ends exactly when no expired timer asks for a delay of zero or the
  clock passes the tick of entry (`Timer.LoopEndsExactly`, for one round
  `Timer.RoundDecreasesExactly`). It ends for every queue and clock exactly from 256 ticks a second on
  (`Timer.EndsAtAnyRate`); below, the scheduling timer asks for a delay of zero
  (`Timer.ZeroDelayRepeats`).
* `uart_async_putc` tests for one free slot but stores two characters for a carriage return. Put with
  no call in progress, it keeps the order of the characters under every interleaving exactly when the
  ring is full, which refuses it, or has two free slots (`Uart.CrCallExactly`). Over a run the order
  is kept exactly as long as the head is not moved onto the tail (`Uart.SentInOrderExactly`).

## Model

| member | source | states |
|---|---|---|
| `PowersOfTwo.FlipAlignedBit` | src/mm.c:26-28 | flipping bit k of an index aligned to `1 << k` moves it up by one block if it is aligned to the next order and down by one block otherwise: the xor of `get_buddy` is the other half of the parent block |
| `BuddyTiling.BuddyFacts` | src/mm.c:26-28 | buddies are mutual, distinct and aligned, and the smaller of the two heads the parent block |
| `BuddyTiling.BuddyIsHead` | src/mm.c:225-242 | the buddy index of any block below the top order is in range and is itself a block head of at most the same order, so the stale records of interior pages are never consulted |
| `BuddyTiling.BlocksDisjoint` | src/mm.c:172-212 | two blocks that share a page are one block |
| `BuddyTiling.SplitTiling` | src/mm.c:190-198 | writing the two lower orders keeps the page array tiled by aligned blocks |
| `BuddyTiling.JoinTiling` | src/mm.c:254-273 | writing the higher order at the smaller buddy and -1 at the bigger one keeps the page array tiled |
| `Buddy.OrderOf` | src/mm.c:17-24 | `get_order` is the least order whose block holds the pages |
| `Buddy.SizeFits` | src/mm.c:173-181 | for every size in range the order chosen exists, its block holds the request, and the next smaller block would not |
| `BuddyLaws.CarveKeeps` | src/mm.c:190-198 | the splitting loop keeps all invariants and the owned blocks, and the pages it frees are exactly those of the old block outside the block that is kept |
| `BuddyLaws.AllocTakes` | src/mm.c:184-209 | `_alloc` takes a block of the wanted order whose pages were all free, nothing else changes, and all invariants hold afterwards |
| `BuddyLaws.AllocLists` | src/mm.c:184-203 | best fit, list by list: the front block of the first list that has one is taken, its lowest part handed out, and the other parts, one of each order below, are alone on their lists; no other list changes |
| `BuddyLaws.RunInOneBlock` | src/mm.c:172-212 | in a fully merged heap every aligned run of free pages lies in one listed block |
| `BuddyLaws.AllocComplete` | src/mm.c:172-212 | `_alloc` finds no block if and only if no naturally aligned run of `1 << order` pages lies entirely on the free lists |
| `BuddyLaws.ListedIffMaximal` | src/mm.c:225-287 | the blocks on the lists are exactly the maximal free aligned runs |
| `BuddyLaws.CanonicalFormUnique` | src/mm.c:225-287 | two fully merged heaps with the same free pages list the same blocks at the same orders |
| `BuddyLaws.MergeStep` | src/mm.c:242-276 | one round of merging with a listed buddy keeps all invariants; the pages of the two blocks become the pages of one block in transit |
| `BuddyLaws.MergeUpEffect` | src/mm.c:230-287 | the merging loop returns exactly the pages of the block, and it reaches the top order if and only if all the rest of the enclosing top block is free |
| `BuddyLaws.FreeEffect` | src/mm.c:214-301 | the exact effect of `_free`: the pages of the block become free and nothing else changes, unless that completes a top block, which then is on no list; all invariants hold |
| `BuddyLaws.MergeUndoesCarve` | src/mm.c:189-203 | merging after carving gives what merging the uncarved block gives, on every heap |
| `BuddyLaws.FreeUndoesTaking` | src/mm.c:186-287 | on blocks: taking a block and releasing it at once restores the heap, list order included, if and only if it came from a list below the top one; otherwise that top block is lost |
| `BuddyRuns.FreeUndoesAlloc` | src/mm.c:172-301 | on addresses, for every size: `_alloc` followed at once by `_free` of its result restores the heap if and only if nothing was taken, or the block came from a list below the top one and was not block 0, which `_free` ignores as NULL |
| `BuddyReserve.InitCorrect` | src/mm.c:146-170 | after `mm_init` every page is free in top-order blocks and all invariants hold |
| `BuddyReserve.SplitFreeStep` | src/mm.c:303-321 | `split` replaces a listed block by its halves, on the list one order lower, without changing which pages are free |
| `BuddyReserve.SplitAroundStep` | src/mm.c:339-381 | the splitting phase of `reserve` leaves both end pages in single-page blocks and changes no page's status |
| `BuddyReserve.TakeBlocksStep` | src/mm.c:384-393 | the stepping loop takes exactly the pages of the interval off the lists and lands exactly on `end_idx + 1` |
| `BuddyReserve.ReserveEffect` | src/mm.c:323-396 | `reserve` of an interval of free pages: afterwards the free pages are the old ones minus the interval, owned blocks are untouched and all invariants hold, no two buddies being left unmerged |
| `BuddyRuns.FreeKeeps` | src/mm.c:214-301 | releasing any owned block keeps tiling, lists, merged form and reservations |
| `BuddyRuns.StepKeeps` | src/mm.c:172-396 | every allocation, release of a held block and reservation of free pages keeps the tiling, the lists, the merged form and the reservations |
| `BuddyRuns.StepKeepsOwned` | src/mm.c:172-396 | an owned block stays owned with the same extent until it is released |
| `BuddyRuns.StepConserves` | src/mm.c:205-287 | every page is free, held by a caller or reserved after a step if and only if it was before and the step is neither a release that completes a top block nor an allocation that picks block 0 |
| `BuddyRuns.EveryRunConserves` | src/mm.c:146-396 | over every run from `mm_init`: no page is lost if and only if no operation is of one of these two kinds |
| `BuddyRuns.EveryRunIsSafe` | src/mm.c:146-396 | over every run from `mm_init`: owned blocks are pairwise disjoint, and no page is at once owned and free, owned and reserved, or free and reserved |
| `BuddyRuns.EveryRunAllocComplete` | src/mm.c:172-212 | in every reachable state `_alloc` finds a block exactly when an aligned free run exists |
| `BuddyRuns.NullMeansNoneExactly` | src/mm.c:183-211 | for a size in range, "NULL if and only if no aligned run is free" holds if and only if the front of the first list from the wanted order on is not block 0 |
| `BuddyRuns.PickedPageIsFree` | src/mm.c:184-186 | block 0 can be picked only while page 0 is free |
| `BuddyRuns.EveryRunNullMeansNone` | src/main.c:488-489 | over every run from `mm_init` in which page 0 has been reserved, NULL means exactly that no aligned run is free |
| `BuddyRuns.NullIsAmbiguous` | src/mm.c:205-211 | in every memory of more than one page: with all other pages reserved, a request for one page hands out page 0, as NULL |
| `BuddyRuns.TopBlockIsLost` | src/mm.c:225-287 | in every memory of more than one top block, straight after `mm_init`: freeing a page just allocated is legal and leaves a whole top block neither free, held nor reserved |
| `PageLinks.InsertAllLinked` | src/mm.c:109-124 | `add_to_free_list` on doubly linked, acyclic lists: the entry becomes the front of its list and every other list is unchanged |
| `PageLinks.RemoveAllLinked` | src/mm.c:126-144 | `rm_from_free_list` unlinks an entry at any position and leaves all lists correctly linked in both directions |
| `PageAllocator.HeaderConstantsFit` | include/mm.h:8-13 | the kernel's memory is 30 top-order blocks, so it meets the alignment the proofs ask for, and the largest request is 32 MiB |
| `PageAllocator.BuddyTest` | src/mm.c:231-242 | the test on `entry_in_list` and `order` succeeds if and only if the buddy is on the free list of the same order |
| `PageAllocator.PageAllocator.constructor` | src/mm.c:146-170 | the loops of `mm_init` on the arrays establish the initial heap; all cache orders are -1 |
| `PageAllocator.PageAllocator.AddToFreeList` | src/mm.c:109-124 | the pointer updates compute the insertion at the front whose effect on all lists `PageLinks.InsertAllLinked` states; NULL and orders out of range are ignored |
| `PageAllocator.PageAllocator.RmFromFreeList` | src/mm.c:126-144 | the pointer updates, at the front or in the middle, compute the removal whose effect on all lists `PageLinks.RemoveAllLinked` states; NULL and orders out of range are ignored |
| `PageAllocator.PageAllocator.GetOrder` | src/mm.c:17-24 | the loop computes the least order that holds the pages |
| `PageAllocator.PageAllocator.Round` | src/mm.c:9-14 | the least multiple of the page size that is no smaller |
| `PageAllocator.PageAllocator.Alloc` | src/mm.c:172-212 | on the arrays `_alloc` computes the heap and the address of the specification, NULL included, for every size |
| `PageAllocator.PageAllocator.SplitBlock` | src/mm.c:189-198 | the splitting loop computes the carved heap |
| `PageAllocator.PageAllocator.TakeFront` | src/mm.c:186-208 | the front of the first non-empty list is unlinked, carved and handed out |
| `PageAllocator.PageAllocator.Free` | src/mm.c:214-301 | `_free` computes the freed heap of the specification on addresses: NULL, addresses past the memory and blocks already on a list change nothing |
| `PageAllocator.PageAllocator.MergeLoop` | src/mm.c:225-287 | the merging loop, which reads only the arrays, computes the merged heap, also when it ends at the top order with a stale entry |
| `PageAllocator.PageAllocator.MergeWith` | src/mm.c:252-273 | one round of merging on the arrays |
| `PageAllocator.PageAllocator.Split` | src/mm.c:303-321 | `split` on the arrays |
| `PageAllocator.PageAllocator.SplitPhase` | src/mm.c:339-381 | the loop over the orders, both branches, computes the splitting phase |
| `PageAllocator.PageAllocator.TakePhase` | src/mm.c:384-393 | the stepping loop computes the taking phase |
| `PageAllocator.PageAllocator.Reserve` | src/mm.c:323-396 | `reserve` of a byte range computes the reservation of its pages, the end address excluded |
| `SlabLaws.ChunksFit` | src/alloc.c:85-94 | every chunk that is carved ends inside its page |
| `SlabLaws.CarvedMembers` | src/alloc.c:113-118 | carving pushes distinct chunk headers of that page and class and nothing else |
| `SlabLaws.AddPageKeeps` | src/alloc.c:100-119 | taking and carving a page keeps the invariant, makes the class longer by exactly the chunks published, and never re-labels a page |
| `SlabLaws.PopKeeps` | src/alloc.c:150-162 | the front chunk of a class is nobody's, lies on a page of that class, and removing it keeps the invariant |
| `SlabLaws.NullMeansNoBlock` | src/mm.c:172-212 | `_alloc` of a size in bytes returns NULL exactly for 0, for more than the largest block, when no aligned run of the order is free, or when block 0 would be picked |
| `SlabLaws.KmallocKeeps` | src/alloc.c:140-172 | `kmalloc` returns NULL if and only if the class is empty and the free lists have no page for it; otherwise a fresh chunk with room for the request on a page of the right class |
| `SlabCounts.ClassIs` | src/alloc.c:122-128 | up to 16 bytes go to the first class, up to 32, 64 and 128 to the next ones |
| `SlabCounts.RequestPageExactly` | src/alloc.c:100-119 | a requested page yields 127, 84, 50 or 27 chunks at multiples of 32, 48, 80 or 144 bytes, the highest in front, one fewer than it holds |
| `SlabCounts.KmallocExactly` | src/alloc.c:140-172 | which pointer `kmalloc` returns and what it leaves: the front chunk of its class; else the highest chunk of a new page, of which 126, 83, 49 or 26 chunks stay; else NULL; the other classes are untouched |
| `SlabCounts.AllocateExactly` | src/alloc.c:198-215 | which of the two allocators `alloc` asks, and that the other's state is untouched |
| `SlabCounts.InitCachesCounts` | src/alloc.c:75-95 | `kmem_cache_init` publishes all 128, 85, 51 or 28 chunks of a page for each class in turn, until there is no page |
| `SlabCounts.FreeIgnores` | src/alloc.c:217-227 | `free` and `kfree` ignore NULL and the kernel image, `free` also what lies past the memory |
| `SlabLaws.Separation` | src/alloc.c:140-215 | byte by byte: a payload byte belongs to one owned pointer only, and to no chunk header, free chunk, free page or reserved page |
| `SlabLaws.AllocateCorrect` | src/alloc.c:198-215 | `alloc` returns a pointer nobody held, issued by the slab layer exactly for at most 128 bytes, and NULL exactly when the size is 0, a small request finds neither a chunk of its class nor a free page, or a large one no block; the invariant, including room for every request, is kept |
| `SlabLaws.OwnedOutsideKernel` | src/alloc.c:218-227 | the early returns of `free` never hit an owned pointer |
| `SlabLaws.ReleaseCorrect` | src/alloc.c:217-237 | `free` dispatches on the cache order, which is not -1 exactly for chunk pointers: a chunk goes to the front of its own class, a block to `_free`, nothing else changes, and the invariant is kept |
| `SlabLaws.ReleaseUndoesAllocate` | src/alloc.c:198-237 | freeing what `alloc` just returned restores the whole state if and only if a chunk of the class was at hand or the block came from a list below the top order |
| `SlabRuns.InitCachesKeeps` | src/alloc.c:69-98 | `kmem_cache_init` establishes the slab pages without owning or losing anything |
| `SlabRuns.CallsKeep` | src/alloc.c:198-237 | every run of `alloc` and of `free` on owned pointers keeps the invariant, and slab pages stay slab pages of their class |
| `SlabRuns.EveryRunSeparates` | src/alloc.c:69-237 | separation from boot on, over every run of both allocators; slab pages never return to the buddy system |
| `ChunkLinks.PushChained` | src/alloc.c:33-40 | pushing a header that is on no list: its list gains it at the front and every list stays linked both ways through the header words |
| `ChunkLinks.PopChained` | src/alloc.c:42-50 | popping: the list loses its front and every list stays linked both ways |
| `KernelAllocator.OwnedOffLists` | src/alloc.c:184-185 | the header that `kfree` pushes for an owned chunk is on no list |
| `KernelAllocator.NextChunkIsNew` | src/alloc.c:113-118 | every chunk that the carving loop pushes is on no list |
| `KernelAllocator.KernelAllocator.FreelistPush` | src/alloc.c:33-40 | the writes to head and header words, in the source's order, push on the list |
| `KernelAllocator.KernelAllocator.FreelistPop` | src/alloc.c:42-50 | the writes to head and header words, in the source's order, pop the list |
| `KernelAllocator.KernelAllocator.constructor` | src/alloc.c:31-31 | the boot state over an initialised page allocator with the kernel image reserved: zeroed caches, nothing owned, the invariant of the layer |
| `KernelAllocator.KernelAllocator.ResetCaches` | src/alloc.c:70-73 | the first loop empties the lists and sets the chunk sizes 16, 32, 64 and 128 |
| `KernelAllocator.KernelAllocator.CacheInit` | src/alloc.c:69-98 | the loop over the classes, with its early return, computes the initialised caches |
| `KernelAllocator.KernelAllocator.TakePage` | src/alloc.c:100-119 | one page is allocated, labelled and carved |
| `KernelAllocator.KernelAllocator.CarveChunks` | src/alloc.c:113-118 | the carving loop pushes the chunks in order of address, through the links in their headers |
| `KernelAllocator.KernelAllocator.GetChunkOrder` | src/alloc.c:122-128 | the least order from 4 on that holds the size |
| `KernelAllocator.KernelAllocator.Kmalloc` | src/alloc.c:140-172 | `kmalloc` computes the specification for every size, too large ones included; `SlabCounts.KmallocExactly` says which chunk that is |
| `KernelAllocator.KernelAllocator.Kfree` | src/alloc.c:174-196 | `kfree` pushes the chunk header on the class of its page, or ignores the pointer |
| `KernelAllocator.KernelAllocator.Alloc` | src/alloc.c:198-215 | `alloc` computes the specification for every size |
| `KernelAllocator.KernelAllocator.Free` | src/alloc.c:217-237 | `free` of an owned pointer or NULL computes the specification |
| `Path.ComponentsAreWords` | src/fs_vfs.c:347-375 | every component is non-empty and has no slash |
| `Path.ComponentsOfJoin` | src/fs_vfs.c:347-375 | tokenizing inverts joining words with slashes |
| `Path.ComponentsConcat` | src/fs_vfs.c:347-375 | the components of p/q are those of p followed by those of q |
| `Path.GetNextComponent` | src/fs_vfs.c:347-375 | the destructive tokenizer on its buffer: repeated calls yield exactly the non-empty slash-separated components, each left in the buffer as a C string |
| `VfsLaws.StepUsable` | src/fs_vfs.c:426-487 | from any vnode that a lookup can give, one round of the lookup loop ends on such a vnode or fails with "not found" or "not a directory"; after a name, ".." leads back to where the name was looked up, also through a mount |
| `VfsLaws.WalkUsable` | src/fs_vfs.c:426-491 | the same for every walk: the internal-error branches are never reached |
| `VfsLaws.StepVisible` | src/fs_vfs.c:426-487 | from a vnode that nothing covers, one round ends on another one |
| `VfsLaws.WalkVisible` | src/fs_vfs.c:426-491 | the same for every walk: covered vnodes are never reached |
| `VfsLaws.LookupIsWalk` | src/fs_vfs.c:399-424 | the special cases for "/", "" and "." agree with the general loop |
| `VfsLaws.LookupComposes` | src/fs_vfs.c:377-492 | looking up p/q is looking up p and then q from there, with the same error |
| `VfsLaws.LookupSafe` | src/fs_vfs.c:377-492 | a lookup from the root or from any working directory that a lookup gave never reports an internal error; from the root, or from a directory that nothing covers, it never ends on a covered vnode |
| `VfsLaws.DotDotLaw` | src/fs_vfs.c:430-461 | if p/x resolves, x an ordinary name, then p/x/.. resolves to the same vnode as p, also when x is a mount point; for a relative p that has itself been covered, to the root of what covers it |
| `VfsFrames.WithChildWf` | src/fs_tmpfs.c:110-160 | a new node keeps the tree well formed, covered parents included: names in a directory stay unique, at most 16 children, parents and children agree, and a copied mount field only ever sits on a node that no lookup reaches |
| `VfsFrames.WalkAfterChild` | src/fs_tmpfs.c:149-156 | adding a name to a directory, exactly: a walk that does not look the name up there ends as before; one that does ended in "not found" and now goes on from the new node |
| `VfsFrames.MakeKeepsWf` | src/fs_vfs.c:153-244 | `vfs_mkdir` and the create path, on absolute and relative paths, keep the tree well formed and change nothing when they fail |
| `VfsCodes.StepExactly` | src/fs_tmpfs.c:87-107 | looking up an ordinary name: EACCES exactly in a file, ENOENT exactly in a directory without the name, otherwise the child of that name or the root of what is mounted on it |
| `VfsCodes.MakeCode` | src/fs_tmpfs.c:110-140 | the answer of mkdir and create for dir/name, absolute or relative: the error of looking up dir; else 0 exactly for a name of 1 to 63 characters that is new in a directory of fewer than 16 children, with memory, and EINVAL, EACCES, EEXIST and ENOMEM by their own conditions |
| `VfsCodes.MakeCodeInPlace` | src/fs_vfs.c:186-195 | the same for a bare name in the working directory; without one, mkdir reports EINTERR and create works in the root |
| `VfsFrames.MakeFrame` | src/fs_vfs.c:153-244 | success on a path whose last name is ordinary: the path leads to the new, empty node if and only if its parent directory is not a mount point, which holds for every absolute path; and every path that resolved, from the root or any usable directory, resolves to the same vnode |
| `VfsFrames.CoveredDirectoryHides` | src/fs_vfs.c:186-194 | a thread whose working directory has been mounted on makes a name there with success and does not find it |
| `VfsFrames.CoveredDirectoryReached` | src/fs_tmpfs.c:149-149 | a run of mkdir, chdir and mount that ends so |
| `VfsFrames.WithMountWf` | src/fs_vfs.c:305-340 | a mount keeps the tree well formed; in particular a mount root is never itself mounted on |
| `VfsFrames.WalkAfterMount` | src/fs_vfs.c:463-486 | a walk that never looks up a name inside the target ends where it ended, the new root standing in for the target |
| `VfsFrames.MountKeepsWf` | src/fs_vfs.c:273-343 | `vfs_mount`, from the root or any existing directory, keeps the tree well formed, mounts only on an uncovered vnode that is no mount root, and changes nothing when it fails |
| `VfsCodes.MountCode` | src/fs_vfs.c:293-316 | the answer of mount: the error of the lookup; EBUSY exactly for the root, a mount root and a directory that is mounted on; otherwise 0 or, without memory, ENOMEM |
| `VfsCodes.MountCodeAbsolute` | src/fs_vfs.c:293-316 | on an absolute path mount succeeds exactly when the target resolves, is neither the root nor a mount root, and there is memory |
| `VfsFrames.MountFrame` | src/fs_vfs.c:273-343 | after a successful mount on any path, absolute paths to the target lead to the new root, every ordinary name below it is not found, and every absolute path that never looks inside the target resolves as before, errors included |
| `VfsFrames.PerformKeeps` | src/fs_vfs.c:153-343 | mkdir, create, mount and chdir by any thread keep the tree well formed and every working directory usable |
| `VfsFrames.EveryRunLooksUpSafely` | src/fs_vfs.c:153-492 | over every run of mkdir, create, tmpfs mounts and chdir by any threads on absolute and relative paths: lookups fail only with "not found" or "not a directory" (or for want of a working directory), absolute lookups end on uncovered vnodes, and the dot-dot law holds |
| `VfsObject.FileSystem.LookupIn` | src/fs_tmpfs.c:87-107 | the comparison loop finds the first child of that name, or reports the source's error |
| `VfsObject.FileSystem.StepOnce` | src/fs_vfs.c:426-487 | the body of the lookup loop, mount crossing and ".." included |
| `VfsObject.FileSystem.LookupPath` | src/fs_vfs.c:377-492 | `vfs_lookup`, with the tokenizer working on a copy of the path, computes the lookup of the specification, errors included |
| `VfsObject.FileSystem.FindLastSlash` | src/fs_vfs.c:170-176 | the backward loop finds the last slash or gives -1 |
| `VfsObject.FileSystem.CreateIn` | src/fs_tmpfs.c:110-160 | the checks in the source's order give the code whose conditions `VfsCodes.RefusalAnswers` states, and the new child |
| `VfsCodes.RefusalAnswers` | src/fs_tmpfs.c:110-140 | each code of the checks by its own condition, with the limits of 63 characters and 16 children |
| `VfsObject.FileSystem.MakeNode` | src/fs_vfs.c:153-244 | `vfs_mkdir`, and with a file the create path of `vfs_open` |
| `VfsObject.FileSystem.MountTmpfs` | src/fs_vfs.c:293-342 | `vfs_mount` of a tmpfs with its set-up |
| `TmpfsFile.DoubledSized` | src/fs_tmpfs.c:206-210 | the doubling loop keeps the capacity at 4096 times a power of two |
| `TmpfsFile.WriteReflects` | src/fs_tmpfs.c:223-228 | a write keeps the contents equal, at every position ever written, to the last byte written there, and the size equal to the end of the furthest write |
| `TmpfsFile.ReadsReturnLastWrites` | src/fs_tmpfs.c:193-286 | over any interleaving of writes, reads and seeks through several handles, reads return the last bytes written and stop exactly at the end of the furthest write |
| `TmpfsFile.SeekToEnd` | src/fs_tmpfs.c:273-275 | after a seek to the end by 0 a read finds nothing and a write appends |
| `TmpfsFile.SeekFromStart` | src/fs_tmpfs.c:267-272 | after a seek to p and one by d from there, a read gives the bytes from p + d on |
| `TmpfsFile.SeekRefused` | src/fs_tmpfs.c:276-282 | a seek before the start or with an unknown mode is refused and changes nothing |
| `TmpfsFile.ReadsCompose` | src/fs_tmpfs.c:242-253 | two reads through a handle give what one read of both lengths gives, and end at the same position |
| `TmpfsFile.WritesCompose` | src/fs_tmpfs.c:223-228 | two writes through a handle leave what one write of both leaves |
| `TmpfsFile.File.Grow` | src/fs_tmpfs.c:205-221 | reallocation keeps the contents; failure changes nothing |
| `TmpfsFile.File.Write` | src/fs_tmpfs.c:193-229 | the buffer after a write refines the contents after a write; ENOMEM exactly when growth was needed and failed, and then nothing changes |
| `TmpfsFile.File.Read` | src/fs_tmpfs.c:231-254 | exactly the stored bytes from the position on, cut at the size |
| `TmpfsFile.File.Lseek` | src/fs_tmpfs.c:256-286 | the new position of each mode, from the start, the old position and the end of the contents; EINVAL for a negative target or an unknown mode, which leave the position |
| `Sched.ScheduleKeeps` | src/sched.c:201-252 | `schedule` keeps the invariant and switches to the head of the ready queue unless the queue is empty or its head is current |
| `SchedEffects.ScheduleMoves` | src/sched.c:211-246 | the task that gives way goes where its state says, a running one READY to the end of the ready queue, and no other task but the next one moves |
| `SchedEffects.PreemptedComesBack` | src/sched.c:219-246 | without removals, the preempted task runs again after exactly as many calls of `schedule` as tasks were ready, and not earlier |
| `SchedEffects.RoundRobinCloses` | src/sched.c:201-247 | with nothing but calls of `schedule`, the preempted task is current again once every ready task has had its turn |
| `SchedEffects.OnlyBlockedWaits` | src/sched.c:223-225 | a task enters the wait queue only if it is current and BLOCKED in `schedule` |
| `SchedEffects.BootBlocksNobody` | src/sched.c:22-262 | over every run nobody is BLOCKED and the wait queue stays empty |
| `SchedEffects.StepPlaces` | src/sched.c:22-262 | every task stays current, queued or reclaimed, except that a launch forgets the current task if it was not queued; what is forgotten never comes back |
| `SchedEffects.EveryRunPlaces` | src/sched.c:22-262 | over every run a task is forgotten if and only if such a launch forgets it |
| `SchedEffects.CreateFound` | src/sched.c:97-145 | a new thread is READY, last in line, and found by its id unless an earlier ready task has the same one; other ids are found as before |
| `SchedEffects.ExitEffect` | src/sched.c:168-178 | after `_exit` the task is EXITED, off the queues, and a zombie if another task was ready, which then runs |
| `SchedEffects.ReapEffect` | src/sched.c:254-262 | reaping reclaims exactly the zombies |
| `Sched.KillKeeps` | src/sched.c:180-199 | `_kill` keeps the invariant; its victim is queued and has the id |
| `SchedEffects.KillEffect` | src/sched.c:180-199 | the victim is the first ready task with the id, else the first waiting one; it is EXITED, off both queues, and a zombie, unless it runs and nobody else is ready; without such a task nothing changes |
| `Sched.StepKeeps` | src/sched.c:22-262 | create, launch, schedule, exit, kill and reap keep the invariant: the queues have no repetitions, READY tasks are exactly those in the ready queue, zombies are exited, not current and not reclaimed |
| `Sched.StepForgetsExited` | src/sched.c:168-262 | an exited task that is not current never becomes current again and is not reclaimed twice |
| `Sched.EveryRunIsSafe` | src/sched.c:22-262 | over every run: disjoint queues, READY exactly in the ready queue, the current task no zombie, memory reclaimed at most once and only of tasks that never run in any continuation |
| `SchedWaiting.ScheduleAdvances` | src/sched.c:211-246 | each call of `schedule` brings an unobstructed task one place forward or runs it |
| `SchedWaiting.BoundedWaiting` | src/sched.c:201-247 | an unobstructed task at position k runs within k + 1 calls of `schedule`, whatever is created, launched, exited, killed or reaped meanwhile |
| `SchedWaiting.AheadStarves` | src/sched.c:213-217 | if the current task is ahead, kills of other tasks lead to a state in which no number of calls runs the waiting one |
| `SchedWaiting.BoundedWaitingExactly` | src/sched.c:201-247 | the bound holds over every continuation if and only if the current task is not in front of the waiting one |
| `SchedWaiting.HeadIsNotEnough` | src/exec.c:26-39 | a reachable state, after a launch, in which the head is not current and yet the bound fails |
| `SchedWaiting.ExactWaiting` | src/sched.c:201-247 | without exits and kills a task in line at position k is current after exactly k + 1 calls, and not earlier |
| `SchedObject.AddThreadTask` | src/sched.c:22-37 | the walk to the end of a linked queue appends the task and leaves the other links alone |
| `SchedObject.RmThreadTask` | src/sched.c:49-69 | the two-pointer walk unlinks the task if the queue holds it |
| `SchedObject.FindInQueue` | src/sched.c:148-155 | the walk finds the first task with the id |
| `SchedObject.Scheduler.constructor` | src/sched.c:71-87 | the boot context is running and the idle thread is queued |
| `SchedObject.Scheduler.ThreadCreate` | src/sched.c:89-146 | the queue part of `thread_create` on the linked queues, failing allocations included; the id is the 32-bit thread counter, which moves on once the first allocation succeeded |
| `SchedObject.Scheduler.LaunchThread` | src/exec.c:26-39 | the new thread becomes current while it is still READY and queued; the old one is put on no queue |
| `SchedObject.Scheduler.DoSchedule` | src/sched.c:201-252 | `schedule` on the linked queues, every state of the previous task, computes the step whose effect `SchedEffects.ScheduleMoves` states |
| `SchedObject.Scheduler.ExitCurrent` | src/sched.c:168-178 | `_exit` |
| `SchedObject.Scheduler.FindById` | src/sched.c:148-166 | the ready queue is searched first, then the wait queue |
| `SchedObject.Scheduler.KillTask` | src/sched.c:180-199 | `_kill`, with -1 exactly when no queued task has the id |
| `SchedObject.Scheduler.KillZombies` | src/sched.c:254-262 | the loop frees exactly the zombies, in order, and empties their queue |
| `Timer.InsertSorted` | src/timer.c:172-196 | insertion keeps the list sorted and adds exactly the new timer |
| `Timer.RoundDecreasesExactly` | src/timer.c:103-111 | a round of the handler leaves fewer expired timers if and only if the callback does not insert, finds no memory, or inserts past the tick |
| `Timer.RoundDecreases` | src/timer.c:103-111 | from 256 ticks a second on, a round leaves exactly one expired timer fewer although its callback may insert: why the handler's loop ends |
| `Timer.CallbackDelays` | src/timer.c:50-64 | `print_uptime` comes back two seconds after it ran, `keep_schedule` after a 256th of a second, a message not at all, and without memory nothing |
| `Timer.LoopEndsExactly` | src/timer.c:103-111 | at any frequency, with memory and a clock that does not go back: the handler's loop ends if and only if no expired timer asks for a delay of zero or the clock passes the tick of entry |
| `Timer.EndsAtAnyRate` | src/timer.c:61-62 | the loop ends for every queue and clock if and only if there are at least 256 ticks a second |
| `Timer.ZeroDelayRepeats` | src/timer.c:61-64 | below 256 ticks a second the scheduling timer can put the queue back as it was |
| `Timer.HandlerCorrect` | src/timer.c:90-126 | the handler fires exactly the expired timers of the queue, in list order, whether or not its callbacks find memory; afterwards the queue is sorted, nothing in it has expired, and timers left and fired are those that were there and those inserted |
| `Timer.AddKeepsArmed` | src/timer.c:155-203 | `add_timer` leaves every pending timer with an enabled interrupt |
| `Timer.AddKeepsTimely` | src/timer.c:168-202 | `add_timer` sets the comparator only for a new head: it stays within the lag of the first expiration, so no pending timer is put off |
| `Timer.InterruptKeepsArmed` | src/timer.c:90-120 | an interrupt raised by the comparator finds an expired timer, re-arms without underflow and leaves every pending timer armed |
| `Timer.InterruptKeepsTimely` | src/timer.c:113-120 | the handler re-arms for the first timer left, within the lag |
| `Timer.HandlerDisables` | src/timer.c:97-120 | the interrupt stays disabled if nothing fired or no timer is left |
| `Timer.HandlerRearmsExactly` | src/timer.c:113-120 | pending timers stay armed if and only if the handler is entered with an expired head or an empty queue |
| `Timer.StepKeepsArmed` | src/timer.c:90-203 | insertions, comparator interrupts and `schedule` keep pending timers armed, and conserve the timers |
| `Timer.EveryRunStaysArmed` | src/timer.c:90-203 | over every run of these no pending timer is forgotten, and the timers pending and fired are together those at the start, added and put back |
| `Timer.EveryRunStaysTimely` | src/timer.c:90-203 | over every run the comparator stands between the first expiration and that plus the ticks that pass inside an event: no timer fires early and no interrupt is late |
| `TimerObject.TimerQueue.FindPlace` | src/timer.c:178-189 | the walk stops where the timer belongs: NULL exactly for the head, otherwise after the last timer that expires earlier |
| `TimerObject.TimerQueue.LinkHead` | src/timer.c:172-184 | insertion at the head of the linked list |
| `TimerObject.TimerQueue.LinkAfter` | src/timer.c:190-195 | insertion in the middle; the forward list is right although `prev` is set on the wrong node |
| `TimerObject.TimerQueue.AddTimer` | src/timer.c:155-203 | `add_timer` on the linked list and the comparator, which only a new head sets; without memory nothing changes |
| `TimerObject.TimerQueue.Call` | src/timer.c:50-64 | the callbacks re-insert themselves if there is memory; `keep_schedule` asks for a switch in any case |
| `TimerObject.TimerQueue.FireExpired` | src/timer.c:100-111 | the handler's loop on the linked list computes the handled queue |
| `TimerObject.TimerQueue.Handler` | src/timer.c:90-126 | the handler's loop and its re-arming compute the handled system, and a switch is asked for if and only if one was pending or a fired timer was the scheduling one |
| `Uart.RxStepKeeps` | src/uart.c:224-271 | every statement of `uart_async_getc` and every interrupt between them keeps the ring and what was returned consistent |
| `Uart.ReceivedInOrder` | src/uart.c:224-271 | over every interleaving, what `uart_async_getc` returned is a prefix of what the handler stored and the ring holds the rest in order |
| `Uart.RxHandlerStores` | src/uart.c:224-234 | the handler stores the character whenever there is room, and on a full ring only disables the interrupt |
| `Uart.GetcReturns` | src/uart.c:261-271 | a call returns the oldest character, or enables the interrupt on an empty ring |
| `Uart.TxStepKeepsExactly` | src/uart.c:244-298 | a statement of `uart_async_putc` or an interrupt between two of them keeps ring and history consistent if and only if it does not move the head onto the tail |
| `Uart.SentInOrder` | src/uart.c:244-298 | over every interleaving, up to the first overrun: what was sent is a prefix of what was put, the ring holds the rest in order, and between calls a ring with characters in it has its interrupt enabled |
| `Uart.SentInOrderExactly` | src/uart.c:244-298 | over a whole run this holds at every point if and only if the ring is never overrun |
| `Uart.CallPutsAll` | src/uart.c:279-298 | however a call is interrupted, once it is over it has put its character, with a line feed after a carriage return, and on a full ring nothing |
| `Uart.RoomKeepsOrder` | src/uart.c:281-291 | where no carriage return is put with exactly one free slot, the ring is never overrun, whatever the interleaving |
| `Uart.CrCallExactly` | src/uart.c:279-298 | a carriage return put with no call in progress keeps the order under every interleaving with the handler if and only if the ring is full or has two free slots |
| `Uart.CrNeedsTwoSlots` | src/uart.c:281-291 | a carriage return and its line feed arrive if and only if two slots were free; with one free slot everything in the ring is lost |
| `Uart.Buffer.RxInterruptHandler` | src/uart.c:224-234 | appends the character, or disables the interrupt if and only if the ring is full |
| `Uart.Buffer.AsyncGetc` | src/uart.c:261-271 | the oldest character, or nothing and the interrupt enabled if the ring is empty |
| `Uart.Buffer.TxInterruptHandler` | src/uart.c:244-253 | the oldest character goes out, or the interrupt is disabled if the ring is empty |
| `Uart.Buffer.AsyncPutc` | src/uart.c:279-298 | the effect on the contents in every case, carriage return with one free slot included |
| `Cpio.HexRoundTrip` | src/utils.c:12-28 | `hex_to_uint` reads back every number spelt in up to eight hexadecimal digits of either case |
| `Cpio.HexToUintLoop` | src/utils.c:12-28 | the loop computes the 32-bit value of the digits, other characters counting as zero |
| `Cpio.Align4` | src/utils.c:99-101 | the least multiple of four that is no smaller |
| `Cpio.PackedArchive` | include/cpio.h:8-23 | members written with their sizes in eight digits and padded to four bytes, followed by a trailer and anything at all, are an archive in the sense of the walks below |
| `Cpio.ReadHeader` | src/cpio.c:88-95 | wherever a member stands in the archive, the magic, both sizes, the name and the data are read back at the offsets of the header |
| `Cpio.CpioList` | src/cpio.c:10-39 | the walk ends and lists exactly the names, in the order of the archive, stopping at the trailer or at bytes that are no header |
| `Cpio.CpioGetFileSize` | src/cpio.c:131-166 | the length of the data of the first member with the name, 0 if there is none |
| `Cpio.CpioGetExec` | src/cpio.c:86-128 | for a present name the address and a copy of exactly the data of the first member with the name, the same member whose size `cpio_get_file_size` gives |

## Left out

- PageAllocator.PageAllocator.Free: a pointer to a block that is neither owned nor on a list, or into the middle of a block, is outside the allocator's contract
- PageAllocator.PageAllocator.Reserve: only for intervals whose pages are all free; over reserved pages the splitting loop tests `order` alone
- KernelAllocator.KernelAllocator.FreelistPush: the words of the chunk headers are kept as two maps by address; payloads are not stored, since `SlabLaws.Separation` keeps them apart from every header
- KernelAllocator.KernelAllocator.Kfree: pointers inside the memory whose chunk is not on a list already, since the source tests neither
- KernelAllocator.KernelAllocator.Free: pointers that a caller owns, or NULL
- VfsObject.FileSystem.MakeNode: the copy of the path never fails there, only the allocations of tmpfs; opening a file after a failed create is not modelled
- VfsObject.FileSystem.MountTmpfs: the registry of file systems and its errors, mounts of other file systems, and a failing copy of the path
- VfsFrames.EveryRunLooksUpSafely: `sys_chdir` passes the working directory itself as the target of the lookup, which clears it first, so that a relative chdir always fails there; the run keeps target and directory apart
- TmpfsFile.File.Write: capacities do not wrap around, bytes in a gap left by a seek are unspecified, and the refusal of directories is not repeated here
- SchedObject.Scheduler.ThreadCreate: the signal frame, whose allocation is not checked, and the stacks and file descriptors themselves
- SchedObject.Scheduler.LaunchThread: creating the thread succeeds; the source does not check it
- SchedObject.Scheduler.DoSchedule: the branch for a missing current task, which the invariant excludes, and the context switch beyond changing the current task; nothing in the source ever blocks a task, the branch is kept all the same
- TimerObject.TimerQueue.Handler: one atomic step, at 256 ticks a second or more, with no nested interrupt and no overflow of the tick counter; the text of timer messages plays no part
- Uart.SentInOrder: one thread sends at a time
- Cpio.CpioGetExec: for an absent name the source returns no value; names fit the 256-byte buffer, sizes do not wrap when aligned, and the magic is compared as six bytes
- `simple_alloc`, a bump pointer used before the page allocator exists
- initramfs, device files, `vfs_mknod` and `sys_chdir`
- fork, signals and system calls, which copy raw stacks and register state
- `src/tasks.c`, whose sorted insertion is that of the timer list, and `src/devicetree.c`, whose token walk is like the cpio walk
- `cpio_cat`, the shell, mailbox, framebuffer, power and bootloader: input and output
- hardware registers, assembly and logging
