# bab-os: a Dafny model of the kernel's memory, task and ramdisk code

The project models the parts of the kernel that other code trusts blindly: the page
allocator, the kernel heap, the page tables, the task switcher with its mutexes and
condition variables, the producer and consumer built on them, the ramdisk image with its
reader, and the digit printer. Where the C code changes things in place there is a class or
a method that does the same, refining a description of the step on plain values; the
theorems are about those descriptions and about whole runs of them.

- `Bits`, `Words`, `Options`: powers of two, exclusive or, natural alignment; 32-bit
  little-endian words; an option type.
- `Buddy` is the buddy system on values: free lists and live allocations. `Pmm.Allocator`
  is `pmm.c` over an array of page records with linked free lists.
- `HeapSpec` is the heap's list of chunks on values. `Kheap.Heap` is `kheap.c` in byte
  memory, the 20-byte headers inside the memory they describe.
- `Paging` says how the processor reads two-level tables (section 4.3 of volume 3A of the
  Intel 64 and IA-32 Architectures Software Developer's Manual). `Vmm.Pager` is `vmm.c`,
  with its tables in pages of `Pmm.Allocator`. `Reach` says which pages the allocator hands
  out when, and so which tables the kernel can write; `HeapPages` are the pages behind the
  heap; `Boot` is the memory setup of `kmain`.
- `Sched` is the timer callback on values, `Sync` the transition system of tasks, mutexes
  and condition variables, `Waiting` its whole runs, `Kernel.System` the same steps on
  linked records, and `ProducerConsumer` the two tasks of `main.c`, statement by statement.
- `Image` is `tools/mkinitrd.py`, `Initrd` is `initrd.c`.
- `Itoa` is the digit printer of `stdlib.c`.

Some results are about what the code does not do. Each gives the exact condition and an
input that fails.

- `vmm_map_page` writes a new page table at its physical address, which works for pages
  that are mapped to themselves: with the boot code's tables as well as with those of
  `vmm_init`, the first 8 MB. The allocator hands out pages below 8 MB first
  (`Reach.NextPage`), and in `kmain`'s region there are 768 of them. So `vmm_init` halts on
  a page fault exactly if it needs more than 767 tables (`Boot.InitReach`). The size of the
  frame buffer is the product of two 16-bit numbers, height and pitch, taken as a signed
  int. As long as it stays below 2^31, `vmm_init` needs at most 517 (`Boot.EnoughTables`);
  if the multiplication overflows, there can be too many, as for 0xFFFF and 0xFFFF, where it
  wraps around to an unsigned 0xFFFE_0001 (`Boot.TooManySlots`).
- The heap takes these pages, too. When its first 4 MB are mapped none is left, so
  `kmalloc` halts once the heap would have to grow past 0xD040_0000, with most of the memory
  still free: `Boot.HeapFromBoot`, `Boot.GrowthLimit`. As the first request after
  `kheap_init`, `kmalloc(4 MB)` fails; `Boot.SetUpHeap` has the exact limit.
- `kmalloc_a` need not return. If no hole suits and the last chunk is a hole whose data
  address is 1 to 20 bytes short of a page boundary, expanding only lengthens that hole:
  `HeapSpec.OneExpansion` says that one expansion suffices exactly if this is not so, and
  `HeapSpec.StuckForever` that otherwise no number of expansions helps.
  `HeapSpec.StuckReached`: `kmalloc(0x10_0000 - 48)` and then `kmalloc_a(1)` on the heap of
  `kheap_init`. `Boot.StuckUntil` says when the recursion halts after all.
- `kmalloc_a(0)` can find a hole that is all padding. The first split is then refused, and
  the code serves the request from the next chunk, which is live or does not exist.
  `HeapSpec.AllPadding` has the exact condition, `HeapSpec.AllPaddingReached` an input.
- `kmalloc_internal` adds padding and size in 32 bits. `HeapSpec.TestIsRight`: its test of a
  hole is right exactly if the sum does not wrap around, or what is left of it is still too
  large; `HeapSpec.TestFails` has an input. Nothing that can be served comes near
  (`Kheap.ServableSize`).
- `initrd_read` computes `offset + size` in 32 bits. `Initrd.ClipIsRight`: the number of
  bytes it copies is right exactly if that sum does not wrap around, or the offset is
  behind the end; `Initrd.ClipFails` has an input.
- The frame buffer loop of `vmm_init` steps from the first byte of the frame buffer.
  `Vmm.FrameBufferCovered`: it reaches every page of it exactly if the part of a page in
  front of that byte fits into the last step; `Vmm.LastPageMissed` has one for which it does
  not.

A comment in `mutex.c` (line 31) says that yielding enables interrupts. It does not: the
interrupted flags come back with the task, so a task resumed inside `mutex_lock` still has
interrupts off. The model follows the code.

Time is counted in calls of `timer_callback`. `task_yield` raises the timer's interrupt and
so counts, too; every method of `Kernel.System` says by how much it advances `tick`.

## Model

| member | source | states |
|---|---|---|
| Bits.XorIsBuddy | src/kernel/mm/pmm.c:89 | `page_idx ^ (1 << order)` is the other half of the enclosing run: 2^order up from a lower half, 2^order down from an upper half |
| Buddy.Laminar | src/kernel/mm/pmm.c:88-104 | of two naturally aligned blocks with a common page, the one of the smaller order lies inside the other |
| Buddy.MateIsHead | src/kernel/mm/pmm.c:92-95 | a managed buddy of a live block is the head of a live block of at most that order, never an interior page |
| Buddy.TakeKeeps | src/kernel/mm/pmm.c:63-64 | taking the first block of a list keeps the partition of the managed pages into free and used blocks, and full coalescing |
| Buddy.HalveKeeps | src/kernel/mm/pmm.c:67-74 | so does splitting a block in hand and listing its upper half |
| Buddy.AbsorbKeeps | src/kernel/mm/pmm.c:97-103 | so does merging a block in hand with its free buddy |
| Buddy.ReleaseKeeps | src/kernel/mm/pmm.c:106-108 | so does listing a block in hand whose buddy is not free |
| Buddy.AllocKeeps | src/kernel/mm/pmm.c:60-82 | an allocation adds exactly one live block, of the order asked for, well placed and at a head not in use, or fails and changes nothing |
| Buddy.FreeKeeps | src/kernel/mm/pmm.c:84-109 | freeing a live block removes exactly that allocation and keeps the partition and full coalescing |
| Buddy.Conservation | src/kernel/mm/pmm.c:60-109 | free pages and used pages are disjoint and together are the managed pages; their numbers add up to a constant |
| Buddy.RunInOneBlock | src/kernel/mm/pmm.c:60-109 | a naturally aligned run of free pages lies inside a single free block |
| Buddy.CanonicalFreeBlocks | src/kernel/mm/pmm.c:40-109 | the free blocks are exactly the maximal naturally aligned runs of free pages: a function of the set of free pages alone |
| Buddy.OutOfMemoryIffNoFreeRun | src/kernel/mm/pmm.c:60-82 | an order is refused exactly if it is MAX_ORDER or more or no naturally aligned run of that order is entirely free |
| Buddy.AllocTakesFreePages | src/kernel/mm/pmm.c:60-82 | the pages of a granted block were free, and exactly they stop being free |
| Buddy.BestFit | src/kernel/mm/pmm.c:60-74 | an allocation is the beginning of a maximal aligned run of free pages, and of one of the least order that is large enough |
| Buddy.FreeReturnsPages | src/kernel/mm/pmm.c:84-109 | exactly the pages of the freed block become free |
| Buddy.FreedFirst | src/kernel/mm/pmm.c:60-109 | the run that a freed block becomes a part of is the next of its order to be handed out; if the block did not merge, allocating its order again gives it back and undoes the free |
| Buddy.GreedyFits | src/kernel/mm/pmm.c:46-51 | the order the inner loop picks is aligned, fits, and no larger one does |
| Buddy.AddRegionKeeps | src/kernel/mm/pmm.c:40-58 | adding the rest of a region tiles it exactly, with no two free buddies |
| Buddy.RegionInv | src/kernel/mm/pmm.c:40-58 | a region on a fresh allocator: all its pages and no others are managed and free, fully coalesced |
| Buddy.RunKeeps | src/kernel/mm/pmm.c:60-109 | every run of allocations and frees keeps the invariant and the managed pages |
| Buddy.RunsAgree | src/kernel/mm/pmm.c:60-109 | two runs that leave the same pages free leave the same free blocks |
| Buddy.AllFreedRestores | src/kernel/mm/pmm.c:40-109 | once everything is freed, in whatever order, the free blocks are those the region started with |
| Pmm.MergeTestExact | src/kernel/mm/pmm.c:92-95 | the test of `flags` and `order` succeeds exactly if the buddy is a free head of that order, whatever stale values interior pages hold |
| Pmm.Allocator.ListAdd | src/kernel/mm/pmm.c:9-14 | the node becomes the first of its list; every list stays correctly linked both ways; besides the head, the links of the node and the back link of the old first page nothing changes |
| Pmm.Allocator.ListRemove | src/kernel/mm/pmm.c:16-20 | the node leaves its list; every list stays correctly linked both ways; only its two neighbours, or the head, change, and the node keeps its own links |
| Pmm.Allocator.constructor | src/kernel/mm/pmm.c:22-37 | all pages used and all lists empty |
| Pmm.Allocator.LargestOrder | src/kernel/mm/pmm.c:46-51 | the loop yields the largest order below MAX_ORDER that is aligned at the page and fits |
| Pmm.Allocator.AddRegion | src/kernel/mm/pmm.c:40-58 | exactly the pages of the region become free, in the blocks that `Buddy.Region` builds |
| Pmm.Allocator.SplitDown | src/kernel/mm/pmm.c:67-74 | the splitting loop on the records does what `Buddy.Carve` says |
| Pmm.Allocator.AllocPages | src/kernel/mm/pmm.c:60-82 | the records, lists and returned address are those of `Buddy.Alloc`; 0 stands for failure |
| Pmm.Allocator.FreePages | src/kernel/mm/pmm.c:84-109 | the records and lists are those of `Buddy.Free` |
| HeapSpec.PaddingByMask | src/kernel/mm/kheap.c:82-84 | masking the low 12 bits, bit by bit, yields the distance to the next page boundary |
| HeapSpec.SuitsMeans | src/kernel/mm/kheap.c:80-97 | a hole passes the tests exactly if the first data address in it, aligned if asked for, leaves room for the request, and in front for nothing or for a header and a byte |
| HeapSpec.PlaceShape | src/kernel/mm/kheap.c:91-104 | the two splits turn the hole found into an optional hole, the allocation and an optional hole, and touch no other chunk |
| HeapSpec.PlaceKeeps | src/kernel/mm/kheap.c:91-104 | serving a request keeps the tiling and leaves no two neighbouring holes |
| HeapSpec.PlaceGrants | src/kernel/mm/kheap.c:91-105 | exactly one live chunk is added, in the hole found, as far in front as alignment and a header in front allow, of the size asked for or at most a header more |
| HeapSpec.GrantedApart | src/kernel/mm/kheap.c:91-105 | it overlaps no live chunk |
| HeapSpec.ExtendKeeps | src/kernel/mm/kheap.c:55-68 | expanding keeps the tiling, the coalescing and the live chunks |
| HeapSpec.FreeShape | src/kernel/mm/kheap.c:122-136 | `kfree` leaves one hole over the freed chunk and the holes next to it |
| HeapSpec.FreeKeeps | src/kernel/mm/kheap.c:122-136 | `kfree` keeps the tiling and leaves no two neighbouring holes |
| HeapSpec.FreeLive | src/kernel/mm/kheap.c:113-137 | exactly the freed chunk stops being live |
| HeapSpec.RoundTrip | src/kernel/mm/kheap.c:71-137 | freeing an allocation just carved restores the previous list exactly, with alignment padding and rest |
| HeapSpec.NothingLive | src/kernel/mm/kheap.c:113-137 | a heap without live chunks is one hole over the whole span |
| HeapSpec.DeterminedByLive | src/kernel/mm/kheap.c:71-137 | the list of chunks is a function of the live chunks and the span: whatever lies between two of them is one hole |
| HeapSpec.DataInside | src/kernel/mm/kheap.c:113-114 | every chunk's data starts before the end of the heap, so no live chunk fails the bounds check of `kfree` |
| HeapSpec.PlaceNotEmpty | src/kernel/mm/kheap.c:91-104 | for which the last chunk must have a byte: serving a request keeps that |
| HeapSpec.FreeNotEmpty | src/kernel/mm/kheap.c:122-136 | so does freeing |
| HeapSpec.SpanIsFull | src/kernel/mm/kheap.c:28-69 | payload sizes and headers add up to the span |
| HeapSpec.GrowthIsLeast | src/kernel/mm/kheap.c:44-46 | the heap grows by the least number of pages for the request, its header, and a page more for alignment |
| HeapSpec.OneExpansion | src/kernel/mm/kheap.c:74-107 | after a failed scan, one expansion makes room, in the last chunk, exactly if the heap is not stuck |
| HeapSpec.StuckForever | src/kernel/mm/kheap.c:93-107 | a stuck heap stays stuck however often it is expanded |
| HeapSpec.StuckReached | src/kernel/mm/kheap.c:10-107 | one `kmalloc` on the heap of `kheap_init` can leave it stuck for `kmalloc_a(1)`, for good |
| HeapSpec.AllPadding | src/kernel/mm/kheap.c:84-100 | a hole that passes the test is unfit exactly if 0 bytes were asked for and the padding takes it all up; the split then does nothing and there is no hole behind it to go on with |
| HeapSpec.AllPaddingReached | src/kernel/mm/kheap.c:84-100 | one `kmalloc` on the heap of `kheap_init` can make `kmalloc_a(0)` meet such a hole |
| HeapSpec.TestIsRight | src/kernel/mm/kheap.c:84 | the 32-bit sum of padding and size tests a chunk rightly exactly if it does not wrap around, or what is left is too large as well |
| HeapSpec.TestFails | src/kernel/mm/kheap.c:84 | `kmalloc_a(0xFFFF_FFFF)` on the heap of `kheap_init` is a failing input |
| HeapSpec.StepKeeps | src/kernel/mm/kheap.c:71-137 | one call, expansion included, keeps the invariant, and adds exactly one allocation disjoint from all live ones, or removes exactly the freed one |
| HeapSpec.LowestFit | src/kernel/mm/kheap.c:71-108 | a request is served from the suiting hole of the lowest address; the heap grows only if there is none, and then serves it from the hole at its end |
| HeapSpec.RunKeeps | src/kernel/mm/kheap.c:71-137 | after every run the chunks fill the span, no two holes touch, and with nothing live there is one hole |
| HeapSpec.RunsAgree | src/kernel/mm/kheap.c:71-137 | two runs that leave the same chunks live in a heap of the same size leave the same list |
| Kheap.SplitRepresents | src/kernel/mm/kheap.c:28-41 | the bytes that `split_block` stores represent the split list and leave every live payload as it is |
| Kheap.JoinRepresents | src/kernel/mm/kheap.c:124-136 | so do the bytes of a merge |
| Kheap.LastBytesRepresent | src/kernel/mm/kheap.c:58-68 | so do the bytes stored at the end of `expand_heap` |
| Kheap.Heap.constructor | src/kernel/mm/kheap.c:10-25 | one hole over the initial megabyte, whatever its pages held, if a page and where needed a reachable table can be had for each; which pages are used up |
| Kheap.Heap.SplitBlock | src/kernel/mm/kheap.c:28-41 | memory represents the split list; live payloads unchanged |
| Kheap.Heap.ExpandHeap | src/kernel/mm/kheap.c:43-69 | the heap grows by the rounded size, as a longer last hole or a new one; live payloads unchanged; pages and tables are used as `Reach.HeapLoop` says, which must succeed |
| Kheap.Heap.MapPages | src/kernel/mm/kheap.c:12-15 | the mapping loop puts pages of their own behind the new addresses and leaves the bytes mapped before |
| Kheap.Heap.LastChunk | src/kernel/mm/kheap.c:55-56 | the walk ends at the last header |
| Kheap.Heap.FindHole | src/kernel/mm/kheap.c:72-97 | the scan, with its test in 32 bits, finds the first hole that suits, and its padding, for sizes of at least a page below 2^32 |
| Kheap.Heap.KmallocInternal | src/kernel/mm/kheap.c:71-108 | terminates after at most one expansion, serves the first hole that suits, and changes no live payload, unless the heap is stuck, the hole is all padding, or the expansion cannot be mapped |
| Kheap.Heap.Kmalloc | src/kernel/mm/kheap.c:110 | the same for `kmalloc`, which no heap is stuck for |
| Kheap.Heap.KmallocA | src/kernel/mm/kheap.c:111 | the same for `kmalloc_a`, a size of 0 included |
| Kheap.Heap.Merge | src/kernel/mm/kheap.c:124-136 | memory represents the list with the two chunks joined; live payloads unchanged |
| Kheap.Heap.Kfree | src/kernel/mm/kheap.c:113-137 | frees the chunk and merges both ways, other payloads unchanged; ignores pointers outside the heap and headers without the magic number; never ignores the pointer of a live chunk |
| Paging.SetEntry | src/kernel/mm/vmm.c:99 | writing the entry of a page changes the translation of that page only, and no table or directory slot |
| Paging.ClearFrame | src/kernel/mm/vmm.c:91-92 | clearing a new frame changes no translation |
| Paging.AddTable | src/kernel/mm/vmm.c:93 | entering an empty table changes no translation |
| Paging.EmptyDirectory | src/kernel/mm/vmm.c:38-40 | an empty directory maps nothing |
| Paging.OnlyThatPage | src/kernel/mm/vmm.c:82-103 | mapping a page translates each address in it to the new frame and every other address as before |
| Reach.OnePage | src/kernel/mm/pmm.c:60-82 | with a page left, order 0 succeeds, and exactly the page handed out stops being free |
| Reach.LowPageFirst | src/kernel/mm/pmm.c:60-82 | with all free blocks of less than the largest order below 8 MB, a page below 8 MB is handed out as long as one is free, and this stays so |
| Reach.RegionOrdered | src/kernel/mm/pmm.c:40-58 | a fresh region that starts below 8 MB and ends at a multiple of it is of that kind |
| Reach.NextPage | src/kernel/mm/pmm.c:60-82 | the next page lies below 8 MB exactly if such a page is free; by how much either kind shrinks |
| Reach.MapLoopCount | src/kernel/mm/vmm.c:44-63 | a mapping loop reaches all tables it makes exactly if there are at least as many free pages below 8 MB as slots in need of a table |
| Reach.HeapInTables | src/kernel/mm/kheap.c:49-52 | where the tables exist, the heap can take every page there is, those below 8 MB first |
| Reach.HeapNewSlot | src/kernel/mm/kheap.c:49-52 | the first heap page of a slot can be mapped exactly if two pages below 8 MB are free |
| Reach.HeapReach | src/kernel/mm/kheap.c:12-15 | from a new slot on the heap can have 1024 pages and not one more, or none |
| Reach.HeapLoopOn | src/kernel/mm/kheap.c:49-52 | expanding in several goes uses the same pages and tables as in one |
| Vmm.StillOwned | src/kernel/mm/vmm.c:91 | the page for a new table is neither the directory nor a table in use, and these are still reachable |
| Vmm.EntryBits | src/kernel/mm/vmm.c:93-99 | or-ing flags into a page address keeps address and flags apart |
| Vmm.Pager.constructor | src/kernel/mm/vmm.c:38-40 | an empty directory in a page of its own, which must lie below 8 MB |
| Vmm.Pager.MapPage | src/kernel/mm/vmm.c:82-103 | the flat page map changes at the given page only, to the given frame and flags; directory and tables lie in pages of their own that are mapped to themselves, provided the next free page is such a page when a table is needed; one page is used exactly then; all other pages of memory keep their contents |
| Vmm.Pager.MapRange | src/kernel/mm/vmm.c:44-46 | a mapping loop maps exactly its pages, up to the last page of the address space |
| Vmm.Pager.MapKernel | src/kernel/mm/vmm.c:44-69 | the three loops map exactly 8 MB to themselves, 8 MB at 3 GB, and the pages stepped through in the frame buffer; after the switch the new tables still reach themselves |
| Vmm.KernelTranslation | src/kernel/mm/vmm.c:42-63 | every 32-bit address translates as intended, or not at all, if the frame buffer keeps clear of the two ranges |
| Vmm.FrameBufferCovered | src/kernel/mm/vmm.c:58-63 | the exact condition for the loop to reach every page of the frame buffer |
| Vmm.LastPageMissed | src/kernel/mm/vmm.c:58-63 | with a frame buffer of 4096 bytes at 0xFD00_0800 its last byte is not mapped |
| HeapPages.FreshFrame | src/kernel/mm/kheap.c:50 | a page just handed out is behind no other page of the heap |
| HeapPages.Added | src/kernel/mm/kheap.c:49-52 | one round of the mapping loop keeps the frames of the heap distinct from each other and from all tables, and their contents |
| HeapPages.Backing.AddPage | src/kernel/mm/kheap.c:50-51 | the page allocator and the page tables after that round: the new heap page has a frame of its own, all others keep theirs |
| Boot.InitReach | src/kernel/mm/vmm.c:35-63 | on the region of `kmain`, `vmm_init` reaches all its tables exactly if it needs at most 767; how many pages are left then |
| Boot.TooManySlots | src/kernel/mm/vmm.c:58-63 | a height and a pitch of 0xFFFF are a failing input |
| Boot.EnoughTables | src/kernel/mm/vmm.c:35-63 | with a frame buffer of less than 2^31 bytes, at any address, `vmm_init` makes at most 517 tables and reaches them all |
| Boot.SetUp | src/kernel/main.c:141-148 | with `kmain`'s constants and at most 767 tables to make, the page tables are built and map what they should |
| Boot.HeapFromBoot | src/kernel/mm/kheap.c:12-15 | behind `vmm_init` the heap can have its first k pages exactly if k is at most 1024 and `vmm_init` made at most 765 tables |
| Boot.GrowthLimit | src/kernel/mm/kheap.c:43-53 | from m pages it can grow by k exactly if m + k is at most 1024 |
| Boot.FirstRequest | src/kernel/mm/kheap.c:71-107 | the first request fits, or can be made room for, exactly if it needs at most 3 MB; nothing else stands in its way |
| Boot.StuckUntil | src/kernel/mm/kheap.c:106-107 | the endless recursion of `kmalloc_a(1)` expands the heap 384 times before the mapping fails at 0xD040_0000 |
| Boot.SetUpHeap | src/kernel/main.c:141-151 | `kmain` up to the heap: the heap is one hole on pages of its own, and exactly the first requests of at most 3 MB can be served |
| Sched.PickIsFirst | src/kernel/task.c:81-90 | the search finds the first runnable task behind the start in cyclic order |
| Sched.TickIsFair | src/kernel/drivers/timer.c:9-13 | no runnable task, just woken ones included, is nearer behind the running task than the one picked |
| Sched.TickEffect | src/kernel/drivers/timer.c:9-13 | exactly the task picked runs; the preempted task is ready; sleepers count down; nothing else changes |
| Sync.CallbackKeeps | src/kernel/task.c:72-116 | a timer callback keeps the invariant, also in the middle of a kernel call |
| Sync.ParkKeeps | src/kernel/mutex.c:19-28 | blocking at the end of a queue keeps the queues disjoint and without duplicates |
| Sync.AcquireKeeps | src/kernel/mutex.c:35-37 | taking a free mutex keeps the invariant |
| Sync.ReleaseKeeps | src/kernel/mutex.c:40-54 | releasing keeps it, waking the first waiter making up for the others still queued |
| Sync.TryLockKeeps | src/kernel/mutex.c:12-38 | a round of `mutex_lock` keeps the invariant |
| Sync.WaitKeeps | src/kernel/cond.c:9-32 | the start of `cond_wait` keeps it |
| Sync.WakeAllKeeps | src/kernel/cond.c:52-62 | the drain loop keeps it |
| Sync.StepKeeps | src/kernel/mutex.c:12-54 | every step of every task keeps the invariant: one running task, blocked exactly if in one queue, owner and holders agree, no wakeup lost |
| Waiting.Safety | src/kernel/mutex.c:12-54 | after every run: mutual exclusion, unique queue places, and an unlocked mutex with waiters is about to be tested by a woken task |
| Waiting.NeverStuck | src/kernel/mutex.c:12-38 | after every run the running task can go on, or be interrupted |
| Waiting.NewTaskRuns | src/kernel/task.c:29-69 | every task created is ready at once, with all mutexes free, and runs from its beginning within n - 1 callbacks |
| Waiting.LockTried | src/kernel/mutex.c:12-38 | a call of `mutex_lock`, a round after being woken, and the call at the end of `cond_wait`: a free mutex is taken, nothing else changes and the task runs on; with a locked one the task is blocked, last in the queue, and another runs |
| Waiting.FirstComeFirstServed | src/kernel/mutex.c:19-54 | after every run, a queue holds the last of the tasks that came to it, in the order in which they came; the others left from the front, each when it was woken |
| Waiting.FrontLeaves | src/kernel/cond.c:38-62 | the tasks of a queue that a step makes ready are the ones at its front: one for a signal or an unlock, all for a broadcast |
| Waiting.WokenInTurn | src/kernel/mutex.c:19-54 | in every run, the task at place i of a queue is woken exactly when more than i tasks have been, and moves up by one for each until then |
| Waiting.WaiterWokenInTurn | src/kernel/cond.c:9-62 | a task that calls `cond_wait` is woken exactly when more tasks have been woken than waited when it came: no signal goes missing |
| Waiting.BroadcastWakesAll | src/kernel/cond.c:52-62 | exactly the waiting tasks become ready |
| Waiting.ReadyTaskRuns | src/kernel/task.c:72-94 | a ready task runs within as many callbacks as it is places behind the current one, still at the same place in its code |
| Waiting.AtMostAllOthers | src/kernel/task.c:72-94 | that is at most n - 1 with n tasks |
| Waiting.StoredRun | src/kernel/drivers/timer.c:44-47 | between its two stores in `sleep` a task keeps its ticks, whatever run comes in between |
| Waiting.SleepSetsTicks | src/kernel/drivers/timer.c:39-48 | the second store puts the task to sleep for max(1, ms / 10) callbacks, whatever run came in between |
| Waiting.SleeperWakes | src/kernel/task.c:105-116 | a task asleep for k ticks sleeps through k - 1 callbacks and is runnable after the k-th, exactly |
| Waiting.SleeperRuns | src/kernel/task.c:72-116 | it runs within k + n - 1 callbacks |
| Waiting.SleepBound | src/kernel/drivers/timer.c:39-50 | the same counted from within `sleep` itself |
| Waiting.WokenWaiterRetests | src/kernel/mutex.c:17-33 | with a mutex unlocked and tasks queued, the run gets within n - 1 callbacks to a task whose only possible step, not even an interrupt being one, ends with that task holding the mutex, or last in the queue if it was taken meanwhile |
| Waiting.UnlockedTaskTests | src/kernel/mutex.c:17-54 | after `mutex_unlock` with tasks queued, this happens to the one that queued longest |
| Waiting.SignalledTaskRuns | src/kernel/cond.c:32-50 | after `cond_signal` the task that has waited longest runs within n - 1 callbacks, still inside `cond_wait` |
| Waiting.SignalledTaskReturns | src/kernel/cond.c:32-50 | if it had yielded, it is then in front of the `mutex_lock` of `cond_wait`, whose step ends in the same way |
| Kernel.System.TasksUpdateSleepTicks | src/kernel/task.c:105-116 | the walk over the task list counts every sleeper down |
| Kernel.System.Schedule | src/kernel/task.c:72-94 | the do-while search terminates and picks the specified task |
| Kernel.System.TimerCallback | src/kernel/drivers/timer.c:9-13 | the records after the callback are those of `Sync.Callback` |
| Kernel.System.Append | src/kernel/mutex.c:20-28 | the walk along wait_next links the running task in at the end and changes no other link |
| Kernel.System.MutexLock | src/kernel/mutex.c:12-38 | a round of `mutex_lock` on the records is the step of `Sync`, all queues linked correctly through the one wait_next field |
| Kernel.System.MutexUnlock | src/kernel/mutex.c:40-54 | `mutex_unlock` on the records is `Sync.Release` |
| Kernel.System.CondWait | src/kernel/cond.c:9-30 | the start of `cond_wait` on the records is the step of `Sync` |
| Kernel.System.CondYield | src/kernel/cond.c:32 | so is its `task_yield` |
| Kernel.System.CondSignal | src/kernel/cond.c:38-50 | so is `cond_signal` |
| Kernel.System.CondBroadcast | src/kernel/cond.c:52-62 | so is `cond_broadcast`, with its loop |
| Kernel.System.SleepBegin | src/kernel/drivers/timer.c:39-46 | so is `sleep` up to its first store |
| Kernel.System.SleepMark | src/kernel/drivers/timer.c:47 | so is its second store |
| Kernel.System.SleepYield | src/kernel/drivers/timer.c:48 | so is its `task_yield` |
| Kernel.System.Interrupt | src/kernel/drivers/timer.c:9-13 | so is a timer interrupt |
| Kernel.System.constructor | src/kernel/task.c:13-27 | `task_init`, `mutex_init` and `cond_init` set up the start of a run with one task |
| Kernel.System.TaskCreate | src/kernel/task.c:58-67 | one more ready task at the end of the list |
| ProducerConsumer.OneInside | src/kernel/main.c:34-77 | producer and consumer are never both between entering and leaving the monitor |
| ProducerConsumer.RingProduced | src/kernel/main.c:41-48 | each of the producer's statements keeps the ring's contents in order |
| ProducerConsumer.RingConsumed | src/kernel/main.c:63-70 | so does each of the consumer's |
| ProducerConsumer.NotifiedIsOut | src/kernel/main.c:52 | after a notification the other task no longer waits |
| ProducerConsumer.EventKeeps | src/kernel/main.c:34-77 | every statement, kernel step and interrupt, of these and of other tasks, keeps the whole invariant |
| ProducerConsumer.GoodMeans | src/kernel/main.c:28-77 | what the invariant promises: consumed items are a prefix of 100, 101, ...; with the monitor free, ring and counters hold exactly the rest; not both are blocked |
| ProducerConsumer.NothingLostOrReordered | src/kernel/main.c:34-77 | the same after every run |
| ProducerConsumer.EveryRoundCounts | src/kernel/main.c:34-77 | after every run, as many items were produced and consumed as the tasks made notifications, plus the one each may be at |
| ProducerConsumer.ProducerRound | src/kernel/main.c:41-48 | with a free slot, four statements of the producer store one item, advance tail and count it; without one it goes on to wait |
| ProducerConsumer.ConsumerRound | src/kernel/main.c:63-70 | with an item there, four statements of the consumer take the oldest, advance head and count it off; without one it goes on to wait |
| ProducerConsumer.CallMeans | src/kernel/main.c:34-77 | what each kernel call in the loops comes to: 30 or 80 ticks of sleep, the mutex taken or the task queued, waiting in the right queue with the mutex free, the other task woken, the mutex free |
| Image.BaseName | tools/mkinitrd.py:33 | the part of the path behind the last slash |
| Image.ImageAt | tools/mkinitrd.py:28-48 | every header and every content is in the image where the header's offset says |
| Image.ImageBytes | tools/mkinitrd.py:24-48 | the image byte by byte: words with the least byte first, the magic number, the characters of the base name cut to 63 and filled up with zeros, offset and length, and the contents behind each other |
| Image.WritableMeans | tools/mkinitrd.py:24-42 | when packing fails: a number of more than 32 bits, or a character outside ASCII among the first 63 of a base name |
| Image.MakeImage | tools/mkinitrd.py:12-48 | the loops write exactly that image, or fail exactly if a step of packing does |
| Initrd.ImageUnpacks | src/kernel/initrd.c:51-53 | the reader finds name, offset, length and content of every file in the written image, at any address |
| Initrd.Ramdisk.Initialise | src/kernel/initrd.c:51-102 | every offset is relocated once and every node set up; no byte of memory outside the offset fields changes |
| Initrd.ClipIsRight | src/kernel/initrd.c:16-19 | the clipped size is right exactly if offset + size does not wrap around |
| Initrd.WrongClip | src/kernel/initrd.c:16-21 | otherwise all the bytes asked for are copied, over the end of the address space |
| Initrd.ClipFails | src/kernel/initrd.c:16-21 | so for 0xFFFF_FFFF bytes at offset 5 of ten |
| Initrd.Ramdisk.Read | src/kernel/initrd.c:14-22 | the bytes of the file from offset on, clipped at its end, and nothing behind them written |
| Initrd.Ramdisk.Readdir | src/kernel/initrd.c:24-38 | entry 0 of the root is dev, entry i + 1 is file i, and nothing else is listed |
| Initrd.Ramdisk.Finddir | src/kernel/initrd.c:40-49 | dev in the root, otherwise the first file of that name |
| Initrd.FoundByName | src/kernel/initrd.c:40-49 | a file is found by its name exactly if no earlier file, and not dev, has that name |
| Initrd.LookupMeans | src/kernel/initrd.c:40-49 | dev is found in the root only; else the first file of the name; nothing exactly if no file has it |
| Initrd.ListingEnds | src/kernel/initrd.c:24-38 | only the root lists anything, and nothing behind the last file |
| Initrd.ListAll | src/kernel/initrd.c:24-38 | calling it with 0, 1, 2, ... until there is nothing lists dev and then every file under its name and number |
| Initrd.ListedIsFound | src/kernel/initrd.c:24-49 | every listed name is found; the listed entry itself exactly if the name was not listed before |
| Initrd.ChunksAddUp | src/kernel/initrd.c:14-22 | consecutive reads of any sizes add up to one read |
| Initrd.ReadChunks | src/kernel/initrd.c:14-22 | reading a file chunk by chunk through the reader yields its content up to the sum of the sizes |
| Initrd.ReadBack | src/kernel/initrd.c:14-102 | writing an image, loading it anywhere, finding a file by the characters of its base name and reading it yields its content, if no file in front has the same first 63 characters, and they are not dev |
| Itoa.TextRoundTrip | src/common/stdlib.c:8-44 | parsing the text gives the value back, in base 10 with its sign down to the least integer, else modulo 2^32; no leading zeros |
| Itoa.DigitsInOrder | src/common/stdlib.c:31 | the digits are 0 to 9 and the small letters |
| Itoa.TextIsShort | src/common/stdlib.c:8-44 | text and terminator take at most 33 bytes, 12 in base 10; there is no text exactly for an unsupported base |
| Itoa.BackwardsReversed | src/common/stdlib.c:29-42 | the digits in order of extraction, reversed, are the digits |
| Itoa.PutDigits | src/common/stdlib.c:25-34 | the digit loop writes the digits backwards and nothing else |
| Itoa.Reverse | src/common/stdlib.c:38-42 | the in-place loop reverses exactly its range |
| Itoa.Print | src/common/stdlib.c:8-44 | the buffer holds the text and its terminator and is untouched behind it |

## Left out

- Frees with the wrong order or of dead pointers, unlocking by another task than the owner, and a second region or one containing page 0 are preconditions: the C code does not check them.
- Exhausted physical memory inside `expand_heap` and `vmm_map_page`: the C code uses page 0 then. `Reach.MapOne` and `Reach.HeapOne` give None there as for a table out of reach; on `kmain`'s region the tables run out first.
- Sizes and addresses that wrap around 32 bits in the heap and the page tables are excluded by preconditions. Where wrapping can be reached with ordinary arguments it is modelled (`initrd_read`, `itoa`, the relocation of offsets).
- Kheap.Heap: its bytes are a sequence of their own beside the page contents of `Vmm.Pager`. `HeapPages.Backing` shows that every heap page has a frame to itself and that mapping more pages changes none of these frames, so the two could not be told apart.
- Initrd.Ramdisk.Read: requires that offset + size does not wrap around with the offset inside the file. By `Initrd.WrongClip` such a read copies past the end of the address space.
- Initrd.ReadChunks: for the same reason its sizes must not wrap around when added to the length of the file.
- Boot.SetUpHeap: the frame buffer lies behind the memory and needs no table for the first 8 MB of the heap's addresses.
- The boot code's tables (kernel_entry.asm) enter as the fact that the first 8 MB are mapped to themselves.
- Access rights, write-back of accessed and dirty bits, and the TLB: `invlpg` is a no-op and the flags are only stored.
- Kernel.System.TaskCreate: only before interrupts are enabled, as in `kmain`; stacks, page directories and task ids are not modelled.
- `Sync` lets a task lock a mutex that it holds; it then waits for itself, as in the code. Nothing is claimed about fairness of `mutex_lock`: a woken waiter can be overtaken and goes to the end of the queue.
- The endless loops of producer and consumer are statements of a transition system, so that other tasks can come in between. Loads and stores of one C statement of the producer and consumer are one step; they are all made while the monitor is held. Printing is left out.
- The keyboard driver, which locks a mutex in an interrupt handler, and the shell: user interface, and outside the assumption that the idle task never blocks.
- Boot assembly, descriptor tables, interrupt controller and timer programming, context-switch stack contents, terminal and fonts: no state worth proving here.
- `vfs.c` and `monitor.c` only forward; they are inlined.
- File names with a NUL byte, which no file system has, and the partial output file left behind when the script fails.
