# Memory, scheduling and locking of a small RISC-V kernel

A Dafny model of the kernel's page allocator, Sv39 page tables, memory system
calls, program loader, scheduler, object allocator and spinlocks, with proofs
about whole runs of them. `dafny verify dfyconfig.toml` checks everything.

Each part comes in up to two forms. Functions on values (`Zone`, `Vm`, `Cpu`,
`Slab`, `System`) carry the theorems. Classes (`Allocator`, `Memory`, `CpuCore`,
`Snub`) do what the C code does, with arrays, link fields and loops, and every
method is proved to compute the function of the same step.

| part | files |
|---|---|
| shared notions, bit arithmetic | `Basics`, `Bits` |
| buddy allocator | `BuddyModel`, `BuddyInvariant`, `BuddyCalls`, `BuddyRuns`, `BuddyInit`, `BuddyHalts`, `BuddyCount`, `BuddyRoundTrip`, `BuddyRestores`, `BuddyAllocator` |
| page tables and their clients | `Sv39`, `PageTable`, `PageMap`, `PageBudget`, `UserMemory`, `Loader`, `KernelMappings`, `FreeTables`, `ProcessImage`, `SpawnBudget`, `SpawnGivesBack`, `HeapBudget`, `AddressSpaces`, `SpawnHalts`, `MemoryManager` |
| lists, scheduler, timer, traps | `Rings`, `Scheduler`, `SchedulerBoot`, `SchedulerRuns`, `SchedulerSleep`, `SchedulerTurns`, `SchedulerCpu` |
| object allocator | `SlabModel`, `SlabRuns`, `SlabExact`, `SlabWaste`, `SlabAllocator` |
| spinlocks | `Spinlocks` |

## What the results say

**Buddy allocator.** Pages are named by index. `Invariant` says that the blocks
tile the range, the lists hold exactly the free heads, head metadata is truthful,
and every interior page that still carries a "free" mark is `Stale`: its
exclusive-or buddy at its old order lies in the same block. It is kept by every
step for any alignment of the base, so no stale page is ever merged
(`BuddyIsAHead`). A halt of `get_page_struct` is an explicit outcome. Two results
are exact conditions where the plain statement is false of the code:

- `free_pages` on a live block can halt. No run from boot halts if and only if the
  number of pages is a multiple of 1024 (`NeverHaltsExactly`; `SomeRunHalts`
  builds a halting run for every other size).
- `alloc_pages(k)` followed by `free_pages` restores the lists if and only if the
  popped block's index has bits k to o-1 clear and, below the maximum order, its
  buddy is in range (`RoundTrip`). Over runs: it does so in every state reached from
  boot if and only if the number of pages is a multiple of 1024 (`RestoresExactly`;
  for every other size `SomeRoundTripFails` finds a failing state at boot or one
  call later).

Pages are conserved: free and held pages add up to the size in every state reached
from boot (`BootRunConserves`).

**Page tables.** `Translate` is the map a table stands for. `VmOk` says that every
table page and user page is a live page of the allocator with exactly one role,
which is what rules out sharing. `map_page` and `unmap_page` refine map updates,
and the walk of section 4.3.2 of the RISC-V Privileged Architecture (version
20211203) over the same memory finds the same translation. `free_pagetable` stops
at three levels if and only if every mapped page has one of R, W, X.

`sys_sbrk` and `sys_munmap` are stated call by call. A growth succeeds if and only if
the free pages cover it and its missing tables; when it fails it has taken every free
page, keeps what it mapped, and leaves the break where it was (`SbrkExact`).
`sys_munmap` unmaps every page that holds a byte of the range, up to the first hole,
and frees exactly the frames behind them; a range that runs past the last 64-bit
address unmaps nothing and returns 0 (`MunmapExact`).

`create_proc` builds exactly the image it should (`CreateImage`, `CreateBytes`) and
leaves every other space alone, also when memory runs out half way. Its outcome is
decided by the number of free pages alone (`CreateExactly`): below one threshold it
returns NULL; from a second one on it succeeds and takes exactly that many pages;
in between it gets as far as the UART with fewer than two pages left and halts,
because the UART always needs two tables of its own. So a legal run of system calls
halts if and only if a `create_proc` is made between its thresholds or a page of the
kernel cannot be mapped (`RunHaltsExactly`, for multiples of 1024 pages), and such
runs exist from boot for every such size (`BootRunHalts`). A `create_proc` that
returns NULL gives back every table, and leaks exactly the pages it had taken for the
program (`CreateGivesBack`).

**Scheduler.** The queue invariant (`Consistent`) does not survive every trap, and
`TrapKeepsExactly` says which: a timer trap and an exit always keep it, a yield or a
refused sleep if and only if the run queue is non-empty, an accepted sleep if and
only if it is empty. An exit leaves its process in no queue if and only if the run
queue was empty; otherwise it is the same transition as a yield. The invariant holds
at boot, and the failing traps do arrive there: a yield of the lone shell loses it, and
with a second process created an accepted sleep corrupts the rings. A sleeper stays
asleep through every safe run until the first timer interrupt at or after its time.
A timer interrupt switches processes if and only if a sleeper is due, so without
sleepers whoever runs keeps the CPU (`NoPreemption`). A process that gives up the CPU
goes to the end of the queue and the first queued one runs (`GiveUpSwitches`), which
makes runs of such traps round robin (`EverybodyInTurn`).

**Object allocator.** `kfree` guesses the class from the address and always guesses
the 16-byte class. Objects nevertheless stay apart, fit their lists, and are never
lost, over every run that also lets other code take and free pages. A freed object is
the next one handed out for up to 16 bytes, and for no larger request (`FreedIsNext`).
The price of the
guess: a page-sized object never returns to its class, so asking for one and giving it
back, again and again, ends in NULL with nothing handed out (`AlternateEnds`).

**Spinlocks.** Any number of harts, any interleaving of the atomic steps.

## Assumptions

- One address space: `va_offset` is 0 and physical memory is mapped identically. The
  code mixes physical and virtual pointers (for example kernel/mm/mem.c:25 and 155,
  kernel/mm/pagetable.c:116, kernel/mm/snub.c:39 and 81), and the results hold only
  under this assumption.
- `page_array` has room for every page. With N pages between the first `early_alloc`
  and `USER_END` this fails exactly if N mod 257 = 1 (`MetadataSizing`), and the last
  entry then lies in page 0 (`LastEntryInPageZero`); the model of the allocator keeps
  that entry apart from other memory.
- Orders passed to `alloc_pages` are not negative; the size passed to `sys_sbrk` does
  not overflow when rounded up to a page (signed overflow has no defined result).
- The 64-bit clock does not wrap before a sleeper's wake-up time (SchedulerSleep.SleepsUntilDue).
- The time, sleep lengths, allocation sizes and event order are parameters. Memory is
  sequentially consistent; saving and disabling interrupts in `spin_lock` is one step.
- The memory of a frame is seen as 512 entries or as 4096 bytes; code uses one of the
  two views between two allocations of the frame.
- Callers free what they hold, unlock what they hold, and nest locks in the order
  cache, buddy, uart.

## Model

| member | source | states |
|---|---|---|
| Bits.BuddyIsXor | kernel/mm/mem.c:44-52 | the exclusive-or with one bit moves an index by exactly plus or minus 2^k, as that bit says |
| Bits.XorScale | kernel/mm/mem.c:47-49 | exclusive-or of byte offsets is exclusive-or of page indices, and keeps the offset inside the page |
| Bits.BuddyInvolution | kernel/mm/mem.c:44-52 | the buddy of the buddy is the block, and differs from it |
| Bits.SiblingInside | kernel/mm/mem.c:47-51 | inside a block with the bit clear, the exclusive-or buddy of an aligned node is its sibling and stays inside the block |
| Bits.FlipStaysBelow | kernel/mm/mem.c:47-51 | below a bound aligned to 2^m, flipping a lower bit stays below the bound |
| BuddyInvariant.BuddyIsAHead | kernel/mm/mem.c:231-236 | a page the merge loop accepts as buddy is the head of a free block of that order, never a stale interior page |
| BuddyInvariant.SplitStepKeeps | kernel/mm/mem.c:163-176 | halving the block in hand stays in range and keeps the invariant |
| BuddyInvariant.MergeStepKeeps | kernel/mm/mem.c:231-251 | merging with the buddy keeps the invariant, with the lower page as the doubled block in hand |
| BuddyCalls.AllocKeeps | kernel/mm/mem.c:140-194 | never halts; returns NULL exactly if no free block of order k or more exists; otherwise keeps the invariant and makes exactly the returned block live |
| BuddyCalls.AllocExact | kernel/mm/mem.c:149-193 | hands out the first block of the lowest order that has one, and leaves one upper half in front of each list from k to below that order; no other list changes |
| BuddyCalls.AllocCoalesced | kernel/mm/mem.c:149-176 | splitting leaves no two free buddies of one order |
| BuddyCalls.MergeKeeps | kernel/mm/mem.c:231-257 | the merge loop restores invariant and coalescing and changes no other live block |
| BuddyCalls.FreeKeeps | kernel/mm/mem.c:202-261 | freeing a live block keeps invariant and coalescing and makes exactly that block not live |
| BuddyCalls.MergeInRange | kernel/mm/mem.c:231-236 | with the size a multiple of the largest block no merge looks out of range |
| BuddyCalls.MergeAligned | kernel/mm/mem.c:231-257 | merging keeps every block at a multiple of its size |
| BuddyRuns.RunKeeps | kernel/mm/mem.c:140-261 | every run of allocations and frees of live blocks that does not halt keeps tiling, exact lists, truthful heads, harmless interiors, coalescing, and a ledger equal to the live blocks |
| BuddyRuns.HeldBlocksDisjoint | kernel/mm/mem.c:140-261 | blocks held by the client are in range and pairwise disjoint after every run |
| BuddyRuns.RunNeverHalts | kernel/mm/mem.c:14-26 | with a multiple of 1024 pages no permitted run halts |
| BuddyRuns.EverythingFreed | kernel/mm/mem.c:140-261 | then a run that ends with nothing held leaves exactly the order-10 blocks, one per 1024 pages |
| BuddyInit.MetadataSizing | kernel/mm/mem.c:85-98 | num_pages equals the entries reserved if and only if N mod 257 is not 1, and is one larger otherwise |
| BuddyInit.LastEntryInPageZero | kernel/mm/mem.c:85-102 | if N mod 257 is 1, the last entry of page_array starts exactly where page 0 starts; otherwise all entries lie before it |
| BuddyInit.InitLayout | kernel/mm/mem.c:77-98 | the address arithmetic of the boot allocator gives that page count and a page-aligned base |
| BuddyInit.GreedyIsGreatest | kernel/mm/mem.c:107-114 | the order loop picks the largest block that is aligned and fits |
| BuddyInit.InitTiles | kernel/mm/mem.c:104-123 | the boot loop tiles the range with free, naturally aligned blocks, at most one of each order below the largest |
| BuddyInit.BootRunKeeps | kernel/mm/mem.c:68-261 | the run invariant holds in every state reached from boot, whatever the alignment of the base |
| BuddyInit.UserEndAligned | kernel/mm/mapping.h:6 | USER_END is 4MB aligned |
| BuddyHalts.SomeRunHalts | kernel/mm/mem.c:14-26 | for every size that is no multiple of 1024, a permitted run from boot that halts |
| BuddyHalts.NeverHaltsExactly | kernel/mm/mem.c:202-261 | no permitted run from boot halts if and only if the size is a multiple of 1024 |
| BuddyHalts.BootFreedAgain | kernel/mm/mem.c:104-261 | freeing everything after any run restores the boot partition into order-10 blocks |
| BuddyCount.AllocCount | kernel/mm/mem.c:140-194 | alloc_pages(k) takes exactly 2^k free pages |
| BuddyCount.FreeGives | kernel/mm/mem.c:202-261 | freeing a live order-m block gives exactly 2^m pages back |
| BuddyCount.BootCount | kernel/mm/mem.c:104-123 | at boot every page is free |
| BuddyCount.RunConserves | kernel/mm/mem.c:140-261 | free pages and pages held add up to the same number after every permitted run |
| BuddyCount.BootRunConserves | kernel/mm/mem.c:68-261 | in every state reached from boot, free pages and held pages add up to num_pages |
| BuddyRoundTrip.RoundTrip | kernel/mm/mem.c:149-257 | alloc then free restores every list, order included, if and only if the popped block retraces |
| BuddyRestores.RestoresExactly | kernel/mm/mem.c:68-261 | alloc then free restores every list at every order in every state reached from boot, if and only if the size is a multiple of 1024 |
| BuddyRestores.SomeRoundTripFails | kernel/mm/mem.c:104-257 | for every other size, a run of at most one call after which it does not |
| BuddyRoundTrip.DoubleFreeIsNoOp | kernel/mm/mem.c:211-226 | a second free of the same page changes nothing |
| BuddyAllocator.BuddyOfBytes | kernel/mm/mem.c:44-52 | buddy_of on addresses is BuddyOf on page indices |
| BuddyAllocator.Allocator.constructor | kernel/mm/mem.c:68-132 | buddy_allocator_init builds the zone Init, valid and coalesced, in fresh arrays |
| BuddyAllocator.Allocator.AllocPages | kernel/mm/mem.c:140-194 | on arrays and linked lists, computes Alloc and keeps the structure valid |
| BuddyAllocator.Allocator.Unlink | kernel/mm/mem.c:238-244 | the pointer walk removes exactly the buddy from its list and disturbs no other list |
| BuddyAllocator.Allocator.MergeUp | kernel/mm/mem.c:231-257 | the merge loop computes Merge, or halts exactly where it does |
| BuddyAllocator.Allocator.FreePages | kernel/mm/mem.c:202-261 | on any address computes Free, halting exactly where it does; null and double frees change nothing; the invariant is back if the page is marked free or starts a block |
| Sv39.LeafPteRoundTrip | kernel/mm/mem.h:24-30 | the entry map_page writes is valid and decodes to the same address and flags |
| Sv39.TablePteRoundTrip | kernel/mm/pagetable.c:41-42 | the entry walk writes decodes to the new table with only V set |
| Sv39.LeafFlagsIdempotent | kernel/mm/pagetable.c:59-60 | flags that have V, A and D pass through map_page unchanged |
| Sv39.RightsAsked | kernel/mm/pagetable.c:59-60 | the R, W, X and U bits of an entry map_page writes are those asked for |
| Sv39.VpnDigits | kernel/mm/pagetable.c:5-9 | the three indices are the three nine-bit digits of the 27-bit page number |
| Sv39.IndexInjective | kernel/mm/pagetable.c:11-18 | the three digits give the page number back |
| PageTable.AllocPageFresh | kernel/mm/mem.c:134-194 | a page handed out is live, zeroed, nobody's before, and changes no translation |
| PageTable.NextTableKeeps | kernel/mm/pagetable.c:22-44 | one level of walk leads to the table with the right role and changes no translation |
| PageTable.WalkKeeps | kernel/mm/pagetable.c:19-47 | walk ends at the page's own entry; succeeding or failing half way it changes no translation of any space |
| PageTable.RoleUnique | kernel/mm/pagetable.c:35-42 | roots apart, no two frames have the same role: a table or user page is reachable in one way only |
| PageMap.MapRefines | kernel/mm/pagetable.c:49-63 | success adds exactly the binding if the page was unmapped and keeps an old one; failure changes no translation |
| PageMap.UnmapRefines | kernel/mm/pagetable.c:65-85 | fails exactly on an unmapped page; otherwise removes exactly that binding and frees exactly the frame behind it |
| PageMap.UnmapAbove | kernel/mm/pagetable.c:65-85 | on a mapped page above the user range: halts if the frame lies outside the allocator; a live frame, owned by a table or not, is freed, and no other; if it is somebody's user page, that page still translates to it |
| PageMap.UnmapNeverHalts | kernel/mm/pagetable.c:65-85 | with a multiple of 1024 pages unmapping never halts |
| PageMap.HardwareAgrees | kernel/mm/pagetable.c:11-47 | the hardware's walk, with its 44-bit page number and its fault on reserved bits, finds the kernel's frame and flags, always at level 0, if the leaf's bits are legal, and faults otherwise |
| PageBudget.WalkCost | kernel/mm/pagetable.c:19-47 | walk succeeds if and only if there are as many free pages as the root lacks tables for the page; it takes exactly those, and leaves none free when it fails |
| PageBudget.MapCost | kernel/mm/pagetable.c:49-63 | the same of map_page |
| PageBudget.TablesForPages | kernel/mm/pagetable.c:19-47 | mapping pages into an empty root takes, in any order, one table per first digit and one per pair of digits |
| UserMemory.GrowRefines | kernel/syscall.c:86-94 | growing maps every page of the range or fails; nothing outside it changes and no page in it loses its binding |
| UserMemory.ShrinkRefines | kernel/syscall.c:95-98 | shrinking unmaps every page of the range and changes nothing outside it |
| UserMemory.SbrkRefines | kernel/syscall.c:72-103 | success moves the break and maps or unmaps every page between the breaks; failure keeps the break and every old binding; translations outside never change |
| UserMemory.GrowThenShrink | kernel/syscall.c:72-103 | from an unmapped range, growing by n pages and shrinking by n restores every translation and the break |
| UserMemory.MunmapRefines | kernel/syscall.c:112-114 | the loop unmaps exactly the pages from the front of its range to its first hole and returns 0 exactly if there is none; nothing else changes |
| UserMemory.MunmapExact | kernel/syscall.c:105-117 | -1 for a zero size or an unaligned start; otherwise every page that holds a byte of the range is unmapped, up to the first hole, and exactly the frames behind them are freed, no byte of memory changing; 0 exactly if all were mapped; a range past the last address unmaps nothing and gives 0 |
| HeapBudget.SbrkExact | kernel/syscall.c:72-103 | -1 and no change for a zero size or a break out of bounds; otherwise growth succeeds if and only if the free pages cover the new pages and their tables and takes exactly those, a failed growth takes all free pages, and a shrink frees exactly the frames behind the pages it unmaps; the break moves by the size rounded up to pages |
| HeapBudget.GrowFresh | kernel/syscall.c:86-94 | a page that growing adds reads zero and can be read and written, not executed, from user mode; every live page keeps its contents |
| AddressSpaces.GrowShrinkRestores | kernel/syscall.c:72-103 | with a multiple of 1024 pages the shrink cannot halt, and the pair restores everything |
| AddressSpaces.BootIsOk | kernel/mm/mem.c:68-132 | boot with an empty kernel table satisfies the ownership invariant |
| AddressSpaces.SpawnKeeps | kernel/proc.c:114-263 | creating a process, its three supervisor mappings included, keeps the ownership invariant over all spaces, also when memory runs out half way |
| AddressSpaces.SysCallKeeps | kernel/syscall.c:72-117 | kernel mappings, create_proc, sbrk and munmap keep the ownership invariant unless they halt |
| AddressSpaces.RunSys | kernel/syscall.c:72-117 | every state of a legal run keeps it |
| AddressSpaces.SbrkInRun | kernel/syscall.c:72-103 | in a running system sys_sbrk changes memory as SbrkExact says, the process it names, and no other |
| AddressSpaces.MunmapInRun | kernel/syscall.c:105-117 | in a running system sys_munmap changes memory as MunmapExact says, and no process |
| AddressSpaces.SpawnInRun | kernel/proc.c:114-263 | in a running system create_proc adds one process with a new root and the whole image, or leaves every process, every owner and every table as they were |
| AddressSpaces.MappedOwner | kernel/mm/pagetable.c:65-85 | the frame behind a mapped user page is a live block owned by that page, so no unmap frees a frame twice |
| AddressSpaces.NoSharing | kernel/mm/pagetable.c:35-85 | after any run two user pages of any spaces share a frame only if they are the same page, and no user page maps a table |
| AddressSpaces.PerformHaltsExactly | kernel/start.c:135-166 | with a multiple of 1024 pages: a kernel mapping halts if and only if its tables cannot be had, create_proc if and only if the free pages lie between its thresholds, sbrk and munmap never |
| AddressSpaces.RunHaltsExactly | kernel/syscall.c:72-117 | then a legal run halts if and only if one of its calls is such a one when it is made |
| SpawnHalts.SomeLegalRunHalts | kernel/proc.c:228-233 | from every state with ample free pages, some legal run of create_proc (empty programs, placed anywhere) and sbrk halts |
| SpawnHalts.BootRunHalts | kernel/proc.c:228-233 | so from boot, for every positive multiple of 1024 pages |
| Loader.LoadHolds | kernel/proc.c:170-189 | the loop fills page after page and keeps the pages it has filled |
| Loader.LoaderCorrect | kernel/proc.c:170-189 | reading user address i through the page table gives byte i of the binary, then zeroes to the end of the page, with rights R, X, U; nothing else changes |
| ProcessImage.StackKeeps | kernel/proc.c:202-209 | the stack page is new, zeroed and writable; a failure to map it changes no translation |
| ProcessImage.ProcMapped | kernel/proc.c:149-155 | in an empty root, the pages of proc_t and the kernel stack are mapped and nothing else; failing half way keeps every other space |
| SpawnGivesBack.GiveBackGives | kernel/proc.c:265-291 | when the stack cannot be mapped, its page and the tables are free again, no other page is, and every other space stays intact |
| SpawnGivesBack.TakeDownGives | kernel/proc.c:282-283 | exactly the tables of the space are free again, and exactly its frames lose their owner |
| SpawnGivesBack.CreateGivesBack | kernel/proc.c:258-261 | when create_proc returns NULL no root is new, no frame has a new owner, every frame that was live is live with its bytes; the frames newly live are as many as the pages of the program the free pages allowed, each holding its piece of it; none for an empty program |
| ProcessImage.CreateKeeps | kernel/proc.c:114-263 | whether it succeeds or runs out of memory, every translation of every other space stays; it halts only if the UART is reached and cannot be mapped, or the size is no multiple of 1024 pages |
| ProcessImage.UartKeeps | kernel/proc.c:228-233 | adding the UART keeps what holds of the new process and every other space, or halts because it cannot be mapped |
| ProcessImage.FillImage | kernel/proc.c:170-219 | with nothing mapped in the user range before: the program and a zeroed stack page are mapped, the kernel's pages are copied, and every other page is as it was |
| ProcessImage.CreateImage | kernel/proc.c:114-263 | a new process maps its program, one zeroed writable stack page, proc_t, its kernel stack, the kernel's pages and the UART, each to its frame, and nothing else |
| ProcessImage.CreateBytes | kernel/proc.c:170-189 | reading its program gives the binary byte for byte, then zeroes to the end of the page, with rights R, X, U |
| ProcessImage.CreateSupervisor | kernel/proc.c:149-155 | the pages of proc_t, of the kernel stack and of the UART lead to their frames, readable and writable, not executable and closed to user mode |
| SpawnBudget.LoadCost | kernel/proc.c:170-189 | loading succeeds if and only if there is a free page per page of the program and per missing table, and takes exactly those |
| SpawnBudget.CopyCost | kernel/proc.c:91-112 | the kernel copy is complete if and only if its tables can be had; otherwise it leaves no page free |
| SpawnBudget.UartCost | kernel/proc.c:228-233 | the UART takes two tables, and the machine halts if and only if fewer than two pages are free |
| SpawnBudget.CreateExactly | kernel/proc.c:114-263 | the free pages decide: with a multiple of 1024 pages it returns NULL below the first threshold, halts between the two, where it reaches the UART with fewer than two pages, and from the second on succeeds, complete, taking exactly that many |
| KernelMappings.KernelPages | kernel/mm/mapping.h:8 | the kernel's virtual pages start at page number 0x7f80000, above the user range |
| KernelMappings.SourceIsTranslation | kernel/proc.c:94-101 | what the copy reads from the source is its translation |
| KernelMappings.CopyRefines | kernel/proc.c:91-112 | pages the destination lacks become exactly the source's kernel pages, all unless a map_page failed; old bindings stay and nothing else changes |
| KernelMappings.FlagsCopiedExactly | kernel/proc.c:103-106 | flags survive the copy if and only if A and D are set |
| KernelMappings.MappedFlagsCopied | kernel/proc.c:103-106 | entries that map_page wrote are copied with equal flags |
| KernelMappings.CopyAgrees | kernel/proc.c:91-112 | after a complete copy both tables agree in address, and in flags if and only if A and D are set, on every page the source maps |
| FreeTables.FreeTableIsFreeAll | kernel/mm/pagetable.c:103-117 | the recursion frees the tables in post-order, one call each |
| FreeTables.OrderExact | kernel/mm/pagetable.c:109-116 | the frames freed are the tables of the tree, each once, and no page |
| FreeTables.StopsExactly | kernel/mm/pagetable.c:109-115 | the recursion stops at three levels if and only if every mapped page has R, W or X |
| FreeTables.FreeAllLive | kernel/mm/pagetable.c:116 | freeing distinct live frames frees each, and no other, and halts only if the size is no multiple of 1024 |
| FreeTables.FreePagetableExact | kernel/mm/pagetable.c:103-117 | every table of the tree is freed exactly once, mapped pages stay live, and every other space stays intact |
| MemoryManager.Memory.WalkTables | kernel/mm/pagetable.c:19-47 | the loop over levels computes Walk |
| MemoryManager.Memory.Map | kernel/mm/pagetable.c:49-63 | computes MapPage |
| MemoryManager.Memory.Unmap | kernel/mm/pagetable.c:65-85 | computes UnmapPage |
| MemoryManager.Memory.FreePagetable | kernel/mm/pagetable.c:103-117 | the loop with recursion computes FreeTable and ends, by the height of the tree |
| MemoryManager.Memory.SysSbrkCall | kernel/syscall.c:72-103 | computes SysSbrk and updates heap_end in place |
| MemoryManager.Memory.SysMunmapCall | kernel/syscall.c:105-117 | computes SysMunmap |
| MemoryManager.Memory.LoadBinary | kernel/proc.c:170-189 | the loading loop computes Load |
| MemoryManager.Memory.CopyKernelMappings | kernel/proc.c:91-112 | the copying loop over addresses, up to an end that need not be page aligned, computes CopyLoop over page numbers |
| MemoryManager.Memory.CreateProcess | kernel/proc.c:114-263 | computes CreateProc, its three supervisor mappings, its failure paths and its halt included |
| Rings.AddTailRing | kernel/list.h:26-33 | list_add_tail appends to the ring |
| Rings.DelRing | kernel/list.h:35-41 | list_del removes the node from the ring and clears its links |
| Rings.AddTailFrame | kernel/list.h:26-33 | list_add_tail leaves other rings alone |
| Rings.DelFrame | kernel/list.h:35-41 | list_del leaves other rings alone |
| Scheduler.ScheduleKeeps | kernel/sched.c:23-71 | with somebody queued, schedule runs the first and puts the old process last, keeping the invariant |
| Scheduler.WakePartitions | kernel/timer.h:36-53 | the wake loop over linked rings is a stable partition of the sleep queue |
| Scheduler.TimerHandleKeeps | kernel/timer.h:24-58 | the sleep queue keeps exactly the processes not due, in order; the run queue gains the due ones, in order; needs_sched is set exactly if it was or somebody woke |
| Scheduler.TimerTrap | kernel/trap/trap.c:180-192 | a timer trap keeps the queue invariant |
| Scheduler.YieldTrap | kernel/trap/trap.c:38-41 | a yield keeps it if and only if the run queue is non-empty |
| Scheduler.SleepTrap | kernel/trap/trap.c:42-46 | an accepted sleep keeps it if and only if the run queue is empty |
| SchedulerSleep.StaysAsleep | kernel/trap/trap.c:64-236 | any trap but a timer interrupt at or after the wake-up time leaves a sleeper asleep with the same wake-up time |
| SchedulerSleep.SleepsUntilDue | kernel/syscall.c:49-70 | through every run of safe traps without such an interrupt the sleeper stays asleep, and the first such interrupt makes it runnable or runs it |
| SchedulerSleep.TimerSwitchesExactly | kernel/timer.h:24-58 | a timer interrupt changes the running process if a sleeper is due, and otherwise changes nothing at all |
| SchedulerSleep.NoPreemption | kernel/trap/trap.c:180-236 | through every run of timer interrupts that find no sleeper due, the CPU stays as it is, so no queued process runs |
| SchedulerTurns.GiveUpSwitches | kernel/trap/trap.c:231-235 | with somebody queued, a yield, an exit or a refused sleep puts the process last and runs the first queued one; sleepers, the other states and the rest of the queue stay |
| SchedulerTurns.GiveUpAlone | kernel/sched.c:59-71 | with nobody queued the idle process runs and nothing else changes, but for the zombie an exit leaves |
| SchedulerTurns.TimerSwitches | kernel/timer.h:24-58 | with sleepers due, the run queue gains them in order, the first runs, and the process it interrupts joins the end |
| SchedulerTurns.SleepSwitches | kernel/syscall.c:49-70 | an accepted sleep with somebody queued records now + 10000 ms ticks, runs the first queued process, and leaves the sleeper Runnable |
| SchedulerTurns.EverybodyInTurn | kernel/sched.c:27-44 | over every run in which processes give up the CPU, in whatever way, the one at position j first runs after j + 1 traps, and after a full turn the whole state is back |
| SchedulerBoot.BootIsConsistent | kernel/start.c:27-38 | the state boot leaves satisfies the queue invariant |
| SchedulerBoot.EnqueueKeeps | kernel/proc.c:245-247 | a created process joins the end of the run queue and the invariant stays |
| SchedulerBoot.BootYieldLosesShell | kernel/start.c:27-38 | at boot a yield of the shell breaks the invariant |
| SchedulerBoot.BootSleepCorrupts | kernel/proc.c:245-247 | with a second process created, an accepted sleep of the shell corrupts the rings and an exit equals a yield |
| Scheduler.SleepCorrupts | kernel/syscall.c:65-67 | with somebody queued, an accepted sleep leaves rings that no queue contents explain |
| Scheduler.ExitTrap | kernel/trap/trap.c:29-33 | an exit keeps the queues, and leaves its process a zombie in no queue if and only if the run queue was empty |
| Scheduler.ExitIsYield | kernel/sched.c:40-43 | otherwise schedule overwrites the zombie state: exit and yield are the same transition |
| Scheduler.TrapKeepsExactly | kernel/trap/trap.c:231-235 | the invariant after a trap holds if and only if the trap was safe, for every trap |
| SchedulerRuns.RunSurvivesExactly | kernel/trap/trap.c:64-236 | a run of traps keeps the invariant to its end if and only if each was safe when it arrived |
| SchedulerRuns.ScheduleRotates | kernel/sched.c:23-44 | repeated scheduling rotates the current process and the queue, taken together |
| SchedulerRuns.RoundRobin | kernel/sched.c:27-44 | the process at position j first runs after exactly j + 1 calls |
| SchedulerRuns.FullTurn | kernel/sched.c:27-44 | after n + 1 calls the whole state, links and process states included, is the original one |
| SchedulerRuns.SameLinks | kernel/list.h:25-41 | the queue contents determine every link field |
| SchedulerCpu.CpuCore.ListAddTail | kernel/list.h:26-33 | the four pointer writes compute AddTail |
| SchedulerCpu.CpuCore.ListDel | kernel/list.h:35-41 | the pointer writes compute Del |
| SchedulerCpu.CpuCore.HandleTimer | kernel/timer.h:24-58 | the safe iteration computes TimerHandle although it moves nodes between rings |
| SchedulerCpu.CpuCore.RunSchedule | kernel/sched.c:11-72 | computes Schedule |
| SchedulerCpu.CpuCore.SysSleepMs | kernel/syscall.c:49-70 | refuses 0 and more than a minute; otherwise computes FallAsleep |
| SchedulerCpu.CpuCore.HandleTrap | kernel/trap/trap.c:64-236 | computes Trap |
| SlabModel.SizeIndexExact | kernel/mm/snub.c:5-13 | the smallest class that fits, and none exactly above a page |
| SlabModel.KfreeGuess | kernel/mm/snub.c:77-105 | the guess is always class 0, and free_pages is reached exactly by addresses that are no multiple of 16 |
| SlabRuns.CarvedPage | kernel/mm/snub.c:46-55 | the carving loop lists exactly the multiples of the object size in the page, each once |
| SlabRuns.KmallocKeeps | kernel/mm/snub.c:25-65 | refuses only sizes above a page or for want of a page; otherwise hands out an object nobody had, large enough, and keeps the invariant |
| SlabExact.KmallocListed | kernel/mm/snub.c:25-62 | with a free object in the smallest class that fits, the first one is handed out and only that list loses it |
| SlabExact.KmallocCarves | kernel/mm/snub.c:38-62 | without one, NULL if no page is free; otherwise one page is taken, its last object handed out, and the class lists the others, last one first |
| SlabExact.FreedIsNext | kernel/mm/snub.c:77-105 | kmalloc of at most 16 bytes right after kfree(a) gives a and undoes the kfree; a larger request never gives a |
| SlabRuns.KfreeKeeps | kernel/mm/snub.c:77-105 | freeing an object handed out puts it on the 16-byte list, never reaches free_pages, and keeps the invariant |
| SlabRuns.ObjectsApart | kernel/mm/snub.c:46-55 | two different objects share no byte |
| SlabRuns.Run | kernel/mm/snub.c:25-105 | every state of a run of kmalloc, kfree and other page traffic keeps the invariant |
| SlabRuns.RunObjects | kernel/mm/snub.c:25-105 | after any run objects are pairwise disjoint and on live pages, handed-out ones fit their request, listed ones fit their class, and each object is in exactly one place |
| SlabWaste.AlternateTakes | kernel/mm/snub.c:77-105 | n turns of kmalloc(4096) and kfree take n pages for good and hand out nothing more |
| SlabWaste.AlternateEnds | kernel/mm/snub.c:25-105 | such turns are refused after at most as many as there are pages, with as much handed out as before |
| SlabAllocator.StoreMisses | kernel/mm/snub.c:58-59 | a write inside a live object cannot hit a list link |
| SlabAllocator.Snub.constructor | kernel/mm/snub.c:15-23 | nine empty caches with their sizes |
| SlabAllocator.Snub.SizeToIdx | kernel/mm/snub.c:5-13 | the counting loop finds the least class that fits, or -1 |
| SlabAllocator.Snub.CarvePage | kernel/mm/snub.c:39-55 | links threaded through the new page form the carved list, and older lists survive |
| SlabAllocator.Snub.Kmalloc | kernel/mm/snub.c:25-65 | computes Kmalloc with the lists threaded through object memory |
| SlabAllocator.Snub.Kfree | kernel/mm/snub.c:77-105 | computes Kfree; the object becomes the head of the first cache |
| SlabAllocator.Snub.Store | kernel/mm/snub.c:58-59 | a client's write inside its object leaves every list intact |
| Spinlocks.StepKeeps | kernel/spinlock.c:5-60 | every step keeps exclusion, exact lock bits, depth counting and interrupts off, and unlock never panics |
| Spinlocks.RunSafe | kernel/spinlock.c:5-60 | in every interleaving each lock has at most one holder, and interrupts are off wherever lock_depth is positive |
| Spinlocks.NoCircularWait | kernel/spinlock.c:15-18 | no chain of harts each spinning on a lock of the next closes into a circle |
| Spinlocks.SomeoneProgresses | kernel/spinlock.c:15-18 | a hart that cannot proceed waits, in the end, for one that holds a lock and can |
| Spinlocks.ProgressIsReal | kernel/spinlock.c:15-18 | such a hart has a step that moves it on and touches no other hart |
| Spinlocks.LockTaken | kernel/spinlock.c:5-19 | locking a free lock takes it, at any depth: one level deeper, interrupts off, the enable saved at the outermost level, nothing else changed |
| Spinlocks.LockBusy | kernel/spinlock.c:17-18 | on a held lock the attempt changes nothing |
| Spinlocks.LockReleased | kernel/spinlock.c:38-60 | unlocking frees the lock, one level up, and restores the enable exactly at the outermost level |
| Spinlocks.InterruptsRestored | kernel/spinlock.c:5-60 | outside all lock sections again, a hart's interrupt enable is what it was before |

## Left out

- `kernel/fs`: not part of the kernel's build.
- UART, console, shell, user-side stubs, `copy_from_user`, `copy_to_user` and debug dumps: device access and thin wrappers.
- Assembly, control registers, TLB fences, the context switch and the rest of `start.c`: only the initial states they leave, and the halt on a failed kernel mapping, are used.
- `free_proc` as a whole: of it the model has the freeing of the stack page and of the tables; the loaded pages stay live and leaked, as in the source.
- The `kzalloc` and `kfree` calls around `proc_t` and the kernel stack in `create_proc` and `free_proc`: where the objects lie is a parameter, and the object allocator is modelled on its own.
- SpawnGivesBack.GiveBackGives: without the two `kfree` calls, for the same reason.
- `spin_trylock`: unused, and a failed attempt leaves the lock depth raised.
- `kzalloc`: `kmalloc` followed by a `memset` inside the object.
- `list_add`, `list_for_each`: unused by the modelled code.
- Acquire and release ordering, and an interrupt between saving and disabling interrupts.
- Null `proc_t` arguments of the system calls: always a process in the callers.
- UserMemory.GrowThenShrink: for any memory size the second call is assumed not to halt; AddressSpaces.GrowShrinkRestores needs no such assumption for multiples of 1024 pages.
- PageMap.UnmapRefines: states pages of the user range, because frames mapped above it are not owned through the page table; PageMap.UnmapAbove states those.
- PageMap.UnmapNeverHalts: the same; above the user range the look-up does halt (PageMap.UnmapAbove).
- MemoryManager.Memory.SysMunmapCall: requires the range to stay inside the user range or to reach the last page of the 64-bit addresses, for the same reason.
- UserMemory.MunmapExact: the same.
- MemoryManager.Memory.SysSbrkCall: requires a size whose rounding does not overflow a signed 64-bit word, which has no defined result in the source.
- MemoryManager.Memory.LoadBinary: requires a binary of at most 2^39 bytes, the size of the virtual address space.
- MemoryManager.Memory: takes the page allocator as a value; its arrays are those of BuddyAllocator.Allocator.
- SlabAllocator.Snub.Kfree: requires an object handed out; `kfree` of any other multiple of 16 would write a link into memory the slab does not own.
- SlabRuns.Run: the caller frees only objects it was given, for the same reason.
