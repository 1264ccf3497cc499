# Verified model of the Oppo-OS kernel core

Oppo-OS is a small RISC-V kernel. This project models the parts of it that hold its hard state, and proves what they are for:

- **The buddy allocator** (`klib/stdlib.c`). Eleven intrusive free lists whose `next` words live inside the free blocks. `Buddy`, `Tiling`, `BuddyInvariants`, `BuddyInit`, `BuddyCanonical`, `BuddyRuns` and `BuddyLaws` treat the lists as values and prove the theorems over every run; `Memories`, `FreeLists` and `Heaps` hold the bytes of RAM, the `free_lists` array and the code that works on them.
- **Sv39 page tables** (`arch/paging.c`). `PageEntries`, `PageTrees` and `Paging`: tables are pages of that same heap, read and written as its bytes; a ghost map gives every frame its role. `Sv39` is the standard's own translation, written independently, and `Hardware` says what it makes of the mappings of `map_page` and the address spaces of `create_process`.
- **Processes** (`kernel/schedule/proc.c`, `arch/trap.c`). `Images` builds address spaces on the heap and the tables, `Processes` is the process table on top of them, `Scheduler` has the runs of the scheduler, `TrapContext` the machine of traps, context switches and returns with its runs, `TrapCode` the register and stack code itself, and `Systems` the process table and the processor together, where `yield`, `proc_exit` and `create_process` are steps of that machine.
- **The virtqueue and the block driver** (`drivers/virtio`). `Virtqueues` is the driver/device protocol with one step for each driver statement and a device that moves one byte at a time, in any order; `BlockDrivers` is `read_write_disk` running beside such a device.
- **Two loop algorithms**: `Strings` (`strchr`, `strtok_r`) and `Radix` (`utoa`).

The layers rest on each other: `create_process` runs `map_page`, which runs `kalloc`, which runs the buddy lists in RAM, all on one heap object; that a page is fresh, zeroed and nobody else's is proved from the layer below.

## Reading guide

Addresses, sizes and words are natural numbers; where the source's width matters (64-bit words and products, 16-bit ring indices, 32-bit flags, the 44-bit `PPN_MASK`) it is written out. A null pointer is 0 or `None`. Code that updates state is a method of a class whose contract gives the new state as a function of the old one, and the theorems are about that function. `PANIC` is an out-parameter (`panicked`, with nothing changed) or a state that has no further steps.

Three laws of the allocator depend on how the heap is aligned. `linker.ld` aligns it to 4096 only, while `buddy_addr` flips bits of absolute addresses. Tiling, contiguous merges, conservation and "no two free buddies" need no more than that. Exact inversion, history independence and allocation completeness are each proved to hold in all runs if and only if the heap starts aligned to its own largest initial block (`BuddyRuns.HeapAligned`, which 4 MiB alignment implies).

Where the code and its comments differ, the code is modelled:

- `klib/stdlib.h` says `kalloc` allocates one page and returns NULL when there is none. The code allocates `n` pages and clears them without looking at the result, so `Kalloc` requires that the allocation succeeds; failure is modelled at `KallocOrder`.
- `PPN_MASK` is 44 bits wide but applied after a shift by 10, so an entry holds addresses below 2^46 only.
- `kfree_size` rounds up with a 64-bit sum, which wraps for sizes within a page of 2^64.
- `vaddr_to_paddr` ignores address bits above 38 and returns 0 both for "not mapped" and for physical address 0.
- `map_page` accepts flags that ask for writing without reading. `vaddr_to_paddr` translates such pages; the Sv39 hardware faults on them. `Hardware.LeafAcceptedIff` is the exact condition.
- `utoa` has room for 32 digits, which 64-bit numbers exceed in bases 2 and 3.

## Model

| member | source | states |
|---|---|---|
| Bits.XorPow2 | klib/stdlib.c:29-32 | XOR with `1 << k` adds the power when bit `k` is clear and subtracts it when it is set, for every address |
| Buddy.BuddyIs | klib/stdlib.c:29-32 | at any alignment the buddy of a block is the block directly above or directly below it |
| Buddy.BuddyInvolution | klib/stdlib.c:29-32 | the buddy of the buddy is the block itself, and never the block |
| Buddy.FirstFit | klib/stdlib.c:60-66 | the search finds the least order from `k` on with a free block, or there is none |
| BuddyInvariants.AllocSound | klib/stdlib.c:57-91 | allocation hands out a block of the order asked for that was neither free nor in use, and free and used blocks still tile the heap |
| BuddyInvariants.AllocShape | klib/stdlib.c:68-90 | an allocation takes the head of the first fit and leaves exactly one right half in every order it split through |
| BuddyInvariants.AllocCoalesced | klib/stdlib.c:57-91 | allocation never leaves a block free together with its buddy |
| BuddyInvariants.MergeSound | klib/stdlib.c:107-126 | a merge of a block with its buddy is one contiguous block, at any alignment, and the tiling stands |
| BuddyInvariants.FreeSound | klib/stdlib.c:102-138 | freeing a block in use keeps the tiling through all its merges |
| BuddyInvariants.FreeCoalesced | klib/stdlib.c:102-138 | after a free no block below the top order is free together with its buddy |
| BuddyInvariants.AllocAligned | klib/stdlib.c:57-91 | with aligned lists, the block handed out and all blocks left are aligned to their sizes |
| BuddyInvariants.FreeAligned | klib/stdlib.c:102-138 | freeing an aligned block keeps every free block aligned to its size |
| BuddyInit.InitSound | klib/stdlib.c:34-55 | the initial blocks tile exactly the whole pages of the heap |
| BuddyInit.InitExact | klib/stdlib.c:41-53 | initialisation makes `pages / 1024` top-order blocks and, below them, the blocks of the binary expansion of the rest, laid end to end |
| BuddyInit.TopRunAt | klib/stdlib.c:41-53 | where each of the top-order blocks lies and in which order the list has them |
| BuddyInit.InitCoalesced | klib/stdlib.c:34-55 | no two buddies start free |
| BuddyInit.InitAligned | klib/stdlib.c:34-55 | a heap aligned to its largest initial block starts with every block aligned to its size |
| BuddyCanonical.FreeRunInOneBlock | klib/stdlib.c:102-138 | in canonical lists every aligned, wholly free run lies inside one free block |
| BuddyCanonical.SameBytesSameBlocks | klib/stdlib.c:102-138 | canonical lists with the same free bytes have the same blocks at every order |
| BuddyCanonical.AllocComplete | klib/stdlib.c:57-66 | in canonical lists allocation fails exactly when no aligned run of the size asked for is wholly free |
| BuddyRuns.ReachableInv | klib/stdlib.c:34-138 | in every run free and used blocks tile the heap's whole pages and no two buddies below the top order are free, for any page-aligned heap |
| BuddyRuns.Conservation | klib/stdlib.c:34-138 | in every run the free and used bytes add up to the heap's whole pages |
| BuddyRuns.AllocBytes | klib/stdlib.c:57-91 | an allocation takes exactly the bytes of its order off the lists |
| BuddyRuns.FreeingBytes | klib/stdlib.c:102-138 | a free puts exactly the bytes of its order back |
| BuddyRuns.AllocPage | klib/stdlib.c:57-66 | a single page can be had exactly when any byte is free |
| BuddyRuns.FourMegAligned | linker.ld:41 | a 4 MiB aligned heap meets the alignment the three laws need, whatever its size |
| BuddyRuns.ReachableCanonical | klib/stdlib.c:34-138 | on an aligned heap the lists are canonical in every run |
| BuddyLaws.Inversion | klib/stdlib.c:57-138 | whatever the heap's alignment, an allocation is undone list for list by the free that follows if and only if the address has the bits of the orders split clear |
| BuddyLaws.InversionLawIff | klib/stdlib.c:57-138 | every successful allocation in every reachable state is undone exactly by its free, as identical sequences, if and only if the heap is aligned to its largest initial block |
| BuddyLaws.HistoryLawIff | klib/stdlib.c:34-138 | any two runs that leave the same bytes in use leave the same free blocks, if and only if the heap is so aligned |
| BuddyLaws.HistoryMatters | klib/stdlib.c:29-32 | on any heap not so aligned, two concrete runs with the same blocks in use and different free blocks |
| BuddyLaws.CompletenessLawIff | klib/stdlib.c:57-66 | `kalloc_order` returns NULL exactly when no aligned run is wholly free, in every run, if and only if the heap is so aligned |
| BuddyLaws.FreeingEverything | klib/stdlib.c:34-138 | freeing everything in any order brings back the blocks of `init_memory` |
| Memories.Store64 | klib/stdlib.c:80-82 | a 64-bit store writes a little-endian word and no other byte |
| Memories.Load64 | klib/stdlib.c:88-89 | a 64-bit load reads the little-endian word at its address |
| Memories.WordBytes | klib/stdlib.c:80-89 | a word is its eight bytes, the least significant first |
| Memories.FillBytes | klib/stdlib.c:145-154 | `memset` sets every byte of its range to the low byte of the value, and no other |
| Memories.CopyBytes | klib/stdlib.c:156-165 | `memcpy` copies every byte of its range, and no other changes |
| FreeLists.WritesInUsed | klib/stdlib.c:8-14 | arbitrary writes inside a block in use change no free list |
| FreeLists.NodesApart | klib/stdlib.c:8-14 | the list nodes are different words of memory, so no list shares a node with itself or another |
| FreeLists.SplitLinked | klib/stdlib.c:69-84 | the stores of one splitting round leave memory that links exactly the split lists |
| FreeLists.PushLinked | klib/stdlib.c:134-137 | the stores that insert a block leave memory that links exactly the lists with it pushed |
| FreeLists.DropLaterLinked | klib/stdlib.c:114-120 | unlinking a later node through `prev` leaves exactly that node out |
| Heaps.OrderForPages | klib/stdlib.c:19-27 | the least order with `2^order >= n` for `n <= 1024`, and 11 above |
| Heaps.SizeOrderAgrees | klib/stdlib.c:140-143 | `kfree_size` computes the order `kalloc` took if and only if its rounding does not wrap 64 bits |
| Heaps.Heap.InitMemory | klib/stdlib.c:34-55 | the code, on RAM, builds exactly the greedy lists, and a byte is in a free block exactly when the 4096-byte page it is in lies between `lo` and `hi` |
| Heaps.Heap.NothingLeftOver | klib/stdlib.c:34-40 | the pages counted end at or below `hi`, less than a page before it |
| Heaps.Heap.WholePagesCovered | klib/stdlib.c:34-138 | in every valid state of the heap the free and the used blocks cover exactly the bytes of the pages that lie between `lo` and `hi` |
| Heaps.Heap.WholePagesKept | klib/stdlib.c:34-138 | and their sizes add up to `hi - lo` rounded down to pages |
| Heaps.Heap.AddInitial | klib/stdlib.c:46-51 | each initial block is pushed and the blocks so far tile the heap up to it |
| Heaps.Heap.KallocOrder | klib/stdlib.c:57-91 | the code, on RAM, terminates and does exactly the allocation step; NULL changes no byte; blocks in use keep their bytes |
| Heaps.Heap.SplitTop | klib/stdlib.c:69-84 | one splitting round in memory is one split of the lists |
| Heaps.Heap.Kalloc | klib/stdlib.c:93-100 | the block has the least order that holds `n` pages, the `n` pages are all zero, and every other block in use keeps its bytes |
| Heaps.Heap.KfreeOrder | klib/stdlib.c:102-138 | the code, on RAM, terminates and does exactly the freeing step with all merges; orders above 10 are ignored |
| Heaps.Heap.KfreeSize | klib/stdlib.c:140-143 | frees at the order of the 64-bit rounded page count, or does nothing when that is 11 |
| Heaps.Heap.Memset | klib/stdlib.c:145-154 | clearing inside a block in use leaves the allocator valid and every other block as it was |
| Heaps.Heap.Memcpy | klib/stdlib.c:156-165 | copying into a block in use does the same |
| PageEntries.VpnParts | arch/paging.c:18-35 | the shifts and masks take the three 9-bit parts of the 27-bit page number |
| PageEntries.PointerRoundTrip | arch/paging.c:21-24 | a pointer entry gives the address of its page-aligned table back if and only if that is below 2^46; it is always valid and has no permission bit |
| PageEntries.LeafBit | arch/paging.c:36 | a leaf has exactly the permission bits of the flags it was made from |
| PageEntries.PermissionBits | arch/paging.c:13 | the guard asks for at least one of R, W and X |
| PageEntries.LeafRoundTrip | arch/paging.c:36-57 | a leaf gives its physical address back if and only if it is below 2^46 and flag bits above bit 9 are already in its page number |
| PageTrees.TablesUnshared | arch/paging.c:18-36 | every place in the tree of tables has one frame only; as every frame has one place, no table is shared |
| PageTrees.MidExists | arch/paging.c:19-24 | a level-1 table exists exactly for the valid root entries |
| PageTrees.LowExists | arch/paging.c:28-33 | a level-0 table exists exactly for the valid entries of its level-1 table |
| PageTrees.LinkMidWalk | arch/paging.c:19-22 | linking a new empty table changes no translation in any address space |
| PageTrees.SetLeafWalk | arch/paging.c:35-36 | writing a leaf changes the translation of exactly one page of one address space |
| PageTrees.MappedTranslates | arch/paging.c:36-58 | after `map_page` the addresses of the page translate to the physical page plus their offset, and every other address of every address space as before; a mapped address gives NULL only in physical page 0 |
| Paging.PageTables.MapPage | arch/paging.c:5-37 | `map_page` panics exactly on bad arguments; otherwise exactly one page of one address space changes, to the new leaf, and exactly the missing tables come off the free lists |
| Paging.PageTables.LowestTable | arch/paging.c:18-33 | the level-0 table for a page is reached or made, with exactly the missing tables taken and no translation changed |
| Paging.PageTables.TableBehind | arch/paging.c:18-33 | a table missing at a level is allocated zeroed and linked, an existing one is left alone |
| Paging.PageTables.VaddrToPaddr | arch/paging.c:39-59 | the walk gives the address in the leaf with the page offset, or 0 when a level is invalid; when that address is itself 0 is said by `PageTrees.MappedTranslates` |
| Paging.PageTables.NewUserPage | kernel/schedule/proc.c:136-143 | a fresh frame in no address space holds the bytes copied and zeros after them |
| Paging.PageTables.NewRoot | kernel/schedule/proc.c:119 | a fresh, empty root table; no other address space changes |
| Sv39.TwoTables | arch/paging.c:39-49 | on the kernel's tables the standard's translation goes down two pointer levels to the same level-0 table |
| Sv39.WalkMeetsStandard | arch/paging.c:39-59 | for canonical addresses the Sv39 translation (RISC-V privileged specification 1.12, section 4.4) and `vaddr_to_paddr` give the same address when the leaf in memory is one the standard accepts, and a fault otherwise |
| Hardware.LeafAcceptedIff | arch/paging.c:13-36 | the standard accepts the leaf `map_page` writes if and only if its flags have R or X, and R if they have W; of the flags that pass the guard, exactly those with W and without R are refused |
| Hardware.MappedForHardware | arch/paging.c:5-37 | after `map_page` the hardware translates the canonical addresses of the page to the physical page exactly when the flags are so, and everything else, in every address space, as before |
| Hardware.WriteOnlyFaults | arch/paging.c:13-15 | for every page mapped with PAGE_W alone, `map_page` does not panic and `vaddr_to_paddr` translates, but the hardware faults |
| Hardware.HardwareReadsImage | kernel/schedule/proc.c:135-145 | through a finished address space the Sv39 hardware reads every byte of the image from 16 MiB on, and zeros after it to the end of the page; it faults exactly from 2^38 on, where addresses are not canonical |
| Hardware.HardwareSeesKernel | kernel/schedule/proc.c:122-131 | outside the image the hardware translates kernel and device addresses to themselves and faults on everything else |
| Hardware.ImagePermissions | kernel/schedule/proc.c:144 | every page of the image has a leaf that lets user mode read, write and execute it: bits 1 to 4 of the entry are set |
| Hardware.KernelPermissions | kernel/schedule/proc.c:122-131 | the leaves of kernel pages have bits 1 to 3 set, those of device pages bits 1 and 2, and neither the user bit |
| Images.CountStep | arch/paging.c:19-33 | mapping a page costs exactly the tables that the new set of pages has more prefixes for |
| Images.MapInto | arch/paging.c:5-37 | `map_page` is an update of a finite map from page number to entry; table frames always equal the distinct prefixes mapped |
| Images.MapKernel | kernel/schedule/proc.c:122-125 | the first loop adds exactly the identity mapping of the kernel's RAM |
| Images.MapDevices | kernel/schedule/proc.c:128-131 | the second loop adds exactly the eight device pages |
| Images.LoadImage | kernel/schedule/proc.c:135-145 | the third loop adds one user page for each page the image starts, the short last one included, filled with its part of it, and disturbs none loaded before |
| Images.PagesHoldImage | kernel/schedule/proc.c:135-145 | the pages taken hold the whole image and less than a page more; page `k` is one of them exactly when `4096 * k` is below the size |
| Images.ImageFits | kernel/schedule/proc.c:135-145 | an image there are pages for always ends below the end of the 39-bit space |
| Images.BuildSpace | kernel/schedule/proc.c:119-145 | the whole address space, with the exact number of pages it takes, and every other address space kept |
| Images.ImageReadsBack | kernel/schedule/proc.c:135-145 | every byte `i` of the image reads back through `vaddr_to_paddr(0x1000000 + i)`, and the bytes after the image are zero up to the next multiple of 4096 |
| Images.KernelTranslates | kernel/schedule/proc.c:122-131 | the pages from the kernel's base to the end of RAM and the eight from 0x10001000 on translate to themselves with their permissions, and nothing else is mapped, outside the pages of the image |
| Processes.UserReaches | kernel/schedule/proc.c:135-145 | what user mode can reach is exactly frames given to that process's user pages |
| Processes.UserPagesApart | kernel/schedule/proc.c:135-145 | two different user pages, of one process or two, are different frames, and no walk of any address space reads one as a page table |
| Processes.SlotsApart | kernel/schedule/proc.c:86-155 | the same in memory alone for the process table: the user pages of all used slots are different frames, and none is a table on the walk of any used slot |
| Processes.SatpRoot | kernel/schedule/proc.c:189-197 | the `satp` value selects Sv39 and names exactly the frame of the root |
| Processes.EntersImage | kernel/schedule/proc.c:189-197 | with the `satp` of a process the hardware walks the tables of its root, and finds the first byte of its image at 0x1000000 |
| Processes.Kernel.constructor | kernel/schedule/proc.c:18-20 | the zeroed process table |
| Processes.Kernel.PrepareStack | kernel/schedule/proc.c:101-116 | the top 13 words of the slot's stack enter `user_entry` with the other registers zero, and no other word changes |
| Processes.Kernel.CreateProcess | kernel/schedule/proc.c:86-155 | takes the first unused slot, panics exactly when there is none, builds its stack and address space, and keeps every other process's |
| Processes.Kernel.InitProc | kernel/schedule/proc.c:80-84 | the idle process in slot 0 with pid 0, current, everything else unused |
| Processes.Kernel.Yield | kernel/schedule/proc.c:160-197 | makes current exactly the process the scheduler picks, with its stack in `sscratch` and its root in `satp`; otherwise changes nothing |
| Processes.Kernel.ProcExit | kernel/schedule/proc.c:204-208 | the current process is marked exited and another one becomes current |
| Scheduler.SearchFrom | kernel/schedule/proc.c:162-170 | the search stops at the first eligible slot, and passes none |
| Scheduler.NextIsNearest | kernel/schedule/proc.c:160-175 | `yield` picks the runnable process at the least cyclic distance after the current one, and idle exactly when no other is runnable |
| Scheduler.BootInv | kernel/schedule/proc.c:80-84 | the state `init_proc` leaves is one in which runs start well: idle in slot 0 and current |
| Scheduler.ExecInv | kernel/schedule/proc.c:151-208 | in every run, for any number of slots, used slots keep `pid = slot + 1`, idle stays in slot 0 and the current process is runnable |
| Scheduler.ExecMovesOn | kernel/schedule/proc.c:151-208 | in every run a slot only moves from unused to runnable to exited |
| Scheduler.ExitedStaysOff | kernel/syscall.c:25-28 | an exited process is never current again, so the code after `proc_exit` is not reached |
| Scheduler.BoundedWaiting | kernel/schedule/proc.c:160-179 | a runnable process becomes current within as many switches as its cyclic distance, whatever is created or exits meanwhile |
| Scheduler.SwitchCloser | kernel/schedule/proc.c:160-179 | each switch brings every waiting process strictly closer |
| TrapContext.TrapInv | arch/trap.c:12-58 | trap entry puts the whole user state into the frame of the process that trapped, and every other process's saved state stands |
| TrapContext.TrapFrame | arch/trap.h:8-40 | `handle_trap` gets in `a0` the address of a frame with the user's ra, gp, tp, t0 to t6, a0 to a7, s0 to s11 and sp in this order, word by word |
| TrapContext.ReturnInv | arch/trap.c:60-91 | the return gives user code exactly the registers in its frame and the pc after the `ecall`, with `sscratch` back at its stack, and every other process's saved state stands |
| TrapContext.SwitchInv | kernel/schedule/proc.c:23-63 | a context switch keeps the saved state of every process, whether the next one goes on or starts |
| TrapContext.SwitchFrame | kernel/schedule/proc.c:24-60 | a switch stores ra and s0 to s11 on the old stack in this order, word by word, and saves the stack pointer 13 words below where it was |
| TrapContext.SwitchBack | kernel/schedule/proc.c:23-63 | a process switched back to finds registers 1 (`ra`), 2 (`sp`), 8, 9 and 18 to 27 (s0 to s11) as they were at its call of `switch_context` |
| TrapContext.FirstSwitch | kernel/schedule/proc.c:65-78 | the first switch to a process leads to user mode at pc 0x1000000, with s0 to s11 zero and `sscratch` at the top of its empty kernel stack |
| TrapContext.EverySwitchReturns | kernel/schedule/proc.c:23-63 | in every run from boot, from a process's call of `switch_context` to the switch back to it, whatever runs in between: `ra` leads back into `yield`, `sp`, s0 to s11 and everything on its kernel stack are as they were |
| TrapContext.EverySpawnStarts | kernel/schedule/proc.c:65-116 | in every run from boot the first switch to a new process, whenever it comes, leads to user mode at pc 0x1000000 |
| TrapContext.SpawnInv | kernel/schedule/proc.c:101-116 | preparing the stack of a new process disturbs no other |
| TrapContext.RunSafe | kernel/schedule/proc.c:177-199 | in every run from boot `sscratch` is the top of the current process's kernel stack of 8192 bytes whenever user code runs |
| TrapContext.TrapRoundTrip | arch/trap.c:13-125 | from a trap to its return in any run that starts with it, all user registers come back but for `a0`, which has the last result, and the pc is 4 further, whatever ran in between |
| TrapContext.EveryTrapReturns | arch/trap.c:13-125 | the same for every trap and its return anywhere in a run from boot |
| TrapCode.Cpu.KernelTrapContextSave | arch/trap.c:12-58 | the instruction sequence has exactly the effect of the trap entry step |
| TrapCode.Cpu.TrapReturn | arch/trap.c:60-91 | the loads before `sret` have exactly the effect of the return step |
| TrapCode.Cpu.SwitchContext | kernel/schedule/proc.c:23-63 | the instruction sequence has exactly the effect of the two halves of a switch |
| TrapCode.Cpu.SwitchTo | kernel/schedule/proc.c:181-199 | setting `sscratch`, calling `switch_context` and, for a new process, entering `user_entry` have exactly the effect of the switch step on the processor |
| Systems.HandingIsStep | kernel/schedule/proc.c:177-199 | handing over to any used slot that is not current is one context switch of the machine, whose stack pointers and live slots are those of the process table |
| Systems.YieldIsStep | kernel/schedule/proc.c:160-199 | the slot the scheduler picks always has a context to go on with, and switching to it keeps the invariants of scheduler and machine together |
| Systems.ExitIsStep | kernel/schedule/proc.c:204-208 | so does `proc_exit`, and the slot left behind is exited |
| Systems.CreateIsStep | kernel/schedule/proc.c:101-152 | `create_process` is the step of the machine that gives the first unused slot its context |
| Systems.System.constructor | kernel/schedule/proc.c:80-84 | after `init_proc` the whole system is in the boot state from which runs start |
| Systems.System.Yield | kernel/schedule/proc.c:65-202 | the whole `yield`, with its `switch_context`: nothing changes, or it is exactly one context switch of the machine to the scheduler's pick; the first switch to a process enters user mode at 0x1000000, where the hardware, with the `satp` loaded, finds the first byte of its image |
| Systems.System.ProcExit | kernel/schedule/proc.c:204-208 | the whole `proc_exit` is exactly one context switch away from a slot marked exited, with the same first entry when the next process is new |
| Systems.System.CreateProcess | kernel/schedule/proc.c:86-155 | the whole `create_process` is exactly one spawning step of the machine that gives the slot the image, with its first switch still to come, or a panic with nothing changed |
| Virtqueues.ChainBuilt | drivers/virtio/virtio_blkio.c:62-82 | the three descriptors are a chain a block device accepts, with the data buffer writable exactly for a read, and the request has type 0 for a read and 1 for a write; addresses, lengths, flags and links by number |
| Virtqueues.StepInv | drivers/virtio/virtio_blkio.c:55-98 | every driver statement and every device step, in any order, keeps the protocol's invariant |
| Virtqueues.AtomicDisk | drivers/virtio/virtio_blkio.c:55-98 | in every interleaving the calls that returned are a history of atomic reads and writes of an array of sectors; a failed call changes at most the sector it names, and not the buffer |
| Virtqueues.FailuresAreTheDevices | drivers/virtio/virtio_blkio.c:62-98 | in every run, between calls, as many calls have failed as the device gave requests up: none fails through the driver |
| Virtqueues.HealthyDisk | drivers/virtio/virtio_blkio.c:55-98 | when the device gives nothing up, every call that returned had status 0: a read got the sector, a write stored its buffer |
| Virtqueues.IndicesAgree | drivers/virtio/virtio.c:42-52 | in every run at most one request is out, and between calls all indices are the number of calls modulo 65536 |
| Virtqueues.RingSlot | drivers/virtio/virtio.c:43-44 | the device reads request `n`, counted without wrapping, from the slot `n` modulo 16 where the driver put it, across every wrap of the 16-bit indices |
| Virtqueues.SpinIsExact | drivers/virtio/virtio_blkio.c:88 | the spin loop goes on exactly while this request is with the device |
| Virtqueues.SpinEnds | drivers/virtio/virtio_blkio.c:88 | a request is completed by the time the device has taken the steps it needs at most, whatever it decides |
| Virtqueues.ServeProgress | drivers/virtio/virtio.c:46 | from the notification on, while a request is out the device can take its normal step, and each step it takes is one nearer to the end |
| Virtqueues.CapacityExact | drivers/virtio/virtio_blkio.c:45-56 | the driver refuses exactly the sectors the device does not have, unless the capacity in bytes wraps 64 bits |
| BlockDrivers.BlockDriver.constructor | drivers/virtio/virtio_blkio.c:45-46 | the queue starts zeroed, with all indices equal, and the capacity is the number of sectors the device has, if that is below 2^55 |
| BlockDrivers.BlockDriver.VirtqKick | drivers/virtio/virtio.c:42-48 | publishes descriptor 0 in the right slot and moves both indices one further, with the device already at work |
| BlockDrivers.BlockDriver.VirtqIsBusy | drivers/virtio/virtio.c:50-52 | not busy exactly when the request sent is completed |
| BlockDrivers.BlockDriver.ReadWriteDisk | drivers/virtio/virtio_blkio.c:55-98 | an atomic read or write of one sector beside a running device, with status 0 if the device does not give it up; panics exactly on sectors beyond the capacity, with nothing changed |
| Strings.StrChr | klib/string.c:47-60 | the first occurrence before the end of the string, the end itself for the zero byte, null exactly when there is none |
| Strings.StrTokR | klib/string.c:70-105 | one call returns the next token, overwrites at most the one delimiter that ends it, and saves the position after it; null arguments change nothing; the delimiters may lie in the same memory |
| Strings.RunsAreAll | klib/string.c:80-93 | the tokens are exactly the maximal delimiter-free runs of the string, all of them, in order and once each |
| Strings.CallsReturnRuns | klib/string.c:70-105 | repeated calls return those runs one after the other, and then null for ever |
| Strings.CallsCut | klib/string.c:95-100 | repeated calls overwrite exactly the delimiters that end the tokens returned |
| Strings.TokensReadBack | klib/string.c:90-102 | each token stays, through all later calls, a zero-terminated string with the bytes of its run |
| Strings.SaveStaysInside | klib/string.c:95-100 | the saved position never leaves the string and its terminator, and no byte outside is written |
| Radix.Utoa | klib/stdio.c:20-44 | the buffer gets the text and a zero character and nothing else; the scratch buffer is overrun exactly from `base^32` on |
| Radix.TextRoundTrip | klib/stdio.c:31-43 | the text evaluates to the value and has no leading zero except "0" |
| Radix.NumeralIsText | klib/stdio.c:20-44 | it is the only such numeral of the value |
| Radix.LengthIff | klib/stdio.c:32-35 | the number has at most `n` digits exactly when it is below `base^n` |
| Radix.ScratchFitsIff | klib/stdio.c:22-35 | the scratch buffer is long enough for every 64-bit number exactly in the bases from 4 up |
| Radix.CallersFit | klib/stdio.c:66 | for bases from 10 up the text of a 64-bit number and its zero character fit the callers' 32 bytes |

## Left out

- Memory outside the heap: kernel text and data are not bytes of the model; an image is copied from a value, so it does not overlap the heap.
- Memories.CopyBytes: the source is a value; a source range in the same memory is not modelled.
- Heaps.Heap.Memcpy: the bytes copied are a value, as in `CopyBytes`.
- Heaps.Heap.Kalloc: requires that the allocation succeeds, because the source clears the result without a NULL check; failure is modelled at `KallocOrder`.
- Heaps.Heap.KfreeOrder: requires that the block freed is in use with that order, which the source demands of its callers without checking.
- Paging.PageTables.MapPage: requires a root table of the kernel, where the source takes any pointer, and room for the tables that are missing, as `Kalloc` does.
- Processes.Kernel.CreateProcess: requires exactly the free pages it takes, when there is a slot, as `Kalloc` does.
- Sv39.WalkMeetsStandard: leaves out permission checks against the access, the A and D bits, and the TLB.
- Processes.Kernel.Yield: ends before `switch_context`; the whole `yield` is `Systems.System.Yield`.
- Processes.Kernel.ProcExit: leaves out the exit message.
- Processes.Kernel.PrepareStack: counts stacks in 64-bit words, in one array for all slots, and `user_entry` is a number; the bytes of `struct process` are not laid out.
- Systems.System.Yield: the code of `yield` before its `switch_context` uses no stack of its own here; what it pushes is a kernel step of the machine.
- TrapContext.TrapRoundTrip: kernel code between the modelled steps is any code that stays within its own stack below the trap frame; system calls other than through `a0` have no effect on the frame.
- TrapContext.RunSafe: the idle process runs on the stack of slot 0 instead of the boot stack, and traps other than system calls, which panic, are not steps.
- CSR, fence and `sret` semantics beyond `sscratch`, `sepc`, `satp` and the registers.
- The pid as a 32-bit number: slot counts are far below the wrap.
- Virtqueues.AtomicDisk: memory is sequentially consistent, so the barrier of `virtq_kick` is not modelled; the device may look at the ring as soon as `avail.idx` moves, before it is notified.
- BlockDrivers.BlockDriver.ReadWriteDisk: each turn of the spin loop gives the device a step; `Virtqueues.SpinEnds` has the general statement. The shared request is a record, not bytes, and `blk_req_paddr` is not truncated to 32 bits.
- Device discovery, reset, feature negotiation and the queue's registers in `virtq_init` and `virtio_blk_init`: their meaning lies in the device.
- Radix.Utoa: requires a base from 2 to 16; the source divides by base 0, and reads past its 16 digits from base 17 on.
- `strlen`, `strcpy`, `strcat`, `strcmp`, `strcspn`, `memcmp`: easy members.
- `printf`, `vprintf`, `vsnprintf`: variadic formatting.
- The GPU driver, the file system, the RTC, UART and SBI calls, the shell and the user library.
