# Kiznix: models and proofs

A Dafny model of the parts of Kiznix where most depends on several functions being right together.
`dafny verify dfyconfig.toml` checks all of it.

- **Physical and virtual memory**, i386 without PAE (`Paging`, `BootMap`, `VmModel`,
  `VmRuns`, `Kernel`).
  The free list of the frame allocator lives in virtual memory backed by the very frames it lists, and the
  page tables are edited through a recursive mapping of the page directory (Intel SDM Volume 3A,
  section 4.3). `Kernel.Machine` is the code on frames of 1024 words, a hardware walk and a TLB; it is proved
  to do what the functions of `VmModel` do to a view of it. `VmRuns` proves what any sequence of calls and
  write faults keeps; `Kernel.Machine.PerformAll` makes such a sequence on the machine, from the state
  `Kernel.Machine.KernelEarly` leaves.
- **Scheduler, semaphores, mutexes, spin locks** on one processor (`Scheduling`, `SchedulerSafety`,
  `SchedulerRuns`, `Permits`, `Spinlocks`, `Threads`). A transition system whose events are calls and timer
  ticks; a tick may come wherever interrupts are on, in the gap where a thread is suspended but still
  current too. `Threads` is the code on linked lists, proved against the same functions;
  `Threads.Scheduler.RunAll` makes a run on it.
- **The memory of the emulator** (`FlatMemory`, `Packed`, `EmuMemory`). The specification is 2^32 bytes with an
  attribute each; the class is the lazily made two-level table with its packed 16- and 32-bit paths.
- **The emulated processor** (`Flags86`, `WideArithmetic`, `CarryChain`, `RotateCarry`, `Registers`,
  `StringOps`, `StackSlots`, `Stack86`, `Processor86`). Division and multiplication on halves (the branches
  without a 64-bit type), carry-chain flags, rotates through carry, REP string searches, and the round trips
  of interrupts and of PUSHA.
- **ee_number** (`Printf`), with a reader that takes its text back to the number.

Classes keep the fields of the source and methods change them step by step; every method states its new state
as a function of the old one, and the lemmas are about those functions, mostly over all runs.

Some of what the code seems to promise does not hold everywhere. The exact condition is proved in each case, with
an input that fails:

- `x86emu_set_perm` returns after one page when it starts at 0 and ends beyond the first page
  (`FlatMemory.SetPermMeets`, `FlatMemory.SetPermFallsShort`).
- `div_long` misses overflow unless EDX:EAX exceeds s * 2^33 (`WideArithmetic.DivideExact`,
  `WideArithmetic.DivideWitness`).
- `check_data_access` looks at the wrapped end of an access only (`Stack86.LimitExact`, `Stack86.LimitWitness`).
- POPA moves SP or ESP over the pushed stack pointer by the width of the data, not of the stack
  (`Stack86.PushAllPopAll`, `Stack86.PopAllWitness`).
- `x86emu_reset_access_stats` does not reach pages that have not been made. It is complete as long as no such page is
  given an attribute with an access mark (`EmuMemory.EmuMemory.ResetAccessStats`, `FlatMemory.TidyPainted`,
  `EmuMemory.UseAndReset`, `EmuMemory.MarkLeft`).
- `vmm_alloc` wraps for the last 4095 lengths (`VmRuns.WrappedRequest`, `VmRuns.WrappedWitness`) and does not stop at
  the end of the heap: it keeps the free stack mapped iff its last page lies below it (`VmRuns.HeapOverrun`,
  `VmRuns.RequestOverrun`, `VmRuns.OverrunWitness`).
- `pmm_init` adds 64-bit numbers of the firmware's map without a check: an entry near the end of the address space is
  read as another one (`BootMap.ClipExact`, `BootMap.ClipWrong`, `BootMap.MisreadWitness`). Its test for the kernel image looks only at where an
  entry begins and ends; that is enough for an image at or below 1 MB, and Kiznix is linked at 1 MB
  (`BootMap.ImageLeftOut`, `BootMap.ImageNotListed`).
- Without a thread that never blocks, `thread_schedule` can find no thread (`SchedulerRuns.StarvesExactly`,
  `SchedulerRuns.Starves`).

IRET with 16-bit data stores a 16-bit value in the whole flags register and so clears the upper half;
`Stack86.InterruptReturns` has it so.

## Model

| member | source | states |
|---|---|---|
| `Paging.SelfMap` | src/kernel/x86/vmm.c:251-270 | walking the address of `vmm_page_mappings_1[p]` ends at the very word that translates page p, and faults exactly when p has no page table; `vmm_page_mappings_2[i]` is directory slot i; the window may be written where the page table may |
| `Paging.StoreEntry` | src/kernel/x86/vmm.c:299-337 | a store through the window to the entry of a page below the window changes that translation and no other, and keeps the self-map |
| `Paging.InstallTable` | src/kernel/x86/vmm.c:299-314 | a blank frame installed as a page table gives no page below the window a new translation |
| `BootMap.ClipExact` | src/kernel/x86/pmm.c:104-144 | for each entry and each image linked at or below 1 MB, the region made from the entry holds exactly its usable pages outside the image iff the entry is not misread: iff no wrapping 64-bit sum gains or loses pages between the image and 4 GB |
| `BootMap.ClipWrong` | src/kernel/x86/pmm.c:104-144 | the page that a misread entry gains or loses, for that entry and that image |
| `BootMap.MisreadWitness` | src/kernel/x86/pmm.c:104-144 | with a 2 MB image at 1 MB, an entry of 8 MB from the last byte of the address space lists 5 MB below 8 MB that nobody reported |
| `BootMap.ImageLeftOut` | src/kernel/x86/pmm.c:128-136 | no page of the image is ever in a region, whatever the entry, iff the image starts at or below 1 MB, where it is linked |
| `BootMap.ImageKept` | src/kernel/x86/pmm.c:128-136 | an image above 1 MB, and the entry that would keep its first page |
| `BootMap.ImageNotListed` | src/kernel/x86/pmm.c:93-164 | no frame of the kernel image can be handed out, whatever the map says |
| `BootMap.RegionsBounded` | src/kernel/x86/pmm.c:100-153 | every region is whole pages below 4 GB, at least one |
| `BootMap.RegionsOwned` | src/kernel/x86/pmm.c:100-153 | each page of a region comes from an entry that has it to offer, read while the region array had room |
| `BootMap.RegionsComplete` | src/kernel/x86/pmm.c:100-153 | and each page that such an entry has to offer is in a region |
| `BootMap.ListedExactly` | src/kernel/x86/pmm.c:93-164 | a frame can be handed out iff some entry, up to the one that fills the region array, reports it as usable and it is not the kernel's |
| `BootMap.ShortMapListed` | src/kernel/x86/pmm.c:93-164 | a map of at most 1000 entries is read to its end: a frame can be handed out iff some entry reports it as usable and it is not the kernel's |
| `BootMap.RegionsDistinct` | src/kernel/x86/pmm.c:100-153 | if the entries of the map do not overlap, empty ones aside, and none is misread, no page is listed twice |
| `BootMap.SizeRemaining` | src/kernel/x86/pmm.c:100-153 | the free memory counted is 4096 times the pages that can be handed out |
| `VmModel.Pop` | src/kernel/x86/pmm.c:168-205 | allocation fails exactly when both the stack and the regions are empty |
| `VmModel.PopOk` | src/kernel/x86/pmm.c:168-205 | allocation keeps the invariant, takes one free frame out and leaves every other frame, page table and ordinary page as it was |
| `VmModel.PopNotBacking` | src/kernel/x86/pmm.c:168-191 | the frame handed out backs no page of the free stack that stays mapped |
| `VmModel.PushOutcome` | src/kernel/x86/pmm.c:209-226 | freeing fails iff the stack has no page table and no region page is left to make one, and then with "out of physical memory"; the page the stack grows into is never occupied |
| `VmModel.PushOk` | src/kernel/x86/pmm.c:209-226 | freeing a frame nobody else has puts it on top of the stack, keeps the invariant, and moves no other frame except into page tables |
| `VmModel.PushPop` | src/kernel/x86/pmm.c:168-226 | free followed by allocate returns the same frame and restores stack and translations |
| `VmModel.NoStackTable` | src/kernel/x86/pmm.c:209-226 | if the free stack has no page table, it is empty: the nested allocation meets an empty stack |
| `VmModel.MapPageOk` | src/kernel/x86/vmm.c:299-327 | mapping sets one entry, keeps the invariant elsewhere, and fails on an occupied page |
| `VmModel.UnmapPageOk` | src/kernel/x86/vmm.c:331-337 | unmapping clears one entry; the invariant holds but for that page, and everywhere for a page outside the free stack |
| `VmRuns.ReserveManyOk` | src/kernel/x86/vmm.c:492-519 | `vmm_alloc` marks exactly the next pages, in order, and changes no other ordinary page |
| `VmRuns.MapManyOk` | src/kernel/x86/vmm.c:523-546 | `vmm_map` puts frame f + k behind page p + k and leaves the other pages alone |
| `VmRuns.MapManyOutcome` | src/kernel/x86/vmm.c:523-546 | mapping pages that hold no mapping can fail only for want of a frame for a page table |
| `VmRuns.UnmapManyOk` | src/kernel/x86/vmm.c:550-564 | `vmm_unmap` clears exactly the pages it spans |
| `VmRuns.FaultOk` | src/kernel/x86/vmm.c:587-629 | a served write fault takes one free frame f, gives the page the entry f * 0x1000 + 0x103 from 0xC0000000 on and f * 0x1000 + 0x003 below, and changes nothing else |
| `VmRuns.SpanWanted` | src/kernel/x86/vmm.c:523-535 | a range of bytes spans at most one page more than its length needs |
| `VmRuns.StepOk` | src/kernel/x86/vmm.c:492-629 | every legal operation keeps the whole invariant (free-stack backing, frames apart, demand pages, heap ranges) and neither loses nor invents a frame |
| `VmRuns.RunConserves` | src/kernel/x86/pmm.c:168-226 | over any run, each frame is free, a page table, owned by a caller or behind a demand-paged page afterwards iff it was before |
| `VmRuns.RunSafe` | src/kernel/x86/vmm.c:492-629 | after any run heap ranges lie between 0xE0000000 and 0xFF000000 and do not overlap, distinct demand-paged pages have distinct frames, which nobody else owns, and the next frame handed out is nobody's |
| `VmRuns.StackBacked` | src/kernel/x86/pmm.c:168-226 | after any run page j of the free stack at 0xFF000000 is mapped present and writable to the frame in its first slot, higher stack pages are unmapped, and the next frame handed out backs none that stays mapped |
| `VmRuns.OutUntilFreed` | src/kernel/x86/pmm.c:168-226 | over any run a frame handed out is not handed out again until it is freed |
| `VmRuns.HeldKept` | src/kernel/x86/vmm.c:492-629 | a frame a caller owns or has behind a demand-paged page stays the caller's until it is freed |
| `VmRuns.ReservedServed` | src/kernel/x86/vmm.c:587-629 | a write to a reserved page is served iff some frame is free, with a frame that was free |
| `VmRuns.ReservedKept` | src/kernel/x86/vmm.c:492-629 | a reserved page stays reserved under every operation but a write to it or an unmap that spans it |
| `VmRuns.MapTranslates` | src/kernel/x86/vmm.c:523-546 | byte k of a mapped range translates to physical address pa + k (modulo 2^32) through a present and writable entry |
| `VmRuns.SpanExact` | src/kernel/x86/vmm.c:523-535 | the 32-bit span arithmetic counts every page the bytes touch, unless they wrap around the address space |
| `VmRuns.UnmapExact` | src/kernel/x86/vmm.c:550-564 | page q is cleared iff it lies between the page of the address and the end of the range |
| `VmRuns.ReserveOutcome` | src/kernel/x86/vmm.c:492-519 | `vmm_alloc` goes through iff there is a free frame for each page table it has to make; it takes just those |
| `VmRuns.HeapAllocOutcome` | src/kernel/x86/vmm.c:492-519 | the same for a length in bytes |
| `VmRuns.MapRangeOutcome` | src/kernel/x86/vmm.c:523-546 | `vmm_map` goes through iff there is a free frame for each page table it has to make and the range ends at or below 0xF0000000; otherwise memory or virtual space is what it reports to have run out, and never that a page is mapped already |
| `VmRuns.UnmapOutcome` | src/kernel/x86/vmm.c:550-564 | `vmm_unmap` goes through iff there is a free frame for each missing page table, which its store makes |
| `VmRuns.WrappedRequest` | src/kernel/x86/vmm.c:492-519 | the page count is right iff the length is at most 0xFFFFF000; above it nothing is reserved and the next caller gets the same address |
| `VmRuns.WrappedWitness` | src/kernel/x86/vmm.c:492-519 | a request of 0xFFFFFFFF bytes, which needs 2^20 pages, reserves none in the state `vmm_init` leaves |
| `VmRuns.HeapOverrun` | src/kernel/x86/vmm.c:492-519 | reserving n pages, up to the end of the free stack, leaves the free stack mapped as it must be iff the last page lies below it; otherwise its first page is unmapped |
| `VmRuns.RequestOverrun` | src/kernel/x86/vmm.c:492-519 | the same for a length in bytes, with its rounding |
| `VmRuns.LongRequestOverrun` | src/kernel/x86/vmm.c:492-519 | a request that ends further up loses the free stack on its way |
| `VmRuns.OverrunWitness` | src/kernel/x86/vmm.c:492-519 | from any boot with 126 frames to hand out, a legal run after which one frame is on the free stack and a request of one byte goes through and unmaps it |
| `VmRuns.BootOk` | src/kernel/x86/vmm.c:273-295 | the state `vmm_init` leaves satisfies the invariant of runs |
| `VmRuns.BootMaps` | src/kernel/x86/vmm.c:273-295 | that state maps page 0xC0000 + k to frame k for k below 1024, writable, except the directory and the boot page table, and nothing else; the heap starts at 0xE0000000 |
| `Kernel.Machine.PmmInit` | src/kernel/x86/pmm.c:93-164 | the region array and the free-memory count are those of the boot map; no memory at all is fatal |
| `Kernel.Machine.VmmInit` | src/kernel/x86/vmm.c:273-295 | the directory maps itself, the boot tables are unmapped, and the machine is valid with an empty free stack |
| `Kernel.Machine.KernelEarly` | src/kernel/kernel.c:68-79 | after `pmm_init` and `vmm_init`, for an image linked at 1 MB that holds the boot tables and a map without overlaps, the machine is valid and safe for every run, and the frames to hand out are distinct and none is the kernel's; no memory at all is fatal |
| `Kernel.Machine.Invalidate` | src/kernel/x86/vmm.c:120-123 | the TLB forgets the translation of the page, and no other |
| `Kernel.Machine.Store` | src/kernel/x86/vmm.c:299-337 | a store, made only to pages that directory and page table allow to be written, goes to the frame the walk yields and to no other word |
| `Kernel.Machine.SetEntry` | src/kernel/x86/vmm.c:321-337 | storing an entry through the window and invalidating gives that page its new translation, keeps all others, and leaves no stale TLB entry |
| `Kernel.Machine.SetTable` | src/kernel/x86/vmm.c:299-316 | storing a directory entry with the given flags, invalidating and clearing the window page installs a blank page table |
| `Kernel.Machine.PmmAllocPage` | src/kernel/x86/pmm.c:168-205 | the code on memory, tables and TLB has the outcome and the effect of `VmModel.Pop`, with the free memory 4096 times the free frames |
| `Kernel.Machine.PmmFreePage` | src/kernel/x86/pmm.c:209-226 | the code has the outcome and the effect of `VmModel.Push` |
| `Kernel.Machine.VmmMapPage` | src/kernel/x86/vmm.c:299-327 | the code has the outcome and the effect of `VmModel.MapPage`; a page table it makes has the flags 0x003 |
| `Kernel.Machine.VmmUnmapPage` | src/kernel/x86/vmm.c:331-337 | the code, with the fault that creates a missing page table, has the effect of `VmModel.UnmapPage`, for free-stack pages too |
| `Kernel.Machine.VmmAlloc` | src/kernel/x86/vmm.c:492-519 | the loop has the outcome and the effect of `HeapAlloc`: NULL for 0 bytes, else the reserved address |
| `Kernel.Machine.VmmMap` | src/kernel/x86/vmm.c:523-546 | the loop has the outcome and the effect of `MapRange` |
| `Kernel.Machine.VmmUnmap` | src/kernel/x86/vmm.c:550-564 | the loop has the outcome and the effect of `UnmapRange` |
| `Kernel.Machine.PageFault` | src/kernel/x86/vmm.c:587-629 | only error code 2 is handled: a fault in the window makes a page table with the flags 0x103; a reserved page gets a zeroed frame and can be written, so that the store that faulted goes through; anything else is fatal |
| `Kernel.Machine.Perform` | src/kernel/x86/vmm.c:492-629 | on the machine each operation of a run has the outcome and the effect it has on values and returns the same frame or address; a page that is faulted in reads as zeros and can be written; no frame a caller holds is written to, except the one freed |
| `Kernel.Machine.PerformAll` | src/kernel/x86/vmm.c:492-629 | a whole run on the machine goes through the states and returns the frames and addresses it does on values; the free stack is backed by its own frames and the free memory is counted right; a frame held and not freed keeps its contents, what backs a page paged in by the run is blank, and the processor finds it there and may write to it |
| `SchedulerSafety.EnterOutcome` | src/kernel/thread.c:156-191 | `thread_yield` fails before the switch exactly when the last ready thread yields suspended |
| `SchedulerSafety.SpinOutcome` | src/kernel/spinlock.c:41-78 | `spin_unlock` passes its assertions iff interrupts are off and some lock is held; `spin_lock` returns, with interrupts off, iff the lock is free |
| `SchedulerSafety.ScheduleOutcome` | src/kernel/thread.c:156-200 | `thread_schedule` goes through iff its lock is the only one held, interrupts are off, its caller no longer runs and some thread can; each fatal message is the right one |
| `SchedulerSafety.YieldOutcome` | src/kernel/thread.c:230-247 | `thread_yield` reaches the switch iff no lock is held, its caller runs or is suspended, and some thread can run |
| `SchedulerSafety.WakeupOutcome` | src/kernel/thread.c:206-225 | `thread_wakeup` goes through iff the lock is free and the thread suspended; queueing a new thread, iff it is free and interrupts are on |
| `SchedulerSafety.SemaphoreOutcome` | src/kernel/semaphore.c:35-108 | `semaphore_init` gives a semaphore without waiters, or fails iff the count is negative; the locking calls go through iff the lock of the semaphore is free |
| `SchedulerSafety.YieldSwitches` | src/kernel/thread.c:156-202 | one yield: the first ready thread runs, the old one joins the end of the list of its state, nothing else moves |
| `SchedulerSafety.YieldStays` | src/kernel/thread.c:156-184 | with nobody ready a yielding thread goes on running |
| `SchedulerSafety.SectionRestores` | src/kernel/spinlock.c:41-78 | a critical section at any nesting depth gives back interrupt flag, nesting count and held locks |
| `SchedulerSafety.LockSafe` | src/kernel/semaphore.c:47-89 | `semaphore_lock` keeps the scheduler invariant, in the gap before its yield too |
| `SchedulerSafety.UnlockSafe` | src/kernel/semaphore.c:113-140 | `semaphore_unlock` keeps the invariant, and `thread_wakeup` in it passes its check |
| `SchedulerSafety.CreateSafe` | src/kernel/thread.c:352-365 | queueing a new thread keeps the invariant |
| `SchedulerSafety.StepSafe` | src/kernel/thread.c:156-247 | every call and every timer tick keeps the invariant (each thread in one place with the matching state, suspended iff once in its blocker's queue), hits no fatal check and finds no spin lock taken |
| `SchedulerRuns.BootSafe` | src/kernel/thread.c:132-144 | the state `thread_init` leaves is safe |
| `SchedulerRuns.RunSafe` | src/kernel/thread.c:156-247 | no interleaving of calls and ticks from a safe state reaches a fatal check or a taken spin lock |
| `SchedulerRuns.StarvesExactly` | src/kernel/thread.c:72-86 | without the thread that never blocks, `list_pop` finds nothing iff the last ready thread yields suspended |
| `SchedulerRuns.Starves` | src/kernel/thread.c:189-197 | it does happen: the only thread locks a semaphore of 0 |
| `SchedulerRuns.StepTurn` | src/kernel/thread.c:180-197 | only a schedule moves the ready threads up, by one |
| `SchedulerRuns.BoundedWait` | src/kernel/thread.c:180-221 | the thread at index k of `ready_list` runs at exactly the (k+1)-th schedule, whoever is woken or created meanwhile |
| `SchedulerRuns.ContKept` | src/kernel/thread.c:199-202 | a thread that does not run keeps the interrupt state it needs to go on |
| `SchedulerRuns.ReturnsAtOnce` | src/kernel/thread.c:230-247 | with nobody ready, `thread_yield` returns to its caller with flag, count and locks as they were |
| `SchedulerRuns.YieldRestores` | src/kernel/thread.c:165-247 | a thread that is switched away and comes back after any run finds interrupt flag, spin lock count and held locks as on its entry to `thread_yield` |
| `Permits.FreshBalanced` | src/kernel/semaphore.c:35-43 | a new semaphore starts with balanced books |
| `Permits.StepFifo` | src/kernel/semaphore.c:63-136 | every event keeps: blocked threads, in order, are those woken followed by those waiting |
| `Permits.ReturnsHanded` | src/kernel/semaphore.c:83-89 | a `semaphore_lock` that blocked returns only in a thread that an unlock handed a permit |
| `Permits.StepBalanced` | src/kernel/semaphore.c:35-140 | every event keeps the books of every semaphore |
| `Permits.PermitsConserved` | src/kernel/semaphore.c:35-140 | in every run count = initial + released - granted >= 0, count > 0 implies no waiters, waiters are woken in blocking order, and the permits granted but not yet returned with are exactly those handed over |
| `Permits.HoldersBounded` | src/kernel/semaphore.c:35-140 | if only holders unlock, a semaphore of n permits has at most n holders in every run |
| `Permits.RunGaps` | src/kernel/semaphore.c:83-89 | after any run every thread blocked in `semaphore_lock` waits on a semaphore that exists |
| `Permits.MutexExcludes` | src/kernel/mutex.c:32-56 | from `mutex_init` on, two threads that own the mutex after any run are the same thread |
| `Permits.MutexFromBoot` | src/kernel/mutex.c:32-56 | the same from `thread_init` on, with `mutex_init` called at any point of any run: at most one owner ever after |
| `Spinlocks.Processor.SpinLock` | src/kernel/spinlock.c:41-61 | agrees with the specification function: flag saved at depth 0, interrupts off, lock taken; a lock found taken spins for ever |
| `Spinlocks.Processor.SpinUnlock` | src/kernel/spinlock.c:64-78 | agrees with the specification function: both assertions, lock released, flag restored at depth 0 |
| `Threads.ListAppend` | src/kernel/thread.c:54-69 | the linked list becomes the old sequence with the thread at its end |
| `Threads.ListPop` | src/kernel/thread.c:72-86 | NULL for the empty list, else the first thread, and the list is the rest |
| `Threads.ListRemove` | src/kernel/thread.c:90-104 | the list loses the first occurrence of the thread, if any, and keeps its order |
| `Threads.ListSize` | src/kernel/thread.c:107-113 | the number of threads in the list |
| `Threads.Scheduler.constructor` | src/kernel/thread.c:132-144 | the initial objects stand for the boot state |
| `Threads.Scheduler.ThreadSchedule` | src/kernel/thread.c:156-200 | on linked lists and thread fields, the same outcome and state as the specification function, fatal checks included |
| `Threads.Scheduler.ThreadWakeup` | src/kernel/thread.c:206-224 | moves the thread from `suspended_list` to the end of `ready_list`, as specified; fatal if it is not suspended; the current thread, waking itself, is left in `ready_list` |
| `Threads.Scheduler.ThreadYield` | src/kernel/thread.c:230-247 | agrees with the specification up to its return in whichever thread has been switched to |
| `Threads.Scheduler.ThreadCreate` | src/kernel/thread.c:347-365 | the queueing part agrees with the specification |
| `Threads.Scheduler.SemaphoreInit` | src/kernel/semaphore.c:35-43 | a new semaphore with n permits and no waiters; fatal for n < 0 |
| `Threads.Scheduler.SemaphoreLock` | src/kernel/semaphore.c:47-81 | agrees with the specification: a permit taken, or a waiter queued and the thread suspended |
| `Threads.Scheduler.SemaphoreTryLock` | src/kernel/semaphore.c:93-109 | agrees with the specification, result included |
| `Threads.Scheduler.SemaphoreUnlock` | src/kernel/semaphore.c:113-140 | agrees with the specification: the first waiter is woken, even if it is the current thread, or the count goes up |
| `Threads.Scheduler.TimerTick` | src/kernel/thread.c:117-128 | agrees with a yield from the interrupt gate |
| `Threads.Scheduler.MutexInit` | src/kernel/mutex.c:32-35 | a mutex starts as a semaphore of 1 |
| `Threads.Scheduler.MutexLock` | src/kernel/mutex.c:39-42 | agrees with `semaphore_lock` on the embedded semaphore |
| `Threads.Scheduler.MutexTryLock` | src/kernel/mutex.c:46-49 | agrees with `semaphore_try_lock` on it |
| `Threads.Scheduler.MutexUnlock` | src/kernel/mutex.c:53-56 | agrees with `semaphore_unlock` on it |
| `Threads.Scheduler.RunTick` | src/kernel/thread.c:117-128 | on the objects a tick is the event of the runs: never fatal or stuck, and as safe after as before |
| `Threads.Scheduler.RunYield` | src/kernel/thread.c:230-247 | the same for `thread_yield` |
| `Threads.Scheduler.RunEntry` | src/kernel/thread.c:252-262 | the same for the end of `thread_entry` |
| `Threads.Scheduler.RunLock` | src/kernel/semaphore.c:47-89 | the same for `semaphore_lock` |
| `Threads.Scheduler.RunTryLock` | src/kernel/semaphore.c:93-109 | the same for `semaphore_try_lock` |
| `Threads.Scheduler.RunUnlock` | src/kernel/semaphore.c:113-140 | the same for `semaphore_unlock` |
| `Threads.Scheduler.RunCreate` | src/kernel/thread.c:347-365 | the same for the queueing part of `thread_create` |
| `Threads.Scheduler.RunInit` | src/kernel/semaphore.c:35-43 | the same for `semaphore_init` |
| `Threads.Scheduler.RunAll` | src/kernel/thread.c:166-253 | any legal interleaving of ticks and calls, made on the objects, ends in the state it has on values and meets no fatal check and no taken lock |
| `FlatMemory.FetchExact` | src/libx86emu/mem.c:275-296 | a byte read gives data or 0xff, marks that byte and no other, and errs iff the byte is not readable or was never written |
| `FlatMemory.FetchMarks` | src/libx86emu/mem.c:275-296 | bit by bit: a byte without permission reads as 0xff and is left alone; any other keeps data, permissions and validity, gets its access mark, and bit 7 if it was never written |
| `FlatMemory.WriteMarks` | src/libx86emu/mem.c:423-455 | bit by bit: a denied write sets bit 7 only; an allowed one stores the byte and sets valid and written |
| `FlatMemory.FetchAllExact` | src/libx86emu/mem.c:312-420 | a wide read gives each byte its own value and marks, at every address and across 2^32, and errs iff some byte does |
| `FlatMemory.WriteAllExact` | src/libx86emu/mem.c:423-527 | a wide write treats each byte on its own and errs iff some byte may not be written |
| `FlatMemory.ReadsBack` | src/libx86emu/mem.c:275-527 | what was written to readable and writable bytes is read back without error |
| `FlatMemory.FetchesCommute` | src/libx86emu/mem.c:411-420 | two byte accesses at different addresses may be made in either order |
| `FlatMemory.SetPermMeets` | src/libx86emu/mem.c:203-248 | `x86emu_set_perm` sets exactly the attributes of its range, for every memory, iff it starts above 0 or ends in the first page |
| `FlatMemory.SetPermFallsShort` | src/libx86emu/mem.c:226-234 | otherwise there is a memory in which it does not |
| `FlatMemory.TidyPainted` | src/libx86emu/mem.c:203-248 | a memory free of access marks outside the pages made stays so under `x86emu_set_perm` iff the attribute has no access mark or no page painted as a whole is still to be made |
| `EmuMemory.EmuMemory.GetPage` | src/libx86emu/mem.c:161-200 | returns the entry of the address, made if asked for; whatever it makes is invisible in the flat memory |
| `EmuMemory.EmuMemory.ReadByte` | src/libx86emu/mem.c:275-296 | does to the flat memory what `Fetch` does |
| `EmuMemory.EmuMemory.ReadByteAnyway` | src/libx86emu/mem.c:299-309 | the byte whatever its permissions, nothing changed |
| `EmuMemory.EmuMemory.ReadWord` | src/libx86emu/mem.c:312-344 | fast and slow path both equal two byte reads in value, marks and error, at every address |
| `EmuMemory.EmuMemory.ReadDword` | src/libx86emu/mem.c:347-384 | the fast and the slow path both equal four byte reads |
| `EmuMemory.EmuMemory.ExecByte` | src/libx86emu/mem.c:387-408 | the instruction-fetch counterpart of a byte read |
| `EmuMemory.EmuMemory.ExecWord` | src/libx86emu/mem.c:411-414 | equals two byte fetches |
| `EmuMemory.EmuMemory.ExecDword` | src/libx86emu/mem.c:417-420 | equals four byte fetches |
| `EmuMemory.EmuMemory.WriteByte` | src/libx86emu/mem.c:423-441 | does to the flat memory what `Write` does |
| `EmuMemory.EmuMemory.WriteByteAnyway` | src/libx86emu/mem.c:444-455 | stores the byte whatever its permissions |
| `EmuMemory.EmuMemory.WriteWord` | src/libx86emu/mem.c:458-489 | fast and slow path both equal two byte writes |
| `EmuMemory.EmuMemory.WriteDword` | src/libx86emu/mem.c:492-527 | the fast and the slow path both equal four byte writes |
| `EmuMemory.EmuMemory.SetPerm` | src/libx86emu/mem.c:203-248 | sets the attribute of exactly the addresses from start to the end it paints to, data untouched, unaligned ends and end = 0xffffffff included; that end falls short only in the case named by `FlatMemory.SetPermMeets` |
| `EmuMemory.EmuMemory.Clone` | src/libx86emu/mem.c:81-112 | an equal memory that shares no directory, table or buffer |
| `EmuMemory.CloneApart` | src/libx86emu/mem.c:81-112 | after a clone, of any sequence of writes to either side each memory has its own and no other |
| `EmuMemory.EmuMemory.ResetAccessStats` | src/libx86emu/mem.c:115-136 | clears the access marks of the pages that have been made and nothing else, and so of every byte iff no unmade page has a default attribute with a mark |
| `EmuMemory.UseAndReset` | src/libx86emu/mem.c:115-136 | if neither the default nor any attribute given to `x86emu_set_perm` has an access mark, then after any accesses a reset leaves no mark on any byte |
| `EmuMemory.MarkLeft` | src/libx86emu/mem.c:115-136 | an attribute with a mark, set on an untouched page, survives the reset |
| `EmuMemory.EmuMemory.MemIo` | src/libx86emu/mem.c:716-804 | the memory accesses do what `MemIoOn` says, and the result is the error flag |
| `EmuMemory.MemIoFetches` | src/libx86emu/mem.c:723-777 | what a read or an execution of 1, 2 or 4 bytes returns: those bytes, least significant first, each with its permission (bit 0 or 2) and its mark (bit 4 or 6), and no other byte touched |
| `EmuMemory.MemIoWrites` | src/libx86emu/mem.c:742-757 | a write stores the bytes of the value, each with its permission and marks, touches no other byte and keeps the value |
| `EmuMemory.MemIoAnyway` | src/libx86emu/mem.c:723-777 | the type without permissions reads a byte without a mark and stores one wherever it is; every other type does nothing |
| `EmuMemory.MemIoErrors` | src/libx86emu/mem.c:716-804 | an error is reported iff some byte of the access lacks the permission or, for reads and fetches, validity |
| `EmuMemory.MemIoReadsBack` | src/libx86emu/mem.c:716-804 | a read after a write gives the written value cut to its width, without error |
| `Flags86.ParityIsEven` | src/libx86emu/prim_ops.c:104-116 | the parity table says whether a byte has an even number of ones |
| `Flags86.Keeps` | src/libx86emu/include/x86emu_int.h:80-87 | CONDITIONAL_SET_FLAG sets one flag and keeps the others |
| `WideArithmetic.DivideLoop` | src/libx86emu/prim_ops.c:2401-2431 | the 33-step shift-subtract loop on two halves gives the quotient, capped at 33 ones and cut to 32 bits, and what it leaves of the dividend |
| `WideArithmetic.Divider.DivLong` | src/libx86emu/prim_ops.c:2384-2448 | registers and flags after the division, or a divide error with nothing changed |
| `WideArithmetic.DivideExact` | src/libx86emu/prim_ops.c:2384-2448 | `div_long` meets the architecture (exact quotient and remainder, or a divide error) iff EDX < s or EDX:EAX > s * 2^33 |
| `WideArithmetic.DivideWitness` | src/libx86emu/prim_ops.c:2432-2436 | 2^32 divided by 1 gives quotient 0 and no error |
| `WideArithmetic.Multiply` | src/libx86emu/prim_ops.c:2093-2103 | four partial products of halves give the exact 64-bit product; no sum on the way overflows |
| `WideArithmetic.Negate` | src/libx86emu/prim_ops.c:2104-2109 | the two-word two's complement, with its carry |
| `WideArithmetic.ImulLongDirect` | src/libx86emu/prim_ops.c:2079-2111 | the exact signed product of any two words, -2^31 included |
| `CarryChain.CarryOutOf` | src/libx86emu/prim_ops.c:309-314 | bit i of the carry chain is the carry out of the lowest i + 1 bits |
| `CarryChain.BorrowOutOf` | src/libx86emu/prim_ops.c:1876-1881 | bit i of the borrow chain is the borrow out of the lowest i + 1 bits |
| `CarryChain.SumOverflow` | src/libx86emu/prim_ops.c:359-364 | OF is exactly signed overflow and AF the nibble carry, at each width |
| `CarryChain.DifferenceOverflow` | src/libx86emu/prim_ops.c:1920-1925 | OF is exactly signed overflow, CF the borrow and AF the nibble borrow, at each width |
| `CarryChain.Alu.Add` | src/libx86emu/prim_ops.c:299-365 | sum modulo 2^w, with the flags that `CarryChain.SumReads` reads |
| `CarryChain.Alu.Adc` | src/libx86emu/prim_ops.c:214-293 | the same with the carry flag added |
| `CarryChain.Alu.Sub` | src/libx86emu/prim_ops.c:1866-1926 | difference modulo 2^w, with the flags that `CarryChain.DifferenceReads` reads |
| `CarryChain.Alu.Sbb` | src/libx86emu/prim_ops.c:1791-1860 | the same with the carry flag subtracted |
| `CarryChain.Alu.Cmp` | src/libx86emu/prim_ops.c:431-492 | the flags of the subtraction, the operand unchanged |
| `CarryChain.SumReads` | src/libx86emu/prim_ops.c:299-365 | after an addition CF is bit 0 and says unsigned overflow, PF (2) an even number of ones in the low byte, AF (4) a carry out of the low nibble, ZF (6) zero, SF (7) the sign, OF (11) signed overflow; no other bit changes |
| `CarryChain.DifferenceReads` | src/libx86emu/prim_ops.c:1866-1926 | the same after a subtraction or a comparison, with the borrow in CF and AF |
| `CarryChain.ComparedTwice` | src/libx86emu/prim_ops.c:431-492 | a comparison leaves nothing of the flags of an earlier one |
| `CarryChain.CompareDecides` | src/libx86emu/prim_ops.c:2713-2751 | after a comparison all 16 conditions decide what they are named for: B, BE, Z, L, LE the unsigned and the signed order, O, S and P signed overflow, sign and parity of the difference, odd numbers the opposite |
| `RotateCarry.CodeTurns` | src/libx86emu/prim_ops.c:832-1063 | RCL and RCR turn the ring of carry and operand by the count |
| `RotateCarry.RotationsAdd` | src/libx86emu/prim_ops.c:832-1063 | rotating by a and then by b is rotating by a + b, for all counts |
| `RotateCarry.RcrUndoesRcl` | src/libx86emu/prim_ops.c:832-1063 | RCR by n undoes RCL by n in value and carry, for all counts |
| `RotateCarry.Rotator.RotateLeft` | src/libx86emu/prim_ops.c:832-923 | value, CF and OF of `rcl_byte` and `rcl_word`; a count of 0 modulo 9 (17) changes nothing |
| `RotateCarry.Rotator.RotateRight` | src/libx86emu/prim_ops.c:953-1063 | value, CF and OF of `rcr_byte` and `rcr_word` |
| `StringOps.StringUnit.ScasByte` | src/libx86emu/ops.c:3125-3141 | one SCAS: the comparison of AL with the destination byte, its flags, and the index one element on |
| `StringOps.StringUnit.CmpsByte` | src/libx86emu/ops.c:2723-2743 | one CMPS, in the same way |
| `StringOps.StringUnit.RepScasByte` | src/libx86emu/ops.c:3095-3143 | the loop ends in the state after `Moved` elements: registers, flags, memory marks and pending fault |
| `StringOps.StringUnit.RepCmpsByte` | src/libx86emu/ops.c:2689-2745 | the loop ends in the state after `Moved` elements |
| `StringOps.RepeatStops` | src/libx86emu/ops.c:2689-2745 | with k the first element that ends it, n - k - 1 is left of the count and the indexes are k + 1 elements on in the direction of DF, modulo the address size; with none, the count is 0; ZF tells which, and CF whether the last left operand was below |
| `StringOps.Compared` | src/libx86emu/ops.c:2689-2745 | element j compares AL, or the byte of the source segment at ESI moved by j, with the byte of ES at EDI moved by j, up or down by DF |
| `StringOps.RepeatFaults` | src/libx86emu/ops.c:2689-2745 | a protection fault is pending afterwards iff one was before or an offset visited is beyond its limit |
| `StringOps.ByteSeen` | src/libx86emu/mem.c:275-296 | a readable byte is seen as its data and marked as read, any other as 0xff |
| `StringOps.OneMore` | src/libx86emu/ops.c:3108-3116 | one round of the loop takes the state after k elements to the state after k + 1 |
| `StringOps.TouchedKeeps` | src/libx86emu/mem.c:275-296 | reading any number of elements changes the value of no byte |
| `StackSlots.SlotsApart` | src/libx86emu/prim_ops.c:2644-2670 | two pushed items never share a byte, where SP or ESP wraps and where addresses wrap too |
| `StackSlots.PushStacks` | src/libx86emu/prim_ops.c:2644-2670 | a push leaves every item already on the stack readable as it was, and adds its own |
| `StackSlots.LoadStacked` | src/libx86emu/prim_ops.c:2676-2710 | a pop reads exactly the item pushed, and the others stay |
| `Processor86.Processor.CheckDataAccess` | src/libx86emu/decode.c:1745-1782 | a fault becomes pending iff the last byte, in 32-bit arithmetic, is beyond the limit |
| `Processor86.Processor.PushItem` | src/libx86emu/prim_ops.c:2644-2670 | `push_word` and `push_long` on SP or ESP |
| `Processor86.Processor.PopItem` | src/libx86emu/prim_ops.c:2676-2710 | `pop_word` and `pop_long` |
| `Processor86.Processor.PushAllRegisters` | src/libx86emu/ops.c:1137-1165 | PUSHA and PUSHAD have the effect of `Stack86.PushAll` |
| `Processor86.Processor.PopAllRegisters` | src/libx86emu/ops.c:1172-1198 | POPA and POPAD have the effect of `Stack86.PopAll` |
| `Processor86.Processor.IdtLookup` | src/libx86emu/decode.c:1965-1980 | the lookup has the effect of `Stack86.Vector`, read by `Stack86.InterruptGoes` |
| `Processor86.Processor.GenerateInt` | src/libx86emu/decode.c:1998-2041 | real-mode delivery has the effect of `Stack86.Interrupt`: restart, error code and a caller that handled it included |
| `Processor86.Processor.InterruptReturn` | src/libx86emu/ops.c:4023-4043 | IRET has the effect of `Stack86.Iret` |
| `Stack86.AllPushed` | src/libx86emu/prim_ops.c:2644-2670 | any number of items that fit are on the stack after being pushed, in order |
| `Stack86.AllPopped` | src/libx86emu/prim_ops.c:2676-2710 | they come off in reverse order, cut to their width, with the stack pointer where it was |
| `Stack86.LimitExact` | src/libx86emu/decode.c:1745-1780 | `check_data_access` raises a fault exactly when some byte of the access is beyond the limit, iff the access does not wrap at 2^32, or the limit is the last address, or the wrapped end is beyond it too |
| `Stack86.LimitWitness` | src/libx86emu/decode.c:1775-1777 | four bytes at 0xFFFFFFFE pass the check of a 64 KB segment |
| `Stack86.PushesFault` | src/libx86emu/prim_ops.c:2644-2670 | after any pushes the stack pointer is that many items down and a fault is pending iff one was before or the check of some item found it beyond the limit |
| `Stack86.PopsFault` | src/libx86emu/prim_ops.c:2676-2710 | the same for pops, upwards |
| `Stack86.PushAllStacks` | src/libx86emu/ops.c:1137-1165 | PUSHA leaves EAX, ECX, EDX, EBX, the ESP from before, EBP, ESI and EDI on the stack in this order, and changes nothing else |
| `Stack86.InterruptEnters` | src/libx86emu/decode.c:1998-2041 | after an interrupt flags, CS and IP, on a restart the saved CS and IP, are on the stack, IF and TF are off, CS base is 16 times the selector, and nothing else has changed but CS and IP |
| `Stack86.InterruptGoes` | src/libx86emu/decode.c:1965-2041 | execution goes on at the IP in the word at idt + 4 * nr and the CS in the word after it, restarting or not, with an error code or not; an interrupt the embedder took changes nothing |
| `Stack86.ErrorCodePushed` | src/libx86emu/decode.c:1998-2041 | an error code is one long on top of what is pushed without it; popped, it leaves the stack pointer at the return frame |
| `Stack86.SixteenBits` | src/libx86emu/decode.c:1998-2041 | pushed as 16 bits a word keeps its low half, and flags come back with bit 1 set |
| `Stack86.IretTakes` | src/libx86emu/ops.c:4023-4043 | IRET of either width takes IP, CS and flags off the stack, whoever put them there, and leaves the stack pointer above them |
| `Stack86.InterruptReturns` | src/libx86emu/ops.c:4023-4043 | a 16-bit IRET from any handler state that kept the return frame, restart or not, restores ESP, CS selector and base, IP and the low 16 flags with bit 1 set, for every SP |
| `Stack86.PushAllPopAll` | src/libx86emu/ops.c:1137-1198 | POPA after PUSHA restores every general register and ESP iff data and stack width agree or the skip over the pushed stack pointer does not carry out of 16 bits |
| `Stack86.PopAllWitness` | src/libx86emu/ops.c:1172-1198 | with 32-bit data, a 16-bit stack and SP = 0x10, POPA after PUSHA leaves ESP changed |
| `Printf.DigitsFit` | src/libc/stdio/printf.c:77-127 | a number below 2^k has at most k digits in any base, so the 66-byte buffer is never exceeded |
| `Printf.FillDigits` | src/libc/stdio/printf.c:115-127 | the buffer holds the digits, last one first |
| `Printf.Number` | src/libc/stdio/printf.c:74-149 | NULL for a base outside 2..36, else the text with sign, prefix, precision and padding is appended |
| `Printf.TextLength` | src/libc/stdio/printf.c:74-149 | the length is max(width, sign + prefix + max(precision, digits)) |
| `Printf.TextShows` | src/libc/stdio/printf.c:74-149 | without padding: the sign character by SIGN, PLUS and SPACE, then "0x" or "0" by HEX_PREP, then as many digits as the number has or the precision asks for, letters being capital iff UPPERCASE is set |
| `Printf.TextPads` | src/libc/stdio/printf.c:74-149 | spaces follow the text with LEFT and precede it without; with ZEROPAD alone the width acts as a precision for the digits |
| `Printf.DigitCase` | src/libc/stdio/printf.c:77-80 | digit d is the d-th of 0..9 and then of A..Z with UPPERCASE, of a..z without |
| `Printf.TextReads` | src/libc/stdio/printf.c:74-149 | read back by an independent scanner the text gives the number: unsigned, or signed under SIGN, the minimum long included |
| `Printf.DigitsRead` | src/libc/stdio/printf.c:115-127 | the digits, in the base, read as the magnitude |

## Left out

Memory of the kernel:

- PAE and x86_64 paging, where the free stack is not covered by one page table.
- 4 MB pages, user-mode access rights, and TLB entries that the processor fills without an access.
- The counters of used, unavailable and detected memory, which are only printed.
- Callers of `pmm_free_page` are taken to free only frames they were given and have not freed; callers of the heap to
  stay below 0xFF000000 and of `vmm_unmap` below the free stack. `VmRuns.HeapOverrun` shows why; what a heap beyond
  0xFF400000 does to a free stack that is already lost is not modelled.
- What callers themselves store in the frames they hold is not an operation of a run.
- Boot maps whose entries overlap: a page listed twice would be handed out twice.

Scheduler:

- The body of `thread_switch`, the stack frames `thread_create` builds, `thread_exit`: a switch saves and resumes
  the continuation of a thread, which here is its place, its interrupt flag and its saved flag.
- Threads.Scheduler.RunAll: the run creates no threads or semaphores, whose objects have no name before they exist;
  `RunCreate` and `RunInit` do, one at a time, and leave the state a run needs.
- A call of `semaphore_lock` that blocks is cut at its call of `thread_yield`; the rest is the event `GapYield`.
- `waiter_t` lies on the stack of the blocked thread; here it is an object of its own.
- The spin loop of `spin_lock` is the outcome `Stuck`, which is proved never to occur.
- Several processors, the timer chip and the interrupt controller.

Emulator memory:

- `x86emu_set_page`, which lets two pages share memory of the host, and `emu_mem_free`.
- EmuMemory.EmuMemory.MemIo: port access (`vm_i_*`, `vm_o_*`) reaches hardware and does nothing here.
- The branches for big-endian or strictly aligned hosts.

Emulated processor:

- The registers of `M.x86` are spread over the modules that use them; string and stack instructions work on the flat
  memory, which `EmuMemory` refines.
- A protection fault is only recorded as pending, as the code does; its delivery by the main loop is not modelled.
- Protected mode in `x86emu_set_seg_register`, `idt_lookup` and `generate_int`, and the interrupt statistics.
- RotateCarry.Rotator.RotateLeft: operands are bit strings, so one proof covers 8 and 16 bits; the 32-bit rotates, whose
  shifts by 32 are undefined in C, are not claimed.
- RotateCarry.Rotator.RotateRight: as for RotateLeft.
- StringOps.StringUnit.RepScasByte: the word and long forms repeat the byte form with another step and are left out, as are
  MOVS, STOS and LODS, which have no early end.
- StringOps.StringUnit.RepCmpsByte: as for RepScasByte.
- `idiv_*`, the high word of `mul_long`, the flags of IMUL, shifts, BCD adjustments.
- Logging, tracing, the time-stamp counter and disassembly.

ee_number:

- Printf.Number: width and precision are unbounded integers; the wrap-around of `size` for widths at the end of the range
  of int is not modelled. Negating the minimum long is taken to wrap, as it does on the hardware.
- The format parser around it and floating-point printing.
