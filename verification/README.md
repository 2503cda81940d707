# NyxoraRT in Dafny

A model of the parts of NyxoraRT whose correctness is not visible in any one function, with proofs about every run,
every input and every reachable state. `dafny verify dfyconfig.toml` checks all of it.

- **Synchronisation objects.** Guest mutexes and condition variables (`Sync`, `SyncSteps`, `SyncProof`, `SyncPreserve`,
  `SyncPreserveCond`, `SyncTheorems`, `SyncRuns`, `SyncProgress`) and counting semaphores (`Semaphore`) are step machines
  over any number of threads. One step is one stretch between acquisitions of a host lock. Sleeping, waking (spuriously
  or not), timing out and notifying are steps of their own, and the guest may rewrite its memory between any two steps.
  An invariant is shown of every run, and the theorems are read off it. `SyncRuns` follows a whole wait and a whole
  broadcast, and `SyncWitness` is one concrete run. Whole calls, from the call to the code it returns, are followed by
  `SyncCalls`, `SyncCodes`, `SyncSignals` and `SemaphoreCalls`; `SyncExclusion` states mutual exclusion by these codes
  alone, `SyncRefusals` says what each error code means, `SyncAlone` what a call answers when nothing comes in between,
  and `SyncOrder` in which order waiters are served.
- **Virtual memory.** `AddressSpace.GuestAddressSpace` is the interval map, buffered or over a native arena, as a class
  whose methods split, erase and roll back in place. `Regions` gives its meaning, a flat map from addresses to cells
  (byte, protection, kind, memory type, offset). `HostPages` says what the host's pages must carry; the host is an
  oracle that may refuse to change a protection. `VmServices.KernelVm` adds direct and flexible memory on top.
  `VmState.Books` is the invariant of that bookkeeping, `VmFrames` says what a call leaves alone, and `VmSearch`,
  `VmScans`, `DirectMemory` and `VmRelease` hold the searches, the allocation table and what stands over it.
- **TCB access rewriting.** `X86` is a byte-level decoder and a register, flag and memory semantics. `TcbThunk` emits the
  bytes, `TcbEquivalence` shows that running them is running the original instruction, `TcbInline` says when the patch of
  field 0 is exact, `TcbScan` is the sweep that patches live code, `TcbBroken` shows what refusals can leave of it,
  `TcbPass` puts them together, and `TcbSegment` says what becomes of an instruction by what the machine finds in its
  bytes.
- **Threads.** `ThreadManager` is the claim, wait and erase protocol of join and detach as interleaved steps,
  `ThreadCalls` follows whole create, join and detach calls.
- **PM4.** `Pm4` gives the meaning of a command stream, `Pm4Processor` the decoder and the processor as classes, and
  `Pm4Effects` says, word by word, what encoded packets leave in the registers and which programs a draw runs.
- **Modules and linking.** `ModuleOrder` is the depth-first initialisation order, `Lifecycle` the initialise and
  finalise calls, `LifecycleCalls` what one of them comes to, `LifecycleRuns` what holds over their runs.
  `SymbolRegistry`, `Linker`, `LinkHistory` and `RuntimeLinker` are symbol resolution and relocation over byte memory,
  `LinkedWords` says which value every word ends up with, `LateThunk` is the machine code of a late-import thunk, and
  `LateCalls` says where a call through one arrives.

Some properties one might expect do not hold of the code as it is. Each comes with a witness and the exact condition:

- `sem_destroy` reads its slot twice. Over a whole run no waiter loses its semaphore if and only if no second read names
  another semaphore with waiters (`Semaphore.WaitersNeverDangle`; `Semaphore.ReboundHappens` is a run in which one does).
  A guest that leaves the slot alone during the call is safe (`Semaphore.SteadySlotsSafe`).
- A wait whose slot is rebound comes back with another mutex or an error. It ends with the mutex it released, at the
  depth it had, if and only if the slot names that mutex when the wait looks it up again
  (`SyncRuns.WaitRestoresMutex`; `SyncWitness.ReboundWaitHappens` is a run in which the guest clears the slot).
- The inline patch of an access to field 0 of the TCB is exact if and only if the TEB slot holds what field 0 holds
  (`TcbEquivalence.InlinedMovExactly`, `TcbInline.InlinedXorExactly`, `TcbInline.InlinedCmpExactly`). The runtime sets
  both to the TCB's address; a guest store of anything else to field 0 breaks it (`TcbInline.GuestStoreDecides`,
  `TcbInline.GuestStoreBreaksInline`).
- An access that the patcher reports as unsupported is left as it was, unless the host grants one write and refuses the
  next: then it is half patched, exactly under `TcbScan.Patcher.Cut` (`TcbBroken.HalfInlinedHappens`,
  `TcbBroken.UnflushedHappens`).
- A module can be initialised twice when a program is initialised again after a failed finalisation
  (`LifecycleRuns.ReinitialisedAfterFailedFini`). No module is, if and only if each such call finds every module still up
  (`LifecycleRuns.LifecycleExact`).
- Two relocations whose words overlap spoil each other unless their values agree on the shared bytes
  (`LinkHistory.OverlapExactly`; `LinkHistory.OverlapHappens` is a module for which they do not).

## Model

| member | source | states |
|---|---|---|
| SyncTheorems.RunsKeepInv | src/runtime/kernel_services.cpp:2079-2639 | Every state of every run of the mutex and condition machine satisfies the invariant: lock ownership, tables, records, waits, queues, pending wake-ups and the history told to the guest agree. |
| SyncTheorems.QueuedExactly | src/runtime/kernel_services.cpp:2486-2576 | A waiter is queued exactly while it is enqueued, unsignalled and not timed out; queues hold nothing else and nothing twice. |
| SyncTheorems.SignalMarksOne | src/runtime/kernel_services.cpp:2585-2611 | A signal on a non-empty queue pops and marks its front waiter, which was unmarked, and no other. |
| SyncSignals.SignalCall | src/runtime/kernel_services.cpp:2585-2639 | A whole signal or broadcast call that returns 0 marks, of the waiters queued at some moment of the call on a condition that its slot named, exactly the first or exactly all. |
| SyncOrder.FirstComeFirstServed | src/runtime/kernel_services.cpp:2506-2639 | Over every run, of two waiters queued on a condition the one that joined first is ahead, whatever was signalled or timed out in between; no waiter is taken before it. |
| SyncTheorems.BroadcastMarksAll | src/runtime/kernel_services.cpp:2613-2639 | When a broadcast is done every waiter it set out to mark is marked and the queue is empty. |
| SyncRuns.BroadcastMarksExactly | src/runtime/kernel_services.cpp:2613-2639 | Over a whole broadcast, the waiters it marks and goes on to notify are exactly those queued when it took the record lock, in their order, and the queue is left empty. |
| SyncTheorems.MarkedOnce | src/runtime/kernel_services.cpp:2585-2639 | Over a whole run at most one step marks a given waiter: no signal is spent twice. |
| SyncTheorems.NoSignalLost | src/runtime/kernel_services.cpp:2534-2582 | A wait returns 0 exactly when it was marked; a wait that timed out is unmarked and off the queue, so a marked waiter never returns ETIMEDOUT. |
| SyncTheorems.WaitReturnsOwning | src/runtime/kernel_services.cpp:2578-2582 | A wait that returns 0 or ETIMEDOUT owns the mutex it rejoined, at the depth that the history told to the guest gives it. |
| SyncRuns.WaitRestoresMutex | src/runtime/kernel_services.cpp:2486-2582 | From the step that releases the mutex to the return: the wait ends with that mutex if and only if its slot names it at the one later look-up, and then it returns 0 or ETIMEDOUT owning it at the depth held on entry. |
| SyncRuns.UndisturbedWait | src/runtime/kernel_services.cpp:2486-2582 | So a wait whose slot names the released mutex throughout always returns 0 or ETIMEDOUT with that mutex at its entry depth. |
| SyncWitness.ReboundWaitHappens | src/runtime/kernel_services.cpp:2486-2582 | A concrete run in which the guest clears the slot during a timed wait: the wait returns ETIMEDOUT with a mutex that the look-up made, and the one it released is free. |
| SyncTheorems.WaitSavesDepth | src/runtime/kernel_services.cpp:2486-2516 | The depth saved is the depth the caller held, and the waiter is queued in the very step that frees the mutex. |
| SyncTheorems.SignallerFindsWaiter | src/runtime/kernel_services.cpp:2486-2639 | Whoever signals or broadcasts after a waiter has released the mutex finds it queued, unless it has been marked already; a broadcast sets out to mark the whole queue. |
| SyncTheorems.MutualExclusion | src/runtime/kernel_services.cpp:2079-2150 | In every state, the history of locks and unlocks told to the guest gives a mutex to one thread at most; by the codes that calls return, this is `SyncExclusion.ExclusionBetweenCalls`. |
| SyncExclusion.ExclusionBetweenCalls | src/runtime/kernel_services.cpp:2079-2150 | Over every run, by returned codes only: if one thread comes back from a lock with 0, or from a wait, with a mutex, and another thread then comes back with the same one, the first called unlock or wait in between. |
| SyncExclusion.AcquiredIsHeld | src/runtime/kernel_services.cpp:2079-2582 | A thread that comes back from such a call owns the mutex. |
| SyncCodes.LockReturn | src/runtime/kernel_services.cpp:2079-2120 | In the step in which a lock returns, the code is 0 if and only if the thread owns a mutex and the history grew by exactly that lock; any other code leaves the history and all it holds. |
| SyncCodes.LockCall | src/runtime/kernel_services.cpp:2079-2120 | A whole lock call, with any steps of others between: it returns 0 and the thread holds, once more than before, a mutex that the slot named during the call; or an error, and it holds what it held. |
| SyncCodes.UnlockCall | src/runtime/kernel_services.cpp:2122-2150 | A whole unlock call: it returns 0 and the thread holds such a mutex once less; or an error, and it holds what it held. |
| SyncCodes.OthersSpare | src/runtime/kernel_services.cpp:2079-2639 | No step of another thread, nor of the guest, changes what a thread holds. |
| SyncCalls.StaysWithin | src/runtime/kernel_services.cpp:2038-2639 | From a call to its return a thread is only at places that belong to this call, with its slot and its kind of wait. |
| SyncCalls.OnlyTimedExpire | src/runtime/kernel_services.cpp:2430-2582 | Over every run, no call but a timed wait returns ETIMEDOUT. |
| SyncRefusals.RefusedFor | src/runtime/kernel_services.cpp:2038-2639 | Over every run, a call that returns an error, other than a wait that had released its mutex, was refused for the reason its code stands for: no object in the slot, not the owner, deadlock, depth, busy, or memory that cannot be written. |
| SyncAlone.LockAlone | src/runtime/kernel_services.cpp:2079-2120 | A lock with nothing in between takes a free mutex or an own recursive one below its depth limit, reports EDEADLK on an own one of the checking kinds and EAGAIN at the limit, and waits otherwise. |
| SyncAlone.LockMakes | src/runtime/kernel_services.cpp:1990-2036 | A lock on a slot that stands for a mutex not made yet makes one of the kind that the slot says, publishes it there and takes it; otherwise EINVAL. |
| SyncAlone.WokenAnswers | src/runtime/kernel_services.cpp:2108-2119 | A waiter that is woken, spuriously or not, takes the mutex if nobody owns it and waits on otherwise. |
| SyncAlone.UnlockAlone | src/runtime/kernel_services.cpp:2122-2150 | An unlock with nothing in between: the owner gives the mutex up once, and has a waiter to notify exactly at the last level; anyone else gets EPERM. |
| SyncAlone.UnlockRefused | src/runtime/kernel_services.cpp:2122-2150 | Unlocking a mutex not made yet is EPERM, and what cannot be one EINVAL, with nothing changed. |
| SyncAlone.UnlockNotifies | src/runtime/kernel_services.cpp:2122-2150 | The notification that ends an unlock wakes a thread asleep on the mutex if there is one. |
| SyncAlone.InitAlone | src/runtime/kernel_services.cpp:2038-2077 | An init with nothing in between makes a mutex of the kind asked for and publishes it, or is refused with EBUSY or EINVAL, each exactly where it should be. |
| SyncAlone.DestroyAlone | src/runtime/kernel_services.cpp:2152-2179 | A destroy with nothing in between takes an idle mutex out of the table and marks the slot; a busy one stays, with EBUSY. |
| SyncAlone.CondInitAlone | src/runtime/kernel_services.cpp:2365-2397 | A condition init with nothing in between makes a new condition without waiters and publishes it, or is refused with EINVAL exactly where the slot cannot be written. |
| SyncAlone.CondDestroyAlone | src/runtime/kernel_services.cpp:2399-2428 | A condition destroy with nothing in between takes an idle condition out of the table and marks the slot; one with waiters stays, with EBUSY; an unused slot is fine and a wrong one EINVAL. |
| SyncTheorems.NoMutexWakeupLost | src/runtime/kernel_services.cpp:2108-2149 | While a mutex is free and a thread sleeps on it, a notification is pending or a woken waiter has yet to re-check, whoever barges in. |
| SyncTheorems.NoTokenWakeupLost | src/runtime/kernel_services.cpp:2585-2639 | While a marked waiter sleeps on its token, the notification for it is pending. |
| SyncTheorems.NoneDangling | src/runtime/kernel_services.cpp:2152-2179 | Owners, mutex waiters and queued condition waiters always refer to records that are still in their table. |
| SyncTheorems.RanksIncrease | src/runtime/kernel_services.cpp:2474-2504 | Every acquisition takes a host lock ranked above all those its thread holds. |
| SyncTheorems.NoHostLockCycle | src/runtime/kernel_services.cpp:2474-2504 | No state has a cycle of threads that wait for each other's host locks. |
| SyncProgress.ReadySteps | src/runtime/kernel_services.cpp:2079-2639 | In a reachable state a thread can step if and only if no other holds the host lock that it wants, while there are handles left: no record, token or sleeper that a step relies on is ever missing. |
| SyncProgress.SomeoneSteps | src/runtime/kernel_services.cpp:2564-2576 | From any thread, following who blocks whom reaches a thread that can step. |
| Semaphore.TokensConserved | src/runtime/kernel_services.cpp:2836-2913 | The value is the initial value plus successful posts minus successful waits, within 0..0x7fffffff, in every state of every run. |
| SemaphoreCalls.SemaphoreCall | src/runtime/kernel_services.cpp:2728-2930 | A whole call, with any steps of others between: returning 0, a wait, try or post has taken or posted exactly one token of a semaphore that its slot named during the call, and an init has created one; any error, a destroy and a look at the value leave all counts. |
| SemaphoreCalls.LastStep | src/runtime/kernel_services.cpp:2836-2913 | By the state in which the call is answered: a wait or try returns 0 if and only if there is a token, and ETIMEDOUT only once expired; a post is refused exactly where the count is full; a destroy is EBUSY exactly if somebody waits, and otherwise empties the slot and its table entry; a slot that names no semaphore is EINVAL. |
| SemaphoreCalls.AtOnce | src/runtime/kernel_services.cpp:2728-2765 | Only an init or a destroy is answered at once: EINVAL exactly for a bad value or slot, and 0 for an init of no slot; nothing else changes. |
| Semaphore.NoWakeupLost | src/runtime/kernel_services.cpp:2873-2913 | While tokens are available and a thread sleeps, a notify_all is pending, under concurrent posts, takers and destroys. |
| Semaphore.WaitersNeverDangle | src/runtime/kernel_services.cpp:2760-2780 | Over every run, each published waiter keeps its semaphore in the table if and only if no destroy step is rebound. |
| Semaphore.SteadySlotsSafe | src/runtime/kernel_services.cpp:2760-2780 | If the slot still holds the handle at the second read of every destroy, no waiter ever dangles. |
| Semaphore.DestroyDanglesIffRebound | src/runtime/kernel_services.cpp:2760-2780 | A destroy step leaves a waiter dangling if and only if its second read of the slot names a semaphore with waiters. |
| Semaphore.ReboundHappens | src/runtime/kernel_services.cpp:2760-2780 | A concrete run in which that happens. |
| ThreadManager.ReapLoop | src/runtime/thread_manager.cpp:202-211 | Erasing while iterating removes exactly the finished detached records. |
| ThreadManager.ClaimsStayValid | src/runtime/thread_manager.cpp:105-200 | No reachable record is both detached and claimed; the record that a claimant uses outside the lock is live and its own. |
| ThreadManager.OnlyClaimantRemoves | src/runtime/thread_manager.cpp:105-211 | A claimed record disappears only in a step of its claimant. |
| ThreadManager.JoinNeverLosesRecord | src/runtime/thread_manager.cpp:155-180 | The re-check after waiting always succeeds: the joiner erases its record and reports its worker's outcome. |
| ThreadManager.DeliveredOnce | src/runtime/thread_manager.cpp:105-180 | Over every run each worker's result reaches at most one joiner, and it is the worker's own value. |
| ThreadManager.TimedOutLeavesJoinable | src/runtime/thread_manager.cpp:105-180 | After a timed-out join the next join claims the same record. |
| ThreadCalls.JoinCall | src/runtime/thread_manager.cpp:105-180 | A whole join call returns 0 if and only if it erases the record at its handle and delivers its worker's value; each error stands for its reason and delivers nothing. |
| ThreadCalls.DetachCall | src/runtime/thread_manager.cpp:182-200 | A detach returns 0 if and only if the record is there, neither detached nor claimed, and then marks just it; ESRCH and EINVAL exactly otherwise, with no record changed. |
| ThreadCalls.CreateCall | src/runtime/thread_manager.cpp:25-85 | A create that returns 0 has added one started, unclaimed record with a new identity, as detached as asked for, at a free handle; one that fails only reaps. |
| ThreadCalls.DetachedForGood | src/runtime/thread_manager.cpp:105-211 | Once a thread is detached, its record stays detached for as long as it exists, and no join of the rest of the run delivers its value. |
| AddressSpace.GuestAddressSpace.Map | src/memory/guest_address_space.cpp:43-76 | Adds a region exactly if its range is free and, over an arena, the host agrees; a host that refuses nothing agrees exactly to whole pages of the arena. Every other address keeps its cell and every page its protection. |
| AddressSpace.GuestAddressSpace.Unmap | src/memory/guest_address_space.cpp:78-91 | Removes exactly one region, named by base and size; refusal changes neither table nor pages, and if the host refuses nothing there is none. |
| AddressSpace.GuestAddressSpace.UnmapRange | src/memory/guest_address_space.cpp:93-193 | Success takes exactly the range out of the flat map, over any regions and holes, and spares the regions it does not meet; refusal restores the earlier table and page protections exactly. If the host refuses nothing, it succeeds exactly when what it takes out of each region is whole pages. |
| AddressSpace.GuestAddressSpace.ClosePages | src/memory/guest_address_space.cpp:164-192 | Closes all the listed pages, or puts every one of them back. |
| AddressSpace.GuestAddressSpace.Protect | src/memory/guest_address_space.cpp:195-209 | Reprotects exactly one region in the flat map and on the host; succeeds for every region if the host refuses nothing. |
| AddressSpace.GuestAddressSpace.ProtectRange | src/memory/guest_address_space.cpp:211-270 | Reprotects exactly a range within one region, splitting it; bytes, kinds, types and offsets stay. If the host refuses nothing, it succeeds exactly for a whole region or for whole pages of one. |
| AddressSpace.GuestAddressSpace.FindRegion | src/memory/guest_address_space.cpp:272-290 | Returns the region that contains an address, and nothing only if none does. |
| AddressSpace.GuestAddressSpace.Write | src/memory/guest_address_space.cpp:292-310 | Writes all the bytes within one writable region or none; everything else in the flat map stays. |
| AddressSpace.GuestAddressSpace.Patch | src/memory/guest_address_space.cpp:312-347 | The same whatever the protection, and leaves the page protections as they were; in a buffered space it fails only outside a region. |
| AddressSpace.GuestAddressSpace.Zero | src/memory/guest_address_space.cpp:368-388 | Clears a range within one writable region and nothing else. |
| AddressSpace.GuestAddressSpace.View | src/memory/guest_address_space.cpp:390-408 | Returns exactly the bytes of the flat map, and only for a range within one region. |
| Regions.RemovedWhole | src/memory/guest_address_space.cpp:102-192 | Replacing the regions that meet a range by what is left of them takes exactly the range out of the flat map. |
| Regions.OneCell | src/memory/guest_address_space.cpp:43-76 | The table gives each address at most one cell. |
| Removals.PreparedCommits | src/memory/guest_address_space.cpp:102-192 | Once all parts are prepared, committing removes exactly the range and keeps regions disjoint, keyed by base and sized to their storage. |
| HostPages.AfterRemoval | src/memory/guest_address_space.cpp:164-192 | After closing the listed parts each host page carries the protection of the region it now belongs to, or none. |
| HostPages.PagesApart | src/memory/native_arena.cpp:130-150 | Different regions never share a host page. |
| VmSearch.FindFreeMapping | src/runtime/kernel_services.cpp:318-370 | The least 16 KiB-aligned place at or above the start point that is free and inside the arena; nothing only if there is none, up to the top of the 64-bit space. |
| VmSearch.FindDirect | src/runtime/kernel_services.cpp:745-772 | The least aligned spot in the window clear of all blocked ranges, which may overlap; failure only if there is none. |
| VmSearch.LongestDirect | src/runtime/kernel_services.cpp:679-712 | The longest aligned free range of the window. |
| VmSearch.AllocatesIffAvailable | src/runtime/kernel_services.cpp:652-772 | A spot for a size exists exactly when the size is at most the longest free range. |
| VmSearch.AllocateAgreesWithAvailable | src/runtime/kernel_services.cpp:652-772 | Run on the same state, the two loops agree about every size. |
| VmScans.BlockedRanges | src/runtime/kernel_services.cpp:455-475 | Non-empty ranges, sorted by start, that cover exactly the allocated and mapped addresses of direct memory. |
| VmScans.SumFlexible | src/runtime/kernel_services.cpp:1341-1372 | The loop over regions counts exactly the flexible addresses of a range. |
| VmScans.FirstFit | src/runtime/kernel_services.cpp:1004-1035 | The least place of the flexible window that meets no region, or nothing if there is none. |
| DirectMemory.HasAllocation | src/runtime/kernel_services.cpp:531-554 | True if and only if every address of the range is allocated. |
| DirectMemory.Covered | src/runtime/kernel_services.cpp:556-576 | True if and only if the range is allocated throughout with one memory type, which it returns. |
| DirectMemory.PlanRelease | src/runtime/kernel_services.cpp:796-846 | The remaining table lacks exactly the requested addresses; the segments to unmap are exactly the intersection with what was allocated. |
| DirectMemory.TrimHas | src/runtime/kernel_services.cpp:810-846 | Trimming allocations around a range takes exactly the range out of the allocated set. |
| VmState.UsedAtMostCapacity | src/runtime/kernel_services.cpp:416-438 | Flexible memory in use never exceeds its capacity. |
| VmState.BooksBound | src/runtime/kernel_services.cpp:428-438 | Flexible and direct regions lie in disjoint windows, direct ones at allocated addresses. |
| VmServices.KernelVm.constructor | src/runtime/kernel_services.cpp:385-400 | Starts with balanced books over a window that is exactly the whole guest pages of the arena. |
| VmServices.KernelVm.SetFlexibleMemorySize | src/runtime/kernel_services.cpp:416-426 | Succeeds exactly for a page multiple within the window before anything is allocated or mapped. |
| VmServices.KernelVm.AllocateDirect | src/runtime/kernel_services.cpp:719-794 | Success allocates the least free aligned range of the window, clears it and writes its address to the guest, and nothing else changes. Failure allocates and unmaps nothing and changes no byte, except that ENOMEM may have cleared part of the least free range, which stays unmapped. EAGAIN only if there is no range; EINVAL exactly for bad arguments. If the host refuses nothing and its pages divide the guest's, it succeeds exactly when there is a range. |
| VmServices.KernelVm.AvailableDirect | src/runtime/kernel_services.cpp:652-717 | Writes address and size of the longest free aligned range of the window (the size last, where the two words overlap) and nothing else; fails only with ENOMEM, if there is none, or EINVAL, exactly for bad arguments, and then changes nothing. |
| VmServices.KernelVm.ReleaseDirect | src/runtime/kernel_services.cpp:796-870 | Success removes exactly the requested part of the allocated set, unmaps exactly its canonical addresses and leaves mappings in holes alone; no byte changes. EINVAL, ENOENT and ENOTSUP exactly when they should be, and ENOMEM only where the host refuses; failure keeps the allocations, and the mappings too, except that ENOMEM leaves those below some point of the range unmapped. |
| VmServices.KernelVm.MapDirect | src/runtime/kernel_services.cpp:872-956 | Maps only a range allocated throughout with one memory type, only at its canonical address, aligned as asked, which the slot must name or leave open, with the requested protection and name; it displaces nothing but direct memory. Outside the range every address keeps its cell and no byte changes but the result word. Failure changes no byte and no mapping, except that ENOMEM and EFAULT may have taken out what was to be replaced. Each code has its reason; a host that refuses nothing leaves ENOMEM only for MAP_NO_OVERWRITE, and success whenever all is in place. |
| VmServices.KernelVm.MapFlexible | src/runtime/kernel_services.cpp:958-1086 | On every path the bytes booked are the bytes mapped, within budget and window. Success maps clear memory at the address in the slot with MAP_FIXED, else at the first open place, displaces nothing but flexible memory and reservations, and touches nothing outside it but the result word. Failure without MAP_FIXED keeps every mapping and every mapped byte; with it, it may also have taken out the target. Each code has its reason; success whenever all is in place and the host refuses nothing. |
| VmServices.KernelVm.Mprotect | src/runtime/kernel_services.cpp:1088-1115 | Reprotects exactly the guest pages that hold the range and changes no byte; EINVAL exactly for bad arguments, ENOMEM otherwise. In a buffered space, or if the host refuses nothing and its pages divide the guest's, it succeeds if and only if they lie in one region. |
| VmServices.KernelVm.MapMemory | src/runtime/kernel_services.cpp:1117-1322 | A mapping is at the address asked for or at the least free place, with the kind, rights, offset and contents its flags call for; no direct or flexible memory is displaced, and outside the range no cell and no byte changes. If the host refuses nothing: without MAP_FIXED it succeeds if and only if the arguments are good and some free aligned place from the hint on is in the arena; with it, if and only if the range is in the arena and meets nothing but ordinary memory in whole pages, or nothing at all under MAP_NO_OVERWRITE. Each refusal has its code. Refusal changes no byte of mapped memory and no mapping, except that MAP_FIXED may have taken out ordinary memory in its range. |
| VmServices.ScreensExactly | src/runtime/kernel_services.cpp:1117-1205 | The arguments are good exactly under the conditions of the call, and are then rounded up to the least guest pages, with write implying read; otherwise the code is EINVAL, ENOTSUP or the file's, each for its reasons. |
| VmServices.MapsAsAsked | src/runtime/kernel_services.cpp:1230-1322 | By its flags and on the fields of the region: anonymous, stack, reserved or file, in this order, with its rights, offset and first bytes; a file mapping is never writable, a reservation has no rights. |
| VmServices.KernelVm.UnmapMemory | src/runtime/kernel_services.cpp:1341-1372 | Takes out exactly the pages that the address and size name, returns their flexible bytes to the budget and changes no byte; it fails only with EINVAL, and then changes nothing; in a buffered space it fails only for a zero or overflowing size, and over a host that refuses nothing only for these, outside the arena, or for parts of host pages. |
| Align.CheckedAlignUp | include/nyxora/base/types.hpp:11-18 | The least multiple at or above the value, refused exactly for zero operands and on overflow of the sum. |
| Align.AlignUpMultiple | src/runtime/kernel_services.cpp:124-137 | The least multiple at or above the value, refused exactly on overflow. |
| TcbThunk.RelativeDisplacement | src/runtime/cpu_patches.cpp:143-162 | A displacement exactly when the signed distance fits in 32 bits, and then that distance. |
| TcbThunk.ListingIsBody | src/runtime/cpu_patches.cpp:204-245 | The emitted bytes are exactly the encodings of an instruction listing. |
| TcbThunk.BuildsExactly | src/runtime/cpu_patches.cpp:204-245 | A thunk can be built for every access but CMP and XOR on the stack pointer, if and only if its last jump reaches back; its size depends on the access alone. |
| TcbThunk.BodySound | src/runtime/cpu_patches.cpp:72-140 | Each emitted encoding, whatever follows it, decodes to the intended instruction, for all 16 registers. |
| TcbThunk.DecodesJump | src/runtime/cpu_patches.cpp:143-174 | An emitted near jump decodes to a jump to its target. |
| TcbEquivalence.BodyEffect | src/runtime/cpu_patches.cpp:204-245 | Executing a thunk body has the registers and flags of the original access, for every operation, destination and offset. |
| TcbEquivalence.PatchedSiteEquivalent | src/runtime/cpu_patches.cpp:204-278 | Running the patched site and its thunk gives the registers, flags, next instruction and memory of the original FS access, except for the 8 bytes at [rsp-136, rsp-128) for CMP and XOR. |
| TcbEquivalence.InlinedMovExactly | src/runtime/cpu_patches.cpp:186-202 | The inline patch of a MOV is exact if and only if the TEB slot holds what field 0 of the TCB holds. |
| TcbInline.InlinedXorExactly | src/runtime/cpu_patches.cpp:186-202 | The same for XOR, whatever the destination holds. |
| TcbInline.InlinedCmpExactly | src/runtime/cpu_patches.cpp:186-202 | The same for CMP: exact for every value of the destination if and only if the slot holds what field 0 holds. |
| TcbInline.GuestStoreDecides | src/runtime/tls.cpp:186-188 | Once the runtime has stored the TCB address in the slot, the patch stays exact after a guest store to field 0 if and only if the guest stores that address. |
| TcbInline.GuestStoreBreaksInline | src/runtime/tls.cpp:186-188 | A concrete thread for which the patch is exact before such a store and wrong after it. |
| TcbScan.Patcher.PatchInline | src/runtime/cpu_patches.cpp:186-202 | Writes prefix and displacement, or leaves the instruction as it was, or, exactly when the host grants the prefix and refuses the displacement, with the prefix alone. |
| TcbScan.Patcher.PatchTrampoline | src/runtime/cpu_patches.cpp:247-278 | Writes the thunk into free arena space and the padded jump over the site, or leaves the site as it was, or, exactly when the host refuses only the flush, with the jump. |
| TcbScan.Patcher.PatchAccess | src/runtime/cpu_patches.cpp:337-356 | One access by mode: the bytes it ends with in every case, and exactly when they are neither the original nor a working patch. |
| TcbBroken.HalfInlinedHappens | src/runtime/cpu_patches.cpp:186-202 | A host that grants one write leaves a load of field 0 with a GS prefix before the old displacement. |
| TcbBroken.UnflushedHappens | src/runtime/cpu_patches.cpp:247-278 | A host that refuses the flush leaves a load of field 8 as a jump to arena space that the next thunk will use. |
| TcbScan.Patcher.Scan | src/runtime/cpu_patches.cpp:306-365 | The sweep visits the linear disassembly of the original bytes although it reads live, partly patched memory; every entry, unsupported ones included, ends with bytes the policy allows and nothing else changes; a host that refuses nothing leaves none half patched. |
| TcbScan.Patcher.PatchTcbAccesses | src/runtime/cpu_patches.cpp:306-365 | The whole pass, with its report if the final flush is granted; without one the sweep has still happened, unless there was nothing to view, and then nothing changed. |
| TcbScan.EveryAccessHasThunk | src/runtime/cpu_patches.cpp:306-365 | A pass that reports nothing unsupported has given every access to a nonzero field its trampoline. |
| TcbPass.PrefixedBehaves | src/runtime/cpu_patches.cpp:176-184 | An access whose FS prefix, at any position among the prefixes, was turned into GS behaves as before wherever the GS base is the TCB. |
| TcbPass.InlinedBehaves | src/runtime/cpu_patches.cpp:186-202 | An inlined access to field 0 behaves as before while the slot holds what field 0 holds. |
| TcbPass.TrampolineBehaves | src/runtime/cpu_patches.cpp:247-278 | A trampolined access behaves as before, except for the 8 saved bytes under the red zone for CMP and XOR. |
| TcbPass.PassPreserves | src/runtime/cpu_patches.cpp:306-365 | After a pass, every access to a general register that it rewrote behaves as before, from every state that carries the patched bytes and keeps what its patch relies on, whatever became of the others. An access patched in place must be one that the X86 decoder covers; one behind a thunk may have any encoding. |
| TcbSegment.PatchSegment | src/runtime/cpu_patches.cpp:306-365 | The pass with the x86-64 encodings on the bytes found in memory. Every access that it rewrote behaves as before. For a disassembler that reports what the machine decodes: an entry whose bytes decode to MOV, CMP or XOR of a general register with fs:[d], 0 <= d < 0x40, is rewritten or reported as unsupported, and every other entry keeps its bytes; so with nothing reported, every access is rewritten. A host that refuses nothing leaves unsupported exactly what has no room, no reach, or the stack pointer as the destination of CMP or XOR. |
| TcbSegment.ReportsFound | src/runtime/cpu_patches.cpp:15-34 | Such a disassembler reports an access exactly where the machine decodes one, with its operation, register, field and length. |
| TcbSegment.ReferenceFaithful | src/runtime/cpu_patches.cpp:15-34 | There is such a disassembler. |
| TcbSegment.PlansExactly | src/runtime/cpu_patches.cpp:247-278 | A trampoline can be planned if and only if the thunk fits the arena, both jumps reach, and the destination is not the stack pointer for CMP and XOR. |
| TcbPass.AgreeingUnderstood | src/runtime/cpu_patches.cpp:306-365 | If the disassembler reads accesses as the machine does, every entry of a sweep meets that condition. |
| TcbPass.ReferenceAgrees | src/runtime/cpu_patches.cpp:306-365 | There is such a disassembler: it reads FS accesses as the machine executes them, whatever follows. |
| TcbPass.LongExtends | src/runtime/cpu_patches.cpp:306-365 | There is a machine as these theorems assume it: the plain decoder and the one for further prefixes never contradict each other. |
| TcbScan.ReportAdds | src/runtime/cpu_patches.cpp:306-365 | The report accounts for every instruction and every access exactly once; each of its counts is the number of such entries, and its bytes are what the arena grew by. |
| Pm4.PacketsPartition | src/gpu/pm4.cpp:84-139 | Decoded packets, laid end to end, are exactly the stream. |
| Pm4.PacketsConcat | src/gpu/pm4.cpp:84-139 | Decoding a concatenation decodes the parts. |
| Pm4.Type3RoundTrip | src/gpu/pm4.cpp:84-130 | Decoding an encoded type-3 packet gives it back, whatever follows. |
| Pm4.SubmissionsCompose | src/gpu/pm4.cpp:191-292 | Two accepted submissions in a row are one accepted submission of both, with concatenated commands and the same final state. |
| Pm4.SubmissionMeans | src/gpu/pm4.cpp:158-292 | The final state is the fold of the commands, and each draw or dispatch carries the shader programs of exactly the commands before it. |
| Pm4.LastWriteWins | src/gpu/pm4.cpp:178-189 | After any commands a register holds the last value written to it. |
| Pm4.WritesStayInWindow | src/gpu/pm4.cpp:57-80 | No packet writes a register outside the window of its space. |
| Pm4Effects.SetRegisterPacket | src/gpu/pm4.cpp:57-80 | An encoded set-register packet is accepted if and only if its values fit the window of its space, which opcode and queue give; then register lo + o + i holds value i, for every i, and nothing else changes. |
| Pm4Effects.Type0Packet | src/gpu/pm4.cpp:202-214 | The same for an encoded type-0 packet, from its base register on, below 0x10000. |
| Pm4Effects.ActionPacket | src/gpu/pm4.cpp:215-292 | Every other opcode does what its payload words ask for: a draw carries words 0 and 1 in that order, a dispatch its three groups and its initiator, each with the programs bound at that point; wrong sizes, unknown opcodes and half-set programs are refused. |
| Pm4Effects.PredicatedPacket | src/gpu/pm4.cpp:51-55 | A predicated packet is refused unless it is a NOP. |
| Pm4Effects.Type2Packet | src/gpu/pm4.cpp:84-130 | A type-2 packet is its header alone and asks for nothing. |
| Pm4Effects.BadPacket | src/gpu/pm4.cpp:84-130 | A type-1 header or a payload cut short refuses the stream. |
| Pm4Effects.SnapshotIsBound | src/gpu/pm4.cpp:158-176 | A stage has a program if and only if both address registers are set or neither; its address has the low register in bits 8 to 39 and the low byte of the high one in bits 40 to 47. |
| Pm4Effects.RegistersHoldLastPut | src/gpu/pm4.cpp:191-292 | After any accepted stream a register holds the word of the last packet that covers it, at its place in the payload. |
| Pm4Effects.DispatchRunsProgram | src/gpu/pm4.cpp:158-292 | Round trip: setting up a program at an address and dispatching runs the program at that address, whatever the state before. |
| Pm4Effects.DrawRunsPrograms | src/gpu/pm4.cpp:158-292 | Round trip: a draw runs the vertex and the pixel program that were set up, each in its place. |
| Pm4Processor.Decoder.Next | src/gpu/pm4.cpp:84-130 | Returns the packet at the cursor and moves past it; a bad packet leaves the cursor. |
| Pm4Processor.DecodeAll | src/gpu/pm4.cpp:132-139 | The loop yields exactly the packets of the stream. |
| Pm4Processor.AppendRegisterWrites | src/gpu/pm4.cpp:57-80 | The loop appends exactly the writes of a set-register packet, or refuses it; which register gets which word is `Pm4Effects.SetRegisterPacket`. |
| Pm4Processor.Processor.Process | src/gpu/pm4.cpp:191-292 | An accepted stream takes effect as it means; a rejected one changes nothing. |
| ModuleOrder.Walk.Visit | src/runtime/runtime.cpp:727-750 | The recursive visit lists what it reaches after its dependencies, on cyclic graphs too. |
| ModuleOrder.InitializationOrder | src/runtime/runtime.cpp:727-757 | Lists each reachable module once, v before u for every edge u to v where v does not reach u; fails exactly if a reachable module names a missing dependency. |
| Lifecycle.Program.Initialize | src/runtime/runtime.cpp:715-795 | The method does what the call means, fault by fault, and returns true exactly when it got as far as the modules and nothing faulted. |
| Lifecycle.Program.FinalizeProgram | src/runtime/runtime.cpp:797-846 | The loop does what the call means, fault by fault. |
| LifecycleCalls.InitialiseExactly | src/runtime/runtime.cpp:715-795 | An initialise call that proceeds succeeds if and only if nothing it has to run faults; then every module that the main one reaches is up, each brought up once and after its dependencies. |
| LifecycleCalls.FinaliseExactly | src/runtime/runtime.cpp:797-846 | A finalise call that proceeds succeeds if and only if nothing that is up faults; modules go down in reverse order, up to the first fault. |
| LifecycleRuns.LifecycleSafe | src/runtime/runtime.cpp:715-846 | Over every run in which no call starts over on a partly finalised program, with faults anywhere and whatever the orders, no initialisation starts twice and finalisation runs completed modules in reverse order of completion. |
| LifecycleRuns.LifecycleExact | src/runtime/runtime.cpp:715-846 | For one program that condition is exact: no module is initialised twice if and only if every initialise call that proceeds after a failed finalisation finds all modules still up. |
| LifecycleRuns.FinalisedOnce | src/runtime/runtime.cpp:797-846 | Over every run of calls, each finalisation starts at most once, only after its initialisation completed, and in reverse order of completion. |
| LifecycleRuns.ReinitialisedAfterFailedFini | src/runtime/runtime.cpp:715-846 | A run over the order of a two-module graph in which the second module is initialised twice. |
| SymbolRegistry.Registry.Register | src/runtime/symbol_registry.cpp:24-34 | A guest export replaces an emulated binding; nothing else is replaced. |
| SymbolRegistry.ResolvesToFirst | src/runtime/symbol_registry.cpp:24-42 | After any history a key resolves to its first guest export if there is one, else to its first emulated binding. |
| Linker.AddSigned | src/runtime/linker.cpp:79-88 | The exact sum, or nothing exactly where it leaves the 64-bit range. |
| Linker.ApplyElsewhere | src/runtime/linker.cpp:166-259 | A relocation touches no byte, thunk or target of a patch address at least 8 away. |
| LinkHistory.HistoriesStayLinked | src/runtime/linker.cpp:124-259 | Every history of registrations and relocations of words 8 apart keeps each symbol word untouched, or holding its own thunk with an empty target, or holding the last resolved value, and then its thunk forwards to that value (unless it is zero). |
| LinkHistory.WordsStayLinked | src/runtime/linker.cpp:124-259 | So after any history from an empty thunk table every symbol word is in one of these three states. |
| LinkHistory.OverlapExactly | src/runtime/linker.cpp:90-98 | Of two relocations in a row, the first word keeps its value if and only if the two values agree on the bytes they share. |
| LinkHistory.OverlapHappens | src/runtime/linker.cpp:166-259 | A module with relocations 4 apart, both resolved and applied, whose first word does not hold its value. |
| LinkHistory.RelinkIsHistory | src/runtime/linker.cpp:166-259 | Relinking a module, up to the first throw, is such a history. |
| LinkHistory.RelinkIdempotent | src/runtime/linker.cpp:166-259 | Relocating again with an unchanged registry changes nothing and repeats the report. |
| LinkHistory.LinkedWord | src/runtime/linker.cpp:195-252 | After a link each resolvable word holds its value and a missing callable import its thunk, unless the table is full. |
| LinkedWords.LinkedFields | src/runtime/linker.cpp:148-259 | After a link that does not throw, with words that do not overlap, stated on the fields of relocations, symbols and registry: a RELATIVE word holds base plus addend, DTPMOD64 the module's number, GLOB_DAT and JUMP_SLOT the symbol's address (the base plus its value if local or defined, else what the registry has), 64 that plus the addend; a missing import has its thunk or is left. |
| LinkedWords.ThrowsExactly | src/runtime/linker.cpp:166-259 | A relocation throws if and only if it is malformed (unknown kind, missing symbol, a sum outside 64 bits) or has to write a word that is not mapped. |
| LinkedWords.ReportLists | src/runtime/linker.cpp:235-252 | The report of a link lists exactly the relocations whose symbol is nowhere, in order. |
| LinkHistory.ReportIsExact | src/runtime/linker.cpp:235-252 | The report lists exactly the relocations that found nothing, in order, and counts the thunks among them. |
| RuntimeLinker.ExportsResolve | src/runtime/linker.cpp:124-146 | Once exports are registered, each of them resolves, and to guest code. |
| RuntimeLinker.ExportFits | src/runtime/linker.cpp:124-146 | Registering exports throws if and only if an exported address leaves the 64-bit range. |
| RuntimeLinker.ExportBinds | src/runtime/linker.cpp:124-146 | The first export of a key binds it to the base plus its value, unless a guest binding was there. |
| RuntimeLinker.ExportLeaves | src/runtime/linker.cpp:124-146 | A key that the module does not export keeps its binding. |
| RuntimeLinker.ExportCounts | src/runtime/linker.cpp:124-146 | The count is the number of keys whose binding changed. |
| RuntimeLinker.ExportIdempotent | src/runtime/runtime.cpp:693-713 | Registering a module's exports again leaves the registry as it is and counts nothing. |
| RuntimeLinker.RelinkChangesNothing | src/runtime/runtime.cpp:693-713 | Relinking, which registers and relocates again, changes neither registry, memory nor thunks and repeats the report. |
| RuntimeLinker.Linking.Link | src/runtime/runtime.cpp:693-702 | The method registers and relocates as the link means, stopping where either throws. |
| RuntimeLinker.LateImportTable.GetOrCreateThunk | src/runtime/late_imports.cpp:93-115 | Finds the thunk of a patch address or issues the next one, refusing another key and a full table. |
| RuntimeLinker.LateImportTable.Bind | src/runtime/late_imports.cpp:117-125 | Stores a nonzero target into the slot of the thunk issued for a patch address, if there is one. |
| RuntimeLinker.LateImportTable.FindByPatch | src/runtime/late_imports.cpp:127-134 | The first record of a patch address. |
| RuntimeLinker.Linking.RegisterExports | src/runtime/linker.cpp:124-146 | The loop registers exactly the exported symbols, counts changes and stops at an overflowing address. |
| RuntimeLinker.Linking.Relocate | src/runtime/linker.cpp:166-259 | The loop leaves the link state and the report that the relocations mean, or stops at the first that throws; if none does and no words overlap, every word is as `LinkedWords.LinkedFields` says. |
| LateThunk.ThunkForwards | src/runtime/late_imports.cpp:23-42 | Executing the bytes of a thunk whose target is not zero arrives at the target with only r11 and the flags changed. |
| LateThunk.ThunkCounts | src/runtime/late_imports.cpp:23-42 | With a zero target it adds one to its counter and returns zero in rax and xmm0 to its caller. |
| LateThunk.TableLayout | src/runtime/late_imports.cpp:54-91 | In a table under 2 GiB every thunk can be made, and its target and its counter lie outside the code of all thunks. |
| LateCalls.CallsReachResolved | src/runtime/late_imports.cpp:23-134 | After any history, a call through the thunk issued for a resolved symbol arrives at the value its word holds; through an unresolved one it counts and returns zero. |

## Left out

- One step stands for one stretch of a synchronisation call between acquisitions of host locks, and a read or write of a guest slot is atomic within its step.
- Clocks and durations: a timed wait may expire at any step. Host clock and system errors, `bad_alloc`, and the codes they lead to are not modelled.
- Attribute objects, `mutex_init` attributes beyond the kind, and the counters that handles are drawn from: a new handle is any unused one.
- The word that `sem_get_value` writes.
- Re-initialising a live condition or semaphore slot, and the thread manager's shutdown racing with joiners.
- Files: a file mapping takes its snapshot as given bytes; paths, descriptors, `stat` and C strings are not modelled.
- Host calls: changing a protection is an oracle that may refuse; putting an earlier protection back, and the unmapping that cleans up after a failed mapping, are taken as granted.
- VmServices.KernelVm.MapFlexible: says nothing about the alignment of a placement next to a region of odd size.
- VmServices.KernelVm.MapMemory: does not promise that a refused MAP_FIXED mapping leaves what it displaced, because the code does not.
- The queries `virtual_query`, `direct_memory_query` and `query_memory_protection`, which only read.
- The disassembler: a decoded instruction with its length and prefix position is an input of the scan. The X86 decoder covers the forms that the patcher and the thunks emit, and FS accesses with further segment and operand-size prefixes.
- TcbPass.PassPreserves: says nothing of an access patched in place whose encoding the X86 decoder does not cover (a 64-bit absolute address, an address-size or repeat prefix), because the machine model has no step for it; nor of an access whose 64-bit destination is not a general register, because the machine has no such operand.
- ELF and dynamic-table parsing and `make_symbol_key`: symbols arrive with their registry key.
- The loop of `LateImportTable::create` that writes the thunks: one thunk and its place in the table are modelled.
- `src/hle/libkernel.cpp`, `fault.cpp`, `native_thread.cpp` and `hle_registry.cpp`: argument casting and machine code tied to the host.
