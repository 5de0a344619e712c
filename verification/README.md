# ExOS kernel and support code in Dafny

ExOS is a small preemptive real-time kernel in C. This project models its core algorithms in Dafny and proves what they
keep over every run and every input. `dafny verify dfyconfig.toml` checks the whole project.

| Files | Part of the system |
|---|---|
| `Words`, `SeqSets`, `IntrusiveList` | doubly linked lists threaded through memory words, refined to sequences |
| `HeapLayout`, `HeapState`, `HeapAlloc`, `HeapFree`, `HeapRuns`, `MemoryRegion`, `MemoryManager` | the boundary-tag heap: blocks tile a region, the free list lives inside the free blocks; runs of operations; the code on an array of words; the search over all regions |
| `KernelState`, `KernelSteps`, `KernelRuns`, `Bits32`, `WaitMask`, `Kernel` | threads, wait handles, events, mutexes and joins as a transition system whose steps are the kernel sections; the same sections as methods of a class on 32-bit mask words |
| `KernelEffects`, `EventCalls` | what single sections do for their callers, and what an event remembers over runs |
| `KernelMisuse` | the uses that break the kernel invariant, exactly |
| `WaitCalls`, `LockCalls`, `JoinCalls`, `JoinExample` | code outside the kernel sections, step by step: the wait of a thread, the loop of `exos_mutex_lock` and `exos_thread_join`, interleaved with everything else |
| `Dispatch`, `DispatchContext`, `DispatchCalls` | dispatchers, whose handles outlive one wait: the passes as functions, the code without interruption as a class, and the code section by section, interleaved with everything else |
| `MonoBlit` | clipping, masked monochrome blit and span fill on 32-bit words |
| `IoBuffer` | the single-producer single-consumer byte ring, access by access |
| `Timers` | the timer queue against a moving base, and the uptime counter |
| `Gf2`, `Crc`, `CrcRemainder`, `Crc7` | checksums as remainders of polynomials over the two-element field |
| `Lcd` | the 32x8 bit transpose of the LCD driver |
| `Uart` | the search for a fractional baud rate divisor |
| `Decimal` | decimal printer and parser |

Each operation is specified by a function or predicate on values. The lemmas are about that function; the class, array
and loop code is proved to compute it. Memory of the heap is counted in 32-bit words: header 2 words, footer 1,
list node 4. Addresses are word indices and 0 is NULL. A kernel section (`__kernel_do`) is one atomic step; between sections
any thread may run. Wait masks are sets of bit numbers below 32 in the transition system and words in the class
`Kernel`; `WaitMask` ties the two. Where 32-bit wrap-around matters it is written out: size rounding, mutex count, timers,
uptime, divisor search, decimal parser. A section that would panic is no step; assertions, which the source compiles only
in debug builds, are taken as enabled. `KernelMisuse` proves which of the sections that do not panic break the kernel's own
invariant, and that no other does. The idle thread is assumed never to wait and never to exit.

Some claims one could expect of the code do not hold for all inputs. For these the project keeps the code as it is and
states exactly when it meets the claim:

- The blit of a box that spans several screen words loses its last column exactly when the sprite shift is nonzero and
  equals that column modulo 32, unless that is 31 (`MonoBlit.ExactUnlessMissed`); the test at `exos/modules/gfx/mono.c:275` is strict.
- The empty part of a sprite whose right edge lies left of its left edge draws nothing exactly when the columns do not run
  backwards over a word border, or do so from border to border (`MonoBlit.ExactUnlessMissed`, `MonoBlit.TornExample`).
- An exiting thread leaves the kernel consistent exactly when none of its handles is queued or pending (`KernelMisuse.ExitIff`); a
  thread that dispatched before may still own some (`KernelMisuse.ExitStrands`). `___rem_thread` does not check.
- Creating an event, a mutex, a handle or a thread again leaves the kernel consistent exactly when nobody is queued on the
  event or mutex, the handle is not in use, and the thread has exited (`KernelMisuse.EventAgain`, `KernelMisuse.MutexAgain`,
  `KernelMisuse.HandleAgain`, `KernelMisuse.ThreadAgain`, `KernelMisuse.CreateStrands`). The code does not check.
- `exos_thread_join` finds the joined thread DETACHED as long as nobody creates it again first (`JoinCalls.JoinDelivers`,
  `JoinCalls.RecreatedTooEarly`, `JoinExample.RecreatedRun`).
- `exos_mem_add_region` admits regions from 21 bytes on, but formats a usable one exactly from 40 (`MemoryRegion.FormattedIff`);
  below 32 the first block overwrites its own tags (`MemoryRegion.TagsSurviveIff`, `MemoryRegion.TinyRegion`).
- Rounding a request up to 16 bytes covers it exactly up to 0xFFFFFFF0 (`HeapRuns.AlignCovers`). Above that the request rounds
  to 0, and `exos_mem_alloc` answers with too small a block unless nothing is free (`HeapRuns.AllocPromise`); when it cuts the
  first free block it stores through NULL (`HeapRuns.NullStore`, `MemoryRegion.HugeRequest`).
- A recursive lock counts correctly exactly below the 32-bit maximum (`LockCalls.CountWraps`, `KernelMisuse.TakeIff`); the
  code does not check.
- A timer keeps its deadline exactly while time plus elapsed ticks fit into 32 bits (`Timers.AddIff`), and an uptime query is
  exact modulo 2^32 exactly when the left-over fraction plus the ticks since the last query have wrapped a multiple of 1000
  times, for gaps below 2^32 ticks exactly when they have not wrapped (`Timers.UptimeExactIff`).
- The divisor search ends exactly when its first turn ends it or lowers the quotient (`Uart.HaltsIff`), on 32-bit words for all
  rates below 2^24 baud, for which sixteen times b stays below 2^32 (`Uart.Halts32Iff`). Beyond that the divisor can wrap; the
  search then ends exactly when its rests reach a sixteenth of the clock (`Uart.HaltsByRest`, `Uart.WrappedDivisor`). Rates for
  which it does not end are `Uart.NeverEnds` and `Uart.NoDivisor`; at `Uart.EndsAtZero` it ends with a quotient of 0.
- The CRC check accepts only the own CRC exactly for polynomials with constant term 1 (`Crc.OnlyOwnCrcChecks`, `Crc.EvenAcceptsOther`).

`exos_event_reset` wakes the waiters as it clears the state, so it acts as a pulse; the model does the same. The comment
at `exos/support/lcd/lcd.c:45-48` calls the bitmap conversion vertical to sequential; the code converts sequential rows to
vertical bytes, and so does the model.

## Model

| member | source | states |
|---|---|---|
| IntrusiveList.ListInitialize | exos/kernel/list.c:4-9 | the three words of the list head describe the empty list; no other word changes |
| IntrusiveList.InsertRefines | exos/kernel/list.c:11-17 | the four stores of an insertion behind position k turn the list for a sequence into the list for that sequence with the node at index k |
| IntrusiveList.ListInsert | exos/kernel/list.c:11-17 | the pointer stores in place are exactly the stores that InsertRefines reasons about |
| IntrusiveList.RemoveRefines | exos/kernel/list.c:43-48 | the two stores of a removal drop exactly that index of the sequence |
| IntrusiveList.ListRemove | exos/kernel/list.c:43-48 | the pointer stores in place are exactly the stores that RemoveRefines reasons about |
| IntrusiveList.RemoveUndoesInsert | exos/kernel/list.c:11-48 | removing a node right after inserting it restores every word of memory except the two words of the node |
| IntrusiveList.ListFrame | exos/kernel/list.h:25-31 | a list depends on its own link words only |
| IntrusiveList.EnqueuePos | exos/kernel/list.c:29-41 | the index chosen: everything before it is at least as urgent, the node at it is strictly less urgent |
| IntrusiveList.EnqueueSorted | exos/kernel/list.c:29-41 | enqueueing keeps the list sorted by priority and puts the newcomer behind all its equals |
| IntrusiveList.ListEnqueue | exos/kernel/list.c:29-41 | the walk in memory inserts at that index; afterwards memory holds the list of the extended sequence |
| IntrusiveList.ListFindNode | exos/kernel/list.c:50-63 | returns the node if and only if it is in the list, else NULL |
| IntrusiveList.ListRemHead | exos/kernel/list.c:72-85 | an empty list gives NULL and changes nothing; otherwise the first node is returned, the rest stays in order, and no word outside the list changes |
| HeapRuns.AlignCovers | exos/kernel/memory.c:104-105 | the rounded size covers the request if and only if the request is at most 0xFFFFFFF0; above that the 32-bit sum wraps and the size is 0 |
| HeapAlloc.FirstFit | exos/kernel/memory.c:76-98 | first position of the free list whose block has room; every earlier one is too small |
| HeapAlloc.SplitInv | exos/kernel/memory.c:119-137 | cutting a free block in two, tags and links included, keeps the whole region invariant |
| HeapAlloc.SplitKeepsLive | exos/kernel/memory.c:119-137 | a cut changes no word and no extent of any live block |
| HeapAlloc.WholeInv | exos/kernel/memory.c:133-137 | handing out a whole free block keeps the region invariant |
| HeapAlloc.WholeKeepsLive | exos/kernel/memory.c:133-137 | and changes no word and no extent of any live block |
| HeapFree.DetachNode | exos/kernel/memory.c:174-211 | unlinking one more free neighbour extends the detached window by one block and leaves every other free block listed |
| HeapFree.RelinkInv | exos/kernel/memory.c:213-222 | with the free neighbours unlinked, one merged free block linked at any position restores the region invariant |
| HeapFree.FreeMem | exos/kernel/memory.c:151-224 | memory after releasing a live block satisfies the region invariant for the coalesced layout |
| HeapFree.FreeKeepsLive | exos/kernel/memory.c:151-224 | releasing a block changes no word and no extent of any other live block |
| HeapRuns.FreeLive | exos/kernel/memory.c:151-224 | releasing removes exactly the released block from the live ones |
| HeapFree.FreePlace | exos/kernel/memory.c:174-222 | a released block without free neighbour goes to the head of the free list; one that merges takes the place its neighbour had, that of the lower one if both were free; all others keep their order |
| HeapRuns.AllocSpec | exos/kernel/memory.c:100-149 | for every 32-bit request but one that writes through NULL: without an answer nothing changes; otherwise exactly one live block is added, new, at the returned address, less than 28 bytes larger than the rounded request, and it holds the request if and only if the request is at most 0xFFFFFFF0 |
| HeapRuns.AllocWords | exos/kernel/memory.c:139-140 | with the clear flag every word of the rounded request is 0 in the block handed out; without it every word of the block behind the two of the list node is as it was |
| HeapRuns.AllocList | exos/kernel/memory.c:76-137 | the block taken is the first of the free list with room; the rest of a cut stands in its place, nothing does after a whole block, and all others keep their order |
| HeapAlloc.SplitKeepsContents | exos/kernel/memory.c:119-137 | cutting a block writes nothing into the part handed out but its two link words |
| HeapAlloc.WholeKeepsContents | exos/kernel/memory.c:119-137 | handing out a whole block writes nothing into it but its two link words |
| HeapRuns.AllocFails | exos/kernel/memory.c:76-104 | a request of any size is answered with NULL if and only if it is 0 or no free block has room for its rounded size |
| HeapRuns.AllocPromise | exos/kernel/memory.c:100-149 | for every 32-bit request the answer is NULL or holds the request if and only if the request is at most 0xFFFFFFF0 or nothing is free |
| HeapRuns.NullStore | exos/kernel/memory.c:104-134 | a larger request whose first free block is cut overwrites the links of that block and stores the address of the rest into the second word of NULL |
| HeapRuns.AllocKeeps | exos/kernel/memory.c:100-149 | an allocation that does not write through NULL keeps the extent and every word of each block already live |
| HeapRuns.ContentsStore | exos/kernel/memory.c:139-140 | whatever the owner stores into the contents of a live block, the region invariant stays |
| HeapRuns.LiveDisjoint | exos/kernel/memory.c:100-149 | a live block shares no word with any other block, live or free, nor with the sentinels |
| HeapRuns.Run | exos/kernel/memory.c:41-224 | after any sequence of allocations of any 32-bit size that do not write through NULL, releases and stores, the region is tiled between its sentinels, the free list holds exactly the free blocks once each, a footer equals its header size if and only if the block is free and is 0 otherwise, and no two neighbours are both free |
| HeapRuns.RunKeeps | exos/kernel/memory.c:100-224 | over any run that neither releases nor writes a live block, its extent, tags and bytes stay |
| HeapRuns.RunConserves | exos/kernel/memory.c:41-259 | in every reachable state free bytes, live bytes, 12 bytes per block and 12 bytes of sentinels add up to the region size |
| HeapRuns.FreeAll | exos/kernel/memory.c:151-224 | releasing all live blocks in any order is legal and restores the single initial free block |
| MemoryRegion.AddRegion | exos/kernel/memory.c:41-74 | for every size: refuses a region of at most 20 bytes, changing nothing; otherwise makes exactly the formatting stores, and the result is a valid region with one free block if and only if it has at least 40 bytes |
| MemoryRegion.TagsSurviveIff | exos/kernel/memory.c:45-66 | of the regions the size test admits, the tags of the first block survive linking its node if and only if the region has at least 32 bytes |
| MemoryRegion.FormattedIff | exos/kernel/memory.c:45-66 | the formatted region satisfies the invariant if and only if it has at least 40 bytes; below that the free list holds a block too small for a node |
| MemoryRegion.TinyRegion | exos/kernel/memory.c:45-66 | a region of 24 bytes overwrites the tags of its own block |
| MemoryRegion.HugeRequest | exos/kernel/memory.c:100-149 | a request of 0xFFFFFFF1 bytes to a new region of 88 bytes is answered with a block of 0 words, after a store through NULL |
| MemoryRegion.Region.FindRoom | exos/kernel/memory.c:76-98 | the walk over the list in memory finds the first fit or NULL |
| MemoryRegion.Region.InitBlockAt | exos/kernel/memory.c:26-39 | writes the header and footer words of a free block, nothing else |
| MemoryRegion.Region.TakeAt | exos/kernel/memory.c:119-137 | the stores of an allocation: cut when the rest can hold a block, whole otherwise |
| MemoryRegion.Region.Clear | exos/kernel/memory.c:139 | zeroes exactly the given words |
| MemoryRegion.Region.Alloc | exos/kernel/memory.c:100-149 | allocation in place on the words of the region, for every 32-bit request that does not write through NULL: returned address and new memory are those of AllocSpec, the words of the request are 0 if clear was asked for and the contents behind the list node untouched if not, and the region stays valid |
| MemoryRegion.Region.Serve | exos/kernel/memory.c:100-149 | the writes of an allocation, in place: returned address and new memory are those of AllocSpec, and the region stays valid |
| MemoryRegion.NextTag | exos/kernel/memory.c:174-194 | the tags after a live block tell exactly whether its successor is free, and its size |
| MemoryRegion.PrevTag | exos/kernel/memory.c:196-211 | the word before a live block tells exactly whether its predecessor is free, and its size |
| MemoryRegion.Region.AbsorbNext | exos/kernel/memory.c:174-194 | unlinks a free successor and moves the footer; the remembered list predecessor is the one the merged block will follow |
| MemoryRegion.Region.AbsorbPrev | exos/kernel/memory.c:196-211 | likewise for a free predecessor |
| MemoryRegion.Region.Relink | exos/kernel/memory.c:213-222 | writes the tags of the merged block and links it behind the remembered predecessor or at the head |
| MemoryRegion.Region.Free | exos/kernel/memory.c:151-224 | panics exactly for a block that is not live; otherwise memory and layout are those of the release, and the region stays valid |
| MemoryRegion.ListTotals | exos/kernel/memory.c:226-259 | adding up sizes along the free list in memory gives exactly the free words of the tiling |
| MemoryRegion.Stats | exos/kernel/memory.c:226-259 | reports the free total, the number of fragments and the largest fragment of the region |
| MemoryManager.ServingFirst | exos/kernel/memory.c:109-146 | a request of any size over all regions is served by the first region in list order that matches the flags and has room, and by none only if no matching region has room |
| MemoryManager.MatchesBits | exos/kernel/memory.c:112 | a region matches if and only if it is fit for DMA if that is asked for, shared if that is asked for, and has no flag of another kind in common with the request |
| MemoryManager.Manager.constructor | exos/kernel/memory.c:13-16 | starts with no region |
| MemoryManager.Manager.Enlist | exos/kernel/memory.c:68-70 | a new region enters the list by priority, behind its equals; the regions stay valid and the list sorted |
| MemoryManager.Manager.AllocIn | exos/kernel/memory.c:113-144 | an attempt on one region changes that region as specified and no other |
| MemoryManager.Manager.Alloc | exos/kernel/memory.c:100-149 | the search over the regions: exactly the serving region changes, as specified, with the words of the request 0 if EXOS_MEMF_CLEAR is given and the contents behind the list node untouched if not; without one the answer is NULL and nothing changes |
| KernelSteps.ScheduledAdd | exos/kernel/list.c:29-41 | enqueueing a thread keeps the list in scheduling order: by priority, first come first served among equals |
| KernelSteps.ResumeCore | exos/kernel/thread.c:255-284 | _resume keeps every fact about lists, handles, masks and scheduling, and no wakeup is lost |
| KernelSteps.ResumeAllCore | exos/kernel/thread.c:299-315 | resuming a whole list empties it, keeps those facts, and puts nothing on any other empty list |
| KernelSteps.LowestFree | exos/kernel/thread.c:178-193 | the bit chosen is free and every lower one is used; 32 when none is free |
| WaitMask.OrIsUnion | exos/kernel/thread.c:186 | or of two words is union of their bit sets |
| WaitMask.XorIsToggle | exos/kernel/thread.c:241 | exclusive or of two words is the symmetric difference of their bit sets, so disposing removes exactly the bits of the handle |
| WaitMask.AndMeets | exos/kernel/thread.c:272 | and of two words is nonzero if and only if the bit sets meet |
| WaitMask.ZeroIsEmpty | exos/kernel/thread.c:326-356 | a word is 0 if and only if its bit set is empty |
| WaitMask.AllocMask | exos/kernel/thread.c:178-193 | the bit walk on the 32-bit word panics exactly when all bits are used; otherwise it returns exactly the lowest free bit and marks it used |
| KernelSteps.AddCore | exos/kernel/thread.c:195-211 | a queued handle owns one bit that no other handle of the running thread has; all facts are kept |
| KernelSteps.DisposeCore | exos/kernel/thread.c:224-246 | disposing gives back exactly the bit of the handle and keeps all facts |
| KernelSteps.WaitCore | exos/kernel/thread.c:326-356 | going to sleep keeps all facts: nothing the thread waits for is pending |
| KernelSteps.AddThreadInv | exos/kernel/thread.c:81-92 | adding a detached thread keeps the kernel invariant |
| KernelRuns.EventAddInv | exos/kernel/event.c:13-30 | offering a handle to an event keeps the invariant: a set event takes no handle, and is cleared if it is auto-reset |
| KernelRuns.EventWakeInv | exos/kernel/event.c:32-60 | waking all waiters of an event and storing its state keeps the invariant |
| EventCalls.CreateEffect | exos/kernel/event.c:6-11 | a new event is not set, has the flag asked for and no waiter; nothing else changes |
| EventCalls.OfferSet | exos/kernel/event.c:13-30 | a wait that finds the event set clears it if and only if it is auto-reset, and queues nothing |
| EventCalls.OfferClear | exos/kernel/event.c:13-30 | a wait that finds the event clear queues its handle behind those already there, with a bit of its own; no other list or handle changes |
| EventCalls.StoreEffect | exos/kernel/event.c:48-58 | the store leaves exactly the state given; no list or handle changes |
| EventCalls.SetEffect | exos/kernel/event.c:32-38 | setting an auto-reset event makes all waiters DONE and leaves it set if and only if there were none; no other event changes |
| EventCalls.FlushEffect | exos/kernel/event.c:50-59 | the wakeup of a manual set or a reset makes all waiters DONE and leaves the state as it was |
| EventCalls.IdleStep | exos/kernel/event.c:13-60 | an auto-reset event that is set without waiters stays so under every step but a wait on it, a store to it or its creation |
| EventCalls.SetRemembered | exos/kernel/event.c:13-60 | over any run of such steps a set that found nobody is not lost: the next wait on the event queues nothing, so it does not sleep, and clears it |
| EventCalls.ManualRun | exos/kernel/event.c:13-60 | a manual event that is set stays set over any run without a reset or creation of it, however many waits it lets pass |
| KernelRuns.MutexTakeKeepsWaiters | exos/kernel/mutex.c:18-25 | re-initialising the list of waiters on a first lock drops nobody |
| KernelRuns.MutexAddInv | exos/kernel/mutex.c:12-33 | the lock condition keeps the invariant, whether it takes the mutex or queues the handle |
| KernelRuns.MutexUnlockInv | exos/kernel/mutex.c:54-69 | unlocking keeps the invariant; the last unlock leaves no waiter behind |
| KernelRuns.JoinAddInv | exos/kernel/thread.c:133-139 | queueing a joiner on a thread that has not exited keeps the invariant |
| KernelRuns.SchedulePick | exos/kernel/thread.c:49-54 | the ready list is never empty and its first thread has maximum priority and has been queued longest among its equals |
| KernelEffects.CreateThreadEffect | exos/kernel/thread.c:81-130 | a new thread is READY with the priority asked for, uses no mask bit and runs after all READY ones at least as urgent; no other thread changes |
| KernelEffects.SwitchEffect | exos/kernel/thread.c:49-54 | the thread that runs next precedes every other READY one; nothing else changes |
| KernelEffects.SleepEffect | exos/kernel/thread.c:343-349 | a thread that goes to sleep waits for exactly the mask it passed; nothing else changes |
| KernelEffects.WakesAll | exos/kernel/thread.c:299-315 | resuming a list makes all its handles DONE and empties it |
| KernelEffects.WakeOrder | exos/kernel/thread.c:299-315 | each owner finds its handles pending in the order in which they were queued, behind those already pending |
| KernelEffects.QueueEffect | exos/kernel/thread.c:195-211 | a locker or joiner that has to wait is queued behind those already there, and no other list changes |
| KernelEffects.UnlockEffect | exos/kernel/mutex.c:54-69 | the last unlock makes every waiter DONE |
| KernelEffects.ExitEffect | exos/kernel/thread.c:56-68 | the exit of a thread makes every joiner DONE and leaves the thread detached |
| KernelRuns.Run | exos/kernel/thread.c:56-356 | after any interleaving of kernel sections the invariant holds; the runs are exactly those of KernelMisuse.GoodIff |
| KernelRuns.Reachable | exos/kernel/thread.c:56-356 | from boot, in every state such a run reaches: threads are on the list their State names, nothing a sleeping thread waits for is pending, handles in use own single distinct bits whose union is MaskUsed, and no waiter is stranded on a set event, an unowned mutex or a detached thread |
| KernelRuns.BootInv | exos/kernel/thread.c:28-47 | the state after start-up, main thread running and idle thread ready, satisfies the invariant |
| KernelMisuse.ExitIff | exos/kernel/thread.c:56-68 | an exit, which wakes all joiners, keeps the invariant if and only if no handle of the exiting thread is queued or pending |
| KernelMisuse.TakeIff | exos/kernel/mutex.c:18-32 | taking a mutex keeps the invariant if and only if the 32-bit count does not wrap |
| KernelMisuse.EventAgain | exos/kernel/event.c:6-11 | creating an event, new or not, keeps the invariant if and only if nobody is queued on it |
| KernelMisuse.HandleAgain | exos/kernel/thread.c:170-176 | creating a handle, new or not, keeps the invariant if and only if it is not in use |
| KernelMisuse.MutexAgain | exos/kernel/mutex.c:5-10 | creating a mutex, new or not, keeps the invariant if and only if nobody is queued on it |
| KernelMisuse.ThreadAgain | exos/kernel/thread.c:81-130 | creating a thread, new or not, keeps the invariant if and only if it does not exist or has exited |
| KernelMisuse.PerformIff | exos/kernel/thread.c:56-356 | every section the code performs without a panic, from any state that satisfies the invariant, keeps it if and only if it is none of these: an exit with a handle in use, a lock that wraps the count, the creation of a thread that has not exited, of a handle in use, or of an event or mutex with waiters |
| KernelMisuse.GoodIff | exos/kernel/thread.c:56-356 | over a run of sections the code performs, creations of anything included, the invariant holds throughout if and only if none of these uses occurs |
| KernelMisuse.QueuedReached | exos/kernel/thread.c:195-211 | three sections lead from boot to a state in which the main thread has a handle queued on an event |
| KernelMisuse.ExitStrands | exos/kernel/thread.c:56-68 | an exit from that state is performed, leaves the handle of the detached thread queued on the event, and breaks the invariant |
| KernelMisuse.CreateStrands | exos/kernel/event.c:6-11 | creating the event again in that state leaves the handle WAITING and on no list, and breaks the invariant |
| KernelRuns.ResumeWakes | exos/kernel/thread.c:255-284 | a resume makes its handle DONE and makes a sleeping owner that waits for that bit READY; an owner left asleep was not waiting for it |
| KernelRuns.WaitSeesPending | exos/kernel/thread.c:326-356 | a resume that came before the wait is not lost: the wait does not sleep |
| KernelRuns.WaitReturns | exos/kernel/thread.c:326-356 | a wait does not sleep if and only if a DONE handle of the thread has one of the bits |
| WaitCalls.InWaitEnter | exos/kernel/thread.c:326-362 | entering a wait on own handles: asleep on exactly their bits, or awake with one of them DONE |
| WaitCalls.InWaitStep | exos/kernel/thread.c:255-356 | whatever any other thread does, that stays so |
| WaitCalls.WaitDelivers | exos/kernel/event.c:62-96 | over any run, a thread that comes back from a wait finds one of its handles DONE: the assertions on the handles of the event, mutex and join callers hold |
| JoinCalls.StepDetached | exos/kernel/thread.c:56-92 | a detached thread stays detached under every step but its own creation |
| JoinCalls.ResumeEachOther | exos/kernel/thread.c:299-315 | resuming a list leaves every handle outside it exactly as it was |
| JoinCalls.JoinStep | exos/kernel/thread.c:133-156 | every step that does not create the joined thread again keeps: the handle of the joiner is queued on that thread, or that thread has exited |
| JoinCalls.JoinStarts | exos/kernel/thread.c:133-152 | that holds as soon as the handle has been offered |
| JoinCalls.JoinRun | exos/kernel/thread.c:133-156 | and over any run without such a creation |
| JoinCalls.JoinDelivers | exos/kernel/thread.c:143-160 | a joiner that comes back from its wait finds its handle DONE and the joined thread DETACHED: both assertions of exos_thread_join hold |
| JoinCalls.RecreatedTooEarly | exos/kernel/thread.c:81-156 | if the joined thread is created again before the joiner runs, the second assertion fails, from every state of that kind |
| JoinExample.RecreatedRun | exos/kernel/thread.c:81-156 | a run of nine sections from boot that gets there |
| LockCalls.StepHandle | exos/kernel/thread.c:195-315 | a handle changes owner, bit or detachment only by a step that names it |
| LockCalls.StepReady | exos/kernel/thread.c:56-356 | a READY thread leaves the ready list only by its own code |
| LockCalls.AwakeIsDone | exos/kernel/mutex.c:47-49 | a locker that leaves its wait finds its handle DONE |
| LockCalls.LockReturnsOwning | exos/kernel/mutex.c:35-52 | the lock loop ends exactly when this call has taken the mutex, once: the caller is the owner and holds it once more often than before; otherwise it starts again |
| LockCalls.LStepInv | exos/kernel/mutex.c:12-93 | every step of every thread keeps: Count is the locks minus the unlocks of the owner and is 0 exactly without owner |
| LockCalls.LBootInv | exos/kernel/mutex.c:3-10 | the state after start-up, with nobody locking and nothing held, satisfies that |
| LockCalls.MutualExclusion | exos/kernel/mutex.c:12-93 | for every interleaving, from boot or any state that satisfies the invariant, at most one thread holds a mutex, holding it is being its Owner, and Count is that thread's locks minus unlocks |
| LockCalls.CountWraps | exos/kernel/mutex.c:26-31 | a further lock by the owner counts correctly if and only if Count is not at its 32-bit maximum |
| Kernel.Kernel.constructor | exos/kernel/thread.c:28-47 | builds the boot state, which satisfies the invariant |
| Kernel.Kernel.Schedule | exos/kernel/thread.c:49-54 | returns a READY thread that precedes every other READY thread; the panic is unreachable |
| Kernel.Kernel.Enqueue | exos/kernel/list.c:29-41 | the walk inserts behind all threads at least as urgent |
| Kernel.Kernel.AddThread | exos/kernel/thread.c:81-92 | the new state is the add-thread step and satisfies the invariant |
| Kernel.Kernel.RemThread | exos/kernel/thread.c:56-68 | any exit of a thread other than the idle one: the new state is the exit step, and it satisfies the invariant if and only if the thread owned no handle in use |
| Kernel.Kernel.AddHandle | exos/kernel/thread.c:195-211 | panics exactly when MaskUsed is full; otherwise the Mask word of the handle is nonzero and disjoint from the MaskUsed word of before, and words and lists are those of the queueing step |
| Kernel.Kernel.DisposeHandle | exos/kernel/thread.c:233-246 | the exclusive or on MaskUsed gives back exactly the bit of the handle, which is unlinked; the invariant is kept |
| Kernel.Kernel.Resume | exos/kernel/thread.c:255-284 | the handle is DONE, and its owner does not stay asleep on a MaskWait word that has a bit of the Mask word; words and lists are those of the resume step |
| Kernel.Kernel.ResumeHandle | exos/kernel/thread.c:286-297 | the same for any handle in use; the invariant is kept |
| Kernel.Kernel.ResumeAll | exos/kernel/thread.c:299-315 | the loop resumes every handle of the list in order and counts them |
| Kernel.Kernel.FindPending | exos/kernel/thread.c:333-342 | the and of the words is nonzero for some pending handle if and only if a pending handle meets the mask |
| Kernel.Kernel.WaitFor | exos/kernel/thread.c:326-356 | sleeps exactly when nothing in the mask is pending; the invariant is kept |
| Kernel.Kernel.EventAddHandle | exos/kernel/event.c:13-30 | panics exactly for want of a bit; a set event is cleared if and only if it is auto-reset and nothing is queued; otherwise the handle is queued last; the invariant is kept |
| Kernel.Kernel.EventSetAuto | exos/kernel/event.c:32-46 | all waiters are DONE, and the event is set if and only if there were none; the invariant is kept |
| Kernel.Kernel.EventStore | exos/kernel/event.c:48-58 | the unprotected store leaves the state given and keeps the invariant, which tolerates queued handles only while such a call is in progress |
| Kernel.Kernel.EventFlush | exos/kernel/event.c:51-59 | the wakeup after the store makes all waiters DONE, empties the list and leaves the state; the invariant is kept |
| Kernel.Kernel.MutexTry | exos/kernel/mutex.c:78-93 | returns 0 exactly when the running thread owns the mutex afterwards, -1 with nothing changed otherwise; the invariant is kept if and only if the count does not wrap |
| Kernel.Kernel.MutexAddHandle | exos/kernel/mutex.c:12-52 | panics exactly for want of a bit; takes a free or own mutex, else queues the handle; the invariant is kept if and only if the count does not wrap |
| Kernel.Kernel.MutexUnlock | exos/kernel/mutex.c:54-69 | the count is positive before; at 0 the owner is cleared and all waiters are resumed; the invariant is kept |
| Kernel.Kernel.JoinAddHandle | exos/kernel/thread.c:133-152 | panics exactly for want of a bit; queues the handle on a thread that has not exited, else leaves it detached; the invariant is kept |
| Dispatch.RemoveTouches | exos/kernel/dispatch.c:27-44 | removal detaches the handles of that dispatcher and changes no other handle and no thread state |
| Dispatch.RemoveReleases | exos/kernel/dispatch.c:27-44 | every thread gets back exactly the bits of those handles it owned |
| Dispatch.RemoveUnlinksOnly | exos/kernel/dispatch.c:27-44 | removal without interruption makes exactly one dispatcher leave the list, detaches its handles, changes no other handle, and returns exactly the owned bits |
| Dispatch.RemoveInv | exos/kernel/dispatch.c:27-44 | removal unlinks exactly that dispatcher, keeps its record but for the link and all other records, and keeps kernel and context consistent |
| Dispatch.AddIfDetachedExact | exos/kernel/dispatch.c:92-113 | queueing panics exactly when the handle is detached, the event not set and all 32 bits are used; otherwise the mask is 0 exactly when the handle was detached and the event set |
| Dispatch.VisitExact | exos/kernel/dispatch.c:87-121 | one turn of the first loop serves for the event exactly when it is set and the handle not in use, as Immediate exactly without event and timeout, and for the timer exactly when the event does not serve, the timer has run out and its handle is not in use, unless it panics |
| Dispatch.Scan | exos/kernel/dispatch.c:86-121 | the first loop ends with a dispatcher that can be served, for a stated reason, or with none; all invariants hold |
| Dispatch.ScanQueues | exos/kernel/dispatch.c:86-121 | if it ends with none, every handle of every dispatcher of the list is queued or pending and the mask has exactly their bits |
| Dispatch.ServedFor | exos/kernel/dispatch.c:86-121 | whom the first loop serves: as Immediate exactly one without event and timeout; for its timer only if that had run out when the pass began, and never in place of a manual event that was set |
| Dispatch.Rescan | exos/kernel/dispatch.c:162-181 | the second loop finds the first dispatcher with a DONE handle, its event before its timer, or there is none |
| Dispatch.RescanFirst | exos/kernel/dispatch.c:162-181 | no dispatcher before the one found has a DONE handle |
| Dispatch.RunUndisturbed | exos/kernel/dispatch.c:136-160 | any run of the rest of the system that names none of the handles leaves the context consistent |
| Dispatch.RescanFinds | exos/kernel/dispatch.c:162-181 | the second loop finds a dispatcher if and only if some handle in use by a linked one is DONE |
| Dispatch.DispatchUndisturbed | exos/kernel/dispatch.c:136-181 | if nobody else names the handles during the wait, the context is consistent after it, and the second loop finds a dispatcher if and only if some handle of a linked one is DONE |
| Dispatch.AddInv | exos/kernel/dispatch.c:46-67 | adding a dispatcher in any state links it once, at the tail, waiting, with exactly the timeout of this call, its own event and handles, and nothing of its previous life queued; no other record changes |
| DispatchCalls.StepDone | exos/kernel/thread.c:255-315 | a handle that is DONE stays DONE under every step that does not work on it by name |
| DispatchCalls.DStepInv | exos/kernel/dispatch.c:27-186 | with each kernel section and each look at a handle a step of its own, every step of the dispatching thread and of everybody else keeps what is known at its place in the code |
| DispatchCalls.DRun | exos/kernel/dispatch.c:27-186 | and so does every interleaving |
| DispatchCalls.DispatchBegins | exos/kernel/dispatch.c:80-134 | for every interleaving up to the wait: only a dispatcher that could be served, for the reason recorded, leaves the list; its handles own nothing any more and those of all others have kept owner, bit and use since it was selected; the thread goes to wait only with every handle of every dispatcher queued or pending and exactly their bits in its mask |
| DispatchCalls.DispatchEnds | exos/kernel/dispatch.c:161-186 | for every interleaving after the wait, whatever dispatchers it left: likewise, the dispatcher served had a DONE handle, and the call gives up only if no handle was DONE when it took the lock |
| DispatchCalls.RemoveEnds | exos/kernel/dispatch.c:27-44 | for every interleaving of a removal: exactly that dispatcher leaves the list, with its handles detached and those of all others kept |
| DispatchCalls.OwnAdvances | exos/kernel/dispatch.c:86-186 | every own step brings the thread nearer to its wait or its return, nobody takes it back, and it panics only without a free mask bit |
| DispatchContext.Context.constructor | exos/kernel/dispatch.c:5-12 | a new context has no dispatcher and is consistent |
| DispatchContext.Context.DisposeWaitHandle | exos/kernel/thread.c:248-253 | disposes of a handle unless it is detached; the invariant is kept |
| DispatchContext.Context.Remove | exos/kernel/dispatch.c:27-44 | does nothing to an unlinked dispatcher; otherwise the new kernel and context are those of the removal step |
| DispatchContext.Context.Add | exos/kernel/dispatch.c:52-66 | the dispatcher ends up last in the list, waiting, with the timer of this call, its own event and both handles detached; no other record changes |
| DispatchContext.Context.QueueHandle | exos/kernel/event.c:26-30 | queues a detached handle or consumes the event; reports the panic for want of a mask bit exactly when it happens |
| DispatchContext.Context.VisitEvent | exos/kernel/dispatch.c:92-102 | the event half of one turn |
| DispatchContext.Context.VisitTimer | exos/kernel/dispatch.c:103-121 | the timer half, from the mask word the event contributed |
| DispatchContext.Context.Visit | exos/kernel/dispatch.c:87-121 | one turn of the first loop: panic, served now with its reason, or waiting with its mask |
| DispatchContext.Context.FirstPass | exos/kernel/dispatch.c:86-121 | the loop over the list in order gives the result of the first pass |
| DispatchContext.Context.SecondPass | exos/kernel/dispatch.c:162-181 | the loop over the list in order gives the result of the second pass |
| DispatchContext.Context.Select | exos/kernel/dispatch.c:127-133 | records the reason and unlinks exactly the selected dispatcher, releasing exactly its bits |
| DispatchContext.Context.DispatchBegin | exos/kernel/dispatch.c:86-134 | up to the wait: a dispatcher that can be served is the only one unlinked; otherwise nothing is unlinked, every handle is queued or pending, and the mask word returned has exactly their bits |
| DispatchContext.Context.DispatchEnd | exos/kernel/dispatch.c:162-186 | after the wait: the first dispatcher with a DONE handle is the only one unlinked; without one nothing changes |
| MonoBlit.SegmentIntersection | exos/modules/gfx/canvas.h:27-41 | on success exactly the common part, on failure there is none; an empty argument can succeed, and exactly when is stated |
| MonoBlit.BoxIntersection | exos/modules/gfx/canvas.h:43-48 | on success exactly the common pixels, on failure there are none |
| MonoBlit.NarrowRow | exos/modules/gfx/mono.c:190-222 | a clipped row inside one screen word changes exactly the pixels of the per-pixel masked copy, nothing else on the canvas |
| MonoBlit.Head | exos/modules/gfx/mono.c:231-250 | the first word of a wide row is drawn pixel for pixel, also for columns that run backwards |
| MonoBlit.CentralDrawn | exos/modules/gfx/mono.c:252-271 | a whole word is drawn pixel for pixel |
| MonoBlit.Tail | exos/modules/gfx/mono.c:273-293 | the last word of a wide row is drawn pixel for pixel for the columns really drawn |
| MonoBlit.WideRow | exos/modules/gfx/mono.c:226-299 | head, whole words and tail together draw the columns really drawn, nothing else on the canvas changes |
| MonoBlit.DrawBox | exos/modules/gfx/mono.c:152-301 | every word of every line of the box is drawn, all others stay |
| MonoBlit.DrawPixels | exos/modules/gfx/mono.c:152-301 | for every alignment of sprite, clip and screen and every order of the edges the blit changes exactly the pixels a per-pixel masked copy of the effective box changes |
| MonoBlit.StoredBit | exos/modules/gfx/mono.c:190-299 | the pixel fetched at a line and column of the sprite is the bit its row stores there, 32 to a word, highest bit first; a missing mask is set everywhere |
| MonoBlit.CopiedStored | exos/modules/gfx/mono.c:190-299 | what is copied for the pixels of the sprite are those bits |
| MonoBlit.ExactUnlessMissed | exos/modules/gfx/mono.c:226-299 | the blit is the per-pixel copy of the box, for all contents, if and only if the box does not end in a missed column (several words, nonzero shift equal to the last column modulo 32, not 31) and its columns do not run backwards over a word border (other than from border to border) |
| MonoBlit.MissedExample | exos/modules/gfx/mono.c:273-293 | a sprite of 33 pixels at column 5 loses its last column |
| MonoBlit.TornExample | exos/modules/gfx/mono.c:226-299 | a part from column 40 back to column 2, which is empty, draws 27 pixels |
| MonoBlit.OutsideMasked | exos/modules/gfx/mono.c:206-221 | what fetches outside the rows of the sprite return, word by word, never shows |
| MonoBlit.DrawSprite | exos/modules/gfx/mono.c:303-313 | the box drawn is exactly the part of the sprite on the screen, and every pixel of the canvas becomes the bit the rows of the sprite store for it if it lies in the effective box and its mask bit is stored as 1, and stays otherwise |
| MonoBlit.ClipPart | exos/modules/gfx/mono.c:316-338 | the two cuts give exactly the pixels of the part that are in the sprite and, once moved, on the screen |
| MonoBlit.DrawSpritePart | exos/modules/gfx/mono.c:316-340 | the part is cut to the sprite, moved to x, y and cut to the screen; the pixels drawn are those of the effective box, with the bits the sprite stores; the box is torn only for a part whose right edge is more than one column left of its left edge |
| MonoBlit.FillSpan | exos/modules/gfx/mono.c:107-134 | columns xi to xe-1 of the line take the ink, no other pixel changes |
| IoBuffer.StoreAside | exos/kernel/iobuffer.c:31 | storing at the produce index disturbs no queued byte |
| IoBuffer.PublishWrite | exos/kernel/iobuffer.c:32 | publishing the produce index appends exactly the stored byte |
| IoBuffer.PublishRead | exos/kernel/iobuffer.c:76-78 | publishing the consume index drops exactly the oldest byte |
| IoBuffer.StepInv | exos/kernel/iobuffer.c:15-84 | every single access of writer or reader keeps the bytes read, held and queued equal to the bytes written |
| IoBuffer.Run | exos/kernel/iobuffer.c:15-84 | for every interleaving of accesses that invariant holds |
| IoBuffer.ReadsArePrefix | exos/kernel/iobuffer.c:15-84 | for every interleaving the bytes read are a prefix of the bytes written and at most Size - 1 are in flight |
| IoBuffer.Buffer.constructor | exos/kernel/iobuffer.c:4-12 | a new buffer is empty |
| IoBuffer.Buffer.Write | exos/kernel/iobuffer.c:15-55 | appends the longest prefix that fits, in order; stops short only when the ring is full |
| IoBuffer.Buffer.Read | exos/kernel/iobuffer.c:57-84 | takes the oldest bytes in order; stops short only when the ring is empty |
| IoBuffer.Buffer.Available | exos/kernel/iobuffer.c:86-93 | the number of queued bytes |
| IoBuffer.Buffer.Discard | exos/kernel/iobuffer.c:95-112 | drops exactly the oldest bytes, at most as many as there are |
| IoBuffer.Buffer.Peek | exos/kernel/iobuffer.c:114-137 | exposes queued bytes from the offset on where they stand in a row; the row ends only at the end of the queue or of the buffer |
| Timers.Position | exos/kernel/timer.c:20-41 | behind every timer that is not later |
| Timers.TimerQueue.constructor | exos/kernel/timer.c:12-18 | starts with an empty queue that satisfies the invariant |
| Timers.TimerQueue.Enqueue | exos/kernel/timer.c:20-41 | inserts there and reports whether the timer became the first |
| Timers.TimerQueue.Walk | exos/kernel/timer.c:98-122 | the walk that removes as it goes leaves exactly the timers that are not due, shortened, and reports the due ones in order |
| Timers.TimerQueue.Handler | exos/kernel/timer.c:96-135 | the stores of the handler, whatever the queue holds, are the handler step of Timers.Run |
| Timers.SurvivorsMembers | exos/kernel/timer.c:98-122 | a timer survives a tick exactly when it is not due, and keeps its absolute deadline |
| Timers.TimerQueue.TickHandler | exos/kernel/timer.c:96-135 | the new state is the handler step of Timers.Run; the due timers fire in order, and the hardware is armed for the first of the rest, with a positive delay |
| Timers.TimerQueue.AddTimer | exos/kernel/timer.c:43-53 | for every 32-bit time the new state is the add step of Timers.Run, with the handler run, which arms the hardware, exactly when the timer became the first; the invariant is kept if and only if time plus elapsed stays below 2^32 |
| Timers.TimerQueue.RemTimer | exos/kernel/timer.c:67-79 | the new state is the dispose step of Timers.Run: exactly that timer goes and the handler runs; nothing happens for one not queued |
| Timers.HandleInv | exos/kernel/timer.c:96-135 | the handler keeps sortedness and deadlines |
| Timers.StepInv | exos/kernel/timer.c:43-135 | adding, removing and ticking keep sortedness and deadlines |
| Timers.Run | exos/kernel/timer.c:43-135 | over any run of one-shot timers the queue is sorted, every queued timer still has the deadline it was created with, and whoever fired had reached it |
| Timers.TickFiresDue | exos/kernel/timer.c:96-135 | a tick fires exactly the queued timers whose deadline has come and leaves exactly the others |
| Timers.TickSplits | exos/kernel/timer.c:96-122 | on a sorted queue a tick fires a front part in queue order and leaves the rest, in order, with the elapsed time taken off |
| Timers.StepArmed | exos/kernel/timer.c:43-135 | every operation leaves the hardware armed for the first timer, or for nothing when there is none |
| Timers.RunArmed | exos/kernel/timer.c:43-135 | in every state of every run the hardware is armed for the least deadline of all queued timers, and is not armed exactly when there is none |
| Timers.FiresExactly | exos/kernel/timer.c:43-135 | if the hardware calls no later than it is armed for, every timer fires exactly at its deadline |
| Timers.AddWraps | exos/kernel/timer.c:49 | the deadline is kept if and only if time plus elapsed stays below 2^32 |
| Timers.AddIff | exos/kernel/timer.c:43-53 | adding a timer keeps sortedness and deadlines if and only if it does; otherwise the timer fires at once or is queued with a wrong deadline |
| Timers.Uptime.constructor | exos/kernel/timer.c:184-185 | starts at zero |
| Timers.Uptime.Query | exos/kernel/timer.c:182-199 | the seconds returned are the true elapsed ticks divided by the tick frequency, for queries at most 2^32 - 1000 ticks apart |
| Timers.UptimeExact | exos/kernel/timer.c:152-199 | over any run of such queries every answer is exact, however often the 32-bit tick counter has wrapped |
| Timers.UptimeExactIff | exos/kernel/timer.c:189-195 | one query after any gap is exact modulo 2^32 if and only if the left-over fraction plus the ticks since the last query have wrapped a multiple of 1000 times |
| Gf2.RemainderUnique | exos/support/misc/crc16.c:25-61 | the remainder modulo a monic polynomial over the two-element field is unique |
| Gf2.DivideStep | exos/support/misc/crc16.c:44-48 | shifting the next bit in at the bottom and reducing is one step of long division |
| Gf2.AugmentedStep | exos/support/misc/crc16.c:16-20 | comparing the next bit with the top bit and reducing is one step of division of the message times x^n |
| Crc.ShiftZerosLinear | exos/support/misc/crc16.c:16-20 | shifting k zero bits through the register is linear |
| Crc.ByteStepIsSerial | exos/support/misc/crc16.h:5 | one table look-up equals eight steps of the bit-serial register, for every polynomial, register and byte |
| Crc.TableIsSerial | exos/support/misc/crc16.c:25-30 | for every polynomial and message the table-driven CRC equals the bit-serial register |
| Crc.CrcLinear | exos/support/misc/crc16.c:25-30 | the CRC of the exclusive or of two messages of one length is the exclusive or of their CRCs |
| Crc.OwnCrcChecks | exos/support/misc/crc16.c:25-30 | a message followed by its own CRC, high byte first, has CRC 0 |
| Crc.OnlyOwnCrcChecks | exos/support/misc/crc16.c:25-30 | if the polynomial has constant term 1, no other two bytes give CRC 0 |
| Crc.EvenAcceptsOther | exos/support/misc/crc16.c:25-30 | if it has not, some other two bytes do, for every message |
| CrcRemainder.StepBitShiftsIn | exos/support/misc/crc16.c:19 | a step on the 16-bit register is a step of the polynomial shift register |
| CrcRemainder.SerialRemainder | exos/support/misc/crc16.c:25-30 | after any bit string the register is the remainder of the string times x^16 |
| CrcRemainder.CrcIsRemainder | exos/support/misc/crc16.c:25-30 | the table-driven CRC is the remainder of the message times x^16 modulo x^16 plus the polynomial |
| CrcRemainder.Initialize | exos/support/misc/crc16.c:10-23 | fills 256 entries with the table of the polynomial and nothing beyond |
| CrcRemainder.LookUp | exos/support/misc/crc16.h:5 | the look-up in the array is the eight bit-serial steps of the byte |
| CrcRemainder.Compute | exos/support/misc/crc16.c:25-30 | the loop returns the bit-serial register and hence the remainder; a negative length counts as empty |
| Crc7.StepDivides | exos/support/misc/crc16.c:44-48 | a turn of the loop is a step of long division by x^7 + x^3 + 1 |
| Crc7.Encode | exos/support/misc/crc16.c:34-50 | returns the low seven bits of the register after dividing in the top bits of the input, bit 7 cleared |
| Crc7.InputIsByte | exos/support/misc/crc16.c:44-46 | eight shifts enter exactly the bits of the byte, highest first |
| Crc7.DivideRemainder | exos/support/misc/crc16.c:44-48 | the register holds the remainder of all bits entered so far |
| Crc7.Compute | exos/support/misc/crc16.c:52-61 | the result is the remainder of the message times x^7 modulo x^7 + x^3 + 1, shifted left with a 1 appended |
| Lcd.BitExchange | exos/support/lcd/lcd.c:50-56 | swaps the places of a at distance shift above the mask with the masked places of b and keeps all others |
| Lcd.RotatedTransposes | exos/support/lcd/lcd.c:58-82 | the three rounds transpose every 8x8 block of the tile |
| Lcd.TileByteBit | exos/support/lcd/lcd.c:85-92 | bit k of stored byte x is pixel x of row k, counted from the highest bit |
| Lcd.RotateWords | exos/support/lcd/lcd.c:61-83 | the twelve exchanges are the three rounds |
| Lcd.StoreTile | exos/support/lcd/lcd.c:85-92 | stores exactly the 32 bytes of the tile |
| Lcd.TileRotate | exos/support/lcd/lcd.c:58-93 | the 32 bytes are the transposed tile and no other byte changes |
| Lcd.ConvertBar | exos/support/lcd/lcd.c:103-105 | a bar of eight rows is transposed tile by tile, nothing outside it changes |
| Lcd.Convert | exos/support/lcd/lcd.c:95-107 | bit k of byte bar*w+x is pixel x of row 8*bar+k, for all bars, columns and bits; nothing after the last bar changes |
| Uart.MultiplierIsLeast | exos/support/lpc17/uart.c:50 | the quotient rounded up is the least multiplier whose rate is not below the target |
| Uart.Turn | exos/support/lpc17/uart.c:48-54 | a turn that goes on strictly lowers q, keeps it positive, and leaves a multiplier of at least 5 |
| Uart.HaltsIff | exos/support/lpc17/uart.c:48-54 | the search ends if and only if its first turn ends it or lowers q: b*q <= 15*r or b*q + 15*r >= 16*b |
| Uart.LargeStarts | exos/support/lpc17/uart.c:41-45 | a starting quotient of at least 16 meets that condition |
| Uart.NeverEnds | exos/support/lpc17/uart.c:48-54 | a clock and rate with quotient 1 for which the search never ends |
| Uart.Halts32Iff | exos/support/lpc17/uart.c:48-54 | on 32-bit words the search ends under exactly the same condition, while sixteen times b is below 2^32 |
| Uart.StartsEnds | exos/support/lpc17/uart.c:48-54 | for every rate the condition of HaltsIff is enough |
| Uart.TurnByRest | exos/support/lpc17/uart.c:50-53 | for every rate, however often the products wrap, a turn divides pclk - 1 by the rest, and one that goes on divides pclk plus fourteen times the rest |
| Uart.HaltsByRest | exos/support/lpc17/uart.c:48-54 | for every rate the search ends within n turns if and only if the rests alone reach a sixteenth of the clock within n turns, without a division by zero |
| Uart.WrappedDivisor | exos/support/lpc17/uart.c:48-54 | with sixteen times b at or above 2^32, unless the first turn takes more than q off q, the search ends if and only if the first turn ends it or lowers q by the wrapped divisor |
| Uart.EndsAtZero | exos/support/lpc17/uart.c:40-54 | such a rate for which the search ends with q and m both 0, although by the unwrapped divisor it would not |
| Uart.DivisorFits | exos/support/lpc17/uart.c:52 | it fits whenever a turn that can lower q goes on |
| Uart.NoDivisor | exos/support/lpc17/uart.c:40-54 | a rate for which sixteen times b wraps to 0, so that the first turn that goes on divides by zero: the search ends in no number of turns |
| Uart.MultiplierFits | exos/support/lpc17/uart.c:50 | the multiplier does not wrap in 32 bits |
| Uart.LoweringFits | exos/support/lpc17/uart.c:52 | nor does the amount by which q is lowered |
| Uart.LowerQuotient | exos/support/lpc17/uart.c:52-53 | one turn on 32-bit words lowers q and keeps r = pclk - q*b |
| Uart.Search | exos/support/lpc17/uart.c:40-55 | for every clock below 2^31 and every baud rate whose 16-fold is not 0 modulo 2^32, whenever the search ends: the multiplier is pclk - 1 divided by the rest and at most 15; if the first turn ends it or lowers q, it is the least multiplier, with r*(m-1) < b*q <= r*m and r = pclk - q*b; from a quotient of at least 16 also 5 <= m; without remainder q is exact and m is 1 |
| Decimal.ReverseText | exos/kernel/machine/hal.c:63-74 | reverses exactly the first len characters in place |
| Decimal.WriteDigits | exos/kernel/machine/hal.c:127-133 | writes the digits, lowest first, and returns their number |
| Decimal.Print | exos/kernel/machine/hal.c:125-140 | writes the padding character in the first places and the digits in the last ones and returns the length, the larger of width and digits; nothing after it changes |
| Decimal.PrintedLength | exos/kernel/machine/hal.c:125-140 | max(width, digits) characters; a 32-bit value has at most 10 digits |
| Decimal.DigitsLead | exos/kernel/machine/hal.c:127-132 | there is no leading zero, except that 0 is printed as one |
| Decimal.PrintedText | exos/kernel/machine/hal.c:134-140 | the text is as long as the larger of width and digits, and is the padding character up to the digits |
| Decimal.ReadDigits | exos/kernel/machine/hal.c:234-243 | accumulates the longest run of digits modulo 2^32 |
| Decimal.Parse | exos/kernel/machine/hal.c:229-246 | skips spaces, consumes exactly the longest run of digits and returns its value modulo 2^32 |
| Decimal.DigitsAre | exos/kernel/machine/hal.c:127-132 | the digits of a number denote that number |
| Decimal.PrintParse | exos/kernel/machine/hal.c:125-246 | for every 32-bit value, every width and padding with 0 or space, parsing the printed text followed by a non-digit consumes all of it and gives the value back |

## Left out

- MemoryRegion.Region.Alloc: requires that the request does not make the code write through NULL, which it does exactly for a request above 0xFFFFFFF0 whose first free block is cut (`HeapRuns.NullStore`); what memory holds after that is not modelled.
- MemoryManager.Manager.Alloc: regions lie in separate arrays, so an address is a region and an index; the region mutexes are not taken; the serving region must not write through NULL.
- MemoryManager.Manager.AllocIn: requires that the region does not write through NULL.
- MemoryRegion.Region.Free: takes the start of some block of the region; addresses that point elsewhere and debug-only corruption checks are not modelled.
- HeapRuns.Run: one region and its owners' stores into live contents; stores outside live contents and allocations that write through NULL are not steps.
- HeapRuns.AllocSpec: likewise; `HeapRuns.AllocFails` and `HeapRuns.AllocPromise` hold for all 32-bit requests.
- HeapRuns.AllocKeeps: likewise.
- Context switch, stacks, thread-local storage and `__kernel_do` itself: a section is assumed atomic; `__machine_req_switch` is the step `Switch`, possible at any time.
- KernelRuns.Run: covers the runs over which the invariant holds throughout, which by `KernelMisuse.GoodIff` are all runs but those with one of the uses of `KernelMisuse.PerformIff`. A section that would panic (no free mask bit, unlocking a foreign mutex, a failing assertion) is no step. What the kernel does after its invariant is broken is not modelled.
- KernelRuns.Reachable: likewise.
- KernelMisuse.ExitIff: the idle thread does not exit, nor does it wait.
- KernelMisuse.PerformIff: objects are created in one step each; a wait, queueing on an event or mutex and the like need an object that has been created.
- LockCalls.MutualExclusion: code outside `exos_mutex_lock` does not create a mutex again while it is owned, and leaves the handles of threads inside it alone.
- Kernel.Kernel.RemThread: the exiting thread is the running one and not the idle thread.
- Kernel.Kernel.AddThread: thread results, names, debuggers and stack set-up are not modelled.
- The wait inside `exos_dispatch` with its two temporary handles: between its two halves anything may happen that leaves kernel and context consistent. That the WakeEvent pulse reaches every later dispatch is not claimed, nor that a handle queued by another thread wakes this one.
- Dispatch.RemoveUnlinksOnly: no other thread runs between the two disposals; `DispatchCalls.RemoveEnds` is the form in which any may.
- Dispatch.Scan: the whole loop without interruption; `DispatchCalls.DispatchBegins` is the interleaved form.
- DispatchCalls.DRun: while the context's lock is held nobody else works on the handles of its dispatchers by name; resuming them is allowed. The lock itself, which `LockCalls` covers, is not taken again here.
- Dispatcher callbacks and disposal of the dispatcher's timer.
- `exos_event_wait` with a timeout is covered through `WaitCalls.WaitDelivers` on its two handles; the creation of its timer is not a step.
- Periodic timers: the reload branch of `_tick_handler` re-inserts during the walk; only one-shot timers are modelled. The hardware tick source is the parameter elapsed.
- Timers.Run: adds only timers whose time plus elapsed ticks fit into 32 bits, which by `Timers.AddIff` are exactly those that keep the invariant.
- Timers.Uptime.Query: requires queries at most 2^32 - 1000 ticks apart; the exact condition for any gap is `Timers.UptimeExactIff`.
- Event notifications of the ring buffer (NotEmpty, NotFull) and memory ordering of the hardware.
- MonoBlit.DrawPixels: the canvas is a two-dimensional array of words, one row per line; overflow of screen coordinates is not modelled, and a fetch outside a sprite row returns an arbitrary word, which may differ from place to place.
- MonoBlit.DrawSpritePart: for a part whose right edge is more than one column left of its left edge it requires that the word in which the tail is drawn lies on the line; the code would go on in the next line, which the two-dimensional canvas does not express.
- MonoBlit.FillSpan: one line of the fill; the edge walk of `mono_filled_polygon` is not modelled.
- Uart.Search: requires a baud rate whose 16-fold is not 0 modulo 2^32, because the code divides by it, a clock below 2^31, and that the search ends (`Uart.Halts32Iff`, `Uart.HaltsByRest`); register writes and the reported baud rate, which divides by the quotient, are not modelled.
- Uart.Halts32Iff: for sixteen times b below 2^32; `Uart.HaltsByRest` holds for all rates.
- Uart.WrappedDivisor: says nothing of a first turn that takes more than q off q, after which the words of the quotient have wrapped.
- Lcd.Convert: requires a width that is a multiple of 32; rows beyond a multiple of 8 are ignored as in the code.
- Decimal.Print: requires a width of at least 0 and a buffer that is large enough; hexadecimal, signed and long variants are left out.
- Decimal.Parse: takes a string that ends in NUL.
- Calendar conversion, FIFO, ports, sockets, protocols, register-level drivers, terminal and boot code.
