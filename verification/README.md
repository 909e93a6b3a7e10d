# BermudaOS: the kernel's algorithms and protocols, verified

BermudaOS is a small cooperative kernel for 8-bit AVR controllers. This project models the parts of it
that are algorithms or protocols in their own right, and proves what they are for. `dafny verify
dfyconfig.toml` checks everything.

| part of the kernel | as values | as the kernel runs it |
|---|---|---|
| heap allocator | `HeapModel` | `Heap`: headers in a byte array, links followed through memory |
| overlap-safe word copy | `Bytes` | `Memcpy`: byte and word loops over one array |
| virtual timers | `TimerModel`, `AlarmModel` | `Timers`: a linked delta list updated in place |
| events, priority queues, scheduler, threads | `EventModel`, `Mutex`, `KernelModel` | `KernelMemory`, `Placement`, `Kernel` |
| two-wire bus master | `TwiModel`, `I2cMessage` | `Twi`: the interrupt handler and the hardware it drives |
| vector of bus messages | `I2cMessage` | `I2cVector`: an array grown, shifted and compacted in place |
| XOR linked list | | `XorList`: addresses and the memory they point into |

**Heap.** Every byte ever given to the heap belongs to exactly one block, header included; the free
list is address-sorted, holds exactly the free blocks, and no two of them abut. Allocation is first
fit, one pass of `free` coalesces completely, and no operation (`Alloc`, `Free`, `Realloc`, `InitBlock`)
writes into the payload of a block that is live before and after it.
The code does not always meet the promise "free gives the block back": when the free list is empty,
the block loses its magic and joins no list (src/sys/mem.c:270-298). `LoseOnlyBlock` runs into it, and
`FreeReturnsBytes` and `RoundTrip` say exactly when it does not happen. A request for nothing that is
granted nothing can never be freed, because blocks of size zero are refused (src/sys/mem.c:265-266);
`KeepEmptyBlock` runs into that.

**Timers.** The delta list stands for a sorted list of absolute deadlines. Ticks may be processed in any
batches; every timer is served exactly at its deadlines, a periodic one without drift; processing stops
as soon as the elapsed ticks are used up, so of several timers due at that very tick one is served
(src/sys/virt_timer.c:247-274). The tick counter and the conversion from milliseconds are 32-bit words,
and lemmas say exactly within which bounds they mean what they should.

**Kernel.** Thread fields and queue words are kept as one sequence per field, because the code takes the
address of queue words and of `next` fields alike (`Loc`). Interrupts may advance the system tick and post
any number of events in every gap between two critical sections (`Interrupts`). Ghost state records each
critical section as an atomic step. A method up to its call of the scheduler states exactly which steps it
took, whatever posts came in between. A pass of the scheduler collects posts that land while it runs, so it
is stated queue by queue: each event queue on which no post landed is exactly what the visits and time-outs
of the pass make of it (`PassExact`), and with posts landing anywhere the steps of the pass come in groups,
a post taken and signalled at once or a due time-out, so that no waiter leaves its queue except by a post
that was consumed or by a time-out that is due (`WakesOnly`). What holds over all runs of such steps is then
proved once, on values: every thread is on at most one queue and its `queue` field names it, queues are
sorted by priority and first come first served among equals, a yield from anywhere in the run queue goes
behind everybody as important (`YieldGoesBehind`), no wake-up is lost, every post is accounted
for, and a queue that its users treat as a lock has at most one owner and is SIGNALED exactly if it has none.
For the lock only the users' own rules are assumed; that the code waits on a queue only if it finds it not
SIGNALED, and takes a post only from a counter that is not 0, is recorded of every run (`Guarded`) up to the
first post by anybody else. The byte-wide counter `ec` wraps at 256;
`PostCounts` says exactly when a post counts, and `CounterWraps` shows 256 posts that leave none. Sleeps
and limited waits are one-shot timers in the delta list of the timer modules: a thread is never woken by a
timer before its deadline, and after a scheduler pass nobody still sleeps or waits under a deadline that lies
before the tick of that pass. A thread that is woken by the scheduler pass of its own wait keeps the state READY
while it runs on (src/sys/sched.c:302-310); it is RUNNING only after a context switch. A thread that a wait
resumes with -1 has been taken off its queue by the time-out (`EventTMO`, `WaitReturn`) and, if the queue
is a lock, does not own it (`TimedOutNeverOwns`); one that a signal took off has no time-out left and
returns 0 (`SignalRaw`).

**Two-wire bus.** The hardware answers each write to its control register with the status codes of the
ATmega, and the peripherals answer bytes as they like. A transfer shows on the wire what UM10204
(sections 3.1.4, 3.1.6 and 3.1.10) asks for: START, address and data of each message, a repeated START
between two, one STOP. A refused byte ends the transfer, even if more messages are queued: for any answers
the wire shows the acknowledged chain up to the byte refused first (`AnsweredChain`).

**Vector of messages.** Each operation is proved for all messages, whatever their flags. Some promises hold
only on a condition, and each has a vector that misses it:

- A time-out of the master leaves exactly the slaves if and only if its marking loop, which stops at the
  first slave flag, reaches every unfinished master (`MasterTmoExact`); in `HideMaster` it does not.
- The same loop marks everything on its way. It spares the other messages if and only if no unfinished one
  stands on that way (`MasterTmoSpares`); in `MarkBystander` one does.
- A time-out of the slave marks everything from the first unfinished slave on, masters included. It spares
  the masters if and only if no unfinished one stands behind an unfinished slave (`SlaveTmoSpares`), which
  holds while masters are first. In `ForgetMaster` a master is left marked done that was never sent.
- Adding keeps masters first if and only if it does not put a master behind slaves (`Add`); in
  `MasterBehindSlave` it does.
- The clean-up of an empty vector reads a message through NULL (src/dev/i2c/i2c-core.c:203-205); that, and
  only that, is its `fault` (`Cleanup`, `MasterTmo`).

Counter readings, memory exhaustion and bus answers come in as parameters: `now`, `memory`, `bus`.

## Model

| member | source | states |
|---|---|---|
| Memcpy.Memcpy | src/lib/c/string/memcpy.c:99-162 | for every overlap, direction, alignment and length the destination receives the bytes the source had, and no other byte changes |
| Memcpy.MemcpyUp | src/lib/c/string/memcpy.c:114-137 | the upward copy in three parts (single bytes, words, rest) is one byte move, for a destination below the source |
| Memcpy.MemcpyDown | src/lib/c/string/memcpy.c:138-158 | the downward copy likewise, for a destination above the source |
| Memcpy.CopyLongsUp | src/lib/c/string/memcpy.c:134-135 | the word loop moves its words with overlapping ranges, every access aligned and inside the two ranges |
| Memcpy.CopyLongsDown | src/lib/c/string/memcpy.c:155-156 | the same, from the top down |
| Memcpy.AlignUp | src/lib/c/string/memcpy.c:118-130 | how many single bytes bring both pointers to a word boundary, or the whole length if none can |
| Memcpy.LowBits | src/lib/c/string/memcpy.c:118-127 | the masks of the code test the remainders modulo the word size |
| Heap.Heap.Alloc | src/sys/mem.c:46-83 | the lowest-addressed free block that fits is handed out, all of it if it is less than H + 4 bytes too large and exactly `size` bytes of it otherwise; nothing changes if and only if none fits or the request is beyond the limit; payloads and the heap invariant are kept |
| Heap.Heap.Search | src/sys/mem.c:54-69 | the walk stops at the first block that fits and splits it if it is at least H + 4 bytes too large |
| Heap.Heap.UseBlock | src/sys/mem.c:199-226 | the node leaves the list, wherever it is in it, and becomes live |
| Heap.Heap.SplitNode | src/sys/mem.c:350-366 | one free block becomes two abutting free blocks of the same bytes, in list order |
| Heap.Heap.Free | src/sys/mem.c:118-148 | the block's bytes, header included, join the free bytes, one pass leaves no two free blocks abutting, and no other payload or block changes; pointers without the magic are ignored |
| Heap.Heap.NodeReturn | src/sys/mem.c:263-299 | a live block joins the list at its place in address order, or is refused, or is lost to an empty list |
| Heap.Heap.Sweep | src/sys/mem.c:130-145 | the walk of `free` fuses the freed node with whichever neighbours it abuts, and ends with none abutting |
| Heap.Heap.MergeNode | src/sys/mem.c:311-339 | two abutting free nodes, in either order, become the one block of their bytes |
| Heap.Heap.InitBlock | src/sys/mem.c:236-254 | a region becomes the first free block or is freed into the list; the heap owns exactly its bytes in addition, and no byte outside the headers changes |
| Heap.Heap.Available | src/sys/mem.c:157-171 | the sum of the free payloads, which never overflows a 16-bit word |
| Heap.Heap.Realloc | src/sys/mem.c:85-108 | the new block is no block that was live, and byte for byte it starts with what the old block held, up to the smaller of the two sizes; no byte outside the headers and those new bytes changes; zero length frees, NULL allocates, both without a change to any byte outside the headers; it reads in front of NULL if and only if both come together |
| Heap.Heap.CopyPayload | src/sys/mem.c:98-102 | copying between two payloads writes no header |
| Heap.LoseOnlyBlock | src/sys/mem.c:118-148 | a concrete heap whose only block is allocated, freed and gone for good |
| Heap.KeepEmptyBlock | src/sys/mem.c:263-266 | a concrete heap whose block of size zero stays live after it has been freed |
| HeapModel.RoundTrip | src/sys/mem.c:46-148 | freeing an allocation at once restores the free list node for node if and only if it got some bytes and did not take the only node whole |
| HeapModel.FreeReturnsBytes | src/sys/mem.c:118-148 | freeing gives the bytes back if and only if the list was not empty and the block not of size zero |
| HeapModel.SameBytesSameList | src/sys/mem.c:118-148 | a coalesced sorted free list is determined by the bytes it covers, so how blocks were allocated and freed leaves no trace |
| HeapModel.CanonicalUnique | src/sys/mem.c:118-148 | two canonical lists covering the same bytes are equal, node for node |
| HeapModel.FreeBytesCount | src/sys/mem.c:157-171 | free bytes are the free payloads plus one header per node |
| HeapModel.PendingAfterFuse | src/sys/mem.c:130-145 | after a fusion only the fused node can still abut a neighbour, and only later in the walk |
| HeapModel.ReallocBySteps | src/sys/mem.c:85-108 | allocation, copy and free add up to moving the block |
| HeapModel.KeptByAdd | src/sys/mem.c:236-254 | a header written into memory that belongs to nobody leaves every live payload alone |
| HeapModel.LinkedAfterInsert | src/sys/mem.c:263-299 | two link writes put a block between its list neighbours and keep the list sorted and complete |
| HeapModel.LinkedAfterFuse | src/sys/mem.c:311-339 | fusing two list neighbours takes the second out of the list |
| HeapModel.TilesAfterCut | src/sys/mem.c:350-366 | a split moves no byte from one owner to another |
| HeapModel.LostForGood | src/sys/mem.c:263-299 | allocating all of the only block and freeing it leaves it on no list |
| TimerModel.Batching | src/sys/virt_timer.c:234-275 | processing a + b ticks at once gives the same list and the same call-backs as a and then b, for every list |
| TimerModel.ProcessIsExact | src/sys/virt_timer.c:234-275 | each timer is called back exactly at its deadline plus multiples of its period, none after the tick reached; its next deadline is on the list and not before that tick, or it was a one-shot and is gone |
| TimerModel.HeadIsServed | src/sys/virt_timer.c:247-274 | if any time passes and the first timer is due by the tick reached, also at that very tick, it is served |
| TimerModel.FiringOrder | src/sys/virt_timer.c:234-275 | call-backs come in order of due time, and at most the last at the very tick reached |
| TimerModel.AddRefines | src/sys/virt_timer.c:201-225 | adding puts a timer `left` ticks from now behind all timers due no later, and moves no other deadline |
| TimerModel.PlaceKeepsOrder | src/sys/virt_timer.c:201-225 | where that is: everything before is due no later, everything behind strictly later |
| TimerModel.StopRefines | src/sys/virt_timer.c:160-188 | stopping removes one deadline, or disarms it if it is due already, and moves no other |
| TimerModel.StopSilences | src/sys/virt_timer.c:160-188 | a stopped timer is never called back, also when it stays linked |
| TimerModel.ServedTerminates | src/sys/virt_timer.c:234-275 | the loop of processing ends: serving a head with no ticks left shortens the run of such heads, even if it is re-armed |
| TimerModel.CreatedDue | src/sys/virt_timer.c:141 | a new timer is due `ticks` after its creation if and only if that lies within one turn of the 32-bit counter |
| TimerModel.ElapsedTicks | src/sys/virt_timer.c:240 | the difference of two counter values is the elapsed time if and only if less than one turn has passed |
| TimerModel.MillisToTicksExact | include/arch/avr/328/timer.h:65-66 | at 1000 Hz milliseconds are ticks if and only if there are at most 4294967 of them |
| TimerModel.InsertBounded | src/sys/virt_timer.c:201-225 | no deadline leaves the turn of the counter when a timer is added, so no sum of deltas overflows |
| TimerModel.StopBounded | src/sys/virt_timer.c:160-188 | nor when one is stopped |
| AlarmModel.ArmedAdd | src/sys/virt_timer.c:129-148 | a one-shot set `left` ticks ahead is on the list with that deadline, and all others keep theirs |
| AlarmModel.ArmedStop | src/sys/virt_timer.c:160-188 | stopping disarms one timer and no other |
| AlarmModel.FiredIsDue | src/sys/virt_timer.c:234-275 | only armed timers fire, at their deadlines, none later than the tick reached, and each once |
| AlarmModel.ArmedProcess | src/sys/virt_timer.c:234-275 | exactly the timers that have not fired stay armed, and none of them is due before the tick reached |
| Timers.TimerQueue.Create | src/sys/virt_timer.c:129-148 | a new timer enters the list with its delay counted from the last tick processed |
| Timers.TimerQueue.Add | src/sys/virt_timer.c:201-225 | the linked list is the delta list with the timer inserted |
| Timers.TimerQueue.Stop | src/sys/virt_timer.c:160-188 | the linked list is the delta list with the timer stopped |
| Timers.TimerQueue.Serve | src/sys/virt_timer.c:262-273 | an elapsed head calls back if armed and is dropped or re-armed |
| Timers.TimerQueue.ProcessTicks | src/sys/virt_timer.c:234-275 | the loop leaves the list and makes the call-backs of processing the ticks the 32-bit counters show |
| EventModel.NoLostWakeUp | src/sys/events/event.c:94-118 | posts before and after a waiter joins are pending on the queue it waits in |
| EventModel.PostNExact | src/sys/events/event.c:285-293 | what any number of posts does to a queue, including the wrap of the byte counter |
| EventModel.PlaceSplits | src/sys/sched.c:161-201 | a thread goes behind all that are at least as important and in front of a less important one; nobody else moves |
| EventModel.PlaceOrdered | src/sys/sched.c:161-201 | sorting by priority, first come first served among equals, is kept |
| EventModel.PlacedAnew | src/sys/thread.c:208-217 | a thread taken out from anywhere and placed anew goes behind all that are as important and stays in front of the less important; the others stand as before |
| EventModel.DropKeepsPosts | src/sys/events/event.c:185-195 | a time-out leaves what is pending to the waiters that are left, or as SIGNALED if there are none |
| EventModel.RemoveKeepsPosts | src/sys/sched.c:213-244 | a removal leaves what is pending to the waiters that are left, and nothing if there are none |
| EventModel.Drain | src/sys/sched.c:268-286 | with k posts on n waiters enough quiet passes release the first min(k, n) and leave SIGNALED, NULL, or the others with nothing pending |
| EventModel.PassReleases | src/sys/sched.c:268-286 | one pass releases waiters from the front only, at least one if a post is pending |
| EventModel.YieldsRotate | src/sys/thread.c:208-217 | n yields turn the group of the most important threads by n and leave the rest |
| EventModel.RoundRobin | src/sys/thread.c:208-217 | as many yields as the group has threads run each once, in order, and restore the queue |
| Mutex.MutualExclusion | src/sys/events/event.c:94-138 | in every run of the kernel from SIGNALED, in which nothing posts but releases by the owner and an owner does not wait for its own lock, at most one thread owns the lock, the queue is SIGNALED if and only if nobody does, and no owner waits |
| Mutex.HandOver | src/sys/events/event.c:219-259 | a signal by the owner passes the lock to the most important and earliest waiter, which becomes runnable, never through SIGNALED; without waiters the lock is free |
| Mutex.TimedOutNeverOwns | src/sys/events/event.c:172-209 | a waiter that times out is on no queue and does not own the lock, and the owners and the other waiters are what they were |
| Mutex.StepKeepsLock | src/sys/events/event.c:94-293 | every step of the kernel that passes the tests of the code keeps the lock: SIGNALED exactly if unowned, one owner otherwise, nothing pending |
| KernelModel.RecordedExtends | src/sys/events/event.c:94-118 | recording one more step keeps a record of the run: on a queue without posts so far, each step has passed the test that the code makes before it |
| KernelModel.InvRun | src/sys/sched.c:161-244 | in every run of critical sections and posts each thread is on at most one queue, queues stay sorted and first come first served, and the run queue carries no posts |
| KernelModel.InvStep | src/sys/sched.c:161-244 | one step keeps that |
| KernelModel.Conservation | src/sys/events/event.c:94-293 | over every run, posts pending are those before, plus those that raised them, less those consumed, merged away with the last waiter, or wrapped |
| KernelModel.PostCounts | src/sys/events/event.c:285-293 | a post raises what is pending by one if and only if the queue is not SIGNALED and the counter is below 255 |
| KernelModel.CounterWraps | src/sys/events/event.c:285-293 | a concrete waiter for which 256 posts leave nothing pending |
| KernelModel.PostsAroundWait | src/sys/events/event.c:94-118 | however posts interleave with a thread that blocks, each lands before or after it joins the queue, and none is lost in between |
| KernelModel.DrainRuns | src/sys/sched.c:268-286 | in the whole system enough quiet passes make exactly the first min(k, n) waiters of a queue runnable |
| KernelModel.SweepProjects | src/sys/sched.c:268-286 | a pass treats every event queue as if it were alone |
| KernelModel.QuietSweep | src/sys/sched.c:268-286 | with nothing pending a pass changes nothing |
| KernelModel.YieldIsTurn | src/sys/thread.c:208-217 | a yield of the head of the run queue is one turn of the round robin and touches no event queue |
| KernelModel.YieldGoesBehind | src/sys/thread.c:208-217 | a yield by any thread of the run queue, first or not, takes it out and places it anew if somebody follows it, and does nothing otherwise: everybody as important is in front of it then |
| KernelModel.PassKeepsOrder | src/sys/sched.c:261-300 | a scheduler pass lets threads join the run queue, and nobody who is on it leaves it or changes places, whatever posts land |
| KernelModel.RoundRobinRuns | src/sys/thread.c:208-217 | when nothing is pending, m yields with their scheduler passes, each by the thread that runs, let each of the m most important threads run once, in order, and leave every queue as it was |
| KernelModel.PassThen | src/sys/sched.c:268-300 | two stretches of a pass, with posts landing in either, are one: exact on every queue on which no post landed in both |
| KernelModel.VisitExact | src/sys/sched.c:276-284 | a thread with a counter hands over one post of its queue and leaves every other event queue alone, except those on which posts landed |
| KernelModel.WaiterStays | src/sys/sched.c:261-300 | a waiter leaves its queue by a post or by a time-out: with no post pending or landing and time left it stays |
| KernelModel.WakesThen | src/sys/sched.c:268-300 | of two stretches of a pass each of which lets waiters go only by consumed posts and due time-outs, so does the whole, whatever posts land |
| KernelModel.WakesHead | src/sys/sched.c:276-284 | taking a post and signalling it lets nobody go but a waiter of that queue |
| KernelModel.SignalMoves | src/sys/events/event.c:219-259 | a signal moves one thread, the head of the queue, to the run queue |
| KernelModel.TimeOutMoves | src/sys/events/event.c:172-209 | a time-out moves one thread, from anywhere in its queue, to the run queue |
| KernelMemory.PostRep | src/sys/events/event.c:285-293 | the writes of a post from an interrupt are a post on the queue in memory |
| KernelMemory.LinkRep | src/sys/sched.c:186-199 | the link and counter writes of the queue insertion put the thread where its priority belongs, and move the posts to a new head |
| KernelMemory.UnlinkRep | src/sys/events/event.c:185-195 | the writes of a removal or time-out take the thread off the chain and pass its posts on |
| KernelMemory.HeadsItsQueue | src/sys/sched.c:268-286 | a thread with a non-zero counter heads the event queue its `queue` field names |
| Placement.WakePlaced | src/sys/events/event.c:238-249 | waking one thread leaves every thread where its state and timer say |
| Placement.KeptThrough | src/sys/sched.c:261-314 | through any number of wake-ups a thread that is not made runnable keeps its state and its timer |
| Placement.SelfPlaced | src/sys/events/event.c:116-130 | so does a thread that puts itself to sleep or to wait |
| Placement.OverdueIsAwake | src/sys/sched.c:288-300 | after a pass everybody who was under a timer due before its tick is on the run queue and on no event queue |
| Placement.NoneIsEarly | src/sys/sched.c:288-300 | everybody whom a pass timed out was under a timer whose deadline had come |
| Placement.StillSleeps | src/sys/events/event.c:120-130 | whoever sleeps or waits under a timer goes on doing so under that timer or is awake, a sleeper only once the timer is due |
| Kernel.Kernel.constructor | src/sys/sched.c:139-147 | the kernel starts settled: the idle thread runs, no other thread has been created, no timer is set |
| Kernel.Kernel.Create | src/sys/thread.c:115-125 | the new thread is READY and on the run queue, exactly at its place by priority; the running thread goes on |
| Kernel.Kernel.SignalFromISR | src/sys/events/event.c:285-293 | one post, on NULL, SIGNALED or waiting queues |
| Kernel.Kernel.PrioQueueAdd | src/sys/sched.c:161-201 | the thread joins the queue at its place by priority, atomically up to posts, which may land before, during and after; nobody else changes queue |
| Kernel.Kernel.Walk | src/sys/sched.c:179-183 | the walk with interrupts enabled finds that place |
| Kernel.Kernel.QueueRemove | src/sys/sched.c:213-244 | the thread leaves the queue if it is on it, atomically up to posts |
| Kernel.Kernel.SignalRaw | src/sys/events/event.c:219-259 | the head becomes runnable and its time-out is cancelled, or the queue SIGNALED; -1 if and only if it was SIGNALED already |
| Kernel.Kernel.StopTimer | src/sys/virt_timer.c:160-188 | the timer is no longer armed, and every other one is, with its deadline |
| Kernel.Kernel.EventTMO | src/sys/events/event.c:172-209 | the owner of the timer, and no other thread, leaves the queue for the run queue and will see that it timed out |
| Kernel.Kernel.StandInLine | src/sys/events/event.c:98-130 | from the test of the word to the call of the scheduler no post is lost, whether it lands before or after the thread has joined: all are pending on the queue the thread stands in; at that call it sleeps, under a new timer that names this queue and this thread and is on the timer list at its deadline if and only if there is a limit |
| Kernel.Kernel.EventWait | src/sys/events/event.c:94-130 | a SIGNALED queue is taken and the thread yields, otherwise it sleeps on the queue, under a timer if and only if there is a limit, due that long after the call; when the pass is over it is awake or still on the queue under that timer, which is on the timer list, and it is awake and off the queue if the deadline lies before the tick of the pass |
| Kernel.Kernel.WaitReturn | src/sys/events/event.c:131-137 | a resumed wait returns -1 if and only if it timed out |
| Kernel.Kernel.EventWaitNext | src/sys/events/event.c:148-160 | a NULL queue is refused; otherwise a pending post is discarded first, the wait succeeds at once only if another has come in, and otherwise the thread sleeps as in EventWait, under the same timer and until the same deadline; the steps of either path are exact up to the scheduler pass |
| Kernel.Kernel.EventSignal | src/sys/events/event.c:270-275 | the post, the head of the queue at its place on the run queue, and a yield that puts the caller behind everybody as important, also if it is no longer first; the result is that of the post |
| Kernel.Kernel.HandOver | src/sys/sched.c:276-284 | exactly these steps: one pending post is taken from the head's counter, the head leaves its queue, and joins the run queue; every other event queue is unchanged unless posts landed on it |
| Kernel.Kernel.DeliverPosts | src/sys/sched.c:268-286 | the loop over all threads is a pass on each event queue on which no post lands meanwhile; on every other queue too, each waiter that leaves has been handed a post |
| Kernel.Kernel.Fire | src/sys/virt_timer.c:262-270 | an elapsed timer wakes its owner, by the steps of its call-back, and is gone; nobody else's state or timer changes |
| Kernel.Kernel.ProcessTimers | src/sys/virt_timer.c:234-275 | every timer that has fired has woken its owner, which knows that it timed out if it waited for an event; no other thread has timed out or left a queue, and no armed timer is due before the tick reached |
| Kernel.Kernel.Dispatch | src/sys/sched.c:302-310 | the head of the run queue runs, and the thread that ran before is READY if it still could run |
| Kernel.Kernel.SchedulerExec | src/sys/sched.c:261-314 | afterwards the head of the run queue runs, every thread is where its state says, nobody has left the run queue or changed places on it, and whoever slept or waited under a deadline before the tick of the pass is runnable and on no event queue; each event queue on which no post landed is exactly what visits and due time-outs make of it, and on any queue a waiter leaves only by a consumed post or a due time-out; a thread that is not runnable, or waits to be notified, has the state and timer it had |
| Kernel.Kernel.Yield | src/sys/thread.c:208-217 | the thread, first or not, is behind everybody as important afterwards and in front of the less important; nobody else on the run queue changes places, and nobody joins it but by the scheduler pass |
| Kernel.Kernel.Sleep | src/sys/thread.c:136-150 | the thread leaves all queues and sleeps under a new timer due `ms` ticks after the call, which is on the timer list at that deadline: the pass wakes it if the deadline lies before its tick, and not if it lies behind |
| Kernel.Kernel.ThreadTimeout | src/sys/thread.c:161-167 | and then joins the run queue |
| Kernel.Kernel.SetPrio | src/sys/thread.c:178-197 | the thread is taken out of the run queue and placed anew under its new priority, and gives way if it is no longer first |
| Kernel.Kernel.Wait | src/sys/thread.c:227-233 | the thread is on no queue and waits, also after the scheduler pass; no post or timer makes it runnable again |
| Kernel.Kernel.Notify | src/sys/thread.c:246-258 | a waiting thread becomes runnable, at its place on the run queue, and the caller yields |
| Kernel.Kernel.PostsAccounted | src/sys/events/event.c:94-293 | in every state of the kernel all posts since the start are accounted for |
| Kernel.Kernel.AtMostOneOwner | src/sys/events/event.c:94-259 | in every state of the kernel an event queue whose users keep to the rules of a lock has at most one owner, none exactly if its word is SIGNALED, and no owner waits |
| I2cMessage.DoneKeepsTheRest | include/dev/i2c/i2c-core.h:35-83 | marking a message done changes no other flag |
| I2cVector.Vector.constructor | src/dev/i2c/i2c-msg.c:69-81 | an empty vector of the default limit |
| I2cVector.Vector.Add | src/dev/i2c/i2c-msg.c:170-217 | a master goes in front of the first message that is not one and a slave behind all, first come first served, whatever the order before; if masters were first, they stay so if and only if the role asked for does not put a master behind slaves; length never exceeds the limit; the code writes through NULL if and only if shifting needs memory and gets none |
| I2cVector.Vector.InsertAt | src/dev/i2c/i2c-msg.c:325-339 | the message is at the index and the others keep their order, up to the length; behind it the vector grows without the message; the code leaves the array if and only if the vector is empty or the index is beyond the limit |
| I2cVector.Vector.DeleteAt | src/dev/i2c/i2c-msg.c:93-112 | exactly the entry at the index is gone, or nothing |
| I2cVector.Vector.DeleteMsg | src/dev/i2c/i2c-msg.c:227-247 | exactly the first occurrence is gone, or nothing |
| I2cVector.Vector.Get | src/dev/i2c/i2c-msg.c:122-132 | the entry, or NULL beyond the length |
| I2cVector.Vector.Locate | src/dev/i2c/i2c-msg.c:141-159 | the first position, length + 1 if there is none, -1 for NULL |
| I2cVector.Vector.ShiftRight | src/dev/i2c/i2c-msg.c:377-401 | entries from the index on move up by any number of places, growing the vector if needed; the loop runs out of bounds if and only if the vector is empty |
| I2cVector.Vector.ShiftLeft | src/dev/i2c/i2c-msg.c:427-444 | entries from the index on move down by one, also from index zero |
| I2cVector.Vector.FirstPending | include/dev/i2c/i2c-msg.h:89-120 | the first unfinished message of a role, if and only if there is one |
| I2cVector.Vector.Cleanup | src/dev/i2c/i2c-core.c:197-216 | the deleting reverse loop is the order-preserving filter that drops the finished messages of one role, and reads through NULL if and only if the vector is empty |
| I2cVector.Vector.MasterTmo | src/dev/i2c/i2c-core.c:246-267 | what is left are the messages that are not masters, and the masters neither finished nor marked; these are exactly the slaves if and only if every unfinished master is marked; every message has the flags it had, or is marked done if it stands between the first unfinished master and the next slave flag |
| I2cVector.Vector.SlaveTmo | src/dev/i2c/i2c-core.c:224-237 | exactly the master messages are left if a slave message was unfinished, otherwise all; every message from the first unfinished slave on is marked done, masters included, and the others have the flags they had |
| I2cVector.MasterTmoExact | src/dev/i2c/i2c-core.c:246-267 | exactly the slaves survive a time-out of the master if and only if every unfinished master is marked, which the loop does from the first of them to the next slave flag |
| I2cVector.MarkedAre | src/dev/i2c/i2c-core.c:246-267 | a time-out of the master marks what stands between the first unfinished master and the next slave flag, and nothing else |
| I2cVector.MarkedRestIs | src/dev/i2c/i2c-core.c:224-237 | a time-out of the slave marks what stands from the first unfinished slave on, and nothing else |
| I2cVector.HideMaster | src/dev/i2c/i2c-core.c:246-267 | a concrete vector whose unfinished master survives a time-out of the master, hidden by its own slave flag |
| I2cVector.MasterTmoSpares | src/dev/i2c/i2c-core.c:246-267 | no unfinished message that is not a master is marked if and only if none stands between the first unfinished master and the next slave flag |
| I2cVector.MarkBystander | src/dev/i2c/i2c-core.c:246-267 | a concrete vector in which one is, and is left as done |
| I2cVector.SlaveTmoSpares | src/dev/i2c/i2c-core.c:224-237 | a time-out of the slave marks no unfinished master if and only if none stands behind an unfinished slave, as none does while masters are first |
| I2cVector.ForgetMaster | src/dev/i2c/i2c-core.c:224-237 | a concrete vector, reached by adding, in which it leaves a master marked done that was never sent |
| I2cVector.MasterBehindSlave | src/dev/i2c/i2c-msg.c:170-217 | two additions after which a master stands behind a slave |
| I2cVector.OneRoleIsMarked | src/dev/i2c/i2c-core.c:246-267 | every unfinished master is marked if messages are of one role each, masters first |
| I2cVector.KeptIsOtherRole | src/dev/i2c/i2c-core.c:197-216 | dropping one role's messages when all are finished leaves the other role |
| I2cVector.DeletionKeepsOrder | src/dev/i2c/i2c-msg.c:93-112 | deleting and cleaning up keep masters first |
| TwiModel.AcknowledgedChain | src/dev/i2c/busses/atmega-i2c.c:623-758 | if every byte is acknowledged, the wire shows address and data of each message in vector order, repeated STARTs between and one STOP; a receive of n bytes clocks max(n, 1) with NACK on exactly the last; each message is served and marked done once |
| TwiModel.AnsweredChain | src/dev/i2c/busses/atmega-i2c.c:623-758 | for any answers the wire shows that chain up to the first byte that is refused, and then STOP; the messages before the last one are served, a refused one is only marked done, and those behind it are untouched |
| TwiModel.AnsweredCut | src/dev/i2c/busses/atmega-i2c.c:684-702 | either every byte is acknowledged and nothing is cut off, or the wire ends with the first byte refused and STOP |
| TwiModel.FrameShows | src/dev/i2c/busses/atmega-i2c.c:638-758 | one message on the wire: the low byte of its address, then its bytes in order, or those of the peripheral with NACK on exactly the last |
| TwiModel.ExchangeCalls | src/dev/i2c/busses/atmega-i2c.c:638 | the address bytes on the wire are the low bytes of the addresses of the messages, in vector order; for addresses below 256 they are the addresses themselves |
| TwiModel.ExchangeOrderly | src/dev/i2c/busses/atmega-i2c.c:684-702 | whatever is answered, there is one STOP, at the end; a refused byte is followed by it; messages are done in vector order up to the last one, which was unfinished before, and the others are untouched |
| TwiModel.ReceivesAll | src/dev/i2c/busses/atmega-i2c.c:713-758 | the bytes of a receive are stored in order and all but the last acknowledged |
| Twi.Controller.Transfer | src/dev/i2c/busses/atmega-i2c.c:368-395 | from START to STOP the wire and the messages are those of the protocol for any answers of the peripherals, the peripherals called are those of the messages, the last message is the one reported, the master event is posted once, the result is 0, the bus is free again, and the controller goes on listening if and only if a slave message waits |
| Twi.Controller.Isr | src/dev/i2c/busses/atmega-i2c.c:623-758 | each interrupt tells the hardware to do what the protocol has next, and posts the event exactly when it stops |
| Twi.Controller.OnStart | src/dev/i2c/busses/atmega-i2c.c:633-640 | the data register holds the low byte of the address of the first unfinished message, and the acknowledge bit is what it was |
| Twi.Controller.Advance | src/dev/i2c/busses/atmega-i2c.c:664-682 | a repeated START with acknowledge for the next message, or STOP, with acknowledge if and only if a slave message waits |
| Twi.Controller.Begin | src/dev/i2c/busses/atmega-i2c.c:377-386 | START, with acknowledge if and only if a slave message waits |
| Twi.Controller.OnSent | src/dev/i2c/busses/atmega-i2c.c:646-682 | the next byte, or the next message, or STOP |
| Twi.Controller.OnRefused | src/dev/i2c/busses/atmega-i2c.c:684-702 | the message is done, and STOP even if more wait |
| Twi.Controller.OnReceived | src/dev/i2c/busses/atmega-i2c.c:713-733 | the byte is stored and the next one asked for, with NACK if it is the last |
| Twi.Controller.OnLast | src/dev/i2c/busses/atmega-i2c.c:735-758 | the last byte is stored, then the next message or STOP |
| Twi.Controller.Ioctl | src/dev/i2c/busses/atmega-i2c.c:260-321 | which control bits each of the ten requests sets and clears, and that any other request changes nothing |
| Twi.Controller.Update | src/dev/i2c/busses/atmega-i2c.c:538-553 | the next master and slave message are the first unfinished ones |
| Twi.Direction | src/dev/i2c/busses/atmega-i2c.c:638 | the direction bit survives the truncation of the address to the data register |
| XorList.Nodes.NeighboursFound | include/lib/list/xorlist.h:125-128 | with one neighbour in hand the stored word yields the other, in both directions |
| XorList.Nodes.Insert | src/lib/xorlist.c:59-81 | the node follows its predecessor in the list, in both directions |
| XorList.Nodes.RemoveNode | src/lib/xorlist.c:91-112 | exactly that node is gone, from both directions |
| XorList.Nodes.AddNode | src/lib/xorlist.c:125-152 | the new node is behind the given one, behind the last for NULL, and nowhere if the given one is not in the list or the list is empty, where the result is OK all the same; no node outside the list changes |
| XorList.Nodes.Iterate | src/lib/xorlist.c:165-185 | the hook sees the nodes in order; one that is done before the last node is seen twice and is the end |
| XorList.LinkedBackwards | src/lib/xorlist.c:37-47 | the same words are the list read from its tail |
| XorList.BothDirections | src/lib/xorlist.c:165-185 | with a hook that never finishes, iteration sees the list from the head and its exact reverse from the tail |

## Left out

- Out of memory: `BermudaHeapAlloc` ends the system when nothing fits; here that is a NULL result with nothing changed.
- The mutex around the heap, which is never taken; heap calls are sequential.
- Heap.Heap.Free: of a pointer that never came from the heap, only that bytes without the magic are ignored; a forged magic is not modelled. NULL and size checks callers make are theirs.
- Heap.Heap.Realloc: what follows when zero length and a NULL pointer come together, and the code reads in front of NULL (`fault`).
- Timers.TimerQueue.Stop: the timer is linked; stopping one that was already freed is a use after free.
- Register saving and stacks: a context switch is "the head of the run queue becomes the current thread".
- Ending and freeing threads: `BermudaThreadExit` and `BermudaThreadFree` walk the list of all threads by the wrong link.
- Kernel.Kernel.constructor: the storage and the priorities of all threads are given at the start; a thread that has not been created yet is kept like one that waits.
- Kernel.Kernel.Create: does not initialise a stack, nor put the thread in front of the list of all threads, which is fixed.
- Kernel.Kernel.Notify: not for sleeping threads, which the code enqueues without unlinking.
- Kernel.Kernel.SetPrio: not with the lowest priority, which ends the thread.
- Kernel.Kernel.Sleep: allocation of the timer does not fail, because the heap ends the system when it is full.
- Kernel.Kernel.ProcessTimers: kernel time is unbounded and a millisecond is a tick; what the 32-bit counters and the conversion do is said by the lemmas of the timer module. Call-backs do not touch the timer list, as the kernel's two do not.
- Mutex.TimedOutNeverOwns: the result -1 belongs to `Kernel.Kernel.WaitReturn`, since steps on queues carry no results.
- Twi.Controller.Isr: not the slave states, arbitration loss and call-backs. In the master states the message pointer is never NULL, so the branches for that are not modelled, and messages are referred to by their position in the vector.
- Twi.Controller.OnSent: not for messages with the call-back flag, which hand control to the application in the middle of a transfer.
- Twi.Controller.OnLast: likewise.
- Twi.Controller.Transfer: bit rates, a bus that is busy with another transfer, and a wait for the event that times out; waiting is `Kernel.Kernel.EventWaitNext`.
- I2cVector.Vector.InsertAt: what follows when the code has written out of bounds (`fault`).
- I2cVector.Vector.ShiftRight: likewise.
- I2cVector.Vector.Cleanup: when the code has read through NULL (`fault`), nothing changes here.
- `i2c_vector_reshape`, whose condition needs an overflow to hold, and the vector's error recovery. Operations other than adding and inserting require the vector to exist.
- Sizes of messages and vectors are unbounded, except for the index that starts at the largest `size_t`.
