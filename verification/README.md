# Verified models of a teaching kernel's core

This project models, in Dafny, the parts of a Pintos-based course repository that carry real algorithmic
weight, and proves what they promise for every input, every interleaving or every run:

- the intrusive doubly linked list with its natural merge sort (`Ordering`, `IntrusiveList`, `ListSort`, `ListUnique`);
- 64-bit division built from a 64/32-bit divide instruction (`Division`);
- the scheduler, semaphores, locks and priority donation (`Kernel*`);
- the block allocator (`Malloc`);
- the buffer cache (`BufferCache`, over `Simulation`);
- two-level page tables (`PageDir`);
- bottom-up merge sort on linked lists (`BottomUpSort`, `UtList`);
- heap sort and binary search (`HeapSort`);
- integer formatting, `vsnprintf` and `atoi` (`Stdio`, `Atoi`);
- ustar archive headers (`Ustar`);
- `strtok_r` and the first stack frame of a user process (`StackImage`).

`dafny verify dfyconfig.toml` checks everything.

## How the models are built

**Lists and sorting.** List elements are objects with `prev` and `next`; every routine carries the ghost
sequence of elements it works on, states what happens to that sequence, and that the links still agree with
it. What a sort must produce is defined once on sequences: sorted, and a stable rearrangement (the same
elements, equal ones in their old order). `Ordering.StableSortUnique` shows that this leaves no freedom, so
both merge sorts compute the same list (`BottomUpSort.SortsAgree`). Nothing is assumed about a comparison
callback except that it is a strict weak order on the elements at hand.

**The kernel.** A state holds all threads, all semaphores (a lock is a semaphore with a holder and a
donation), the ready list, the sleep list, the running thread and the clock. Code that runs with interrupts
off is one atomic step; a routine is cut where `schedule` may hand the CPU to another thread, so the rest of
a `sema_down` loop or of `lock_release` is a separate step of its own (`Retry`, `FinishRelease`). It is also
cut where it turns interrupts on again before its final `thread_yield` (`Yielding`), so interrupts can come in
between. `cur == None` stands for the idle thread, whose own call of `schedule` is the step `Idle`. A run is
any sequence of such steps from a booted kernel, with any number of threads, locks and semaphores.

What the steps add up to is stated without their own definitions: `KernelLaws` counts ups and completed downs along
a run against the value, and acquires against releases; `KernelExact` accounts for every change of a priority or
a donation.

**The kernel on linked lists.** `KernelMachine.Kernel` is the same kernel with its data structures: the ready
list, the sleep list, the wait list of every semaphore and the lock list of every thread are the verified
`Lists.List`, linked through one element inside each thread and each lock (`KernelQueues.Queues`). Its methods
update fields and links in place: `list_max` and `list_remove` where the code schedules or wakes,
`list_insert_ordered` where it sleeps. `Now()` is the abstract state a linked kernel stands for. `Step` shows
that the linked kernel can carry out every step of the abstract one and ends in the state it stands for, and
`Run` that from boot it goes through every run; so what is proved about runs holds of the linked kernel.

**Runs of the cache.** A cache state is a value (`Snapshot`) and a request is a step on it. `Simulation` says in
general when a machine that runs step by step stays equal, through a view, to a simpler one; the cache is
compared with a flat array of sectors in this way, over every sequence of requests.

**Memory, devices.** The page allocator appears as the pages it grants (a parameter: none, or a run of
unused pages), the disk as a sequence of sectors, the hash table as a map, the bitmap as a sequence of
Booleans. Words are naturals with their width written out; bit fields are quotients and remainders. What a page
directory maps is what the processor grants in user mode: present and user entries at both levels, writable if
both are.

**Formats.** Printed numbers and archive headers are also described position by position, with the characters and
offsets written out, so that a routine and its inverse cannot agree on a wrong format.

## Where the code does less than its comments say

Each of these is stated exactly, for all inputs:

- Donation does not always keep a lock's holder as urgent as its waiters. `sema_up` inside `lock_release`
  yields before `flush_lock_priority`, and a woken thread that finds the lock taken again goes back to sleep
  without donating. `KernelInversion.InversionHappens` is a complete run that ends with a thread blocked by
  a less urgent one, although nobody changes a priority while holding a lock; `KernelUrgency.StepUrgent` says
  exactly which steps keep the bound, `RetryUrgent` and `SetPriorityUrgent` what they depend on, and
  `RunUrgent` that runs made of those steps never invert. For callers,
  `KernelDiscipline.NoInversionUnderDiscipline` gives a rule: no thread ever holds two locks, none changes its
  priority while it holds one, and no priority is set below `PRI_MIN`.
- `umod64` and `smod64` return 32-bit types: they are exact for every dividend if and only if the divisor is at
  most 2^32, respectively its magnitude at most 2^31. `SDiv64` is exact except for the smallest number divided
  by -1.
- `malloc` adds the header size in 32-bit arithmetic: a block is as large as requested if and only if that
  sum does not wrap.
- A cache write that misses starts from the victim slot's memory and not from the disk: it equals a plain
  write if and only if those agree outside the bytes written. The cache equals a flat array throughout a run
  if and only if every write of the run lands in this sense; the first that does not makes the difference
  (`RunExact`, `FirstMissDiffers`), and `LoseBytes` shows one. The clock hand moves at most one slot, so it
  stops at an unreferenced slot if and only if all were referenced or one of two slots was not.
- A precision is a number of digits, but `format_integer` counts the separators too and stops at its 64-byte
  buffer: it is honoured if and only if the number has that many digits anyway, or it is at most 63 and no
  separator was put in, or the zero of `#o` is the one digit missing. A field width is honoured if and only if
  the minus and zero flags are not both set (a negative `*` width together with the 0 flag sets both) or there
  is nothing to pad.
- Reading back a printed number fails exactly when grouping put a comma into it.
- `pagedir_destroy` frees a frame as often as it is mapped: nothing is freed twice if and only if no frame is
  shared.

## Model

| member | source | states |
|---|---|---|
| IntrusiveList.Insert | personal/hw1/list.c:175-185 | the chain gains exactly `elem` just before `before`, and stays linked both ways |
| IntrusiveList.Remove | personal/hw1/list.c:255-262 | the chain loses exactly `elem`, stays linked, and the follower is returned |
| IntrusiveList.Splice | personal/hw1/list.c:190-211 | a stretch moves in front of `before`, within one list or between two, and both chains stay linked |
| IntrusiveList.IsSorted | personal/hw1/list.c:346-357 | true exactly when no element of the range is less than its predecessor |
| IntrusiveList.FindEndOfRun | personal/hw1/list.c:359-379 | the end of the maximal nondecreasing run |
| IntrusiveList.InplaceMerge | personal/hw1/list.c:381-406 | the two runs become their stable merge, everything outside is untouched, the list stays linked |
| Ordering.RunLengthSpec | personal/hw1/list.c:359-379 | a length is the run length if and only if the prefix is a run that the next element does not extend |
| Ordering.MergeSorted | personal/hw1/list.c:381-406 | merging sorted runs gives a sorted sequence |
| Ordering.MergeStable | personal/hw1/list.c:381-406 | merging keeps equal elements in order, those of the first run first |
| Ordering.MergeElements | personal/hw1/list.c:381-406 | merging loses and adds nothing |
| Lists.SortPass | personal/hw1/list.c:427-442 | one pass over the linked list yields the pass on sequences and reports its run count |
| Ordering.PassFacts | personal/hw1/list.c:419-444 | a pass is a stable rearrangement, reports half the maximal runs rounded up, and leaves at most that many |
| Ordering.NaturalSortCorrect | personal/hw1/list.c:408-447 | the passes end in a sorted stable rearrangement |
| Ordering.PassesLogarithmic | personal/hw1/list.c:408-447 | r maximal runs take at most max(1, ceil(log2 r)) passes |
| Ordering.CeilLog2Spec | personal/hw1/list.c:408-410 | the bound's logarithm is the ceiling of the base-2 logarithm |
| Ordering.StableSortUnique | personal/hw1/list.c:408-447 | sorted and stable determine the result |
| Lists.List.Sort | personal/hw1/list.c:408-447 | for every list and strict weak order: well-formed list, same elements, sorted, stable, within the pass bound |
| Ordering.InsertOrderedCorrect | personal/hw1/list.c:449-466 | ordered insertion keeps the order, adds exactly the element and puts it last among its equals |
| Lists.List.InsertElemOrdered | personal/hw1/list.c:449-466 | the linked list becomes the ordered insertion |
| Ordering.MaxIndexCorrect | personal/hw1/list.c:495-512 | the scan ends on a greatest element, the first of them |
| Lists.List.Max | personal/hw1/list.c:495-512 | returns that element, or the tail of an empty list |
| Lists.List.PushBack | personal/hw1/list.c:221-227 | the list gains exactly the element, at its end |
| Lists.Unlink | personal/hw1/list.c:255-262 | the list loses exactly the element, whose place need not be searched for |
| ListUnique.KeptAndDropped | personal/hw1/list.c:468-493 | every element is kept or moved to the duplicates |
| ListUnique.NoEqualNeighbours | personal/hw1/list.c:468-493 | no two neighbours that stay are equal, and the first element stays |
| ListUnique.DroppedHasTwin | personal/hw1/list.c:468-493 | everything moved equals something that stays |
| ListUnique.SortedBecomesStrict | personal/hw1/list.c:468-493 | a sorted list becomes strictly increasing |
| ListUnique.Unique | personal/hw1/list.c:472-493 | both linked lists become exactly that, duplicates in order at the end of the second list if there is one |
| Lists.List.Reverse | personal/hw1/list.c:331-344 | swapping links in place leaves a linked list in reverse order |
| Division.Divl | group/pintos/src/lib/arithmetic.c:21-37 | the instruction's contract: the quotient, on operands for which it does not trap |
| Division.Nlz | group/pintos/src/lib/arithmetic.c:39-73 | shifting by the result brings the top bit to position 31 |
| Division.EstimateOffByOne | group/pintos/src/lib/arithmetic.c:113-126 | the estimate does not trap and is the quotient or one more |
| Division.EstimateCanBeOneMore | group/pintos/src/lib/arithmetic.c:123-124 | the correction is needed |
| Division.UDiv64 | group/pintos/src/lib/arithmetic.c:75-127 | floor(n / d) for all 64-bit n and nonzero d |
| Division.UMod64 | group/pintos/src/lib/arithmetic.c:129-135 | n mod d modulo 2^32, exact if and only if the remainder fits 32 bits |
| Division.UModCanBeWrong | group/pintos/src/lib/arithmetic.c:131-135 | an input on which the 32-bit result is not the remainder |
| Division.UModExactFor | group/pintos/src/lib/arithmetic.c:131-135 | the remainder is exact for every dividend if and only if the divisor is at most 2^32 |
| Division.TruncDivSpec | group/pintos/src/lib/arithmetic.c:137-146 | truncation: the remainder is smaller than the divisor and has the dividend's sign |
| Division.SDiv64 | group/pintos/src/lib/arithmetic.c:137-146 | the truncated quotient, except for the smallest number divided by -1 |
| Division.SMod64 | group/pintos/src/lib/arithmetic.c:148-154 | the truncated remainder modulo 2^32, exact if and only if it fits |
| Division.SModExactFor | group/pintos/src/lib/arithmetic.c:150-154 | the remainder is exact for every dividend if and only if the divisor's magnitude is at most 2^31 |
| KernelDonation.FlushFrame | group/pintos/src/threads/thread.c:735-747 | on every wait-for graph, cyclic ones included, the recursion ends and changes nothing but priorities and lock donations |
| KernelDonation.FlushRestoresBounds | group/pintos/src/threads/thread.c:722-747 | if only the calling thread may exceed its awaited lock, then afterwards no thread does: waiter <= lock <= holder, and priority >= own priority |
| KernelShape.OnOneList | group/pintos/src/threads/thread.c:246-276 | a thread is on at most one list, and blocked exactly when it is on the sleep list or a wait list |
| KernelSync.ParkSync | group/pintos/src/threads/synch.c:75-79 | going to sleep keeps conservation and loses no wakeup |
| KernelSync.TakeSync | group/pintos/src/threads/synch.c:80-81 | a completed down takes one off the value and loses no wakeup |
| KernelSync.WakeSync | group/pintos/src/threads/synch.c:114-135 | an up adds one to the value and loses no wakeup |
| KernelSync.MutualExclusion | group/pintos/src/threads/synch.c:207-291 | a lock has at most one holder, and its value is 0 while it has one |
| KernelRuns.AcquireInv | group/pintos/src/threads/synch.c:207-233 | lock_acquire keeps the whole kernel invariant |
| KernelRuns.RetryInv | group/pintos/src/threads/synch.c:75-82 | so does the retry of a woken thread |
| KernelRuns.ReleaseInv | group/pintos/src/threads/synch.c:268-283 | so does lock_release up to its inner yield |
| KernelRuns.FinishInv | group/pintos/src/threads/synch.c:284-286 | so does the rest of lock_release, up to its final yield |
| KernelRuns.FinalYieldInv | group/pintos/src/threads/synch.c:288-290 | so does that yield, which interrupts can precede |
| KernelRuns.UpInv | group/pintos/src/threads/synch.c:114-135 | so does sema_up, which adds one to the value |
| KernelRuns.SpawnInv | group/pintos/src/threads/thread.c:184-238 | so does thread_create |
| KernelRuns.ThreadSleepInv | group/pintos/src/threads/thread.c:697-705 | so does thread_sleep: the sleep list stays sorted |
| KernelRuns.TickInv | group/pintos/src/devices/timer.c:167-174 | so does the timer interrupt |
| KernelRuns.StepInv | group/pintos/src/threads/synch.c:66-291 | every step, the idle thread's and the interrupts' included, keeps it: list membership, conservation, no lost wakeup, one owner per lock, sorted sleepers |
| KernelRuns.RunInv | group/pintos/src/threads/synch.c:66-291 | it holds in every state of every run |
| KernelLaws.StepEffect | group/pintos/src/threads/synch.c:66-291 | what every step does to every semaphore: the value up by one, down by one or unchanged; the holder; and the wait list, which loses its first most urgent thread to an up and gains a blocked thread at its end |
| KernelLaws.CompletesExactly | group/pintos/src/threads/synch.c:66-109 | a down comes to its end, or a try reports success, exactly when it has taken the semaphore |
| KernelLaws.ValueCounts | group/pintos/src/threads/synch.c:66-135 | in every state of every run the value is the initial one plus the ups minus the completed downs, counted on the steps and states |
| KernelLaws.StepHolder | group/pintos/src/threads/synch.c:207-291 | a completed acquire or successful try makes the caller the holder of a lock nobody held, with value 0 and the lock on its list; only the holder's release takes it away |
| KernelLaws.HeldUntilReleased | group/pintos/src/threads/synch.c:207-291 | along every run a lock stays with its thread until that thread releases it |
| KernelLaws.ReleasedBetween | group/pintos/src/threads/synch.c:207-291 | between two successful acquires or tries of a lock, in any run, its first holder has released it |
| KernelLaws.WaitersFifo | group/pintos/src/threads/synch.c:75-127 | over every run, a thread that blocks behind a waiter stays behind it while that one waits and is no less urgent |
| KernelLaws.ClockCounts | group/pintos/src/devices/timer.c:167-174 | the clock counts the timer interrupts of the run |
| KernelUrgency.ChainUrgency | group/pintos/src/threads/thread.c:735-747 | where the bounds hold, every holder down a chain is at least as urgent as the waiter at its start |
| KernelExact.FlushExact | group/pintos/src/threads/thread.c:722-747 | on every wait-for graph: a thread none of whose locks changed keeps its priority, any other gets the greatest donation among its locks if that is above its own priority; a donation only rises, and to the priority of a waiting thread |
| KernelExact.StepAccounts | group/pintos/src/threads/synch.c:207-291 | every step accounts for every priority, own priority, donation and new thread: what may change, and to exactly what |
| KernelExact.RunOwnPriority | group/pintos/src/threads/thread.c:722-732 | in every run a thread without locks is at its own priority |
| KernelUrgency.AcquireUrgent | group/pintos/src/threads/synch.c:207-233 | lock_acquire keeps the bounds for every blocked thread |
| KernelUrgency.ReleaseUrgent | group/pintos/src/threads/synch.c:268-283 | lock_release keeps them up to its inner yield |
| KernelUrgency.FinishUrgent | group/pintos/src/threads/synch.c:284-286 | and so does flush_lock_priority |
| KernelUrgency.RetryUrgent | group/pintos/src/threads/synch.c:75-82 | a retry keeps them if and only if it succeeds or the thread is not above the lock's donation |
| KernelUrgency.SetPriorityUrgent | group/pintos/src/threads/thread.c:372-386 | thread_set_priority keeps them if and only if the new priority is in range and, with locks held, below the greatest donation or not above the current priority |
| KernelUrgency.StepUrgent | group/pintos/src/threads/synch.c:66-291 | a step keeps them if and only if it is none of the two harmful kinds |
| KernelUrgency.RunUrgent | group/pintos/src/threads/synch.c:66-291 | runs of harmless steps never have an inversion |
| KernelInversion.InversionHappens | group/pintos/src/threads/synch.c:268-291 | a run from boot, with two locks and no change of priority while one is held, after which a thread is blocked by a less urgent holder |
| KernelDiscipline.FlushRaises | group/pintos/src/threads/thread.c:735-747 | where nobody holds two locks, donation changes only holders, raises all it changes to at least the donor, and leaves every changed waiter at or below its lock |
| KernelDiscipline.GrabCalm | group/pintos/src/threads/synch.c:224-230 | a thread that takes a free lock has an own priority that covers all its waiters, woken or not |
| KernelDiscipline.RecomputeCalm | group/pintos/src/threads/synch.c:405-414 | however late flush_lock_priority runs, the threads it does not see are covered by the new holder's own priority |
| KernelDiscipline.StepCalm | group/pintos/src/threads/synch.c:66-291 | every step that keeps to the rule keeps every waiter covered by donation, holder or a woken thread |
| KernelDiscipline.NoInversionUnderDiscipline | group/pintos/src/threads/synch.c:207-291 | in every run in which no thread ever holds two locks, none changes its priority while it holds one and none sets it below PRI_MIN, no thread is ever blocked by a less urgent one |
| KernelTiming.AlarmRouses | group/pintos/src/threads/thread.c:707-718 | the alarm wakes exactly the due front of the sleep list, in order |
| KernelTiming.NoneOverslept | group/pintos/src/devices/timer.c:167-174 | after a timer interrupt no due sleeper remains |
| KernelTiming.NeverWokenEarly | group/pintos/src/threads/thread.c:697-718 | over whole runs a sleeper stays asleep until its wakeup time |
| KernelFairness.SleepersFifo | group/pintos/src/threads/thread.c:697-705 | over every run, a thread that goes to sleep behind one with no later a wakeup time stays behind it while that one sleeps |
| KernelFairness.WokenInOrder | group/pintos/src/threads/thread.c:707-718 | the interrupt that wakes the later one wakes the earlier one too and makes it ready first |
| KernelFairness.StepQueues | group/pintos/src/threads/thread.c:559-570 | every step only appends to the ready list and then, exactly if it calls schedule, lets it choose |
| KernelFairness.StepAhead | group/pintos/src/threads/thread.c:625-639 | a step chooses a foremost ready thread, or leaves the number of equals ahead of it, or, if it calls schedule, takes one off that number |
| KernelFairness.StepChooses | group/pintos/src/threads/thread.c:559-570 | a step that calls schedule ends with a most urgent thread on the CPU, or with none ready |
| KernelFairness.MustYield | group/pintos/src/threads/synch.c:130-134 | after sema_up, thread_set_priority, thread_create and lock_release the thread can do nothing before it has called schedule |
| KernelFairness.BoundedWaiting | group/pintos/src/threads/thread.c:559-570 | over every run, a ready thread with k equals ahead of it, no thread of greater priority being ready or running and priorities standing still, is on the CPU within k + 1 calls of schedule |
| KernelQueues.MaxThrough | group/pintos/src/threads/thread.c:688-693 | comparing elements through the threads around them finds the thread that comparing threads finds |
| KernelQueues.OrderedThrough | group/pintos/src/threads/thread.c:665-671 | and inserts at the same place |
| KernelQueues.Queues.Append | group/pintos/src/threads/thread.c:273 | list_push_back of an item's element: exactly that list gains the item, all lists stay linked and apart |
| KernelQueues.Queues.InsertSorted | group/pintos/src/threads/thread.c:702 | list_insert_ordered, likewise |
| KernelQueues.Queues.Remove | group/pintos/src/threads/synch.c:280 | list_remove takes the item off the one list it is on, without being told which |
| KernelQueues.Queues.Max | group/pintos/src/threads/thread.c:565-566 | list_max and list_entry give the first greatest item |
| KernelMachine.Kernel.FlushPriority | group/pintos/src/threads/thread.c:735-747 | the in-place recursion, with list_max on the holders' lock lists, terminates and computes the donation |
| KernelMachine.Kernel.AdjustPriority | group/pintos/src/threads/thread.c:722-732 | list_max on a thread's linked lock list, compared through the elements, finds the greatest donation among the locks it holds |
| KernelMachine.Kernel.TakeUrgent | group/pintos/src/threads/synch.c:123-125 | list_max and list_remove on a linked list take the first most urgent thread and nothing else |
| KernelMachine.Kernel.Schedule | group/pintos/src/threads/thread.c:559-570 | on the linked ready list this dispatches the abstract scheduler's choice and leaves every list linked and apart |
| KernelMachine.Kernel.WakeOne | group/pintos/src/threads/synch.c:122-127 | that thread moves from the linked wait list to the linked ready list |
| KernelMachine.Kernel.Acquire | group/pintos/src/threads/synch.c:207-233 | on linked lists: donation, the down and the lock list carry out the acquire step |
| KernelMachine.Kernel.TryAcquire | group/pintos/src/threads/synch.c:241-261 | succeeds exactly when the value is positive; then the caller holds the lock, its value is 0 and it is on the caller's list; otherwise nothing changes |
| KernelMachine.Kernel.TryDown | group/pintos/src/threads/synch.c:90-109 | the value falls by one exactly if it was positive, which is what is returned; otherwise nothing changes |
| KernelMachine.Kernel.Release | group/pintos/src/threads/synch.c:268-283 | the lock leaves its linked lock list, the first most urgent waiter its wait list: the release step |
| KernelMachine.Kernel.Sleep | group/pintos/src/threads/thread.c:697-705 | list_insert_ordered through the elements puts the thread where the abstract sleep list has it |
| KernelMachine.Kernel.ThreadAlarm | group/pintos/src/threads/thread.c:707-718 | the loop pops due threads off the linked sleep list and computes the alarm |
| KernelMachine.Kernel.TimerTick | group/pintos/src/devices/timer.c:167-174 | refines the timer step |
| KernelMachine.Kernel.Step | group/pintos/src/threads/synch.c:66-291 | the linked kernel carries out every enabled step of the abstract one, keeps all lists linked and apart, and keeps the invariant of all runs |
| KernelMachine.Kernel.constructor | group/pintos/src/threads/thread.c:100-114 | a booted kernel: one running thread, its element and the empty lists |
| KernelMachine.Kernel.Run | group/pintos/src/threads/synch.c:66-291 | from boot the linked kernel goes through every run of the abstract one |
| Malloc.MallocInit | group/pintos/src/threads/malloc.c:70-85 | the descriptors are exactly the power-of-two classes below half a page, with as many blocks as fit behind the header |
| Malloc.BlockBounds | group/pintos/src/threads/malloc.c:284-294 | a block lies behind its arena's header, inside its page, and leads back to it |
| Malloc.LiveInside | group/pintos/src/threads/malloc.c:266-294 | every live block lies inside its own arena |
| Malloc.LiveApart | group/pintos/src/threads/malloc.c:87-154 | live blocks never overlap |
| Malloc.HeadersSafe | group/pintos/src/threads/malloc.c:49-55 | no live block overlaps any arena header |
| Malloc.FreeIsNotLive | group/pintos/src/threads/malloc.c:63-65 | a class's free list is exactly the non-live blocks of its arenas |
| Malloc.FreeApart | group/pintos/src/threads/malloc.c:63-65 | a free block, with the list element inside it, overlaps no live block |
| Malloc.PopBlock | group/pintos/src/threads/malloc.c:148-153 | taking the front block keeps the books: lists, counters, arenas |
| Malloc.PushBlock | group/pintos/src/threads/malloc.c:236-242 | putting a block back keeps them |
| Malloc.AddArena | group/pintos/src/threads/malloc.c:124-146 | a new arena's blocks are all free and counted |
| Malloc.DropArena | group/pintos/src/threads/malloc.c:241-253 | a wholly free arena has no live block, and dropping it keeps the books |
| Malloc.BigPagesEnough | group/pintos/src/threads/malloc.c:107-112 | the pages hold the request if and only if adding the header does not wrap, and one page less would not |
| Malloc.BigPagesNone | group/pintos/src/threads/malloc.c:107-112 | no pages are asked for exactly if the sum wraps to zero or its rounding does |
| Malloc.WrappedRequest | group/pintos/src/threads/malloc.c:107-112 | a request that wraps and gets one page |
| Malloc.Heap.Malloc | group/pintos/src/threads/malloc.c:87-154 | a new block outside all live ones, or null in exactly these cases; the smallest class or number of pages, large enough if and only if nothing wraps; live blocks and their bytes untouched |
| Malloc.Heap.Free | group/pintos/src/threads/malloc.c:216-264 | ends the life of exactly that block; a page goes back if and only if no live block is left in it |
| Malloc.Heap.Realloc | group/pintos/src/threads/malloc.c:188-214 | zero size frees, null allocates, else the contents move as far as both blocks reach; fails exactly when malloc would, and then changes nothing |
| BufferCache.SlotPut | group/pintos/src/filesys/cache.c:201-203 | writing into one slot of the byte buffer changes that slot only |
| BufferCache.EvictView | group/pintos/src/filesys/cache.c:206-227 | eviction writes back, keeps index and slots inverse, and changes nothing a caller sees |
| BufferCache.FillView | group/pintos/src/filesys/cache.c:242-259 | filling a free slot changes the view of that sector only |
| BufferCache.HandFindsUnreferenced | group/pintos/src/filesys/cache.c:168-183 | the victim is unreferenced if and only if all were referenced or one of two slots was not |
| BufferCache.HandRule | group/pintos/src/filesys/cache.c:168-183 | when all slots are referenced the bits are cleared and the hand goes to slot 0; else it moves one slot exactly if its slot is referenced |
| BufferCache.AccessReplaces | group/pintos/src/filesys/cache.c:91-147 | a hit changes nothing in the cache but a reference bit; a miss puts the sector into the hand's slot, and only the sector there goes |
| BufferCache.ReferencedVictim | group/pintos/src/filesys/cache.c:168-183 | a state in which a referenced slot is chosen although another is not referenced |
| BufferCache.PutAgree | group/pintos/src/filesys/cache.c:274-288 | two sectors become equal under a write if and only if they agree outside it |
| BufferCache.ReadExact | group/pintos/src/filesys/cache.c:91-120 | a read, hit or miss, leaves the flat array as it was |
| BufferCache.WriteExact | group/pintos/src/filesys/cache.c:123-147 | a write is the flat array's if and only if it lands: a hit, or a miss whose background agrees outside the bytes written |
| BufferCache.StepExact | group/pintos/src/filesys/cache.c:91-288 | any request: the answer is the flat array's, the new view is if and only if a write lands, and after a flush the disk is the flat array |
| BufferCache.RunExact | group/pintos/src/filesys/cache.c:91-288 | over every sequence of requests: the cache equals the flat array after each of them if and only if every write lands in the state it meets |
| BufferCache.FirstMissDiffers | group/pintos/src/filesys/cache.c:274-288 | up to the first write that does not land they are equal, and after it they are not |
| BufferCache.AnswersFlat | group/pintos/src/filesys/cache.c:91-120 | while every write lands, every answer is the flat array's |
| BufferCache.LoseBytes | group/pintos/src/filesys/cache.c:274-288 | a cache, filled by reads, on which a partial write loses bytes |
| BufferCache.Cache.UpdateClock | group/pintos/src/filesys/cache.c:168-183 | where the hand goes and what happens to the bits |
| BufferCache.Cache.Evict | group/pintos/src/filesys/cache.c:206-227 | the slot is free, the flat array unchanged |
| BufferCache.Cache.Read | group/pintos/src/filesys/cache.c:91-120 | hit or miss, the bytes of the flat array, which is unchanged |
| BufferCache.Cache.Write | group/pintos/src/filesys/cache.c:123-147 | the flat array's write if and only if a hit, or the background agrees outside the bytes written; other sectors never change |
| BufferCache.Cache.Flush | group/pintos/src/filesys/cache.c:150-166 | afterwards the disk is the flat array |
| BufferCache.Cache.Serve | group/pintos/src/filesys/cache.c:91-288 | the routines, called for any sequence of requests, go through the run's states and give its answers |
| PageDir.AddressParts | group/pintos/src/threads/pte.h:12-39 | directory index, table index and offset determine the address; user addresses are the first 768 entries |
| PageDir.PteFields | group/pintos/src/threads/pte.h:83-104 | an entry gives back frame and rights |
| PageDir.PdeFields | group/pintos/src/threads/pte.h:69-75 | a directory entry gives back its table and grants the user all rights |
| PageDir.ClearedFields | group/pintos/src/userprog/pagedir.c:139-157 | clearing the present bit keeps the other fields |
| PageDir.WalkIs | group/pintos/src/threads/pte.h:41-104 | what the processor grants in user mode, at both levels, is what the present table entries say |
| PageDir.AddTable | group/pintos/src/userprog/pagedir.c:66-81 | a new empty table changes no mapping |
| PageDir.WriteView | group/pintos/src/userprog/pagedir.c:109-118 | writing one entry adds or removes exactly one mapping |
| PageDir.Directory.LookupPage | group/pintos/src/userprog/pagedir.c:50-86 | finds or creates the table, open to the user, without changing a mapping; fails exactly when there is none and no page |
| PageDir.Directory.SetPage | group/pintos/src/userprog/pagedir.c:88-119 | the user can reach exactly one page more, with the rights asked for; kernel entries unchanged; false exactly when a table was needed and not granted |
| PageDir.Directory.GetPage | group/pintos/src/userprog/pagedir.c:121-137 | frame plus offset for every mapped user address, else null |
| PageDir.Directory.ClearPage | group/pintos/src/userprog/pagedir.c:139-157 | the map loses exactly that page |
| PageDir.Directory.Destroy | group/pintos/src/userprog/pagedir.c:25-48 | how often each page is handed back |
| PageDir.FreedExactly | group/pintos/src/userprog/pagedir.c:25-48 | freed are exactly the mapped frames, the user tables and the directory, never a kernel table |
| PageDir.FreedOnce | group/pintos/src/userprog/pagedir.c:25-48 | nothing is freed twice if and only if no frame is shared |
| PageDir.SharedFrameFreedTwice | group/pintos/src/userprog/pagedir.c:25-48 | a directory whose destruction frees a frame twice |
| BottomUpSort.PairsSorted | personal/hw4/utlist.h:223-275 | after the pass at run size k every aligned block of 2k is sorted |
| BottomUpSort.PairsStable | personal/hw4/utlist.h:223-275 | a pass keeps equal elements in order |
| BottomUpSort.BottomUpCorrect | personal/hw4/utlist.h:208-286 | doubling passes end in a sorted stable rearrangement |
| BottomUpSort.SortsAgree | personal/hw4/utlist.h:208-286 | the result equals that of the natural merge sort |
| UtList.MergeTwo | personal/hw4/utlist.h:235-273 | the inner loop relinks two runs into their stable merge |
| UtList.Pass | personal/hw4/utlist.h:219-279 | a pass relinks the list into the pass on sequences: prev mirrors next, head's prev is the tail, the tail's next is null |
| UtList.DlSort | personal/hw4/utlist.h:208-286 | for every list and order: linked both ways, same nodes, sorted, stable |
| HeapSort.FloatDown | group/pintos/src/lib/stdlib.c:101-122 | one turn moves the only violation one level down |
| HeapSort.Heapify | group/pintos/src/lib/stdlib.c:93-123 | restores the heap from i down, moves elements only below i, loses none |
| HeapSort.ExtractMax | group/pintos/src/lib/stdlib.c:146-151 | moving the root behind the heap extends the sorted tail |
| HeapSort.Sort | group/pintos/src/lib/stdlib.c:125-152 | a sorted permutation for every array and total preorder |
| HeapSort.BinarySearch | group/pintos/src/lib/stdlib.c:172-207 | on a sorted array a match exactly when one exists |
| Stdio.FormatInteger | group/pintos/src/lib/stdio.c:462-547 | the rendering, never outside the 64-byte buffer for any 64-bit value, base, flags and precision |
| Stdio.BaseTable | group/pintos/src/lib/stdio.c:128-141 | radix, digit characters in their case, marker and group of the four bases |
| Stdio.RenderingLaidOut | group/pintos/src/lib/stdio.c:469-547 | every rendering, position by position: blanks, the sign the flags ask for, "0x" or "0X", zeros, digits of the base that denote the value, blanks; padding by flag to the width |
| Stdio.BodyExact | group/pintos/src/lib/stdio.c:501-524 | exactly how many zeros stand in front of the number, which has none of its own |
| Stdio.CommaPlaces | group/pintos/src/lib/stdio.c:506-513 | counted from the right, exactly every (group + 1)-th byte is a separator |
| Stdio.BodyDenotesValue | group/pintos/src/lib/stdio.c:501-524 | whatever the flags and precision, the digits written denote the value |
| Stdio.PrecisionHonoured | group/pintos/src/lib/stdio.c:501-524 | as many digits as the precision asks for, if and only if the number has them, or it is at most 63 and no separator was put in, or the zero of `#o` is the one missing; zero at precision zero is empty |
| Stdio.GroupedPrecisionFails | group/pintos/src/lib/stdio.c:501-517 | 12345 with separators and precision 6 has five digits |
| Stdio.FieldWidth | group/pintos/src/lib/stdio.c:526-546 | the field is as wide as asked or needed, if and only if the padding is not written twice |
| Stdio.PaddedTwice | group/pintos/src/lib/stdio.c:526-546 | a negative `*` width with the 0 flag makes the field too wide |
| Stdio.Vsnprintf | group/pintos/src/lib/stdio.c:18-52 | stores the longest prefix that fits, terminated, nothing behind it, and returns the full length |
| Atoi.DenotedExact | group/pintos/src/lib/stdlib.c:7-41 | every text has parts — white space, a sign, digits, a rest — and denotes the number of its digits with its sign |
| Atoi.Atoi | group/pintos/src/lib/stdlib.c:7-41 | the number the text denotes if an int can hold it, and otherwise an overflow on the way |
| Atoi.PrintParse | group/pintos/src/lib/stdio.c:469-547 | reading back a signed decimal conversion gives the value if and only if no comma was put into it |
| Atoi.PrintThenParse | group/pintos/src/lib/stdlib.c:7-41 | the same through both routines, for every int |
| Ustar.StripExact | group/pintos/src/lib/ustar.c:56-73 | exactly the leading "/", "./" and "../" are taken off; what is left is the result, or "." if it is empty or ".." |
| Ustar.PrefixesUnique | group/pintos/src/lib/ustar.c:56-73 | there is only one place where they end |
| Ustar.StripCleans | group/pintos/src/lib/ustar.c:56-73 | harmless names are left alone, all others become one; stripping twice is stripping once |
| Ustar.StripAntisocialPrefixes | group/pintos/src/lib/ustar.c:56-73 | the loop computes the stripped name, which `StripExact` describes |
| Ustar.CalculateChksum | group/pintos/src/lib/ustar.c:35-54 | the sum with the checksum field as spaces |
| Ustar.ChksumChange | group/pintos/src/lib/ustar.c:35-54 | one changed byte changes the sum by the difference |
| Ustar.ChksumIs | group/pintos/src/lib/ustar.c:35-54 | the sum of all 512 bytes with the eight of the field counted as blanks |
| Ustar.ParseOctalField | group/pintos/src/lib/ustar.c:120-162 | the field's number, refused exactly when empty, unterminated, ill-formed or too large |
| Ustar.OctalFieldIs | group/pintos/src/lib/ustar.c:120-162 | a field reads as v exactly if it is octal digits that denote v and then a blank or null byte, and v fits |
| Ustar.MakeHeader | group/pintos/src/lib/ustar.c:75-118 | fails exactly for names over 99 bytes after stripping; else the header laid out field by field |
| Ustar.HeaderLayout | group/pintos/src/lib/ustar.c:10-34 | every field of a made header at its offset, with its characters: name, mode, owner, size, time, checksum, type, magic, version, owner names |
| Ustar.ParseHeader | group/pintos/src/lib/ustar.c:175-227 | the loops compute the parse |
| Ustar.ParseExact | group/pintos/src/lib/ustar.c:175-227 | which headers are accepted, byte by byte, and as what; the end of the archive is a block of zeros |
| Ustar.RoundTrip | group/pintos/src/lib/ustar.c:75-227 | a made header parses back to stripped name, type and size; directories have size 0, negative sizes are refused |
| Ustar.TamperingDetected | group/pintos/src/lib/ustar.c:182-221 | no accepted header stays acceptable when one byte outside the checksum field changes |
| StackImage.Strtok | group/pintos/src/lib/string.c:201-275 | the next maximal delimiter-free token, terminated in place, and where to go on |
| StackImage.StartsSpec | group/pintos/src/lib/string.c:209-211 | the collected positions are exactly the token starts, in order |
| StackImage.Tokenize | group/pintos/src/userprog/process.c:104-111 | exactly the tokens of the command line, each terminated |
| StackImage.FrameProper | group/pintos/src/userprog/process.c:129-142 | the bytes pushed read back as a proper frame |
| StackImage.StartProcess | group/pintos/src/userprog/process.c:98-142 | argc, argv[i] pointing to a terminated copy of token i, argv[argc] null, esp + 4 a multiple of 16 |

## Left out

- Assembly, context switch, interrupt controller, device drivers, GDT and TSS: effects outside the languages modelled; interrupts-off code is atomic here.
- Condition variables, `thread_exit`, `switch_yield`, the advanced scheduler stubs and the tid lock: not part of the kernel steps.
- In the linked kernel, thread and semaphore fields are records held in sequences, and `list_entry` is a map from elements to numbers; `all_list` and the semaphores' counts of ups and downs are not program state.
- Loops that span context switches (`sema_down`) are runs of several steps; each kernel method carries out one.
- Donation as an exact maximum: the code does not lower a stale donation while another lock is held, so bounds are proved and not equality.
- `list_min`, the one-line list accessors and the list assertions: easy members of the same kind.
- `calloc`, arena magic numbers and the per-descriptor locks of the allocator; words the allocator itself writes into headers and free blocks are not part of `mem`.
- Concurrent cache calls, the sector locks and several block devices; `buffer_cache_destroy`; entries shared by hash and slot table are represented by slot numbers.
- The dirty and accessed bits of page table entries, the TLB, and lookups of kernel addresses.
- Bit operators on words: fields are selected by division and remainder.
- Parsing of printf format strings, `%s`, `%c` and `%p`: conversions are given as records of flags, width and precision; 32-bit overflow of `vsnprintf`'s length counter.
- HeapSort.Sort: elements are swapped whole; the byte loop of `do_swap` is not modelled.
- UtList.DlSort: the run size is unbounded, so 32-bit overflow beyond 2^30 nodes is not modelled; `LL_SORT2` is the same code without `prev`.
- StackImage.StartProcess: needs fewer than 128 tokens and a frame that fits one page, which the code does not check; loading the executable is left out.
- The inode layer, directories, path parsing, the homework servers and two-phase commit: not part of this model.
