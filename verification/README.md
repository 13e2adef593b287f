# Verified models of the Pintos kernel and the assignment programs

The repository holds the Pintos teaching kernel and a set of systems programs written around it.
This project models their stateful and arithmetic core in Dafny and proves what that code is for:

- 64-bit division out of the 32-bit `divl` instruction (`arithmetic.dfy`);
- five page-replacement policies over one queue (`page_policies.dfy`, `pager.dfy`);
- the callbacks of a CPU scheduler (`scheduler.dfy`, `scheduler_queues.dfy`, `scheduler_callbacks.dfy`);
- a two-lock reservation protocol on a ring of railway junctions (`junctions.dfy`);
- kernel threads, semaphores and the sleep list (`kernel.dfy`, `kernel_queues.dfy`, `kernel_objects.dfy`);
- `timer_sleep` with the interrupts it leaves on while it walks the list, step by step (`runs.dfy`,
  `timer_window.dfy`);
- locks and condition variables, and the kernel's threads running their code (`locks.dfy`,
  `lock_objects.dfy`, `lock_threads.dfy`);
- the block allocator over the page allocator (`allocator.dfy`, `allocator_objects.dfy`);
- heap sort and binary search (`stdlib.dfy`);
- ustar archive headers and the octal numbers in them (`ustar.dfy`), the format of the pax utility's
  section "ustar Interchange Format" in the Single UNIX Specification, version 3;
- a merge sort over four threads (`mergesort.dfy`, `mergesort_threads.dfy`).

State that the C code updates in place is a class whose methods follow the C functions. Each method is
tied by its postcondition to a step function on values, or to the property itself; laws over all runs and
all interleavings are lemmas about those step functions. A run is a finite sequence of events, each
enabled where it occurs; nothing bounds its length or the number of threads, pages, carts or blocks.

Where the code differs from its comments, the model follows the code:

- `umod64` and `smod64` compute a 64-bit remainder but return 32-bit types (arithmetic.c:130-154), so
  `__umoddi3` is exact for every dividend only if the divisor is at most 2^32, and `__moddi3` only if its
  magnitude is at most 2^31. `Arithmetic.UmodExactIff` and `Arithmetic.SmodExactIff` prove both bounds,
  each in both directions.
- `sdiv64` wraps on -2^63 / -1.
- `io_complete` dispatches the head of the ready queue without sorting it (scheduler.c:186-193), so under
  the priority algorithms it may pass over a better thread. `Scheduler.IoCompleteIgnoresPriority` says
  exactly when it does not; `Scheduler.IoCompleteInversion` gives a run in which it does.
- The count that the quantum is measured by starts again only when a tick gives the CPU away
  (scheduler.c:111-126). A thread that `sys_exec` or `io_complete` puts on an idle CPU goes on with the old
  count and may lose the CPU at the next tick (`SchedulerQueues.InheritedCount`); one that a tick puts there
  keeps it through the quantum (`SchedulerQueues.FullQuantum`).
- With a single track the two ends of the track are one junction, which is then reserved twice: the
  protocol is safe exactly from two tracks on (`Junctions.SafeIffTwoTracks`).
- `timer_sleep` walks the sleep list and links its thread into it with interrupts on, and disables them
  only to block (timer.c:110-125). That fails in four ways, and in no other as long as a call of list.c is
  not itself interrupted (`TimerWindow.HarmlessIff`, an if and only if). A tick reaches the deadline before
  the thread blocks: `thread_unblock` is called on a thread that is not blocked, or the thread blocks too
  late. The place found is no longer right when the thread links itself there, since a later deadline has
  been linked in front of it: the thread sleeps on past its deadline. The place found is a node that is off
  the list. The walk stands on the node of a thread that exits. `TimerWindow.TickInWindowFailsIff` and
  `TimerWindow.StaleLink` are two such runs, each with the condition under which it fails.
- Least-frequently-used forgets a page's count when the page is evicted (pager.c:189); the counts are
  therefore requests since the page was last loaded.
- malloc.c speaks of blocks up to 2 kB, but its loop stops below 2048 (malloc.c:76): the largest small
  block has 1024 bytes.
- `malloc` adds the arena header to the size in 32 bits (malloc.c:109). For the last sizes below 2^32 the
  sum wraps to at most 11 and a single page is handed out; for those just before them rounding up to pages
  wraps, to none, and null comes back (`Allocator.BigPagesLeast`). A block has room for its request exactly when
  size + 12 is below 2^32 (`Allocator.StepInv` with `RoomOk`); `Allocator.WrappedRequest` is one that has not.
- `ustar_make_header` prints a negative size as an unsigned number, and such a header for a regular file
  is refused as too large when it is read back (`Ustar.RoundTrip`).

## Model

| member | source | states |
|---|---|---|
| Arithmetic.Divl | Lab1/pintos/src/lib/arithmetic.c:25-37 | the instruction's no-trap condition is the precondition every caller has to meet; then the result is the quotient |
| Arithmetic.NlzStep | Lab1/pintos/src/lib/arithmetic.c:50-71 | each test either leaves the word or shifts its clear top bits out, and at least k bits less can then be clear |
| Arithmetic.Nlz | Lab1/pintos/src/lib/arithmetic.c:41-73 | the count is the shift, at most 31, that brings the highest one bit of a nonzero word to bit 31 |
| Arithmetic.ShortDivision | Lab1/pintos/src/lib/arithmetic.c:82-111 | two-step division by a 32-bit divisor is exact, and its partial dividend is below d * 2^32 so `divl` cannot trap |
| Arithmetic.Normalized | Lab1/pintos/src/lib/arithmetic.c:121-123 | the shifted divisor does not overflow, its top half is d >> (32 - s), and that half has its top bit set |
| Arithmetic.TruncationError | Lab1/pintos/src/lib/arithmetic.c:121-123 | dividing by a divisor truncated by less than c overshoots by at most one when quotient bound times c - 1 stays within the truncated divisor |
| Arithmetic.EstimateBound | Lab1/pintos/src/lib/arithmetic.c:121-123 | for every 64-bit n and d >= 2^32 the estimate is the true quotient or one more |
| Arithmetic.Correction | Lab1/pintos/src/lib/arithmetic.c:124 | from either estimate the last comparison gives the true quotient, with no product or difference wrapping |
| Arithmetic.UdivShort | Lab1/pintos/src/lib/arithmetic.c:80-112 | the small-divisor branch returns the quotient and keeps `divl` from trapping |
| Arithmetic.Estimate | Lab1/pintos/src/lib/arithmetic.c:121-123 | the computed estimate is the quotient or one more, and its `divl` does not trap |
| Arithmetic.UdivLong | Lab1/pintos/src/lib/arithmetic.c:119-125 | the large-divisor branch returns the quotient |
| Arithmetic.Udiv64 | Lab1/pintos/src/lib/arithmetic.c:77-127 | every dividend, every nonzero divisor: the exact quotient |
| Arithmetic.Udivdi3 | Lab1/pintos/src/lib/arithmetic.c:178-182 | the compiler's entry point is floor division |
| Arithmetic.QuotIsFloor | Lab1/pintos/src/lib/arithmetic.c:75-76 | the quotient by repeated subtraction is floor(n / d) |
| Arithmetic.Umod64 | Lab1/pintos/src/lib/arithmetic.c:129-135 | the true remainder, cut to 32 bits |
| Arithmetic.UmodExactIff | Lab1/pintos/src/lib/arithmetic.c:129-135 | exact for all dividends if and only if d <= 2^32 |
| Arithmetic.Sdiv64 | Lab1/pintos/src/lib/arithmetic.c:137-146 | truncates toward zero; -2^63 / -1 gives -2^63 |
| Arithmetic.Smod64 | Lab1/pintos/src/lib/arithmetic.c:148-154 | the C remainder, cut to a signed 32-bit word |
| Arithmetic.WrapCongruent | Lab1/pintos/src/lib/arithmetic.c:153 | the wraps of quotient, product and difference on the way all vanish in the 32-bit result |
| Arithmetic.SmodExactIff | Lab1/pintos/src/lib/arithmetic.c:148-154 | exact for all dividends if and only if the divisor's magnitude is at most 2^31 |
| PagePolicies.RecencyIsLastUseOrder | Assignment5/pager.c:63-91 | the recency list of a history has each page used once, ordered by last use |
| PagePolicies.LastUseIsLast | Assignment5/pager.c:142-176 | the last use of a page is one, and nothing later is |
| PagePolicies.LruStepIsWindow | Assignment5/pager.c:142-176 | one LRU request moves the window of the newest k pages of the recency list forward |
| PagePolicies.LruHoldsMostRecent | Assignment5/pager.c:142-176 | after every history the LRU queue is the k most recently used distinct pages in last-use order |
| PagePolicies.LruInclusion | Assignment5/pager.c:142-176 | stack property: with more frames the resident set only grows, after every history |
| PagePolicies.LruFaultsMonotone | Assignment5/pager.c:142-176 | hence more frames never mean more faults |
| PagePolicies.FifoHoldsNewestLoads | Assignment5/pager.c:152-176 | the FIFO queue is the k newest loads |
| PagePolicies.SweepRemovesVictim | Assignment5/pager.c:155-171 | an eviction removes the first unreferenced page, or the old head if all are referenced, and only then; the others stay, once each |
| PagePolicies.ClockStepOk | Assignment5/pager.c:142-176 | one clock request keeps the queue duplicate-free and within k, and leaves the page resident |
| PagePolicies.ClockRunOk | Assignment5/pager.c:142-176 | the same after every history, for second chance and the circular queue |
| PagePolicies.ClockIsPutOrder | Assignment5/pager.c:142-176 | after every history the clock queue has the resident pages in the order in which they were last put in, by their load or by being passed over, and the marked ones are those requested since (the load counts for the circular queue). Loads, passing over and the page that goes, the oldest not requested since it was put in or the oldest of all, are told from the requests alone |
| PagePolicies.PutsExist | Assignment5/pager.c:142-176 | every history has such an account |
| PagePolicies.LfuHit | Assignment5/pager.c:93-119 | a hit adds one use to its page, renews its last use, and leaves every other counter true |
| PagePolicies.LfuEvict | Assignment5/pager.c:186-191 | evicting the head forgets its count and keeps the bookkeeping of the rest |
| PagePolicies.LfuLoad | Assignment5/pager.c:178-195 | a load starts the count at one |
| PagePolicies.LfuReorder | Assignment5/pager.c:196 | any ordered permutation keeps residents and counters |
| PagePolicies.LfuHeadIsUniqueMinimum | Assignment5/pager.c:121-126 | the page evicted next is the unique least used, then least recently used, one |
| Pager.Pager.constructor | Assignment5/pager.c:30-38 | an empty pager meets the invariant over the empty log |
| Pager.Pager.FindElem | Assignment5/pager.c:63-91 | found iff queued; under LRU the page is cut out, else order is kept; only the found page's bit changes |
| Pager.Pager.FindElemFreq | Assignment5/pager.c:93-119 | found iff queued; exactly the found record gains a use and the current step |
| Pager.Pager.EvictMarked | Assignment5/pager.c:155-170 | the rotation loop, over queue and bit array, is the abstract sweep; it ends |
| Pager.Pager.RequestPlain | Assignment5/pager.c:146-176 | a FIFO or LRU request is its policy step and loads exactly on a fault |
| Pager.Pager.RequestClock | Assignment5/pager.c:143-176 | a clock request is its policy step and loads exactly on a fault |
| Pager.Pager.LoadClock | Assignment5/pager.c:153-176 | the fault path evicts only when full and appends the page |
| Pager.Pager.RequestLfu | Assignment5/pager.c:177-198 | all counters agree with the log again; residents change by the page and at most the victim |
| Pager.Pager.Request | Assignment5/pager.c:142-200 | the whole state is again that of the whole history; the page is resident; a load happens iff it was not |
| Pager.Pager.QueueSort | Assignment5/pager.c:196 | an ordered permutation, which is all the queue's interface promises |
| Pager.MoreFramesFewerLoads | Assignment5/pager.c:142-176 | of two LRU pagers that served the same requests, the one with more frames loaded no more pages |
| Pager.ClockPagerInPutOrder | Assignment5/pager.c:142-176 | the pager's own queue and bits under both clock policies are those of that account of its log |
| Scheduler.PotentialStep | Assignment4/scheduler.c:79-133 | p * q + max(0, q - last_on_total) never rises for a waiting thread and falls at each tick, or the thread runs |
| Scheduler.BoundedWaiting | Assignment4/scheduler.c:107-133 | round robin: the thread at ready position p runs within (p + 1) * q + 1 ticks, in every run |
| Scheduler.StepConserves | Assignment4/scheduler.c:62-194 | no callback loses or copies a thread; `sys_exec` adds the new one |
| Scheduler.RunConserves | Assignment4/scheduler.c:62-194 | in every run a thread is in the five places as often as it was executed; an idle device has an empty queue |
| Scheduler.OccPermutation | Assignment4/scheduler.c:62-63 | sorting keeps how often each thread is queued |
| Scheduler.StepOwes | Assignment4/scheduler.c:62-205 | each callback moves a thread's uncharged time by exactly the CPU tick or I/O time it gave it |
| Scheduler.RunOwes | Assignment4/scheduler.c:62-205 | the same over every run |
| Scheduler.TurnaroundLaw | Assignment4/scheduler.c:138-142 | turnaround = waiting + ticks as current + ticks from each start of its I/O to its completion, both counted from the callbacks, for every exited thread in every run, every algorithm |
| Scheduler.IoTimeIsIoTicks | Assignment4/scheduler.c:149-205 | that count of ticks is what the records hold: charged time plus the uncharged part of the I/O under way, in every run |
| Scheduler.NoIoNoIoTicks | Assignment4/scheduler.c:149-194 | without a request for I/O no I/O time accrues |
| Scheduler.TurnaroundWithoutIo | Assignment4/scheduler.c:138-142 | turnaround = waiting + ticks as current for a thread that did no I/O |
| Scheduler.PreemptiveTickRunsBest | Assignment4/scheduler.c:62-75 | after a preemptive-priority tick nothing ready beats the current thread; idle only if nothing is ready |
| Scheduler.NonPreemptiveTickPicksBest | Assignment4/scheduler.c:110-118 | a tick that finds the CPU idle dispatches a best ready thread |
| Scheduler.IoCompleteIgnoresPriority | Assignment4/scheduler.c:182-194 | the thread `io_complete` puts on an idle CPU is a best one if and only if the oldest ready thread is |
| Scheduler.IoCompleteInversion | Assignment4/scheduler.c:182-194 | a run from the start in which it is not |
| SchedulerQueues.StepInLine | Assignment4/scheduler.c:62-205 | each callback: who becomes ready goes to the end of the line, the CPU is given to the first of the line when it is to be given, and nobody else moves |
| SchedulerQueues.RunInLine | Assignment4/scheduler.c:62-205 | the same in every run from the start, with the quantum's count taken from the callbacks |
| SchedulerQueues.TickTakesIff | Assignment4/scheduler.c:107-133 | a tick takes the CPU from the current thread iff under round robin the count is at least the quantum and a thread is ready, or under preemptive priority a ready thread is better; under no other algorithm |
| SchedulerQueues.FullQuantum | Assignment4/scheduler.c:107-133 | who gets the CPU at a tick keeps it through the next quantum - 1 ticks, whatever comes between |
| SchedulerQueues.InheritedCount | Assignment4/scheduler.c:79-133 | who gets it between ticks may lose it at the next one: the count goes on |
| SchedulerQueues.IoIsFifo | Assignment4/scheduler.c:149-194 | requests made = requests completed, then the one in service, then those waiting, in that order, in every run |
| SchedulerQueues.DoneInOrder | Assignment4/scheduler.c:138-142 | records are kept in the order of the exits |
| SchedulerQueues.TurnaroundIsLife | Assignment4/scheduler.c:79-142 | the recorded turnaround is the number of ticks from the thread's sys_exec to its sys_exit, in every run |
| SchedulerCallbacks.Callbacks.constructor | Assignment4/scheduler.c:52-59 | empty queues, idle CPU and device, clock at zero |
| SchedulerCallbacks.Callbacks.SysExec | Assignment4/scheduler.c:79-100 | takes the machine's exec step |
| SchedulerCallbacks.Callbacks.PrioritySortReady | Assignment4/scheduler.c:62-75 | takes the machine's sort, with preemption and its charges |
| SchedulerCallbacks.Callbacks.TickHandler | Assignment4/scheduler.c:107-133 | takes the machine's tick |
| SchedulerCallbacks.Callbacks.Rotate | Assignment4/scheduler.c:119-127 | the expired thread goes to the back uncharged, the head is dispatched and charged, the quantum restarts |
| SchedulerCallbacks.Callbacks.Advance | Assignment4/scheduler.c:128-132 | the clock and quantum counter at the end of a tick |
| SchedulerCallbacks.Callbacks.SysExit | Assignment4/scheduler.c:138-142 | takes the machine's exit step |
| SchedulerCallbacks.Callbacks.SysReadWrite | Assignment4/scheduler.c:149-176 | takes the machine's read step, which is also its write step |
| SchedulerCallbacks.Callbacks.IoCompleteHandler | Assignment4/scheduler.c:182-194 | takes the machine's completion step |
| SchedulerCallbacks.Callbacks.IoStartingHandler | Assignment4/scheduler.c:200-205 | takes the machine's start step |
| Junctions.PairIsTrackEnds | Assignment3/cartman.c:42-66 | from either end of track t the reserved pair is {t, (t + 1) mod n}, own junction first; none elsewhere |
| Junctions.InitInv | Assignment3/cartman.c:91-96 | the start meets the invariant |
| Junctions.TryInv | Assignment3/cartman.c:69-79 | a round of reserve2, sleeping or taking both, keeps the invariant |
| Junctions.ReleaseInv | Assignment3/cartman.c:80-86 | so does the release section |
| Junctions.StepInv | Assignment3/cartman.c:37-89 | every step keeps locks, reservations and wakeups consistent and breaks no simulator rule |
| Junctions.RunInv | Assignment3/cartman.c:37-89 | so does every interleaving |
| Junctions.JunctionSafety | Assignment3/cartman.c:37-89 | in every run no reservation fails, locks[j] is 1 iff a cart holds j, and a crossing cart holds exactly its track's two ends |
| Junctions.SingleTrackFails | Assignment3/cartman.c:42-47 | one track, one cart: the junction is reserved twice |
| Junctions.SafeIffTwoTracks | Assignment3/cartman.c:37-89 | safe for all carts and all runs if and only if there are two or more tracks |
| Junctions.NotStuck | Assignment3/cartman.c:69-89 | while a cart is not done, some step other than a spurious wakeup is possible: no wakeup is lost |
| Junctions.StepProgress | Assignment3/cartman.c:69-89 | every step but a spurious wakeup uses up a bounded total |
| Junctions.BoundedRuns | Assignment3/cartman.c:69-89 | m carts: at most m * (m + 5) steps, plus two per spurious wakeup |
| Junctions.RunsEndCrossed | Assignment3/cartman.c:37-89 | a run that cannot go on has every cart done, having crossed exactly once if it stood at an end of its track |
| Junctions.LockTable.ReserveSection | Assignment3/cartman.c:71-74 | takes both locks iff both are free, else neither |
| Junctions.LockTable.ReleaseSection | Assignment3/cartman.c:82-83 | frees both |
| Junctions.LockTable.TrySection | Assignment3/cartman.c:69-79 | on the array this is the machine's step |
| Kernel.ScheduleInv | Lab1/pintos/src/threads/thread.c:491-567 | scheduling from a state whose current thread has left RUNNING restores the invariant |
| Kernel.NextIsSchedulable | Lab1/pintos/src/threads/thread.c:491-498 | the next thread was ready, or is idle when none was; never dying |
| Kernel.DownInv | Lab1/pintos/src/threads/semaphore.c:60-76 | each test of the waiting loop keeps the invariant |
| Kernel.UpInv | Lab1/pintos/src/threads/semaphore.c:82-95 | the popped waiter is blocked, and the step keeps the invariant |
| Kernel.SleepInv | Lab1/pintos/src/devices/timer.c:104-128 | sorted insertion and blocking in one step keep the invariant: order, and deadlines in the future |
| Kernel.DrainInv | Lab1/pintos/src/devices/timer.c:208-218 | the interrupt's loop wakes blocked threads only and leaves no deadline due |
| Kernel.StepInv | Lab1/pintos/src/threads/thread.c:214-316 | every enabled step keeps the thread-state partition; no ASSERT in it fails |
| Kernel.RunInv | Lab1/pintos/src/threads/thread.c:214-316 | so does every run of enabled steps, by induction over the step law |
| Kernel.RunPartition | Lab1/pintos/src/threads/thread.h:78-83 | in every run from the state after boot: the partition, and no lost wakeup |
| Kernel.ThreadPartition | Lab1/pintos/src/threads/thread.h:78-83 | one running thread; READY iff once in ready_list; nobody on two lists, or on one while running |
| Kernel.ExitFreesPage | Lab1/pintos/src/threads/thread.c:534-543 | the switch away from a dying thread frees its page, the initial thread's excepted |
| Kernel.DyingNeverRuns | Lab1/pintos/src/threads/thread.c:539-543 | a dying thread is never queued or selected again, in every run |
| Kernel.StepAccounts | Lab1/pintos/src/threads/semaphore.c:60-95 | one step changes a value by its completed ups and downs |
| Kernel.SemaphoreAccounts | Lab1/pintos/src/threads/semaphore.c:60-95 | value = initial + completed ups - completed downs, in every run |
| Kernel.StepNoLostWakeup | Lab1/pintos/src/threads/semaphore.c:60-95 | while threads wait, the value is at most the number of woken threads yet to recheck; each step keeps it |
| Kernel.RunNoLostWakeup | Lab1/pintos/src/threads/semaphore.c:60-95 | so does every run, barging included |
| Kernel.PositiveValueIsNoticed | Lab1/pintos/src/threads/semaphore.c:69-74 | a positive value with waiters queued means a woken thread is running or ready and will recheck |
| Kernel.DrainWakesDue | Lab1/pintos/src/devices/timer.c:208-218 | exactly the sleepers that are due leave the list, and are ready |
| Kernel.AsleepBeforeDeadline | Lab1/pintos/src/devices/timer.c:104-128 | a sleeper stays blocked and listed in every run up to its deadline |
| Kernel.SleepStarts | Lab1/pintos/src/devices/timer.c:109-126 | n > 0 lists the caller with deadline ticks + n; n <= 0 does nothing |
| Kernel.InsertSleeperAt | Lab1/pintos/src/devices/timer.c:114-122 | a new sleeper goes behind all earlier deadlines and in front of all equal or later ones |
| KernelQueues.StepInTurn | Lab1/pintos/src/threads/thread.c:214-316 | whoever becomes ready, in whatever way, is behind all who were; the front leaves only to be dispatched, at a yield, exit or wait; nobody else leaves |
| KernelQueues.TickInTurn | Lab1/pintos/src/devices/timer.c:208-218 | the sleepers that are due become ready in the order of the list; the rest of the list stays |
| KernelQueues.MovesUp | Lab1/pintos/src/threads/thread.c:491-498 | in every run the thread at position i of the run queue moves up by one at each switch |
| KernelQueues.DispatchedInTurn | Lab1/pintos/src/threads/thread.c:491-498 | and the i + 1st switch puts it on the CPU |
| KernelQueues.SemaphoreIsFifo | Lab1/pintos/src/threads/semaphore.c:60-95 | in every run those waiting on a semaphore, then those that came to wait, are those woken, then those still waiting, in order |
| Kernel.SleepMatchesBusyWait | Lab1/.pintos/src/devices/timer.c:89-97 | blocked while the busy-wait version would still yield; the tick that ends its loop unblocks |
| TimerWindow.TickFailsIff | Lab1/pintos/src/devices/timer.c:201-219 | with threads in the window: an assertion in the tick fails iff one that is linked and has not blocked is due; else the tick is the one of `Kernel` |
| TimerWindow.PlainKeeps | Lab1/pintos/src/devices/timer.c:104-128 | what other threads and interrupts do in the window is what they would do without it |
| TimerWindow.ReadKeeps | Lab1/pintos/src/devices/timer.c:110 | reading the clock changes nothing for the others |
| TimerWindow.PhaseKeeps | Lab1/pintos/src/devices/timer.c:113-120 | nor does any step of the walk |
| TimerWindow.LinkKeeps | Lab1/pintos/src/devices/timer.c:122 | a link that leaves the list in order changes nothing for the others yet |
| TimerWindow.BlockKeeps | Lab1/pintos/src/devices/timer.c:124-125 | blocking before the deadline adds exactly the caller's entry to those asleep |
| TimerWindow.StepKeeps | Lab1/pintos/src/devices/timer.c:104-219 | every step that does no harm keeps the invariant; only a tick moves the clock |
| TimerWindow.LinkIff | Lab1/pintos/src/devices/timer.c:114-122 | a link does no harm iff the place found is still listed and nothing in front of it is later |
| TimerWindow.CarefulKeeps | Lab1/pintos/src/devices/timer.c:104-219 | a step that meets its condition, which is on the state before it, does no harm, and what the conditions rest on is kept |
| TimerWindow.HarmlessIff | Lab1/pintos/src/devices/timer.c:104-219 | a run that closes its windows does no harm iff no tick in it reaches a deadline of the window, no walk reads the node of an exited thread, and every link finds its place still listed with nothing later in front |
| TimerWindow.CarefulRunIsHarmless | Lab1/pintos/src/devices/timer.c:104-219 | the conditions suffice for runs that leave windows open too |
| TimerWindow.WaitsToDeadline | Lab1/.pintos/src/devices/timer.c:89-97 | in every harmless run of single steps who began to sleep waits up to its deadline, in the window or blocked: as long as the busy-wait version would still yield |
| TimerWindow.DeadlineWakes | Lab1/pintos/src/devices/timer.c:208-218 | the tick that reaches the deadline, if early enough for the window, makes the sleeper ready |
| TimerWindow.Links | Lab1/pintos/src/devices/timer.c:110-122 | without interrupts the walk and the link put the node where the sorted insertion of `Kernel` does |
| TimerWindow.UninterruptedSleep | Lab1/pintos/src/devices/timer.c:110-125 | without interrupts the whole of timer_sleep is that insertion and the block |
| TimerWindow.UninterruptedIsKernelStep | Lab1/pintos/src/devices/timer.c:110-125 | that is, the one step of `Kernel` |
| TimerWindow.TickInWindowFailsIff | Lab1/pintos/src/devices/timer.c:122-125 | wherever timer_sleep(n) is called, a tick between its link and its block fails iff n = 1 |
| TimerWindow.StaleLink | Lab1/pintos/src/devices/timer.c:114-122 | a thread is preempted between walk and link, another sleeps meanwhile, no tick is near a deadline: the link puts the list out of order iff the other's deadline is the later one |
| TimerWindow.Overslept | Lab1/pintos/src/devices/timer.c:208-218 | what is listed behind an entry that is not due is not woken, due or not |
| TimerWindow.TickKeepsNodes | Lab1/pintos/src/devices/timer.c:208-218 | the tick takes nodes off the list but changes neither deadline nor next node of any: a walk goes on from one that was taken off |
| TimerWindow.PlainKeepsNodes | Lab1/pintos/src/devices/timer.c:104-128 | nor does anything else but timer_sleep; an exited thread's node goes with its page |
| TimerWindow.WalkKeepsNodes | Lab1/pintos/src/devices/timer.c:113-125 | timer_sleep itself writes nothing but its thread's deadline before the link |
| TimerWindow.LinkNodes | Lab1/pintos/src/devices/timer.c:122 | the link puts the node between the place found and the node in front of it; every other node stays |
| KernelObjects.KernelVars.constructor | Lab1/pintos/src/threads/thread.c:214-316 | the fields are those of the state after boot, where all runs begin |
| KernelObjects.KernelVars.NextThreadToRun | Lab1/pintos/src/threads/thread.c:491-498 | pops the front of ready_list, or returns idle |
| KernelObjects.KernelVars.ScheduleNext | Lab1/pintos/src/threads/thread.c:516-567 | takes the machine's switch |
| KernelObjects.KernelVars.Block | Lab1/pintos/src/threads/thread.c:214-222 | takes the machine's block step |
| KernelObjects.KernelVars.Unblock | Lab1/pintos/src/threads/thread.c:232-244 | takes the machine's unblock step |
| KernelObjects.KernelVars.Yield | Lab1/pintos/src/threads/thread.c:302-316 | takes the machine's yield step |
| KernelObjects.KernelVars.Exit | Lab1/pintos/src/threads/thread.c:281-298 | takes the machine's exit step |
| KernelObjects.KernelVars.DownPass | Lab1/pintos/src/threads/semaphore.c:69-74 | one test of the loop is the machine's down step |
| KernelObjects.KernelVars.SemaphoreUp | Lab1/pintos/src/threads/semaphore.c:82-95 | takes the machine's up step |
| KernelObjects.KernelVars.TimerSleep | Lab1/pintos/src/devices/timer.c:104-128 | the walk and insertion are the machine's sorted insertion, then block |
| KernelObjects.KernelVars.TimerInterrupt | Lab1/pintos/src/devices/timer.c:201-219 | the loop is the machine's drain |
| Locks.StepInv | Lab1/pintos/src/threads/condvar.c:72-120 | every step of any thread keeps one unit, one holder and queued waiters; every ownership ASSERT holds |
| Locks.RunInv | Lab1/pintos/src/threads/condvar.c:72-120 | so does every run of enabled steps, by induction over the step law |
| Locks.FeasibleSnoc | Lab1/pintos/src/threads/lock.c:67-91 | a run can go on with a step if and only if it is enabled after it: no schedule is left out |
| Locks.MutualExclusion | Lab1/pintos/src/threads/lock.c:67-91 | at most one thread is between lock_acquire and lock_release, and only it can be the holder |
| Locks.LeavingStep | Lab1/pintos/src/threads/lock.c:80-91 | the owner's next step towards its semaphore_up is enabled and shortens the way, or is the up and wakes the longest waiter |
| Locks.OthersWait | Lab1/pintos/src/threads/lock.c:67-91 | no step of another thread takes the unit, lengthens the owner's way or jumps the queue |
| Locks.HolderGivesBack | Lab1/pintos/src/threads/lock.c:67-91 | in every interleaving in which the owner only leaves, the step of its that ends the way is the up: the lock is free and the longest waiter woken |
| Locks.WaiterCanAcquire | Lab1/pintos/src/threads/lock.c:67-91 | the waiter at position i can get the lock in 4 * i + 1 enabled steps plus the owner's way |
| Locks.LockNotStuck | Lab1/pintos/src/threads/lock.c:67-91 | after every run from the start, whoever waits for the lock can still get it |
| Locks.SignalInv | Lab1/pintos/src/threads/condvar.c:95-105 | the popped waiter is past its lock_release, its private semaphore goes from 0 to 1, and it will pass |
| Locks.SignalsAreFifo | Lab1/pintos/src/threads/condvar.c:82-104 | in every run, first queue plus later waits = signalled in that order plus the queue left |
| Locks.BroadcastReachesAll | Lab1/pintos/src/threads/condvar.c:113-120 | a broadcast that has ended signalled everyone queued when it began |
| Locks.EachWaitSignalledOnce | Lab1/pintos/src/threads/condvar.c:81-84 | waits, signals and passed downs of a thread match one to one, pending ones aside |
| Locks.SignalSurvives | Lab1/pintos/src/threads/condvar.c:83-85 | a signal sent before its waiter sleeps is kept, and the waiter goes on to reacquire the lock |
| LockThreads.OtherStep | Lab1/pintos/src/threads/thread.c:214-316 | what else threads and interrupts do in the kernel changes nothing that `Locks` shows |
| LockThreads.DownRefines | Lab1/pintos/src/threads/semaphore.c:60-76 | each test of the waiting loop of the lock's semaphore, first or after a wakeup, is the step of `Locks` |
| LockThreads.UpRefines | Lab1/pintos/src/threads/semaphore.c:82-95 | so is the up of lock_release, alone or in condvar_wait: the popped thread is again before its test |
| LockThreads.WaitRefines | Lab1/pintos/src/threads/condvar.c:81-82 | so is the start of condvar_wait, with a fresh semaphore |
| LockThreads.WaitDownWaits | Lab1/pintos/src/threads/condvar.c:84 | so is the down on that semaphore when it waits |
| LockThreads.WaitDownTakes | Lab1/pintos/src/threads/condvar.c:84 | and when it takes the signal |
| LockThreads.SignalRefines | Lab1/pintos/src/threads/condvar.c:95-105 | so is the signal: only the popped waiter can be in that semaphore's queue |
| LockThreads.QuietRefines | Lab1/pintos/src/threads/lock.c:67-91 | so are the steps that need no kernel |
| LockThreads.CodeStep | Lab1/pintos/src/threads/condvar.c:72-120 | every step of the code that a thread on the CPU can take is enabled in `Locks` and is that step, and both invariants are kept |
| LockThreads.RunRefines | Lab1/pintos/src/threads/condvar.c:72-120 | every run of the kernel whose threads run this code is a run of `Locks`, ending in the same state |
| LockThreads.LockIsExclusive | Lab1/pintos/src/threads/lock.c:67-91 | hence, in every run of the kernel from boot, at most one thread is between lock_acquire and lock_release |
| LockObjects.MonitorVars.constructor | Lab1/pintos/src/threads/lock.c:50-57 | an initial lock and condition variables meet the invariant |
| LockObjects.MonitorVars.DownPass | Lab1/pintos/src/threads/lock.c:74 | takes the machine's step on the lock's semaphore |
| LockObjects.MonitorVars.ReleaseUp | Lab1/pintos/src/threads/lock.c:90 | takes the machine's up step |
| LockObjects.MonitorVars.EnterWait | Lab1/pintos/src/threads/condvar.c:79-82 | a fresh semaphore at 0 joins the queue's end |
| LockObjects.MonitorVars.SignalCond | Lab1/pintos/src/threads/condvar.c:95-105 | the head leaves the queue and its semaphore is 1; nothing for an empty queue |
| LockObjects.MonitorVars.BroadcastCond | Lab1/pintos/src/threads/condvar.c:113-120 | the loop empties the queue and leaves each waiter's semaphore at 1 |
| Allocator.BlocksFit | Lab1/pintos/src/threads/malloc.c:80-81 | every block of an arena lies between its header and the end of its page |
| Allocator.BlocksApart | Lab1/pintos/src/threads/malloc.c:285-294 | two blocks of an arena never overlap |
| Allocator.BlockAt | Lab1/pintos/src/threads/malloc.c:285-294 | the address is in the arena's page and gives back its index |
| Allocator.FirstFit | Lab1/pintos/src/threads/palloc.c:81 | the first clear run, and none only if there is none |
| Allocator.Fit | Lab1/pintos/src/threads/malloc.c:100-104 | the smallest descriptor whose blocks hold the size |
| Allocator.FitSuits | Lab1/pintos/src/threads/malloc.c:100-104 | it is the one class whose blocks hold the size while the next smaller one's do not |
| Allocator.BlocksPerArenaMost | Lab1/pintos/src/threads/malloc.c:80-81 | an arena has as many blocks as fit behind its header |
| Allocator.WithoutNext | Lab1/pintos/src/threads/malloc.c:247-251 | removing blocks one at a time removes them all and keeps the others' order |
| Allocator.FreeBlocksFull | Lab1/pintos/src/threads/malloc.c:241-246 | the count reaches blocks_per_arena exactly when all the arena's blocks are listed |
| Allocator.AddKeepsPages | Lab1/pintos/src/threads/palloc.c:70-101 | clear pages carry no arena, and taking them keeps bitmap and arenas in step |
| Allocator.DropKeepsPages | Lab1/pintos/src/threads/palloc.c:117-142 | giving an arena's pages back keeps them in step |
| Allocator.RefillKeeps | Lab1/pintos/src/threads/malloc.c:124-146 | a new arena keeps lists, counts and bitmap right |
| Allocator.PopKeeps | Lab1/pintos/src/threads/malloc.c:148-151 | handing out the front block keeps them right |
| Allocator.PushKeeps | Lab1/pintos/src/threads/malloc.c:238-242 | taking a block back keeps them right |
| Allocator.DropKeeps | Lab1/pintos/src/threads/malloc.c:241-253 | releasing a wholly free arena keeps them right |
| Allocator.DropBigKeeps | Lab1/pintos/src/threads/malloc.c:257-262 | releasing a big block keeps them right |
| Allocator.PushedCount | Lab1/pintos/src/threads/malloc.c:246 | the ASSERT on free_cnt cannot fail |
| Allocator.StepInv | Lab1/pintos/src/threads/malloc.c:89-264 | every malloc and free keeps: free_cnt = listed blocks, held = not free, no wholly free arena, bits = initial bits plus arenas, every held block in an arena of the smallest class or with the fewest pages for its size, and room for the request iff size + 12 < 2^32 |
| Allocator.InitialInv | Lab1/pintos/src/threads/malloc.c:71-85 | the start meets the invariant, whatever the bitmap |
| Allocator.LiveInArena | Lab1/pintos/src/threads/malloc.c:177-186 | a held block lies behind its arena's header, inside its pages and the pool |
| Allocator.LiveDisjoint | Lab1/pintos/src/threads/malloc.c:87-154 | two held blocks share no byte |
| Allocator.BigPagesEnough | Lab1/pintos/src/threads/malloc.c:107-112 | the page count covers size and header iff their sum does not wrap |
| Allocator.BigPagesLeast | Lab1/pintos/src/threads/malloc.c:109 | the page count is the fewest pages that hold size and header, as long as rounding up does not wrap; then none, and from 2^32 - 11 on one |
| Allocator.MallocResult | Lab1/pintos/src/threads/malloc.c:87-154 | a block nobody held, or null and nothing held changes |
| Allocator.MallocNull | Lab1/pintos/src/threads/malloc.c:96-136 | null iff size 0, or of the smallest class that holds it no block is listed and no page clear, or no run of the fewest pages that hold it is clear |
| Allocator.FreshArena | Lab1/pintos/src/threads/malloc.c:124-146 | with no block listed, malloc makes an arena of the lowest clear page, hands out its first block and lists the others by address |
| Allocator.BigBlockPlace | Lab1/pintos/src/threads/malloc.c:105-118 | a big block starts at the lowest clear run that is long enough, and has exactly the fewest pages |
| Allocator.MallocUndoesFree | Lab1/pintos/src/threads/malloc.c:148-239 | a freed block whose arena stays is the next one handed out in its class, and a request of its size leaves the heap as before the free |
| Allocator.FreeResult | Lab1/pintos/src/threads/malloc.c:218-264 | exactly the freed block stops being held; null is ignored |
| Allocator.ArenaHasHeld | Lab1/pintos/src/threads/malloc.c:241-253 | every arena has a held block |
| Allocator.NothingHeld | Lab1/pintos/src/threads/malloc.c:218-264 | with nothing held, bitmap, lists and headers are those of the start |
| Allocator.FreeAllRestores | Lab1/pintos/src/threads/malloc.c:218-264 | from any reachable heap, freeing the held blocks in any order restores the start |
| Allocator.WrappedRequest | Lab1/pintos/src/threads/malloc.c:109 | a request for 2^32 - 1 bytes gets 4084 |
| AllocatorObjects.BlockAllocator.constructor | Lab1/pintos/src/threads/malloc.c:71-85 | the loop builds the seven descriptors; the heap is the initial one |
| AllocatorObjects.BlockAllocator.PallocGetMultiple | Lab1/pintos/src/threads/palloc.c:70-101 | null iff no pages asked or no run; else the first run's address, its bits set |
| AllocatorObjects.BlockAllocator.PallocFreeMultiple | Lab1/pintos/src/threads/palloc.c:117-142 | exactly these bits are cleared; its ASSERTs hold |
| AllocatorObjects.BlockAllocator.BlockToArena | Lab1/pintos/src/threads/malloc.c:266-282 | the block's page; header and alignment ASSERTs hold |
| AllocatorObjects.BlockAllocator.ArenaToBlock | Lab1/pintos/src/threads/malloc.c:284-294 | the block's address by multiplication |
| AllocatorObjects.BlockAllocator.FindDesc | Lab1/pintos/src/threads/malloc.c:102-104 | the loop finds the smallest fitting descriptor |
| AllocatorObjects.BlockAllocator.NewArena | Lab1/pintos/src/threads/malloc.c:125-146 | the refill step, failing exactly when no page is clear |
| AllocatorObjects.BlockAllocator.Malloc | Lab1/pintos/src/threads/malloc.c:89-154 | result and heap are the step's, invariant kept |
| AllocatorObjects.BlockAllocator.Free | Lab1/pintos/src/threads/malloc.c:218-264 | the heap is the step's, invariant kept |
| AllocatorObjects.BlockAllocator.UnlistBlocks | Lab1/pintos/src/threads/malloc.c:247-251 | the loop removes listed blocks only, and all the arena's |
| Stdlib.SwapDown | Lab1/pintos/src/lib/stdlib.c:105-121 | swapping with the larger child moves the one heap violation down to it |
| Stdlib.LargestOf | Lab1/pintos/src/lib/stdlib.c:103-112 | the index of the largest of an element and its children |
| Stdlib.Heapify | Lab1/pintos/src/lib/stdlib.c:96-123 | the heap holds from the index on, elements before and behind are untouched, the rest is permuted; it ends |
| Stdlib.RootIsMax | Lab1/pintos/src/lib/stdlib.c:146-151 | the root of a heap is a maximum |
| Stdlib.RootGoesLast | Lab1/pintos/src/lib/stdlib.c:146-151 | moving the root behind the heap extends the sorted tail and leaves a heap below the root |
| Stdlib.SortStep | Lab1/pintos/src/lib/stdlib.c:147-151 | one round grows the ordered tail by one |
| Stdlib.Sort | Lab1/pintos/src/lib/stdlib.c:131-152 | for every array and total preorder: ordered, and a permutation |
| Stdlib.BinarySearch | Lab1/pintos/src/lib/stdlib.c:184-207 | an equal element's index iff there is one |
| Ustar.FormatInteger | Lab1/pintos/src/lib/stdio.c:469-547 | prints the number's octal digits, most significant first, zero-padded to the width |
| Ustar.OctalValue | Lab1/pintos/src/lib/stdio.c:501-513 | the printed digits denote the number |
| Ustar.OctalWidth | Lab1/pintos/src/lib/stdio.c:526-542 | a number below 8^width takes exactly the width |
| Ustar.ParseOctalField | Lab1/pintos/src/lib/ustar.c:128-162 | the loop computes the parse function |
| Ustar.ParseOctalMeaning | Lab1/pintos/src/lib/ustar.c:120-162 | a field parses to v iff octal digits denoting v, v in 32 bits, end in a space or null byte |
| Ustar.OctalRoundTrip | Lab1/pintos/src/lib/ustar.c:128-162 | printing then parsing is the identity on 32-bit numbers |
| Ustar.Core | Lab1/pintos/src/lib/ustar.c:65-73 | what is left has no antisocial prefix |
| Ustar.CoreIsSuffix | Lab1/pintos/src/lib/ustar.c:65-73 | and is a suffix |
| Ustar.StripsToIff | Lab1/pintos/src/lib/ustar.c:65-73 | the stripped name is the name from the first path component on that has no prefix "/", "./" or "../", so no more than needed is dropped; "." iff that is empty or ".." |
| Ustar.StripFixes | Lab1/pintos/src/lib/ustar.c:56-73 | stripped names are safe; exactly safe names are left alone; stripping twice is stripping once |
| Ustar.StripAntisocialPrefixes | Lab1/pintos/src/lib/ustar.c:65-73 | the loop computes the strip function |
| Ustar.CalculateChksum | Lab1/pintos/src/lib/ustar.c:36-54 | the loop computes the sum, which cannot wrap |
| Ustar.ChecksumIsTotal | Lab1/pintos/src/lib/ustar.c:43-52 | the sum is that of all bytes with eight spaces for the field's own |
| Ustar.SumIgnoresField | Lab1/pintos/src/lib/ustar.c:46-51 | headers that differ only in the checksum field have one sum |
| Ustar.SumSeesByte | Lab1/pintos/src/lib/ustar.c:43-52 | one byte changed elsewhere moves the sum by the difference |
| Ustar.PutField | Lab1/pintos/src/lib/ustar.c:99-115 | a field written to its place changes that field and no other byte |
| Ustar.FullField | Lab1/pintos/src/lib/ustar.c:10-33 | a full field reads back whole |
| Ustar.CopyString | Lab1/pintos/src/lib/ustar.c:101 | strlcpy and snprintf copy what fits, end it with a null byte and touch nothing else |
| Ustar.MakeHeader | Lab1/pintos/src/lib/ustar.c:82-118 | true iff the stripped name has at most 99 bytes; then the buffer is the header, else it is unchanged |
| Ustar.FillArchive | Lab1/pintos/src/lib/ustar.c:109-115 | the magic, version and owner fields, then the checksum of all the rest |
| Ustar.ParseHeader | Lab1/pintos/src/lib/ustar.c:181-227 | the checks, in their order, compute the parse function |
| Ustar.RoundTrip | Lab1/pintos/src/lib/ustar.c:75-227 | the header made for what the name strips to parses to that name, the type, and the size (0 for directories); a regular file's negative size, and only that, is refused |
| Ustar.HeaderBytes | Lab1/pintos/src/lib/ustar.c:99-115 | every byte of a made header but the checksum's, at its offset: name, mode 0644 or 0755, owner and group 0, size, the fixed time, type, magic, version, root and root, and zeros |
| Ustar.ReportsFirstFailure | Lab1/pintos/src/lib/ustar.c:190-221 | the error reported is that of the first check that fails, each check stated on the bytes at its offset; only zeros end the archive; what fails no check is an entry |
| Ustar.EntryReads | Lab1/pintos/src/lib/ustar.c:208-226 | an entry is the stripped name, the type of the flag and the size of the field |
| Ustar.TamperingDetected | Lab1/pintos/src/lib/ustar.c:199-207 | an accepted entry with any one byte outside the checksum field changed is refused |
| Ustar.AcceptedIsSafe | Lab1/pintos/src/lib/ustar.c:208-226 | an accepted name is safe and at most 99 bytes, the size fits an int |
| MergeSort.MergedSorted | Assignment2/merge.h:12-19 | merging sorted parts gives a sorted whole |
| MergeSort.MergedPermutes | Assignment2/merge.h:12-19 | and a permutation of both |
| MergeSort.Merge | Assignment2/merge.h:12-19 | merges two neighbouring ranges in place, the second possibly empty, and changes nothing else |
| MergeSort.SortedUnique | Assignment2/sort.c:22-30 | there is one ascending arrangement of a sequence |
| MergeSort.SortSeqSorts | Assignment2/sort.c:22-30 | the sort of a sequence is that arrangement, and exists |
| MergeSort.SortSeqSplits | Assignment2/sort.c:24-29 | sorting a sequence is merging the sorts of its two parts, wherever it is cut |
| MergeSort.SortRangeSplits | Assignment2/sort.c:24-29 | the same for a range in place: its two halves, then their merge |
| MergeSort.SingleThreadedMergeSort | Assignment2/sort.c:22-30 | arr[left..right] becomes its sort; the rest is unchanged |
| MergeSort.PartsTile | Assignment2/sort.c:55-63 | the four ranges tile [left, right]; the fourth is empty iff right - left is 5 or 8 |
| MergeSort.PartsNext | Assignment2/sort.c:57-63 | sorting the next range keeps the earlier ones sorted and the rest as it was |
| MergeSort.MergePartsSorts | Assignment2/sort.c:67-72 | from four sorted ranges the three merges make one, and touch nothing outside |
| MergeSort.MultiThreadedMergeSort | Assignment2/sort.c:48-73 | arr[left..right] a sorted permutation, the rest unchanged |
| MergeSortThreads.EffectOutside | Assignment2/sort.c:22-46 | a thread's step, which reads or writes at most one element, writes nothing outside its call's range |
| MergeSortThreads.StepLocal | Assignment2/sort.c:22-46 | and neither what it writes nor how it goes on depends on anything outside that range |
| MergeSortThreads.StepKeepsOutcome | Assignment2/sort.c:22-30 | opening a sort or a merge, and each element read, written out or copied back, keep what the pending calls will compute |
| MergeSortThreads.StepKeepsSolo | Assignment2/sort.c:55-66 | a step of any thread keeps what every thread will make of its own range |
| MergeSortThreads.AnyOrderResult | Assignment2/sort.c:57-66 | under any schedule each finished thread's range holds what it computes alone |
| MergeSortThreads.AnyOrderOutside | Assignment2/sort.c:57-66 | and no other element changes |
| MergeSortThreads.ScheduleLength | Assignment2/sort.c:57-66 | a schedule is complete iff it has as many steps as there is work: every one ends |
| MergeSortThreads.SortsInAnyOrder | Assignment2/sort.c:57-66 | however the four sorts interleave, element by element, the four ranges end sorted and the rest as it was |
| MergeSortThreads.MergesInAnyOrder | Assignment2/sort.c:67-71 | however the two merges interleave, element by element, the result is that of one after the other |
| MergeSortThreads.AnyInterleaving | Assignment2/sort.c:48-73 | under any two schedules of single element reads and writes the last merge leaves the range a sorted permutation and the rest unchanged |

## Left out

- Assignment5: the queue is a sequence and its records are values; `queue_sort` is taken as some ordered permutation, since queue.c is not part of this model.
- Pager.Pager.constructor: starts `bit_refs` and `freq_list` at zero, which `malloc` does not promise (pager.c:35, pager.c:37), and asks for at least one frame.
- Assignment5: page numbers from 10^6 on under the policies that index those arrays, and the wrap-around of counters after 2^31 requests, are excluded; `print_sorted` only prints.
- Assignment4: priorities whose difference does not fit an int, and clocks past 2^31, are excluded; `stats` and the calls to `sim_dispatch` are output; the mapping of the time records from pointers to values assumes no other holder of the pointer.
- Assignment3: the simulator's rules about where a cart is (cartman.h:27, cartman.h:38-39), since a cart's place is known to the simulator alone and, read literally, the rule that a cart stands at the junction it reserves is broken by every reservation of the far end (cartman.c:76); that the cart is known to the simulator holds by construction.
- Assignment3: `arrive`, thread creation and the journey between tracks; each cart crosses once, as its thread does.
- Kernel.SleepInv: takes insertion and blocking as one step, although timer.c disables interrupts only at line 124; `TimerWindow` has the steps apart, with what can happen between, and `TimerWindow.UninterruptedIsKernelStep` says when they are the one step.
- Kernel.SleepMatchesBusyWait: is about the same one step; `TimerWindow.WaitsToDeadline` and `TimerWindow.DeadlineWakes` are about the steps as they are.
- KernelObjects.KernelVars.TimerSleep: runs as a whole, as if interrupts were off from its start; the same holds.
- TimerWindow.HarmlessIff: takes a call of list_begin, list_next or list_insert and the reading or writing of a deadline as one step each; an interrupt between the four pointer writes of list_insert is not modelled. A link before a node that is off the list ends the run: what the list is after it is not modelled. Nor is the interrupt level, which timer_sleep leaves off when it returns.
- Kernel.StepInv: thread creation is one step, its page always available; `all_list`, time-slice counters, priorities and the unused MLFQ fields are not modelled.
- Locks.StepInv: one lock with its condition variables; the queue operations of condvar.c, made under the lock, belong to the step beside them; blocking inside a semaphore is a place of the machine; `LockThreads.RunRefines` ties it to the semaphores and the run queue of `Kernel`.
- LockThreads.RunRefines: one lock, its threads numbered from 0; these semaphores are used through this code only, and a thread does not exit inside it.
- LockObjects.MonitorVars.EnterWait: covers the part of condvar_wait before the release; the release, the private down and the reacquisition are steps of `Locks`.
- Allocator.StepInv: one call of malloc or free is one step, the locks of descriptors and pool not modelled; the bitmap is a sequence scanned first-fit, since bitmap.c is not part of this model; list nodes inside free blocks are the free lists, and the filling of freed memory is the loss of its header.
- AllocatorObjects.BlockAllocator.PallocGetMultiple: covers the kernel pool and no PAL flags, the call malloc makes; user pages, zeroing and the panic on failure are not modelled.
- Allocator: `calloc`, `realloc` and pool sizing.
- Stdlib: elements are whole values rather than runs of bytes; `atoi`, and the thunks of `qsort` and `bsearch`.
- Ustar.FormatInteger: covers unsigned octal with zero padding, the only conversion the headers need, and none of the others of stdio.c.
- Ustar: the message for an overlong name.
- MergeSort.Merge: has its own body, which copies through a buffer, since merge.a is not part of this model.
- MergeSort: sums of indexes past 2^31; failure of thread creation.
- Arithmetic: division by zero traps in C and is a precondition here; `__divdi3` and `__moddi3` are one-line calls of the modelled routines, as is `__umoddi3`.
- The rest of the kernel (devices, interrupts, console, user programs, file system), the shared-memory sorts of Assignment1, the file manager of Assignment6 and the man-page exercise (manpage.c), which repeats the pattern of cartman.c in an easier form.
