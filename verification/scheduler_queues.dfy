/** Who gets the CPU and the device, and when, in every run of the scheduler's callbacks. */
module SchedulerQueues {
  import opened Wrappers
  import opened Scheduler

  function Threads(q: seq<Times>): seq<Thread> { seq(|q|, i requires 0 <= i < |q| => q[i].t) }

  function ThreadIn(o: Option<Times>): seq<Thread> { if o.Some? then [o.value.t] else [] }

  // ----- The CPU ------------------------------------------------------------------------------

  /** The count that the quantum is measured by, from the callbacks: ticks that ended with a thread on
      the CPU since the last tick that gave it to one; a tick that leaves it idle with the count at the
      quantum starts it again. */
  ghost function NextCount(s: State, e: Event, n: nat): nat
    requires Enabled(s, e)
  {
    if !e.Tick? then n
    else if Step(s, e).cur == None then (if n == s.quant then 0 else n)
    else if s.cur == None || TimeIsUp(s, n) then 1
    else n + 1
  }

  ghost function Count(s: State, es: seq<Event>, n: nat): nat
    requires Feasible(s, es)
    decreases |es|
  {
    if es == [] then n else Count(Step(s, es[0]), es[1..], NextCount(s, es[0], n))
  }

  ghost predicate TimeIsUp(s: State, n: nat) { s.alg == RoundRobin && n >= s.quant && s.ready != [] }

  ghost predicate Beaten(s: State) {
    s.alg == PreemptivePriority && s.cur.Some?
    && exists i :: 0 <= i < |s.ready| && s.ready[i].t.priority < s.cur.value.t.priority
  }

  /** The tick sends the current thread back to the ready queue. */
  ghost predicate TakesCpu(s: State, e: Event, n: nat) { e.Tick? && s.cur.Some? && (TimeIsUp(s, n) || Beaten(s)) }

  /** The ready threads in the order in which they are to run: as they came, but sorted by a preemptive
      priority tick, and by a non-preemptive one that finds the CPU idle. */
  ghost function Line(s: State, e: Event): seq<Thread> {
    Threads(if e.Tick? && (s.alg == PreemptivePriority || (s.alg == NonPreemptivePriority && s.cur == None))
            then e.sorted else s.ready)
  }

  /** Who becomes ready. */
  ghost function Joins(s: State, e: Event, n: nat): seq<Thread> {
    match e
    case Exec(t) => [t]
    case IoComplete => ThreadIn(s.ioT)
    case Tick(_) => if TakesCpu(s, e, n) then ThreadIn(s.cur) else []
    case _ => []
  }

  /** The CPU is given to the first of the line, if there is one: an idle one at a tick, at the end of an
      I/O, and for a new thread when none is ready unless priorities count; a busy one at a tick that
      takes it away. */
  ghost predicate Gives(s: State, e: Event, n: nat) {
    match e
    case Exec(_) => s.cur == None && s.ready == [] && s.alg != NonPreemptivePriority && s.alg != PreemptivePriority
    case IoComplete => s.cur == None
    case Tick(_) => s.cur == None || TakesCpu(s, e, n)
    case _ => false
  }

  /** What a callback makes of the line and the CPU. */
  ghost predicate InLine(line: seq<Thread>, gives: bool, leaves: bool, s: State, s': State) {
    if gives && line != [] then ThreadIn(s'.cur) == [line[0]] && Threads(s'.ready) == line[1..]
    else Threads(s'.ready) == line && ThreadIn(s'.cur) == if leaves || gives then [] else ThreadIn(s.cur)
  }

  lemma SortedFirst(sorted: seq<Times>, q: seq<Times>, p: nat)
    requires IsSortOf(sorted, q)
    ensures (sorted != [] && sorted[0].t.priority < p) <==> exists i :: 0 <= i < |q| && q[i].t.priority < p
    ensures sorted == [] <==> q == []
  {
    assert |multiset(sorted)| == |multiset(q)|;
    if i :| 0 <= i < |q| && q[i].t.priority < p {
      assert q[i] in multiset(sorted);
      var j :| 0 <= j < |sorted| && sorted[j] == q[i];
    }
    if sorted != [] {
      assert sorted[0] in multiset(q);
      var j :| 0 <= j < |q| && q[j] == sorted[0];
    }
  }

  /** What is left of a queue whose front has gone and that has a new back. */
  lemma Rotates(q: seq<Times>, x: Times, r: seq<Times>)
    requires q != [] && r == q[1..] + [x]
    ensures Threads(r) == (Threads(q) + [x.t])[1..] && (Threads(q) + [x.t])[0] == q[0].t
  {
  }

  lemma IdleTick(s: State, sorted: seq<Times>, n: nat)
    requires Enabled(s, Tick(sorted)) && n == s.onTotal && s.cur == None
    ensures InLine(Line(s, Tick(sorted)) + Joins(s, Tick(sorted), n), true, false, s, StepTick(s, sorted))
    ensures StepTick(s, sorted).onTotal == NextCount(s, Tick(sorted), n)
  {
    assert Line(s, Tick(sorted)) + [] == Line(s, Tick(sorted));
  }

  lemma PreemptTick(s: State, sorted: seq<Times>, n: nat)
    requires Enabled(s, Tick(sorted)) && n == s.onTotal && Beaten(s)
    ensures InLine(Line(s, Tick(sorted)) + ThreadIn(s.cur), true, false, s, StepTick(s, sorted))
    ensures StepTick(s, sorted).onTotal == NextCount(s, Tick(sorted), n)
  {
    SortedFirst(sorted, s.ready, s.cur.value.t.priority);
    Rotates(sorted, s.cur.value.(lastOn := s.ticks), StepTick(s, sorted).ready);
  }

  lemma RotateTick(s: State, sorted: seq<Times>, n: nat)
    requires Enabled(s, Tick(sorted)) && n == s.onTotal && s.cur.Some? && TimeIsUp(s, n)
    ensures InLine(Line(s, Tick(sorted)) + ThreadIn(s.cur), true, false, s, StepTick(s, sorted))
    ensures StepTick(s, sorted).onTotal == NextCount(s, Tick(sorted), n)
  {
    var x := s.cur.value.(lastOn := s.ticks);
    assert (s.ready + [x])[0] == s.ready[0] && (s.ready + [x])[1..] == s.ready[1..] + [x];
    Rotates(s.ready, x, StepTick(s, sorted).ready);
  }

  lemma StayTick(s: State, sorted: seq<Times>, n: nat)
    requires Enabled(s, Tick(sorted)) && n == s.onTotal && s.cur.Some? && !TakesCpu(s, Tick(sorted), n)
    ensures InLine(Line(s, Tick(sorted)), false, false, s, StepTick(s, sorted))
    ensures StepTick(s, sorted).onTotal == NextCount(s, Tick(sorted), n)
  {
    if s.alg == PreemptivePriority { SortedFirst(sorted, s.ready, s.cur.value.t.priority); }
  }

  lemma TickInLine(s: State, sorted: seq<Times>, n: nat)
    requires Enabled(s, Tick(sorted)) && n == s.onTotal
    ensures InLine(Line(s, Tick(sorted)) + Joins(s, Tick(sorted), n), Gives(s, Tick(sorted), n), false, s, StepTick(s, sorted))
    ensures StepTick(s, sorted).onTotal == NextCount(s, Tick(sorted), n)
  {
    if s.cur == None {
      IdleTick(s, sorted, n);
    } else if Beaten(s) {
      PreemptTick(s, sorted, n);
    } else if TimeIsUp(s, n) {
      RotateTick(s, sorted, n);
    } else {
      StayTick(s, sorted, n);
      assert Line(s, Tick(sorted)) + [] == Line(s, Tick(sorted));
    }
  }

  lemma StepInLine(s: State, e: Event, n: nat)
    requires Enabled(s, e) && n == s.onTotal
    ensures InLine(Line(s, e) + Joins(s, e, n), Gives(s, e, n), e.Exit? || e.Read? || e.Write?, s, Step(s, e))
    ensures Step(s, e).onTotal == NextCount(s, e, n)
  {
    if e.Tick? { TickInLine(s, e.sorted, n); }
  }

  lemma {:induction false} CountIs(s: State, es: seq<Event>)
    requires Feasible(s, es)
    ensures After(s, es).onTotal == Count(s, es, s.onTotal)
    decreases |es|
  {
    if es == [] {
    } else {
      StepInLine(s, es[0], s.onTotal);
      CountIs(Step(s, es[0]), es[1..]);
    }
  }

  /** In every run from the start, under every algorithm: who is ready and in what order, and who has the
      CPU, after each callback. */
  lemma RunInLine(alg: Algorithm, quant: nat, es: seq<Event>, e: Event)
    requires Feasible(Init(alg, quant), es) && Enabled(After(Init(alg, quant), es), e)
    ensures var s, n := After(Init(alg, quant), es), Count(Init(alg, quant), es, 0);
            InLine(Line(s, e) + Joins(s, e, n), Gives(s, e, n), e.Exit? || e.Read? || e.Write?, s, Step(s, e))
  {
    CountIs(Init(alg, quant), es);
    StepInLine(After(Init(alg, quant), es), e, Count(Init(alg, quant), es, 0));
  }

  /** A thread keeps its quantum: a tick takes the CPU from the current thread if and only if under round
      robin the count is at least the quantum and a thread is ready, or under preemptive priority a ready
      thread is better. Under no other algorithm does a tick take the CPU away. */
  lemma TickTakesIff(alg: Algorithm, quant: nat, es: seq<Event>, sorted: seq<Times>)
    requires Feasible(Init(alg, quant), es) && Enabled(After(Init(alg, quant), es), Tick(sorted))
    requires After(Init(alg, quant), es).cur.Some?
    requires Executed(es, After(Init(alg, quant), es).cur.value.t) <= 1
    ensures var s := After(Init(alg, quant), es);
            !Running(Step(s, Tick(sorted)), s.cur.value.t) <==>
              || (alg == RoundRobin && Count(Init(alg, quant), es, 0) >= quant && s.ready != [])
              || (alg == PreemptivePriority && exists i :: 0 <= i < |s.ready| && s.ready[i].t.priority < s.cur.value.t.priority)
  {
    var s, n := After(Init(alg, quant), es), Count(Init(alg, quant), es, 0);
    var t := s.cur.value.t;
    RunConserves(Init(alg, quant), es, t);
    AlgStays(Init(alg, quant), es);
    RunInLine(alg, quant, es, Tick(sorted));
    if TakesCpu(s, Tick(sorted), n) { FirstIsOther(s, sorted, t); }
  }

  lemma AlgStep(s: State, e: Event)
    requires Enabled(s, e)
    ensures Step(s, e).alg == s.alg && Step(s, e).quant == s.quant
  {
    if e.Tick? { AlgTick(s, e.sorted); }
  }

  lemma AlgTick(s: State, sorted: seq<Times>)
    ensures StepTick(s, sorted).alg == s.alg && StepTick(s, sorted).quant == s.quant
  {
    assert Decide(s, sorted).alg == s.alg && Decide(s, sorted).quant == s.quant;
  }

  lemma {:induction false} AlgStays(s: State, es: seq<Event>)
    requires Feasible(s, es)
    ensures After(s, es).alg == s.alg && After(s, es).quant == s.quant
    decreases |es|
  {
    if es == [] {
    } else {
      AlgStep(s, es[0]);
      AlgStays(Step(s, es[0]), es[1..]);
    }
  }

  /** Who is on the CPU and in one place is not the first in the line. */
  lemma FirstIsOther(s: State, sorted: seq<Times>, t: Thread)
    requires Enabled(s, Tick(sorted)) && Running(s, t) && Places(s, t) <= 1 && s.ready != []
    ensures Line(s, Tick(sorted)) != [] && Line(s, Tick(sorted))[0] != t
  {
    var q := if s.alg == PreemptivePriority || (s.alg == NonPreemptivePriority && s.cur == None) then sorted else s.ready;
    if SortsReady(s) {
      OccPermutation(sorted, s.ready, t);
      assert |multiset(sorted)| == |multiset(s.ready)|;
    }
    Absent(q, t);
  }

  // ----- The quantum -------------------------------------------------------------------------------

  lemma {:induction false} CountGrowsByTicks(s: State, es: seq<Event>, n: nat)
    requires Feasible(s, es)
    ensures Count(s, es, n) <= n + TickCount(es)
    decreases |es|
  {
    if es == [] {
    } else {
      CountGrowsByTicks(Step(s, es[0]), es[1..], NextCount(s, es[0], n));
    }
  }

  /** A thread whose count starts with the tick `v` follows keeps the CPU for the rest of the quantum. */
  lemma KeepsQuantum(v: State, rest: seq<Event>, last: seq<Times>)
    requires v.alg == RoundRobin && v.onTotal == 1 && Feasible(v, rest) && 1 + TickCount(rest) < v.quant
    requires Enabled(After(v, rest), Tick(last)) && After(v, rest).cur.Some?
    ensures Running(Step(After(v, rest), Tick(last)), After(v, rest).cur.value.t)
  {
    var z := After(v, rest);
    CountIs(v, rest);
    CountGrowsByTicks(v, rest, 1);
    AlgStays(v, rest);
    StayTick(z, last, z.onTotal);
  }

  /** Whoever is put on the CPU by a tick keeps it, as far as ticks go, through the whole quantum: none of
      the next `quant - 1` ticks takes it away. */
  lemma FullQuantum(quant: nat, es: seq<Event>, sorted: seq<Times>, rest: seq<Event>, last: seq<Times>)
    requires Feasible(Init(RoundRobin, quant), es) && Enabled(After(Init(RoundRobin, quant), es), Tick(sorted))
    requires var s := After(Init(RoundRobin, quant), es);
             && Gives(s, Tick(sorted), Count(Init(RoundRobin, quant), es, 0)) && Step(s, Tick(sorted)).cur.Some?
             && Feasible(Step(s, Tick(sorted)), rest) && 1 + TickCount(rest) < quant
             && Enabled(After(Step(s, Tick(sorted)), rest), Tick(last)) && After(Step(s, Tick(sorted)), rest).cur.Some?
    ensures var z := After(Step(After(Init(RoundRobin, quant), es), Tick(sorted)), rest);
            Running(Step(z, Tick(last)), z.cur.value.t)
  {
    var s := After(Init(RoundRobin, quant), es);
    CountIs(Init(RoundRobin, quant), es);
    AlgStays(Init(RoundRobin, quant), es);
    AlgStep(s, Tick(sorted));
    StepInLine(s, Tick(sorted), s.onTotal);
    KeepsQuantum(Step(s, Tick(sorted)), rest, last);
  }

  /** Not so for a thread that gets the CPU between ticks: the count is not started again for it, and it
      may lose the CPU to the first thread that is ready at the next tick. */
  lemma InheritedCount(quant: nat, es: seq<Event>, b: Thread, c: Thread)
    requires Feasible(Init(RoundRobin, quant), es) && b != c
    requires var s := After(Init(RoundRobin, quant), es);
             s.cur == None && s.ready == [] && Count(Init(RoundRobin, quant), es, 0) >= quant
    ensures var v := Step(Step(After(Init(RoundRobin, quant), es), Exec(b)), Exec(c));
            Running(v, b) && Running(Step(v, Tick([])), c)
  {
    CountIs(Init(RoundRobin, quant), es);
    AlgStays(Init(RoundRobin, quant), es);
  }

  // ----- The device ----------------------------------------------------------------------------------

  /** The thread in service and those that wait for it. */
  function Device(s: State): seq<Thread> { ThreadIn(s.ioT) + Threads(s.io) }

  ghost function Requests(s: State, e: Event): seq<Thread> { if e.Read? || e.Write? then ThreadIn(s.cur) else [] }

  ghost function Completed(s: State, e: Event): seq<Thread> { if e.IoComplete? then ThreadIn(s.ioT) else [] }

  lemma StepDevice(s: State, e: Event)
    requires Enabled(s, e) && (s.ioT == None ==> s.io == [])
    ensures Device(s) + Requests(s, e) == Completed(s, e) + Device(Step(s, e))
    ensures Step(s, e).ioT == None ==> Step(s, e).io == []
  {
    if e.Tick? { TickKeepsIo(s, e.sorted); }
  }

  ghost function AllRequests(s: State, es: seq<Event>): seq<Thread>
    requires Feasible(s, es)
    decreases |es|
  {
    if es == [] then [] else Requests(s, es[0]) + AllRequests(Step(s, es[0]), es[1..])
  }

  ghost function AllCompleted(s: State, es: seq<Event>): seq<Thread>
    requires Feasible(s, es)
    decreases |es|
  {
    if es == [] then [] else Completed(s, es[0]) + AllCompleted(Step(s, es[0]), es[1..])
  }

  /** Requests for I/O are served in the order in which they were made: in every run those made are those
      completed, then the one in service, then those waiting. */
  lemma {:induction false} IoIsFifo(s: State, es: seq<Event>)
    requires Feasible(s, es) && (s.ioT == None ==> s.io == [])
    ensures Device(s) + AllRequests(s, es) == AllCompleted(s, es) + Device(After(s, es))
    decreases |es|
  {
    if es == [] {
    } else {
      var v := Step(s, es[0]);
      StepDevice(s, es[0]);
      IoIsFifo(v, es[1..]);
      Regroup(Device(s), Requests(s, es[0]), AllRequests(v, es[1..]),
              Completed(s, es[0]), Device(v), AllCompleted(v, es[1..]), Device(After(v, es[1..])));
    }
  }

  lemma Regroup(a: seq<Thread>, b: seq<Thread>, c: seq<Thread>, d: seq<Thread>, q: seq<Thread>, f: seq<Thread>, g: seq<Thread>)
    requires a + b == d + q && q + c == f + g
    ensures a + (b + c) == (d + f) + g
  {
    assert a + (b + c) == (a + b) + c;
    assert (d + q) + c == d + (q + c);
  }

  ghost function Exited(s: State, e: Event): seq<Thread> { if e.Exit? then ThreadIn(s.cur) else [] }

  lemma StepDone(s: State, e: Event)
    requires Enabled(s, e)
    ensures Threads(Step(s, e).done) == Threads(s.done) + Exited(s, e)
  {
    if e.Tick? { assert Decide(s, e.sorted).done == s.done; }
  }

  ghost function AllExited(s: State, es: seq<Event>): seq<Thread>
    requires Feasible(s, es)
    decreases |es|
  {
    if es == [] then [] else Exited(s, es[0]) + AllExited(Step(s, es[0]), es[1..])
  }

  /** The records are kept in the order of the exits. */
  lemma {:induction false} DoneInOrder(s: State, es: seq<Event>)
    requires Feasible(s, es)
    ensures Threads(After(s, es).done) == Threads(s.done) + AllExited(s, es)
    decreases |es|
  {
    if es == [] {
    } else {
      StepDone(s, es[0]);
      DoneInOrder(Step(s, es[0]), es[1..]);
    }
  }

  // ----- Turnaround ------------------------------------------------------------------------------------

  /** `t` is there and has not exited. */
  ghost predicate Inside(s: State, t: Thread) {
    Is(s.cur, t) || Is(s.ioT, t) || Occ(s.ready, t) + Occ(s.io, t) > 0
  }

  ghost predicate QueueAges(q: seq<Times>, t: Thread, beg: int) { forall i :: 0 <= i < |q| && q[i].t == t ==> q[i].begTime == beg }

  /** `t` has been there for `b` ticks, or was there for `b` ticks when it exited. */
  ghost predicate Ages(s: State, t: Thread, b: int) {
    && QueueAges(s.ready, t, s.ticks - b) && QueueAges(s.io, t, s.ticks - b)
    && (Is(s.cur, t) ==> s.cur.value.begTime == s.ticks - b) && (Is(s.ioT, t) ==> s.ioT.value.begTime == s.ticks - b)
    && forall i :: 0 <= i < |s.done| && s.done[i].t == t ==> s.done[i].running == b
  }

  /** Ticks that pass while `t` is there. */
  ghost function Gain(s: State, e: Event, t: Thread): int { if e.Tick? && Inside(s, t) then 1 else 0 }

  ghost function LifeTicks(s: State, es: seq<Event>, t: Thread): int
    requires Feasible(s, es)
    decreases |es|
  {
    if es == [] then 0 else Gain(s, es[0], t) + LifeTicks(Step(s, es[0]), es[1..], t)
  }

  lemma SortAges(sorted: seq<Times>, q: seq<Times>, t: Thread, beg: int)
    requires multiset(sorted) == multiset(q) && QueueAges(q, t, beg)
    ensures QueueAges(sorted, t, beg)
  {
    forall i | 0 <= i < |sorted| && sorted[i].t == t ensures sorted[i].begTime == beg {
      assert sorted[i] in multiset(sorted);
      assert sorted[i] in q;
    }
  }

  lemma SortedAges(s: State, sorted: seq<Times>, t: Thread, b: int)
    requires multiset(sorted) == multiset(s.ready) && Ages(s, t, b)
    ensures Ages(PrioritySort(s, sorted), t, b)
  {
    SortAges(sorted, s.ready, t, s.ticks - b);
  }

  lemma HeadAges(s: State, t: Thread, b: int)
    requires s.cur == None && Ages(s, t, b)
    ensures Ages(TakeHead(s), t, b)
  {
  }

  lemma RotatedAges(s: State, t: Thread, b: int)
    requires s.cur.Some? && s.ready != [] && Ages(s, t, b)
    ensures Ages(TakeHead(s.(ready := s.ready + [s.cur.value.(lastOn := s.ticks)])), t, b)
  {
  }

  /** A tick moves records about but leaves their times of arrival. */
  lemma DecideAges(s: State, sorted: seq<Times>, t: Thread, b: int)
    requires Enabled(s, Tick(sorted)) && Ages(s, t, b)
    ensures Ages(Decide(s, sorted), t, b) && Decide(s, sorted).ticks == s.ticks
  {
    if SortsReady(s) { SortedAges(s, sorted, t, b); }
    if s.alg == PreemptivePriority {
      if s.cur == None { HeadAges(PrioritySort(s, sorted), t, b); }
    } else if s.cur == None {
      HeadAges(if s.alg == NonPreemptivePriority then PrioritySort(s, sorted) else s, t, b);
    } else if s.ready != [] {
      RotatedAges(s, t, b);
    }
  }

  /** Nobody is twice where it matters. */
  lemma NotDone(s: State, t: Thread)
    requires Places(s, t) <= 1 && Inside(s, t)
    ensures forall i :: 0 <= i < |s.done| ==> s.done[i].t != t
  {
    Absent(s.done, t);
  }

  lemma NotInside(s: State, t: Thread)
    requires !Inside(s, t)
    ensures (forall i :: 0 <= i < |s.ready| ==> s.ready[i].t != t) && (forall i :: 0 <= i < |s.io| ==> s.io[i].t != t)
    ensures !Is(s.cur, t) && !Is(s.ioT, t)
  {
    Absent(s.ready, t);
    Absent(s.io, t);
  }

  /** With the clock moved on. */
  lemma ClockAges(d: State, t: Thread, b: int, total: nat)
    requires Ages(d, t, b) && Places(d, t) <= 1
    ensures Ages(d.(onTotal := total, ticks := d.ticks + 1), t, b + if Inside(d, t) then 1 else 0)
  {
    if Inside(d, t) { NotDone(d, t); } else { NotInside(d, t); }
  }

  /** A tick lets nobody in or out. */
  lemma DecideInside(s: State, sorted: seq<Times>, t: Thread)
    requires Enabled(s, Tick(sorted))
    ensures Inside(Decide(s, sorted), t) <==> Inside(s, t)
  {
    DecideConserves(s, sorted, t);
    assert Decide(s, sorted).done == s.done;
  }

  lemma StepAges(s: State, e: Event, t: Thread, b: int)
    requires Enabled(s, e) && Ages(s, t, b) && Places(s, t) <= 1
    requires e == Exec(t) ==> Places(s, t) == 0 && b == 0
    ensures Ages(Step(s, e), t, b + Gain(s, e, t))
  {
    if e.Tick? {
      DecideAges(s, e.sorted, t, b);
      DecideConserves(s, e.sorted, t);
      DecideInside(s, e.sorted, t);
      ClockAges(Decide(s, e.sorted), t, b, StepTick(s, e.sorted).onTotal);
    } else {
      OtherAges(s, e, t, b);
    }
  }

  lemma OtherAges(s: State, e: Event, t: Thread, b: int)
    requires Enabled(s, e) && !e.Tick? && Ages(s, t, b)
    requires e == Exec(t) ==> Places(s, t) == 0 && b == 0
    ensures Ages(Step(s, e), t, b)
  {
    match e
    case Exec(u) => ExecAges(s, u, t, b);
    case Exit => ExitAges(s, t, b);
    case Read => BlockAges(s, t, b);
    case Write => BlockAges(s, t, b);
    case IoStarting =>
    case IoComplete => CompleteAges(s, t, b);
  }

  lemma ExecAges(s: State, u: Thread, t: Thread, b: int)
    requires Ages(s, t, b) && (u == t ==> Places(s, t) == 0 && b == 0)
    ensures Ages(StepExec(s, u), t, b)
  {
    if u == t {
      Absent(s.ready, t);
      Absent(s.io, t);
      Absent(s.done, t);
    }
  }

  lemma ExitAges(s: State, t: Thread, b: int)
    requires s.cur.Some? && Ages(s, t, b)
    ensures Ages(StepExit(s), t, b)
  {
  }

  lemma BlockAges(s: State, t: Thread, b: int)
    requires s.cur.Some? && Ages(s, t, b)
    ensures Ages(StepBlock(s), t, b)
  {
  }

  lemma CompleteAges(s: State, t: Thread, b: int)
    requires s.ioT.Some? && Ages(s, t, b)
    ensures Ages(StepIoComplete(s), t, b)
  {
  }

  lemma {:induction false} RunAges(s: State, es: seq<Event>, t: Thread, b: int)
    requires Feasible(s, es) && Ages(s, t, b) && Places(s, t) + Executed(es, t) <= 1 && (Places(s, t) == 0 ==> b == 0)
    ensures Ages(After(s, es), t, b + LifeTicks(s, es, t))
    decreases |es|
  {
    if es == [] {
    } else {
      StepConserves(s, es[0], t);
      StepAges(s, es[0], t, b);
      RunAges(Step(s, es[0]), es[1..], t, b + Gain(s, es[0], t));
    }
  }

  /** The turnaround in the record of an exited thread is the number of ticks from its `sys_exec` to its
      `sys_exit`. */
  lemma TurnaroundIsLife(alg: Algorithm, quant: nat, es: seq<Event>, i: nat)
    requires Feasible(Init(alg, quant), es) && i < |After(Init(alg, quant), es).done|
    requires Executed(es, After(Init(alg, quant), es).done[i].t) <= 1
    ensures var r := After(Init(alg, quant), es).done[i]; r.running == LifeTicks(Init(alg, quant), es, r.t)
  {
    RunAges(Init(alg, quant), es, After(Init(alg, quant), es).done[i].t, 0);
  }
}
