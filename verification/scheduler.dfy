/** The CPU scheduler callbacks of Assignment4/scheduler.c as an event machine: one state
    value, one step per callback, and laws about every feasible run of callbacks. */
module Scheduler {
  import opened Wrappers

  datatype Algorithm =
    | FirstComeFirstServed | RoundRobin | NonPreemptivePriority | PreemptivePriority
    | NonPreemptiveShortestJobFirst | PreemptiveShortestJobFirst
    | NonPreemptiveShortestRemainingTimeFirst | PreemptiveShortestRemainingTimeFirst

  datatype Thread = Thread(tid: nat, priority: nat)

  /** The per-thread time record. */
  datatype Times = Times(t: Thread, running: int, waiting: int, lastOn: int, begTime: int)

  datatype State = State(
    alg: Algorithm, quant: nat,
    ready: seq<Times>, io: seq<Times>, done: seq<Times>,
    cur: Option<Times>, ioT: Option<Times>,
    ticks: nat, onTotal: nat)

  /** The callbacks. `Tick` carries the order in which queue_sort left the ready queue,
      which matters only where the code sorts. */
  datatype Event =
    | Exec(t: Thread) | Tick(sorted: seq<Times>) | Exit | Read | Write | IoStarting | IoComplete

  function Init(alg: Algorithm, quant: nat): State {
    State(alg, quant, [], [], [], None, None, 0, 0)
  }

  ghost predicate SortedByPriority(q: seq<Times>) {
    forall i, j :: 0 <= i < j < |q| ==> q[i].t.priority <= q[j].t.priority
  }

  /** queue_sort promises an ordered permutation and nothing about ties. */
  ghost predicate IsSortOf(sorted: seq<Times>, q: seq<Times>) {
    SortedByPriority(sorted) && multiset(sorted) == multiset(q)
  }

  /** Where a tick sorts the ready queue. */
  predicate SortsReady(s: State) {
    s.alg == PreemptivePriority || (s.alg == NonPreemptivePriority && s.cur == None)
  }

  /** When the simulator may make each callback. */
  ghost predicate Enabled(s: State, e: Event) {
    match e
    case Exec(_) => true
    case Tick(sorted) => SortsReady(s) ==> IsSortOf(sorted, s.ready)
    case Exit => s.cur.Some?
    case Read => s.cur.Some?
    case Write => s.cur.Some?
    case IoStarting => s.ioT.Some?
    case IoComplete => s.ioT.Some?
  }

  /** A record that leaves the ready queue for the CPU is charged its wait. */
  function Dispatched(r: Times, now: int): Times {
    r.(waiting := r.waiting + (now - r.lastOn), lastOn := now)
  }

  /** Take the head of the ready queue, if there is one, as the current thread. */
  function TakeHead(s: State): State {
    if s.ready == [] then s.(cur := None)
    else s.(cur := Some(Dispatched(s.ready[0], s.ticks)), ready := s.ready[1..])
  }

  function PrioritySort(s: State, sorted: seq<Times>): State {
    if s.alg == PreemptivePriority && s.cur.Some? && sorted != []
       && sorted[0].t.priority < s.cur.value.t.priority
    then s.(ready := sorted[1..] + [s.cur.value.(lastOn := s.ticks)],
            cur := Some(Dispatched(sorted[0], s.ticks)))
    else s.(ready := sorted)
  }

  function StepExec(s: State, t: Thread): State {
    var ti := Times(t, 0, 0, s.ticks, s.ticks);
    if s.ready == [] && s.cur == None && s.alg != NonPreemptivePriority && s.alg != PreemptivePriority
    then s.(cur := Some(ti))
    else s.(ready := s.ready + [ti])
  }

  /** The scheduling decision of one tick, before the counters move. */
  function Decide(s: State, sorted: seq<Times>): State {
    var s1 := if s.alg == PreemptivePriority then PrioritySort(s, sorted) else s;
    if s1.cur == None then
      var s2 := if s1.alg == NonPreemptivePriority then PrioritySort(s1, sorted) else s1;
      var s3 := TakeHead(s2);
      if s3.cur.Some? then s3.(onTotal := 0) else s3
    else if s1.alg == RoundRobin && s1.onTotal >= s1.quant && s1.ready != [] then
      TakeHead(s1.(ready := s1.ready + [s1.cur.value.(lastOn := s1.ticks)])).(onTotal := 0)
    else s1
  }

  function StepTick(s: State, sorted: seq<Times>): State {
    var d := Decide(s, sorted);
    var total := if d.cur.Some? then d.onTotal + 1 else if d.onTotal == d.quant then 0 else d.onTotal;
    d.(onTotal := total, ticks := d.ticks + 1)
  }

  function StepExit(s: State): State
    requires s.cur.Some?
  {
    s.(done := s.done + [s.cur.value.(running := s.ticks - s.cur.value.begTime)], cur := None)
  }

  /** sys_read and sys_write. */
  function StepBlock(s: State): State
    requires s.cur.Some?
  {
    var r := s.cur.value.(lastOn := s.ticks);
    if s.io == [] && s.ioT == None then s.(ioT := Some(r), cur := None)
    else s.(io := s.io + [r], cur := None)
  }

  function StepIoStarting(s: State): State
    requires s.ioT.Some?
  {
    var r := s.ioT.value;
    s.(ioT := Some(r.(waiting := r.waiting + (s.ticks - 1 - r.lastOn), lastOn := s.ticks)))
  }

  function StepIoComplete(s: State): State
    requires s.ioT.Some?
  {
    var s1 := s.(
      ready := s.ready + [s.ioT.value.(lastOn := s.ticks)],
      ioT := if s.io == [] then None else Some(s.io[0]),
      io := if s.io == [] then [] else s.io[1..]);
    if s1.cur == None then TakeHead(s1) else s1
  }

  function Step(s: State, e: Event): State
    requires Enabled(s, e)
  {
    match e
    case Exec(t) => StepExec(s, t)
    case Tick(sorted) => StepTick(s, sorted)
    case Exit => StepExit(s)
    case Read => StepBlock(s)
    case Write => StepBlock(s)
    case IoStarting => StepIoStarting(s)
    case IoComplete => StepIoComplete(s)
  }

  ghost predicate Feasible(s: State, es: seq<Event>)
    decreases |es|
  {
    es != [] ==> Enabled(s, es[0]) && Feasible(Step(s, es[0]), es[1..])
  }

  ghost function After(s: State, es: seq<Event>): State
    requires Feasible(s, es)
    decreases |es|
  {
    if es == [] then s else After(Step(s, es[0]), es[1..])
  }

  // ----- Bounded waiting under round robin -----------------------------------

  function TickCount(es: seq<Event>): nat {
    if es == [] then 0 else (if es[0].Tick? then 1 else 0) + TickCount(es[1..])
  }

  /** Ticks that can still pass before the thread at ready position `p` is due, less one. */
  function Potential(s: State, p: nat): nat {
    p * s.quant + if s.onTotal < s.quant then s.quant - s.onTotal else 0
  }

  ghost predicate Running(s: State, t: Thread) { s.cur.Some? && s.cur.value.t == t }

  lemma TickKeepsIo(s: State, sorted: seq<Times>)
    ensures var s' := StepTick(s, sorted); s'.io == s.io && s'.ioT == s.ioT && s'.ticks == s.ticks + 1
  {
  }

  /** The thread at ready position `p`, before, is on the CPU, or at position `p'`, after. */
  ghost predicate Advances(s: State, s': State, p: nat, p': nat, fall: nat)
    requires p < |s.ready|
  {
    || Running(s', s.ready[p].t)
    || (p' < |s'.ready| && s'.ready[p'].t == s.ready[p].t && Potential(s', p') + fall <= Potential(s, p))
  }

  lemma PotentialTick(s: State, sorted: seq<Times>, p: nat) returns (p': nat)
    requires s.alg == RoundRobin && s.quant >= 1 && p < |s.ready|
    ensures Advances(s, StepTick(s, sorted), p, p', 1)
    ensures StepTick(s, sorted).alg == RoundRobin && StepTick(s, sorted).quant == s.quant
  {
    p' := if p > 0 && (s.cur == None || s.onTotal >= s.quant) then p - 1 else p;
    if p > 0 { OneLess(p, s.quant); }
  }

  lemma PotentialOther(s: State, e: Event, p: nat) returns (p': nat)
    requires s.alg == RoundRobin && s.quant >= 1 && p < |s.ready| && Enabled(s, e) && !e.Tick?
    ensures Advances(s, Step(s, e), p, p', 0)
    ensures Step(s, e).alg == RoundRobin && Step(s, e).quant == s.quant
  {
    p' := if p > 0 && e.IoComplete? && s.cur == None then p - 1 else p;
    if p > 0 { OneLess(p, s.quant); }
  }

  lemma OneLess(p: int, q: int)
    ensures p * q == (p - 1) * q + q
  {
  }

  /** One callback either dispatches the thread at position `p` or leaves it in the ready
      queue with a potential that never rises and falls on every tick. */
  lemma PotentialStep(s: State, e: Event, p: nat) returns (p': nat)
    requires s.alg == RoundRobin && s.quant >= 1 && p < |s.ready| && Enabled(s, e)
    ensures Step(s, e).alg == RoundRobin && Step(s, e).quant == s.quant
    ensures Advances(s, Step(s, e), p, p', if e.Tick? then 1 else 0)
  {
    if e.Tick? { p' := PotentialTick(s, e.sorted, p); } else { p' := PotentialOther(s, e, p); }
  }

  lemma {:induction false} Waits(s: State, es: seq<Event>, p: nat) returns (i: nat)
    requires s.alg == RoundRobin && s.quant >= 1 && p < |s.ready| && Feasible(s, es)
    requires TickCount(es) >= Potential(s, p) + 1
    ensures 0 < i <= |es| && TickCount(es[..i]) <= Potential(s, p) + 1
    ensures Feasible(s, es[..i]) && Running(After(s, es[..i]), s.ready[p].t)
    decreases |es|
  {
    var e, rest := es[0], es[1..];
    var s' := Step(s, e);
    var p' := PotentialStep(s, e, p);
    var n: nat;
    if Running(s', s.ready[p].t) {
      n := 0;
      assert rest[..n] == [];
    } else {
      n := Waits(s', rest, p');
    }
    i := n + 1;
    assert es[..i][0] == e && es[..i][1..] == rest[..n];
  }

  /** Bounded waiting: with quantum `q`, the thread at ready position `p` is dispatched within
      `(p + 1) * q + 1` ticks, whatever other callbacks interleave. */
  lemma BoundedWaiting(s: State, es: seq<Event>, p: nat)
    requires s.alg == RoundRobin && s.quant >= 1 && p < |s.ready| && Feasible(s, es)
    requires TickCount(es) >= (p + 1) * s.quant + 1
    ensures exists i :: 0 < i <= |es| && Feasible(s, es[..i])
                        && TickCount(es[..i]) <= (p + 1) * s.quant + 1
                        && Running(After(s, es[..i]), s.ready[p].t)
  {
    OneLess(p + 1, s.quant);
    var i := Waits(s, es, p);
  }

  // ----- Conservation ---------------------------------------------------------

  /** How often a thread occurs in a queue. */
  function Occ(q: seq<Times>, t: Thread): nat {
    if q == [] then 0 else (if q[0].t == t then 1 else 0) + Occ(q[1..], t)
  }

  function OccOpt(o: Option<Times>, t: Thread): nat {
    if o.Some? && o.value.t == t then 1 else 0
  }

  /** How often a thread occurs in the five places it can be. */
  function Places(s: State, t: Thread): nat {
    Occ(s.ready, t) + Occ(s.io, t) + Occ(s.done, t) + OccOpt(s.cur, t) + OccOpt(s.ioT, t)
  }

  /** How often a run executes a thread. */
  function Executed(es: seq<Event>, t: Thread): nat {
    if es == [] then 0 else (if es[0] == Exec(t) then 1 else 0) + Executed(es[1..], t)
  }

  lemma {:induction false} OccConcat(a: seq<Times>, b: seq<Times>, t: Thread)
    ensures Occ(a + b, t) == Occ(a, t) + Occ(b, t)
  {
    if a == [] {
      assert a + b == b;
    } else {
      assert (a + b)[1..] == a[1..] + b;
      OccConcat(a[1..], b, t);
    }
  }

  lemma OccSnoc(q: seq<Times>, r: Times, t: Thread)
    ensures Occ(q + [r], t) == Occ(q, t) + if r.t == t then 1 else 0
  {
    OccConcat(q, [r], t);
  }

  lemma OccRemove(b: seq<Times>, i: nat, t: Thread)
    requires i < |b|
    ensures Occ(b, t) == Occ(b[..i] + b[i + 1..], t) + if b[i].t == t then 1 else 0
  {
    var u, v := b[..i], b[i + 1..];
    assert b == (u + [b[i]]) + v;
    OccConcat(u + [b[i]], v, t);
    OccSnoc(u, b[i], t);
    OccConcat(u, v, t);
  }

  lemma RestOfMultiset<T>(a: seq<T>, b: seq<T>, i: nat)
    requires a != [] && i < |b| && b[i] == a[0] && multiset(a) == multiset(b)
    ensures multiset(a[1..]) == multiset(b[..i] + b[i + 1..])
  {
    var c := b[..i] + b[i + 1..];
    assert a == [a[0]] + a[1..];
    assert multiset(a[1..]) == multiset(a) - multiset{a[0]};
    assert b == b[..i] + [b[i]] + b[i + 1..];
    assert multiset(c) == multiset(b) - multiset{b[i]};
  }

  lemma {:induction false} OccPermutation(a: seq<Times>, b: seq<Times>, t: Thread)
    requires multiset(a) == multiset(b)
    ensures Occ(a, t) == Occ(b, t)
    decreases |a|
  {
    if a == [] {
      assert |b| == |multiset(b)| == |multiset(a)|;
    } else {
      assert a[0] in multiset(a);
      assert a[0] in b;
      var i :| 0 <= i < |b| && b[i] == a[0];
      RestOfMultiset(a, b, i);
      OccPermutation(a[1..], b[..i] + b[i + 1..], t);
      OccRemove(b, i, t);
    }
  }

  lemma SortConserves(s: State, sorted: seq<Times>, t: Thread)
    requires IsSortOf(sorted, s.ready)
    ensures Places(PrioritySort(s, sorted), t) == Places(s, t)
  {
    OccPermutation(sorted, s.ready, t);
    if s.cur.Some? && sorted != [] {
      OccSnoc(sorted[1..], s.cur.value.(lastOn := s.ticks), t);
    }
  }

  lemma DecideConserves(s: State, sorted: seq<Times>, t: Thread)
    requires SortsReady(s) ==> IsSortOf(sorted, s.ready)
    ensures Places(Decide(s, sorted), t) == Places(s, t)
  {
    if SortsReady(s) { SortConserves(s, sorted, t); }
    if s.cur.Some? {
      OccSnoc(s.ready, s.cur.value.(lastOn := s.ticks), t);
    }
  }

  /** No callback loses or duplicates a thread; `sys_exec` adds exactly the new one. */
  lemma StepConserves(s: State, e: Event, t: Thread)
    requires Enabled(s, e)
    ensures Places(Step(s, e), t) == Places(s, t) + if e == Exec(t) then 1 else 0
  {
    match e
    case Exec(u) => OccSnoc(s.ready, Times(u, 0, 0, s.ticks, s.ticks), t);
    case Tick(sorted) => DecideConserves(s, sorted, t);
    case Exit => OccSnoc(s.done, s.cur.value.(running := s.ticks - s.cur.value.begTime), t);
    case Read => OccSnoc(s.io, s.cur.value.(lastOn := s.ticks), t);
    case Write => OccSnoc(s.io, s.cur.value.(lastOn := s.ticks), t);
    case IoStarting =>
    case IoComplete => OccSnoc(s.ready, s.ioT.value.(lastOn := s.ticks), t);
  }

  /** In every run each thread is in the five places exactly as often as it was executed,
      and the I/O device is never idle while its queue is not empty. */
  lemma {:induction false} RunConserves(s: State, es: seq<Event>, t: Thread)
    requires Feasible(s, es) && (s.ioT == None ==> s.io == [])
    ensures Places(After(s, es), t) == Places(s, t) + Executed(es, t)
    ensures After(s, es).ioT == None ==> After(s, es).io == []
    decreases |es|
  {
    if es == [] {
    } else {
      StepConserves(s, es[0], t);
      RunConserves(Step(s, es[0]), es[1..], t);
    }
  }

  // ----- Time accounting --------------------------------------------------------

  ghost predicate Is(o: Option<Times>, t: Thread) { o.Some? && o.value.t == t }

  /** Time between arrival and the record's last charge that is not charged as waiting. */
  function Uncharged(r: Times): int { r.lastOn - r.begTime - r.waiting }

  ghost predicate QueueOwes(q: seq<Times>, t: Thread, b: int) {
    forall i :: 0 <= i < |q| && q[i].t == t ==> Uncharged(q[i]) == b
  }

  /** Every record of `t`, wherever it is, has `b` units of its lifetime not charged as waiting. */
  ghost predicate Owes(s: State, t: Thread, b: int) {
    && QueueOwes(s.ready, t, b)
    && QueueOwes(s.io, t, b)
    && (Is(s.ioT, t) ==> Uncharged(s.ioT.value) == b)
    && (Is(s.cur, t) ==> s.ticks - s.cur.value.begTime - s.cur.value.waiting == b)
    && (forall i :: 0 <= i < |s.done| && s.done[i].t == t ==> s.done[i].running - s.done[i].waiting == b)
  }

  /** A tick that ends with `t` as the current thread is a tick `t` spent on the CPU. */
  ghost function CpuGain(s: State, e: Event, t: Thread): int
    requires Enabled(s, e)
  {
    if e.Tick? && Is(Step(s, e).cur, t) then 1 else 0
  }

  /** What I/O consumes without being charged as waiting: the one tick `io_starting` holds back,
      and everything between the last charge and `io_complete`. */
  ghost function IoGain(s: State, e: Event, t: Thread): int {
    if !Is(s.ioT, t) then 0
    else if e.IoStarting? then 1
    else if e.IoComplete? then s.ticks - s.ioT.value.lastOn
    else 0
  }

  lemma {:induction false} Absent(q: seq<Times>, t: Thread)
    requires Occ(q, t) == 0
    ensures forall i :: 0 <= i < |q| ==> q[i].t != t
  {
    if q == [] {
    } else {
      Absent(q[1..], t);
      assert forall i :: 0 < i < |q| ==> q[i] == q[1..][i - 1];
    }
  }

  lemma SortOwes(sorted: seq<Times>, q: seq<Times>, t: Thread, b: int)
    requires multiset(sorted) == multiset(q) && QueueOwes(q, t, b)
    ensures QueueOwes(sorted, t, b)
  {
    forall i | 0 <= i < |sorted| && sorted[i].t == t ensures Uncharged(sorted[i]) == b {
      assert sorted[i] in multiset(sorted);
      assert sorted[i] in q;
    }
  }

  lemma TakeHeadOwes(s: State, t: Thread, b: int)
    requires s.cur == None && Owes(s, t, b)
    ensures Owes(TakeHead(s), t, b)
  {
  }

  lemma PrioritySortOwes(s: State, sorted: seq<Times>, t: Thread, b: int)
    requires IsSortOf(sorted, s.ready) && Owes(s, t, b)
    ensures Owes(PrioritySort(s, sorted), t, b)
  {
    SortOwes(sorted, s.ready, t, b);
  }

  lemma RotateOwes(s: State, t: Thread, b: int)
    requires s.cur.Some? && s.ready != [] && Owes(s, t, b)
    ensures Owes(TakeHead(s.(ready := s.ready + [s.cur.value.(lastOn := s.ticks)])), t, b)
  {
  }

  lemma DecideOwes(s: State, sorted: seq<Times>, t: Thread, b: int)
    requires (SortsReady(s) ==> IsSortOf(sorted, s.ready)) && Owes(s, t, b)
    ensures Owes(Decide(s, sorted), t, b) && Decide(s, sorted).ticks == s.ticks
  {
    if SortsReady(s) { PrioritySortOwes(s, sorted, t, b); }
    if s.alg == PreemptivePriority {
      var s1 := PrioritySort(s, sorted);
      if s1.cur == None { TakeHeadOwes(s1, t, b); }
    } else if s.cur == None {
      TakeHeadOwes(if s.alg == NonPreemptivePriority then PrioritySort(s, sorted) else s, t, b);
    } else if s.ready != [] {
      RotateOwes(s, t, b);
    }
  }

  /** A thread that occurs at most once: one callback moves its uncharged time by exactly
      the CPU tick or the I/O time that the callback gave it. */
  lemma TickOwes(s: State, sorted: seq<Times>, t: Thread, b: int)
    requires (SortsReady(s) ==> IsSortOf(sorted, s.ready)) && Owes(s, t, b) && Places(s, t) <= 1
    ensures Owes(StepTick(s, sorted), t, b + CpuGain(s, Tick(sorted), t))
  {
    DecideOwes(s, sorted, t, b);
    DecideConserves(s, sorted, t);
    var d := Decide(s, sorted);
    if Is(d.cur, t) {
      Absent(d.ready, t);
      Absent(d.io, t);
      Absent(d.done, t);
    }
  }

  lemma IoOwes(s: State, e: Event, t: Thread, b: int)
    requires Enabled(s, e) && (e.IoStarting? || e.IoComplete?) && Owes(s, t, b) && Places(s, t) <= 1
    ensures Owes(Step(s, e), t, b + IoGain(s, e, t))
  {
    if Is(s.ioT, t) {
      Absent(s.ready, t);
      Absent(s.io, t);
      Absent(s.done, t);
    }
  }

  lemma StepOwes(s: State, e: Event, t: Thread, b: int)
    requires Enabled(s, e) && Owes(s, t, b) && Places(s, t) <= 1
    requires e == Exec(t) ==> Places(s, t) == 0 && b == 0
    ensures Owes(Step(s, e), t, b + CpuGain(s, e, t) + IoGain(s, e, t))
  {
    if e.Tick? {
      TickOwes(s, e.sorted, t, b);
    } else if e.IoStarting? || e.IoComplete? {
      IoOwes(s, e, t, b);
    } else {
      CpuOwes(s, e, t, b);
    }
  }

  lemma CpuOwes(s: State, e: Event, t: Thread, b: int)
    requires Enabled(s, e) && (e.Exec? || e.Exit? || e.Read? || e.Write?) && Owes(s, t, b)
    requires e == Exec(t) ==> Places(s, t) == 0 && b == 0
    ensures Owes(Step(s, e), t, b)
  {
    if e == Exec(t) {
      Absent(s.ready, t);
      Absent(s.io, t);
      Absent(s.done, t);
    }
  }

  /** Ticks of a run that `t` spends as the current thread. */
  ghost function CpuTicks(s: State, es: seq<Event>, t: Thread): int
    requires Feasible(s, es)
    decreases |es|
  {
    if es == [] then 0 else CpuGain(s, es[0], t) + CpuTicks(Step(s, es[0]), es[1..], t)
  }

  ghost function IoTicks(s: State, es: seq<Event>, t: Thread): int
    requires Feasible(s, es)
    decreases |es|
  {
    if es == [] then 0 else IoGain(s, es[0], t) + IoTicks(Step(s, es[0]), es[1..], t)
  }

  lemma {:induction false} RunOwes(s: State, es: seq<Event>, t: Thread, b: int)
    requires Feasible(s, es) && Owes(s, t, b) && Places(s, t) + Executed(es, t) <= 1
    requires Places(s, t) == 0 ==> b == 0
    ensures Owes(After(s, es), t, b + CpuTicks(s, es, t) + IoTicks(s, es, t))
    decreases |es|
  {
    if es == [] {
    } else {
      var s' := Step(s, es[0]);
      StepConserves(s, es[0], t);
      StepOwes(s, es[0], t, b);
      RunOwes(s', es[1..], t, b + CpuGain(s, es[0], t) + IoGain(s, es[0], t));
    }
  }

  /** Ticks since the service of `t` last started or, if no start was announced, since its request. */
  ghost function Since(s: State, e: Event, t: Thread, n: nat): nat {
    if e.Tick? then n + 1
    else if ((e.Read? || e.Write?) && Is(s.cur, t)) || (e.IoStarting? && Is(s.ioT, t)) then 0
    else n
  }

  /** I/O time of `t` counted from the callbacks alone: one tick for each time its service starts,
      and, at its completion, the ticks `n` since then. */
  ghost function IoSpent(s: State, e: Event, t: Thread, n: nat): nat {
    if e.IoStarting? && Is(s.ioT, t) then 1 else if e.IoComplete? && Is(s.ioT, t) then n else 0
  }

  ghost function IoTime(s: State, es: seq<Event>, t: Thread, n: nat): int
    requires Feasible(s, es)
    decreases |es|
  {
    if es == [] then 0 else IoSpent(s, es[0], t, n) + IoTime(Step(s, es[0]), es[1..], t, Since(s, es[0], t, n))
  }

  /** While `t` is in I/O, its record was last charged `n` ticks ago. */
  ghost predicate ChargedAgo(s: State, t: Thread, n: int) {
    && (Is(s.ioT, t) ==> s.ticks - s.ioT.value.lastOn == n)
    && (forall i :: 0 <= i < |s.io| && s.io[i].t == t ==> s.ticks - s.io[i].lastOn == n)
  }

  lemma TickCharged(s: State, e: Event, t: Thread, n: int)
    requires Enabled(s, e) && ChargedAgo(s, t, n)
    requires e.Tick? || e.Exec? || e.Exit?
    ensures ChargedAgo(Step(s, e), t, n + if e.Tick? then 1 else 0)
  {
    if e.Tick? { TickKeepsIo(s, e.sorted); }
  }

  lemma IoCharged(s: State, e: Event, t: Thread, n: int)
    requires Enabled(s, e) && ChargedAgo(s, t, n) && Places(s, t) <= 1
    requires !(e.Tick? || e.Exec? || e.Exit?)
    ensures ChargedAgo(Step(s, e), t,
              if ((e.Read? || e.Write?) && Is(s.cur, t)) || (e.IoStarting? && Is(s.ioT, t)) then 0 else n)
  {
    if Is(s.cur, t) || Is(s.ioT, t) { Absent(s.io, t); }
  }

  lemma SinceCharged(s: State, e: Event, t: Thread, n: nat)
    requires Enabled(s, e) && ChargedAgo(s, t, n) && Places(s, t) <= 1
    ensures ChargedAgo(Step(s, e), t, Since(s, e, t, n)) && IoSpent(s, e, t, n) == IoGain(s, e, t)
  {
    if e.Tick? || e.Exec? || e.Exit? { TickCharged(s, e, t, n); } else { IoCharged(s, e, t, n); }
  }

  /** The I/O time counted from the callbacks is what the records leave uncharged. */
  lemma {:induction false} IoTimeIsIoTicks(s: State, es: seq<Event>, t: Thread, n: nat)
    requires Feasible(s, es) && ChargedAgo(s, t, n) && Places(s, t) + Executed(es, t) <= 1
    ensures IoTime(s, es, t, n) == IoTicks(s, es, t)
    decreases |es|
  {
    if es == [] {
    } else {
      StepConserves(s, es[0], t);
      SinceCharged(s, es[0], t, n);
      IoTimeIsIoTicks(Step(s, es[0]), es[1..], t, Since(s, es[0], t, n));
    }
  }

  /** Turnaround = waiting + ticks as current + I/O time, for every thread that has exited in
      any run that executed it once, under every algorithm. */
  lemma TurnaroundLaw(alg: Algorithm, quant: nat, es: seq<Event>, i: nat)
    requires Feasible(Init(alg, quant), es)
    requires i < |After(Init(alg, quant), es).done|
    requires Executed(es, After(Init(alg, quant), es).done[i].t) <= 1
    ensures var s := Init(alg, quant);
            var r := After(s, es).done[i];
            r.running == r.waiting + CpuTicks(s, es, r.t) + IoTime(s, es, r.t, 0)
  {
    var s := Init(alg, quant);
    RunOwes(s, es, After(s, es).done[i].t, 0);
    IoTimeIsIoTicks(s, es, After(s, es).done[i].t, 0);
  }

  /** `t` makes no I/O request in the run. */
  ghost predicate NoIoRequest(s: State, es: seq<Event>, t: Thread)
    requires Feasible(s, es)
    decreases |es|
  {
    es != [] ==>
      && (es[0].Read? || es[0].Write? ==> !Is(s.cur, t))
      && NoIoRequest(Step(s, es[0]), es[1..], t)
  }

  lemma NoIoStep(s: State, e: Event, t: Thread)
    requires Enabled(s, e) && Occ(s.io, t) == 0 && !Is(s.ioT, t)
    requires e.Read? || e.Write? ==> !Is(s.cur, t)
    ensures Occ(Step(s, e).io, t) == 0 && !Is(Step(s, e).ioT, t) && IoGain(s, e, t) == 0
  {
    if e.Tick? { TickKeepsIo(s, e.sorted); }
    if e.Read? || e.Write? { OccSnoc(s.io, s.cur.value.(lastOn := s.ticks), t); }
  }

  lemma {:induction false} NoIoNoIoTicks(s: State, es: seq<Event>, t: Thread)
    requires Feasible(s, es) && NoIoRequest(s, es, t) && Occ(s.io, t) == 0 && !Is(s.ioT, t)
    ensures IoTicks(s, es, t) == 0
    decreases |es|
  {
    if es == [] {
    } else {
      NoIoStep(s, es[0], t);
      NoIoNoIoTicks(Step(s, es[0]), es[1..], t);
    }
  }

  /** A thread that exits without I/O has turnaround = waiting time + ticks spent as current. */
  lemma TurnaroundWithoutIo(alg: Algorithm, quant: nat, es: seq<Event>, i: nat)
    requires Feasible(Init(alg, quant), es)
    requires i < |After(Init(alg, quant), es).done|
    requires Executed(es, After(Init(alg, quant), es).done[i].t) <= 1
    requires NoIoRequest(Init(alg, quant), es, After(Init(alg, quant), es).done[i].t)
    ensures var s := Init(alg, quant);
            var r := After(s, es).done[i];
            r.running == r.waiting + CpuTicks(s, es, r.t)
  {
    TurnaroundLaw(alg, quant, es, i);
    IoTimeIsIoTicks(Init(alg, quant), es, After(Init(alg, quant), es).done[i].t, 0);
    NoIoNoIoTicks(Init(alg, quant), es, After(Init(alg, quant), es).done[i].t);
  }

  // ----- Priority scheduling ------------------------------------------------------

  ghost predicate BestIsCurrent(s: State) {
    s.cur.Some? ==> forall i :: 0 <= i < |s.ready| ==> s.cur.value.t.priority <= s.ready[i].t.priority
  }

  /** After every tick of preemptive priority no ready thread beats the current one, and the
      CPU is idle only if nothing is ready, whatever happened since the last tick. */
  lemma PreemptiveTickRunsBest(s: State, sorted: seq<Times>)
    requires s.alg == PreemptivePriority && Enabled(s, Tick(sorted))
    ensures BestIsCurrent(StepTick(s, sorted))
    ensures StepTick(s, sorted).cur == None ==> StepTick(s, sorted).ready == []
  {
  }

  /** A non-preemptive tick that finds the CPU idle dispatches a best ready thread. */
  lemma NonPreemptiveTickPicksBest(s: State, sorted: seq<Times>)
    requires s.alg == NonPreemptivePriority && Enabled(s, Tick(sorted)) && s.cur == None
    ensures BestIsCurrent(StepTick(s, sorted))
    ensures StepTick(s, sorted).cur == None ==> s.ready == []
  {
    assert |multiset(sorted)| == |multiset(s.ready)|;
  }

  /** `io_complete` dispatches without sorting: with the CPU idle it runs the oldest ready
      thread, which is a best one in every case exactly when arrival order agrees with it. */
  lemma IoCompleteIgnoresPriority(s: State)
    requires s.cur == None && s.ioT.Some?
    ensures var q := s.ready + [s.ioT.value];
            BestIsCurrent(StepIoComplete(s)) <==>
            forall i :: 0 <= i < |q| ==> q[0].t.priority <= q[i].t.priority
  {
    var q := s.ready + [s.ioT.value];
    var s' := StepIoComplete(s);
    assert s'.cur.value.t == q[0].t;
    assert |s'.ready| == |q| - 1 && forall i :: 0 <= i < |s'.ready| ==> s'.ready[i].t == q[i + 1].t;
    if BestIsCurrent(s') {
      forall i | 0 <= i < |q| ensures q[0].t.priority <= q[i].t.priority {
        if i > 0 { assert s'.ready[i - 1].t == q[i].t; }
      }
    }
  }

  /** A run in which it does not: a low-priority thread is dispatched past a better one. */
  lemma IoCompleteInversion()
    ensures exists es ::
              && Feasible(Init(NonPreemptivePriority, 1), es)
              && !BestIsCurrent(After(Init(NonPreemptivePriority, 1), es))
  {
    var hi := Thread(1, 0);
    var arrived := Times(hi, 0, 0, 0, 0);
    var s0 := Init(NonPreemptivePriority, 1);
    var s1 := s0.(ready := [arrived]);
    var s2 := s0.(cur := Some(arrived), onTotal := 1, ticks := 1);
    var s3 := s0.(ioT := Some(arrived.(lastOn := 1)), onTotal := 1, ticks := 1);
    var e3 := InversionTail(s3);
    var e2 := [Read] + e3;            RunCons(s2, Read, e3, s3);
    var e1 := [Tick([arrived])] + e2; RunCons(s1, Tick([arrived]), e2, s2);
    RunCons(s0, Exec(hi), e1, s1);
    assert Feasible(s0, [Exec(hi)] + e1) && After(s0, [Exec(hi)] + e1) == After(s3, e3);
  }

  lemma InversionTail(s3: State) returns (es: seq<Event>)
    requires s3.alg == NonPreemptivePriority && s3.ready == [] && s3.cur == None && s3.ioT.Some?
    ensures Feasible(s3, es) && !BestIsCurrent(After(s3, es))
  {
    var mid, lo := Thread(2, 1), Thread(3, 2);
    var s4 := Step(s3, Exec(lo));
    var s5 := Step(s4, Exec(mid));
    var s6 := Step(s5, IoComplete);
    assert s6.cur.value.t == lo && s6.ready[0].t == mid;
    var e5 := [IoComplete] + [];      RunCons(s5, IoComplete, [], s6);
    var e4 := [Exec(mid)] + e5;       RunCons(s4, Exec(mid), e5, s5);
    es := [Exec(lo)] + e4;            RunCons(s3, Exec(lo), e4, s4);
  }

  lemma RunCons(s: State, e: Event, rest: seq<Event>, s': State)
    requires Enabled(s, e) && s' == Step(s, e) && Feasible(s', rest)
    ensures Feasible(s, [e] + rest) && After(s, [e] + rest) == After(s', rest)
  {
    assert ([e] + rest)[1..] == rest;
  }
}
