/** Kernel threads, semaphores and the sleep list of Lab1/pintos after boot. One step is one
    section that runs with interrupts off: thread.c, semaphore.c and timer.c on one CPU. */
module Kernel {
  import opened Wrappers

  type Tid = nat
  type SemId = nat

  datatype Status = Running | Ready | Blocked | Dying

  datatype Sema = Sema(value: nat, waiters: seq<Tid>)

  datatype Sleeper = Sleeper(t: Tid, wake: int)

  /** `status` has an entry for every thread page not yet freed. `inDown` maps a thread inside
      the loop of semaphore_down to its semaphore: waiting, or woken and not yet rechecked. */
  datatype State = State(
    status: map<Tid, Status>,
    ready: seq<Tid>,
    cur: Tid,
    sems: seq<Sema>,
    inDown: map<Tid, SemId>,
    sleepers: seq<Sleeper>,
    ticks: int,
    idle: Tid,
    initial: Tid)

  ghost predicate NoDup<T>(s: seq<T>) {
    forall i, j :: 0 <= i < j < |s| ==> s[i] != s[j]
  }

  // ----- Invariant -----------------------------------------------------------------

  ghost predicate Has(k: State, t: Tid, s: Status) { t in k.status && k.status[t] == s }

  /** Exactly one thread runs; the idle thread is alive; only the initial thread's page
      outlives its death. */
  ghost predicate CpuOk(k: State) {
    && (forall t :: Has(k, t, Running) <==> t == k.cur)
    && k.idle in k.status && k.status[k.idle] != Dying && k.idle != k.initial
    && (forall t :: Has(k, t, Dying) ==> t == k.initial)
  }

  /** Between marking the current thread and choosing the next one, nobody runs. */
  ghost predicate SwitchOk(k: State) {
    && (forall t :: !Has(k, t, Running))
    && k.cur in k.status
    && k.idle in k.status && k.status[k.idle] != Dying && k.idle != k.initial
    && (forall t :: Has(k, t, Dying) ==> t == k.initial || t == k.cur)
  }

  /** A thread other than idle is ready exactly when it is on the run queue, once. */
  ghost predicate ReadyOk(k: State) {
    && NoDup(k.ready)
    && (forall t :: t in k.ready <==> Has(k, t, Ready) && t != k.idle)
  }

  ghost predicate SleepsIn(q: seq<Sleeper>, t: Tid) {
    exists i :: 0 <= i < |q| && q[i].t == t
  }

  /** Wait lists hold blocked threads only; a thread is on at most one of them. */
  ghost predicate WaitersOk(k: State) {
    && (forall s :: 0 <= s < |k.sems| ==> NoDup(k.sems[s].waiters))
    && (forall s, t :: 0 <= s < |k.sems| && t in k.sems[s].waiters ==>
          Has(k, t, Blocked) && t != k.idle && t in k.inDown && k.inDown[t] == s)
    && (forall t :: t in k.inDown ==>
          t in k.status && t != k.idle && k.inDown[t] < |k.sems| && k.status[t] != Dying)
  }

  /** Ordered by deadline, each thread once. */
  ghost predicate InOrder(q: seq<Sleeper>) {
    forall i, j :: 0 <= i < j < |q| ==> q[i].t != q[j].t && q[i].wake <= q[j].wake
  }

  ghost predicate SleepersOk(k: State) {
    && InOrder(k.sleepers)
    && (forall i :: 0 <= i < |k.sleepers| ==>
          Has(k, k.sleepers[i].t, Blocked) && k.sleepers[i].t != k.idle && k.sleepers[i].t !in k.inDown)
  }

  /** Every blocked thread other than idle waits for something. */
  ghost predicate BlockedWait(k: State) {
    forall t :: Has(k, t, Blocked) && t != k.idle ==>
      if t in k.inDown then k.inDown[t] < |k.sems| && t in k.sems[k.inDown[t]].waiters
      else SleepsIn(k.sleepers, t)
  }

  ghost predicate ListsOk(k: State) {
    ReadyOk(k) && WaitersOk(k) && SleepersOk(k) && BlockedWait(k)
  }

  ghost predicate Awake(k: State) {
    forall i :: 0 <= i < |k.sleepers| ==> k.sleepers[i].wake > k.ticks
  }

  ghost predicate Inv(k: State) {
    CpuOk(k) && ListsOk(k) && Awake(k)
  }

  // ----- thread.c -------------------------------------------------------------------

  /** next_thread_to_run, the switch, and thread_schedule_tail: the next thread runs, and the
      page of a dying predecessor is freed unless it is the initial thread's. */
  function Schedule(k: State): State
    requires k.cur in k.status
  {
    var next := if k.ready == [] then k.idle else k.ready[0];
    var status := if k.status[k.cur] == Dying && k.cur != k.initial && next != k.cur
                  then k.status - {k.cur} else k.status;
    k.(cur := next, ready := if k.ready == [] then [] else k.ready[1..], status := status[next := Running])
  }

  function MarkCur(k: State, s: Status): State { k.(status := k.status[k.cur := s]) }

  function ThreadBlock(k: State): State { Schedule(MarkCur(k, Blocked)) }

  /** thread_unblock; that the thread is blocked is asserted by the code. */
  function ThreadUnblock(k: State, t: Tid): State
    requires t in k.status && k.status[t] == Blocked
  {
    k.(ready := k.ready + [t], status := k.status[t := Ready])
  }

  function ThreadYield(k: State): State {
    Schedule(MarkCur(if k.cur == k.idle then k else k.(ready := k.ready + [k.cur]), Ready))
  }

  function ThreadExit(k: State): State { Schedule(MarkCur(k, Dying)) }

  /** thread_create: a fresh page, initialized as blocked, then unblocked. */
  function ThreadCreate(k: State, t: Tid): State
    requires t !in k.status
  {
    ThreadUnblock(k.(status := k.status[t := Blocked]), t)
  }

  /** The next thread was ready, or is the idle thread of an empty run queue; it is never dying. */
  lemma NextIsSchedulable(k: State)
    requires SwitchOk(k) && ReadyOk(k)
    ensures var next := Schedule(k).cur;
            && next in k.status && k.status[next] != Dying
            && (if k.ready == [] then next == k.idle else next == k.ready[0] && Has(k, next, Ready) && next != k.idle)
  {
    if k.ready != [] { assert k.ready[0] in k.ready; }
  }

  lemma ScheduleStatus(k: State)
    requires SwitchOk(k) && ReadyOk(k)
    ensures var k' := Schedule(k);
            forall t, s :: Has(k', t, s) <==>
              if t == k'.cur then s == Running
              else Has(k, t, s) && !(t == k.cur && s == Dying && t != k.initial)
  {
    NextIsSchedulable(k);
  }

  lemma ScheduleReady(k: State)
    requires SwitchOk(k) && ReadyOk(k)
    ensures ReadyOk(Schedule(k))
  {
    var k' := Schedule(k);
    NextIsSchedulable(k);
    ScheduleStatus(k);
    forall t ensures t in k'.ready <==> Has(k', t, Ready) && t != k.idle {
      if k.ready != [] { assert k.ready == [k'.cur] + k'.ready; }
      assert t in k.ready <==> Has(k, t, Ready) && t != k.idle;
    }
  }

  /** What a step must keep for the wait lists to stay correct when they do not change. */
  lemma WaitFrame(k: State, k': State)
    requires WaitersOk(k) && SleepersOk(k) && BlockedWait(k)
    requires k'.sems == k.sems && k'.inDown == k.inDown && k'.sleepers == k.sleepers && k'.idle == k.idle
    requires forall t :: t != k.idle ==> (Has(k', t, Blocked) <==> Has(k, t, Blocked))
    requires forall t :: t in k.inDown ==> t in k'.status && k'.status[t] != Dying
    ensures WaitersOk(k') && SleepersOk(k') && BlockedWait(k')
  {
    forall s, t | 0 <= s < |k'.sems| && t in k'.sems[s].waiters
      ensures Has(k', t, Blocked) && t != k'.idle && t in k'.inDown && k'.inDown[t] == s
    {
      assert Has(k, t, Blocked) && t != k.idle;
    }
    forall i | 0 <= i < |k.sleepers| ensures Has(k', k.sleepers[i].t, Blocked) {
      assert Has(k, k.sleepers[i].t, Blocked);
    }
  }

  /** Scheduling from a state in which the current thread has left RUNNING. */
  lemma ScheduleInv(k: State)
    requires SwitchOk(k) && ListsOk(k) && Awake(k)
    ensures Inv(Schedule(k))
  {
    var k' := Schedule(k);
    NextIsSchedulable(k);
    ScheduleStatus(k);
    ScheduleReady(k);
    forall t | t != k.idle ensures Has(k', t, Blocked) <==> Has(k, t, Blocked) {
      if t == k'.cur { assert Has(k, t, Ready); }
    }
    forall t | t in k.inDown ensures t in k'.status && k'.status[t] != Dying {
      assert Has(k, t, k.status[t]);
      if t != k'.cur { assert Has(k', t, k.status[t]); }
    }
    WaitFrame(k, k');
    assert CpuOk(k') by {
      assert Has(k', k'.cur, Running);
      if k.idle != k'.cur { assert Has(k', k.idle, k.status[k.idle]); }
    }
  }

  // ----- semaphore.c and timer.c --------------------------------------------------------

  /** One pass of the loop of semaphore_down by the current thread: wait, or take a unit. */
  function DownStep(k: State, s: SemId): State
    requires s < |k.sems|
  {
    var m := k.sems[s];
    if m.value == 0 then
      ThreadBlock(k.(sems := k.sems[s := m.(waiters := m.waiters + [k.cur])], inDown := k.inDown[k.cur := s]))
    else
      k.(sems := k.sems[s := m.(value := m.value - 1)], inDown := k.inDown - {k.cur})
  }

  /** semaphore_up: unblock the longest-waiting thread, if any, and add a unit. */
  function UpStep(k: State, s: SemId): State
    requires s < |k.sems|
    requires k.sems[s].waiters != [] ==> Has(k, k.sems[s].waiters[0], Blocked)
  {
    var m := k.sems[s];
    if m.waiters == [] then k.(sems := k.sems[s := m.(value := m.value + 1)])
    else ThreadUnblock(k.(sems := k.sems[s := Sema(m.value + 1, m.waiters[1..])]), m.waiters[0])
  }

  /** The sleep list is kept by deadline; an equal deadline goes in front. */
  function InsertSleeper(q: seq<Sleeper>, e: Sleeper): seq<Sleeper> {
    if q == [] || q[0].wake >= e.wake then [e] + q else [q[0]] + InsertSleeper(q[1..], e)
  }

  /** A new sleeper is behind all with an earlier deadline, in front of all with the same or a later. */
  lemma {:induction false} InsertSleeperAt(q: seq<Sleeper>, e: Sleeper, i: nat)
    requires i <= |q| && (forall j :: 0 <= j < i ==> q[j].wake < e.wake)
    requires i < |q| ==> q[i].wake >= e.wake
    ensures InsertSleeper(q, e) == q[..i] + [e] + q[i..]
  {
    if i == 0 {
    } else {
      InsertSleeperAt(q[1..], e, i - 1);
      assert q[..i] == [q[0]] + q[1..][..i - 1] && q[i..] == q[1..][i - 1..];
    }
  }

  function SleepStep(k: State, n: int): State {
    if n <= 0 then k else FallAsleep(k, Sleeper(k.cur, k.ticks + n))
  }

  function FallAsleep(k: State, e: Sleeper): State {
    ThreadBlock(k.(sleepers := InsertSleeper(k.sleepers, e)))
  }

  /** The loop of timer_interrupt: unblock sleepers whose deadline has come. */
  function Drain(k: State): State
    requires ListsOk(k)
    decreases |k.sleepers|
  {
    if k.sleepers == [] || k.ticks < k.sleepers[0].wake then k
    else
      UnblockSleeperOk(k);
      Drain(UnblockSleeper(k))
  }

  function UnblockSleeper(k: State): State
    requires k.sleepers != [] && Has(k, k.sleepers[0].t, Blocked)
  {
    ThreadUnblock(k, k.sleepers[0].t).(sleepers := k.sleepers[1..])
  }

  lemma UnblockSleeperOk(k: State)
    requires ListsOk(k) && k.sleepers != []
    ensures Has(k, k.sleepers[0].t, Blocked) && ListsOk(UnblockSleeper(k))
  {
    var t := k.sleepers[0].t;
    assert Has(k, t, Blocked) && t != k.idle && t !in k.inDown;
    UnblockReady(k, k.(sleepers := k.sleepers[1..]), t);
    UnblockWaiters(k, UnblockSleeper(k), t);
    UnblockSleepers(k, UnblockSleeper(k));
    UnblockWaits(k, UnblockSleeper(k), t);
  }

  /** `k'` is `k` with the blocked thread `t` made ready, as far as states other than READY go. */
  ghost predicate Wakes(k: State, k': State, t: Tid) {
    && k'.idle == k.idle && k'.sems == k.sems && k'.inDown == k.inDown && k'.ticks == k.ticks
    && t !in k.inDown && Has(k, t, Blocked) && Has(k', t, Ready)
    && (forall x, st :: x != t ==> (Has(k', x, st) <==> Has(k, x, st)))
  }

  lemma UnblockWaiters(k: State, k': State, t: Tid)
    requires WaitersOk(k) && Wakes(k, k', t)
    ensures WaitersOk(k')
  {
    forall s, x | 0 <= s < |k'.sems| && x in k'.sems[s].waiters
      ensures Has(k', x, Blocked) && x != k'.idle && x in k'.inDown && k'.inDown[x] == s
    {
      assert Has(k, x, Blocked) && x in k.inDown;
    }
    forall x | x in k'.inDown ensures x in k'.status && k'.status[x] != Dying {
      assert Has(k, x, k.status[x]);
      assert Has(k', x, k.status[x]);
    }
  }

  /** Taking the head off the sleep list. */
  lemma UnblockSleepers(k: State, k': State)
    requires SleepersOk(k) && k.sleepers != [] && Wakes(k, k', k.sleepers[0].t) && k'.sleepers == k.sleepers[1..]
    ensures SleepersOk(k')
  {
    forall i | 0 <= i < |k'.sleepers|
      ensures Has(k', k'.sleepers[i].t, Blocked) && k'.sleepers[i].t != k'.idle && k'.sleepers[i].t !in k'.inDown
    {
      assert k'.sleepers[i] == k.sleepers[i + 1];
      assert Has(k, k.sleepers[i + 1].t, Blocked) && k.sleepers[0].t != k.sleepers[i + 1].t;
    }
  }

  lemma UnblockWaits(k: State, k': State, t: Tid)
    requires BlockedWait(k) && k.sleepers != [] && t == k.sleepers[0].t
    requires Wakes(k, k', t) && k'.sleepers == k.sleepers[1..]
    ensures BlockedWait(k')
  {
    forall x | Has(k', x, Blocked) && x != k'.idle
      ensures if x in k'.inDown then k'.inDown[x] < |k'.sems| && x in k'.sems[k'.inDown[x]].waiters
              else SleepsIn(k'.sleepers, x)
    {
      assert x != t && Has(k, x, Blocked);
      if x !in k.inDown {
        var i :| 0 <= i < |k.sleepers| && k.sleepers[i].t == x;
        assert k'.sleepers[i - 1].t == x;
      }
    }
  }

  lemma UnblockReady(k: State, k1: State, t: Tid)
    requires ReadyOk(k) && Has(k, t, Blocked) && t != k.idle
    requires k1.ready == k.ready && k1.status == k.status && k1.idle == k.idle
    ensures ReadyOk(ThreadUnblock(k1, t))
  {
    var k' := ThreadUnblock(k1, t);
    assert t !in k.ready by { assert !Has(k, t, Ready); }
    forall x ensures x in k'.ready <==> Has(k', x, Ready) && x != k.idle {
      assert x in k.ready <==> Has(k, x, Ready) && x != k.idle;
    }
  }

  // ----- The machine ----------------------------------------------------------------------

  /** `Recheck` is the second and later passes of a semaphore_down loop; it runs before anything
      else when a thread woken inside semaphore_down is scheduled, interrupts being still off. */
  datatype Event =
    | Create(t: Tid) | Yield | Exit | IdleBlock
    | InitSema(v: nat) | Down(s: SemId) | Recheck | Up(s: SemId)
    | Sleep(n: int) | TimerTick

  ghost predicate Enabled(k: State, e: Event) {
    if k.cur in k.inDown then e.Recheck?
    else
      match e
      case Create(t) => k.cur != k.idle && t !in k.status
      case Yield => true
      case Exit => k.cur != k.idle
      case IdleBlock => k.cur == k.idle
      case InitSema(_) => k.cur != k.idle
      case Down(s) => k.cur != k.idle && s < |k.sems|
      case Recheck => false
      case Up(s) => s < |k.sems|
      case Sleep(_) => k.cur != k.idle
      case TimerTick => true
  }

  function Step(k: State, e: Event): State
    requires Inv(k) && Enabled(k, e)
  {
    match e
    case Create(t) => ThreadCreate(k, t)
    case Yield => ThreadYield(k)
    case Exit => ThreadExit(k)
    case IdleBlock => ThreadBlock(k)
    case InitSema(v) => k.(sems := k.sems + [Sema(v, [])])
    case Down(s) => DownStep(k, s)
    case Recheck => DownStep(k, k.inDown[k.cur])
    case Up(s) => UpOk(k, s); UpStep(k, s)
    case Sleep(n) => SleepStep(k, n)
    case TimerTick => TickOk(k); Drain(k.(ticks := k.ticks + 1))
  }

  lemma UpOk(k: State, s: SemId)
    requires Inv(k) && s < |k.sems|
    ensures k.sems[s].waiters != [] ==> Has(k, k.sems[s].waiters[0], Blocked)
  {
  }

  lemma TickOk(k: State)
    requires Inv(k)
    ensures ListsOk(k.(ticks := k.ticks + 1))
  {
    WaitFrame(k, k.(ticks := k.ticks + 1));
    assert ReadyOk(k.(ticks := k.ticks + 1)) by {
      forall t ensures Has(k.(ticks := k.ticks + 1), t, Ready) <==> Has(k, t, Ready) { }
    }
  }

  // ----- Every step keeps the invariant -----------------------------------------------------

  /** The current thread leaves RUNNING; the lists may have changed to match. */
  lemma SwitchFromCur(k: State, k1: State, s: Status)
    requires CpuOk(k) && s != Running && (s == Dying ==> k.cur != k.idle)
    requires k1.status == k.status[k.cur := s] && k1.cur == k.cur && k1.idle == k.idle && k1.initial == k.initial
    ensures SwitchOk(k1)
  {
    assert Has(k, k.cur, Running);
    forall t ensures !Has(k1, t, Running) { assert Has(k, t, Running) <==> t == k.cur; }
    forall t | Has(k1, t, Dying) ensures t == k.initial || t == k.cur {
      if t != k.cur { assert Has(k, t, Dying); }
    }
  }

  lemma YieldInv(k: State)
    requires Inv(k) && Enabled(k, Yield)
    ensures Inv(ThreadYield(k))
  {
    var k1 := MarkCur(if k.cur == k.idle then k else k.(ready := k.ready + [k.cur]), Ready);
    SwitchFromCur(k, k1, Ready);
    assert Has(k, k.cur, Running);
    assert k.cur !in k.ready by { assert !Has(k, k.cur, Ready); }
    forall t ensures t in k1.ready <==> Has(k1, t, Ready) && t != k.idle {
      assert t in k.ready <==> Has(k, t, Ready) && t != k.idle;
    }
    forall t ensures Has(k1, t, Blocked) <==> Has(k, t, Blocked) { }
    WaitFrame(k, k1);
    ScheduleInv(k1);
  }

  lemma ExitInv(k: State)
    requires Inv(k) && Enabled(k, Exit)
    ensures Inv(ThreadExit(k))
  {
    var k1 := MarkCur(k, Dying);
    SwitchFromCur(k, k1, Dying);
    assert Has(k, k.cur, Running);
    forall t ensures t in k1.ready <==> Has(k1, t, Ready) && t != k.idle {
      assert t in k.ready <==> Has(k, t, Ready) && t != k.idle;
    }
    forall t ensures Has(k1, t, Blocked) <==> Has(k, t, Blocked) { }
    WaitFrame(k, k1);
    ScheduleInv(k1);
  }

  lemma IdleBlockInv(k: State)
    requires Inv(k) && Enabled(k, IdleBlock)
    ensures Inv(ThreadBlock(k))
  {
    var k1 := MarkCur(k, Blocked);
    SwitchFromCur(k, k1, Blocked);
    forall t ensures t in k1.ready <==> Has(k1, t, Ready) && t != k.idle {
      assert t in k.ready <==> Has(k, t, Ready) && t != k.idle;
    }
    forall t | t != k.idle ensures Has(k1, t, Blocked) <==> Has(k, t, Blocked) { }
    WaitFrame(k, k1);
    ScheduleInv(k1);
  }

  lemma CreateInv(k: State, t: Tid)
    requires Inv(k) && Enabled(k, Create(t))
    ensures Inv(ThreadCreate(k, t))
  {
    var k1 := k.(status := k.status[t := Blocked]);
    var k' := ThreadCreate(k, t);
    assert !Has(k, t, Running) && !Has(k, t, Ready) && !Has(k, t, Blocked);
    assert t !in k.ready;
    forall x, s ensures Has(k', x, s) <==> if x == t then s == Ready else Has(k, x, s) { }
    forall x ensures x in k'.ready <==> Has(k', x, Ready) && x != k.idle {
      assert x in k.ready <==> Has(k, x, Ready) && x != k.idle;
    }
    WaitFrame(k, k');
    assert CpuOk(k') by { assert Has(k, k.idle, k.status[k.idle]); }
  }

  /** The current thread queues on `s` and blocks. */
  function QueueOn(k: State, s: SemId): State
    requires s < |k.sems|
  {
    var m := k.sems[s];
    MarkCur(k.(sems := k.sems[s := m.(waiters := m.waiters + [k.cur])], inDown := k.inDown[k.cur := s]), Blocked)
  }

  lemma DownBlockLists(k: State, s: SemId)
    requires Inv(k) && s < |k.sems| && k.cur != k.idle
    requires k.cur in k.inDown ==> k.inDown[k.cur] == s
    ensures SwitchOk(QueueOn(k, s)) && ListsOk(QueueOn(k, s))
  {
    SwitchFromCur(k, QueueOn(k, s), Blocked);
    QueuedOthersKeep(k, s);
    QueuedReady(k, s);
    QueuedWaiters(k, s);
    QueuedSleepers(k, s);
    QueuedWaits(k, s);
  }

  lemma QueuedOthersKeep(k: State, s: SemId)
    requires Inv(k) && s < |k.sems|
    ensures Has(k, k.cur, Running) && Has(QueueOn(k, s), k.cur, Blocked)
    ensures forall t, st :: t != k.cur ==> (Has(QueueOn(k, s), t, st) <==> Has(k, t, st))
  {
    assert Has(k, k.cur, Running);
  }

  lemma QueuedReady(k: State, s: SemId)
    requires Inv(k) && s < |k.sems|
    ensures ReadyOk(QueueOn(k, s))
  {
    QueuedOthersKeep(k, s);
    CurNotListed(k);
    forall t ensures t in QueueOn(k, s).ready <==> Has(QueueOn(k, s), t, Ready) && t != k.idle {
      assert t in k.ready <==> Has(k, t, Ready) && t != k.idle;
    }
  }

  lemma QueuedWaiters(k: State, s: SemId)
    requires Inv(k) && s < |k.sems| && k.cur != k.idle && (k.cur in k.inDown ==> k.inDown[k.cur] == s)
    ensures WaitersOk(QueueOn(k, s))
  {
    var k1 := QueueOn(k, s);
    QueuedOthersKeep(k, s);
    assert !Has(k, k.cur, Blocked);
    forall x, t | 0 <= x < |k1.sems| && t in k1.sems[x].waiters
      ensures Has(k1, t, Blocked) && t != k1.idle && t in k1.inDown && k1.inDown[t] == x
    {
      assert x == s || k1.sems[x] == k.sems[x];
      assert t in k.sems[x].waiters || (x == s && t == k.cur);
    }
    forall t | t in k1.inDown ensures t in k1.status && k1.status[t] != Dying {
      if t != k.cur { assert Has(k, t, k.status[t]); assert Has(k1, t, k.status[t]); }
    }
  }

  lemma QueuedSleepers(k: State, s: SemId)
    requires Inv(k) && s < |k.sems|
    ensures SleepersOk(QueueOn(k, s))
  {
    var k1 := QueueOn(k, s);
    QueuedOthersKeep(k, s);
    forall i | 0 <= i < |k1.sleepers|
      ensures Has(k1, k1.sleepers[i].t, Blocked) && k1.sleepers[i].t != k1.idle && k1.sleepers[i].t !in k1.inDown
    {
      assert Has(k, k.sleepers[i].t, Blocked) && !Has(k, k.cur, Blocked);
    }
  }

  lemma QueuedWaits(k: State, s: SemId)
    requires Inv(k) && s < |k.sems|
    ensures BlockedWait(QueueOn(k, s))
  {
    var k1 := QueueOn(k, s);
    QueuedOthersKeep(k, s);
    forall t | Has(k1, t, Blocked) && t != k1.idle
      ensures if t in k1.inDown then k1.inDown[t] < |k1.sems| && t in k1.sems[k1.inDown[t]].waiters
              else SleepsIn(k1.sleepers, t)
    {
      if t != k.cur { assert Has(k, t, Blocked); }
    }
  }

  lemma DownTakeInv(k: State, s: SemId)
    requires Inv(k) && s < |k.sems| && k.cur != k.idle && k.sems[s].value > 0
    ensures Inv(DownStep(k, s))
  {
    var k' := DownStep(k, s);
    var c := k.cur;
    assert Has(k, c, Running) && !Has(k, c, Blocked);
    forall t, st ensures Has(k', t, st) <==> Has(k, t, st) { }
    forall x, t | 0 <= x < |k'.sems| && t in k'.sems[x].waiters
      ensures Has(k', t, Blocked) && t != k'.idle && t in k'.inDown && k'.inDown[t] == x
    {
      assert t in k.sems[x].waiters && Has(k, t, Blocked);
    }
    forall i | 0 <= i < |k'.sleepers| ensures Has(k', k'.sleepers[i].t, Blocked) {
      assert Has(k, k.sleepers[i].t, Blocked);
    }
    forall t | Has(k', t, Blocked) && t != k'.idle
      ensures if t in k'.inDown then k'.inDown[t] < |k'.sems| && t in k'.sems[k'.inDown[t]].waiters
              else SleepsIn(k'.sleepers, t)
    {
      assert Has(k, t, Blocked) && t != c;
    }
    assert ReadyOk(k');
  }

  lemma DownInv(k: State, s: SemId)
    requires Inv(k) && s < |k.sems| && k.cur != k.idle
    requires k.cur in k.inDown ==> k.inDown[k.cur] == s
    ensures Inv(DownStep(k, s))
  {
    var m := k.sems[s];
    if m.value == 0 {
      DownBlockLists(k, s);
      ScheduleInv(MarkCur(k.(sems := k.sems[s := m.(waiters := m.waiters + [k.cur])],
                             inDown := k.inDown[k.cur := s]), Blocked));
    } else {
      DownTakeInv(k, s);
    }
  }

  lemma UpInv(k: State, s: SemId)
    requires Inv(k) && s < |k.sems|
    ensures (k.sems[s].waiters != [] ==> Has(k, k.sems[s].waiters[0], Blocked)) && Inv(UpStep(k, s))
  {
    UpOk(k, s);
    assert Has(k, k.cur, Running);
    var m := k.sems[s];
    var k' := UpStep(k, s);
    if m.waiters == [] {
      forall t, st ensures Has(k', t, st) <==> Has(k, t, st) { }
      UpLists(k, k', s, k.cur);
    } else {
      var w := m.waiters[0];
      assert w in m.waiters && Has(k, w, Blocked) && !Has(k, w, Running) && w != k.idle;
      UnblockReady(k, k.(sems := k.sems[s := Sema(m.value + 1, m.waiters[1..])]), w);
      forall t, st | t != w ensures Has(k', t, st) <==> Has(k, t, st) { }
      UpLists(k, k', s, w);
    }
  }

  /** semaphore_up took `w` off the front of list `s`, or nobody off an empty list. */
  ghost predicate TookFront(k: State, k': State, s: SemId, w: Tid) {
    && Inv(k) && s < |k.sems| && w in k.status
    && k'.inDown == k.inDown && k'.sleepers == k.sleepers && k'.idle == k.idle && |k'.sems| == |k.sems|
    && (forall x :: 0 <= x < |k.sems| && x != s ==> k'.sems[x] == k.sems[x])
    && (if k.sems[s].waiters == [] then k'.sems[s].waiters == [] && !Has(k, w, Blocked)
        else w == k.sems[s].waiters[0] && k'.sems[s].waiters == k.sems[s].waiters[1..])
    && !Has(k', w, Blocked) && w in k'.status && k'.status[w] != Dying
    && (forall t, st :: t != w ==> (Has(k', t, st) <==> Has(k, t, st)))
  }

  lemma UpLists(k: State, k': State, s: SemId, w: Tid)
    requires TookFront(k, k', s, w)
    ensures WaitersOk(k') && SleepersOk(k') && BlockedWait(k')
  {
    UpWaiters(k, k', s, w);
    UpSleepers(k, k', s, w);
    UpWaits(k, k', s, w);
  }

  /** The thread taken was on this list only. */
  lemma FrontWaits(k: State, k': State, s: SemId, w: Tid)
    requires TookFront(k, k', s, w) && k.sems[s].waiters != []
    ensures w in k.sems[s].waiters && k.sems[s].waiters == [w] + k'.sems[s].waiters
    ensures w !in k'.sems[s].waiters && w in k.inDown && k.inDown[w] == s
  {
    assert k.sems[s].waiters == [w] + k'.sems[s].waiters;
  }

  lemma UpWaiters(k: State, k': State, s: SemId, w: Tid)
    requires TookFront(k, k', s, w)
    ensures WaitersOk(k')
  {
    if k.sems[s].waiters != [] { FrontWaits(k, k', s, w); }
    forall x, t | 0 <= x < |k'.sems| && t in k'.sems[x].waiters
      ensures Has(k', t, Blocked) && t != k'.idle && t in k'.inDown && k'.inDown[t] == x
    {
      assert t in k.sems[x].waiters && Has(k, t, Blocked);
    }
    forall t | t in k'.inDown ensures t in k'.status && k'.status[t] != Dying {
      if t != w { assert Has(k, t, k.status[t]); assert Has(k', t, k.status[t]); }
    }
  }

  lemma UpSleepers(k: State, k': State, s: SemId, w: Tid)
    requires TookFront(k, k', s, w)
    ensures SleepersOk(k')
  {
    if k.sems[s].waiters != [] { FrontWaits(k, k', s, w); }
    forall i | 0 <= i < |k'.sleepers| ensures Has(k', k'.sleepers[i].t, Blocked) {
      assert Has(k, k.sleepers[i].t, Blocked) && k.sleepers[i].t !in k.inDown;
    }
  }

  lemma UpWaits(k: State, k': State, s: SemId, w: Tid)
    requires TookFront(k, k', s, w)
    ensures BlockedWait(k')
  {
    if k.sems[s].waiters != [] { FrontWaits(k, k', s, w); }
    forall t | Has(k', t, Blocked) && t != k'.idle
      ensures if t in k'.inDown then k'.inDown[t] < |k'.sems| && t in k'.sems[k'.inDown[t]].waiters
              else SleepsIn(k'.sleepers, t)
    {
      assert t != w && Has(k, t, Blocked);
    }
  }

  lemma {:induction false} InsertSleeperFacts(q: seq<Sleeper>, e: Sleeper)
    ensures forall x :: x in InsertSleeper(q, e) <==> x in q || x == e
    ensures InOrder(q) && !SleepsIn(q, e.t) ==> InOrder(InsertSleeper(q, e))
  {
    if q == [] || q[0].wake >= e.wake {
    } else {
      var r := InsertSleeper(q[1..], e);
      InsertSleeperFacts(q[1..], e);
      assert forall x :: x in q <==> x == q[0] || x in q[1..];
      if InOrder(q) && !SleepsIn(q, e.t) {
        assert !SleepsIn(q[1..], e.t) by {
          forall i | 0 <= i < |q[1..]| ensures q[1..][i].t != e.t { assert q[1..][i] == q[i + 1]; }
        }
        forall i | 0 <= i < |r| ensures q[0].t != r[i].t && q[0].wake <= r[i].wake {
          assert r[i] in r;
        }
      }
    }
  }

  /** The current thread falls asleep: `e` joins the list, in order, and the thread is BLOCKED. */
  ghost predicate FallsAsleep(k: State, k1: State, e: Sleeper) {
    && Inv(k) && e.t == k.cur && k.cur != k.idle && k.cur !in k.inDown && e.wake > k.ticks
    && (forall x :: x in k1.sleepers <==> x in k.sleepers || x == e) && InOrder(k1.sleepers)
    && k1 == MarkCur(k.(sleepers := k1.sleepers), Blocked)
  }

  lemma SleepInv(k: State, n: int)
    requires Inv(k) && Enabled(k, Sleep(n))
    ensures Inv(SleepStep(k, n))
  {
    if n > 0 {
      assert k.cur !in k.inDown && k.cur != k.idle;
      FallAsleepInv(k, Sleeper(k.cur, k.ticks + n));
    }
  }

  lemma FallAsleepInv(k: State, e: Sleeper)
    requires Inv(k) && e.t == k.cur && k.cur != k.idle && k.cur !in k.inDown && e.wake > k.ticks
    ensures Inv(FallAsleep(k, e))
  {
    InsertedFallsAsleep(k, e);
    AsleepInv(k, MarkCur(k.(sleepers := InsertSleeper(k.sleepers, e)), Blocked), e);
  }

  lemma InsertedFallsAsleep(k: State, e: Sleeper)
    requires Inv(k) && e.t == k.cur && k.cur != k.idle && k.cur !in k.inDown && e.wake > k.ticks
    ensures FallsAsleep(k, MarkCur(k.(sleepers := InsertSleeper(k.sleepers, e)), Blocked), e)
  {
    CurNotListed(k);
    InsertSleeperFacts(k.sleepers, e);
  }

  /** The running thread is on no list. */
  lemma CurNotListed(k: State)
    requires Inv(k)
    ensures k.cur !in k.ready && !SleepsIn(k.sleepers, k.cur)
  {
    assert Has(k, k.cur, Running) && !Has(k, k.cur, Blocked) && !Has(k, k.cur, Ready);
    forall i | 0 <= i < |k.sleepers| ensures k.sleepers[i].t != k.cur { assert Has(k, k.sleepers[i].t, Blocked); }
  }

  lemma AsleepInv(k: State, k1: State, e: Sleeper)
    requires FallsAsleep(k, k1, e)
    ensures Inv(Schedule(k1))
  {
    SwitchFromCur(k, k1, Blocked);
    OthersKeep(k, k1, e);
    ReadyAfterSleep(k, k1, e);
    SleepersAfterSleep(k, k1, e);
    BlockedAfterSleep(k, k1, e);
    ScheduleInv(k1);
  }

  lemma OthersKeep(k: State, k1: State, e: Sleeper)
    requires FallsAsleep(k, k1, e)
    ensures Has(k1, k.cur, Blocked) && forall t, st :: t != k.cur ==> (Has(k1, t, st) <==> Has(k, t, st))
  {
  }

  lemma ReadyAfterSleep(k: State, k1: State, e: Sleeper)
    requires FallsAsleep(k, k1, e)
    ensures ReadyOk(k1)
  {
    CurNotListed(k);
    forall t ensures t in k1.ready <==> Has(k1, t, Ready) && t != k1.idle {
      assert t in k.ready <==> Has(k, t, Ready) && t != k.idle;
    }
  }

  lemma SleepersAfterSleep(k: State, k1: State, e: Sleeper)
    requires FallsAsleep(k, k1, e)
    ensures SleepersOk(k1) && Awake(k1)
  {
    var q, r := k.sleepers, k1.sleepers;
    OthersKeep(k, k1, e);
    forall i | 0 <= i < |r|
      ensures Has(k1, r[i].t, Blocked) && r[i].t != k1.idle && r[i].t !in k1.inDown && r[i].wake > k1.ticks
    {
      assert r[i] in r;
      if r[i] != e {
        var j :| 0 <= j < |q| && q[j] == r[i];
        assert Has(k, q[j].t, Blocked);
      }
    }
  }

  lemma BlockedAfterSleep(k: State, k1: State, e: Sleeper)
    requires FallsAsleep(k, k1, e)
    ensures WaitersOk(k1) && BlockedWait(k1)
  {
    OthersKeep(k, k1, e);
    assert Has(k, k.cur, Running) && !Has(k, k.cur, Blocked);
    forall x, t | 0 <= x < |k1.sems| && t in k1.sems[x].waiters
      ensures Has(k1, t, Blocked) && t != k1.idle && t in k1.inDown && k1.inDown[t] == x
    {
      assert Has(k, t, Blocked);
    }
    forall t | t in k1.inDown ensures t in k1.status && k1.status[t] != Dying {
      assert Has(k, t, k.status[t]);
      assert Has(k1, t, k.status[t]);
    }
    forall t | Has(k1, t, Blocked) && t != k1.idle
      ensures if t in k1.inDown then k1.inDown[t] < |k1.sems| && t in k1.sems[k1.inDown[t]].waiters
              else SleepsIn(k1.sleepers, t)
    {
      if t == k.cur { ListedSleeps(k1.sleepers, e); } else { SleepingStays(k, k1, e, t); }
    }
  }

  lemma ListedSleeps(q: seq<Sleeper>, e: Sleeper)
    requires e in q
    ensures SleepsIn(q, e.t)
  {
    var i :| 0 <= i < |q| && q[i] == e;
  }

  /** Who was blocked on a list is still on it. */
  lemma SleepingStays(k: State, k1: State, e: Sleeper, t: Tid)
    requires FallsAsleep(k, k1, e) && Has(k1, t, Blocked) && t != k.idle && t != k.cur
    ensures if t in k1.inDown then k1.inDown[t] < |k1.sems| && t in k1.sems[k1.inDown[t]].waiters
            else SleepsIn(k1.sleepers, t)
  {
    assert Has(k, t, Blocked);
    if t !in k.inDown {
      var j :| 0 <= j < |k.sleepers| && k.sleepers[j].t == t;
      ListedSleeps(k1.sleepers, k.sleepers[j]);
    }
  }

  lemma {:induction false} DrainInv(k: State)
    requires CpuOk(k) && ListsOk(k)
    ensures Inv(Drain(k)) && Drain(k).ticks == k.ticks
    decreases |k.sleepers|
  {
    if k.sleepers != [] && k.ticks >= k.sleepers[0].wake {
      UnblockSleeperOk(k);
      var k' := UnblockSleeper(k);
      var t := k.sleepers[0].t;
      forall x, st ensures Has(k', x, st) <==> if x == t then st == Ready else Has(k, x, st) { }
      assert CpuOk(k') by { assert Has(k, t, Blocked) && t != k.cur by { assert Has(k, k.cur, Running); } }
      DrainInv(k');
    } else {
      assert Awake(k) by {
        forall i | 0 <= i < |k.sleepers| ensures k.sleepers[i].wake > k.ticks {
          if i > 0 { assert k.sleepers[0].wake <= k.sleepers[i].wake; }
        }
      }
    }
  }

  lemma InitSemaInv(k: State, v: nat)
    requires Inv(k) && Enabled(k, InitSema(v))
    ensures Inv(k.(sems := k.sems + [Sema(v, [])]))
  {
    var k' := k.(sems := k.sems + [Sema(v, [])]);
    forall t, st ensures Has(k', t, st) <==> Has(k, t, st) { }
    forall x, t | 0 <= x < |k'.sems| && t in k'.sems[x].waiters
      ensures Has(k', t, Blocked) && t != k'.idle && t in k'.inDown && k'.inDown[t] == x
    {
      assert t in k.sems[x].waiters && Has(k, t, Blocked);
    }
    forall i | 0 <= i < |k'.sleepers| ensures Has(k', k'.sleepers[i].t, Blocked) { assert Has(k, k.sleepers[i].t, Blocked); }
    forall t | Has(k', t, Blocked) && t != k'.idle
      ensures if t in k'.inDown then k'.inDown[t] < |k'.sems| && t in k'.sems[k'.inDown[t]].waiters
              else SleepsIn(k'.sleepers, t)
    {
      assert Has(k, t, Blocked);
    }
    assert ReadyOk(k');
  }

  lemma TickCpu(k: State)
    requires CpuOk(k)
    ensures CpuOk(k.(ticks := k.ticks + 1))
  {
    var k' := k.(ticks := k.ticks + 1);
    forall t, st ensures Has(k', t, st) <==> Has(k, t, st) { }
  }

  /** Every step keeps the thread-state partition, and none of the code's assertions fails. */
  lemma StepInv(k: State, e: Event)
    requires Inv(k) && Enabled(k, e)
    ensures Inv(Step(k, e))
  {
    if e.Down? || e.Recheck? || e.Up? {
      SemaStepInv(k, e);
    } else if e.Sleep? || e.TimerTick? {
      TimerStepInv(k, e);
    } else {
      ThreadStepInv(k, e);
    }
  }

  lemma ThreadStepInv(k: State, e: Event)
    requires Inv(k) && Enabled(k, e) && (e.Create? || e.Yield? || e.Exit? || e.IdleBlock? || e.InitSema?)
    ensures Inv(Step(k, e))
  {
    match e
    case Create(t) => CreateInv(k, t);
    case Yield => YieldInv(k);
    case Exit => ExitInv(k);
    case IdleBlock => IdleBlockInv(k);
    case InitSema(v) => InitSemaInv(k, v);
  }

  lemma SemaStepInv(k: State, e: Event)
    requires Inv(k) && Enabled(k, e) && (e.Down? || e.Recheck? || e.Up?)
    ensures Inv(Step(k, e))
  {
    match e
    case Down(s) => DownInv(k, s);
    case Recheck => DownInv(k, k.inDown[k.cur]);
    case Up(s) => UpInv(k, s);
  }

  lemma TimerStepInv(k: State, e: Event)
    requires Inv(k) && Enabled(k, e) && (e.Sleep? || e.TimerTick?)
    ensures Inv(Step(k, e))
  {
    if e.Sleep? {
      SleepInv(k, e.n);
    } else {
      TickOk(k);
      TickCpu(k);
      DrainInv(k.(ticks := k.ticks + 1));
    }
  }

  // ----- Runs -----------------------------------------------------------------------------------

  /** A run: each event is enabled where it occurs. Nothing is assumed of the states on the way. */
  ghost predicate Feasible(k: State, es: seq<Event>)
    requires Inv(k)
    decreases |es|
  {
    es == [] || (Enabled(k, es[0]) && (StepInv(k, es[0]); Feasible(Step(k, es[0]), es[1..])))
  }

  ghost function After(k: State, es: seq<Event>): State
    requires Inv(k) && Feasible(k, es)
    decreases |es|
  {
    if es == [] then k
    else
      StepInv(k, es[0]);
      After(Step(k, es[0]), es[1..])
  }

  /** Every run of enabled steps from a good state keeps the invariant. */
  lemma {:induction false} RunInv(k: State, es: seq<Event>)
    requires Inv(k) && Feasible(k, es)
    ensures Inv(After(k, es))
    decreases |es|
  {
    if es == [] {
    } else {
      StepInv(k, es[0]);
      RunInv(Step(k, es[0]), es[1..]);
    }
  }

  /** After boot: the initial thread runs and the idle thread is blocked. */
  ghost function Boot(idle: Tid, initial: Tid): (k: State)
    requires idle != initial
    ensures Inv(k) && NoLostWakeup(k)
  {
    State(map[idle := Blocked, initial := Running], [], initial, [], map[], [], 0, idle, initial)
  }

  /** One running thread; the run queue holds each ready thread once (idle is never on it); no
      thread is on the run queue and a wait list, or on two wait lists; every blocked thread but
      idle is on one; nobody dying is on any. */
  ghost predicate Partition(k: State) {
    && (forall t :: Has(k, t, Running) <==> t == k.cur)
    && NoDup(k.ready) && (forall t :: t != k.idle ==> (Has(k, t, Ready) <==> t in k.ready))
    && k.idle !in k.ready
    && (forall s, t :: 0 <= s < |k.sems| && t in k.sems[s].waiters ==>
          Has(k, t, Blocked) && t !in k.ready && t != k.cur && !SleepsIn(k.sleepers, t))
    && (forall t :: SleepsIn(k.sleepers, t) ==> Has(k, t, Blocked) && t !in k.ready && t != k.cur)
    && (forall s, x, t :: 0 <= s < |k.sems| && 0 <= x < |k.sems| && t in k.sems[s].waiters && t in k.sems[x].waiters ==> s == x)
    && (forall t :: Has(k, t, Blocked) && t != k.idle ==>
          SleepsIn(k.sleepers, t) || exists s :: 0 <= s < |k.sems| && t in k.sems[s].waiters)
  }

  lemma ThreadPartition(k: State)
    requires Inv(k)
    ensures Partition(k)
  {
    assert Has(k, k.cur, Running);
    forall s, t | 0 <= s < |k.sems| && t in k.sems[s].waiters
      ensures Has(k, t, Blocked) && t !in k.ready && t != k.cur && !SleepsIn(k.sleepers, t)
    {
      assert Has(k, t, Blocked) && !Has(k, t, Ready);
    }
    forall s, x, t | 0 <= s < |k.sems| && 0 <= x < |k.sems| && t in k.sems[s].waiters && t in k.sems[x].waiters
      ensures s == x
    {
      assert k.inDown[t] == s && k.inDown[t] == x;
    }
    forall t | SleepsIn(k.sleepers, t) ensures Has(k, t, Blocked) && t !in k.ready && t != k.cur {
      var i :| 0 <= i < |k.sleepers| && k.sleepers[i].t == t;
      assert Has(k, t, Blocked) && !Has(k, t, Ready);
    }
  }

  /** From boot on, in every run of enabled steps, the thread states partition as above and no
      wakeup is lost. */
  lemma RunPartition(idle: Tid, initial: Tid, es: seq<Event>)
    requires idle != initial && Feasible(Boot(idle, initial), es)
    ensures Partition(After(Boot(idle, initial), es)) && NoLostWakeup(After(Boot(idle, initial), es))
  {
    RunInv(Boot(idle, initial), es);
    RunNoLostWakeup(Boot(idle, initial), es);
    ThreadPartition(After(Boot(idle, initial), es));
  }

  /** An exiting thread's page is freed in the same step, unless it is the initial thread. */
  lemma ExitFreesPage(k: State)
    requires Inv(k) && Enabled(k, Exit)
    ensures if k.cur == k.initial then Has(Step(k, Exit), k.cur, Dying) else k.cur !in Step(k, Exit).status
    ensures Step(k, Exit).cur != k.cur && k.cur !in Step(k, Exit).ready
  {
    var k1 := MarkCur(k, Dying);
    assert Has(k, k.cur, Running) && !Has(k, k.cur, Ready);
    assert k.ready != [] ==> k.ready[0] in k.ready;
    ExitInv(k);
    assert !Has(Step(k, Exit), k.cur, Ready);
  }

  /** A dying thread stays dying and is never selected, in every run. */
  lemma {:induction false} DyingNeverRuns(k: State, es: seq<Event>, t: Tid)
    requires Inv(k) && Feasible(k, es) && Has(k, t, Dying)
    ensures Has(After(k, es), t, Dying) && After(k, es).cur != t && t !in After(k, es).ready
    decreases |es|
  {
    if es != [] {
      StepInv(k, es[0]);
      DyingStays(k, es[0], t);
      DyingNeverRuns(Step(k, es[0]), es[1..], t);
    } else {
      assert !Has(k, t, Running) && !Has(k, t, Ready);
    }
  }

  lemma ScheduleKeepsDying(k: State, t: Tid)
    requires k.cur in k.status && Has(k, t, Dying) && t != k.cur && t != k.idle && t !in k.ready
    ensures Has(Schedule(k), t, Dying)
  {
    assert k.ready != [] ==> k.ready[0] in k.ready;
  }

  lemma {:induction false} DrainKeepsDying(k: State, t: Tid)
    requires ListsOk(k) && Has(k, t, Dying)
    ensures Has(Drain(k), t, Dying)
    decreases |k.sleepers|
  {
    if k.sleepers == [] || k.ticks < k.sleepers[0].wake {
    } else {
      UnblockSleeperOk(k);
      DrainKeepsDying(UnblockSleeper(k), t);
    }
  }

  lemma DyingStays(k: State, e: Event, t: Tid)
    requires Inv(k) && Enabled(k, e) && Has(k, t, Dying)
    ensures Has(Step(k, e), t, Dying)
  {
    assert !Has(k, t, Running) && !Has(k, t, Ready) && !Has(k, t, Blocked);
    assert t != k.cur && t !in k.ready && t != k.idle;
    match e
    case Create(_) =>
    case Yield => ScheduleKeepsDying(MarkCur(if k.cur == k.idle then k else k.(ready := k.ready + [k.cur]), Ready), t);
    case Exit => ScheduleKeepsDying(MarkCur(k, Dying), t);
    case IdleBlock => ScheduleKeepsDying(MarkCur(k, Blocked), t);
    case InitSema(_) =>
    case Down(s) => DownKeepsDying(k, s, t);
    case Recheck => DownKeepsDying(k, k.inDown[k.cur], t);
    case Up(s) => UpOk(k, s);
    case Sleep(n) =>
      if n > 0 {
        ScheduleKeepsDying(MarkCur(k.(sleepers := InsertSleeper(k.sleepers, Sleeper(k.cur, k.ticks + n))), Blocked), t);
      }
    case TimerTick =>
      TickOk(k);
      DrainKeepsDying(k.(ticks := k.ticks + 1), t);
  }

  lemma DownKeepsDying(k: State, s: SemId, t: Tid)
    requires s < |k.sems| && Has(k, t, Dying) && t != k.cur && t != k.idle && t !in k.ready
    ensures Has(DownStep(k, s), t, Dying)
  {
    if k.sems[s].value == 0 {
      var m := k.sems[s];
      ScheduleKeepsDying(MarkCur(k.(sems := k.sems[s := m.(waiters := m.waiters + [k.cur])],
                                    inDown := k.inDown[k.cur := s]), Blocked), t);
    }
  }

  // ----- Semaphores in every run ------------------------------------------------------------------

  /** The semaphore a Down or Recheck step works on. */
  function Target(k: State, e: Event): Option<SemId> {
    if e.Down? then Some(e.s)
    else if e.Recheck? && k.cur in k.inDown then Some(k.inDown[k.cur])
    else None
  }

  /** A down on `s` that completes in this step. */
  function Downs(k: State, e: Event, s: SemId): nat
    requires s < |k.sems|
  {
    if Target(k, e) == Some(s) && k.sems[s].value > 0 then 1 else 0
  }

  function Ups(e: Event, s: SemId): nat { if e == Up(s) then 1 else 0 }

  lemma {:induction false} DrainSems(k: State)
    requires ListsOk(k)
    ensures Drain(k).sems == k.sems && Drain(k).inDown == k.inDown && Drain(k).cur == k.cur
    decreases |k.sleepers|
  {
    if k.sleepers == [] || k.ticks < k.sleepers[0].wake {
    } else {
      UnblockSleeperOk(k);
      DrainSems(UnblockSleeper(k));
    }
  }

  lemma StepAccounts(k: State, e: Event, s: SemId)
    requires Inv(k) && Enabled(k, e) && s < |k.sems|
    ensures var k' := Step(k, e);
            s < |k'.sems| && k'.sems[s].value == k.sems[s].value + Ups(e, s) - Downs(k, e, s)
  {
    match e
    case Down(x) => DownValue(k, x, s);
    case Recheck => DownValue(k, k.inDown[k.cur], s);
    case Up(x) => UpOk(k, x);
    case TimerTick =>
      TickOk(k);
      DrainSems(k.(ticks := k.ticks + 1));
    case _ =>
  }

  lemma DownValue(k: State, x: SemId, s: SemId)
    requires x < |k.sems| && s < |k.sems|
    ensures var k' := DownStep(k, x);
            |k'.sems| == |k.sems| &&
            k'.sems[s].value == k.sems[s].value - if x == s && k.sems[s].value > 0 then 1 else 0
  {
  }

  ghost function TotalUps(es: seq<Event>, s: SemId): nat {
    if es == [] then 0 else Ups(es[0], s) + TotalUps(es[1..], s)
  }

  ghost function TotalDowns(k: State, es: seq<Event>, s: SemId): nat
    requires Inv(k) && Feasible(k, es) && s < |k.sems|
    decreases |es|
  {
    if es == [] then 0
    else StepInv(k, es[0]); StepAccounts(k, es[0], s); Downs(k, es[0], s) + TotalDowns(Step(k, es[0]), es[1..], s)
  }

  /** In every run: value = initial value + completed ups - completed downs. */
  lemma {:induction false} SemaphoreAccounts(k: State, es: seq<Event>, s: SemId)
    requires Inv(k) && Feasible(k, es) && s < |k.sems|
    ensures s < |After(k, es).sems|
    ensures After(k, es).sems[s].value == k.sems[s].value + TotalUps(es, s) - TotalDowns(k, es, s)
    decreases |es|
  {
    if es == [] {
    } else {
      StepInv(k, es[0]);
      StepAccounts(k, es[0], s);
      SemaphoreAccounts(Step(k, es[0]), es[1..], s);
    }
  }

  /** `t` is inside the loop of semaphore_down on `s`. */
  predicate InLoop(inDown: map<Tid, SemId>, t: Tid, s: SemId) { t in inDown && inDown[t] == s }

  function CountIn(q: seq<Tid>, inDown: map<Tid, SemId>, s: SemId): nat {
    if q == [] then 0 else (if InLoop(inDown, q[0], s) then 1 else 0) + CountIn(q[1..], inDown, s)
  }

  /** Threads woken from `s` that have not yet rechecked its value. */
  function Woken(k: State, s: SemId): nat {
    CountIn(k.ready, k.inDown, s) + if InLoop(k.inDown, k.cur, s) then 1 else 0
  }

  /** While threads wait on a semaphore, its value is covered by woken threads still to recheck. */
  ghost predicate NoLostWakeup(k: State) {
    forall s :: 0 <= s < |k.sems| && k.sems[s].waiters != [] ==> k.sems[s].value <= Woken(k, s)
  }

  lemma {:induction false} CountSnoc(q: seq<Tid>, t: Tid, d: map<Tid, SemId>, s: SemId)
    ensures CountIn(q + [t], d, s) == CountIn(q, d, s) + if InLoop(d, t, s) then 1 else 0
  {
    if q == [] {
      assert q + [t] == [t];
    } else {
      assert (q + [t])[1..] == q[1..] + [t];
      CountSnoc(q[1..], t, d, s);
    }
  }

  lemma {:induction false} CountFrame(q: seq<Tid>, d: map<Tid, SemId>, d': map<Tid, SemId>, s: SemId)
    requires forall t :: t in q ==> InLoop(d, t, s) == InLoop(d', t, s)
    ensures CountIn(q, d, s) == CountIn(q, d', s)
  {
    if q == [] {
    } else {
      assert q[0] in q;
      CountFrame(q[1..], d, d', s);
    }
  }

  /** Scheduling moves the head of the run queue to the CPU: nobody stops being woken. */
  lemma ScheduleWoken(k: State, s: SemId)
    requires k.cur in k.status && k.idle !in k.inDown
    ensures Woken(Schedule(k), s) == CountIn(k.ready, k.inDown, s)
  {
  }

  lemma {:induction false} DrainWoken(k: State, s: SemId)
    requires ListsOk(k)
    ensures Woken(Drain(k), s) == Woken(k, s)
    decreases |k.sleepers|
  {
    if k.sleepers == [] || k.ticks < k.sleepers[0].wake {
    } else {
      UnblockSleeperOk(k);
      assert k.sleepers[0].t !in k.inDown;
      CountSnoc(k.ready, k.sleepers[0].t, k.inDown, s);
      DrainWoken(UnblockSleeper(k), s);
    }
  }

  lemma DownWoken(k: State, s: SemId, x: SemId)
    requires Inv(k) && s < |k.sems| && k.cur != k.idle && (k.cur in k.inDown ==> k.inDown[k.cur] == s)
    ensures var k' := DownStep(k, s);
            if x != s || (k.sems[s].value > 0 && k.cur !in k.inDown) then Woken(k', x) == Woken(k, x)
            else k.sems[s].value > 0 ==> Woken(k', x) == Woken(k, x) - 1
  {
    assert Has(k, k.cur, Running) && !Has(k, k.cur, Ready);
    var m := k.sems[s];
    var d := if m.value == 0 then k.inDown[k.cur := s] else k.inDown - {k.cur};
    CountFrame(k.ready, k.inDown, d, x);
    if m.value == 0 {
      ScheduleWoken(MarkCur(k.(sems := k.sems[s := m.(waiters := m.waiters + [k.cur])], inDown := d), Blocked), x);
    }
  }

  lemma UpWoken(k: State, s: SemId, x: SemId)
    requires Inv(k) && s < |k.sems|
    requires k.sems[s].waiters != [] ==> Has(k, k.sems[s].waiters[0], Blocked)
    ensures Woken(UpStep(k, s), x) == Woken(k, x) + if x == s && k.sems[s].waiters != [] then 1 else 0
  {
    var q := k.sems[s].waiters;
    if q != [] {
      assert q[0] in q;
      CountSnoc(k.ready, q[0], k.inDown, x);
    }
  }

  /** Steps that leave every semaphore alone also leave the woken threads alone. */
  lemma OtherWoken(k: State, e: Event, x: SemId)
    requires Inv(k) && Enabled(k, e) && !e.Down? && !e.Recheck? && !e.Up?
    ensures Woken(Step(k, e), x) == Woken(k, x)
    ensures Step(k, e).sems == if e.InitSema? then k.sems + [Sema(e.v, [])] else k.sems
  {
    match e
    case Create(t) => CountSnoc(k.ready, t, k.inDown, x);
    case Yield =>
      CountSnoc(k.ready, k.cur, k.inDown, x);
      ScheduleWoken(MarkCur(if k.cur == k.idle then k else k.(ready := k.ready + [k.cur]), Ready), x);
    case Exit => ScheduleWoken(MarkCur(k, Dying), x);
    case IdleBlock => ScheduleWoken(MarkCur(k, Blocked), x);
    case InitSema(_) =>
    case Sleep(n) =>
      if n > 0 {
        ScheduleWoken(MarkCur(k.(sleepers := InsertSleeper(k.sleepers, Sleeper(k.cur, k.ticks + n))), Blocked), x);
      }
    case TimerTick =>
      var k1 := k.(ticks := k.ticks + 1);
      TickOk(k);
      DrainWoken(k1, x);
      DrainSems(k1);
  }

  lemma StepNoLostWakeup(k: State, e: Event)
    requires Inv(k) && Enabled(k, e) && NoLostWakeup(k)
    ensures NoLostWakeup(Step(k, e))
  {
    var k' := Step(k, e);
    forall x | 0 <= x < |k'.sems| && k'.sems[x].waiters != [] ensures k'.sems[x].value <= Woken(k', x) {
      if e.Down? {
        DownWoken(k, e.s, x);
      } else if e.Recheck? {
        DownWoken(k, k.inDown[k.cur], x);
      } else if e.Up? {
        UpOk(k, e.s);
        UpWoken(k, e.s, x);
      } else {
        OtherWoken(k, e, x);
      }
    }
  }

  /** No wakeup is lost in any run, barging included. */
  lemma {:induction false} RunNoLostWakeup(k: State, es: seq<Event>)
    requires Inv(k) && Feasible(k, es) && NoLostWakeup(k)
    ensures NoLostWakeup(After(k, es))
    decreases |es|
  {
    if es == [] {
    } else {
      StepInv(k, es[0]);
      StepNoLostWakeup(k, es[0]);
      RunNoLostWakeup(Step(k, es[0]), es[1..]);
    }
  }

  lemma {:induction false} CountWitness(q: seq<Tid>, d: map<Tid, SemId>, s: SemId) returns (i: nat)
    requires CountIn(q, d, s) > 0
    ensures i < |q| && InLoop(d, q[i], s)
  {
    if InLoop(d, q[0], s) {
      i := 0;
    } else {
      i := CountWitness(q[1..], d, s);
      i := i + 1;
    }
  }

  /** So units never pile up unnoticed: a positive value with waiters queued means some woken
      thread is running or on the run queue and will recheck. */
  lemma PositiveValueIsNoticed(k: State, s: SemId)
    requires NoLostWakeup(k) && s < |k.sems| && k.sems[s].value > 0 && k.sems[s].waiters != []
    ensures exists t :: InLoop(k.inDown, t, s) && (t == k.cur || t in k.ready)
  {
    if !InLoop(k.inDown, k.cur, s) {
      var i := CountWitness(k.ready, k.inDown, s);
      assert k.ready[i] in k.ready;
    }
  }

  // ----- The sleep list in every run -----------------------------------------------------------------

  /** Draining removes exactly the sleepers that are due, and makes them ready. */
  lemma {:induction false} DrainWakesDue(k: State, x: Sleeper)
    requires CpuOk(k) && ListsOk(k) && x in k.sleepers
    ensures if x.wake > k.ticks then x in Drain(k).sleepers else Has(Drain(k), x.t, Ready)
    decreases |k.sleepers|
  {
    if k.sleepers != [] && k.ticks >= k.sleepers[0].wake {
      var k' := UnblockSleeper(k);
      UnblockSleeperOk(k);
      DrainStepCpu(k);
      if x == k.sleepers[0] {
        DrainKeepsReady(k', x.t);
      } else {
        DrainWakesDue(k', x);
      }
    } else {
      var i :| 0 <= i < |k.sleepers| && k.sleepers[i] == x;
      if i > 0 { assert k.sleepers[0].wake <= k.sleepers[i].wake; }
    }
  }

  lemma DrainStepCpu(k: State)
    requires CpuOk(k) && ListsOk(k) && k.sleepers != []
    ensures Has(k, k.sleepers[0].t, Blocked) && CpuOk(UnblockSleeper(k))
  {
    UnblockSleeperOk(k);
    var k', t := UnblockSleeper(k), k.sleepers[0].t;
    forall x, st ensures Has(k', x, st) <==> if x == t then st == Ready else Has(k, x, st) { }
    assert t != k.cur by { assert Has(k, k.cur, Running); }
  }

  lemma {:induction false} DrainKeepsReady(k: State, t: Tid)
    requires ListsOk(k) && Has(k, t, Ready)
    ensures Has(Drain(k), t, Ready)
    decreases |k.sleepers|
  {
    if k.sleepers == [] || k.ticks < k.sleepers[0].wake {
    } else {
      UnblockSleeperOk(k);
      DrainKeepsReady(UnblockSleeper(k), t);
    }
  }

  lemma SleeperStays(k: State, e: Event, x: Sleeper)
    requires Inv(k) && Enabled(k, e) && x in k.sleepers
    ensures var k' := Step(k, e);
            k'.ticks == k.ticks + (if e.TimerTick? then 1 else 0) &&
            if k'.ticks < x.wake then x in k'.sleepers else Has(k', x.t, Ready)
  {
    assert x.wake > k.ticks by { BlockedSleeper(k, x); }
    StepTicks(k, e);
    if e.TimerTick? {
      var k1 := k.(ticks := k.ticks + 1);
      TickOk(k);
      TickCpu(k);
      DrainWakesDue(k1, x);
    } else if e.Sleep? {
      InsertSleeperFacts(k.sleepers, Sleeper(k.cur, k.ticks + e.n));
    }
  }

  lemma {:induction false} TicksGrow(k: State, es: seq<Event>)
    requires Inv(k) && Feasible(k, es)
    ensures After(k, es).ticks >= k.ticks
    decreases |es|
  {
    if es == [] {
    } else {
      StepInv(k, es[0]);
      StepTicks(k, es[0]);
      TicksGrow(Step(k, es[0]), es[1..]);
    }
  }

  lemma StepTicks(k: State, e: Event)
    requires Inv(k) && Enabled(k, e)
    ensures Step(k, e).ticks == k.ticks + if e.TimerTick? then 1 else 0
  {
    if e.TimerTick? { TickOk(k); DrainTicks(k.(ticks := k.ticks + 1)); }
  }

  lemma {:induction false} DrainTicks(k: State)
    requires ListsOk(k)
    ensures Drain(k).ticks == k.ticks
    decreases |k.sleepers|
  {
    if k.sleepers == [] || k.ticks < k.sleepers[0].wake {
    } else {
      UnblockSleeperOk(k);
      DrainTicks(UnblockSleeper(k));
    }
  }

  /** A sleeping thread stays blocked on the list, whatever happens, while its deadline is ahead. */
  lemma {:induction false} AsleepBeforeDeadline(k: State, es: seq<Event>, x: Sleeper)
    requires Inv(k) && Feasible(k, es) && x in k.sleepers && After(k, es).ticks < x.wake
    ensures x in After(k, es).sleepers && Has(After(k, es), x.t, Blocked)
    decreases |es|
  {
    if es == [] {
      BlockedSleeper(k, x);
    } else {
      var k' := Step(k, es[0]);
      StepInv(k, es[0]);
      SleeperStays(k, es[0], x);
      TicksGrow(k', es[1..]);
      AsleepBeforeDeadline(k', es[1..], x);
    }
  }

  /** timer_sleep(n) with `n > 0`, against the busy-waiting version, whose caller leaves its loop
      when `ticks - start < n` becomes false: in every run the sleeper is blocked as long as the
      condition holds, and the very tick that makes it false unblocks it. */
  lemma SleepMatchesBusyWait(k: State, n: int, es: seq<Event>)
    requires Inv(k) && n > 0 && Feasible(k, [Sleep(n)] + es)
    ensures var k' := After(k, [Sleep(n)] + es);
            && Inv(k')
            && (k'.ticks - k.ticks < n ==> Has(k', k.cur, Blocked))
            && (k'.ticks - k.ticks < n && !(k'.ticks + 1 - k.ticks < n) && Enabled(k', TimerTick) ==>
                  Has(Step(k', TimerTick), k.cur, Ready))
  {
    var x := Sleeper(k.cur, k.ticks + n);
    assert ([Sleep(n)] + es)[0] == Sleep(n) && ([Sleep(n)] + es)[1..] == es;
    SleepStarts(k, n);
    StepInv(k, Sleep(n));
    var k1 := Step(k, Sleep(n));
    var k' := After(k1, es);
    RunInv(k1, es);
    if k'.ticks < x.wake {
      AsleepBeforeDeadline(k1, es, x);
      if Enabled(k', TimerTick) { SleeperStays(k', TimerTick, x); }
    }
  }

  lemma BlockedSleeper(k: State, x: Sleeper)
    requires Inv(k) && x in k.sleepers
    ensures Has(k, x.t, Blocked) && k.ticks < x.wake
  {
    var i :| 0 <= i < |k.sleepers| && k.sleepers[i] == x;
  }

  /** timer_sleep(n) puts the caller on the list with deadline `ticks + n`; `n <= 0` does nothing. */
  lemma SleepStarts(k: State, n: int)
    requires Inv(k) && Enabled(k, Sleep(n))
    ensures if n > 0 then Sleeper(k.cur, k.ticks + n) in Step(k, Sleep(n)).sleepers else Step(k, Sleep(n)) == k
  {
    InsertSleeperFacts(k.sleepers, Sleeper(k.cur, k.ticks + n));
  }
}
