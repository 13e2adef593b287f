/** timer_sleep as timer.c has it. It reads the clock, walks the sleep list for its place and links
    itself there with interrupts on, and turns them off only to block. Between any two of these
    steps the timer may tick, the thread may be preempted, and other threads may run, be put on the
    list, be taken off it, or exit. One step reads one field of one node, or is one call of list.c. */
module TimerWindow {
  import opened Wrappers
  import opened Runs
  import opened Kernel

  /** What a `list_elem` pointer points to: the node of a thread, or the list's tail. */
  datatype Place = At(t: Tid) | Tail

  /** Where a thread is in timer_sleep, with its deadline `wake`: it has read the clock; it has
      written `wake_up_tick`; it is at the head of the loop, at the node `at`; the deadline of node
      `x` is earlier, and it takes the next node; it is out of the loop, with `insert_elem` at `at`; it is
      linked, and about to block. */
  datatype Phase =
    | ClockRead(wake: int)
    | Marked(wake: int)
    | Looking(wake: int, at: Place)
    | Passing(wake: int, x: Tid)
    | Found(wake: int, at: Place)
    | Queued(wake: int)

  /** A node that was taken off the list: list_remove leaves its fields as they were. */
  datatype Node = Node(wake: int, next: Place)

  /** The kernel's state, with the sleep list as it is in memory; the threads in the window; the
      nodes off the list of threads whose page is there. */
  datatype Real = Real(k: State, win: map<Tid, Phase>, off: map<Tid, Node>)

  /** `Go` is the next step of the current thread in timer_sleep. */
  datatype Act = Plain(e: Event) | ReadClock(n: int) | Go

  /** The entries of threads that are not in the window. */
  function Asleep(q: seq<Sleeper>, win: map<Tid, Phase>): seq<Sleeper> {
    if q == [] then []
    else if q[0].t in win then Asleep(q[1..], win)
    else [q[0]] + Asleep(q[1..], win)
  }

  lemma {:induction false} AsleepMembers(q: seq<Sleeper>, win: map<Tid, Phase>)
    ensures forall x :: x in Asleep(q, win) <==> x in q && x.t !in win
  {
    if q == [] {
    } else {
      AsleepMembers(q[1..], win);
      assert forall x :: x in q <==> x == q[0] || x in q[1..];
    }
  }

  /** What the kernel's state would be had the threads in the window not begun to sleep. */
  function Settled(w: Real): State { w.k.(sleepers := Asleep(w.k.sleepers, w.win)) }

  // ----- The list in memory --------------------------------------------------------------

  /** The position of `t`'s node; the length if it is not listed. */
  function IndexOf(q: seq<Sleeper>, t: Tid): (i: nat)
    ensures i <= |q| && (i < |q| ==> q[i].t == t) && forall j :: 0 <= j < i ==> q[j].t != t
  {
    if q == [] || q[0].t == t then 0 else 1 + IndexOf(q[1..], t)
  }

  predicate Listed(q: seq<Sleeper>, p: Place) { p.Tail? || IndexOf(q, p.t) < |q| }

  function PositionOf(q: seq<Sleeper>, p: Place): (i: nat)
    ensures i <= |q|
  {
    if p.Tail? then |q| else IndexOf(q, p.t)
  }

  function PlaceAt(q: seq<Sleeper>, i: nat): Place { if i < |q| then At(q[i].t) else Tail }

  /** The deadline read in `t`'s node; none if `t` has no such node: it never was on the list, or its
      page has been freed. */
  function WakeField(w: Real, t: Tid): Option<int> {
    var q := w.k.sleepers;
    var i := IndexOf(q, t);
    if i < |q| then Some(q[i].wake)
    else if t !in w.off then None
    else if t in w.win && !w.win[t].ClockRead? then Some(w.win[t].wake)
    else Some(w.off[t].wake)
  }

  /** list_next. */
  function NextField(w: Real, t: Tid): Option<Place> {
    var q := w.k.sleepers;
    var i := IndexOf(q, t);
    if i < |q| then Some(PlaceAt(q, i + 1)) else if t in w.off then Some(w.off[t].next) else None
  }

  function LinkAt(q: seq<Sleeper>, i: nat, e: Sleeper): seq<Sleeper>
    requires i <= |q|
  {
    q[..i] + [e] + q[i..]
  }

  // ----- The machine -------------------------------------------------------------------

  ghost predicate Can(w: Real, a: Act) {
    var cur := w.k.cur;
    if a.Plain? then
      Enabled(Settled(w), a.e) && !a.e.Sleep? && (cur in w.win ==> a.e.Yield? || a.e.Up? || a.e.TimerTick?)
    else if a.ReadClock? then a.n > 0 && cur !in w.win && cur != w.k.idle && cur !in w.k.inDown
    else cur in w.win
  }

  /** The loop of timer_interrupt; none when thread_unblock's assertion fails. */
  function DrainReal(w: Real): Option<Real>
    decreases |w.k.sleepers|
  {
    var q := w.k.sleepers;
    if q == [] || w.k.ticks < q[0].wake then Some(w)
    else if q[0].t in w.k.status && w.k.status[q[0].t] == Blocked then DrainReal(PopFront(w))
    else None
  }

  /** thread_unblock on the front and list_pop_front. */
  function PopFront(w: Real): Real
    requires w.k.sleepers != [] && Has(w.k, w.k.sleepers[0].t, Blocked)
  {
    var q := w.k.sleepers;
    w.(k := UnblockSleeper(w.k), off := w.off[q[0].t := Node(q[0].wake, PlaceAt(q, 1))])
  }

  function SetPhase(w: Real, p: Phase): Real { w.(win := w.win[w.k.cur := p]) }

  /** The step of timer_sleep that follows the current thread's phase. None when it reads a node
      that is not there, or links itself before a node that is off the list. */
  function GoStep(w: Real): Option<Real>
    requires w.k.cur in w.win && w.k.cur in w.k.status
  {
    var k, cur := w.k, w.k.cur;
    match w.win[cur]
    case ClockRead(d) => Some(SetPhase(w, Marked(d)))
    case Marked(d) => Some(SetPhase(w, Looking(d, PlaceAt(k.sleepers, 0))))
    case Looking(d, at) =>
      if at.Tail? then Some(SetPhase(w, Found(d, Tail)))
      else
        var hold := WakeField(w, at.t);
        if hold.None? then None
        else if hold.value >= d then Some(SetPhase(w, Found(d, at)))
        else Some(SetPhase(w, Passing(d, at.t)))
    case Passing(d, x) =>
      var next := NextField(w, x);
      if next.None? then None else Some(SetPhase(w, Looking(d, next.value)))
    case Found(d, at) =>
      if !Listed(k.sleepers, at) then None
      else
        var q := LinkAt(k.sleepers, PositionOf(k.sleepers, at), Sleeper(cur, d));
        Some(SetPhase(w.(k := k.(sleepers := q)), Queued(d)))
    case Queued(d) => Some(w.(k := ThreadBlock(k), win := w.win - {cur}))
  }

  function Ticked(w: Real): Real { w.(k := w.k.(ticks := w.k.ticks + 1)) }

  /** One step; none when it fails. Steps other than those of timer_sleep and the tick neither read
      nor write the sleep list; the page of a thread that exits takes its node along. */
  function StepReal(w: Real, a: Act): Option<Real>
    requires Inv(Settled(w)) && Can(w, a)
  {
    var k, cur := w.k, w.k.cur;
    match a
    case Plain(e) =>
      if e.TimerTick? then DrainReal(Ticked(w))
      else
        var k' := Step(Settled(w), e).(sleepers := k.sleepers);
        Some(w.(k := k', off := map t | t in w.off && t in k'.status :: w.off[t]))
    case ReadClock(n) => Some(SetPhase(w, ClockRead(k.ticks + n)))
    case Go =>
      assert Has(Settled(w), cur, Running);
      GoStep(w)
  }

  // ----- Invariant ---------------------------------------------------------------------

  /** `t` is running or ready, and in no semaphore. */
  ghost predicate Active(k: State, t: Tid) {
    (Has(k, t, Running) || Has(k, t, Ready)) && t !in k.inDown && t != k.idle
  }

  /** The list is in order; its entries of threads in the window are exactly the queued ones. */
  ghost predicate WindowEntries(q: seq<Sleeper>, win: map<Tid, Phase>) {
    && InOrder(q)
    && (forall x :: x in q && x.t in win ==> win[x.t] == Queued(x.wake))
    && (forall t :: t in win && win[t].Queued? ==> Sleeper(t, win[t].wake) in q)
  }

  ghost predicate RealInv(w: Real) {
    Inv(Settled(w)) && WindowEntries(w.k.sleepers, w.win) && forall t :: t in w.win ==> Active(w.k, t)
  }

  /** A linked thread that has not blocked yet, with a deadline at or before `now`. */
  ghost predicate DueInWindow(w: Real, now: int) {
    exists t :: t in w.win && w.win[t].Queued? && w.win[t].wake <= now
  }

  // ----- Order, and what is seen from outside ------------------------------------------------------------------------

  lemma OrderTail(q: seq<Sleeper>)
    requires InOrder(q) && q != []
    ensures InOrder(q[1..]) && forall x :: x in q[1..] ==> q[0].t != x.t && q[0].wake <= x.wake
  {
  }

  lemma OrderCons(x: Sleeper, q: seq<Sleeper>)
    requires InOrder(q) && forall y :: y in q ==> x.t != y.t && x.wake <= y.wake
    ensures InOrder([x] + q)
  {
    var r := [x] + q;
    forall i, j | 0 <= i < j < |r|
      ensures r[i].t != r[j].t && r[i].wake <= r[j].wake
    {
      assert r[j] in q;
    }
  }

  lemma {:induction false} AsleepOrder(q: seq<Sleeper>, win: map<Tid, Phase>)
    requires InOrder(q)
    ensures InOrder(Asleep(q, win))
  {
    if q == [] {
    } else {
      OrderTail(q);
      AsleepOrder(q[1..], win);
      AsleepMembers(q[1..], win);
      if q[0].t !in win { OrderCons(q[0], Asleep(q[1..], win)); }
    }
  }

  /** Only who is in the window and on the list matters. */
  lemma {:induction false} AsleepSame(q: seq<Sleeper>, win: map<Tid, Phase>, win': map<Tid, Phase>)
    requires forall x :: x in q ==> (x.t in win <==> x.t in win')
    ensures Asleep(q, win) == Asleep(q, win')
  {
    if q == [] {
    } else {
      assert q[0] in q;
      AsleepSame(q[1..], win, win');
    }
  }

  /** Linking the node of a thread in the window, at any place, is not seen outside. */
  lemma {:induction false} AsleepLink(q: seq<Sleeper>, i: nat, e: Sleeper, win: map<Tid, Phase>)
    requires i <= |q| && e.t in win
    ensures Asleep(LinkAt(q, i, e), win) == Asleep(q, win)
  {
    var r := LinkAt(q, i, e);
    if i == 0 {
      assert r[1..] == q;
    } else {
      assert r[0] == q[0] && r[1..] == LinkAt(q[1..], i - 1, e);
      AsleepLink(q[1..], i - 1, e, win);
    }
  }

  /** Linking keeps the order exactly if nothing before the place is later and nothing behind it earlier. */
  lemma LinkOrder(q: seq<Sleeper>, i: nat, e: Sleeper)
    requires InOrder(q) && i <= |q| && forall j :: 0 <= j < |q| ==> q[j].t != e.t
    ensures InOrder(LinkAt(q, i, e)) <==>
            (forall j :: 0 <= j < i ==> q[j].wake <= e.wake) && (forall j :: i <= j < |q| ==> e.wake <= q[j].wake)
  {
    var r := LinkAt(q, i, e);
    assert r[i] == e && (forall j :: 0 <= j < i ==> r[j] == q[j]) && (forall j :: i < j < |r| ==> r[j] == q[j - 1]);
    if InOrder(r) {
      forall j | i <= j < |q| ensures e.wake <= q[j].wake { assert r[j + 1] == q[j]; }
    }
  }

  lemma LinkMembers(q: seq<Sleeper>, i: nat, e: Sleeper)
    requires i <= |q|
    ensures forall x :: x in LinkAt(q, i, e) <==> x in q || x == e
  {
    assert q == q[..i] + q[i..];
  }

  // ----- The tick ------------------------------------------------------------------------

  /** What the loop of timer_interrupt starts from and keeps. */
  ghost predicate Ticking(k: State, win: map<Tid, Phase>) {
    && ListsOk(k.(sleepers := Asleep(k.sleepers, win))) && WindowEntries(k.sleepers, win)
    && forall t :: t in win ==> Active(k, t)
  }

  lemma TailEntries(q: seq<Sleeper>, win: map<Tid, Phase>)
    requires WindowEntries(q, win) && q != [] && q[0].t !in win
    ensures WindowEntries(q[1..], win) && Asleep(q, win) == [q[0]] + Asleep(q[1..], win)
  {
    OrderTail(q);
    assert q == [q[0]] + q[1..];
  }

  /** Unblocking a thread outside the window leaves those inside running or ready. */
  lemma UnblockKeepsActive(k: State, win: map<Tid, Phase>)
    requires k.sleepers != [] && Has(k, k.sleepers[0].t, Blocked) && k.sleepers[0].t !in win
    requires forall t :: t in win ==> Active(k, t)
    ensures forall t :: t in win ==> Active(UnblockSleeper(k), t)
  {
  }

  lemma SettledUnblock(k: State, win: map<Tid, Phase>)
    requires k.sleepers != [] && Has(k, k.sleepers[0].t, Blocked) && k.sleepers[0].t !in win
    requires Asleep(k.sleepers, win) == [k.sleepers[0]] + Asleep(k.sleepers[1..], win)
    ensures var s, k' := k.(sleepers := Asleep(k.sleepers, win)), UnblockSleeper(k);
            UnblockSleeper(s) == k'.(sleepers := Asleep(k'.sleepers, win))
  {
    assert ([k.sleepers[0]] + Asleep(k.sleepers[1..], win))[1..] == Asleep(k.sleepers[1..], win);
  }

  /** While the front of the list is not of the window, it is blocked, and taking it off is what the
      loop does without the window. */
  lemma DrainOne(k: State, win: map<Tid, Phase>)
    requires Ticking(k, win) && k.sleepers != [] && k.sleepers[0].t !in win
    ensures Has(k, k.sleepers[0].t, Blocked) && Ticking(UnblockSleeper(k), win)
    ensures var s, k' := k.(sleepers := Asleep(k.sleepers, win)), UnblockSleeper(k);
            s.sleepers != [] && s.sleepers[0] == k.sleepers[0] && Has(s, k.sleepers[0].t, Blocked)
            && UnblockSleeper(s) == k'.(sleepers := Asleep(k'.sleepers, win))
  {
    var s := k.(sleepers := Asleep(k.sleepers, win));
    TailEntries(k.sleepers, win);
    HeadBlocked(s);
    UnblockSleeperOk(s);
    SettledUnblock(k, win);
    UnblockKeepsActive(k, win);
  }

  lemma HeadBlocked(s: State)
    requires ListsOk(s) && s.sleepers != []
    ensures Has(s, s.sleepers[0].t, Blocked)
  {
  }

  /** With nothing of the window due, the loop does to the list what it would do without the window. */
  lemma {:induction false} DrainPasses(w: Real)
    requires Ticking(w.k, w.win) && forall x :: x in w.k.sleepers && x.t in w.win ==> x.wake > w.k.ticks
    ensures DrainReal(w).Some?
    ensures var d := DrainReal(w).value;
            && d.win == w.win && WindowEntries(d.k.sleepers, w.win) && (forall t :: t in w.win ==> Active(d.k, t))
            && Settled(d) == Drain(Settled(w))
    decreases |w.k.sleepers|
  {
    var k, s := w.k, Settled(w);
    if k.sleepers == [] {
    } else if k.ticks < k.sleepers[0].wake {
      OrderTail(k.sleepers);
      AsleepMembers(k.sleepers, w.win);
      if s.sleepers != [] { assert s.sleepers[0] in k.sleepers; }
    } else {
      assert k.sleepers[0] in k.sleepers;
      DrainOne(k, w.win);
      assert forall x :: x in k.sleepers[1..] ==> x in k.sleepers;
      DrainPasses(PopFront(w));
    }
  }

  /** What the loop takes off the list was due; what was not due stays on it. */
  lemma {:induction false} DrainLeaves(w: Real)
    requires DrainReal(w).Some?
    ensures var d := DrainReal(w).value;
            && d.k.ticks == w.k.ticks && d.win == w.win
            && (forall x :: x in w.k.sleepers && x.wake > w.k.ticks ==> x in d.k.sleepers)
            && (forall t :: t in d.off ==> d.off[t].wake <= w.k.ticks || (t in w.off && d.off[t] == w.off[t]))
    decreases |w.k.sleepers|
  {
    var q := w.k.sleepers;
    if q == [] || w.k.ticks < q[0].wake {
    } else {
      assert q == [q[0]] + q[1..];
      DrainLeaves(PopFront(w));
    }
  }

  /** With something of the window due, the loop calls thread_unblock on a thread that is not blocked. */
  lemma {:induction false} DrainFails(w: Real, x: Sleeper)
    requires Ticking(w.k, w.win) && x in w.k.sleepers && x.t in w.win && x.wake <= w.k.ticks
    ensures DrainReal(w).None?
    decreases |w.k.sleepers|
  {
    var h := w.k.sleepers[0];
    FirstIsEarliest(w.k.sleepers, x);
    if h.t in w.win {
      assert Active(w.k, h.t) && !Has(w.k, h.t, Blocked);
    } else {
      DrainOne(w.k, w.win);
      DrainFails(PopFront(w), x);
    }
  }

  lemma FirstIsEarliest(q: seq<Sleeper>, x: Sleeper)
    requires InOrder(q) && x in q
    ensures q[0].wake <= x.wake && (x.t != q[0].t ==> x in q[1..])
  {
    OrderTail(q);
    assert q == [q[0]] + q[1..];
  }

  /** The tick: an assertion fails exactly when a queued thread of the window is due; otherwise the
      tick does what it would do without the window. */
  lemma TickFailsIff(w: Real)
    requires RealInv(w) && Can(w, Plain(TimerTick))
    ensures StepReal(w, Plain(TimerTick)).None? <==> DueInWindow(w, w.k.ticks + 1)
    ensures var w' := StepReal(w, Plain(TimerTick));
            w'.Some? ==> RealInv(w'.value) && w'.value.win == w.win
                         && Settled(w'.value) == Step(Settled(w), TimerTick)
  {
    TickIsDrain(w);
    if DueInWindow(w, w.k.ticks + 1) { TickFails(w); } else { TickPasses(w); }
  }

  lemma TickFails(w: Real)
    requires RealInv(w) && DueInWindow(w, w.k.ticks + 1)
    ensures DrainReal(Ticked(w)).None?
  {
    var t :| t in w.win && w.win[t].Queued? && w.win[t].wake <= w.k.ticks + 1;
    TickingStarts(w);
    DrainFails(Ticked(w), Sleeper(t, w.win[t].wake));
  }

  lemma TickIsDrain(w: Real)
    requires Inv(Settled(w)) && Can(w, Plain(TimerTick))
    ensures StepReal(w, Plain(TimerTick)) == DrainReal(Ticked(w))
  {
  }

  lemma TickPasses(w: Real)
    requires RealInv(w) && Can(w, Plain(TimerTick)) && !DueInWindow(w, w.k.ticks + 1)
    ensures DrainReal(Ticked(w)).Some?
    ensures var d := DrainReal(Ticked(w)).value;
            RealInv(d) && d.win == w.win && Settled(d) == Step(Settled(w), TimerTick)
  {
    TickDrains(w);
    TickSettles(w, DrainReal(Ticked(w)).value);
  }

  lemma TickDrains(w: Real)
    requires RealInv(w) && !DueInWindow(w, w.k.ticks + 1)
    ensures ListsOk(Settled(Ticked(w))) && DrainReal(Ticked(w)).Some?
    ensures var d := DrainReal(Ticked(w)).value;
            && d.win == w.win && WindowEntries(d.k.sleepers, w.win) && (forall t :: t in w.win ==> Active(d.k, t))
            && Settled(d) == Drain(Settled(Ticked(w)))
  {
    TickingStarts(w);
    NotDue(w.k.sleepers, w.win, w.k.ticks + 1);
    DrainPasses(Ticked(w));
  }

  lemma NotDue(q: seq<Sleeper>, win: map<Tid, Phase>, now: int)
    requires WindowEntries(q, win) && !exists t :: t in win && win[t].Queued? && win[t].wake <= now
    ensures forall x :: x in q && x.t in win ==> x.wake > now
  {
    forall x | x in q && x.t in win ensures x.wake > now { assert win[x.t] == Queued(x.wake); }
  }

  lemma TickSettles(w: Real, d: Real)
    requires Inv(Settled(w)) && Enabled(Settled(w), TimerTick) && ListsOk(Settled(Ticked(w)))
    requires d.win == w.win && WindowEntries(d.k.sleepers, w.win) && forall t :: t in w.win ==> Active(d.k, t)
    requires Settled(d) == Drain(Settled(Ticked(w)))
    ensures RealInv(d) && Settled(d) == Step(Settled(w), TimerTick)
  {
    TickedSettles(w);
    DrainIsStep(Settled(w));
  }

  lemma DrainIsStep(k: State)
    requires Inv(k) && Enabled(k, TimerTick) && ListsOk(k.(ticks := k.ticks + 1))
    ensures Step(k, TimerTick) == Drain(k.(ticks := k.ticks + 1)) && Inv(Step(k, TimerTick))
  {
    StepInv(k, TimerTick);
  }

  lemma TickingStarts(w: Real)
    requires RealInv(w)
    ensures Ticking(Ticked(w).k, w.win)
  {
    TickOk(Settled(w));
    TickedSettles(w);
    ActiveAcrossTick(w.k, w.win);
  }

  lemma TickedSettles(w: Real)
    ensures Settled(Ticked(w)) == Settled(w).(ticks := Settled(w).ticks + 1)
  {
  }

  lemma ActiveAcrossTick(k: State, win: map<Tid, Phase>)
    requires forall t :: t in win ==> Active(k, t)
    ensures forall t :: t in win ==> Active(k.(ticks := k.ticks + 1), t)
  {
    forall t | t in win ensures Active(k.(ticks := k.ticks + 1), t) { assert Active(k, t); }
  }

  // ----- The other steps -------------------------------------------------------------------

  lemma PlainLeavesList(k: State, e: Event)
    requires Inv(k) && Enabled(k, e) && !e.Sleep? && !e.TimerTick?
    ensures Step(k, e).sleepers == k.sleepers && Step(k, e).ticks == k.ticks
  {
    if e.Up? { UpOk(k, e.s); }
  }

  /** Another thread's step, or a yield or an interrupt's semaphore_up, leaves a running or ready
      thread running or ready. */
  lemma StaysActive(k: State, e: Event, t: Tid)
    requires Inv(k) && Enabled(k, e) && !e.Sleep? && !e.TimerTick? && Active(k, t)
    requires t == k.cur ==> e.Yield? || e.Up?
    ensures Active(Step(k, e), t)
  {
    StepInv(k, e);
    assert Has(k, k.cur, Running) && (t != k.cur ==> Has(k, t, Ready) && t in k.ready);
    if e.Yield? {
      ScheduleKeepsActive(MarkCur(if k.cur == k.idle then k else k.(ready := k.ready + [k.cur]), Ready), t);
    } else if e.Exit? {
      ScheduleKeepsActive(MarkCur(k, Dying), t);
    } else if e.IdleBlock? {
      ScheduleKeepsActive(MarkCur(k, Blocked), t);
    } else if e.Down? {
      DownKeepsActive(k, e.s, t);
    } else if e.Recheck? {
      DownKeepsActive(k, k.inDown[k.cur], t);
    } else if e.Up? {
      UpOk(k, e.s);
    }
  }

  lemma ScheduleKeepsActive(k: State, t: Tid)
    requires k.cur in k.status && Has(k, t, Ready) && t !in k.inDown && t != k.idle
    ensures Active(Schedule(k), t)
  {
  }

  lemma DownKeepsActive(k: State, s: SemId, t: Tid)
    requires s < |k.sems| && k.cur in k.status && Has(k, t, Ready) && t !in k.inDown && t != k.idle && t != k.cur
    ensures Active(DownStep(k, s), t)
  {
    if k.sems[s].value == 0 { ScheduleKeepsActive(QueueOn(k, s), t); }
  }

  lemma PlainKeeps(w: Real, e: Event)
    requires RealInv(w) && Can(w, Plain(e)) && !e.TimerTick?
    ensures var w' := StepReal(w, Plain(e)).value;
            RealInv(w') && Settled(w') == Step(Settled(w), e) && w'.win == w.win && w'.k.ticks == w.k.ticks
  {
    var s, w' := Settled(w), StepReal(w, Plain(e)).value;
    StepInv(s, e);
    PlainLeavesList(s, e);
    forall t | t in w'.win ensures Active(w'.k, t) {
      assert Active(w.k, t) && Active(s, t);
      StaysActive(s, e, t);
      assert Active(Step(s, e), t);
    }
  }

  lemma ReadKeeps(w: Real, n: int)
    requires RealInv(w) && Can(w, ReadClock(n))
    ensures var w' := StepReal(w, ReadClock(n)).value; RealInv(w') && Settled(w') == Settled(w)
  {
    var k, w' := w.k, StepReal(w, ReadClock(n)).value;
    CurNotListed(Settled(w));
    AsleepMembers(k.sleepers, w.win);
    forall x | x in k.sleepers ensures x.t != k.cur {
      if x.t !in w.win { ListedSleeps(Settled(w).sleepers, x); }
    }
    AsleepSame(k.sleepers, w.win, w'.win);
    assert Has(Settled(w), k.cur, Running);
    forall t | t in w'.win ensures Active(w'.k, t) { assert t != k.cur ==> Active(w.k, t); }
  }

  /** The steps up to the link change nothing but the thread's own phase. */
  lemma PhaseKeeps(w: Real, p: Phase)
    requires RealInv(w) && w.k.cur in w.win && !w.win[w.k.cur].Queued? && !p.Queued?
    ensures RealInv(SetPhase(w, p)) && Settled(SetPhase(w, p)) == Settled(w)
  {
    var w' := SetPhase(w, p);
    AsleepSame(w.k.sleepers, w.win, w'.win);
    forall t | t in w'.win ensures Active(w'.k, t) { assert Active(w.k, t); }
  }

  /** A thread in the window that has not linked itself is not listed. */
  lemma NotYetListed(q: seq<Sleeper>, win: map<Tid, Phase>, t: Tid)
    requires WindowEntries(q, win) && t in win && !win[t].Queued?
    ensures forall j :: 0 <= j < |q| ==> q[j].t != t
  {
    forall j | 0 <= j < |q| ensures q[j].t != t { assert q[j] in q; }
  }

  /** A link that leaves the list in order is not seen outside. */
  lemma LinkKeeps(w: Real)
    requires RealInv(w) && Can(w, Go) && w.win[w.k.cur].Found? && GoStep(w).Some? && InOrder(GoStep(w).value.k.sleepers)
    ensures RealInv(GoStep(w).value) && Settled(GoStep(w).value) == Settled(w)
  {
    var q, cur, w' := w.k.sleepers, w.k.cur, GoStep(w).value;
    var i, e := PositionOf(q, w.win[cur].at), Sleeper(cur, w.win[cur].wake);
    NotYetListed(q, w.win, cur);
    LinkMembers(q, i, e);
    LinkedEntries(q, w.win, i, e);
    AsleepLink(q, i, e, w.win);
    AsleepSame(w'.k.sleepers, w.win, w'.win);
    forall t | t in w'.win ensures Active(w'.k, t) { assert Active(w.k, t); }
  }

  lemma LinkedEntries(q: seq<Sleeper>, win: map<Tid, Phase>, i: nat, e: Sleeper)
    requires WindowEntries(q, win) && e.t in win && !win[e.t].Queued? && i <= |q| && InOrder(LinkAt(q, i, e))
    ensures WindowEntries(LinkAt(q, i, e), win[e.t := Queued(e.wake)])
  {
    NotYetListed(q, win, e.t);
    LinkMembers(q, i, e);
  }

  /** Blocking before the deadline is falling asleep as if the whole had been one step. */
  lemma BlockKeeps(w: Real)
    requires RealInv(w) && Can(w, Go) && w.win[w.k.cur].Queued? && w.win[w.k.cur].wake > w.k.ticks
    ensures var w' := GoStep(w).value;
            RealInv(w') && w'.win == w.win - {w.k.cur} && w'.k.ticks == w.k.ticks
            && forall x :: x in Settled(w').sleepers <==>
                 x in Settled(w).sleepers || x == Sleeper(w.k.cur, w.win[w.k.cur].wake)
  {
    var k, cur := w.k, w.k.cur;
    var s, e, win' := Settled(w), Sleeper(cur, w.win[cur].wake), w.win - {cur};
    var q := Asleep(k.sleepers, win');
    var k1 := MarkCur(s.(sleepers := q), Blocked);
    BlockList(w);
    AsleepOrder(k.sleepers, win');
    assert Active(k, cur);
    assert FallsAsleep(s, k1, e);
    AsleepInv(s, k1, e);
    var w' := GoStep(w).value;
    assert Settled(w') == Schedule(k1);
    BlockWindow(w);
  }

  /** The list of those asleep gains the one entry. */
  lemma BlockList(w: Real)
    requires RealInv(w) && Can(w, Go) && w.win[w.k.cur].Queued?
    ensures var cur := w.k.cur;
            forall x :: x in Asleep(w.k.sleepers, w.win - {cur}) <==>
                          x in Asleep(w.k.sleepers, w.win) || x == Sleeper(cur, w.win[cur].wake)
  {
    AsleepMembers(w.k.sleepers, w.win);
    AsleepMembers(w.k.sleepers, w.win - {w.k.cur});
  }

  lemma BlockWindow(w: Real)
    requires RealInv(w) && Can(w, Go) && w.win[w.k.cur].Queued?
    ensures var w' := GoStep(w).value;
            WindowEntries(w'.k.sleepers, w'.win) && forall t :: t in w'.win ==> Active(w'.k, t)
  {
    var k, w' := w.k, GoStep(w).value;
    forall t | t in w'.win ensures Active(w'.k, t) {
      assert Active(k, t) && t != k.cur;
      assert Has(Settled(w), t, Ready) by { assert Has(Settled(w), t, Running) ==> t == k.cur; }
      ScheduleKeepsActive(MarkCur(k, Blocked), t);
    }
  }

  // ----- Harm -----------------------------------------------------------------------------------

  /** The thread blocks with its deadline already past. */
  ghost predicate Late(w: Real, a: Act)
    requires Can(w, a)
  {
    a.Go? && w.win[w.k.cur].Queued? && w.win[w.k.cur].wake <= w.k.ticks
  }

  /** The step fails: an assertion, a node that is not there, a link before a node off the list; or
      somebody blocks late; or the list is out of order. */
  ghost predicate Harms(w: Real, a: Act)
    requires Inv(Settled(w)) && Can(w, a)
  {
    var w' := StepReal(w, a);
    w'.None? || Late(w, a) || !InOrder(w'.value.k.sleepers)
  }

  lemma StepKeeps(w: Real, a: Act)
    requires RealInv(w) && Can(w, a) && !Harms(w, a)
    ensures RealInv(StepReal(w, a).value)
    ensures StepReal(w, a).value.k.ticks == w.k.ticks + if a == Plain(TimerTick) then 1 else 0
  {
    if a.Plain? {
      if a.e.TimerTick? { TickFailsIff(w); StepTicks(Settled(w), TimerTick); } else { PlainKeeps(w, a.e); }
    } else if a.ReadClock? {
      ReadKeeps(w, a.n);
    } else {
      GoKeeps(w);
    }
  }

  lemma GoKeeps(w: Real)
    requires RealInv(w) && Can(w, Go) && !Harms(w, Go)
    ensures RealInv(StepReal(w, Go).value) && StepReal(w, Go).value.k.ticks == w.k.ticks
    ensures !w.win[w.k.cur].Queued? ==> Settled(StepReal(w, Go).value) == Settled(w)
  {
    var p := w.win[w.k.cur];
    GoIsStep(w);
    if p.Found? {
      LinkKeeps(w);
    } else if p.Queued? {
      BlockKeeps(w);
    } else {
      GoMoves(w);
      PhaseKeeps(w, GoStep(w).value.win[w.k.cur]);
    }
  }

  lemma GoIsStep(w: Real)
    requires Inv(Settled(w)) && Can(w, Go)
    ensures w.k.cur in w.k.status && StepReal(w, Go) == GoStep(w)
  {
    assert Has(Settled(w), w.k.cur, Running);
  }

  /** Up to the link, a step of timer_sleep only moves the thread's own phase. */
  lemma GoMoves(w: Real)
    requires w.k.cur in w.win && w.k.cur in w.k.status && GoStep(w).Some?
    requires !w.win[w.k.cur].Found? && !w.win[w.k.cur].Queued?
    ensures var p := GoStep(w).value.win[w.k.cur];
            GoStep(w).value == SetPhase(w, p) && !p.ClockRead? && !p.Queued? && p.wake == w.win[w.k.cur].wake
  {
  }

  /** Who is in the window stays there with its deadline, until it blocks. */
  lemma GoWindow(w: Real, t: Tid)
    requires w.k.cur in w.win && w.k.cur in w.k.status && GoStep(w).Some?
    requires t in w.win && (t == w.k.cur ==> !w.win[t].Queued?)
    ensures var w' := GoStep(w).value; t in w'.win && w'.win[t].wake == w.win[t].wake
    ensures var w' := GoStep(w).value; t != w.k.cur ==> w'.win[t] == w.win[t]
  {
  }

  /** An enabled step that does no harm. */
  ghost predicate Harmless(w: Real, a: Act, v: Real) {
    RealInv(w) && Can(w, a) && !Harms(w, a) && StepReal(w, a) == Some(v)
  }

  lemma HarmlessKeeps(w: Real, a: Act, v: Real)
    requires Harmless(w, a, v)
    ensures RealInv(v) && v.k.ticks >= w.k.ticks
  {
    StepKeeps(w, a);
  }

  // ----- When the window does harm -----------------------------------------------------------

  /** Every deadline in the window is ahead. */
  ghost predicate Ahead(w: Real, now: int) { forall t :: t in w.win ==> w.win[t].wake > now }

  /** No tick reaches a deadline of the window; the walk reads the nodes of threads that have not
      exited only; a thread links itself before a node that is still listed, with nothing later in
      front of it. */
  ghost predicate Careful(w: Real, a: Act)
    requires Can(w, a)
  {
    var q := w.k.sleepers;
    if a.Plain? then a.e.TimerTick? ==> Ahead(w, w.k.ticks + 1)
    else if a.ReadClock? then true
    else
      match w.win[w.k.cur]
      case Looking(_, at) => at.Tail? || HasNode(w, at.t)
      case Passing(_, x) => HasNode(w, x)
      case Found(d, at) => Listed(q, at) && forall j :: 0 <= j < PositionOf(q, at) ==> q[j].wake <= d
      case _ => true
  }

  /** `t`'s node is on the list, or was, and its page is there. */
  predicate HasNode(w: Real, t: Tid) { IndexOf(w.k.sleepers, t) < |w.k.sleepers| || t in w.off }

  /** `t`'s node says `d` or later, and will when it is linked. */
  ghost predicate NotBefore(w: Real, t: Tid, d: int) {
    (exists x :: x in w.k.sleepers && x.t == t && x.wake >= d)
    || (t in w.win && !w.win[t].ClockRead? && w.win[t].wake >= d)
  }

  /** Where a walk has ended, the deadline is not earlier. */
  ghost predicate FoundOk(w: Real) {
    forall t :: t in w.win && w.win[t].Found? && w.win[t].at.At? ==> NotBefore(w, w.win[t].at.t, w.win[t].wake)
  }

  /** What was taken off the list was due. */
  ghost predicate OffPast(w: Real) { forall t :: t in w.off ==> w.off[t].wake <= w.k.ticks }

  /** What careful runs keep. */
  ghost predicate Sound(w: Real) { RealInv(w) && Ahead(w, w.k.ticks) && OffPast(w) && FoundOk(w) }

  lemma FoundBehind(w: Real, d: int, at: Place)
    requires RealInv(w) && Listed(w.k.sleepers, at) && (at.At? ==> NotBefore(w, at.t, d))
    ensures forall j :: PositionOf(w.k.sleepers, at) <= j < |w.k.sleepers| ==> d <= w.k.sleepers[j].wake
  {
    var q, i := w.k.sleepers, PositionOf(w.k.sleepers, at);
    if at.At? {
      assert q[i] in q && q[i].t == at.t;
      if x :| x in q && x.t == at.t && x.wake >= d {
        var j :| 0 <= j < |q| && q[j] == x;
        assert i == j;
      }
      assert at.t in w.win ==> w.win[at.t] == Queued(q[i].wake);
    }
  }

  /** Of the link: it does no harm exactly when it is careful. */
  lemma LinkIff(w: Real)
    requires Sound(w) && Can(w, Go) && w.win[w.k.cur].Found?
    ensures Harms(w, Go) <==> !Careful(w, Go)
  {
    var q, cur := w.k.sleepers, w.k.cur;
    var d, at := w.win[cur].wake, w.win[cur].at;
    GoIsStep(w);
    if Listed(q, at) {
      NotYetListed(q, w.win, cur);
      FoundBehind(w, d, at);
      LinkOrder(q, PositionOf(q, at), Sleeper(cur, d));
    }
  }

  /** Of every step of timer_sleep. */
  lemma GoIff(w: Real)
    requires Sound(w) && Can(w, Go)
    ensures Harms(w, Go) <==> !Careful(w, Go)
  {
    GoIsStep(w);
    if w.win[w.k.cur].Found? { LinkIff(w); } else if w.win[w.k.cur].Queued? { BlockKeeps(w); }
  }

  lemma CarefulKeeps(w: Real, a: Act)
    requires Sound(w) && Can(w, a) && Careful(w, a)
    ensures !Harms(w, a) && Sound(StepReal(w, a).value)
  {
    if a.Plain? {
      if a.e.TimerTick? { TickIsSound(w); } else { PlainKeeps(w, a.e); }
    } else if a.ReadClock? {
      ReadIsSound(w, a.n);
    } else {
      GoIff(w);
      GoIsSound(w);
    }
  }

  lemma TickIsSound(w: Real)
    requires Sound(w) && Can(w, Plain(TimerTick)) && Ahead(w, w.k.ticks + 1)
    ensures !Harms(w, Plain(TimerTick)) && Sound(StepReal(w, Plain(TimerTick)).value)
  {
    TickFailsIff(w);
    TickIsDrain(w);
    TickLeaves(Ticked(w));
  }

  /** What lies ahead of the tick is found as it was. */
  lemma TickLeaves(w: Real)
    requires DrainReal(w).Some? && Ahead(w, w.k.ticks) && FoundOk(w)
    requires forall t :: t in w.off ==> w.off[t].wake <= w.k.ticks
    ensures var d := DrainReal(w).value; Ahead(d, d.k.ticks) && OffPast(d) && FoundOk(d)
  {
    var d := DrainReal(w).value;
    DrainLeaves(w);
    forall t | t in d.win && d.win[t].Found? && d.win[t].at.At? ensures NotBefore(d, d.win[t].at.t, d.win[t].wake) {
      assert NotBefore(w, w.win[t].at.t, w.win[t].wake);
    }
  }

  lemma ReadIsSound(w: Real, n: int)
    requires Sound(w) && Can(w, ReadClock(n))
    ensures !Harms(w, ReadClock(n)) && Sound(StepReal(w, ReadClock(n)).value)
  {
    ReadKeeps(w, n);
    var w' := StepReal(w, ReadClock(n)).value;
    forall t | t in w'.win && w'.win[t].Found? && w'.win[t].at.At?
      ensures NotBefore(w', w'.win[t].at.t, w'.win[t].wake)
    {
      assert NotBefore(w, w.win[t].at.t, w.win[t].wake);
    }
  }

  lemma GoIsSound(w: Real)
    requires Sound(w) && Can(w, Go) && !Harms(w, Go)
    ensures Sound(StepReal(w, Go).value)
  {
    GoKeeps(w);
    GoIsStep(w);
    if w.win[w.k.cur].Looking? { FoundNotBefore(w); }
    GoFinds(w);
    GoAhead(w);
  }

  lemma GoAhead(w: Real)
    requires w.k.cur in w.win && w.k.cur in w.k.status && GoStep(w).Some? && Ahead(w, w.k.ticks) && OffPast(w)
    ensures Ahead(GoStep(w).value, w.k.ticks) && GoStep(w).value.k.ticks == w.k.ticks && OffPast(GoStep(w).value)
  {
  }

  lemma GoFinds(w: Real)
    requires w.k.cur in w.win && w.k.cur in w.k.status && GoStep(w).Some? && FoundOk(w)
    requires WindowEntries(w.k.sleepers, w.win)
    requires var p := GoStep(w).value.win; w.win[w.k.cur].Looking? && p[w.k.cur].Found? && p[w.k.cur].at.At? ==>
               NotBefore(w, p[w.k.cur].at.t, p[w.k.cur].wake)
    ensures FoundOk(GoStep(w).value)
  {
    var w' := GoStep(w).value;
    forall t | t in w'.win && w'.win[t].Found? && w'.win[t].at.At?
      ensures NotBefore(w', w'.win[t].at.t, w'.win[t].wake)
    {
      assert t != w.k.cur ==> w'.win[t] == w.win[t];
      GoNotBefore(w, w'.win[t].at.t, w'.win[t].wake);
    }
  }

  lemma GoNotBefore(w: Real, t: Tid, d: int)
    requires WindowEntries(w.k.sleepers, w.win) && w.k.cur in w.win && w.k.cur in w.k.status
    requires GoStep(w).Some? && NotBefore(w, t, d)
    ensures NotBefore(GoStep(w).value, t, d)
  {
    var q, cur, w' := w.k.sleepers, w.k.cur, GoStep(w).value;
    if w.win[cur].Found? {
      LinkMembers(q, PositionOf(q, w.win[cur].at), Sleeper(cur, w.win[cur].wake));
    } else if w.win[cur].Queued? {
      assert Sleeper(cur, w.win[cur].wake) in w'.k.sleepers;
    }
  }

  /** The node at which the loop ends. */
  lemma FoundNotBefore(w: Real)
    requires w.k.cur in w.win && w.k.cur in w.k.status && GoStep(w).Some? && w.win[w.k.cur].Looking?
    requires Ahead(w, w.k.ticks) && OffPast(w)
    ensures var p := GoStep(w).value.win[w.k.cur]; p.Found? && p.at.At? ==> NotBefore(w, p.at.t, p.wake)
  {
    var q, at := w.k.sleepers, w.win[w.k.cur].at;
    if at.At? && IndexOf(q, at.t) < |q| { assert q[IndexOf(q, at.t)] in q; }
  }

  /** An enabled step that is careful. */
  ghost predicate CarefulStep(w: Real, a: Act, v: Real) {
    Sound(w) && Can(w, a) && Careful(w, a) && StepReal(w, a) == Some(v)
  }

  /** Without harm, the window keeps a thread whose deadline has passed. */
  lemma OverdueStep(w: Real, a: Act, t: Tid)
    requires RealInv(w) && Can(w, a) && !Harms(w, a) && t in w.win && w.win[t].wake <= w.k.ticks
    ensures t in StepReal(w, a).value.win && StepReal(w, a).value.win[t].wake == w.win[t].wake
  {
    if a == Plain(TimerTick) {
      TickFailsIff(w);
    } else if a.Plain? {
      PlainKeeps(w, a.e);
    } else if a.Go? {
      GoIsStep(w);
      GoWindow(w, t);
    }
  }

  /** A thread whose deadline has passed while it was in the window never leaves it without harm. */
  lemma {:induction false} OverdueStays(w: Real, run: seq<Act>, z: Real, t: Tid)
    requires Run(Harmless, w, run, z) && t in w.win && w.win[t].wake <= w.k.ticks
    ensures t in z.win
    decreases |run|
  {
    if run == [] {
    } else {
      var v :| Harmless(w, run[0], v) && Run(Harmless, v, run[1..], z);
      HarmlessKeeps(w, run[0], v);
      OverdueStep(w, run[0], t);
      OverdueStays(v, run[1..], z, t);
    }
  }

  /** A tick that reaches a deadline of the window does harm, at once or later. */
  lemma LateTickHarms(w: Real, v: Real, run: seq<Act>, z: Real)
    requires Harmless(w, Plain(TimerTick), v) && !Ahead(w, w.k.ticks + 1) && Run(Harmless, v, run, z)
    ensures z.win != map[]
  {
    TickFailsIff(w);
    StepKeeps(w, Plain(TimerTick));
    var t :| t in w.win && w.win[t].wake <= w.k.ticks + 1;
    OverdueStays(v, run, z, t);
  }

  lemma HarmlessIsCareful(w: Real, a: Act, v: Real)
    requires Sound(w) && Harmless(w, a, v) && !(a == Plain(TimerTick) && !Ahead(w, w.k.ticks + 1))
    ensures CarefulStep(w, a, v) && Sound(v)
  {
    if a.Go? { GoIff(w); }
    CarefulKeeps(w, a);
  }

  lemma CarefulIsHarmless(w: Real, a: Act, v: Real)
    requires CarefulStep(w, a, v)
    ensures Harmless(w, a, v) && Sound(v)
  {
    CarefulKeeps(w, a);
  }

  /** A run at whose end nobody is left in the window does no harm exactly if all its steps are
      careful. */
  lemma {:induction false} HarmlessIff(w: Real, run: seq<Act>, z: Real)
    requires Sound(w) && z.win == map[]
    ensures Run(Harmless, w, run, z) <==> Run(CarefulStep, w, run, z)
    decreases |run|
  {
    if run == [] {
    } else {
      forall v | Harmless(w, run[0], v) && Run(Harmless, v, run[1..], z)
        ensures CarefulStep(w, run[0], v) && Run(CarefulStep, v, run[1..], z)
      {
        if run[0] == Plain(TimerTick) && !Ahead(w, w.k.ticks + 1) { LateTickHarms(w, v, run[1..], z); }
        HarmlessIsCareful(w, run[0], v);
        HarmlessIff(v, run[1..], z);
      }
      forall v | CarefulStep(w, run[0], v) && Run(CarefulStep, v, run[1..], z)
        ensures Harmless(w, run[0], v) && Run(Harmless, v, run[1..], z)
      {
        CarefulIsHarmless(w, run[0], v);
        HarmlessIff(v, run[1..], z);
      }
    }
  }

  /** Careful runs do no harm, wherever they end. */
  lemma {:induction false} CarefulRunIsHarmless(w: Real, run: seq<Act>, z: Real)
    requires Sound(w) && Run(CarefulStep, w, run, z)
    ensures Run(Harmless, w, run, z) && Sound(z)
    decreases |run|
  {
    if run == [] {
    } else {
      var v :| CarefulStep(w, run[0], v) && Run(CarefulStep, v, run[1..], z);
      CarefulIsHarmless(w, run[0], v);
      CarefulRunIsHarmless(v, run[1..], z);
    }
  }

  // ----- What the nodes say ---------------------------------------------------------------------

  ghost predicate SameNode(w: Real, v: Real, t: Tid) {
    WakeField(v, t) == WakeField(w, t) && NextField(v, t) == NextField(w, t)
  }

  lemma IndexTail(q: seq<Sleeper>, t: Tid)
    requires q != [] && q[0].t != t
    ensures IndexOf(q, t) == 1 + IndexOf(q[1..], t)
  {
  }

  lemma PopKeepsNode(w: Real, t: Tid)
    requires w.k.sleepers != [] && Has(w.k, w.k.sleepers[0].t, Blocked) && w.k.sleepers[0].t !in w.win && InOrder(w.k.sleepers)
    ensures SameNode(w, PopFront(w), t)
  {
    var q := w.k.sleepers;
    OrderTail(q);
    if t == q[0].t {
      NotListed(q[1..], t);
    } else {
      IndexTail(q, t);
      PlaceTail(q, IndexOf(q[1..], t) + 1);
    }
  }

  lemma PlaceTail(q: seq<Sleeper>, i: nat)
    requires q != []
    ensures PlaceAt(q[1..], i) == PlaceAt(q, i + 1)
  {
  }

  lemma NotListed(q: seq<Sleeper>, t: Tid)
    requires forall x :: x in q ==> x.t != t
    ensures IndexOf(q, t) == |q|
  {
    assert forall i :: 0 <= i < |q| ==> q[i] in q;
  }

  lemma {:induction false} DrainKeepsNode(w: Real, t: Tid)
    requires DrainReal(w).Some? && Ticking(w.k, w.win)
    ensures SameNode(w, DrainReal(w).value, t)
    decreases |w.k.sleepers|
  {
    var q := w.k.sleepers;
    if q == [] || w.k.ticks < q[0].wake {
    } else {
      assert q[0] in q;
      assert q[0].t !in w.win by { assert q[0].t in w.win ==> Active(w.k, q[0].t); }
      DrainOne(w.k, w.win);
      PopKeepsNode(w, t);
      DrainKeepsNode(PopFront(w), t);
    }
  }

  /** The timer takes nodes off the list but changes none: a walk that stands on one goes on to the node
      that followed it. */
  lemma TickKeepsNodes(w: Real, v: Real)
    requires Harmless(w, Plain(TimerTick), v)
    ensures forall t :: SameNode(w, v, t)
  {
    TickIsDrain(w);
    TickingStarts(w);
    forall t ensures SameNode(w, v, t) {
      assert WakeField(Ticked(w), t) == WakeField(w, t) && NextField(Ticked(w), t) == NextField(w, t);
      DrainKeepsNode(Ticked(w), t);
    }
  }

  /** Other steps change no node; only the page of a thread that exits takes its node along. */
  lemma PlainKeepsNodes(w: Real, e: Event, v: Real)
    requires Harmless(w, Plain(e), v) && !e.TimerTick?
    ensures forall t :: WakeField(v, t).Some? ==> SameNode(w, v, t)
    ensures forall t :: WakeField(w, t).Some? && t in v.k.status ==> SameNode(w, v, t)
    ensures forall t :: t !in v.k.status ==> WakeField(v, t).None? && NextField(v, t).None?
  {
    assert v.k.sleepers == w.k.sleepers && v.win == w.win;
    PlainKeeps(w, e);
    forall t | t !in v.k.status ensures WakeField(v, t).None? && NextField(v, t).None? { GoneIsOff(v, t); }
  }

  /** Whoever is listed has its page. */
  lemma GoneIsOff(w: Real, t: Tid)
    requires RealInv(w) && t !in w.k.status
    ensures IndexOf(w.k.sleepers, t) == |w.k.sleepers|
  {
    var q := w.k.sleepers;
    AsleepMembers(q, w.win);
    forall x | x in q ensures x.t != t {
      if x.t in w.win {
        assert Active(w.k, x.t);
      } else {
        BlockedSleeper(Settled(w), x);
        assert Has(Settled(w), x.t, Blocked);
      }
    }
    NotListed(q, t);
  }

  lemma IndexUnique(q: seq<Sleeper>, t: Tid, i: nat)
    requires i <= |q| && (i < |q| ==> q[i].t == t) && forall j :: 0 <= j < i ==> q[j].t != t
    ensures IndexOf(q, t) == i
  {
  }

  lemma LinkIndex(q: seq<Sleeper>, i: nat, e: Sleeper, t: Tid)
    requires i <= |q| && forall j :: 0 <= j < |q| ==> q[j].t != e.t
    ensures IndexOf(LinkAt(q, i, e), e.t) == i
    ensures t != e.t ==> IndexOf(LinkAt(q, i, e), t) == IndexOf(q, t) + if IndexOf(q, t) < i then 0 else 1
  {
    var r := LinkAt(q, i, e);
    assert forall j :: 0 <= j < |r| ==> r[j] == if j < i then q[j] else if j == i then e else q[j - 1];
    IndexUnique(r, e.t, i);
    if t != e.t { IndexUnique(r, t, IndexOf(q, t) + if IndexOf(q, t) < i then 0 else 1); }
  }

  /** The link: the thread's node has the place found behind it, and the listed node that had that place
      behind it has the thread's; every other node is as it was. */
  lemma LinkNodes(w: Real, v: Real, t: Tid)
    requires Harmless(w, Go, v) && w.win[w.k.cur].Found?
    ensures WakeField(v, w.k.cur) == Some(w.win[w.k.cur].wake) && NextField(v, w.k.cur) == Some(w.win[w.k.cur].at)
    ensures t != w.k.cur ==> WakeField(v, t) == WakeField(w, t)
    ensures t != w.k.cur ==>
              NextField(v, t) == if IndexOf(w.k.sleepers, t) < |w.k.sleepers| && NextField(w, t) == Some(w.win[w.k.cur].at)
                                 then Some(At(w.k.cur)) else NextField(w, t)
  {
    GoIsStep(w);
    NotYetListed(w.k.sleepers, w.win, w.k.cur);
    OwnNode(w, v, w.k.cur);
    if t != w.k.cur { OtherNode(w, v, w.k.cur, t); }
  }

  /** `v` is `w` with the node of `cur` linked. */
  ghost predicate LinksNode(w: Real, v: Real, cur: Tid) {
    && cur in w.win && w.win[cur].Found? && InOrder(w.k.sleepers) && Listed(w.k.sleepers, w.win[cur].at)
    && (forall j :: 0 <= j < |w.k.sleepers| ==> w.k.sleepers[j].t != cur)
    && v.k.sleepers == LinkAt(w.k.sleepers, PositionOf(w.k.sleepers, w.win[cur].at), Sleeper(cur, w.win[cur].wake))
    && v.win == w.win[cur := Queued(w.win[cur].wake)] && v.off == w.off
  }

  lemma OwnNode(w: Real, v: Real, cur: Tid)
    requires LinksNode(w, v, cur)
    ensures WakeField(v, cur) == Some(w.win[cur].wake) && NextField(v, cur) == Some(w.win[cur].at)
  {
    var q, at, e := w.k.sleepers, w.win[cur].at, Sleeper(cur, w.win[cur].wake);
    LinkIndex(q, PositionOf(q, at), e, cur);
    LinkPlaces(q, PositionOf(q, at), e, 0);
    SamePlace(q, at, 0);
  }

  lemma OtherNode(w: Real, v: Real, cur: Tid, t: Tid)
    requires LinksNode(w, v, cur) && t != cur
    ensures WakeField(v, t) == WakeField(w, t)
    ensures NextField(v, t) == if IndexOf(w.k.sleepers, t) < |w.k.sleepers| && NextField(w, t) == Some(w.win[cur].at)
                               then Some(At(cur)) else NextField(w, t)
  {
    if IndexOf(w.k.sleepers, t) < |w.k.sleepers| {
      ListedNode(w.k.sleepers, w.win[cur].at, Sleeper(cur, w.win[cur].wake), t);
    } else {
      OffNode(w.k.sleepers, w.win[cur].at, Sleeper(cur, w.win[cur].wake), t);
    }
  }

  lemma OffNode(q: seq<Sleeper>, at: Place, e: Sleeper, t: Tid)
    requires Listed(q, at) && t != e.t && IndexOf(q, t) == |q| && forall j :: 0 <= j < |q| ==> q[j].t != e.t
    ensures var r := LinkAt(q, PositionOf(q, at), e); IndexOf(r, t) == |r|
  {
    LinkIndex(q, PositionOf(q, at), e, t);
  }

  lemma ListedNode(q: seq<Sleeper>, at: Place, e: Sleeper, t: Tid)
    requires InOrder(q) && Listed(q, at) && t != e.t && IndexOf(q, t) < |q| && forall j :: 0 <= j < |q| ==> q[j].t != e.t
    ensures var r, j := LinkAt(q, PositionOf(q, at), e), IndexOf(q, t);
            && IndexOf(r, t) < |r| && r[IndexOf(r, t)].wake == q[j].wake
            && PlaceAt(r, IndexOf(r, t) + 1) == if PlaceAt(q, j + 1) == at then At(e.t) else PlaceAt(q, j + 1)
  {
    var i, j := PositionOf(q, at), IndexOf(q, t);
    LinkIndex(q, i, e, t);
    LinkPlaces(q, i, e, IndexOf(LinkAt(q, i, e), t) + 1);
    SamePlace(q, at, j + 1);
    LinkedEntry(q, i, e, j);
  }

  lemma LinkedEntry(q: seq<Sleeper>, i: nat, e: Sleeper, j: nat)
    requires i <= |q| && j < |q|
    ensures LinkAt(q, i, e)[if j < i then j else j + 1] == q[j]
  {
  }

  lemma LinkPlaces(q: seq<Sleeper>, i: nat, e: Sleeper, j: nat)
    requires i <= |q|
    ensures PlaceAt(LinkAt(q, i, e), i + 1) == PlaceAt(q, i)
    ensures PlaceAt(LinkAt(q, i, e), j) == if j < i then PlaceAt(q, j) else if j == i then At(e.t) else PlaceAt(q, j - 1)
  {
  }

  /** A place has one position. */
  lemma SamePlace(q: seq<Sleeper>, at: Place, j: nat)
    requires InOrder(q) && Listed(q, at) && j <= |q|
    ensures PlaceAt(q, PositionOf(q, at)) == at && (PlaceAt(q, j) == at <==> j == PositionOf(q, at))
  {
  }

  /** Before the link: only the thread's own deadline is written, if it has been on the list before. */
  lemma WalkKeepsNodes(w: Real, v: Real, t: Tid)
    requires Harmless(w, Go, v) && !w.win[w.k.cur].Found?
    ensures NextField(v, t) == NextField(w, t)
    ensures WakeField(v, t) == if t == w.k.cur && w.win[t].ClockRead? && WakeField(w, t).Some? then Some(w.win[t].wake) else WakeField(w, t)
  {
    GoIsStep(w);
    if w.win[w.k.cur].Queued? {
      BlockKeepsNode(w, v, w.k.cur, t);
    } else {
      NotYetListed(w.k.sleepers, w.win, w.k.cur);
      GoMoves(w);
      MoveKeepsNode(w, v.win[w.k.cur], t);
    }
  }

  lemma BlockKeepsNode(w: Real, v: Real, cur: Tid, t: Tid)
    requires WindowEntries(w.k.sleepers, w.win) && cur in w.win && w.win[cur].Queued?
    requires v.k.sleepers == w.k.sleepers && v.off == w.off && v.win == w.win - {cur}
    ensures SameNode(w, v, t)
  {
    ListedFirst(w.k.sleepers, Sleeper(cur, w.win[cur].wake));
  }

  lemma MoveKeepsNode(w: Real, p: Phase, t: Tid)
    requires w.k.cur in w.win && p.wake == w.win[w.k.cur].wake && !p.ClockRead?
    requires forall j :: 0 <= j < |w.k.sleepers| ==> w.k.sleepers[j].t != w.k.cur
    ensures var v := SetPhase(w, p);
            && NextField(v, t) == NextField(w, t)
            && WakeField(v, t) == if t == w.k.cur && w.win[t].ClockRead? && WakeField(w, t).Some? then Some(w.win[t].wake) else WakeField(w, t)
  {
  }

  lemma ListedFirst(q: seq<Sleeper>, x: Sleeper)
    requires x in q
    ensures IndexOf(q, x.t) < |q|
  {
    var i :| 0 <= i < |q| && q[i] == x;
  }

  // ----- Sleeping up to the deadline -------------------------------------------------------------

  /** `t` is in the window or asleep, to be woken at tick `wake`. */
  ghost predicate Waiting(w: Real, t: Tid, wake: int) {
    (t in w.win && w.win[t].wake == wake) || Sleeper(t, wake) in Settled(w).sleepers
  }

  lemma WaitingStep(w: Real, a: Act, t: Tid, wake: int)
    requires RealInv(w) && Can(w, a) && !Harms(w, a) && Waiting(w, t, wake)
    requires StepReal(w, a).value.k.ticks < wake
    ensures Waiting(StepReal(w, a).value, t, wake)
  {
    var s, x := Settled(w), Sleeper(t, wake);
    StepKeeps(w, a);
    if a.Plain? {
      if a.e.TimerTick? { TickFailsIff(w); } else { PlainKeeps(w, a.e); }
      if x in s.sleepers { SleeperStays(s, a.e, x); }
    } else if a.ReadClock? {
      ReadKeeps(w, a.n);
    } else {
      WaitingGo(w, t, wake);
    }
  }

  lemma WaitingGo(w: Real, t: Tid, wake: int)
    requires RealInv(w) && Can(w, Go) && !Harms(w, Go) && Waiting(w, t, wake)
    ensures Waiting(StepReal(w, Go).value, t, wake)
  {
    GoIsStep(w);
    GoKeeps(w);
    if w.win[w.k.cur].Queued? {
      BlockKeeps(w);
    } else if t in w.win && w.win[t].wake == wake {
      GoWindow(w, t);
    }
  }

  /** timer_sleep(n) as a whole, against the busy-waiting version. Its caller `t` read the clock at tick
      `start`, and `wake` is `start + n`: in every harmless run it goes on waiting, in the window or
      blocked, as long as `ticks - start < n` holds, that is up to `wake`; and `DeadlineWakes` applies to
      the tick that makes it false. */
  lemma {:induction false} WaitsToDeadline(w: Real, run: seq<Act>, z: Real, t: Tid, wake: int)
    requires RealInv(w) && Run(Harmless, w, run, z) && Waiting(w, t, wake)
    ensures z.k.ticks >= w.k.ticks
    ensures z.k.ticks < wake ==> Waiting(z, t, wake) && (t in z.win || Has(z.k, t, Blocked))
    decreases |run|
  {
    if run == [] {
      WaitingIsBlocked(w, t, wake);
    } else {
      var v :| Harmless(w, run[0], v) && Run(Harmless, v, run[1..], z);
      HarmlessKeeps(w, run[0], v);
      RunKeeps(v, run[1..], z);
      if z.k.ticks < wake {
        WaitingStep(w, run[0], t, wake);
        WaitsToDeadline(v, run[1..], z, t, wake);
      }
    }
  }

  lemma {:induction false} RunKeeps(w: Real, run: seq<Act>, z: Real)
    requires RealInv(w) && Run(Harmless, w, run, z)
    ensures RealInv(z) && z.k.ticks >= w.k.ticks
    decreases |run|
  {
    if run == [] {
    } else {
      var v :| Harmless(w, run[0], v) && Run(Harmless, v, run[1..], z);
      HarmlessKeeps(w, run[0], v);
      RunKeeps(v, run[1..], z);
    }
  }

  /** And the tick that reaches the deadline, if it is early enough for the window, makes it ready. */
  lemma DeadlineWakes(w: Real, t: Tid, v: Real)
    requires Harmless(w, Plain(TimerTick), v) && Ahead(w, w.k.ticks + 1) && Waiting(w, t, w.k.ticks + 1)
    ensures Has(v.k, t, Ready)
  {
    TickFailsIff(w);
    SleeperStays(Settled(w), TimerTick, Sleeper(t, w.k.ticks + 1));
    assert Has(Settled(v), t, Ready);
  }

  lemma WaitingIsBlocked(w: Real, t: Tid, wake: int)
    requires RealInv(w) && Waiting(w, t, wake)
    ensures t in w.win || Has(w.k, t, Blocked)
  {
    if t !in w.win {
      BlockedSleeper(Settled(w), Sleeper(t, wake));
      assert Has(Settled(w), t, Blocked);
    }
  }

  // ----- Without interrupts ------------------------------------------------------------------------

  lemma {:induction false} NobodyInWindow(q: seq<Sleeper>)
    ensures Asleep(q, map[]) == q
  {
    if q == [] {
    } else {
      NobodyInWindow(q[1..]);
    }
  }

  /** A state of the kernel with nobody in timer_sleep. */
  function Fresh(k: State): Real { Real(k, map[], map[]) }

  lemma FreshIsSound(k: State)
    requires Inv(k)
    ensures Settled(Fresh(k)) == k && Sound(Fresh(k))
  {
    NobodyInWindow(k.sleepers);
  }

  lemma SetTwice(w: Real, p: Phase, p': Phase)
    ensures SetPhase(SetPhase(w, p), p') == SetPhase(w, p')
  {
    assert w.win[w.k.cur := p][w.k.cur := p'] == w.win[w.k.cur := p'];
  }

  /** One step of timer_sleep before the link. */
  lemma PhaseGoes(w: Real, p: Phase, p': Phase)
    requires RealInv(w) && w.k.cur in w.win && w.k.cur in w.k.status && !w.win[w.k.cur].Queued?
    requires !p.Queued? && !p.Found? && GoStep(SetPhase(w, p)) == Some(SetPhase(SetPhase(w, p), p'))
    ensures Harmless(SetPhase(w, p), Go, SetPhase(w, p'))
  {
    PhaseKeeps(w, p);
    GoIsStep(SetPhase(w, p));
    GoMoves(SetPhase(w, p));
    SetTwice(w, p, p');
  }

  /** Where the loop stops if nothing interrupts it. */
  function Stop(q: seq<Sleeper>, d: int): (i: nat)
    ensures i <= |q|
  {
    if q == [] || q[0].wake >= d then 0 else 1 + Stop(q[1..], d)
  }

  lemma {:induction false} StopStops(q: seq<Sleeper>, d: int)
    ensures forall j :: 0 <= j < Stop(q, d) ==> q[j].wake < d
    ensures Stop(q, d) < |q| ==> q[Stop(q, d)].wake >= d
  {
    if q == [] || q[0].wake >= d {
    } else {
      StopStops(q[1..], d);
      assert forall j :: 0 < j < |q| ==> q[j] == q[1..][j - 1];
    }
  }

  lemma {:induction false} StopInserts(q: seq<Sleeper>, e: Sleeper)
    ensures LinkAt(q, Stop(q, e.wake), e) == InsertSleeper(q, e)
  {
    if q == [] || q[0].wake >= e.wake {
    } else {
      StopInserts(q[1..], e);
      var i := Stop(q[1..], e.wake);
      assert q[..i + 1] == [q[0]] + q[1..][..i] && q[i + 1..] == q[1..][i..];
    }
  }

  lemma IndexOfAt(q: seq<Sleeper>, i: nat)
    requires InOrder(q) && i < |q|
    ensures IndexOf(q, q[i].t) == i
  {
  }

  /** Out of the loop, at the place for deadline `d`. */
  function Arrived(w: Real, d: int): Real { SetPhase(w, Found(d, PlaceAt(w.k.sleepers, Stop(w.k.sleepers, d)))) }

  /** At node `i`, before and after the deadline there is read. */
  function AtNode(w: Real, d: int, i: nat): Real { SetPhase(w, Looking(d, PlaceAt(w.k.sleepers, i))) }

  function PastNode(w: Real, d: int, i: nat): Real {
    SetPhase(w, Passing(d, if i < |w.k.sleepers| then w.k.sleepers[i].t else w.k.cur))
  }

  /** The thread is in the window, not linked yet. */
  ghost predicate OnItsWay(w: Real) {
    RealInv(w) && w.k.cur in w.win && w.k.cur in w.k.status && !w.win[w.k.cur].Queued?
  }

  lemma NodeReads(w: Real, d: int, i: nat)
    requires InOrder(w.k.sleepers) && w.k.cur in w.k.status && i < Stop(w.k.sleepers, d)
    ensures GoStep(AtNode(w, d, i)) == Some(SetPhase(AtNode(w, d, i), Passing(d, w.k.sleepers[i].t)))
    ensures GoStep(PastNode(w, d, i)) == Some(SetPhase(PastNode(w, d, i), Looking(d, PlaceAt(w.k.sleepers, i + 1))))
  {
    StopStops(w.k.sleepers, d);
    IndexOfAt(w.k.sleepers, i);
  }

  lemma LastReads(w: Real, d: int)
    requires InOrder(w.k.sleepers) && w.k.cur in w.k.status
    ensures var i := Stop(w.k.sleepers, d);
            GoStep(AtNode(w, d, i)) == Some(SetPhase(AtNode(w, d, i), Found(d, PlaceAt(w.k.sleepers, i))))
  {
    StopStops(w.k.sleepers, d);
    if Stop(w.k.sleepers, d) < |w.k.sleepers| { IndexOfAt(w.k.sleepers, Stop(w.k.sleepers, d)); }
  }

  lemma NodeGoes(w: Real, d: int, i: nat)
    requires OnItsWay(w) && i < Stop(w.k.sleepers, d)
    ensures Harmless(AtNode(w, d, i), Go, PastNode(w, d, i))
  {
    NodeReads(w, d, i);
    PhaseGoes(w, Looking(d, PlaceAt(w.k.sleepers, i)), Passing(d, w.k.sleepers[i].t));
  }

  lemma NextGoes(w: Real, d: int, i: nat)
    requires OnItsWay(w) && i < Stop(w.k.sleepers, d)
    ensures Harmless(PastNode(w, d, i), Go, AtNode(w, d, i + 1))
  {
    NodeReads(w, d, i);
    PhaseGoes(w, Passing(d, w.k.sleepers[i].t), Looking(d, PlaceAt(w.k.sleepers, i + 1)));
  }

  lemma LastGoes(w: Real, d: int)
    requires OnItsWay(w)
    ensures Harmless(AtNode(w, d, Stop(w.k.sleepers, d)), Go, Arrived(w, d))
  {
    LastReads(w, d);
    var at := PlaceAt(w.k.sleepers, Stop(w.k.sleepers, d));
    PhaseGoes(w, Looking(d, at), Found(d, at));
  }

  lemma FirstGoes(w: Real, d: int)
    requires OnItsWay(w)
    ensures Harmless(SetPhase(w, ClockRead(d)), Go, SetPhase(w, Marked(d)))
    ensures Harmless(SetPhase(w, Marked(d)), Go, AtNode(w, d, 0))
  {
    PhaseGoes(w, ClockRead(d), Marked(d));
    PhaseGoes(w, Marked(d), Looking(d, PlaceAt(w.k.sleepers, 0)));
  }

  lemma ReadGoes(w: Real, n: int)
    requires RealInv(w) && Can(w, ReadClock(n))
    ensures var v := SetPhase(w, ClockRead(w.k.ticks + n)); Harmless(w, ReadClock(n), v) && OnItsWay(v)
  {
    ReadKeeps(w, n);
    assert Has(Settled(w), w.k.cur, Running);
  }

  /** `does` takes every step that does no harm. The runs below are put together from steps of any
      such machine, so that what a harmless step is need not be looked into again. */
  ghost predicate Allows(does: (Real, Act, Real) -> bool) {
    forall w, a, v {:trigger Harmless(w, a, v)} :: Harmless(w, a, v) ==> does(w, a, v)
  }

  /** The steps of the walk past `n` nodes. */
  ghost predicate WalkSteps(does: (Real, Act, Real) -> bool, w: Real, d: int, n: nat) {
    && does(SetPhase(w, ClockRead(d)), Go, SetPhase(w, Marked(d)))
    && does(SetPhase(w, Marked(d)), Go, AtNode(w, d, 0))
    && (forall j: nat :: j < n ==> does(AtNode(w, d, j), Go, PastNode(w, d, j)) && does(PastNode(w, d, j), Go, AtNode(w, d, j + 1)))
    && does(AtNode(w, d, n), Go, Arrived(w, d))
  }

  lemma WalkIsSteps(does: (Real, Act, Real) -> bool, w: Real, d: int)
    requires Allows(does) && OnItsWay(w)
    ensures WalkSteps(does, w, d, Stop(w.k.sleepers, d))
  {
    FirstGoes(w, d);
    forall j: nat | j < Stop(w.k.sleepers, d)
      ensures does(AtNode(w, d, j), Go, PastNode(w, d, j)) && does(PastNode(w, d, j), Go, AtNode(w, d, j + 1))
    {
      NodeGoes(w, d, j);
      NextGoes(w, d, j);
    }
    LastGoes(w, d);
  }

  /** How many steps the walk takes. */
  function WalkLength(w: Real, d: int): nat { 2 * Stop(w.k.sleepers, d) + 3 }

  lemma StepsRun(does: (Real, Act, Real) -> bool, w: Real, d: int)
    requires WalkSteps(does, w, d, Stop(w.k.sleepers, d))
    ensures Run(does, SetPhase(w, ClockRead(d)), Times(WalkLength(w, d), Go), Arrived(w, d))
  {
    RunWalk(does, SetPhase(w, ClockRead(d)), SetPhase(w, Marked(d)), (j: nat) => AtNode(w, d, j),
            (j: nat) => PastNode(w, d, j), Go, Stop(w.k.sleepers, d), Arrived(w, d));
  }

  lemma WalkRuns(does: (Real, Act, Real) -> bool, w: Real, d: int)
    requires Allows(does) && OnItsWay(SetPhase(w, ClockRead(d)))
    ensures Run(does, SetPhase(w, ClockRead(d)), Times(WalkLength(w, d), Go), Arrived(w, d))
  {
    var v := SetPhase(w, ClockRead(d));
    WalkIsSteps(does, v, d);
    StepsRun(does, v, d);
    SetTwice(w, ClockRead(d), ClockRead(d));
    SetTwice(w, ClockRead(d), Found(d, PlaceAt(w.k.sleepers, Stop(w.k.sleepers, d))));
  }

  lemma ReadStep(does: (Real, Act, Real) -> bool, w: Real, n: int)
    requires Allows(does) && RealInv(w) && Can(w, ReadClock(n))
    ensures does(w, ReadClock(n), SetPhase(w, ClockRead(w.k.ticks + n)))
  {
    ReadGoes(w, n);
  }

  lemma WalkAfterRead(does: (Real, Act, Real) -> bool, w: Real, n: int)
    requires Allows(does) && RealInv(w) && Can(w, ReadClock(n))
    ensures var d := w.k.ticks + n;
            Run(does, SetPhase(w, ClockRead(d)), Times(WalkLength(w, d), Go), Arrived(w, d))
  {
    ReadGoes(w, n);
    WalkRuns(does, w, w.k.ticks + n);
  }

  /** timer_sleep(n) up to the end of its loop. */
  lemma Arrives(does: (Real, Act, Real) -> bool, w: Real, n: int)
    requires Allows(does) && RealInv(w) && Can(w, ReadClock(n))
    ensures var d := w.k.ticks + n; Run(does, w, [ReadClock(n)] + Times(WalkLength(w, d), Go), Arrived(w, d))
  {
    var d := w.k.ticks + n;
    ReadStep(does, w, n);
    WalkAfterRead(does, w, n);
    RunPrefix(does, w, ReadClock(n), SetPhase(w, ClockRead(d)), Times(WalkLength(w, d), Go), Arrived(w, d));
  }

  /** Linked, and about to block. */
  function Linked(w: Real, d: int): Real {
    SetPhase(w.(k := w.k.(sleepers := InsertSleeper(w.k.sleepers, Sleeper(w.k.cur, d)))), Queued(d))
  }

  /** What the loop has found is the place of `InsertSleeper`. */
  lemma LinkInserts(w: Real, d: int)
    requires InOrder(w.k.sleepers) && w.k.cur in w.k.status && forall j :: 0 <= j < |w.k.sleepers| ==> w.k.sleepers[j].t != w.k.cur
    ensures GoStep(Arrived(w, d)) == Some(Linked(w, d)) && InOrder(Linked(w, d).k.sleepers)
  {
    var q, e := w.k.sleepers, Sleeper(w.k.cur, d);
    var i := Stop(q, d);
    if i < |q| { IndexOfAt(q, i); }
    StopInserts(q, e);
    StopIsPlace(q, d);
    LinkOrder(q, i, e);
    SetTwice(w, Found(d, PlaceAt(q, i)), Queued(d));
  }

  lemma StopIsPlace(q: seq<Sleeper>, d: int)
    requires InOrder(q)
    ensures forall j :: 0 <= j < Stop(q, d) ==> q[j].wake <= d
    ensures forall j :: Stop(q, d) <= j < |q| ==> d <= q[j].wake
  {
    StopStops(q, d);
  }

  lemma LinkGoes(w: Real, d: int)
    requires OnItsWay(w)
    ensures Harmless(Arrived(w, d), Go, Linked(w, d))
  {
    LinkReady(w, d);
    GoIsStep(Arrived(w, d));
  }

  lemma LinkReal(w: Real, d: int)
    requires OnItsWay(w)
    ensures RealInv(Linked(w, d))
  {
    LinkReady(w, d);
    LinkKeeps(Arrived(w, d));
  }

  lemma LinkReady(w: Real, d: int)
    requires OnItsWay(w)
    ensures RealInv(Arrived(w, d)) && Arrived(w, d).k.cur in Arrived(w, d).k.status
    ensures GoStep(Arrived(w, d)) == Some(Linked(w, d)) && InOrder(Linked(w, d).k.sleepers)
  {
    PhaseKeeps(w, Found(d, PlaceAt(w.k.sleepers, Stop(w.k.sleepers, d))));
    NotYetListed(w.k.sleepers, w.win, w.k.cur);
    LinkInserts(w, d);
  }

  /** What is found and linked does not depend on the phase before. */
  lemma SameAfterRead(w: Real, d: int)
    ensures Arrived(SetPhase(w, ClockRead(d)), d) == Arrived(w, d) && Linked(SetPhase(w, ClockRead(d)), d) == Linked(w, d)
  {
    SetTwice(w, ClockRead(d), Found(d, PlaceAt(w.k.sleepers, Stop(w.k.sleepers, d))));
    SetTwice(w.(k := Linked(w, d).k), ClockRead(d), Queued(d));
  }

  lemma ReadOnItsWay(w: Real, n: int)
    requires RealInv(w) && Can(w, ReadClock(n))
    ensures OnItsWay(SetPhase(w, ClockRead(w.k.ticks + n)))
  {
    ReadGoes(w, n);
  }

  lemma LinkDoes(does: (Real, Act, Real) -> bool, w: Real, d: int)
    requires Allows(does) && OnItsWay(SetPhase(w, ClockRead(d)))
    ensures does(Arrived(w, d), Go, Linked(w, d))
  {
    SameAfterRead(w, d);
    LinkGoes(SetPhase(w, ClockRead(d)), d);
  }

  lemma LinkStep(does: (Real, Act, Real) -> bool, w: Real, n: int)
    requires Allows(does) && RealInv(w) && Can(w, ReadClock(n))
    ensures does(Arrived(w, w.k.ticks + n), Go, Linked(w, w.k.ticks + n))
  {
    ReadOnItsWay(w, n);
    LinkDoes(does, w, w.k.ticks + n);
  }

  lemma ArrivesToLink(does: (Real, Act, Real) -> bool, w: Real, n: int) returns (v: Real)
    requires Allows(does) && RealInv(w) && Can(w, ReadClock(n))
    ensures var d := w.k.ticks + n;
            Run(does, w, [ReadClock(n)] + Times(WalkLength(w, d), Go), v) && does(v, Go, Linked(w, d))
  {
    v := Arrived(w, w.k.ticks + n);
    Arrives(does, w, n);
    LinkStep(does, w, n);
  }

  /** timer_sleep(n) up to the link: the node is where `InsertSleeper` puts it. */
  lemma Links(does: (Real, Act, Real) -> bool, w: Real, n: int)
    requires Allows(does) && RealInv(w) && Can(w, ReadClock(n))
    ensures var d := w.k.ticks + n; Run(does, w, [ReadClock(n)] + Times(WalkLength(w, d) + 1, Go), Linked(w, d))
  {
    var v := ArrivesToLink(does, w, n);
    RunLast(does, w, ReadClock(n), WalkLength(w, w.k.ticks + n), v, Go, Linked(w, w.k.ticks + n));
  }

  /** Asleep, as `Kernel` has it. */
  function Slept(w: Real, d: int): Real { w.(k := FallAsleep(w.k, Sleeper(w.k.cur, d))) }

  lemma BlockGoes(w: Real, d: int)
    requires RealInv(Linked(w, d)) && w.k.cur !in w.win && d > w.k.ticks
    ensures Harmless(Linked(w, d), Go, Slept(w, d))
  {
    var v := Linked(w, d);
    GoIsStep(v);
    BlockKeeps(v);
    assert v.win - {v.k.cur} == w.win;
  }

  lemma LinkedIsReal(w: Real, n: int)
    requires RealInv(w) && Can(w, ReadClock(n))
    ensures RealInv(Linked(w, w.k.ticks + n))
  {
    SameAfterRead(w, w.k.ticks + n);
    ReadOnItsWay(w, n);
    LinkReal(SetPhase(w, ClockRead(w.k.ticks + n)), w.k.ticks + n);
  }

  lemma BlockDoes(does: (Real, Act, Real) -> bool, w: Real, d: int)
    requires Allows(does) && RealInv(Linked(w, d)) && w.k.cur !in w.win && d > w.k.ticks
    ensures does(Linked(w, d), Go, Slept(w, d))
  {
    BlockGoes(w, d);
  }

  lemma BlockStep(does: (Real, Act, Real) -> bool, w: Real, n: int)
    requires Allows(does) && RealInv(w) && Can(w, ReadClock(n))
    ensures does(Linked(w, w.k.ticks + n), Go, Slept(w, w.k.ticks + n))
  {
    ReadOnItsWay(w, n);
    BlockAfterRead(does, w, w.k.ticks + n);
  }

  lemma BlockAfterRead(does: (Real, Act, Real) -> bool, w: Real, d: int)
    requires Allows(does) && OnItsWay(SetPhase(w, ClockRead(d))) && w.k.cur !in w.win && d > w.k.ticks
    ensures does(Linked(w, d), Go, Slept(w, d))
  {
    SameAfterRead(w, d);
    LinkReal(SetPhase(w, ClockRead(d)), d);
    BlockDoes(does, w, d);
  }

  lemma LinksToBlock(does: (Real, Act, Real) -> bool, w: Real, n: int) returns (v: Real)
    requires Allows(does) && RealInv(w) && Can(w, ReadClock(n))
    ensures var d := w.k.ticks + n;
            Run(does, w, [ReadClock(n)] + Times(WalkLength(w, d) + 1, Go), v) && does(v, Go, Slept(w, d))
  {
    v := Linked(w, w.k.ticks + n);
    Links(does, w, n);
    BlockStep(does, w, n);
  }

  /** Without interrupts, timer_sleep(n) is the one step that `Kernel` takes it to be. */
  lemma UninterruptedSleep(does: (Real, Act, Real) -> bool, w: Real, n: int)
    requires Allows(does) && RealInv(w) && Can(w, ReadClock(n))
    ensures var d := w.k.ticks + n; Run(does, w, [ReadClock(n)] + Times(WalkLength(w, d) + 2, Go), Slept(w, d))
  {
    var v := LinksToBlock(does, w, n);
    RunLast(does, w, ReadClock(n), WalkLength(w, w.k.ticks + n) + 1, v, Go, Slept(w, w.k.ticks + n));
  }

  lemma FreshSleeps(k: State, n: int)
    requires Inv(k) && Enabled(k, Sleep(n)) && n > 0
    ensures RealInv(Fresh(k)) && Can(Fresh(k), ReadClock(n))
  {
    FreshIsSound(k);
  }

  lemma HarmlessAllows()
    ensures Allows(Harmless)
  {
  }

  /** `Kernel` takes timer_sleep(n) to be one step; that is what it comes to if nothing interrupts it. */
  lemma UninterruptedIsKernelStep(k: State, n: int)
    requires Inv(k) && Enabled(k, Sleep(n)) && n > 0
    ensures Run(Harmless, Fresh(k), [ReadClock(n)] + Times(WalkLength(Fresh(k), k.ticks + n) + 2, Go), Fresh(Step(k, Sleep(n))))
  {
    FreshSleeps(k, n);
    HarmlessAllows();
    UninterruptedSleep(Harmless, Fresh(k), n);
  }

  // ----- Two runs that do harm -----------------------------------------------------------------

  /** A tick may come while the current thread is in the window. */
  lemma TickComes(w: Real)
    requires RealInv(w) && w.k.cur in w.win
    ensures Can(w, Plain(TimerTick))
  {
    assert Active(w.k, w.k.cur);
  }

  lemma TickHarmsIff(w: Real)
    requires RealInv(w) && Can(w, Plain(TimerTick))
    ensures Harms(w, Plain(TimerTick)) <==> DueInWindow(w, w.k.ticks + 1)
  {
    TickFailsIff(w);
  }

  /** Wherever timer_sleep(n) is called: a tick after its link (`Links`), before it blocks, makes the
      interrupt call thread_unblock on the running thread, and the assertion there fails, exactly
      when n is 1. */
  lemma TickInWindowFailsIff(w: Real, n: int)
    requires w.win == map[] && RealInv(w) && Can(w, ReadClock(n))
    ensures var v := Linked(w, w.k.ticks + n);
            RealInv(v) && Can(v, Plain(TimerTick)) && (Harms(v, Plain(TimerTick)) <==> n == 1)
  {
    var v := Linked(w, w.k.ticks + n);
    LinkedIsReal(w, n);
    TickComes(v);
    TickHarmsIff(v);
    assert v.win[w.k.cur] == Queued(w.k.ticks + n);
  }

  /** The loop does not look behind an entry that is not due: what is listed behind it stays, due or
      not. */
  lemma {:induction false} Overslept(w: Real, i: nat, j: nat)
    requires i < j < |w.k.sleepers| && w.k.sleepers[i].wake > w.k.ticks && DrainReal(w).Some?
    ensures w.k.sleepers[j] in DrainReal(w).value.k.sleepers
    decreases |w.k.sleepers|
  {
    var q := w.k.sleepers;
    if w.k.ticks < q[0].wake {
    } else {
      assert q[1..][i - 1] == q[i] && q[1..][j - 1] == q[j];
      Overslept(PopFront(w), i - 1, j - 1);
    }
  }

  /** From one thread in the window to the next: a yield with one thread ready. */
  lemma YieldTo(w: Real, b: Tid) returns (v: Real)
    requires RealInv(w) && w.k.cur != w.k.idle && w.k.cur !in w.k.inDown && w.k.ready == [b]
    ensures Harmless(w, Plain(Yield), v) && RealInv(v)
    ensures v.k.cur == b && v.k.ready == [w.k.cur] && v.k.sleepers == w.k.sleepers && v.k.ticks == w.k.ticks
    ensures v.k.inDown == w.k.inDown && v.k.idle == w.k.idle && v.win == w.win
  {
    v := StepReal(w, Plain(Yield)).value;
    PlainKeeps(w, Yield);
    assert ([b] + [w.k.cur])[1..] == [w.k.cur];
  }

  /** A sleeper with the list empty has found its place, and the timer ticks before its deadline. */
  lemma WalkedAndTicked(does: (Real, Act, Real) -> bool, w: Real, n: int) returns (v: Real)
    requires Allows(does) && RealInv(w) && Can(w, ReadClock(n)) && w.win == map[] && w.k.sleepers == [] && n > 1
    ensures Run(does, w, [ReadClock(n)] + Times(3, Go) + [Plain(TimerTick)], v)
    ensures RealInv(v) && v.win == map[w.k.cur := Found(w.k.ticks + n, Tail)] && v.k == w.k.(ticks := w.k.ticks + 1)
  {
    var u := Arrived(w, w.k.ticks + n);
    Arrives(does, w, n);
    v := Ticked(u);
    TickedStep(does, w, n);
    RunOne(does, u, Plain(TimerTick), v);
    RunOn(does, w, [ReadClock(n)] + Times(3, Go), u, [Plain(TimerTick)], v);
  }

  lemma TickedStep(does: (Real, Act, Real) -> bool, w: Real, n: int)
    requires Allows(does) && RealInv(w) && Can(w, ReadClock(n)) && w.win == map[] && w.k.sleepers == [] && n > 1
    ensures var u := Arrived(w, w.k.ticks + n); does(u, Plain(TimerTick), Ticked(u)) && RealInv(Ticked(u))
  {
    var u := Arrived(w, w.k.ticks + n);
    ArrivedIsReal(w, n);
    EmptyTick(u);
  }

  lemma ArrivedIsReal(w: Real, n: int)
    requires RealInv(w) && Can(w, ReadClock(n))
    ensures var u := Arrived(w, w.k.ticks + n); RealInv(u) && Can(u, Plain(TimerTick))
  {
    var u := SetPhase(w, ClockRead(w.k.ticks + n));
    var p := Found(w.k.ticks + n, PlaceAt(w.k.sleepers, Stop(w.k.sleepers, w.k.ticks + n)));
    ReadGoes(w, n);
    PhaseKeeps(u, p);
    SetTwice(w, ClockRead(w.k.ticks + n), p);
    TickComes(SetPhase(w, p));
  }

  lemma EmptyTick(w: Real)
    requires RealInv(w) && Can(w, Plain(TimerTick)) && w.k.sleepers == []
    ensures Harmless(w, Plain(TimerTick), Ticked(w)) && RealInv(Ticked(w))
  {
    TickIsDrain(w);
    TickFailsIff(w);
  }

  /** And another thread runs. */
  lemma WalkedAndPreempted(does: (Real, Act, Real) -> bool, w: Real, n: int, b: Tid) returns (v: Real)
    requires Allows(does) && RealInv(w) && Can(w, ReadClock(n)) && w.win == map[] && w.k.sleepers == [] && n > 1
    requires w.k.ready == [b]
    ensures Run(does, w, [ReadClock(n)] + Times(3, Go) + [Plain(TimerTick)] + [Plain(Yield)], v)
    ensures RealInv(v) && v.win == map[w.k.cur := Found(w.k.ticks + n, Tail)] && v.k.cur == b && v.k.ready == [w.k.cur]
    ensures v.k.sleepers == [] && v.k.ticks == w.k.ticks + 1 && v.k.inDown == w.k.inDown && v.k.idle == w.k.idle
  {
    var u := WalkedAndTicked(does, w, n);
    v := YieldTo(u, b);
    RunOne(does, u, Plain(Yield), v);
    RunOn(does, w, [ReadClock(n)] + Times(3, Go) + [Plain(TimerTick)], u, [Plain(Yield)], v);
  }

  /** The other thread sleeps, and the first one is back. */
  lemma OtherSleeps(does: (Real, Act, Real) -> bool, w: Real, m: int, a: Tid, p: Phase) returns (v: Real)
    requires Allows(does) && RealInv(w) && Can(w, ReadClock(m)) && w.k.sleepers == [] && w.k.ready == [a]
    requires w.win == map[a := p]
    ensures Run(does, w, [ReadClock(m)] + Times(5, Go), v)
    ensures v.win == map[a := p] && v.k.cur == a && v.k.ticks == w.k.ticks
    ensures v.k.sleepers == [Sleeper(w.k.cur, w.k.ticks + m)]
  {
    v := Slept(w, w.k.ticks + m);
    UninterruptedSleep(does, w, m);
  }

  /** The steps of `StaleLink` before the link. */
  function StaleRun(n: int, m: int): seq<Act> {
    [ReadClock(n)] + Times(3, Go) + [Plain(TimerTick)] + [Plain(Yield)] + ([ReadClock(m)] + Times(5, Go))
  }

  lemma StaleRuns(does: (Real, Act, Real) -> bool, w: Real, n: int, b: Tid, m: int) returns (v: Real)
    requires Allows(does) && RealInv(w) && Can(w, ReadClock(n)) && w.win == map[] && w.k.sleepers == [] && n > 1
    requires w.k.ready == [b] && b != w.k.cur && b != w.k.idle && b !in w.k.inDown && m > 0
    ensures Run(does, w, StaleRun(n, m), v)
    ensures v.win == map[w.k.cur := Found(w.k.ticks + n, Tail)] && v.k.cur == w.k.cur
    ensures v.k.sleepers == [Sleeper(b, w.k.ticks + 1 + m)] && v.k.ticks == w.k.ticks + 1
  {
    var u := WalkedAndPreempted(does, w, n, b);
    v := OtherSleeps(does, u, m, w.k.cur, Found(w.k.ticks + n, Tail));
    RunOn(does, w, [ReadClock(n)] + Times(3, Go) + [Plain(TimerTick)] + [Plain(Yield)], u, [ReadClock(m)] + Times(5, Go), v);
  }

  /** A link behind the only entry. */
  lemma LinkBehind(w: Real, d: int, x: Sleeper)
    requires RealInv(w) && w.k.cur in w.win && w.win[w.k.cur] == Found(d, Tail) && w.k.sleepers == [x]
    ensures Can(w, Go) && StepReal(w, Go).Some? && StepReal(w, Go).value.k.sleepers == [x, Sleeper(w.k.cur, d)]
    ensures Harms(w, Go) <==> d < x.wake
  {
    GoIsStep(w);
    NotYetListed(w.k.sleepers, w.win, w.k.cur);
    LinkOrder(w.k.sleepers, 1, Sleeper(w.k.cur, d));
  }

  /** With no tick near a deadline: a thread that calls timer_sleep(n) has found its place at the end
      of the empty list when a tick ends its time slice; another thread calls timer_sleep(m), and
      sleeps; the first one links itself behind it. That does harm exactly if the first deadline is
      before the second, that is if n <= m: the first thread is then listed behind a later one, and
      by `Overslept` no tick before that later deadline wakes it. */
  lemma StaleLink(w: Real, n: int, b: Tid, m: int) returns (v: Real)
    requires RealInv(w) && Can(w, ReadClock(n)) && w.win == map[] && w.k.sleepers == [] && n > 1
    requires w.k.ready == [b] && b != w.k.cur && b != w.k.idle && b !in w.k.inDown && m > 0
    ensures Run(Harmless, w, StaleRun(n, m), v) && RealInv(v) && Can(v, Go) && StepReal(v, Go).Some?
    ensures StepReal(v, Go).value.k.sleepers == [Sleeper(b, w.k.ticks + 1 + m), Sleeper(w.k.cur, w.k.ticks + n)]
    ensures Harms(v, Go) <==> n <= m
  {
    HarmlessAllows();
    v := StaleRuns(Harmless, w, n, b, m);
    RunKeeps(w, StaleRun(n, m), v);
    LinkBehind(v, w.k.ticks + n, Sleeper(b, w.k.ticks + 1 + m));
  }
}
