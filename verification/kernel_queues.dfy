/** The order of the kernel's queues. The run queue and every semaphore's wait list are first in, first
    out in every run. */
module KernelQueues {
  import opened Kernel

  // ----- The run queue ----------------------------------------------------------------------

  /** The sleepers whose deadline is `now` or earlier, in the order of the list. */
  function Due(q: seq<Sleeper>, now: int): (r: seq<Tid>)
    ensures |r| <= |q|
  {
    if q == [] || now < q[0].wake then [] else [q[0].t] + Due(q[1..], now)
  }

  /** The event takes the CPU from the current thread: a yield, an exit, or a wait. */
  ghost predicate Switches(k: State, e: Event)
    requires Inv(k) && Enabled(k, e)
  {
    match e
    case Yield => true
    case Exit => true
    case IdleBlock => true
    case Down(s) => k.sems[s].value == 0
    case Recheck => k.sems[k.inDown[k.cur]].value == 0
    case Sleep(n) => n > 0
    case _ => false
  }

  /** The threads that become ready, in order: one created; the one that yields; the one that waited
      longest on a semaphore that is upped; the sleepers that are due. */
  ghost function Joins(k: State, e: Event): seq<Tid>
    requires Inv(k) && Enabled(k, e)
  {
    match e
    case Create(t) => [t]
    case Yield => if k.cur == k.idle then [] else [k.cur]
    case Up(s) => if k.sems[s].waiters == [] then [] else [k.sems[s].waiters[0]]
    case TimerTick => Due(k.sleepers, k.ticks + 1)
    case _ => []
  }

  /** Whoever becomes ready is behind all who were; the front leaves to be dispatched at a switch, and
      nobody else leaves; without a switch the current thread goes on. */
  ghost predicate InTurn(line: seq<Tid>, switch: bool, k: State, k': State) {
    if !switch then k'.ready == line && k'.cur == k.cur
    else if line == [] then k'.ready == [] && k'.cur == k.idle
    else k'.ready == line[1..] && k'.cur == line[0]
  }

  lemma {:induction false} DrainJoins(k: State)
    requires ListsOk(k)
    ensures Drain(k).ready == k.ready + Due(k.sleepers, k.ticks) && Drain(k).cur == k.cur
    ensures Drain(k).sleepers == k.sleepers[|Due(k.sleepers, k.ticks)|..]
    decreases |k.sleepers|
  {
    if k.sleepers == [] || k.ticks < k.sleepers[0].wake {
    } else {
      UnblockSleeperOk(k);
      DrainJoins(UnblockSleeper(k));
      assert k.ready + Due(k.sleepers, k.ticks)
          == (k.ready + [k.sleepers[0].t]) + Due(k.sleepers[1..], k.ticks);
    }
  }

  lemma TickInTurn(k: State)
    requires Inv(k) && Enabled(k, TimerTick)
    ensures InTurn(k.ready + Due(k.sleepers, k.ticks + 1), false, k, Step(k, TimerTick))
    ensures Step(k, TimerTick).sleepers == k.sleepers[|Due(k.sleepers, k.ticks + 1)|..]
  {
    TickOk(k);
    DrainJoins(k.(ticks := k.ticks + 1));
  }

  /** In every step: the run queue and who has joined, less who was dispatched, is the run queue. */
  lemma StepInTurn(k: State, e: Event)
    requires Inv(k) && Enabled(k, e)
    ensures InTurn(k.ready + Joins(k, e), Switches(k, e), k, Step(k, e))
  {
    if e.TimerTick? {
      TickInTurn(k);
    } else if e.Up? {
      UpOk(k, e.s);
    }
  }

  ghost function SwitchCount(k: State, es: seq<Event>): nat
    requires Inv(k) && Feasible(k, es)
    decreases |es|
  {
    if es == [] then 0
    else
      StepInv(k, es[0]);
      OneSwitch(k, es[0]) + SwitchCount(Step(k, es[0]), es[1..])
  }

  ghost function OneSwitch(k: State, e: Event): nat
    requires Inv(k) && Enabled(k, e)
  {
    if Switches(k, e) then 1 else 0
  }

  lemma StepMoves(k: State, e: Event, i: nat)
    requires Inv(k) && Enabled(k, e) && i < |k.ready|
    ensures var k', j := Step(k, e), i - OneSwitch(k, e);
            if j < 0 then k'.cur == k.ready[i] else j < |k'.ready| && k'.ready[j] == k.ready[i]
  {
    StepInTurn(k, e);
    var line := k.ready + Joins(k, e);
    assert line[i] == k.ready[i];
  }

  /** In every run: the thread at position `i` of the run queue moves up by one at each switch, whatever
      else happens, until it is at the front. */
  lemma {:induction false} MovesUp(k: State, es: seq<Event>, i: nat)
    requires Inv(k) && Feasible(k, es) && i < |k.ready| && SwitchCount(k, es) <= i
    ensures var z := After(k, es); i - SwitchCount(k, es) < |z.ready| && z.ready[i - SwitchCount(k, es)] == k.ready[i]
    decreases |es|
  {
    if es == [] {
    } else {
      StepInv(k, es[0]);
      StepMoves(k, es[0], i);
      MovesUp(Step(k, es[0]), es[1..], i - OneSwitch(k, es[0]));
    }
  }

  /** And the switch after that, the `i + 1`st, puts it on the CPU. */
  lemma DispatchedInTurn(k: State, es: seq<Event>, e: Event, i: nat)
    requires Inv(k) && Feasible(k, es) && i < |k.ready| && SwitchCount(k, es) == i
    requires Inv(After(k, es)) && Enabled(After(k, es), e) && Switches(After(k, es), e)
    ensures Step(After(k, es), e).cur == k.ready[i]
  {
    MovesUp(k, es, i);
    StepMoves(After(k, es), e, 0);
  }

  // ----- Semaphores -----------------------------------------------------------------------------

  /** Who starts to wait on semaphore `s`. */
  ghost function Waits(k: State, e: Event, s: SemId): seq<Tid>
    requires Inv(k) && Enabled(k, e) && s < |k.sems|
  {
    if Switches(k, e) && (e == Down(s) || (e == Recheck && k.inDown[k.cur] == s)) then [k.cur] else []
  }

  /** Who is woken on semaphore `s`. */
  ghost function Wakes(k: State, e: Event, s: SemId): seq<Tid>
    requires Inv(k) && Enabled(k, e) && s < |k.sems|
  {
    if e == Up(s) && k.sems[s].waiters != [] then [k.sems[s].waiters[0]] else []
  }

  lemma StepWaits(k: State, e: Event, s: SemId)
    requires Inv(k) && Enabled(k, e) && s < |k.sems|
    ensures s < |Step(k, e).sems|
    ensures k.sems[s].waiters + Waits(k, e, s) == Wakes(k, e, s) + Step(k, e).sems[s].waiters
    ensures forall t :: t in Wakes(k, e, s) ==> Has(Step(k, e), t, Ready)
  {
    if e.Up? {
      UpOk(k, e.s);
      if k.sems[e.s].waiters != [] { assert k.sems[e.s].waiters == [k.sems[e.s].waiters[0]] + k.sems[e.s].waiters[1..]; }
    } else if !e.Down? && !e.Recheck? && !e.InitSema? {
      OtherWoken(k, e, s);
    }
  }

  ghost function AllWaits(k: State, es: seq<Event>, s: SemId): seq<Tid>
    requires Inv(k) && Feasible(k, es) && s < |k.sems|
    decreases |es|
  {
    if es == [] then []
    else
      StepInv(k, es[0]);
      StepWaits(k, es[0], s);
      Waits(k, es[0], s) + AllWaits(Step(k, es[0]), es[1..], s)
  }

  ghost function AllWakes(k: State, es: seq<Event>, s: SemId): seq<Tid>
    requires Inv(k) && Feasible(k, es) && s < |k.sems|
    decreases |es|
  {
    if es == [] then []
    else
      StepInv(k, es[0]);
      StepWaits(k, es[0], s);
      Wakes(k, es[0], s) + AllWakes(Step(k, es[0]), es[1..], s)
  }

  /** Semaphores wake in the order in which threads began to wait: in every run those waiting at the
      start, then those that came to wait, are those woken and then those still waiting. */
  lemma {:induction false} SemaphoreIsFifo(k: State, es: seq<Event>, s: SemId)
    requires Inv(k) && Feasible(k, es) && s < |k.sems|
    ensures s < |After(k, es).sems|
    ensures k.sems[s].waiters + AllWaits(k, es, s) == AllWakes(k, es, s) + After(k, es).sems[s].waiters
    decreases |es|
  {
    if es == [] {
    } else {
      var k' := Step(k, es[0]);
      StepInv(k, es[0]);
      StepWaits(k, es[0], s);
      SemaphoreIsFifo(k', es[1..], s);
      Regroup(k.sems[s].waiters, Waits(k, es[0], s), AllWaits(k', es[1..], s),
              Wakes(k, es[0], s), k'.sems[s].waiters, AllWakes(k', es[1..], s), After(k', es[1..]).sems[s].waiters);
    }
  }

  lemma Regroup(a: seq<Tid>, b: seq<Tid>, c: seq<Tid>, d: seq<Tid>, q: seq<Tid>, f: seq<Tid>, g: seq<Tid>)
    requires a + b == d + q && q + c == f + g
    ensures a + (b + c) == (d + f) + g
  {
    assert a + (b + c) == (a + b) + c;
    assert (d + q) + c == d + (q + c);
  }
}
