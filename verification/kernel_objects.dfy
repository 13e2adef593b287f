/** thread.c, semaphore.c and timer.c as methods that update the kernel's variables in place.
    Each method is one section with interrupts off and is proved to take the machine's step. */
module KernelObjects {
  import opened Kernel

  class KernelVars {
    var status: map<Tid, Status>
    var readyList: seq<Tid>
    var cur: Tid
    var sems: seq<Sema>
    var inDown: map<Tid, SemId>
    var timerList: seq<Sleeper>
    var ticks: int
    const idle: Tid
    const initial: Tid

    function Abs(): State
      reads this
    {
      State(status, readyList, cur, sems, inDown, timerList, ticks, idle, initial)
    }

    /** After boot: the initial thread runs and the idle thread is blocked. */
    constructor (idleThread: Tid, initialThread: Tid)
      requires idleThread != initialThread
      ensures Abs() == Boot(idleThread, initialThread)
    {
      idle, initial := idleThread, initialThread;
      status := map[idleThread := Blocked, initialThread := Running];
      readyList, cur, sems, inDown, timerList, ticks := [], initialThread, [], map[], [], 0;
    }

    method NextThreadToRun() returns (next: Tid)
      modifies this`readyList
      ensures next == if old(readyList) == [] then idle else old(readyList)[0]
      ensures readyList == if old(readyList) == [] then [] else old(readyList)[1..]
    {
      if readyList == [] {
        next := idle;
      } else {
        next := readyList[0];
        readyList := readyList[1..];
      }
    }

    /** schedule, with thread_schedule_tail run by the thread switched to. */
    method ScheduleNext()
      requires cur in status
      modifies this`readyList, this`cur, this`status
      ensures Abs() == Schedule(old(Abs()))
    {
      var prev := cur;
      cur := NextThreadToRun();
      if cur != prev && status[prev] == Dying && prev != initial {
        status := status - {prev};
      }
      status := status[cur := Running];
    }

    method Block()
      modifies this`readyList, this`cur, this`status
      ensures Abs() == ThreadBlock(old(Abs()))
    {
      status := status[cur := Blocked];
      ScheduleNext();
    }

    method Unblock(t: Tid)
      requires t in status && status[t] == Blocked
      modifies this`readyList, this`status
      ensures Abs() == ThreadUnblock(old(Abs()), t)
    {
      readyList := readyList + [t];
      status := status[t := Ready];
    }

    method Yield()
      modifies this`readyList, this`cur, this`status
      ensures Abs() == ThreadYield(old(Abs()))
    {
      if cur != idle {
        readyList := readyList + [cur];
      }
      status := status[cur := Ready];
      ScheduleNext();
    }

    method Exit()
      modifies this`readyList, this`cur, this`status
      ensures Abs() == ThreadExit(old(Abs()))
    {
      status := status[cur := Dying];
      ScheduleNext();
    }

    /** One test of semaphore_down's loop by the current thread. */
    method DownPass(s: SemId)
      requires s < |sems|
      modifies this
      ensures Abs() == DownStep(old(Abs()), s)
    {
      if sems[s].value == 0 {
        sems := sems[s := sems[s].(waiters := sems[s].waiters + [cur])];
        inDown := inDown[cur := s];
        Block();
      } else {
        sems := sems[s := sems[s].(value := sems[s].value - 1)];
        inDown := inDown - {cur};
      }
    }

    method SemaphoreUp(s: SemId)
      requires Inv(Abs()) && s < |sems|
      modifies this
      ensures UpReady(old(Abs()), s) && Abs() == UpStep(old(Abs()), s)
    {
      UpOk(Abs(), s);
      if sems[s].waiters != [] {
        var t := sems[s].waiters[0];
        sems := sems[s := sems[s].(waiters := sems[s].waiters[1..])];
        Unblock(t);
      }
      sems := sems[s := sems[s].(value := sems[s].value + 1)];
    }

    /** timer_sleep: walk to the first sleeper that is due no earlier, insert before it, block. */
    method TimerSleep(n: int)
      modifies this
      ensures Abs() == SleepStep(old(Abs()), n)
    {
      var total := ticks + n;
      if n <= 0 {
        return;
      }
      var i := 0;
      while i < |timerList| && timerList[i].wake < total
        invariant i <= |timerList|
        invariant forall j :: 0 <= j < i ==> timerList[j].wake < total
      {
        i := i + 1;
      }
      InsertSleeperAt(timerList, Sleeper(cur, total), i);
      timerList := timerList[..i] + [Sleeper(cur, total)] + timerList[i..];
      Block();
    }

    /** timer_interrupt: advance the clock and unblock every sleeper that is due. */
    method TimerInterrupt()
      requires Inv(Abs())
      modifies this
      ensures TickReady(old(Abs())) && Abs() == Drain(old(Abs()).(ticks := old(ticks) + 1))
    {
      TickOk(Abs());
      ticks := ticks + 1;
      WakeDue();
    }

    method WakeDue()
      requires ListsOk(Abs())
      modifies this`readyList, this`status, this`timerList
      ensures Abs() == Drain(old(Abs()))
    {
      ghost var k := Abs();
      while timerList != [] && ticks >= timerList[0].wake
        invariant ListsOk(Abs()) && Drain(Abs()) == Drain(k)
        decreases |timerList|
      {
        UnblockSleeperOk(Abs());
        WakeFirst();
      }
    }

    method WakeFirst()
      requires timerList != [] && Has(Abs(), timerList[0].t, Blocked)
      modifies this`readyList, this`status, this`timerList
      ensures Abs() == UnblockSleeper(old(Abs()))
    {
      Unblock(timerList[0].t);
      timerList := timerList[1..];
    }
  }

  ghost predicate UpReady(k: State, s: SemId) {
    s < |k.sems| && (k.sems[s].waiters != [] ==> Has(k, k.sems[s].waiters[0], Blocked))
  }

  ghost predicate TickReady(k: State) { ListsOk(k.(ticks := k.ticks + 1)) }
}
