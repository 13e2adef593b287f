/** The callbacks of Assignment4/scheduler.c as methods over the global queues and counters.
    Every callback is proved to take the step of the event machine in module Scheduler. */
module SchedulerCallbacks {
  import opened Scheduler
  import opened Wrappers

  class Callbacks {
    const alg: Algorithm
    const quant: nat
    var readyQueue: seq<Times>
    var ioQueue: seq<Times>
    var doneQueue: seq<Times>
    var curT: Option<Times>
    var ioT: Option<Times>
    var ticks: nat
    var lastOnTotal: nat

    function Abs(): State
      reads this
    {
      State(alg, quant, readyQueue, ioQueue, doneQueue, curT, ioT, ticks, lastOnTotal)
    }

    constructor (algorithm: Algorithm, quantum: nat)
      ensures Abs() == Init(algorithm, quantum)
    {
      alg, quant := algorithm, quantum;
      readyQueue, ioQueue, doneQueue := [], [], [];
      curT, ioT, ticks, lastOnTotal := None, None, 0, 0;
    }

    method SysExec(t: Thread)
      modifies this
      ensures Abs() == Step(old(Abs()), Exec(t))
    {
      var ti := Times(t, 0, 0, ticks, ticks);
      if |readyQueue| == 0 && curT == None && alg != NonPreemptivePriority && alg != PreemptivePriority {
        curT := Some(ti);
      } else {
        readyQueue := readyQueue + [ti];
      }
    }

    /** `queue_sort` is known only by its interface: some ordered permutation. */
    method QueueSort(q: seq<Times>) returns (r: seq<Times>)
      ensures IsSortOf(r, q)
    {
      r := [];
      for n := 0 to |q|
        invariant IsSortOf(r, q[..n])
      {
        assert q[..n + 1] == q[..n] + [q[n]];
        r := InsertByPriority(r, q[n]);
      }
      assert q[..|q|] == q;
    }

    method InsertByPriority(r: seq<Times>, e: Times) returns (s: seq<Times>)
      requires SortedByPriority(r)
      ensures SortedByPriority(s) && multiset(s) == multiset(r) + multiset{e}
    {
      var k := |r|;
      while k > 0 && r[k - 1].t.priority > e.t.priority
        invariant 0 <= k <= |r|
        invariant forall j :: k <= j < |r| ==> r[j].t.priority > e.t.priority
      {
        k := k - 1;
      }
      InsertContents(r, k, e);
      s := r[..k] + [e] + r[k..];
    }

    method PrioritySortReady() returns (ghost sorted: seq<Times>)
      modifies this
      ensures IsSortOf(sorted, old(readyQueue)) && Abs() == PrioritySort(old(Abs()), sorted)
    {
      readyQueue := QueueSort(readyQueue);
      sorted := readyQueue;
      if alg == PreemptivePriority {
        if curT.Some? && readyQueue != [] && readyQueue[0].t.priority < curT.value.t.priority {
          var h := readyQueue[0];
          readyQueue := readyQueue[1..];
          readyQueue := readyQueue + [curT.value.(lastOn := ticks)];
          curT := Some(h.(waiting := h.waiting + (ticks - h.lastOn), lastOn := ticks));
        }
      }
    }

    /** The tick handler; the out-parameter is the order its sort, if any, produced. */
    method TickHandler() returns (ghost sorted: seq<Times>)
      modifies this
      ensures Enabled(old(Abs()), Tick(sorted)) && Abs() == Step(old(Abs()), Tick(sorted))
    {
      sorted := Choose();
      Advance();
    }

    /** Everything a tick does before the counters move. */
    method Choose() returns (ghost sorted: seq<Times>)
      modifies this
      ensures Enabled(old(Abs()), Tick(sorted)) && Abs() == Decide(old(Abs()), sorted)
    {
      sorted := [];
      if alg == PreemptivePriority {
        sorted := PrioritySortReady();
      }
      if curT == None {
        if alg == NonPreemptivePriority {
          sorted := PrioritySortReady();
        }
        Fill();
      } else if alg == RoundRobin && lastOnTotal >= quant && |readyQueue| > 0 {
        Rotate();
      }
    }

    /** The idle branch: dispatch the head, restarting the quantum if there was one. */
    method Fill()
      requires curT == None
      modifies this`curT, this`readyQueue, this`lastOnTotal
      ensures var s := TakeHead(old(Abs())); Abs() == if s.cur.Some? then s.(onTotal := 0) else s
    {
      DispatchHead();
      if curT.Some? { lastOnTotal := 0; }
    }

    /** The quantum-expiry branch. */
    method Rotate()
      requires curT.Some? && readyQueue != []
      modifies this`curT, this`readyQueue, this`lastOnTotal
      ensures var s := old(Abs());
              Abs() == TakeHead(s.(ready := s.ready + [s.cur.value.(lastOn := s.ticks)])).(onTotal := 0)
    {
      readyQueue := readyQueue + [curT.value.(lastOn := ticks)];
      DispatchHead();
      lastOnTotal := 0;
    }

    /** The counters at the end of a tick. */
    method Advance()
      modifies this`lastOnTotal, this`ticks
      ensures ticks == old(ticks) + 1
      ensures lastOnTotal == if curT.Some? then old(lastOnTotal) + 1
                             else if old(lastOnTotal) == quant then 0 else old(lastOnTotal)
    {
      if curT.Some? {
        lastOnTotal := lastOnTotal + 1;
      } else if lastOnTotal == quant {
        lastOnTotal := 0;
      }
      ticks := ticks + 1;
    }

    /** `cur_t = queue_dequeue(ready_queue)` and the charges that follow. */
    method DispatchHead()
      modifies this`curT, this`readyQueue
      ensures Abs() == TakeHead(old(Abs()))
    {
      if readyQueue == [] {
        curT := None;
      } else {
        var h := readyQueue[0];
        readyQueue := readyQueue[1..];
        curT := Some(h.(waiting := h.waiting + (ticks - h.lastOn), lastOn := ticks));
      }
    }

    method SysExit()
      requires curT.Some?
      modifies this
      ensures Abs() == Step(old(Abs()), Exit)
    {
      doneQueue := doneQueue + [curT.value.(running := ticks - curT.value.begTime)];
      curT := None;
    }

    /** `sys_read` and `sys_write`, which differ only in the order of two independent writes. */
    method SysReadWrite()
      requires curT.Some?
      modifies this
      ensures Abs() == Step(old(Abs()), Read) == Step(old(Abs()), Write)
    {
      var r := curT.value.(lastOn := ticks);
      if |ioQueue| == 0 && ioT == None {
        ioT := Some(r);
      } else {
        ioQueue := ioQueue + [r];
      }
      curT := None;
    }

    method IoCompleteHandler()
      requires ioT.Some?
      modifies this
      ensures Abs() == Step(old(Abs()), IoComplete)
    {
      readyQueue := readyQueue + [ioT.value.(lastOn := ticks)];
      if ioQueue == [] {
        ioT := None;
      } else {
        ioT := Some(ioQueue[0]);
        ioQueue := ioQueue[1..];
      }
      if curT == None {
        DispatchHead();
      }
    }

    method IoStartingHandler()
      requires ioT.Some?
      modifies this
      ensures Abs() == Step(old(Abs()), IoStarting)
    {
      var r := ioT.value;
      r := r.(waiting := r.waiting + (ticks - 1) - r.lastOn);
      r := r.(lastOn := ticks);
      r := r.(waiting := r.waiting + ticks - r.lastOn);
      ioT := Some(r.(lastOn := ticks));
    }
  }

  lemma InsertContents(r: seq<Times>, k: nat, e: Times)
    requires k <= |r|
    ensures multiset(r[..k] + [e] + r[k..]) == multiset(r) + multiset{e}
  {
    assert r == r[..k] + r[k..];
  }
}
