/** lock.c and condvar.c as methods that update the lock's and the queues' fields in place. */
module LockObjects {
  import opened Wrappers
  import opened Locks

  class MonitorVars {
    var pc: seq<Pc>
    var holder: Option<Tid>
    var value: nat
    var waiters: seq<Tid>
    var priv: seq<nat>
    var conds: seq<seq<Tid>>

    function Abs(): State
      reads this
    {
      State(pc, holder, value, waiters, priv, conds)
    }

    constructor (threads: nat, condCount: nat)
      ensures Abs() == Init(threads, condCount)
    {
      pc, holder, value, waiters := seq(threads, i => Out), None, 1, [];
      priv, conds := seq(threads, i => 0), seq(condCount, i => []);
    }

    /** One test of semaphore_down's loop inside lock_acquire. */
    method DownPass(t: Tid)
      requires Inv(Abs()) && Enabled(Abs(), Event(t, Down))
      modifies this
      ensures Abs() == Step(old(Abs()), Event(t, Down))
    {
      if value == 0 {
        waiters := waiters + [t];
        pc := pc[t := AcqWait];
      } else {
        value := value - 1;
        pc := pc[t := Got];
      }
    }

    /** The semaphore_up that ends lock_release. */
    method ReleaseUp(t: Tid)
      requires Inv(Abs()) && Enabled(Abs(), Event(t, Up))
      modifies this
      ensures Abs() == Step(old(Abs()), Event(t, Up))
    {
      HeadsExist(Abs());
      if waiters != [] {
        var w := waiters[0];
        waiters := waiters[1..];
        pc := pc[w := Acq];
      }
      value := value + 1;
      pc := pc[t := Out];
    }

    /** The part of condvar_wait before the lock is released: a fresh semaphore at 0, queued. */
    method EnterWait(t: Tid, c: CondId)
      requires Inv(Abs()) && Enabled(Abs(), Event(t, Wait(c)))
      modifies this
      ensures Abs() == Step(old(Abs()), Event(t, Wait(c)))
    {
      priv := priv[t := 0];
      conds := conds[c := conds[c] + [t]];
      pc := pc[t := WRel(c)];
    }

    method SignalCond(t: Tid, c: CondId)
      requires Inv(Abs()) && t < |pc| && (pc[t] == In || pc[t].Bcast?) && c < |conds|
      modifies this
      ensures Inv(Abs()) && |pc| == |old(pc)| && |conds| == |old(conds)|
      ensures old(conds[c]) == [] ==> Abs() == old(Abs())
      ensures old(conds[c]) != [] ==>
                var w := old(conds[c])[0];
                && w < |old(pc)| && w != t
                && conds == old(conds)[c := old(conds[c])[1..]]
                && pc == old(pc)[w := WDown(c)] && priv == old(priv)[w := 1]
    {
      HeadsExist(Abs());
      SignalInv(Abs(), t, c);
      if conds[c] != [] {
        var w := conds[c][0];
        assert QueuedOk(Abs(), c, w) && ThreadCondOk(Abs(), w);
        conds := conds[c := conds[c][1..]];
        priv := priv[w := priv[w] + 1];
        if pc[w] == WSleep(c) {
          pc := pc[w := WDown(c)];
        }
      }
    }

    /** condvar_broadcast: when the loop ends the queue is empty, and every thread that was on it
        has been signalled once and will pass its private semaphore. */
    method BroadcastCond(t: Tid, c: CondId)
      requires Inv(Abs()) && t < |pc| && pc[t] == Bcast(c) && c < |conds|
      modifies this
      ensures Inv(Abs()) && |conds| == |old(conds)| && conds[c] == []
      ensures |pc| == |priv| == |old(pc)| && pc[t] == Bcast(c)
      ensures forall w :: w in old(conds[c]) ==> w < |pc| && pc[w] == WDown(c) && priv[w] == 1
    {
      ghost var q, n := conds[c], 0;
      while conds[c] != []
        invariant Inv(Abs()) && |pc| == |old(pc)| && |conds| == |old(conds)| && pc[t] == Bcast(c)
        invariant n <= |q| && conds[c] == q[n..]
        invariant forall i :: 0 <= i < n ==> q[i] < |pc| && pc[q[i]] == WDown(c) && priv[q[i]] == 1
        decreases |conds[c]|
      {
        assert conds[c][0] == q[n];
        SignalCond(t, c);
        n := n + 1;
      }
    }
  }
}
