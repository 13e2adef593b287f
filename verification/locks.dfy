/** A lock and its condition variables (lock.c and condvar.c of Lab1/pintos) under arbitrary
    scheduling: any thread that is not blocked may take the next step. Each semaphore operation
    is one step, and so is each assignment to the holder; list operations of condvar.c are made
    under the lock and belong to the step next to them. */
module Locks {
  import opened Wrappers

  type Tid = nat
  type CondId = nat

  /** Where a thread is. `Got` has decremented the semaphore but not set the holder; `Rel` and
      `WUp` have cleared the holder but not incremented the semaphore. */
  datatype Pc =
    | Out | Acq | AcqWait | Got | In | Rel
    | WRel(c: CondId) | WUp(c: CondId) | WDown(c: CondId) | WSleep(c: CondId)
    | Bcast(c: CondId)

  datatype State = State(
    pc: seq<Pc>,
    holder: Option<Tid>,
    value: nat,              // the lock's semaphore
    waiters: seq<Tid>,
    priv: seq<nat>,          // value of each thread's private semaphore in condvar_wait
    conds: seq<seq<Tid>>)    // queue of each condition variable

  datatype Action =
    | Acquire | Down | SetHolder | Release | Up
    | Wait(c: CondId) | WaitRelease | WaitUp | WaitDown
    | Signal(c: CondId) | StartBroadcast(c: CondId) | BroadcastStep

  datatype Event = Event(t: Tid, a: Action)

  function Init(threads: nat, conds: nat): (s: State)
    ensures Inv(s)
  {
    State(seq(threads, i => Out), None, 1, [], seq(threads, i => 0), seq(conds, i => []))
  }

  /** A thread at `p` may take the action. */
  predicate At(p: Pc, a: Action, conds: nat) {
    match a
    case Acquire => p == Out
    case Down => p == Acq
    case SetHolder => p == Got
    case Release => p == In
    case Up => p == Rel
    case Wait(c) => p == In && c < conds
    case WaitRelease => p.WRel?
    case WaitUp => p.WUp?
    case WaitDown => p.WDown?
    case Signal(c) => p == In && c < conds
    case StartBroadcast(c) => p == In && c < conds
    case BroadcastStep => p.Bcast? && p.c < conds
  }

  ghost predicate Enabled(s: State, e: Event) {
    e.t < |s.pc| == |s.priv| && At(s.pc[e.t], e.a, |s.conds|)
  }

  function Goto(s: State, t: Tid, p: Pc): State
    requires t < |s.pc|
  {
    s.(pc := s.pc[t := p])
  }

  /** One pass of semaphore_down on the lock's semaphore. */
  function LockDown(s: State, t: Tid): State
    requires t < |s.pc|
  {
    if s.value == 0 then Goto(s.(waiters := s.waiters + [t]), t, AcqWait)
    else Goto(s.(value := s.value - 1), t, Got)
  }

  /** semaphore_up on the lock's semaphore: the longest waiter wakes to recheck. */
  function LockUp(s: State): State
    requires s.waiters != [] ==> s.waiters[0] < |s.pc|
  {
    if s.waiters == [] then s.(value := s.value + 1)
    else Goto(s.(value := s.value + 1, waiters := s.waiters[1..]), s.waiters[0], Acq)
  }

  /** condvar_signal: pop the longest-queued waiter, if any, and up its private semaphore. */
  function SignalOne(s: State, c: CondId): State
    requires c < |s.conds| && |s.pc| == |s.priv|
    requires s.conds[c] != [] ==> s.conds[c][0] < |s.pc|
  {
    if s.conds[c] == [] then s
    else
      var w := s.conds[c][0];
      var s1 := s.(conds := s.conds[c := s.conds[c][1..]], priv := s.priv[w := s.priv[w] + 1]);
      if s.pc[w] == WSleep(c) then Goto(s1, w, WDown(c)) else s1
  }

  function Step(s: State, e: Event): State
    requires Inv(s) && Enabled(s, e)
  {
    HeadsExist(s);
    var t := e.t;
    match e.a
    case Acquire => Goto(s, t, Acq)
    case Down => LockDown(s, t)
    case SetHolder => Goto(s.(holder := Some(t)), t, In)
    case Release => Goto(s.(holder := None), t, Rel)
    case Up => Goto(LockUp(s), t, Out)
    case Wait(c) => Goto(s.(conds := s.conds[c := s.conds[c] + [t]], priv := s.priv[t := 0]), t, WRel(c))
    case WaitRelease => Goto(s.(holder := None), t, WUp(s.pc[t].c))
    case WaitUp => Goto(LockUp(s), t, WDown(s.pc[t].c))
    case WaitDown => if s.priv[t] == 0 then Goto(s, t, WSleep(s.pc[t].c))
                     else Goto(s.(priv := s.priv[t := s.priv[t] - 1]), t, Acq)
    case Signal(c) => SignalOne(s, c)
    case StartBroadcast(c) => Goto(s, t, Bcast(c))
    case BroadcastStep => if s.conds[s.pc[t].c] == [] then Goto(s, t, In) else SignalOne(s, s.pc[t].c)
  }

  // ----- Invariant ------------------------------------------------------------------------

  /** The thread has taken the lock's unit and not yet given it back. */
  predicate HasUnit(p: Pc) { p in {Got, In, Rel} || p.WRel? || p.WUp? || p.Bcast? }

  /** The thread passes `lock_held_by_current_thread`. */
  predicate Holds(p: Pc) { p == In || p.WRel? || p.Bcast? }

  /** The thread is queued on condition variable `c`, or was just signalled there. */
  predicate WaitsOn(p: Pc, c: CondId) { p in {WRel(c), WUp(c), WDown(c), WSleep(c)} }

  /** The unit is in the semaphore or with exactly one thread. */
  ghost predicate OneUnit(s: State) {
    && s.value <= 1
    && (forall t :: 0 <= t < |s.pc| && HasUnit(s.pc[t]) ==> s.value == 0)
    && (forall t, u :: 0 <= t < |s.pc| && 0 <= u < |s.pc| && HasUnit(s.pc[t]) && HasUnit(s.pc[u]) ==> t == u)
    && (s.value == 0 ==> exists t :: 0 <= t < |s.pc| && HasUnit(s.pc[t]))
  }

  ghost predicate HolderOk(s: State) {
    && (forall t :: 0 <= t < |s.pc| ==> (Holds(s.pc[t]) <==> s.holder == Some(t)))
    && (s.holder.Some? ==> s.holder.value < |s.pc|)
  }

  ghost predicate NoDup<T>(q: seq<T>) {
    forall i, j :: 0 <= i < j < |q| ==> q[i] != q[j]
  }

  ghost predicate WaitersOk(s: State) {
    && NoDup(s.waiters)
    && (forall t: Tid :: t in s.waiters <==> t < |s.pc| && s.pc[t] == AcqWait)
  }

  /** A free lock with waiters means somebody is on the way to take it. */
  ghost predicate LockNotLost(s: State) {
    s.value > 0 && s.waiters != [] ==> exists t :: 0 <= t < |s.pc| && s.pc[t] == Acq
  }

  /** A thread waiting on `c` is in the queue with its semaphore at 0, or has been signalled:
      out of the queue, semaphore at 1, about to test it. Everyone else's semaphore is 0. */
  ghost predicate CondsOk(s: State)
    requires |s.pc| == |s.priv|
  {
    && (forall c :: 0 <= c < |s.conds| ==> NoDup(s.conds[c]))
    && (forall c, i :: 0 <= c < |s.conds| && 0 <= i < |s.conds[c]| ==> QueuedOk(s, c, s.conds[c][i]))
    && (forall t :: 0 <= t < |s.pc| ==> ThreadCondOk(s, t))
  }

  ghost predicate QueuedOk(s: State, c: CondId, t: Tid)
    requires |s.pc| == |s.priv|
  {
    t < |s.pc| && WaitsOn(s.pc[t], c) && s.priv[t] == 0
  }

  ghost predicate ThreadCondOk(s: State, t: Tid)
    requires |s.pc| == |s.priv| && t < |s.pc|
  {
    var p := s.pc[t];
    if p.WRel? || p.WUp? || p.WSleep? then p.c < |s.conds| && t in s.conds[p.c]
    else if p.WDown? then p.c < |s.conds| && (t in s.conds[p.c] || s.priv[t] == 1)
    else s.priv[t] == 0 && (p.Bcast? ==> p.c < |s.conds|)
  }

  ghost predicate Inv(s: State) {
    |s.pc| == |s.priv| && OneUnit(s) && HolderOk(s) && WaitersOk(s) && LockNotLost(s) && CondsOk(s)
  }

  lemma HeadsExist(s: State)
    requires Inv(s)
    ensures s.waiters != [] ==> s.waiters[0] < |s.pc| && s.pc[s.waiters[0]] == AcqWait
    ensures forall c :: 0 <= c < |s.conds| && s.conds[c] != [] ==> s.conds[c][0] < |s.pc|
  {
    if s.waiters != [] { assert s.waiters[0] in s.waiters; }
    forall c | 0 <= c < |s.conds| && s.conds[c] != [] ensures s.conds[c][0] < |s.pc| {
      assert QueuedOk(s, c, s.conds[c][0]);
    }
  }

  // ----- Every step keeps it ---------------------------------------------------------------

  /** A step that moves one thread between program points outside all queues. */
  lemma MoveInv(s: State, s': State, t: Tid)
    requires Inv(s) && t < |s.pc| == |s'.pc| && s'.pc == s.pc[t := s'.pc[t]]
    requires s'.value == s.value && s'.waiters == s.waiters && s'.priv == s.priv && s'.conds == s.conds
    requires HasUnit(s.pc[t]) == HasUnit(s'.pc[t])
    requires s.pc[t] != AcqWait && s'.pc[t] != AcqWait && s.pc[t] != Acq
    requires forall c :: WaitsOn(s.pc[t], c) <==> WaitsOn(s'.pc[t], c)
    requires s.pc[t].WDown? ==> s'.pc[t].WSleep? && s.priv[t] == 0
    requires s'.pc[t].WDown? ==> s.pc[t].WSleep?
    requires s'.pc[t].Bcast? ==> s'.pc[t].c < |s.conds|
    requires HolderOk(s')
    ensures Inv(s')
  {
    forall x: Tid ensures x in s'.waiters <==> x < |s'.pc| && s'.pc[x] == AcqWait {
      assert x in s.waiters <==> x < |s.pc| && s.pc[x] == AcqWait;
    }
    assert OneUnit(s') by {
      if s.value == 0 {
        var u :| 0 <= u < |s.pc| && HasUnit(s.pc[u]);
        assert HasUnit(s'.pc[u]);
      }
    }
    assert LockNotLost(s') by {
      if s.value > 0 && s.waiters != [] {
        var u :| 0 <= u < |s.pc| && s.pc[u] == Acq;
        assert s'.pc[u] == Acq;
      }
    }
    assert CondsOk(s') by { MoveConds(s, s', t); }
  }

  lemma MoveConds(s: State, s': State, t: Tid)
    requires Inv(s) && t < |s.pc| == |s'.pc| && s'.pc == s.pc[t := s'.pc[t]]
    requires s'.priv == s.priv && s'.conds == s.conds
    requires forall c :: WaitsOn(s.pc[t], c) <==> WaitsOn(s'.pc[t], c)
    requires s.pc[t].WDown? ==> s'.pc[t].WSleep? && s.priv[t] == 0
    requires s'.pc[t].WDown? ==> s.pc[t].WSleep? || s.pc[t].WUp?
    requires s'.pc[t].Bcast? ==> s'.pc[t].c < |s.conds|
    ensures CondsOk(s')
  {
    var p, p' := s.pc[t], s'.pc[t];
    assert ThreadCondOk(s, t);
    if p'.WRel? || p'.WUp? || p'.WDown? || p'.WSleep? { assert WaitsOn(p', p'.c); }
    if p.WRel? || p.WUp? || p.WDown? || p.WSleep? { assert WaitsOn(p, p.c); }
    forall x | 0 <= x < |s'.pc| ensures ThreadCondOk(s', x) { assert ThreadCondOk(s, x); }
    forall c, i | 0 <= c < |s'.conds| && 0 <= i < |s'.conds[c]| ensures QueuedOk(s', c, s'.conds[c][i]) {
      assert QueuedOk(s, c, s.conds[c][i]);
    }
  }

  lemma LockDownInv(s: State, t: Tid)
    requires Inv(s) && Enabled(s, Event(t, Down))
    ensures Inv(LockDown(s, t))
  {
    var s' := LockDown(s, t);
    assert ThreadCondOk(s, t);
    assert t !in s.waiters;
    forall x: Tid ensures x in s'.waiters <==> x < |s'.pc| && s'.pc[x] == AcqWait {
      assert x in s.waiters <==> x < |s.pc| && s.pc[x] == AcqWait;
    }
    assert OneUnit(s') by {
      if s.value == 0 {
        var u :| 0 <= u < |s.pc| && HasUnit(s.pc[u]);
        assert HasUnit(s'.pc[u]);
      } else {
        assert HasUnit(s'.pc[t]);
      }
    }
    assert CondsOk(s') by {
      forall x | 0 <= x < |s'.pc| ensures ThreadCondOk(s', x) { assert ThreadCondOk(s, x); }
      forall c, i | 0 <= c < |s'.conds| && 0 <= i < |s'.conds[c]| ensures QueuedOk(s', c, s'.conds[c][i]) {
        assert QueuedOk(s, c, s.conds[c][i]);
      }
    }
  }

  /** A thread gives the unit back from `Rel` or `WUp`, the holder being already clear. */
  ghost predicate GivesBack(s: State, t: Tid, p: Pc) {
    && Inv(s) && t < |s.pc| && ((s.pc[t] == Rel && p == Out) || (s.pc[t].WUp? && p == WDown(s.pc[t].c)))
    && (s.waiters != [] ==> s.waiters[0] < |s.pc|)
  }

  lemma GiveBackInv(s: State, t: Tid, p: Pc)
    requires GivesBack(s, t, p)
    ensures Inv(Goto(LockUp(s), t, p))
  {
    GiveBackShape(s, t, p);
    GiveBackWaiters(s, t, p);
    GiveBackHolder(s, t, p);
    GiveBackConds(s, t, p);
  }

  /** The longest waiter, if any, is off the queue and about to test again. */
  lemma GiveBackShape(s: State, t: Tid, p: Pc)
    requires GivesBack(s, t, p)
    ensures var s' := Goto(LockUp(s), t, p);
            && s'.value == 1 && OneUnit(s') && LockNotLost(s')
            && (if s.waiters == [] then s'.waiters == [] && s'.pc == s.pc[t := p]
                else s.waiters[0] != t && s.pc[s.waiters[0]] == AcqWait && s.waiters == [s.waiters[0]] + s'.waiters
                     && s'.pc == s.pc[s.waiters[0] := Acq][t := p])
  {
    HeadsExist(s);
    var s' := Goto(LockUp(s), t, p);
    assert HasUnit(s.pc[t]) && s.value == 0;
    if s.waiters != [] {
      assert s'.pc[s.waiters[0]] == Acq;
    }
  }

  lemma GiveBackWaiters(s: State, t: Tid, p: Pc)
    requires GivesBack(s, t, p)
    ensures WaitersOk(Goto(LockUp(s), t, p))
  {
    GiveBackShape(s, t, p);
    var s' := Goto(LockUp(s), t, p);
    forall x: Tid ensures x in s'.waiters <==> x < |s'.pc| && s'.pc[x] == AcqWait {
      assert x in s.waiters <==> x < |s.pc| && s.pc[x] == AcqWait;
    }
  }

  lemma GiveBackHolder(s: State, t: Tid, p: Pc)
    requires GivesBack(s, t, p)
    ensures HolderOk(Goto(LockUp(s), t, p))
  {
    GiveBackShape(s, t, p);
    var s' := Goto(LockUp(s), t, p);
    forall x | 0 <= x < |s'.pc| ensures Holds(s'.pc[x]) <==> s'.holder == Some(x) {
      assert Holds(s.pc[x]) <==> s.holder == Some(x);
    }
  }

  lemma GiveBackConds(s: State, t: Tid, p: Pc)
    requires GivesBack(s, t, p)
    ensures |s.pc| == |Goto(LockUp(s), t, p).priv| && CondsOk(Goto(LockUp(s), t, p))
  {
    GiveBackShape(s, t, p);
    var s' := Goto(LockUp(s), t, p);
    assert ThreadCondOk(s, t);
    forall x | 0 <= x < |s'.pc| ensures ThreadCondOk(s', x) { assert ThreadCondOk(s, x); }
    forall c, i | 0 <= c < |s'.conds| && 0 <= i < |s'.conds[c]| ensures QueuedOk(s', c, s'.conds[c][i]) {
      assert QueuedOk(s, c, s.conds[c][i]);
    }
  }

  lemma WaitInv(s: State, t: Tid, c: CondId)
    requires Inv(s) && Enabled(s, Event(t, Wait(c)))
    ensures Inv(Step(s, Event(t, Wait(c))))
  {
    var s' := Step(s, Event(t, Wait(c)));
    assert ThreadCondOk(s, t) && s.priv[t] == 0;
    assert s'.priv == s.priv;
    var q := s.conds[c];
    forall i | 0 <= i < |q| ensures q[i] != t { assert QueuedOk(s, c, q[i]); }
    forall x | 0 <= x < |s'.pc| ensures ThreadCondOk(s', x) {
      assert ThreadCondOk(s, x);
      var p := s.pc[x];
      if x == t { assert s'.conds[c][|q|] == t; }
      else if (p.WRel? || p.WUp? || p.WSleep? || p.WDown?) && p.c == c && x in q {
        var i :| 0 <= i < |q| && q[i] == x;
        assert s'.conds[c][i] == x;
      }
    }
    forall d, i | 0 <= d < |s'.conds| && 0 <= i < |s'.conds[d]| ensures QueuedOk(s', d, s'.conds[d][i]) {
      if d != c || i < |q| { assert QueuedOk(s, d, s.conds[d][i]); }
    }
    assert CondsOk(s');
    PlainMove(s, s', t);
  }

  /** The lock's side of a step that moves one thread and neither gives nor takes the unit. */
  lemma PlainMove(s: State, s': State, t: Tid)
    requires Inv(s) && t < |s.pc| == |s'.pc| && s'.pc == s.pc[t := s'.pc[t]]
    requires s'.value == s.value && s'.waiters == s.waiters
    requires HasUnit(s.pc[t]) == HasUnit(s'.pc[t])
    requires s.pc[t] != AcqWait && s'.pc[t] != AcqWait && s.pc[t] != Acq
    ensures OneUnit(s') && WaitersOk(s') && LockNotLost(s')
    ensures Holds(s.pc[t]) == Holds(s'.pc[t]) && s'.holder == s.holder ==> HolderOk(s')
  {
    forall x: Tid ensures x in s'.waiters <==> x < |s'.pc| && s'.pc[x] == AcqWait {
      assert x in s.waiters <==> x < |s.pc| && s.pc[x] == AcqWait;
    }
    if s.value == 0 {
      var u :| 0 <= u < |s.pc| && HasUnit(s.pc[u]);
      assert HasUnit(s'.pc[u]);
    }
    if s.value > 0 && s.waiters != [] {
      var u :| 0 <= u < |s.pc| && s.pc[u] == Acq;
      assert s'.pc[u] == Acq;
    }
  }

  /** A signalled thread whose semaphore test succeeds goes on to reacquire the lock. */
  lemma WokenInv(s: State, t: Tid)
    requires Inv(s) && t < |s.pc| && s.pc[t].WDown? && s.priv[t] != 0
    ensures s.priv[t] == 1 && Inv(Goto(s.(priv := s.priv[t := s.priv[t] - 1]), t, Acq))
  {
    var s' := Goto(s.(priv := s.priv[t := s.priv[t] - 1]), t, Acq);
    assert ThreadCondOk(s, t);
    var c0 := s.pc[t].c;
    forall i | 0 <= i < |s.conds[c0]| ensures s.conds[c0][i] != t { assert QueuedOk(s, c0, s.conds[c0][i]); }
    forall x | 0 <= x < |s'.pc| ensures ThreadCondOk(s', x) { assert ThreadCondOk(s, x); }
    forall c, i | 0 <= c < |s'.conds| && 0 <= i < |s'.conds[c]| ensures QueuedOk(s', c, s'.conds[c][i]) {
      assert QueuedOk(s, c, s.conds[c][i]);
    }
    PlainMove(s, s', t);
  }

  /** Signalling under the lock: the popped waiter cannot be on its way out of the lock, so it
      is about to test its semaphore or asleep on it. */
  lemma SignalInv(s: State, t: Tid, c: CondId)
    requires Inv(s) && t < |s.pc| && (s.pc[t] == In || s.pc[t].Bcast?) && c < |s.conds|
    ensures s.conds[c] != [] ==> s.conds[c][0] < |s.pc|
    ensures Inv(SignalOne(s, c))
    ensures s.conds[c] != [] ==> var w, s' := s.conds[c][0], SignalOne(s, c);
              s'.pc[w] == WDown(c) && s'.priv[w] == 1 && w !in s'.conds[c]
  {
    HeadsExist(s);
    if s.conds[c] != [] {
      var q, w := s.conds[c], s.conds[c][0];
      assert QueuedOk(s, c, w) && ThreadCondOk(s, w);
      assert HasUnit(s.pc[t]);
      assert w != t && (HasUnit(s.pc[w]) ==> w == t);
      var s' := SignalOne(s, c);
      assert q == [w] + q[1..] && w !in q[1..];
      assert s'.pc == s.pc[w := WDown(c)];
      SignalConds(s, s', c, w);
      PlainMove(s, s', w);
    }
  }

  lemma SignalConds(s: State, s': State, c: CondId, w: Tid)
    requires Inv(s) && c < |s.conds| && s.conds[c] != [] && w == s.conds[c][0] && w < |s.pc|
    requires w !in s.conds[c][1..]
    requires s'.pc == s.pc[w := WDown(c)] && s'.priv == s.priv[w := s.priv[w] + 1]
    requires s'.conds == s.conds[c := s.conds[c][1..]]
    ensures CondsOk(s') && s'.priv[w] == 1
  {
    var q := s.conds[c];
    assert QueuedOk(s, c, w);
    forall x | 0 <= x < |s'.pc| ensures ThreadCondOk(s', x) {
      assert ThreadCondOk(s, x);
      if x != w && x in q { assert q == [w] + q[1..]; }
    }
    forall d, i | 0 <= d < |s'.conds| && 0 <= i < |s'.conds[d]| ensures QueuedOk(s', d, s'.conds[d][i]) {
      if d == c {
        assert s'.conds[d][i] == q[i + 1];
        assert QueuedOk(s, c, q[i + 1]);
        assert s'.conds[d][i] in q[1..];
      } else {
        assert QueuedOk(s, d, s.conds[d][i]);
      }
    }
  }

  lemma SetHolderInv(s: State, t: Tid)
    requires Inv(s) && Enabled(s, Event(t, SetHolder))
    ensures Inv(Step(s, Event(t, SetHolder)))
  {
    var s' := Step(s, Event(t, SetHolder));
    forall x | 0 <= x < |s'.pc| ensures Holds(s'.pc[x]) <==> s'.holder == Some(x) {
      assert Holds(s.pc[x]) ==> HasUnit(s.pc[x]);
      assert HasUnit(s.pc[x]) && HasUnit(s.pc[t]) ==> x == t;
    }
    MoveInv(s, s', t);
  }

  lemma AcquireInv(s: State, t: Tid)
    requires Inv(s) && Enabled(s, Event(t, Acquire))
    ensures Inv(Step(s, Event(t, Acquire)))
  {
    var s' := Step(s, Event(t, Acquire));
    forall x | 0 <= x < |s'.pc| ensures Holds(s'.pc[x]) <==> s'.holder == Some(x) {
      assert Holds(s.pc[x]) <==> s.holder == Some(x);
    }
    MoveInv(s, s', t);
  }

  lemma ReleaseInv(s: State, t: Tid)
    requires Inv(s) && Enabled(s, Event(t, Release))
    ensures Inv(Step(s, Event(t, Release)))
  {
    var s' := Step(s, Event(t, Release));
    ClearHolder(s, s', t);
    MoveInv(s, s', t);
  }

  lemma WaitReleaseInv(s: State, t: Tid)
    requires Inv(s) && Enabled(s, Event(t, WaitRelease))
    ensures Inv(Step(s, Event(t, WaitRelease)))
  {
    var s' := Step(s, Event(t, WaitRelease));
    ClearHolder(s, s', t);
    MoveInv(s, s', t);
  }

  lemma WaitDownInv(s: State, t: Tid)
    requires Inv(s) && Enabled(s, Event(t, WaitDown))
    ensures Inv(Step(s, Event(t, WaitDown)))
  {
    if s.priv[t] == 0 {
      var s' := Goto(s, t, WSleep(s.pc[t].c));
      KeepHolder(s, s', t);
      MoveInv(s, s', t);
    } else {
      WokenInv(s, t);
    }
  }

  lemma StartBroadcastInv(s: State, t: Tid, c: CondId)
    requires Inv(s) && Enabled(s, Event(t, StartBroadcast(c)))
    ensures Inv(Step(s, Event(t, StartBroadcast(c))))
  {
    var s' := Step(s, Event(t, StartBroadcast(c)));
    KeepHolder(s, s', t);
    MoveInv(s, s', t);
  }

  lemma BroadcastStepInv(s: State, t: Tid)
    requires Inv(s) && Enabled(s, Event(t, BroadcastStep))
    ensures Inv(Step(s, Event(t, BroadcastStep)))
  {
    if s.conds[s.pc[t].c] == [] {
      var s' := Goto(s, t, In);
      KeepHolder(s, s', t);
      MoveInv(s, s', t);
    } else {
      SignalInv(s, t, s.pc[t].c);
    }
  }

  lemma KeepHolder(s: State, s': State, t: Tid)
    requires Inv(s) && t < |s.pc| == |s'.pc| && Holds(s.pc[t]) == Holds(s'.pc[t])
    requires s'.pc == s.pc[t := s'.pc[t]] && s'.holder == s.holder
    ensures HolderOk(s')
  {
    forall x | 0 <= x < |s'.pc| ensures Holds(s'.pc[x]) <==> s'.holder == Some(x) {
      assert Holds(s.pc[x]) <==> s.holder == Some(x);
    }
  }

  /** The steps of lock_acquire and lock_release. */
  lemma LockStepInv(s: State, e: Event)
    requires Inv(s) && Enabled(s, e)
    requires e.a.Acquire? || e.a.Down? || e.a.SetHolder? || e.a.Release? || e.a.Up?
    ensures Inv(Step(s, e))
  {
    match e.a
    case Acquire => AcquireInv(s, e.t);
    case Down => LockDownInv(s, e.t);
    case SetHolder => SetHolderInv(s, e.t);
    case Release => ReleaseInv(s, e.t);
    case Up => HeadsExist(s); GiveBackInv(s, e.t, Out);
  }

  /** The steps of condvar_wait before the lock is taken again. */
  lemma WaitStepInv(s: State, e: Event)
    requires Inv(s) && Enabled(s, e) && (e.a.Wait? || e.a.WaitRelease? || e.a.WaitUp? || e.a.WaitDown?)
    ensures Inv(Step(s, e))
  {
    match e.a
    case Wait(c) => WaitInv(s, e.t, c);
    case WaitRelease => WaitReleaseInv(s, e.t);
    case WaitUp => HeadsExist(s); GiveBackInv(s, e.t, WDown(s.pc[e.t].c));
    case WaitDown => WaitDownInv(s, e.t);
  }

  /** Every step, of any thread, keeps the invariant; that `Step` is defined on every enabled
      event also says that the asserted ownership holds wherever the code asserts it. */
  lemma StepInv(s: State, e: Event)
    requires Inv(s) && Enabled(s, e)
    ensures Inv(Step(s, e))
  {
    if e.a.Acquire? || e.a.Down? || e.a.SetHolder? || e.a.Release? || e.a.Up? {
      LockStepInv(s, e);
    } else if e.a.Wait? || e.a.WaitRelease? || e.a.WaitUp? || e.a.WaitDown? {
      WaitStepInv(s, e);
    } else {
      SignalStepInv(s, e);
    }
  }

  lemma SignalStepInv(s: State, e: Event)
    requires Inv(s) && Enabled(s, e) && (e.a.Signal? || e.a.StartBroadcast? || e.a.BroadcastStep?)
    ensures Inv(Step(s, e))
  {
    match e.a
    case Signal(c) => SignalInv(s, e.t, c);
    case StartBroadcast(c) => StartBroadcastInv(s, e.t, c);
    case BroadcastStep => BroadcastStepInv(s, e.t);
  }

  lemma ClearHolder(s: State, s': State, t: Tid)
    requires Inv(s) && t < |s.pc| == |s'.pc| && Holds(s.pc[t]) && !Holds(s'.pc[t])
    requires s'.pc == s.pc[t := s'.pc[t]] && s'.holder == None
    ensures HolderOk(s')
  {
    forall x | 0 <= x < |s'.pc| ensures Holds(s'.pc[x]) <==> s'.holder == Some(x) {
      assert s.holder == Some(t) && (Holds(s.pc[x]) <==> s.holder == Some(x));
    }
  }

  // ----- Runs ---------------------------------------------------------------------------------

  /** A run: each event is enabled where it occurs. Nothing is assumed of the states on the way. */
  ghost predicate Feasible(s: State, es: seq<Event>)
    requires Inv(s)
    decreases |es|
  {
    es == [] || (Enabled(s, es[0]) && (StepInv(s, es[0]); Feasible(Step(s, es[0]), es[1..])))
  }

  ghost function After(s: State, es: seq<Event>): State
    requires Inv(s) && Feasible(s, es)
    decreases |es|
  {
    if es == [] then s
    else
      StepInv(s, es[0]);
      After(Step(s, es[0]), es[1..])
  }

  /** Every run of enabled steps from a good state keeps the invariant, and the threads and
      condition variables there are. */
  lemma {:induction false} RunInv(s: State, es: seq<Event>)
    requires Inv(s) && Feasible(s, es)
    ensures Inv(After(s, es)) && |After(s, es).pc| == |s.pc| && |After(s, es).conds| == |s.conds|
    decreases |es|
  {
    if es == [] {
    } else {
      StepInv(s, es[0]);
      StepShape(s, es[0]);
      RunInv(Step(s, es[0]), es[1..]);
    }
  }

  /** A run goes on with exactly the steps enabled after it. */
  lemma {:induction false} FeasibleSnoc(s: State, es: seq<Event>, e: Event)
    requires Inv(s) && Feasible(s, es)
    ensures Inv(After(s, es)) && (Feasible(s, es + [e]) <==> Enabled(After(s, es), e))
    ensures Feasible(s, es + [e]) ==> After(s, es + [e]) == Step(After(s, es), e)
    decreases |es|
  {
    if es == [] {
      assert [] + [e] == [e] && [e][1..] == [];
      if Enabled(s, e) { StepInv(s, e); }
    } else {
      StepInv(s, es[0]);
      FeasibleSnoc(Step(s, es[0]), es[1..], e);
      assert (es + [e])[1..] == es[1..] + [e];
    }
  }

  lemma RunCons(s: State, e: Event, s1: State, rest: seq<Event>)
    requires Inv(s) && Enabled(s, e) && s1 == Step(s, e) && Inv(s1) && Feasible(s1, rest)
    ensures Feasible(s, [e] + rest) && After(s, [e] + rest) == After(s1, rest)
  {
    var es := [e] + rest;
    assert es[0] == e && es[1..] == rest;
  }

  lemma StepShape(s: State, e: Event)
    requires Inv(s) && Enabled(s, e)
    ensures |Step(s, e).pc| == |s.pc| && |Step(s, e).conds| == |s.conds|
  {
    HeadsExist(s);
  }

  /** Mutual exclusion: in every run at most one thread is between the down that ends its
      lock_acquire and the up that ends its lock_release, and it alone can be the holder. */
  lemma MutualExclusion(threads: nat, conds: nat, es: seq<Event>, t: Tid, u: Tid)
    requires Feasible(Init(threads, conds), es)
    requires t < |After(Init(threads, conds), es).pc| && u < |After(Init(threads, conds), es).pc|
    ensures var s := After(Init(threads, conds), es);
            && (HasUnit(s.pc[t]) && HasUnit(s.pc[u]) ==> t == u)
            && (HasUnit(s.pc[t]) ==> s.value == 0 && s.holder in {None, Some(t)})
            && (s.pc[t] == In ==> s.holder == Some(t))
  {
    RunInv(Init(threads, conds), es);
    var s := After(Init(threads, conds), es);
    if HasUnit(s.pc[t]) && s.holder.Some? {
      var h := s.holder.value;
      assert Holds(s.pc[h]) && HasUnit(s.pc[h]);
    }
  }

  // ----- The lock is never stuck ------------------------------------------------------------

  /** What the thread with the unit does next if it is to give the unit back. */
  function Leaving(p: Pc): Action
    requires HasUnit(p)
  {
    if p == Got then SetHolder else if p == In then Release else if p.WRel? then WaitRelease
    else if p.WUp? then WaitUp else if p.Bcast? then BroadcastStep else Up
  }

  /** How many such steps it is away from the up, that one included. */
  function Distance(s: State, h: Tid): nat
    requires h < |s.pc|
  {
    var p := s.pc[h];
    if p == Got then 3
    else if p == In || p.WRel? then 2
    else if p == Rel || p.WUp? then 1
    else if p.Bcast? && p.c < |s.conds| then |s.conds[p.c]| + 3
    else 0
  }

  /** The holder's next leaving step is enabled. It brings the up one step nearer, or is the up:
      then the lock is free and the longest waiter, if any, is woken. */
  lemma LeavingStep(s: State, h: Tid)
    requires Inv(s) && h < |s.pc| && HasUnit(s.pc[h])
    ensures Enabled(s, Event(h, Leaving(s.pc[h]))) && Distance(s, h) >= 1
    ensures var s' := Step(s, Event(h, Leaving(s.pc[h])));
            && |s'.pc| == |s.pc|
            && if Distance(s, h) > 1 then
                 HasUnit(s'.pc[h]) && s'.waiters == s.waiters && Distance(s', h) == Distance(s, h) - 1
               else
                 GivenBack(s, s')
  {
    HeadsExist(s);
    assert ThreadCondOk(s, h);
    if s.pc[h].Bcast? && s.conds[s.pc[h].c] != [] {
      var c := s.pc[h].c;
      assert QueuedOk(s, c, s.conds[c][0]);
    }
  }

  ghost predicate GivenBack(s: State, s': State) {
    && s'.value == 1 && |s'.pc| == |s.pc|
    && s'.waiters == (if s.waiters == [] then [] else s.waiters[1..])
    && (s.waiters != [] ==> s.waiters[0] < |s.pc| && s'.pc[s.waiters[0]] == Acq)
  }

  /** No other thread takes the holder's unit, moves it, makes its way longer, or jumps the queue. */
  lemma OthersWait(s: State, h: Tid, e: Event)
    requires Inv(s) && h < |s.pc| && HasUnit(s.pc[h]) && Enabled(s, e) && e.t != h
    ensures var s' := Step(s, e);
            |s'.pc| == |s.pc| && s'.pc[h] == s.pc[h] && Distance(s', h) == Distance(s, h) && s.waiters <= s'.waiters
  {
    HeadsExist(s);
    assert ThreadCondOk(s, h);
    if HasUnit(s.pc[e.t]) { assert false; }
  }

  function StepsOf(es: seq<Event>, h: Tid): nat {
    if es == [] then 0 else (if es[0].t == h then 1 else 0) + StepsOf(es[1..], h)
  }

  /** While it has the unit, `h` only takes leaving steps. */
  ghost predicate OnlyLeaves(s: State, es: seq<Event>, h: Tid)
    requires Inv(s) && Feasible(s, es)
    decreases |es|
  {
    es == [] || (StepInv(s, es[0]);
                 && (es[0].t == h && h < |s.pc| && HasUnit(s.pc[h]) ==> es[0].a == Leaving(s.pc[h]))
                 && OnlyLeaves(Step(s, es[0]), es[1..], h))
  }

  /** In every run in which the holder only leaves, however the other threads' steps fall between,
      its `Distance`-th step is the up: the lock is free and the first waiter is woken. */
  lemma {:induction false} HolderGivesBack(s: State, es: seq<Event>, h: Tid) returns (i: nat)
    requires Inv(s) && Feasible(s, es) && h < |s.pc| && HasUnit(s.pc[h]) && OnlyLeaves(s, es, h)
    requires StepsOf(es, h) >= Distance(s, h)
    ensures i < |es| && es[i].t == h && es[i].a in {Up, WaitUp} && StepsOf(es[..i + 1], h) == Distance(s, h)
    ensures Feasible(s, es[..i + 1])
    ensures var s' := After(s, es[..i + 1]);
            s'.value == 1 && (s.waiters != [] ==> s.waiters[0] < |s'.pc| && s'.pc[s.waiters[0]] == Acq)
    decreases |es|
  {
    LeavingStep(s, h);
    assert es != [];
    var e, rest := es[0], es[1..];
    StepInv(s, e);
    assert es[..1] == [e] && [e][1..] == [];
    if e.t == h && Distance(s, h) == 1 {
      i := 0;
    } else {
      if e.t != h { OthersWait(s, h, e); }
      i := HolderGivesBack(Step(s, e), rest, h);
      assert es[..i + 2][1..] == rest[..i + 1];
      i := i + 1;
    }
  }

  /** A free lock with waiters queued can be taken: somebody is about to test it. */
  lemma TakeFree(s: State) returns (u: Tid)
    requires Inv(s) && s.value > 0 && s.waiters != []
    ensures Enabled(s, Event(u, Down))
    ensures var s' := Step(s, Event(u, Down));
            |s'.pc| == |s.pc| && s'.value == 0 && s'.waiters == s.waiters && s'.pc[u] == Got && Distance(s', u) == 3
  {
    u :| 0 <= u < |s.pc| && s.pc[u] == Acq;
  }

  /** Once woken with the lock free, a thread takes it. */
  lemma TakesNext(s: State, t: Tid)
    requires Inv(s) && t < |s.pc| && s.pc[t] == Acq && s.value == 1
    ensures Feasible(s, [Event(t, Down)])
    ensures t < |After(s, [Event(t, Down)]).pc| && After(s, [Event(t, Down)]).pc[t] == Got
  {
    assert [Event(t, Down)][1..] == [];
  }

  /** Each thread queued for the lock can still get it, by steps that are enabled one after the
      other: the holder `h` leaves, the next in line takes and leaves, and so on. */
  lemma {:induction false} WaiterCanAcquire(s: State, i: nat, h: Tid) returns (es: seq<Event>)
    requires Inv(s) && i < |s.waiters| && (s.value == 0 ==> h < |s.pc| && HasUnit(s.pc[h]))
    ensures Feasible(s, es) && s.waiters[i] < |After(s, es).pc| && After(s, es).pc[s.waiters[i]] == Got
    ensures |es| == 4 * i + 1 + if s.value == 0 then Distance(s, h) else 4
    decreases i, if s.value == 0 then Distance(s, h) else 4
  {
    var e, rest;
    if s.value > 0 {
      var u := TakeFree(s);
      e := Event(u, Down);
      StepInv(s, e);
      rest := WaiterCanAcquire(Step(s, e), i, u);
    } else {
      LeavingStep(s, h);
      e := Event(h, Leaving(s.pc[h]));
      StepInv(s, e);
      if Distance(s, h) == 1 && i == 0 {
        TakesNext(Step(s, e), s.waiters[0]);
        rest := [Event(s.waiters[0], Down)];
      } else {
        rest := WaiterCanAcquire(Step(s, e), if Distance(s, h) == 1 then i - 1 else i, h);
      }
    }
    RunCons(s, e, Step(s, e), rest);
    es := [e] + rest;
  }

  /** No thread is ever stuck: from the state that any run leads to, whoever waits for the lock can
      still get it. */
  lemma LockNotStuck(threads: nat, conds: nat, es: seq<Event>, t: Tid) returns (more: seq<Event>)
    requires Feasible(Init(threads, conds), es) && t in After(Init(threads, conds), es).waiters
    ensures Inv(After(Init(threads, conds), es)) && Feasible(After(Init(threads, conds), es), more)
    ensures var z := After(After(Init(threads, conds), es), more); t < |z.pc| && z.pc[t] == Got
  {
    RunInv(Init(threads, conds), es);
    var z := After(Init(threads, conds), es);
    var i :| 0 <= i < |z.waiters| && z.waiters[i] == t;
    var h := 0;
    if z.value == 0 { h :| 0 <= h < |z.pc| && HasUnit(z.pc[h]); }
    more := WaiterCanAcquire(z, i, h);
  }

  // ----- Condition variables in every run ----------------------------------------------------------

  /** The thread whose private semaphore a step ups, and the condition variable it leaves. */
  function Popped(s: State, e: Event): Option<(CondId, Tid)> {
    if e.t < |s.pc| && (e.a.Signal? || (e.a.BroadcastStep? && s.pc[e.t].Bcast?)) then
      var c := if e.a.Signal? then e.a.c else s.pc[e.t].c;
      if c < |s.conds| && s.conds[c] != [] then Some((c, s.conds[c][0])) else None
    else None
  }

  function PoppedFrom(s: State, e: Event, c: CondId): seq<Tid> {
    var p := Popped(s, e);
    if p.Some? && p.value.0 == c then [p.value.1] else []
  }

  function PushedOn(e: Event, c: CondId): seq<Tid> {
    if e.a == Wait(c) then [e.t] else []
  }

  lemma StepQueue(s: State, e: Event, c: CondId)
    requires Inv(s) && Enabled(s, e) && c < |s.conds|
    ensures c < |Step(s, e).conds|
    ensures s.conds[c] + PushedOn(e, c) == PoppedFrom(s, e, c) + Step(s, e).conds[c]
  {
    if Popped(s, e) == None { QuietQueue(s, e, c); } else { PopQueue(s, e, c); }
  }

  lemma PopQueue(s: State, e: Event, c: CondId)
    requires Inv(s) && Enabled(s, e) && c < |s.conds| && Popped(s, e).Some?
    ensures |Step(s, e).conds| == |s.conds|
    ensures s.conds[c] + PushedOn(e, c) == PoppedFrom(s, e, c) + Step(s, e).conds[c]
  {
    PopStep(s, e);
    SignalQueue(s, Popped(s, e).value.0, c);
  }

  /** A step that ups a private semaphore is a signal on that queue, and pushes nobody. */
  lemma PopStep(s: State, e: Event)
    requires Inv(s) && Enabled(s, e) && Popped(s, e).Some?
    ensures var (d, t) := Popped(s, e).value;
            d < |s.conds| && s.conds[d] != [] && t == s.conds[d][0] && t < |s.pc| && Step(s, e) == SignalOne(s, d)
    ensures !e.a.Wait?
  {
    HeadsExist(s);
  }

  /** A signal on `d` takes the front of queue `d` and leaves the other queues alone. */
  lemma SignalQueue(s: State, d: CondId, c: CondId)
    requires Inv(s) && d < |s.conds| && c < |s.conds|
    requires s.conds[d] != [] ==> s.conds[d][0] < |s.pc|
    ensures SignalOne(s, d).conds[c] == if d == c && s.conds[c] != [] then s.conds[c][1..] else s.conds[c]
    ensures s.conds[c] != [] ==> s.conds[c] == [s.conds[c][0]] + s.conds[c][1..]
  {
  }

  /** Only a wait pushes, and nothing but a signal pops. */
  lemma QuietQueue(s: State, e: Event, c: CondId)
    requires Inv(s) && Enabled(s, e) && c < |s.conds| && Popped(s, e) == None
    ensures |Step(s, e).conds| == |s.conds| && Step(s, e).conds[c] == s.conds[c] + PushedOn(e, c)
  {
    HeadsExist(s);
  }

  ghost function AllPopped(s: State, es: seq<Event>, c: CondId): seq<Tid>
    requires Inv(s) && Feasible(s, es)
    decreases |es|
  {
    if es == [] then [] else StepInv(s, es[0]); PoppedFrom(s, es[0], c) + AllPopped(Step(s, es[0]), es[1..], c)
  }

  function AllPushed(es: seq<Event>, c: CondId): seq<Tid> {
    if es == [] then [] else PushedOn(es[0], c) + AllPushed(es[1..], c)
  }

  /** Waiters are signalled in the order in which they called condvar_wait: in every run the
      threads signalled so far, followed by those still queued, are those queued at the start
      followed by those that have started to wait. */
  lemma {:induction false} SignalsAreFifo(s: State, es: seq<Event>, c: CondId)
    requires Inv(s) && Feasible(s, es) && c < |s.conds|
    ensures c < |After(s, es).conds|
    ensures s.conds[c] + AllPushed(es, c) == AllPopped(s, es, c) + After(s, es).conds[c]
    decreases |es|
  {
    if es == [] {
    } else {
      var s' := Step(s, es[0]);
      StepInv(s, es[0]);
      StepQueue(s, es[0], c);
      SignalsAreFifo(s', es[1..], c);
      Chain(s.conds[c], PushedOn(es[0], c), AllPushed(es[1..], c), PoppedFrom(s, es[0], c), s'.conds[c],
            AllPopped(s', es[1..], c), After(s, es).conds[c]);
    }
  }

  lemma Chain<T>(a: seq<T>, b: seq<T>, r: seq<T>, p: seq<T>, m: seq<T>, x: seq<T>, z: seq<T>)
    requires a + b == p + m && m + r == x + z
    ensures a + (b + r) == (p + x) + z
  {
    assert a + (b + r) == (a + b) + r;
    assert (p + m) + r == p + (m + r);
    assert p + (x + z) == (p + x) + z;
  }

  /** A broadcast that has ended has signalled every thread that was queued when it began. */
  lemma BroadcastReachesAll(s: State, es: seq<Event>, t: Tid, c: CondId)
    requires Inv(s) && Feasible(s, es) && t < |s.pc| && s.pc[t] == Bcast(c)
    requires t < |After(s, es).pc| && After(s, es).pc[t] == Bcast(c)
    requires Feasible(s, es + [Event(t, BroadcastStep)])
    requires t < |After(s, es + [Event(t, BroadcastStep)]).pc| && After(s, es + [Event(t, BroadcastStep)]).pc[t] == In
    ensures c < |s.conds| && forall w :: w in s.conds[c] ==> w in AllPopped(s, es, c)
  {
    var e, z := Event(t, BroadcastStep), After(s, es);
    assert ThreadCondOk(s, t);
    FeasibleSnoc(s, es, e);
    SignalsAreFifo(s, es, c);
    assert z.conds[c] == [];
    forall w | w in s.conds[c] ensures w in AllPopped(s, es, c) {
      assert w in s.conds[c] + AllPushed(es, c);
    }
  }

  /** Times a run signals `t`, times `t` starts to wait, and times a wait of `t` gets past its
      private semaphore. */
  function SignalsStep(s: State, e: Event, t: Tid): int {
    var p := Popped(s, e);
    if p.Some? && p.value.1 == t then 1 else 0
  }

  function WaitsStep(e: Event, t: Tid): int { if e.t == t && e.a.Wait? then 1 else 0 }

  function PassesStep(s: State, e: Event, t: Tid): int {
    if e.t == t && e.a.WaitDown? && t < |s.priv| && s.priv[t] > 0 then 1 else 0
  }

  /** Inside condvar_wait and not yet signalled. */
  ghost predicate Pending(s: State, t: Tid)
    requires |s.pc| == |s.priv|
  {
    t < |s.pc| && (s.pc[t].WRel? || s.pc[t].WUp? || s.pc[t].WDown? || s.pc[t].WSleep?) && s.priv[t] == 0
  }

  ghost function PendingCount(s: State, t: Tid): int
    requires |s.pc| == |s.priv|
  {
    if Pending(s, t) then 1 else 0
  }

  lemma StepSignals(s: State, e: Event, t: Tid)
    requires Inv(s) && Enabled(s, e) && t < |s.pc|
    ensures var s' := Step(s, e);
            && |s'.pc| == |s'.priv| == |s.pc|
            && s'.priv[t] == s.priv[t] + SignalsStep(s, e, t) - PassesStep(s, e, t)
            && PendingCount(s', t) == PendingCount(s, t) + WaitsStep(e, t) - SignalsStep(s, e, t)
  {
    assert ThreadCondOk(s, t);
    if e.a.Signal? {
      SignalCounts(s, e.t, e.a.c, t);
    } else if e.a.BroadcastStep? {
      assert ThreadCondOk(s, e.t);
      SignalCounts(s, e.t, s.pc[e.t].c, t);
    } else if e.a.WaitDown? {
      WaitDownCounts(s, e.t, t);
    } else if e.a.Up? || e.a.WaitUp? {
      GiveBackCounts(s, e, t);
    } else {
      OtherCounts(s, e, t);
    }
  }

  lemma GiveBackCounts(s: State, e: Event, t: Tid)
    requires Inv(s) && Enabled(s, e) && t < |s.pc| && (e.a.Up? || e.a.WaitUp?)
    ensures var s' := Step(s, e);
            |s'.pc| == |s'.priv| == |s.pc| && s'.priv == s.priv && PendingCount(s', t) == PendingCount(s, t)
  {
    HeadsExist(s);
  }

  lemma OtherCounts(s: State, e: Event, t: Tid)
    requires Inv(s) && Enabled(s, e) && t < |s.pc|
    requires !e.a.Signal? && !e.a.BroadcastStep? && !e.a.WaitDown? && !e.a.Up? && !e.a.WaitUp?
    ensures var s' := Step(s, e);
            |s'.pc| == |s'.priv| == |s.pc| && s'.priv[t] == s.priv[t] &&
            PendingCount(s', t) == PendingCount(s, t) + WaitsStep(e, t)
  {
    assert ThreadCondOk(s, e.t);
  }

  lemma SignalCounts(s: State, u: Tid, c: CondId, t: Tid)
    requires Inv(s) && u < |s.pc| && (s.pc[u] == In || s.pc[u].Bcast?) && c < |s.conds| && t < |s.pc|
    requires s.conds[c] != [] ==> s.conds[c][0] < |s.pc|
    ensures var s', hit := SignalOne(s, c), if s.conds[c] != [] && s.conds[c][0] == t then 1 else 0;
            && |s'.pc| == |s'.priv| == |s.pc|
            && s'.priv[t] == s.priv[t] + hit
            && PendingCount(s', t) == PendingCount(s, t) - hit
  {
    if s.conds[c] != [] {
      assert QueuedOk(s, c, s.conds[c][0]);
      SignalInv(s, u, c);
    }
  }

  lemma WaitDownCounts(s: State, u: Tid, t: Tid)
    requires Inv(s) && Enabled(s, Event(u, WaitDown)) && t < |s.pc|
    ensures var s' := Step(s, Event(u, WaitDown));
            && |s'.pc| == |s'.priv| == |s.pc|
            && s'.priv[t] == s.priv[t] - PassesStep(s, Event(u, WaitDown), t)
            && PendingCount(s', t) == PendingCount(s, t)
  {
    assert ThreadCondOk(s, u);
  }

  ghost function Signals(s: State, es: seq<Event>, t: Tid): int
    requires Inv(s) && Feasible(s, es)
    decreases |es|
  {
    if es == [] then 0 else StepInv(s, es[0]); SignalsStep(s, es[0], t) + Signals(Step(s, es[0]), es[1..], t)
  }

  function Waits(es: seq<Event>, t: Tid): int {
    if es == [] then 0 else WaitsStep(es[0], t) + Waits(es[1..], t)
  }

  ghost function Passes(s: State, es: seq<Event>, t: Tid): int
    requires Inv(s) && Feasible(s, es)
    decreases |es|
  {
    if es == [] then 0 else StepInv(s, es[0]); PassesStep(s, es[0], t) + Passes(Step(s, es[0]), es[1..], t)
  }

  /** No signal is lost and none is duplicated: in every run, each wait of a thread has been
      signalled exactly once, the one still pending aside; and each signal has let exactly one
      wait through, the one not yet consumed aside. */
  lemma {:induction false} EachWaitSignalledOnce(s: State, es: seq<Event>, t: Tid)
    requires Inv(s) && Feasible(s, es) && t < |s.pc|
    ensures var z := After(s, es);
            && |z.pc| == |z.priv| == |s.pc|
            && Waits(es, t) + PendingCount(s, t) == Signals(s, es, t) + PendingCount(z, t)
            && Signals(s, es, t) + s.priv[t] == Passes(s, es, t) + z.priv[t]
    decreases |es|
  {
    if es == [] {
    } else {
      StepInv(s, es[0]);
      StepSignals(s, es[0], t);
      EachWaitSignalledOnce(Step(s, es[0]), es[1..], t);
    }
  }

  /** A signal that arrives between the release of the lock and the sleep is kept: the signalled
      thread is ready to pass its semaphore, no other thread's step changes that, and its own
      next step goes on to reacquire the lock. */
  lemma SignalSurvives(s: State, e: Event, w: Tid)
    requires Inv(s) && Enabled(s, e) && w < |s.pc| && s.pc[w].WDown? && s.priv[w] == 1
    ensures var s' := Step(s, e);
            |s'.pc| == |s'.priv| == |s.pc| &&
            if e.t == w then s'.pc[w] == Acq else s'.pc[w] == s.pc[w] && s'.priv[w] == 1
  {
    HeadsExist(s);
    var p := Popped(s, e);
    if p.Some? {
      assert QueuedOk(s, p.value.0, p.value.1);
    }
  }
}
