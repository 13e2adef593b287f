/** Threads of the kernel that run lock.c and condvar.c: each step of their code is a step of the
    kernel's machine, taken by the thread that has the CPU. The machine of `Locks`, where any thread
    that is not waiting may move, is what is left of it when the scheduler is forgotten. */
module LockThreads {
  import opened Wrappers
  import K = Kernel
  import L = Locks

  /** `sema` is the semaphore of the lock. Thread `t` of the first |pc| threads is at `pc[t]` of the
      code, where `Acq` and `WDown` are semaphore_down on the lock's semaphore and on the private one,
      `priv[t]`, whether the thread waits there or not. */
  datatype State = State(
    k: K.State,
    sema: K.SemId,
    pc: seq<L.Pc>,
    priv: seq<K.SemId>,
    holder: Option<L.Tid>,
    conds: seq<seq<L.Tid>>)

  datatype Act = Code(a: L.Action) | Other(e: K.Event)

  // ----- What the lock's code is to be -----------------------------------------------------

  /** The thread's private semaphore is in use. */
  predicate Private(p: L.Pc) { p.WRel? || p.WUp? || p.WDown? }

  ghost predicate SemasOk(sems: seq<K.Sema>, c: State) {
    && c.sema < |sems| && |c.pc| == |c.priv|
    && (forall t :: 0 <= t < |c.pc| ==> c.pc[t] != L.AcqWait && !c.pc[t].WSleep?)
    && (forall t :: 0 <= t < |c.pc| && Private(c.pc[t]) ==> c.priv[t] < |sems| && c.priv[t] != c.sema)
    && (forall t, u :: 0 <= t < u < |c.pc| && Private(c.pc[t]) && Private(c.pc[u]) ==> c.priv[t] != c.priv[u])
  }

  ghost predicate Shape(c: State) { SemasOk(c.k.sems, c) }

  /** Where `Locks` has the thread: it distinguishes those that wait. */
  function View(c: State, t: nat): L.Pc
    requires Shape(c) && t < |c.pc|
  {
    var p := c.pc[t];
    if p.Acq? && t in c.k.sems[c.sema].waiters then L.AcqWait
    else if p.WDown? && t in c.k.sems[c.priv[t]].waiters then L.WSleep(p.c)
    else p
  }

  function PrivValue(c: State, t: nat): nat
    requires Shape(c) && t < |c.pc|
  {
    if Private(c.pc[t]) then c.k.sems[c.priv[t]].value else 0
  }

  function Abs(c: State): (s: L.State)
    requires Shape(c)
    ensures |s.pc| == |c.pc| == |s.priv|
    ensures forall t :: 0 <= t < |c.pc| ==> s.pc[t] == View(c, t) && s.priv[t] == PrivValue(c, t)
  {
    var m := c.k.sems[c.sema];
    L.State(seq(|c.pc|, t requires 0 <= t < |c.pc| => View(c, t)), c.holder, m.value, m.waiters,
            seq(|c.pc|, t requires 0 <= t < |c.pc| => PrivValue(c, t)), c.conds)
  }

  // ----- The machine ------------------------------------------------------------------------

  /** What the kernel does in a step of the code. */
  function KernelPart(c: State, a: L.Action): Option<K.Event>
    requires Shape(c) && c.k.cur < |c.pc|
  {
    var t := c.k.cur;
    match a
    case Down => Some(if t in c.k.inDown then K.Recheck else K.Down(c.sema))
    case Up => Some(K.Up(c.sema))
    case Wait(_) => Some(K.InitSema(0))
    case WaitUp => Some(K.Up(c.sema))
    case WaitDown => Some(if t in c.k.inDown then K.Recheck else K.Down(c.priv[t]))
    case Signal(x) => SignalPart(c, x)
    case BroadcastStep => if c.pc[t].Bcast? then SignalPart(c, c.pc[t].c) else None
    case _ => None
  }

  function SignalPart(c: State, x: L.CondId): Option<K.Event>
    requires Shape(c)
  {
    if x < |c.conds| && c.conds[x] != [] && c.conds[x][0] < |c.priv| then Some(K.Up(c.priv[c.conds[x][0]])) else None
  }

  /** Not the lock's semaphore, nor a private one in use. */
  ghost predicate Foreign(c: State, s: K.SemId) {
    s != c.sema && |c.pc| == |c.priv| && forall t :: 0 <= t < |c.pc| && Private(c.pc[t]) ==> s != c.priv[t]
  }

  /** The thread on the CPU takes the next step of its code; or it does something else, or an
      interrupt does: threads may do what they like, but they use these semaphores through the code
      only, and finish what they have begun before they exit. */
  ghost predicate Can(c: State, act: Act) {
    var k := c.k;
    match act
    case Code(a) =>
      k.cur < |c.pc| && k.cur != k.idle && (k.cur in k.inDown ==> a.Down? || a.WaitDown?) && L.At(c.pc[k.cur], a, |c.conds|)
    case Other(e) =>
      K.Enabled(k, e)
      && match e
         case Down(s) => Foreign(c, s) && (k.cur < |c.pc| ==> c.pc[k.cur] in {L.Out, L.In})
         case Up(s) => Foreign(c, s)
         case Recheck => k.cur in k.inDown && Foreign(c, k.inDown[k.cur])
         case Exit => k.cur < |c.pc| ==> c.pc[k.cur] == L.Out
         case _ => true
  }

  /** The rest of a step of the code, by thread `t`; `v` is the value that semaphore_down tests. */
  function CodePart(c: State, t: nat, a: L.Action): State
    requires Shape(c) && t < |c.pc| && L.At(c.pc[t], a, |c.conds|)
  {
    match a
    case Acquire => Goto(c, t, L.Acq)
    case Down => if c.k.sems[c.sema].value == 0 then c else Goto(c, t, L.Got)
    case SetHolder => Goto(c.(holder := Some(t)), t, L.In)
    case Release => Goto(c.(holder := None), t, L.Rel)
    case Up => Goto(c, t, L.Out)
    case Wait(x) => Goto(c.(conds := c.conds[x := c.conds[x] + [t]], priv := c.priv[t := |c.k.sems|]), t, L.WRel(x))
    case WaitRelease => Goto(c.(holder := None), t, L.WUp(c.pc[t].c))
    case WaitUp => Goto(c, t, L.WDown(c.pc[t].c))
    case WaitDown => if c.k.sems[c.priv[t]].value == 0 then c else Goto(c, t, L.Acq)
    case Signal(x) => PopCond(c, x)
    case StartBroadcast(x) => Goto(c, t, L.Bcast(x))
    case BroadcastStep => if c.conds[c.pc[t].c] == [] then Goto(c, t, L.In) else PopCond(c, c.pc[t].c)
  }

  function Goto(c: State, t: nat, p: L.Pc): State
    requires t < |c.pc|
  {
    c.(pc := c.pc[t := p])
  }

  function PopCond(c: State, x: L.CondId): State
    requires x < |c.conds|
  {
    if c.conds[x] == [] then c else c.(conds := c.conds[x := c.conds[x][1..]])
  }

  // ----- Invariant -----------------------------------------------------------------------------

  /** Whoever is in semaphore_down is where its code says. */
  ghost predicate DownOk(c: State, t: nat, s: K.SemId)
    requires |c.pc| == |c.priv|
  {
    && (s == c.sema <==> t < |c.pc| && c.pc[t] == L.Acq)
    && (t < |c.pc| && c.pc[t].WDown? ==> s == c.priv[t])
    && (forall u :: 0 <= u < |c.pc| && Private(c.pc[u]) && s == c.priv[u] ==> t == u && c.pc[u].WDown?)
  }

  ghost predicate DownsOk(c: State)
    requires |c.pc| == |c.priv|
  {
    forall t :: t in c.k.inDown ==> DownOk(c, t, c.k.inDown[t])
  }

  ghost predicate Inv(c: State) { K.Inv(c.k) && Shape(c) && L.Inv(Abs(c)) && DownsOk(c) }

  /** The thread on the CPU waits for nothing. */
  lemma CurWaitsNot(c: State)
    requires K.Inv(c.k)
    ensures forall s :: 0 <= s < |c.k.sems| ==> c.k.cur !in c.k.sems[s].waiters
  {
    forall s | 0 <= s < |c.k.sems| ensures c.k.cur !in c.k.sems[s].waiters {
      assert K.Has(c.k, c.k.cur, K.Running);
    }
  }

  /** Who waits on a semaphore is inside semaphore_down on it. */
  lemma WaiterIsDown(c: State, s: K.SemId, t: nat)
    requires Inv(c) && s < |c.k.sems| && t in c.k.sems[s].waiters
    ensures t in c.k.inDown && c.k.inDown[t] == s && DownOk(c, t, s)
  {
  }

  // ----- Steps that are not of the code ----------------------------------------------------------

  /** Steps that leave every semaphore alone. */
  lemma SemasStay(k: K.State, e: K.Event)
    requires K.Inv(k) && K.Enabled(k, e) && !e.Down? && !e.Recheck? && !e.Up? && !e.InitSema?
    ensures K.Step(k, e).sems == k.sems && K.Step(k, e).inDown == k.inDown
  {
    if e.TimerTick? { K.TickOk(k); DrainStays(k.(ticks := k.ticks + 1)); }
  }

  lemma {:induction false} DrainStays(k: K.State)
    requires K.ListsOk(k)
    ensures K.Drain(k).sems == k.sems && K.Drain(k).inDown == k.inDown
    decreases |k.sleepers|
  {
    if k.sleepers == [] || k.ticks < k.sleepers[0].wake {
    } else {
      K.UnblockSleeperOk(k);
      DrainStays(K.UnblockSleeper(k));
    }
  }

  /** `Abs` sees the lock's semaphore and the private ones only. */
  lemma SameAbs(c: State, c': State)
    requires Shape(c) && Shape(c') && c'.sema == c.sema && c'.pc == c.pc && c'.priv == c.priv
    requires c'.holder == c.holder && c'.conds == c.conds
    requires c'.k.sems[c.sema] == c.k.sems[c.sema]
    requires forall t :: 0 <= t < |c.pc| && Private(c.pc[t]) ==> c'.k.sems[c.priv[t]] == c.k.sems[c.priv[t]]
    ensures Abs(c') == Abs(c)
  {
    forall t | 0 <= t < |c.pc| ensures View(c', t) == View(c, t) && PrivValue(c', t) == PrivValue(c, t) { }
    assert Abs(c').pc == Abs(c).pc && Abs(c').priv == Abs(c).priv;
  }

  lemma OtherStep(c: State, e: K.Event)
    requires Inv(c) && Can(c, Other(e))
    ensures var c' := c.(k := K.Step(c.k, e)); Inv(c') && Abs(c') == Abs(c)
  {
    var c' := c.(k := K.Step(c.k, e));
    K.StepInv(c.k, e);
    OtherSems(c, e);
    SameAbs(c, c');
    forall t | t in c'.k.inDown ensures DownOk(c', t, c'.k.inDown[t]) {
      if t in c.k.inDown && c'.k.inDown[t] == c.k.inDown[t] { assert DownOk(c, t, c.k.inDown[t]); }
    }
  }

  lemma OtherSems(c: State, e: K.Event)
    requires Inv(c) && Can(c, Other(e))
    ensures var k, k' := c.k, K.Step(c.k, e);
            && |k'.sems| >= |k.sems| && k'.sems[c.sema] == k.sems[c.sema]
            && (forall t :: 0 <= t < |c.pc| && Private(c.pc[t]) ==> k'.sems[c.priv[t]] == k.sems[c.priv[t]])
            && (forall t :: t in k'.inDown ==>
                  || (t in k.inDown && k'.inDown[t] == k.inDown[t])
                  || (t == k.cur && Foreign(c, k'.inDown[t]) && (t < |c.pc| ==> c.pc[t] != L.Acq && !c.pc[t].WDown?)))
  {
    if e.Down? {
    } else if e.Recheck? {
      assert DownOk(c, c.k.cur, c.k.inDown[c.k.cur]);
    } else if e.Up? {
      K.UpOk(c.k, e.s);
    } else if e.InitSema? {
    } else {
      SemasStay(c.k, e);
    }
  }

  // ----- Steps of the code ------------------------------------------------------------------------

  /** The step the machine of `Locks` takes. */
  function Seen(c: State, a: L.Action): L.Event { L.Event(c.k.cur, a) }

  lemma CodeEnabled(c: State, a: L.Action)
    requires Inv(c) && Can(c, Code(a))
    ensures View(c, c.k.cur) == c.pc[c.k.cur] && L.Enabled(Abs(c), Seen(c, a))
    ensures KernelPart(c, a).Some? ==> K.Enabled(c.k, KernelPart(c, a).value)
  {
    var t := c.k.cur;
    CurWaitsNot(c);
    if t in c.k.inDown { assert DownOk(c, t, c.k.inDown[t]); }
  }

  function KernelAfter(c: State, a: L.Action): K.State
    requires Inv(c) && Can(c, Code(a))
  {
    CodeEnabled(c, a);
    var e := KernelPart(c, a);
    if e.Some? then K.Step(c.k, e.value) else c.k
  }

  function Step(c: State, act: Act): State
    requires Inv(c) && Can(c, act)
  {
    match act
    case Other(e) => c.(k := K.Step(c.k, e))
    case Code(a) => CodePart(c, c.k.cur, a).(k := KernelAfter(c, a))
  }

  /** All that `Abs` shows of `c` is `s`. */
  lemma AbsIs(c: State, s: L.State)
    requires Shape(c) && |s.pc| == |c.pc| == |s.priv|
    requires s.holder == c.holder && s.conds == c.conds
    requires s.value == c.k.sems[c.sema].value && s.waiters == c.k.sems[c.sema].waiters
    requires forall t :: 0 <= t < |c.pc| ==> s.pc[t] == View(c, t) && s.priv[t] == PrivValue(c, t)
    ensures Abs(c) == s
  {
    assert Abs(c).pc == s.pc && Abs(c).priv == s.priv;
  }

  /** The semaphores and the code of `c'` are those of `c`, but for thread `t`'s place and semaphore `x`. */
  ghost predicate Moves(c: State, c': State, t: nat, p: L.Pc, x: K.SemId, m: K.Sema) {
    && Shape(c) && t < |c.pc| && x < |c.k.sems|
    && c'.sema == c.sema && c'.priv == c.priv && c'.pc == c.pc[t := p] && c'.k.sems == c.k.sems[x := m]
    && p != L.AcqWait && !p.WSleep?
  }

  /** A step without the kernel. */
  lemma MoveAbs(c: State, c': State, t: nat, p: L.Pc)
    requires Shape(c) && Moves(c, c', t, p, c.sema, c.k.sems[c.sema])
    requires c.pc[t] != L.Acq && !c.pc[t].WDown? && !p.WDown? && (Private(p) ==> Private(c.pc[t]) && !c.pc[t].WDown?)
    requires Private(c.pc[t]) ==> Private(p)
    requires t !in c.k.sems[c.sema].waiters
    ensures Shape(c') && Abs(c') == Abs(c).(pc := Abs(c).pc[t := p], holder := c'.holder, conds := c'.conds)
  {
    AbsIs(c', Abs(c).(pc := Abs(c).pc[t := p], holder := c'.holder, conds := c'.conds));
  }

  /** semaphore_down on the lock waits, or takes the unit. */
  lemma DownWaitsAbs(c: State, c': State, t: nat)
    requires Shape(c) && Moves(c, c', t, L.Acq, c.sema, K.Sema(0, c.k.sems[c.sema].waiters + [t]))
    requires c.pc[t] == L.Acq && c.k.sems[c.sema].value == 0 && c'.holder == c.holder && c'.conds == c.conds
    ensures Shape(c') && Abs(c') == L.LockDown(Abs(c), t)
  {
    AbsIs(c', L.LockDown(Abs(c), t));
  }

  lemma DownTakesAbs(c: State, c': State, t: nat)
    requires Shape(c) && c.k.sems[c.sema].value > 0
    requires Moves(c, c', t, L.Got, c.sema, c.k.sems[c.sema].(value := c.k.sems[c.sema].value - 1))
    requires c.pc[t] == L.Acq && c'.holder == c.holder && c'.conds == c.conds
    ensures Shape(c') && Abs(c') == L.LockDown(Abs(c), t)
  {
    AbsIs(c', L.LockDown(Abs(c), t));
  }

  /** What semaphore_up leaves. */
  function Upped(m: K.Sema): K.Sema { K.Sema(m.value + 1, if m.waiters == [] then [] else m.waiters[1..]) }

  /** semaphore_up on the lock, by thread `t` that goes to `p`. */
  ghost predicate Ups(c: State, c': State, t: nat, p: L.Pc) {
    && Shape(c) && Moves(c, c', t, p, c.sema, Upped(c.k.sems[c.sema]))
    && ((c.pc[t] == L.Rel && p == L.Out) || (c.pc[t].WUp? && p == L.WDown(c.pc[t].c)))
    && c'.holder == c.holder && c'.conds == c.conds && K.NoDup(c.k.sems[c.sema].waiters)
    && (forall u :: u in c.k.sems[c.sema].waiters ==> u < |c.pc| && c.pc[u] == L.Acq)
    && (Private(c.pc[t]) ==> t !in c.k.sems[c.priv[t]].waiters)
  }

  lemma UpShape(c: State, c': State, t: nat, p: L.Pc)
    requires Ups(c, c', t, p)
    ensures Shape(c') && (c.k.sems[c.sema].waiters != [] ==> c.k.sems[c.sema].waiters[0] < |c.pc|)
  {
    var q := c.k.sems[c.sema].waiters;
    if q != [] { assert q[0] in q; }
  }

  lemma UpView(c: State, c': State, t: nat, p: L.Pc, u: nat)
    requires Ups(c, c', t, p) && Shape(c') && u < |c.pc|
    requires c.k.sems[c.sema].waiters != [] ==> c.k.sems[c.sema].waiters[0] < |c.pc|
    ensures var s := L.Goto(L.LockUp(Abs(c)), t, p); s.pc[u] == View(c', u) && s.priv[u] == PrivValue(c', u)
  {
    var q := c.k.sems[c.sema].waiters;
    if q != [] { HeadGone(q); }
  }

  lemma HeadGone(q: seq<K.Tid>)
    requires K.NoDup(q) && q != []
    ensures q[0] in q && forall x :: x in q[1..] <==> x in q && x != q[0]
  {
    assert q == [q[0]] + q[1..];
  }

  lemma UpAbs(c: State, c': State, t: nat, p: L.Pc)
    requires Ups(c, c', t, p)
    ensures c.k.sems[c.sema].waiters != [] ==> c.k.sems[c.sema].waiters[0] < |c.pc|
    ensures Shape(c') && Abs(c') == L.Goto(L.LockUp(Abs(c)), t, p)
  {
    UpShape(c, c', t, p);
    forall u | 0 <= u < |c.pc|
      ensures var s := L.Goto(L.LockUp(Abs(c)), t, p); s.pc[u] == View(c', u) && s.priv[u] == PrivValue(c', u)
    {
      UpView(c, c', t, p, u);
    }
    AbsIs(c', L.Goto(L.LockUp(Abs(c)), t, p));
  }

  /** semaphore_init of a private semaphore, and the queue of the condition variable. */
  lemma WaitAbs(c: State, c': State, t: nat, x: L.CondId)
    requires Shape(c) && t < |c.pc| && c.pc[t] == L.In && x < |c.conds| && c'.sema == c.sema && c'.holder == c.holder
    requires c'.k.sems == c.k.sems + [K.Sema(0, [])] && c'.priv == c.priv[t := |c.k.sems|]
    requires c'.pc == c.pc[t := L.WRel(x)] && c'.conds == c.conds[x := c.conds[x] + [t]]
    ensures Shape(c')
    ensures Abs(c') == L.Goto(Abs(c).(conds := c.conds[x := c.conds[x] + [t]], priv := Abs(c).priv[t := 0]), t, L.WRel(x))
  {
    AbsIs(c', L.Goto(Abs(c).(conds := c.conds[x := c.conds[x] + [t]], priv := Abs(c).priv[t := 0]), t, L.WRel(x)));
  }

  /** semaphore_down on the private semaphore waits, or takes the signal. */
  lemma PrivWaitsAbs(c: State, c': State, t: nat)
    requires Shape(c) && t < |c.pc| && c.pc[t].WDown? && c'.holder == c.holder && c'.conds == c.conds
    requires Moves(c, c', t, c.pc[t], c.priv[t], K.Sema(0, c.k.sems[c.priv[t]].waiters + [t]))
    requires c.k.sems[c.priv[t]].value == 0
    ensures Shape(c') && Abs(c') == L.Goto(Abs(c), t, L.WSleep(c.pc[t].c))
  {
    assert c'.pc == c.pc;
    AbsIs(c', L.Goto(Abs(c), t, L.WSleep(c.pc[t].c)));
  }

  lemma PrivTakesAbs(c: State, c': State, t: nat)
    requires Shape(c) && t < |c.pc| && c.pc[t].WDown? && c'.holder == c.holder && c'.conds == c.conds
    requires c.k.sems[c.priv[t]].value == 1
    requires Moves(c, c', t, L.Acq, c.priv[t], c.k.sems[c.priv[t]].(value := 0))
    requires t !in c.k.sems[c.sema].waiters
    ensures Shape(c') && Abs(c') == L.Goto(Abs(c).(priv := Abs(c).priv[t := 0]), t, L.Acq)
  {
    AbsIs(c', L.Goto(Abs(c).(priv := Abs(c).priv[t := 0]), t, L.Acq));
  }

  /** The signal: the front `w` of the queue leaves it, and its private semaphore is upped. */
  ghost predicate Signals(c: State, c': State, x: L.CondId, w: nat) {
    && Shape(c) && x < |c.conds| && c.conds[x] != [] && c.conds[x][0] == w < |c.pc|
    && Private(c.pc[w]) && L.WaitsOn(c.pc[w], x)
    && Moves(c, c', w, c.pc[w], c.priv[w], Upped(c.k.sems[c.priv[w]]))
    && c'.holder == c.holder && c'.conds == c.conds[x := c.conds[x][1..]]
    && K.NoDup(c.k.sems[c.priv[w]].waiters) && forall u :: u in c.k.sems[c.priv[w]].waiters ==> u == w
  }

  lemma AtMostOne(q: seq<K.Tid>, w: nat)
    requires K.NoDup(q) && forall u :: u in q ==> u == w
    ensures q == [] || q == [w]
  {
    assert |q| > 1 ==> q[0] != q[1];
    forall i | 0 <= i < |q| ensures q[i] == w { assert q[i] in q; }
  }

  lemma SignalView(c: State, c': State, x: L.CondId, w: nat, u: nat)
    requires Signals(c, c', x, w) && Shape(c') && c'.pc == c.pc && u < |c.pc|
    ensures var s := L.SignalOne(Abs(c), x); s.pc[u] == View(c', u) && s.priv[u] == PrivValue(c', u)
  {
    AtMostOne(c.k.sems[c.priv[w]].waiters, w);
  }

  lemma SignalAbs(c: State, c': State, x: L.CondId, w: nat)
    requires Signals(c, c', x, w)
    ensures Shape(c') && Abs(c') == L.SignalOne(Abs(c), x)
  {
    assert c'.pc == c.pc;
    forall u | 0 <= u < |c.pc|
      ensures var s := L.SignalOne(Abs(c), x); s.pc[u] == View(c', u) && s.priv[u] == PrivValue(c', u)
    {
      SignalView(c, c', x, w, u);
    }
    AbsIs(c', L.SignalOne(Abs(c), x));
  }

  // ----- Whoever is in semaphore_down is where its code says --------------------------------------

  /** Thread `t` moves, and is not in semaphore_down now. */
  lemma DownsAway(c: State, c': State, t: nat)
    requires Shape(c) && DownsOk(c) && t < |c.pc| == |c'.pc| == |c'.priv| && c'.sema == c.sema
    requires c'.pc == c.pc[t := c'.pc[t]] && c'.priv == c.priv[t := c'.priv[t]]
    requires forall u :: u in c'.k.inDown ==> u != t && u in c.k.inDown && c'.k.inDown[u] == c.k.inDown[u]
    requires Private(c'.pc[t]) ==>
               (Private(c.pc[t]) && c'.priv[t] == c.priv[t]) || forall u :: u in c.k.inDown ==> c.k.inDown[u] != c'.priv[t]
    ensures DownsOk(c')
  {
    forall u | u in c'.k.inDown ensures DownOk(c', u, c'.k.inDown[u]) { assert DownOk(c, u, c.k.inDown[u]); }
  }

  /** Thread `t` waits in semaphore_down. */
  lemma DownsIn(c: State, c': State, t: nat, s: K.SemId)
    requires Shape(c) && DownsOk(c) && t < |c.pc| && c'.pc == c.pc && c'.priv == c.priv && c'.sema == c.sema
    requires c'.k.inDown == c.k.inDown[t := s]
    requires (c.pc[t] == L.Acq && s == c.sema) || (c.pc[t].WDown? && s == c.priv[t])
    ensures DownsOk(c')
  {
    forall u | u in c'.k.inDown ensures DownOk(c', u, c'.k.inDown[u]) {
      if u != t { assert DownOk(c, u, c.k.inDown[u]); }
    }
  }

  // ----- Each step of the code is the step of `Locks` ----------------------------------------------

  /** `c'` is in order but for the invariants of the two machines, and shows `s`. */
  ghost predicate Shows(c: State, s: L.State) { Shape(c) && Abs(c) == s && DownsOk(c) }

  /** The step is the one of `Locks`. */
  ghost predicate Refines(c: State, a: L.Action)
    requires Inv(c) && Can(c, Code(a))
  {
    L.Enabled(Abs(c), Seen(c, a)) && Shows(Step(c, Code(a)), L.Step(Abs(c), Seen(c, a)))
  }

  /** The code's own threads wait on the lock's semaphore. */
  lemma LockWaiters(c: State)
    requires Inv(c)
    ensures K.NoDup(c.k.sems[c.sema].waiters)
    ensures forall u :: u in c.k.sems[c.sema].waiters ==> u < |c.pc| && c.pc[u] == L.Acq
  {
    forall u | u in c.k.sems[c.sema].waiters ensures u < |c.pc| && c.pc[u] == L.Acq { WaiterIsDown(c, c.sema, u); }
  }

  lemma DownRefines(c: State)
    requires Inv(c) && Can(c, Code(L.Down))
    ensures Refines(c, L.Down)
  {
    var k, t, c' := c.k, c.k.cur, Step(c, Code(L.Down));
    CodeEnabled(c, L.Down);
    L.HeadsExist(Abs(c));
    DownIs(c);
    if k.sems[c.sema].value == 0 {
      DownWaitsAbs(c, c', t);
      DownsIn(c, c', t, c.sema);
    } else {
      DownTakesAbs(c, c', t);
      DownsAway(c, c', t);
    }
  }

  /** What the kernel's step does to the semaphores. */
  lemma DownIs(c: State)
    requires Inv(c) && Can(c, Code(L.Down))
    ensures var k, k', m := c.k, KernelAfter(c, L.Down), c.k.sems[c.sema];
            && k'.sems == k.sems[c.sema := if m.value == 0 then K.Sema(0, m.waiters + [k.cur]) else K.Sema(m.value - 1, m.waiters)]
            && k'.inDown == if m.value == 0 then k.inDown[k.cur := c.sema] else k.inDown - {k.cur}
  {
    var t := c.k.cur;
    CodeEnabled(c, L.Down);
    if t in c.k.inDown { assert DownOk(c, t, c.k.inDown[t]); }
    DownStepIs(c.k, c.sema);
  }

  lemma DownStepIs(k: K.State, s: K.SemId)
    requires s < |k.sems|
    ensures var k', m := K.DownStep(k, s), k.sems[s];
            && k'.sems == k.sems[s := if m.value == 0 then K.Sema(0, m.waiters + [k.cur]) else K.Sema(m.value - 1, m.waiters)]
            && k'.inDown == if m.value == 0 then k.inDown[k.cur := s] else k.inDown - {k.cur}
  {
  }

  lemma UpIs(c: State, s: K.SemId)
    requires K.Inv(c.k) && s < |c.k.sems| && K.Enabled(c.k, K.Up(s))
    ensures var k, k' := c.k, K.Step(c.k, K.Up(s)); k'.sems == k.sems[s := Upped(k.sems[s])] && k'.inDown == k.inDown
  {
    K.UpOk(c.k, s);
  }

  lemma UpRefines(c: State, a: L.Action)
    requires Inv(c) && Can(c, Code(a)) && (a.Up? || a.WaitUp?)
    ensures Refines(c, a)
  {
    var t, c' := c.k.cur, Step(c, Code(a));
    var p := if a.Up? then L.Out else L.WDown(c.pc[t].c);
    CodeEnabled(c, a);
    L.HeadsExist(Abs(c));
    UpIs(c, c.sema);
    LockWaiters(c);
    CurWaitsNot(c);
    UpAbs(c, c', t, p);
    DownsAway(c, c', t);
  }

  lemma WaitRefines(c: State, x: L.CondId)
    requires Inv(c) && Can(c, Code(L.Wait(x)))
    ensures Refines(c, L.Wait(x))
  {
    var t, c' := c.k.cur, Step(c, Code(L.Wait(x)));
    CodeEnabled(c, L.Wait(x));
    L.HeadsExist(Abs(c));
    WaitAbs(c, c', t, x);
    DownsAway(c, c', t);
  }

  /** What the kernel's step does to the semaphores. */
  lemma PrivDownIs(c: State)
    requires Inv(c) && Can(c, Code(L.WaitDown))
    ensures var k, k', s := c.k, KernelAfter(c, L.WaitDown), c.priv[c.k.cur];
            var m := k.sems[s];
            && k'.sems == k.sems[s := if m.value == 0 then K.Sema(0, m.waiters + [k.cur]) else K.Sema(m.value - 1, m.waiters)]
            && k'.inDown == if m.value == 0 then k.inDown[k.cur := s] else k.inDown - {k.cur}
  {
    var t := c.k.cur;
    CodeEnabled(c, L.WaitDown);
    if t in c.k.inDown { assert DownOk(c, t, c.k.inDown[t]); }
    DownStepIs(c.k, c.priv[t]);
  }

  lemma PrivIsZeroOrOne(c: State)
    requires Inv(c) && Can(c, Code(L.WaitDown))
    ensures c.k.sems[c.priv[c.k.cur]].value <= 1 && Abs(c).priv[c.k.cur] == c.k.sems[c.priv[c.k.cur]].value
  {
    var s, t := Abs(c), c.k.cur;
    CodeEnabled(c, L.WaitDown);
    assert L.ThreadCondOk(s, t);
    var x := s.pc[t].c;
    if t in s.conds[x] {
      var i :| 0 <= i < |s.conds[x]| && s.conds[x][i] == t;
      assert L.QueuedOk(s, x, s.conds[x][i]);
    }
  }

  lemma WaitDownWaits(c: State)
    requires Inv(c) && Can(c, Code(L.WaitDown)) && c.k.sems[c.priv[c.k.cur]].value == 0
    ensures Refines(c, L.WaitDown)
  {
    var t, c' := c.k.cur, Step(c, Code(L.WaitDown));
    CodeEnabled(c, L.WaitDown);
    PrivDownIs(c);
    PrivIsZeroOrOne(c);
    PrivWaitsAbs(c, c', t);
    DownsIn(c, c', t, c.priv[t]);
  }

  lemma WaitDownTakes(c: State)
    requires Inv(c) && Can(c, Code(L.WaitDown)) && c.k.sems[c.priv[c.k.cur]].value == 1
    ensures Refines(c, L.WaitDown)
  {
    var t, c' := c.k.cur, Step(c, Code(L.WaitDown));
    CodeEnabled(c, L.WaitDown);
    PrivDownIs(c);
    PrivIsZeroOrOne(c);
    CurWaitsNot(c);
    PrivTakesAbs(c, c', t);
    DownsAway(c, c', t);
  }

  /** The front of a condition variable's queue waits with its private semaphore. */
  lemma FrontWaits(c: State, x: L.CondId)
    requires Inv(c) && x < |c.conds| && c.conds[x] != []
    ensures var w := c.conds[x][0];
            w < |c.pc| && Private(c.pc[w]) && L.WaitsOn(c.pc[w], x)
            && K.NoDup(c.k.sems[c.priv[w]].waiters) && forall u :: u in c.k.sems[c.priv[w]].waiters ==> u == w
  {
    var s, w := Abs(c), c.conds[x][0];
    assert L.QueuedOk(s, x, s.conds[x][0]);
    assert s.pc[w] == View(c, w);
    forall u | u in c.k.sems[c.priv[w]].waiters ensures u == w { WaiterIsDown(c, c.priv[w], u); }
  }

  lemma SignalRefines(c: State, a: L.Action, x: L.CondId)
    requires Inv(c) && Can(c, Code(a)) && x < |c.conds| && c.conds[x] != []
    requires a == L.Signal(x) || (a.BroadcastStep? && c.pc[c.k.cur] == L.Bcast(x))
    ensures Refines(c, a)
  {
    var w, c' := c.conds[x][0], Step(c, Code(a));
    CodeEnabled(c, a);
    L.HeadsExist(Abs(c));
    FrontWaits(c, x);
    UpIs(c, c.priv[w]);
    SignalAbs(c, c', x, w);
    forall u | u in c'.k.inDown ensures DownOk(c', u, c'.k.inDown[u]) { assert DownOk(c, u, c.k.inDown[u]); }
  }

  lemma QuietRefines(c: State, a: L.Action)
    requires Inv(c) && Can(c, Code(a)) && KernelPart(c, a).None? && !(a.Signal? && c.conds[a.c] == [])
    ensures Refines(c, a)
  {
    var t, c' := c.k.cur, Step(c, Code(a));
    CodeEnabled(c, a);
    L.HeadsExist(Abs(c));
    CurWaitsNot(c);
    MoveAbs(c, c', t, c'.pc[t]);
    DownsAway(c, c', t);
  }

  lemma CodeRefines(c: State, a: L.Action)
    requires Inv(c) && Can(c, Code(a))
    ensures Refines(c, a)
  {
    CodeEnabled(c, a);
    if a.Down? {
      DownRefines(c);
    } else if a.Up? || a.WaitUp? {
      UpRefines(c, a);
    } else if a.Wait? {
      WaitRefines(c, a.c);
    } else if a.WaitDown? {
      PrivIsZeroOrOne(c);
      if c.k.sems[c.priv[c.k.cur]].value == 0 { WaitDownWaits(c); } else { WaitDownTakes(c); }
    } else if a.Signal? && c.conds[a.c] == [] {
      assert Step(c, Code(a)) == c;
    } else if a.Signal? {
      SignalRefines(c, a, a.c);
    } else if a.BroadcastStep? && c.conds[c.pc[c.k.cur].c] != [] {
      SignalRefines(c, a, c.pc[c.k.cur].c);
    } else {
      QuietRefines(c, a);
    }
  }

  lemma CodeStep(c: State, a: L.Action)
    requires Inv(c) && Can(c, Code(a))
    ensures var c' := Step(c, Code(a));
            Inv(c') && L.Enabled(Abs(c), Seen(c, a)) && Abs(c') == L.Step(Abs(c), Seen(c, a))
  {
    CodeRefines(c, a);
    L.StepInv(Abs(c), Seen(c, a));
    CodeEnabled(c, a);
    if KernelPart(c, a).Some? { K.StepInv(c.k, KernelPart(c, a).value); }
  }

  // ----- Runs -------------------------------------------------------------------------------------

  lemma StepInv(c: State, act: Act)
    requires Inv(c) && Can(c, act)
    ensures Inv(Step(c, act))
  {
    if act.Code? { CodeStep(c, act.a); } else { OtherStep(c, act.e); }
  }

  ghost predicate Feasible(c: State, acts: seq<Act>)
    requires Inv(c)
    decreases |acts|
  {
    acts == [] || (Can(c, acts[0]) && (StepInv(c, acts[0]); Feasible(Step(c, acts[0]), acts[1..])))
  }

  ghost function After(c: State, acts: seq<Act>): (z: State)
    requires Inv(c) && Feasible(c, acts)
    ensures Inv(z)
    decreases |acts|
  {
    if acts == [] then c
    else
      StepInv(c, acts[0]);
      After(Step(c, acts[0]), acts[1..])
  }

  /** The steps of the code in a run, with the threads that take them. */
  ghost function SeenOf(c: State, acts: seq<Act>): seq<L.Event>
    requires Inv(c) && Feasible(c, acts)
    decreases |acts|
  {
    if acts == [] then []
    else
      StepInv(c, acts[0]);
      (if acts[0].Code? then [Seen(c, acts[0].a)] else []) + SeenOf(Step(c, acts[0]), acts[1..])
  }

  /** Every run of the kernel with these threads is a run of the machine of `Locks`. */
  lemma {:induction false} RunRefines(c: State, acts: seq<Act>)
    requires Inv(c) && Feasible(c, acts)
    ensures L.Feasible(Abs(c), SeenOf(c, acts)) && L.After(Abs(c), SeenOf(c, acts)) == Abs(After(c, acts))
    decreases |acts|
  {
    if acts == [] {
    } else {
      var v := Step(c, acts[0]);
      StepInv(c, acts[0]);
      RunRefines(v, acts[1..]);
      if acts[0].Code? {
        CodeStep(c, acts[0].a);
        L.RunCons(Abs(c), Seen(c, acts[0].a), Abs(v), SeenOf(v, acts[1..]));
      } else {
        OtherStep(c, acts[0].e);
        assert [] + SeenOf(v, acts[1..]) == SeenOf(v, acts[1..]);
      }
    }
  }

  /** The kernel after boot, with a lock and its condition variables just initialized. */
  ghost function Begin(idle: nat, initial: nat, threads: nat, conds: nat): (c: State)
    requires idle != initial
    ensures Inv(c) && Abs(c) == L.Init(threads, conds)
  {
    var c := State(K.Step(K.Boot(idle, initial), K.InitSema(1)), 0, seq(threads, _ => L.Out), seq(threads, _ => 0), None, seq(conds, _ => []));
    BeginShows(c, idle, initial, threads, conds);
    c
  }

  lemma BeginShows(c: State, idle: nat, initial: nat, threads: nat, conds: nat)
    requires idle != initial
    requires c == State(K.Step(K.Boot(idle, initial), K.InitSema(1)), 0, seq(threads, _ => L.Out), seq(threads, _ => 0),
                        None, seq(conds, _ => []))
    ensures Inv(c) && Abs(c) == L.Init(threads, conds)
  {
    K.StepInv(K.Boot(idle, initial), K.InitSema(1));
    AbsIs(c, L.Init(threads, conds));
  }

  /** From the start on, in every run of the kernel: at most one thread is between the down that ends
      its lock_acquire and the up that ends its lock_release, and the lock's semaphore is then 0. */
  lemma LockIsExclusive(idle: nat, initial: nat, threads: nat, conds: nat, acts: seq<Act>, t: nat, u: nat)
    requires idle != initial && t < threads && u < threads
    requires Feasible(Begin(idle, initial, threads, conds), acts)
    ensures var z := After(Begin(idle, initial, threads, conds), acts);
            && |z.pc| == threads && (L.HasUnit(z.pc[t]) ==> z.sema < |z.k.sems| && z.k.sems[z.sema].value == 0)
            && (L.HasUnit(z.pc[t]) && L.HasUnit(z.pc[u]) ==> t == u)
  {
    var c := Begin(idle, initial, threads, conds);
    var z := After(c, acts);
    RunRefines(c, acts);
    L.RunInv(L.Init(threads, conds), SeenOf(c, acts));
    L.MutualExclusion(threads, conds, SeenOf(c, acts), t, u);
    UnitShows(z, t);
    UnitShows(z, u);
  }

  lemma UnitShows(c: State, t: nat)
    requires Shape(c) && t < |c.pc|
    ensures L.HasUnit(c.pc[t]) ==> L.HasUnit(Abs(c).pc[t])
    ensures Abs(c).value == c.k.sems[c.sema].value
  {
  }
}
