/** The junction reservation protocol of Assignment3/cartman.c. Each mutex-protected section is
    one step; the broadcast, which happens after the unlock, is a step of its own. Of the
    simulator's rules (cartman.h) these are part of the state, and breaking one raises `error`, as
    the simulator would exit: no junction is reserved twice, a cart releases only what it has
    reserved, and it crosses once, with both ends of its track reserved. */
module Junctions {
  import opened Wrappers

  datatype Cart = Cart(track: nat, junction: nat)

  /** Where a cart's thread is. `Unlocked` is after the release section, before the broadcast. */
  datatype Pc = Arrived | Sleeping | Woken | Crossing | Crossed | Unlocked | Done

  datatype State = State(
    n: nat, carts: seq<Cart>, pc: seq<Pc>,
    locks: seq<int>,
    owner: seq<Option<nat>>,   // the simulator's reservations
    crossings: seq<nat>,       // calls of cross() per cart
    error: bool)

  datatype Event =
    | Try(c: nat) | Cross(c: nat) | Release(c: nat) | Broadcast(c: nat) | Leave(c: nat)
    | Spurious(c: nat)

  /** The junctions `cart_start` passes to reserve2 and release2; none for a cart whose
      junction is not an end of its track. */
  function Pair(n: nat, cart: Cart): Option<(nat, nat)> {
    var t, j := cart.track, cart.junction;
    if t == j then
      if j + 1 == n then Some((j, 0)) else Some((j, j + 1))
    else if (j >= 1 && j - 1 == t) || (j == 0 && t == n - 1) then
      if j == 0 then Some((j, n - 1)) else Some((j, j - 1))
    else None
  }

  predicate OnRing(n: nat, cart: Cart) { cart.track < n && cart.junction < n }

  /** The far end of track `t` on the ring. */
  function FarEnd(n: nat, t: nat): nat { if t + 1 == n then 0 else t + 1 }

  lemma FarEndIsModular(n: nat, t: nat)
    requires t < n
    ensures FarEnd(n, t) == (t + 1) % n
  {
  }

  /** From either end of track `t`, the pair is the two ends of the track. */
  lemma PairIsTrackEnds(n: nat, cart: Cart)
    requires n >= 2 && OnRing(n, cart)
    ensures Pair(n, cart).Some? <==> cart.junction == cart.track || cart.junction == (cart.track + 1) % n
    ensures Pair(n, cart).Some? ==>
              var (a, b) := Pair(n, cart).value;
              && a != b && {a, b} == {cart.track, (cart.track + 1) % n} && a == cart.junction
  {
    FarEndIsModular(n, cart.track);
  }

  // ----- The simulator -------------------------------------------------------

  function SimReserve(s: State, c: nat, j: nat): State
    requires j < |s.owner|
  {
    if s.owner[j].Some? then s.(error := true) else s.(owner := s.owner[j := Some(c)])
  }

  function SimRelease(s: State, c: nat, j: nat): State
    requires j < |s.owner|
  {
    if s.owner[j] != Some(c) then s.(error := true) else s.(owner := s.owner[j := None])
  }

  /** Both ends of the track must be reserved by the cart, which must not have crossed. */
  function SimCross(s: State, c: nat): State
    requires Shape(s) && c < |s.carts|
  {
    var a, b := s.carts[c].track, FarEnd(s.n, s.carts[c].track);
    if s.owner[a] != Some(c) || s.owner[b] != Some(c) || s.crossings[c] != 0 then s.(error := true)
    else s.(crossings := s.crossings[c := s.crossings[c] + 1])
  }

  // ----- Steps -----------------------------------------------------------------

  ghost predicate Shape(s: State) {
    && s.n >= 1 && |s.pc| == |s.carts| == |s.crossings|
    && |s.locks| == |s.owner| == s.n
    && (forall c :: 0 <= c < |s.carts| ==> OnRing(s.n, s.carts[c]))
  }

  function Init(n: nat, carts: seq<Cart>): (s: State)
    ensures Config(n, carts) ==> Shape(s)
  {
    State(n, carts, seq(|carts|, i => Arrived), seq(n, i => 0), seq(n, i => None), seq(|carts|, i => 0), false)
  }

  ghost predicate Enabled(s: State, e: Event) {
    && e.c < |s.pc| == |s.carts|
    && match e
       case Try(c) => s.pc[c] in {Arrived, Woken} && Pair(s.n, s.carts[c]).Some?
       case Cross(c) => s.pc[c] == Crossing
       case Release(c) => s.pc[c] == Crossed && Pair(s.n, s.carts[c]).Some?
       case Broadcast(c) => s.pc[c] == Unlocked
       case Leave(c) => s.pc[c] == Arrived && Pair(s.n, s.carts[c]).None?
       case Spurious(c) => s.pc[c] == Sleeping
  }

  function WakeAll(pc: seq<Pc>): (r: seq<Pc>)
    ensures |r| == |pc|
  {
    seq(|pc|, i requires 0 <= i < |pc| => if pc[i] == Sleeping then Woken else pc[i])
  }

  /** The mutex section of reserve2: wait while either lock is taken, else take both. */
  function TryStep(s: State, c: nat, a: nat, b: nat): State
    requires Shape(s) && c < |s.pc| && a < s.n && b < s.n
  {
    if s.locks[a] != 0 || s.locks[b] != 0 then s.(pc := s.pc[c := Sleeping])
    else
      SimReserve(SimReserve(s, c, a), c, b).(locks := s.locks[a := 1][b := 1], pc := s.pc[c := Crossing])
  }

  /** The mutex section of release2. */
  function ReleaseStep(s: State, c: nat, a: nat, b: nat): State
    requires Shape(s) && c < |s.pc| && a < s.n && b < s.n
  {
    SimRelease(SimRelease(s, c, a), c, b).(locks := s.locks[a := 0][b := 0], pc := s.pc[c := Unlocked])
  }

  function Step(s: State, e: Event): State
    requires Shape(s) && Enabled(s, e)
  {
    match e
    case Try(c) => var (a, b) := Pair(s.n, s.carts[c]).value; TryStep(s, c, a, b)
    case Cross(c) => SimCross(s, c).(pc := s.pc[c := Crossed])
    case Release(c) => var (a, b) := Pair(s.n, s.carts[c]).value; ReleaseStep(s, c, a, b)
    case Broadcast(c) => s.(pc := WakeAll(s.pc)[c := Done])
    case Leave(c) => s.(pc := s.pc[c := Done])
    case Spurious(c) => s.(pc := s.pc[c := Woken])
  }

  lemma StepShape(s: State, e: Event)
    requires Shape(s) && Enabled(s, e)
    ensures Shape(Step(s, e)) && Step(s, e).n == s.n && Step(s, e).carts == s.carts
  {
  }

  /** A run: each event is enabled where it occurs. */
  ghost predicate Feasible(s: State, es: seq<Event>)
    requires Shape(s)
    decreases |es|
  {
    es == [] || (Enabled(s, es[0]) && (StepShape(s, es[0]); Feasible(Step(s, es[0]), es[1..])))
  }

  ghost function After(s: State, es: seq<Event>): State
    requires Shape(s) && Feasible(s, es)
    decreases |es|
  {
    if es == [] then s
    else
      StepShape(s, es[0]);
      After(Step(s, es[0]), es[1..])
  }

  // ----- Safety -----------------------------------------------------------------

  predicate Holding(pc: Pc) { pc == Crossing || pc == Crossed }

  /** `j` is one of the two junctions of cart `c`. */
  ghost predicate Needs(s: State, c: nat, j: nat)
    requires c < |s.carts|
  {
    var p := Pair(s.n, s.carts[c]);
    p.Some? && (j == p.value.0 || j == p.value.1)
  }

  ghost predicate LocksMatch(s: State)
    requires Shape(s)
  {
    forall j :: 0 <= j < s.n ==> s.locks[j] == if s.owner[j].Some? then 1 else 0
  }

  /** A junction is reserved by a cart exactly when that cart is crossing and needs it. */
  ghost predicate OwnersHold(s: State)
    requires Shape(s)
  {
    forall c, j :: 0 <= c < |s.carts| && 0 <= j < s.n ==>
      (s.owner[j] == Some(c) <==> Holding(s.pc[c]) && Needs(s, c, j))
  }

  ghost predicate OwnersExist(s: State)
    requires Shape(s)
  {
    forall j :: 0 <= j < s.n && s.owner[j].Some? ==> s.owner[j].value < |s.carts|
  }

  /** Each cart has crossed once when it is past its crossing, and never before. */
  ghost predicate CrossedOnce(s: State)
    requires Shape(s)
  {
    forall c :: 0 <= c < |s.carts| ==>
      && (Pair(s.n, s.carts[c]).None? ==> s.pc[c] in {Arrived, Done})
      && s.crossings[c] ==
         if s.pc[c] in {Crossed, Unlocked, Done} && Pair(s.n, s.carts[c]).Some? then 1 else 0
  }

  ghost predicate Free(s: State, c: nat)
    requires Shape(s) && c < |s.carts|
  {
    forall j :: 0 <= j < s.n && Needs(s, c, j) ==> s.locks[j] == 0
  }

  /** A sleeping cart whose two junctions are free implies a broadcast still to come. */
  ghost predicate NoLostWakeup(s: State)
    requires Shape(s)
  {
    forall c :: 0 <= c < |s.carts| && s.pc[c] == Sleeping && Free(s, c) ==>
      exists r :: 0 <= r < |s.carts| && s.pc[r] == Unlocked
  }

  ghost predicate Inv(s: State) {
    && Shape(s) && s.n >= 2 && !s.error
    && LocksMatch(s) && OwnersHold(s) && OwnersExist(s) && CrossedOnce(s) && NoLostWakeup(s)
  }

  lemma InitInv(n: nat, carts: seq<Cart>)
    requires n >= 2 && forall c :: 0 <= c < |carts| ==> OnRing(n, carts[c])
    ensures Inv(Init(n, carts))
  {
  }

  lemma PairFacts(s: State, c: nat)
    requires Shape(s) && s.n >= 2 && c < |s.carts| && Pair(s.n, s.carts[c]).Some?
    ensures var (a, b) := Pair(s.n, s.carts[c]).value;
            var t := s.carts[c].track;
            && a < s.n && b < s.n && a != b
            && ((a == t && b == FarEnd(s.n, t)) || (b == t && a == FarEnd(s.n, t)))
  {
  }

  lemma NeedsBoth(s: State, c: nat, a: nat, b: nat)
    requires c < |s.carts| && Pair(s.n, s.carts[c]) == Some((a, b))
    ensures forall j :: Needs(s, c, j) <==> j == a || j == b
  {
  }

  lemma ParkInv(s: State, c: nat, a: nat, b: nat)
    requires Inv(s) && Enabled(s, Try(c)) && Pair(s.n, s.carts[c]) == Some((a, b)) && a < s.n && b < s.n
    requires s.locks[a] != 0 || s.locks[b] != 0
    ensures Inv(TryStep(s, c, a, b))
  {
    var s' := TryStep(s, c, a, b);
    NeedsBoth(s', c, a, b);
    assert !Free(s', c);
    WakeupFrame(s, s', c);
    assert forall x, j :: 0 <= x < |s.carts| ==> Needs(s', x, j) == Needs(s, x, j);
  }

  lemma TakeInv(s: State, c: nat, a: nat, b: nat)
    requires Inv(s) && Enabled(s, Try(c)) && Pair(s.n, s.carts[c]) == Some((a, b))
    requires a < s.n && b < s.n && a != b
    requires s.locks[a] == 0 && s.locks[b] == 0
    ensures Inv(TryStep(s, c, a, b))
  {
    var s' := TryStep(s, c, a, b);
    assert s.owner[a].None? && s.owner[b].None?;
    assert s'.owner == s.owner[a := Some(c)][b := Some(c)] && !s'.error;
    WakeupFrame(s, s', c);
    assert OwnersHold(s') by { TakeOwners(s, s', c, a, b); }
  }

  lemma TakeOwners(s: State, s': State, c: nat, a: nat, b: nat)
    requires Shape(s) && Shape(s') && OwnersHold(s) && s'.n == s.n && s'.carts == s.carts
    requires c < |s.carts| && Pair(s.n, s.carts[c]) == Some((a, b)) && a < s.n && b < s.n
    requires s.owner[a].None? && s.owner[b].None? && !Holding(s.pc[c])
    requires s'.owner == s.owner[a := Some(c)][b := Some(c)] && s'.pc == s.pc[c := Crossing]
    ensures OwnersHold(s')
  {
    NeedsBoth(s, c, a, b);
    forall x, j | 0 <= x < |s.carts| && 0 <= j < s.n
      ensures s'.owner[j] == Some(x) <==> Holding(s'.pc[x]) && Needs(s', x, j)
    {
      assert Needs(s', x, j) == Needs(s, x, j);
      assert s.owner[j] == Some(x) <==> Holding(s.pc[x]) && Needs(s, x, j);
    }
  }

  lemma TryInv(s: State, c: nat)
    requires Inv(s) && Enabled(s, Try(c))
    ensures Inv(Step(s, Try(c)))
  {
    PairFacts(s, c);
    var (a, b) := Pair(s.n, s.carts[c]).value;
    if s.locks[a] != 0 || s.locks[b] != 0 { ParkInv(s, c, a, b); } else { TakeInv(s, c, a, b); }
  }

  /** Reservations stay right when nobody starts or stops holding. */
  lemma OwnersFollow(s: State, s': State)
    requires Shape(s) && Shape(s') && LocksMatch(s) && OwnersHold(s) && OwnersExist(s)
    requires s'.n == s.n && s'.carts == s.carts && s'.owner == s.owner && s'.locks == s.locks
    requires forall x :: 0 <= x < |s.carts| ==> Holding(s'.pc[x]) == Holding(s.pc[x])
    ensures LocksMatch(s') && OwnersHold(s') && OwnersExist(s')
  {
    forall x, j | 0 <= x < |s.carts| && 0 <= j < s.n
      ensures s'.owner[j] == Some(x) <==> Holding(s'.pc[x]) && Needs(s', x, j)
    {
      assert Needs(s', x, j) == Needs(s, x, j);
      assert s.owner[j] == Some(x) <==> Holding(s.pc[x]) && Needs(s, x, j);
    }
  }

  /** A cart that is crossing has reserved both junctions, so the simulator lets it cross. */
  lemma CrossAllowed(s: State, c: nat)
    requires Inv(s) && Enabled(s, Cross(c))
    ensures var s' := Step(s, Cross(c));
            s' == s.(pc := s.pc[c := Crossed], crossings := s.crossings[c := s.crossings[c] + 1])
  {
    PairFacts(s, c);
    var (a, b) := Pair(s.n, s.carts[c]).value;
    NeedsBoth(s, c, a, b);
    assert s.owner[a] == Some(c) && s.owner[b] == Some(c);
  }

  lemma CrossInv(s: State, c: nat)
    requires Inv(s) && Enabled(s, Cross(c))
    ensures Inv(Step(s, Cross(c)))
  {
    var s' := Step(s, Cross(c));
    CrossAllowed(s, c);
    OwnersFollow(s, s');
    WakeupFrame(s, s', c);
  }

  lemma ReleaseInv(s: State, c: nat)
    requires Inv(s) && Enabled(s, Release(c))
    ensures Inv(Step(s, Release(c)))
  {
    PairFacts(s, c);
    var (a, b) := Pair(s.n, s.carts[c]).value;
    NeedsBoth(s, c, a, b);
    var s' := Step(s, Release(c));
    assert s.owner[a] == Some(c) && s.owner[b] == Some(c);
    assert s'.owner == s.owner[a := None][b := None] && !s'.error;
    assert NoLostWakeup(s') by { assert s'.pc[c] == Unlocked; }
    assert OwnersHold(s') by { ReleaseOwners(s, s', c, a, b); }
  }

  lemma ReleaseOwners(s: State, s': State, c: nat, a: nat, b: nat)
    requires Shape(s) && Shape(s') && OwnersHold(s) && s'.n == s.n && s'.carts == s.carts
    requires c < |s.carts| && Pair(s.n, s.carts[c]) == Some((a, b)) && a < s.n && b < s.n
    requires s.owner[a] == Some(c) && s.owner[b] == Some(c)
    requires s'.owner == s.owner[a := None][b := None] && s'.pc == s.pc[c := Unlocked]
    ensures OwnersHold(s')
  {
    NeedsBoth(s, c, a, b);
    forall x, j | 0 <= x < |s.carts| && 0 <= j < s.n
      ensures s'.owner[j] == Some(x) <==> Holding(s'.pc[x]) && Needs(s', x, j)
    {
      assert Needs(s', x, j) == Needs(s, x, j);
      assert s.owner[j] == Some(x) <==> Holding(s.pc[x]) && Needs(s, x, j);
      if j == a || j == b { assert s.owner[j] == Some(x) ==> x == c; }
    }
  }

  /** `s'` is `s` but for program counters that hold nothing before or after. */
  ghost predicate PcOnly(s: State, s': State) {
    && Shape(s) && s' == s.(pc := s'.pc) && |s'.pc| == |s.pc|
    && (forall x :: 0 <= x < |s.pc| ==>
          Holding(s'.pc[x]) == Holding(s.pc[x])
          && (s'.pc[x] == s.pc[x] || (s.pc[x] == Sleeping && s'.pc[x] == Woken)
              || (s.pc[x] == Unlocked && s'.pc[x] == Done)
              || (s.pc[x] == Arrived && s'.pc[x] == Done && Pair(s.n, s.carts[x]).None?)))
  }

  lemma PcOnlyCrossings(s: State, s': State)
    requires PcOnly(s, s') && CrossedOnce(s)
    ensures Shape(s') && CrossedOnce(s')
  {
  }

  /** The broadcast, leaving without a crossing, and a spurious wakeup. */
  lemma PcOnlyInv(s: State, e: Event)
    requires Inv(s) && Enabled(s, e) && (e.Broadcast? || e.Leave? || e.Spurious?)
    ensures Inv(Step(s, e))
  {
    var s' := Step(s, e);
    OwnersFollow(s, s');
    PcOnlyCrossings(s, s');
    if !e.Broadcast? { WakeupFrame(s, s', e.c); }
  }

  lemma StepInv(s: State, e: Event)
    requires Inv(s) && Enabled(s, e)
    ensures Inv(Step(s, e))
  {
    match e
    case Try(c) => TryInv(s, c);
    case Cross(c) => CrossInv(s, c);
    case Release(c) => ReleaseInv(s, c);
    case Broadcast(c) => PcOnlyInv(s, e);
    case Leave(c) => PcOnlyInv(s, e);
    case Spurious(c) => PcOnlyInv(s, e);
  }

  /** Only the program counter of `c` and locks being taken: no wakeup is lost. */
  lemma WakeupFrame(s: State, s': State, c: nat)
    requires Shape(s) && Shape(s') && NoLostWakeup(s) && s'.n == s.n && s'.carts == s.carts
    requires c < |s.carts| && s'.pc == s.pc[c := s'.pc[c]] && s.pc[c] != Unlocked
    requires s'.pc[c] == Sleeping ==> !Free(s', c)
    requires forall j :: 0 <= j < s.n && s'.locks[j] == 0 ==> s.locks[j] == 0
    ensures NoLostWakeup(s')
  {
    forall x | 0 <= x < |s'.carts| && s'.pc[x] == Sleeping && Free(s', x)
      ensures exists r :: 0 <= r < |s'.carts| && s'.pc[r] == Unlocked
    {
      assert Free(s, x);
      var r :| 0 <= r < |s.carts| && s.pc[r] == Unlocked;
      assert s'.pc[r] == Unlocked;
    }
  }

  lemma {:induction false} RunInv(s: State, es: seq<Event>)
    requires Inv(s) && Feasible(s, es)
    ensures Inv(After(s, es))
    decreases |es|
  {
    if es == [] {
    } else {
      StepInv(s, es[0]);
      RunInv(Step(s, es[0]), es[1..]);
    }
  }

  ghost predicate Config(n: nat, carts: seq<Cart>) {
    n >= 1 && forall c :: 0 <= c < |carts| ==> OnRing(n, carts[c])
  }

  /** The simulator has not exited, a lock is 1 exactly when its junction is reserved, and a cart
      that is crossing owns exactly the two ends of its track. */
  ghost predicate Safe(s: State) {
    && Shape(s) && !s.error
    && (forall j :: 0 <= j < s.n ==> (s.locks[j] == 1 <==> s.owner[j].Some?) && s.locks[j] in {0, 1})
    && (forall c, j :: 0 <= c < |s.carts| && 0 <= j < s.n && s.pc[c] == Crossing ==>
          (s.owner[j] == Some(c) <==> j == s.carts[c].track || j == FarEnd(s.n, s.carts[c].track)))
  }

  lemma InvIsSafe(s: State)
    requires Inv(s)
    ensures Safe(s)
  {
    forall c, j | 0 <= c < |s.carts| && 0 <= j < s.n && s.pc[c] == Crossing
      ensures s.owner[j] == Some(c) <==> j == s.carts[c].track || j == FarEnd(s.n, s.carts[c].track)
    {
      CrossingOwns(s, c, j);
    }
  }

  lemma CrossingOwns(s: State, c: nat, j: nat)
    requires Shape(s) && s.n >= 2 && OwnersHold(s) && CrossedOnce(s)
    requires c < |s.carts| && j < s.n && s.pc[c] == Crossing
    ensures s.owner[j] == Some(c) <==> j == s.carts[c].track || j == FarEnd(s.n, s.carts[c].track)
  {
    PairFacts(s, c);
    var (a, b) := Pair(s.n, s.carts[c]).value;
    NeedsBoth(s, c, a, b);
  }

  /** Junction safety in every interleaving with at least two tracks. */
  lemma JunctionSafety(n: nat, carts: seq<Cart>, es: seq<Event>)
    requires n >= 2 && Config(n, carts) && Feasible(Init(n, carts), es)
    ensures var s := After(Init(n, carts), es); Safe(s) && s.carts == carts && s.n == n
  {
    InitInv(n, carts);
    RunInv(Init(n, carts), es);
    RunKeepsConfig(Init(n, carts), es);
    InvIsSafe(After(Init(n, carts), es));
  }

  lemma {:induction false} RunKeepsConfig(s: State, es: seq<Event>)
    requires Shape(s) && Feasible(s, es)
    ensures After(s, es).carts == s.carts && After(s, es).n == s.n && Shape(After(s, es))
    decreases |es|
  {
    if es == [] {
    } else {
      StepShape(s, es[0]);
      RunKeepsConfig(Step(s, es[0]), es[1..]);
    }
  }

  /** With a single track both ends are the same junction, which is then reserved twice. */
  lemma SingleTrackFails()
    ensures Config(1, [Cart(0, 0)]) && Feasible(Init(1, [Cart(0, 0)]), [Try(0)])
    ensures After(Init(1, [Cart(0, 0)]), [Try(0)]).error
  {
    var s := Init(1, [Cart(0, 0)]);
    assert Pair(1, Cart(0, 0)) == Some((0, 0));
    var s' := Step(s, Try(0));
    assert [Try(0)][1..] == [] && Feasible(s', []);
  }

  /** So the protocol is safe for every set of carts and every run exactly with two or more tracks. */
  lemma SafeIffTwoTracks(n: nat)
    requires n >= 1
    ensures n >= 2 <==>
            forall carts, es :: Config(n, carts) && Feasible(Init(n, carts), es) ==> !After(Init(n, carts), es).error
  {
    if n >= 2 {
      forall carts, es | Config(n, carts) && Feasible(Init(n, carts), es)
        ensures !After(Init(n, carts), es).error
      {
        JunctionSafety(n, carts, es);
      }
    } else {
      SingleTrackFails();
    }
  }

  // ----- Progress --------------------------------------------------------------------

  ghost predicate AllDone(s: State) {
    forall c :: 0 <= c < |s.pc| ==> s.pc[c] == Done
  }

  /** No reachable state is stuck: while some cart is not done, a step other than a spurious
      wakeup is possible. */
  lemma NotStuck(s: State) returns (e: Event)
    requires Inv(s) && !AllDone(s)
    ensures Enabled(s, e) && !e.Spurious?
  {
    var c :| 0 <= c < |s.pc| && s.pc[c] != Done;
    if s.pc[c] != Sleeping {
      e := EventOf(s, c);
    } else if r :| 0 <= r < |s.pc| && s.pc[r] == Unlocked {
      e := Broadcast(r);
    } else {
      var o := Blocker(s, c);
      e := EventOf(s, o);
    }
  }

  /** What a sleeping cart waits for when no broadcast is to come: a cart that holds a junction. */
  lemma Blocker(s: State, c: nat) returns (o: nat)
    requires Inv(s) && c < |s.pc| && s.pc[c] == Sleeping && forall r :: 0 <= r < |s.pc| ==> s.pc[r] != Unlocked
    ensures o < |s.pc| && Holding(s.pc[o]) && Pair(s.n, s.carts[o]).Some?
  {
    assert !Free(s, c);
    var j :| 0 <= j < s.n && Needs(s, c, j) && s.locks[j] != 0;
    o := s.owner[j].value;
  }

  function EventOf(s: State, c: nat): (e: Event)
    requires c < |s.pc| == |s.carts| && s.pc[c] !in {Sleeping, Done}
  {
    match s.pc[c]
    case Arrived => if Pair(s.n, s.carts[c]).Some? then Try(c) else Leave(c)
    case Woken => Try(c)
    case Crossing => Cross(c)
    case Crossed => Release(c)
    case _ => Broadcast(c)
  }

  // ----- Termination -------------------------------------------------------------------

  /** Steps a cart still has before it, apart from the wakeups it may cause or receive. */
  function Rank(p: Pc): nat {
    match p
    case Arrived => 5
    case Woken => 5
    case Sleeping => 4
    case Crossing => 3
    case Crossed => 2
    case Unlocked => 1
    case Done => 0
  }

  /** A cart that is not done still owes a broadcast, which can wake up to `m` sleepers. */
  function Weight(p: Pc, m: nat): nat { Rank(p) + if p == Done then 0 else m }

  function Total(pc: seq<Pc>, m: nat): nat {
    if pc == [] then 0 else Weight(pc[0], m) + Total(pc[1..], m)
  }

  lemma {:induction false} TotalUpdate(pc: seq<Pc>, c: nat, p: Pc, m: nat)
    requires c < |pc|
    ensures Total(pc[c := p], m) == Total(pc, m) - Weight(pc[c], m) + Weight(p, m)
  {
    if c == 0 {
      assert pc[c := p][1..] == pc[1..];
    } else {
      assert pc[c := p][1..] == pc[1..][c - 1 := p];
      TotalUpdate(pc[1..], c - 1, p, m);
    }
  }

  lemma {:induction false} TotalWake(pc: seq<Pc>, m: nat)
    ensures Total(WakeAll(pc), m) <= Total(pc, m) + |pc|
  {
    if pc == [] {
    } else {
      assert WakeAll(pc)[1..] == WakeAll(pc[1..]);
      TotalWake(pc[1..], m);
    }
  }

  lemma {:induction false} TotalOfArrived(pc: seq<Pc>, m: nat)
    requires forall i :: 0 <= i < |pc| ==> pc[i] == Arrived
    ensures Total(pc, m) == |pc| * (5 + m)
  {
    if pc == [] {
    } else {
      TotalOfArrived(pc[1..], m);
    }
  }

  /** Every step but a spurious wakeup uses up the total; a spurious wakeup adds one. */
  lemma StepProgress(s: State, e: Event)
    requires Shape(s) && Enabled(s, e)
    ensures var m := |s.pc|; Total(Step(s, e).pc, m) <= Total(s.pc, m) + if e.Spurious? then 1 else -1
  {
    var m := |s.pc|;
    var s' := Step(s, e);
    if e.Broadcast? {
      TotalWake(s.pc, m);
      TotalUpdate(WakeAll(s.pc), e.c, Done, m);
    } else {
      TotalUpdate(s.pc, e.c, s'.pc[e.c], m);
      assert s'.pc == s.pc[e.c := s'.pc[e.c]];
    }
  }

  function SpuriousCount(es: seq<Event>): nat {
    if es == [] then 0 else (if es[0].Spurious? then 1 else 0) + SpuriousCount(es[1..])
  }

  lemma {:induction false} RunLength(s: State, es: seq<Event>)
    requires Shape(s) && Feasible(s, es)
    ensures |es| <= Total(s.pc, |s.pc|) + 2 * SpuriousCount(es)
    decreases |es|
  {
    if es == [] {
    } else {
      var s1 := Step(s, es[0]);
      StepShape(s, es[0]);
      StepProgress(s, es[0]);
      RunLength(s1, es[1..]);
      assert |s1.pc| == |s.pc|;
    }
  }

  /** With `m` carts every run has at most `m * (m + 5)` steps, plus two for each spurious wakeup. */
  lemma BoundedRuns(n: nat, carts: seq<Cart>, es: seq<Event>)
    requires n >= 2 && Config(n, carts) && Feasible(Init(n, carts), es)
    ensures |es| <= |carts| * (5 + |carts|) + 2 * SpuriousCount(es)
  {
    RunLength(Init(n, carts), es);
    TotalOfArrived(Init(n, carts).pc, |carts|);
  }

  /** A run that cannot be continued, spurious wakeups aside, has every cart done, and each
      cart that stands at an end of its track has crossed exactly once. */
  lemma RunsEndCrossed(n: nat, carts: seq<Cart>, es: seq<Event>)
    requires n >= 2 && Config(n, carts) && Feasible(Init(n, carts), es)
    requires forall e :: Enabled(After(Init(n, carts), es), e) ==> e.Spurious?
    ensures var s := After(Init(n, carts), es);
            AllDone(s) && |s.crossings| == |carts| &&
            forall c :: 0 <= c < |carts| ==> s.crossings[c] == if Pair(n, carts[c]).Some? then 1 else 0
  {
    InitInv(n, carts);
    RunInv(Init(n, carts), es);
    RunKeepsConfig(Init(n, carts), es);
    var s := After(Init(n, carts), es);
    if !AllDone(s) { var e := NotStuck(s); }
  }

  // ----- The two mutex sections over the shared array ------------------------------------

  /** `locks` and the two critical sections of reserve2 and release2; one loop round of
      reserve2 is one call of `ReserveSection`. */
  class LockTable {
    const locks: array<int>

    constructor (tracks: nat)
      ensures locks[..] == Init(tracks, []).locks && fresh(locks)
    {
      locks := new int[tracks](i => 0);
    }

    method ReserveSection(a: nat, b: nat) returns (taken: bool)
      requires a < locks.Length && b < locks.Length
      modifies locks
      ensures taken == (old(locks[a]) == 0 && old(locks[b]) == 0)
      ensures locks[..] == if taken then old(locks[..])[a := 1][b := 1] else old(locks[..])
    {
      if locks[a] != 0 || locks[b] != 0 {
        return false;
      }
      locks[a] := 1;
      locks[b] := 1;
      return true;
    }

    method ReleaseSection(a: nat, b: nat)
      requires a < locks.Length && b < locks.Length
      modifies locks
      ensures locks[..] == old(locks[..])[a := 0][b := 0]
    {
      locks[a] := 0;
      locks[b] := 0;
    }

    /** A `Try` step of the machine is this section: it parks the cart or takes both locks. */
    method TrySection(ghost s: State, ghost c: nat, a: nat, b: nat) returns (taken: bool)
      requires Shape(s) && c < |s.pc| && a < s.n && b < s.n && locks[..] == s.locks
      modifies locks
      ensures locks[..] == TryStep(s, c, a, b).locks
      ensures taken <==> TryStep(s, c, a, b).pc == s.pc[c := Crossing]
    {
      taken := ReserveSection(a, b);
      assert s.pc[c := Crossing][c] != s.pc[c := Sleeping][c];
    }
  }
}
