/** What each replacement policy of Assignment5/pager.c must do, as functions of the
    whole reference history, and the laws those functions obey. */
module PagePolicies {
  datatype Algorithm = Fifo | Lru | Lfu | SecondChance | CircularQueue

  /** One request: the page asked for, and whether the simulator had to load it. */
  datatype Ref = Ref(page: nat, fault: bool)

  function Elements<T>(s: seq<T>): set<T> { set x | x in s }

  ghost predicate NoDup<T>(s: seq<T>) {
    forall i, j :: 0 <= i < j < |s| ==> s[i] != s[j]
  }

  /** The last `k` elements, or everything when there are fewer. */
  function Newest<T>(s: seq<T>, k: nat): (r: seq<T>)
    ensures |r| == if |s| <= k then |s| else k
  {
    if |s| <= k then s else s[|s| - k..]
  }

  /** `q` without any occurrence of `p`. */
  function Drop(q: seq<nat>, p: nat): seq<nat> {
    if q == [] then []
    else Drop(q[..|q| - 1], p) + (if q[|q| - 1] == p then [] else [q[|q| - 1]])
  }

  lemma {:induction false} DropConcat(a: seq<nat>, b: seq<nat>, p: nat)
    ensures Drop(a + b, p) == Drop(a, p) + Drop(b, p)
  {
    if b == [] {
      assert a + b == a;
    } else {
      assert (a + b)[..|a + b| - 1] == a + b[..|b| - 1];
      DropConcat(a, b[..|b| - 1], p);
    }
  }

  lemma {:induction false} DropAbsent(q: seq<nat>, p: nat)
    requires p !in q
    ensures Drop(q, p) == q
  {
    if q == [] {
    } else {
      DropAbsent(q[..|q| - 1], p);
    }
  }

  /** On a duplicate-free queue, dropping a page cuts out its one position. */
  lemma DropOne(q: seq<nat>, p: nat, i: nat)
    requires NoDup(q) && i < |q| && q[i] == p
    ensures Drop(q, p) == q[..i] + q[i + 1..]
  {
    assert (q[..i] + [p]) + q[i + 1..] == q;
    DropBetween(q[..i], q[i + 1..], p);
  }

  lemma DropBetween(a: seq<nat>, b: seq<nat>, p: nat)
    requires p !in a && p !in b
    ensures Drop((a + [p]) + b, p) == a + b
  {
    DropConcat(a + [p], b, p);
    DropLast(a, p);
    DropAbsent(b, p);
  }

  lemma DropLast(a: seq<nat>, p: nat)
    requires p !in a
    ensures Drop(a + [p], p) == a
  {
    DropAbsent(a, p);
    assert (a + [p])[..|a|] == a;
  }

  lemma DropNoDup(q: seq<nat>, p: nat)
    requires NoDup(q)
    ensures NoDup(Drop(q, p)) && p !in Drop(q, p)
    ensures |Drop(q, p)| == |q| - (if p in q then 1 else 0)
    ensures forall x :: x in Drop(q, p) <==> x in q && x != p
  {
    if p in q {
      var i :| 0 <= i < |q| && q[i] == p;
      DropOne(q, p, i);
      assert q == q[..i] + [p] + q[i + 1..];
    } else {
      DropAbsent(q, p);
    }
  }

  // ----- Least recently used -----------------------------------------------

  /** The distinct pages of a history, least recently used first. */
  function Recency(h: seq<nat>): seq<nat> {
    if h == [] then []
    else Drop(Recency(h[..|h| - 1]), h[|h| - 1]) + [h[|h| - 1]]
  }

  /** Position of the last use of `p`. */
  function LastUse(h: seq<nat>, p: nat): nat
    requires p in h
  {
    if h[|h| - 1] == p then |h| - 1 else LastUse(h[..|h| - 1], p)
  }

  lemma {:induction false} LastUseIsLast(h: seq<nat>, p: nat)
    requires p in h
    ensures LastUse(h, p) < |h| && h[LastUse(h, p)] == p
    ensures forall j :: LastUse(h, p) < j < |h| ==> h[j] != p
  {
    if h[|h| - 1] == p {
    } else {
      var a := h[..|h| - 1];
      LastUseIsLast(a, p);
      assert forall j :: 0 <= j < |a| ==> a[j] == h[j];
    }
  }

  /** Every page of `q` occurs in `h`, and later positions were used later. */
  ghost predicate InUseOrder(q: seq<nat>, h: seq<nat>) {
    && (forall i :: 0 <= i < |q| ==> q[i] in h)
    && (forall i, j :: 0 <= i < j < |q| ==> LastUse(h, q[i]) < LastUse(h, q[j]))
  }

  lemma DropInUseOrder(q: seq<nat>, p: nat, h: seq<nat>)
    requires InUseOrder(q, h)
    ensures InUseOrder(Drop(q, p), h)
  {
    if p in q {
      var i :| 0 <= i < |q| && q[i] == p;
      DropOne(q, p, i);
    } else {
      DropAbsent(q, p);
    }
  }

  lemma ExtendUseOrder(q: seq<nat>, h: seq<nat>, x: nat)
    requires InUseOrder(q, h) && x !in q
    ensures InUseOrder(q + [x], h + [x])
  {
    var h', q' := h + [x], q + [x];
    assert h'[..|h'| - 1] == h;
    forall i | 0 <= i < |q| ensures q[i] in h' && LastUse(h', q[i]) == LastUse(h, q[i]) < |h| {
      assert q[i] != x;
      LastUseIsLast(h, q[i]);
    }
  }

  /** `r` lists the pages of `h`, each once, ordered by last use. */
  ghost predicate LastUseOrder(r: seq<nat>, h: seq<nat>) {
    InUseOrder(r, h) && NoDup(r) && (forall p :: p in h ==> p in r)
  }

  lemma LastUseOrderStep(r: seq<nat>, h: seq<nat>, x: nat)
    requires LastUseOrder(r, h)
    ensures LastUseOrder(Drop(r, x) + [x], h + [x])
  {
    var d := Drop(r, x);
    DropNoDup(r, x);
    DropInUseOrder(r, x, h);
    ExtendUseOrder(d, h, x);
    forall p | p in h + [x] ensures p in d + [x] {
      if p != x { assert p in h; }
    }
  }

  /** `Recency` is what its name says. */
  lemma {:induction false} RecencyIsLastUseOrder(h: seq<nat>)
    ensures LastUseOrder(Recency(h), h)
  {
    if h == [] {
    } else {
      var a, x := h[..|h| - 1], h[|h| - 1];
      RecencyIsLastUseOrder(a);
      LastUseOrderStep(Recency(a), a, x);
      assert h == a + [x];
    }
  }

  function LruStep(q: seq<nat>, k: nat, p: nat): seq<nat>
    requires k >= 1
  {
    if p in q then Drop(q, p) + [p]
    else if |q| == k then q[1..] + [p]
    else q + [p]
  }

  function LruQueue(h: seq<nat>, k: nat): seq<nat>
    requires k >= 1
  {
    if h == [] then [] else LruStep(LruQueue(h[..|h| - 1], k), k, h[|h| - 1])
  }

  /** One request moves the newest-`k` window of the recency list forward. */
  lemma LruStepIsWindow(r: seq<nat>, k: nat, p: nat)
    requires k >= 1 && NoDup(r)
    ensures LruStep(Newest(r, k), k, p) == Newest(Drop(r, p) + [p], k)
  {
    var q := Newest(r, k);
    var a := r[..|r| - |q|];
    assert r == a + q;
    LruStepSplit(a, q, k, p);
  }

  lemma LruStepSplit(a: seq<nat>, q: seq<nat>, k: nat, p: nat)
    requires k >= 1 && NoDup(q) && |q| <= k && (|q| < k ==> a == [])
    ensures LruStep(q, k, p) == Newest(Drop(a + q, p) + [p], k)
  {
    DropConcat(a, q, p);
    var d := Drop(q, p);
    SnocInWindow(Drop(a, p), d, p, k) by {
      if p in q { DropNoDup(q, p); } else { DropAbsent(q, p); }
    }
    if p in q {
      assert |d| < k by { DropNoDup(q, p); }
    } else {
      DropAbsent(q, p);
    }
  }

  /** Appending to a list whose newest `k` entries are `q`, or all of which is the shorter `q`. */
  lemma SnocInWindow(a: seq<nat>, q: seq<nat>, p: nat, k: nat)
    requires 1 <= k && |q| <= k && (|q| < k - 1 ==> a == [])
    ensures Newest((a + q) + [p], k) == if |q| == k then q[1..] + [p] else q + [p]
  {
    if |q| == k {
      assert (a + q) + [p] == (a + [q[0]]) + (q[1..] + [p]);
    } else {
      assert (a + q) + [p] == a + (q + [p]);
    }
  }

  /** For every history the queue holds exactly the `k` most recently used distinct pages, in last-use order. */
  lemma {:induction false} LruHoldsMostRecent(h: seq<nat>, k: nat)
    requires k >= 1
    ensures LruQueue(h, k) == Newest(Recency(h), k)
  {
    if h == [] {
    } else {
      var a := h[..|h| - 1];
      LruHoldsMostRecent(a, k);
      RecencyIsLastUseOrder(a);
      LruStepIsWindow(Recency(a), k, h[|h| - 1]);
    }
  }

  /** The stack property: more frames, larger resident set, at every step of every history. */
  lemma LruInclusion(h: seq<nat>, k: nat, k': nat)
    requires 1 <= k <= k'
    ensures forall p :: p in LruQueue(h, k) ==> p in LruQueue(h, k')
  {
    LruHoldsMostRecent(h, k);
    LruHoldsMostRecent(h, k');
    var r := Recency(h);
    forall p | p in Newest(r, k) ensures p in Newest(r, k') {
      var i :| 0 <= i < |Newest(r, k)| && Newest(r, k)[i] == p;
      assert Newest(r, k')[|Newest(r, k')| - |Newest(r, k)| + i] == p;
    }
  }

  function LruFaults(h: seq<nat>, k: nat): nat
    requires k >= 1
  {
    if h == [] then 0
    else LruFaults(h[..|h| - 1], k) + (if h[|h| - 1] in LruQueue(h[..|h| - 1], k) then 0 else 1)
  }

  /** Hence adding frames never adds page faults. */
  lemma {:induction false} LruFaultsMonotone(h: seq<nat>, k: nat, k': nat)
    requires 1 <= k <= k'
    ensures LruFaults(h, k') <= LruFaults(h, k)
  {
    if h == [] {
    } else {
      LruFaultsMonotone(h[..|h| - 1], k, k');
      LruInclusion(h[..|h| - 1], k, k');
    }
  }

  // ----- First in, first out -------------------------------------------------

  function FifoStep(q: seq<nat>, k: nat, p: nat): seq<nat>
    requires k >= 1
  {
    if p in q then q
    else if |q| == k then q[1..] + [p]
    else q + [p]
  }

  function FifoQueue(h: seq<nat>, k: nat): seq<nat>
    requires k >= 1
  {
    if h == [] then [] else FifoStep(FifoQueue(h[..|h| - 1], k), k, h[|h| - 1])
  }

  /** The pages a history makes the simulator load, in order. */
  function FifoLoads(h: seq<nat>, k: nat): seq<nat>
    requires k >= 1
  {
    if h == [] then []
    else
      var a, p := h[..|h| - 1], h[|h| - 1];
      FifoLoads(a, k) + (if p in FifoQueue(a, k) then [] else [p])
  }

  /** The FIFO queue is the newest `k` loads. */
  lemma {:induction false} FifoHoldsNewestLoads(h: seq<nat>, k: nat)
    requires k >= 1
    ensures FifoQueue(h, k) == Newest(FifoLoads(h, k), k)
  {
    if h == [] {
    } else {
      var a, p := h[..|h| - 1], h[|h| - 1];
      FifoHoldsNewestLoads(a, k);
      var l, q := FifoLoads(a, k), FifoQueue(a, k);
      if p !in q && |q| == k {
        assert l + [p] == l[..|l| - k + 1] + (q[1..] + [p]);
      }
    }
  }

  // ----- Second chance and circular queue ----------------------------------

  /** A queue of pages and the resident pages whose reference mark is up. */
  datatype Clock = Clock(queue: seq<nat>, marked: set<nat>)

  ghost predicate ClockOk(c: Clock, k: nat) {
    NoDup(c.queue) && |c.queue| <= k && c.marked <= Elements(c.queue)
  }

  /** Queue position of the first page that is not marked; the queue length if all are. */
  function FirstUnmarked(q: seq<nat>, marked: set<nat>): (i: nat)
    ensures i <= |q|
    ensures forall j :: 0 <= j < i ==> q[j] in marked
    ensures i < |q| ==> q[i] !in marked
  {
    if q == [] || q[0] !in marked then 0 else 1 + FirstUnmarked(q[1..], marked)
  }

  /** The queue after `i` rotations and one more dequeue. */
  function Rotated(q: seq<nat>, i: nat): seq<nat>
    requires q != [] && i <= |q|
  {
    if i < |q| then q[i + 1..] + q[..i] else q[1..]
  }

  lemma RotatedElements(q: seq<nat>, i: nat)
    requires q != [] && i <= |q| && NoDup(q)
    ensures forall p :: p in Rotated(q, i) <==> p in q && p != q[if i < |q| then i else 0]
    ensures i == |q| ==> q[..i] == q
  {
    if i < |q| {
      assert q == q[..i] + [q[i]] + q[i + 1..];
    } else {
      assert q == [q[0]] + q[1..];
    }
  }

  lemma RotateStep(q: seq<nat>, i: nat)
    requires i < |q|
    ensures var r := Rotated(q, i) + [q[i]];
            r[0] == (if i + 1 < |q| then q[i + 1] else q[0]) && r[1..] == Rotated(q, i + 1)
    ensures q[..i + 1] == q[..i] + [q[i]]
  {
    var r := Rotated(q, i) + [q[i]];
    if i + 1 < |q| {
      assert r == [q[i + 1]] + (q[i + 2..] + q[..i + 1]);
    } else {
      assert r == q;
    }
  }

  /** The page an eviction removes: the first unmarked one, or the head if all are marked. */
  function Victim(c: Clock): nat
    requires c.queue != []
  {
    var i := FirstUnmarked(c.queue, c.marked);
    if i < |c.queue| then c.queue[i] else c.queue[0]
  }

  /** An eviction: marked pages before the victim lose their mark and move to the tail. */
  function Sweep(c: Clock): Clock
    requires c.queue != []
  {
    var i := FirstUnmarked(c.queue, c.marked);
    Clock(Rotated(c.queue, i), c.marked - Elements(c.queue[..i]))
  }

  /** One request; `markOnLoad` tells the circular queue from the second-chance policy. */
  function ClockStep(c: Clock, k: nat, p: nat, markOnLoad: bool): Clock
    requires k >= 1
  {
    if p in c.queue then Clock(c.queue, c.marked + {p})
    else if |c.queue| == k then Load(Sweep(c), p, markOnLoad)
    else Load(c, p, markOnLoad)
  }

  function Load(c: Clock, p: nat, markOnLoad: bool): Clock {
    Clock(c.queue + [p], if markOnLoad then c.marked + {p} else c.marked)
  }

  function ClockRun(h: seq<nat>, k: nat, markOnLoad: bool): Clock
    requires k >= 1
  {
    if h == [] then Clock([], {})
    else ClockStep(ClockRun(h[..|h| - 1], k, markOnLoad), k, h[|h| - 1], markOnLoad)
  }

  /** An eviction removes exactly the victim, and never a marked page while an unmarked one is resident. */
  lemma SweepRemovesVictim(c: Clock, k: nat)
    requires ClockOk(c, k) && c.queue != []
    ensures ClockOk(Sweep(c), k) && |Sweep(c).queue| == |c.queue| - 1
    ensures forall x :: x in Sweep(c).queue <==> x in c.queue && x != Victim(c)
    ensures Victim(c) in c.marked ==> Elements(c.queue) == c.marked && Victim(c) == c.queue[0] && Sweep(c).marked == {}
  {
    var q := c.queue;
    var i := FirstUnmarked(q, c.marked);
    RotatedElements(q, i);
    if i == |q| {
      assert q[..i] == q;
    }
  }

  /** Every run: no duplicates, at most `k` pages, only resident pages marked, the last request resident. */
  lemma {:induction false} ClockRunOk(h: seq<nat>, k: nat, markOnLoad: bool)
    requires k >= 1
    ensures ClockOk(ClockRun(h, k, markOnLoad), k)
    ensures h != [] ==> h[|h| - 1] in ClockRun(h, k, markOnLoad).queue
  {
    if h == [] {
    } else {
      var a, p := h[..|h| - 1], h[|h| - 1];
      ClockRunOk(a, k, markOnLoad);
      ClockStepOk(ClockRun(a, k, markOnLoad), k, p, markOnLoad);
    }
  }

  lemma ClockStepOk(c: Clock, k: nat, p: nat, markOnLoad: bool)
    requires k >= 1 && ClockOk(c, k)
    ensures var c' := ClockStep(c, k, p, markOnLoad); ClockOk(c', k) && p in c'.queue
  {
    if p !in c.queue {
      if |c.queue| == k { SweepRemovesVictim(c, k); }
      var e := if |c.queue| == k then Sweep(c) else c;
      assert p !in e.queue;
      assert Elements(e.queue + [p]) == Elements(e.queue) + {p};
    }
  }

  // ----- The clock queue, from the requests alone -----------------------------------------------

  /** When a page was last put in the queue: the request in which it was loaded, or passed over by an
      eviction, and a stamp that orders those put in by one request. */
  datatype Put = Put(time: nat, stamp: nat)

  /** All stamps are below `top`. */
  datatype Puts = Puts(at: map<nat, Put>, top: nat)

  /** Was `p` requested since request `time`? For the circular queue that request counts. */
  ghost predicate Asked(h: seq<nat>, p: nat, time: nat, countLoad: bool) {
    exists i :: time <= i < |h| && h[i] == p && (time < i || countLoad)
  }

  ghost predicate AskedSince(h: seq<nat>, at: map<nat, Put>, countLoad: bool, p: nat) {
    p in at && Asked(h, p, at[p].time, countLoad)
  }

  ghost predicate AllAsked(h: seq<nat>, at: map<nat, Put>, countLoad: bool) {
    forall p :: p in at ==> AskedSince(h, at, countLoad, p)
  }

  /** The page to go: of those not requested since they were put in, the one put in first; of all, if
      all were requested. */
  ghost predicate ToGo(h: seq<nat>, at: map<nat, Put>, countLoad: bool, v: nat) {
    && v in at && (AskedSince(h, at, countLoad, v) ==> AllAsked(h, at, countLoad))
    && forall p :: p in at && (AskedSince(h, at, countLoad, p) ==> AllAsked(h, at, countLoad)) ==> at[v].stamp <= at[p].stamp
  }

  /** Put in before the page to go, and requested since; or all were. */
  ghost predicate PassedOver(h: seq<nat>, at: map<nat, Put>, countLoad: bool, v: nat, p: nat) {
    v in at && p in at && AskedSince(h, at, countLoad, p) && (at[p].stamp < at[v].stamp || AllAsked(h, at, countLoad))
  }

  /** Those passed over are put in again, in their order, and the new page last. */
  ghost function Evicted(h: seq<nat>, r: Puts, countLoad: bool, v: nat, p: nat): Puts {
    Puts((map x | x in r.at && x != v ::
            if PassedOver(h, r.at, countLoad, v, x) then Put(|h|, r.at[x].stamp + r.top) else r.at[x])
           [p := Put(|h|, 2 * r.top)],
         2 * r.top + 1)
  }

  /** Request `p`, after the requests `h`. */
  ghost predicate PutStep(h: seq<nat>, k: nat, countLoad: bool, r: Puts, p: nat, r': Puts) {
    if p in r.at then r' == r
    else if |r.at| < k then r' == Puts(r.at[p := Put(|h|, r.top)], r.top + 1)
    else exists v :: ToGo(h, r.at, countLoad, v) && r' == Evicted(h, r, countLoad, v, p)
  }

  ghost predicate PutsAre(h: seq<nat>, k: nat, countLoad: bool, r: Puts) {
    if h == [] then r == Puts(map[], 1)
    else exists r0 :: PutsAre(Earlier(h), k, countLoad, r0) && PutStep(Earlier(h), k, countLoad, r0, h[|h| - 1], r)
  }

  /** All but the last request. */
  function Earlier(h: seq<nat>): (a: seq<nat>)
    requires h != []
    ensures h == a + [h[|h| - 1]] && |a| == |h| - 1
  {
    h[..|h| - 1]
  }

  /** The queue has the resident pages in the order in which they were last put in, and the marked
      ones are those requested since. */
  ghost predicate Shows(h: seq<nat>, c: Clock, r: Puts, countLoad: bool) {
    && (forall p :: p in c.queue <==> p in r.at)
    && (forall p :: p in r.at ==> r.at[p].stamp < r.top && r.at[p].time < |h|)
    && (forall i, j :: 0 <= i < j < |c.queue| ==> r.at[c.queue[i]].stamp < r.at[c.queue[j]].stamp)
    && (forall p :: p in r.at ==> (p in c.marked <==> Asked(h, p, r.at[p].time, countLoad)))
  }

  lemma OneMore(h: seq<nat>, q: nat, p: nat, time: nat, countLoad: bool)
    requires time < |h| && p != q
    ensures Asked(h + [q], p, time, countLoad) <==> Asked(h, p, time, countLoad)
  {
    var g := h + [q];
    if i :| time <= i < |g| && g[i] == p && (time < i || countLoad) { assert h[i] == p; }
    if i :| time <= i < |h| && h[i] == p && (time < i || countLoad) { assert g[i] == p; }
  }

  lemma AskedNow(h: seq<nat>, q: nat, p: nat, countLoad: bool)
    ensures Asked(h + [q], p, |h|, countLoad) <==> p == q && countLoad
  {
    assert (h + [q])[|h|] == q;
  }

  lemma Hit(h: seq<nat>, k: nat, countLoad: bool, c: Clock, r: Puts, p: nat)
    requires k >= 1 && ClockOk(c, k) && Shows(h, c, r, countLoad) && p in c.queue
    ensures Shows(h + [p], ClockStep(c, k, p, countLoad), r, countLoad)
  {
    var g := h + [p];
    forall x | x in r.at ensures x in c.marked + {p} <==> Asked(g, x, r.at[x].time, countLoad) {
      if x == p { assert g[|h|] == p; } else { OneMore(h, p, x, r.at[x].time, countLoad); }
    }
  }

  lemma FilledFrame(h: seq<nat>, countLoad: bool, c: Clock, r: Puts, p: nat)
    requires Shows(h, c, r, countLoad) && c.marked <= Elements(c.queue) && p !in c.queue
    ensures Shows(h + [p], Load(c, p, countLoad), Puts(r.at[p := Put(|h|, r.top)], r.top + 1), countLoad)
  {
    var g, c', at' := h + [p], Load(c, p, countLoad), r.at[p := Put(|h|, r.top)];
    forall x | x in at' ensures x in c'.marked <==> Asked(g, x, at'[x].time, countLoad) {
      if x == p { AskedNow(h, p, p, countLoad); } else { OneMore(h, p, x, r.at[x].time, countLoad); }
    }
    forall i, j | 0 <= i < j < |c'.queue| ensures at'[c'.queue[i]].stamp < at'[c'.queue[j]].stamp {
      assert c'.queue[i] == c.queue[i] && c.queue[i] in c.queue;
      if j < |c.queue| { assert c.queue[j] in c.queue; }
    }
  }

  /** The victim of the sweep is the page to go. */
  lemma VictimToGo(h: seq<nat>, k: nat, countLoad: bool, c: Clock, r: Puts)
    requires ClockOk(c, k) && c.queue != [] && Shows(h, c, r, countLoad)
    ensures ToGo(h, r.at, countLoad, Victim(c))
  {
    var q, v := c.queue, Victim(c);
    var i := FirstUnmarked(q, c.marked);
    assert v in q;
    forall p | p in r.at && (AskedSince(h, r.at, countLoad, p) ==> AllAsked(h, r.at, countLoad))
      ensures r.at[v].stamp <= r.at[p].stamp
    {
      var j :| 0 <= j < |q| && q[j] == p;
      if i < |q| {
        assert !AskedSince(h, r.at, countLoad, q[i]);
        assert p !in c.marked;
      }
    }
    if i == |q| {
      forall p | p in r.at ensures AskedSince(h, r.at, countLoad, p) {
        var j :| 0 <= j < |q| && q[j] == p;
      }
    }
  }

  /** Passed over are exactly the marked pages in front of the victim, or all if all are marked. */
  lemma PassedIs(h: seq<nat>, k: nat, countLoad: bool, c: Clock, r: Puts, j: nat)
    requires ClockOk(c, k) && Shows(h, c, r, countLoad) && j < |c.queue| && c.queue[j] != Victim(c)
    ensures Victim(c) in r.at && c.queue[j] in r.at
    ensures PassedOver(h, r.at, countLoad, Victim(c), c.queue[j]) <==> j < FirstUnmarked(c.queue, c.marked)
  {
    var q, v := c.queue, Victim(c);
    var i := FirstUnmarked(q, c.marked);
    assert q[j] in q && v in q;
    if i == |q| {
      forall p | p in r.at ensures AskedSince(h, r.at, countLoad, p) {
        var l :| 0 <= l < |q| && q[l] == p;
      }
    } else {
      assert q[i] in q && !AskedSince(h, r.at, countLoad, q[i]);
    }
  }

  /** The page at position `j`, once another one has gone for `p`. */
  lemma PutAgain(h: seq<nat>, k: nat, countLoad: bool, c: Clock, r: Puts, p: nat, j: nat)
    requires ClockOk(c, k) && Shows(h, c, r, countLoad) && p !in c.queue && j < |c.queue| && c.queue[j] != Victim(c)
    ensures var r', x, i := Evicted(h, r, countLoad, Victim(c), p), c.queue[j], FirstUnmarked(c.queue, c.marked);
            && x in r'.at && x in r.at && x != p
            && r'.at[x] == (if j < i then Put(|h|, r.at[x].stamp + r.top) else r.at[x])
            && (x in c.marked && i <= j <==> Asked(h + [p], x, r'.at[x].time, countLoad))
  {
    var x := c.queue[j];
    assert x in c.queue;
    PassedIs(h, k, countLoad, c, r, j);
    if j < FirstUnmarked(c.queue, c.marked) {
      AskedNow(h, p, x, countLoad);
    } else {
      OneMore(h, p, x, r.at[x].time, countLoad);
    }
  }

  /** Where the pages of the queue stand after the sweep. */
  function Source(n: nat, i: nat, l: nat): nat {
    if i == n then l + 1 else if l < n - i - 1 then i + 1 + l else l - (n - i - 1)
  }

  lemma RotatedAt(q: seq<nat>, i: nat, l: nat)
    requires q != [] && i <= |q| && l < |q| - 1
    ensures |Rotated(q, i)| == |q| - 1 && Source(|q|, i, l) < |q| && Rotated(q, i)[l] == q[Source(|q|, i, l)]
    ensures Source(|q|, i, l) != if i == |q| then 0 else i
  {
  }

  lemma KeysAre(h: seq<nat>, k: nat, countLoad: bool, c: Clock, r: Puts, p: nat)
    requires ClockOk(c, k) && Shows(h, c, r, countLoad) && p !in c.queue && c.queue != []
    ensures forall x :: x in Load(Sweep(c), p, countLoad).queue <==> x in Evicted(h, r, countLoad, Victim(c), p).at
  {
    SweepRemovesVictim(c, k);
  }

  lemma StampAt(h: seq<nat>, k: nat, countLoad: bool, c: Clock, r: Puts, p: nat, l: nat)
    requires ClockOk(c, k) && Shows(h, c, r, countLoad) && p !in c.queue && c.queue != [] && l < |c.queue| - 1
    ensures var q', r' := Load(Sweep(c), p, countLoad).queue, Evicted(h, r, countLoad, Victim(c), p);
            var i := FirstUnmarked(c.queue, c.marked);
            var j := Source(|c.queue|, i, l);
            && |q'| == |c.queue| && q'[l] in r'.at && j < |c.queue| && c.queue[j] in r.at
            && r'.at[q'[l]].stamp == r.at[c.queue[j]].stamp + if j < i then r.top else 0
  {
    var i := FirstUnmarked(c.queue, c.marked);
    RotatedAt(c.queue, i, l);
    PutAgain(h, k, countLoad, c, r, p, Source(|c.queue|, i, l));
  }

  lemma SourceRises(n: nat, i: nat, l: nat, m: nat)
    requires i <= n && l < m < n - 1
    ensures var a, b := Source(n, i, l), Source(n, i, m); (a < b && (a < i <==> b < i)) || (b < i <= a)
  {
  }

  lemma StampsRise(h: seq<nat>, k: nat, countLoad: bool, c: Clock, r: Puts, p: nat, l: nat, m: nat)
    requires ClockOk(c, k) && Shows(h, c, r, countLoad) && p !in c.queue && c.queue != [] && l < m < |c.queue|
    ensures var q', r' := Load(Sweep(c), p, countLoad).queue, Evicted(h, r, countLoad, Victim(c), p);
            |q'| == |c.queue| && q'[l] in r'.at && q'[m] in r'.at && r'.at[q'[l]].stamp < r'.at[q'[m]].stamp
  {
    StampAt(h, k, countLoad, c, r, p, l);
    if m < |c.queue| - 1 {
      StampAt(h, k, countLoad, c, r, p, m);
      SourceRises(|c.queue|, FirstUnmarked(c.queue, c.marked), l, m);
    }
  }

  lemma Replaced(h: seq<nat>, k: nat, countLoad: bool, c: Clock, r: Puts, p: nat)
    requires ClockOk(c, k) && Shows(h, c, r, countLoad) && p !in c.queue && c.queue != []
    ensures Shows(h + [p], Load(Sweep(c), p, countLoad), Evicted(h, r, countLoad, Victim(c), p), countLoad)
  {
    var c', r' := Load(Sweep(c), p, countLoad), Evicted(h, r, countLoad, Victim(c), p);
    KeysAre(h, k, countLoad, c, r, p);
    RotatedLength(c.queue, FirstUnmarked(c.queue, c.marked));
    forall l, m | 0 <= l < m < |c'.queue| ensures r'.at[c'.queue[l]].stamp < r'.at[c'.queue[m]].stamp {
      StampsRise(h, k, countLoad, c, r, p, l, m);
    }
    forall x | x in r'.at
      ensures r'.at[x].stamp < r'.top && r'.at[x].time < |h| + 1
      ensures x in c'.marked <==> Asked(h + [p], x, r'.at[x].time, countLoad)
    {
      if x == p {
        AskedNow(h, p, p, countLoad);
      } else {
        StillThere(h, k, countLoad, c, r, p, x);
      }
    }
  }

  lemma RotatedLength(q: seq<nat>, i: nat)
    requires q != [] && i <= |q|
    ensures |Rotated(q, i)| == |q| - 1
  {
  }

  lemma StillThere(h: seq<nat>, k: nat, countLoad: bool, c: Clock, r: Puts, p: nat, x: nat)
    requires ClockOk(c, k) && Shows(h, c, r, countLoad) && p !in c.queue && c.queue != [] && x in c.queue && x != Victim(c)
    ensures var c', r' := Load(Sweep(c), p, countLoad), Evicted(h, r, countLoad, Victim(c), p);
            x in r'.at && r'.at[x].stamp < r'.top && r'.at[x].time <= |h|
            && (x in c'.marked <==> Asked(h + [p], x, r'.at[x].time, countLoad))
  {
    var i := FirstUnmarked(c.queue, c.marked);
    var j :| 0 <= j < |c.queue| && c.queue[j] == x;
    PutAgain(h, k, countLoad, c, r, p, j);
    assert x in Elements(c.queue[..i]) <==> j < i by {
      if x in c.queue[..i] { var l :| 0 <= l < i && c.queue[..i][l] == x; assert c.queue[l] == c.queue[j]; }
      if j < i { assert c.queue[..i][j] == x; }
    }
  }

  lemma AsManyPuts(h: seq<nat>, k: nat, countLoad: bool, c: Clock, r: Puts)
    requires ClockOk(c, k) && Shows(h, c, r, countLoad)
    ensures |r.at| == |c.queue|
  {
    assert r.at.Keys == Elements(c.queue);
    CountElements(c.queue);
  }

  lemma {:induction false} CountElements(q: seq<nat>)
    requires NoDup(q)
    ensures |Elements(q)| == |q|
  {
    if q == [] {
    } else {
      CountElements(q[1..]);
      assert q == [q[0]] + q[1..];
      assert Elements(q) == {q[0]} + Elements(q[1..]);
      assert q[0] !in q[1..];
    }
  }

  lemma ClockPuts(h: seq<nat>, k: nat, countLoad: bool, c: Clock, r: Puts, p: nat) returns (r': Puts)
    requires k >= 1 && ClockOk(c, k) && Shows(h, c, r, countLoad)
    ensures PutStep(h, k, countLoad, r, p, r') && Shows(h + [p], ClockStep(c, k, p, countLoad), r', countLoad)
  {
    AsManyPuts(h, k, countLoad, c, r);
    if p in c.queue {
      r' := r;
      Hit(h, k, countLoad, c, r, p);
    } else if |c.queue| < k {
      r' := Puts(r.at[p := Put(|h|, r.top)], r.top + 1);
      FilledFrame(h, countLoad, c, r, p);
    } else {
      r' := Evicted(h, r, countLoad, Victim(c), p);
      VictimToGo(h, k, countLoad, c, r);
      Replaced(h, k, countLoad, c, r, p);
    }
  }

  lemma StampsDiffer(h: seq<nat>, c: Clock, r: Puts, countLoad: bool, v: nat, x: nat)
    requires Shows(h, c, r, countLoad) && v in r.at && x in r.at
    ensures r.at[v].stamp == r.at[x].stamp ==> v == x
  {
    var i :| 0 <= i < |c.queue| && c.queue[i] == v;
    var j :| 0 <= j < |c.queue| && c.queue[j] == x;
  }

  lemma OneToGo(h: seq<nat>, c: Clock, r: Puts, countLoad: bool, v: nat, x: nat)
    requires Shows(h, c, r, countLoad) && ToGo(h, r.at, countLoad, v) && ToGo(h, r.at, countLoad, x)
    ensures v == x
  {
    StampsDiffer(h, c, r, countLoad, v, x);
  }

  lemma PutStepShows(h: seq<nat>, k: nat, countLoad: bool, c: Clock, r: Puts, p: nat, r': Puts)
    requires k >= 1 && ClockOk(c, k) && Shows(h, c, r, countLoad) && PutStep(h, k, countLoad, r, p, r')
    ensures Shows(h + [p], ClockStep(c, k, p, countLoad), r', countLoad)
  {
    var r1 := ClockPuts(h, k, countLoad, c, r, p);
    AsManyPuts(h, k, countLoad, c, r);
    if p !in c.queue && |c.queue| == k {
      var v :| ToGo(h, r.at, countLoad, v) && r' == Evicted(h, r, countLoad, v, p);
      var x :| ToGo(h, r.at, countLoad, x) && r1 == Evicted(h, r, countLoad, x, p);
      OneToGo(h, c, r, countLoad, v, x);
    }
  }

  /** After every history: the clock queue has the resident pages in the order in which they were last
      put in, by a load or by being passed over; and the marked ones are those requested since. Which
      page each eviction took, and which it passed over, is said of the requests alone (`PutsAre`). */
  lemma {:induction false} ClockIsPutOrder(h: seq<nat>, k: nat, countLoad: bool, r: Puts)
    requires k >= 1 && PutsAre(h, k, countLoad, r)
    ensures Shows(h, ClockRun(h, k, countLoad), r, countLoad)
    decreases |h|
  {
    if h == [] {
    } else {
      var a := Earlier(h);
      var r0 :| PutsAre(a, k, countLoad, r0) && PutStep(a, k, countLoad, r0, h[|h| - 1], r);
      ClockIsPutOrder(a, k, countLoad, r0);
      ClockRunOk(a, k, countLoad);
      PutStepShows(a, k, countLoad, ClockRun(a, k, countLoad), r0, h[|h| - 1], r);
    }
  }

  /** And there is such an account of every history. */
  lemma {:induction false} PutsExist(h: seq<nat>, k: nat, countLoad: bool) returns (r: Puts)
    requires k >= 1
    ensures PutsAre(h, k, countLoad, r)
    decreases |h|
  {
    if h == [] {
      r := Puts(map[], 1);
    } else {
      var a := Earlier(h);
      var r0 := PutsExist(a, k, countLoad);
      ClockIsPutOrder(a, k, countLoad, r0);
      ClockRunOk(a, k, countLoad);
      r := ClockPuts(a, k, countLoad, ClockRun(a, k, countLoad), r0, h[|h| - 1]);
    }
  }

  // ----- Least frequently used ----------------------------------------------

  /** A resident page with its counters. */
  datatype FreqPage = FreqPage(uses: nat, page: nat, last: nat)

  /** The comparator: fewer uses first, then the older last use. */
  function SortFreq(a: FreqPage, b: FreqPage): int {
    var x := a.uses - b.uses;
    if x == 0 then a.last - b.last else x
  }

  ghost predicate SortedFreq(q: seq<FreqPage>) {
    forall i, j :: 0 <= i < j < |q| ==> SortFreq(q[i], q[j]) <= 0
  }

  /** Requests for `p` since it was last loaded, the loading request included. */
  function UsesSinceLoad(log: seq<Ref>, p: nat): nat {
    if log == [] then 0
    else
      var a, r := log[..|log| - 1], log[|log| - 1];
      if r.page != p then UsesSinceLoad(a, p)
      else if r.fault then 1
      else 1 + UsesSinceLoad(a, p)
  }

  /** Index of the latest request for `p`, -1 if there was none. */
  function LastRequest(log: seq<Ref>, p: nat): (i: int)
    ensures -1 <= i < |log|
    ensures i >= 0 ==> log[i].page == p
  {
    if log == [] then -1
    else if log[|log| - 1].page == p then |log| - 1
    else LastRequest(log[..|log| - 1], p)
  }

  /** The counters kept with every resident page are facts about the request log. */
  ghost predicate Counted(e: FreqPage, freq: seq<int>, log: seq<Ref>) {
    && e.page < |freq|
    && e.uses == freq[e.page] == UsesSinceLoad(log, e.page)
    && e.last == LastRequest(log, e.page)
  }

  ghost predicate DistinctPages(q: seq<FreqPage>) {
    forall i, j :: 0 <= i < j < |q| ==> q[i].page != q[j].page
  }

  ghost predicate Holds(q: seq<FreqPage>, p: nat) {
    exists i :: 0 <= i < |q| && q[i].page == p
  }

  /** The bookkeeping invariant, order of the queue aside. */
  ghost predicate LfuCounts(q: seq<FreqPage>, freq: seq<int>, log: seq<Ref>) {
    && DistinctPages(q)
    && (forall i :: 0 <= i < |q| ==> Counted(q[i], freq, log))
    && (forall p :: 0 <= p < |freq| && !Holds(q, p) ==> freq[p] == 0)
  }

  ghost predicate LfuOk(q: seq<FreqPage>, freq: seq<int>, log: seq<Ref>, k: nat) {
    |q| <= k && SortedFreq(q) && LfuCounts(q, freq, log)
  }

  /** What `find_elem_freq` leaves in the queue when page `p` is requested at time `now`. */
  function Touch(q: seq<FreqPage>, p: nat, now: nat): (r: seq<FreqPage>)
    ensures |r| == |q|
  {
    seq(|q|, i requires 0 <= i < |q| =>
      if q[i].page == p then FreqPage(q[i].uses + 1, p, now) else q[i])
  }

  /** A hit counts one more use of the page and leaves every other counter alone. */
  lemma LfuHit(q: seq<FreqPage>, freq: seq<int>, log: seq<Ref>, p: nat)
    requires LfuCounts(q, freq, log) && Holds(q, p) && p < |freq|
    ensures LfuCounts(Touch(q, p, |log|), freq[p := freq[p] + 1], log + [Ref(p, false)])
    ensures forall x :: Holds(Touch(q, p, |log|), x) <==> Holds(q, x)
  {
    var t, f, l := Touch(q, p, |log|), freq[p := freq[p] + 1], log + [Ref(p, false)];
    assert forall i :: 0 <= i < |q| ==> t[i].page == q[i].page;
    forall i | 0 <= i < |t| ensures Counted(t[i], f, l) {
      assert Counted(q[i], freq, log);
    }
    forall x ensures Holds(t, x) <==> Holds(q, x) {
      if Holds(q, x) {
        var i :| 0 <= i < |q| && q[i].page == x;
        assert t[i].page == x;
      }
    }
  }

  /** Evicting the head forgets its count. */
  lemma LfuEvict(q: seq<FreqPage>, freq: seq<int>, log: seq<Ref>)
    requires LfuCounts(q, freq, log) && q != []
    ensures q[0].page < |freq|
    ensures LfuCounts(q[1..], freq[q[0].page := 0], log)
    ensures forall x :: Holds(q[1..], x) <==> Holds(q, x) && x != q[0].page
  {
    var t := q[1..];
    assert Counted(q[0], freq, log);
    forall x ensures Holds(t, x) <==> Holds(q, x) && x != q[0].page {
      if Holds(q, x) && x != q[0].page {
        var i :| 0 <= i < |q| && q[i].page == x;
        assert t[i - 1].page == x;
      }
      if Holds(t, x) {
        var i :| 0 <= i < |t| && t[i].page == x;
        assert q[i + 1].page == x;
      }
    }
    forall i | 0 <= i < |t| ensures Counted(t[i], freq[q[0].page := 0], log) {
      assert Counted(q[i + 1], freq, log);
    }
  }

  /** Loading an absent page starts its count at one. */
  lemma LfuLoad(q: seq<FreqPage>, freq: seq<int>, log: seq<Ref>, p: nat)
    requires LfuCounts(q, freq, log) && !Holds(q, p) && p < |freq|
    ensures LfuCounts(q + [FreqPage(1, p, |log|)], freq[p := 1], log + [Ref(p, true)])
    ensures forall x :: Holds(q + [FreqPage(1, p, |log|)], x) <==> Holds(q, x) || x == p
  {
    var t, f, l := q + [FreqPage(1, p, |log|)], freq[p := 1], log + [Ref(p, true)];
    forall i | 0 <= i < |t| ensures Counted(t[i], f, l) {
      if i < |q| {
        assert Counted(q[i], freq, log);
      }
    }
    forall x ensures Holds(t, x) <==> Holds(q, x) || x == p {
      if Holds(q, x) {
        var i :| 0 <= i < |q| && q[i].page == x;
        assert t[i].page == x;
      }
      if x == p { assert t[|q|].page == p; }
    }
  }

  /** Reordering the queue changes none of the counters. */
  lemma LfuReorder(q: seq<FreqPage>, r: seq<FreqPage>, freq: seq<int>, log: seq<Ref>)
    requires LfuCounts(q, freq, log) && multiset(r) == multiset(q) && DistinctPages(r)
    ensures LfuCounts(r, freq, log) && |r| == |q|
    ensures forall x :: Holds(r, x) <==> Holds(q, x)
  {
    assert |multiset(r)| == |multiset(q)|;
    forall i | 0 <= i < |r| ensures Counted(r[i], freq, log) && r[i] in q {
      assert r[i] in multiset(r);
    }
    forall i | 0 <= i < |q| ensures q[i] in r { assert q[i] in multiset(q); }
    forall x ensures Holds(r, x) <==> Holds(q, x) {
      if Holds(q, x) {
        var i :| 0 <= i < |q| && q[i].page == x;
        assert q[i] in r;
      }
      if Holds(r, x) {
        var i :| 0 <= i < |r| && r[i].page == x;
        assert r[i] in q;
      }
    }
  }

  /** The head of the queue is the unique least-used, then least recently used, resident page. */
  lemma LfuHeadIsUniqueMinimum(q: seq<FreqPage>, freq: seq<int>, log: seq<Ref>, k: nat, i: nat)
    requires LfuOk(q, freq, log, k) && 0 < i < |q|
    ensures var u, v := UsesSinceLoad(log, q[0].page), UsesSinceLoad(log, q[i].page);
            u < v || (u == v && LastRequest(log, q[0].page) < LastRequest(log, q[i].page))
  {
    assert SortFreq(q[0], q[i]) <= 0;
    assert Counted(q[0], freq, log) && Counted(q[i], freq, log);
    assert q[0].page != q[i].page;
  }
}
