/** The pager of Assignment5/pager.c: five replacement policies over one mutable queue.
    `Valid` ties the queue and the counters to the policy functions of the whole request log. */
module Pager {
  import opened PagePolicies

  const PAGES: nat := 1_000_000

  ghost function Pages(log: seq<Ref>): (h: seq<nat>)
    ensures |h| == |log|
  {
    seq(|log|, i requires 0 <= i < |log| => log[i].page)
  }

  /** How each policy function grows with one more request. */
  lemma RunsSnoc(h: seq<nat>, p: nat, k: nat)
    requires k >= 1
    ensures FifoQueue(h + [p], k) == FifoStep(FifoQueue(h, k), k, p)
    ensures FifoLoads(h + [p], k) == FifoLoads(h, k) + if p in FifoQueue(h, k) then [] else [p]
    ensures LruQueue(h + [p], k) == LruStep(LruQueue(h, k), k, p)
    ensures LruFaults(h + [p], k) == LruFaults(h, k) + if p in LruQueue(h, k) then 0 else 1
    ensures forall onLoad :: ClockRun(h + [p], k, onLoad) == ClockStep(ClockRun(h, k, onLoad), k, p, onLoad)
  {
    assert (h + [p])[..|h|] == h;
  }

  lemma PagesSnoc(log: seq<Ref>, r: Ref)
    ensures Pages(log + [r]) == Pages(log) + [r.page]
    ensures Pages(log + [r])[..|log|] == Pages(log)
  {
  }

  class Pager {
    const maxSize: nat
    const alg: Algorithm
    const freqList: array<int>
    const bitRefs: array<int>
    var queue: seq<nat>
    var freqQueue: seq<FreqPage>
    var step: nat
    var loaded: seq<nat>  // the pages handed to sim_get_page, in order
    ghost var log: seq<Ref>

    /** Value of a reference bit that stands for "recently referenced" under the policy in force. */
    function Up(): int { if alg == CircularQueue then 0 else 1 }

    ghost function Marked(): set<nat>
      reads this, bitRefs
      requires forall p :: p in queue ==> p < bitRefs.Length
    {
      set p | p in queue && bitRefs[p] == Up()
    }

    ghost predicate Frame() {
      && maxSize >= 1
      && freqList.Length == PAGES && bitRefs.Length == PAGES
      && freqList != bitRefs
    }

    ghost predicate Bits()
      reads this, bitRefs
    {
      && (forall p :: 0 <= p < bitRefs.Length ==> bitRefs[p] == 0 || bitRefs[p] == 1)
      && (forall p :: p in queue ==> p < bitRefs.Length)
      && (alg == SecondChance ==> forall p :: 0 <= p < bitRefs.Length && p !in queue ==> bitRefs[p] == 0)
    }

    ghost predicate Valid()
      reads this, freqList, bitRefs
    {
      && Frame()
      && step == |log|
      && match alg
         case Fifo => queue == FifoQueue(Pages(log), maxSize) && loaded == FifoLoads(Pages(log), maxSize)
         case Lru => queue == LruQueue(Pages(log), maxSize) && |loaded| == LruFaults(Pages(log), maxSize)
         case Lfu => LfuOk(freqQueue, freqList[..], log, maxSize)
         case SecondChance => Bits() && Clock(queue, Marked()) == ClockRun(Pages(log), maxSize, false)
         case CircularQueue => Bits() && Clock(queue, Marked()) == ClockRun(Pages(log), maxSize, true)
    }

    ghost predicate ClockValid()
      reads this, bitRefs
    {
      && Frame() && step == |log| && alg in {SecondChance, CircularQueue} && Bits()
      && Clock(queue, Marked()) == ClockRun(Pages(log), maxSize, alg == CircularQueue)
    }

    ghost predicate Resident(p: nat)
      reads this
    {
      if alg == Lfu then Holds(freqQueue, p) else p in queue
    }

    constructor (algorithm: Algorithm, frames: nat)
      requires frames >= 1
      ensures Valid() && log == [] && alg == algorithm && maxSize == frames
      ensures fresh(freqList) && fresh(bitRefs)
    {
      maxSize, alg := frames, algorithm;
      freqList := new int[PAGES](i => 0);
      bitRefs := new int[PAGES](i => 0);
      queue, freqQueue, step, loaded, log := [], [], 0, [], [];
    }

    method SimGetPage(page: nat)
      modifies this`loaded
      ensures loaded == old(loaded) + [page]
    {
      loaded := loaded + [page];
    }

    /** One pass over the queue, through a temporary one; a found page is dropped under LRU
        and has its reference bit written under the clock policies. */
    method FindElem(val: nat) returns (found: bool)
      requires alg in {SecondChance, CircularQueue} ==> val < bitRefs.Length
      modifies this`queue, bitRefs
      ensures found == (val in old(queue))
      ensures queue == if alg == Lru then Drop(old(queue), val) else old(queue)
      ensures forall p :: 0 <= p < bitRefs.Length ==>
                bitRefs[p] == if found && p == val && alg in {SecondChance, CircularQueue} then Up() else old(bitRefs[p])
    {
      var temp: seq<nat> := [];
      ghost var done: seq<nat> := [];
      found := false;
      while |queue| > 0
        invariant old(queue) == done + queue
        invariant found == (val in done)
        invariant temp == if alg == Lru then Drop(done, val) else done
        invariant forall p :: 0 <= p < bitRefs.Length ==>
                    bitRefs[p] == if found && p == val && alg in {SecondChance, CircularQueue} then Up() else old(bitRefs[p])
        decreases |queue|
      {
        var v := queue[0];
        queue := queue[1..];
        done := done + [v];
        if v != val {
          temp := temp + [v];
        } else {
          if alg != Lru { temp := temp + [v]; }
          if alg == SecondChance { bitRefs[val] := 1; }
          if alg == CircularQueue { bitRefs[val] := 0; }
          found := true;
        }
      }
      assert done == old(queue);
      Refill(temp);
    }

    /** The second half of both searches: move the temporary queue back. */
    method Refill(t: seq<nat>)
      requires queue == []
      modifies this`queue
      ensures queue == t
    {
      var temp := t;
      while |temp| > 0
        invariant t == queue + temp
        decreases |temp|
      {
        var v := temp[0];
        temp := temp[1..];
        queue := queue + [v];
      }
    }

    /** The eviction loop shared by the two clock policies: rotate while the head is marked. */
    method EvictMarked()
      requires Frame() && Bits() && NoDup(queue) && queue != []
      modifies this`queue, bitRefs
      ensures Bits()
      ensures Clock(queue, Marked()) == Sweep(Clock(old(queue), old(Marked())))
      ensures forall p :: p in queue ==> p in old(queue)
      ensures forall p :: 0 <= p < bitRefs.Length && p !in old(queue) ==> bitRefs[p] == old(bitRefs[p])
    {
      ghost var q, m := queue, Marked();
      ghost var n := FirstUnmarked(q, m);
      ghost var i := 0;
      var temp := queue[0];
      queue := queue[1..];
      while bitRefs[temp] == Up()
        invariant 0 <= i <= n
        invariant temp == (if i < |q| then q[i] else q[0])
        invariant temp in q && temp < bitRefs.Length
        invariant queue == Rotated(q, i)
        invariant forall p :: 0 <= p < bitRefs.Length ==>
                    bitRefs[p] == if p in q[..i] then 1 - Up() else old(bitRefs[p])
        decreases n - i
      {
        assert i < |q| && q[i] in m by {
          assert q[..|q|] == q;
          assert temp !in q[..i];
        }
        bitRefs[temp] := 1 - Up();
        queue := queue + [temp];
        RotateStep(q, i);
        i := i + 1;
        temp := queue[0];
        queue := queue[1..];
      }
      assert i == n by {
        if i < |q| { assert q[i] !in q[..i] && q[i] !in m; }
      }
      RotatedElements(q, n);
      assert forall p :: p in queue ==> p < bitRefs.Length;
      assert Marked() == m - Elements(q[..n]);
    }

    method FindElemFreq(val: nat) returns (found: bool)
      modifies this`freqQueue
      ensures freqQueue == Touch(old(freqQueue), val, step)
      ensures found == Holds(old(freqQueue), val)
    {
      var temp: seq<FreqPage> := [];
      ghost var q := freqQueue;
      ghost var n := 0;
      found := false;
      while |freqQueue| > 0
        invariant n <= |q| && freqQueue == q[n..]
        invariant temp == Touch(q, val, step)[..n]
        invariant found == exists i :: 0 <= i < n && q[i].page == val
        decreases |freqQueue|
      {
        var v := freqQueue[0];
        freqQueue := freqQueue[1..];
        if v.page != val {
          temp := temp + [v];
        } else {
          temp := temp + [FreqPage(v.uses + 1, v.page, step)];
          found := true;
        }
        n := n + 1;
      }
      assert temp == Touch(q, val, step);
      while |temp| > 0
        invariant freqQueue + temp == Touch(q, val, step)
        decreases |temp|
      {
        var v := temp[0];
        temp := temp[1..];
        freqQueue := freqQueue + [v];
      }
    }

    /** FIFO and LRU requests. */
    method RequestPlain(page: nat) returns (fault: bool)
      requires alg in {Fifo, Lru} && maxSize >= 1
      modifies this`queue, this`loaded, bitRefs
      ensures fault == (page !in old(queue)) && page in queue
      ensures queue == if alg == Lru then LruStep(old(queue), maxSize, page) else FifoStep(old(queue), maxSize, page)
      ensures loaded == old(loaded) + if fault then [page] else []
    {
      var found := FindElem(page);
      if found {
        if alg == Lru { queue := queue + [page]; }
      } else {
        DropAbsent(old(queue), page);
        SimGetPage(page);
        if |queue| == maxSize {
          queue := queue[1..];
          queue := queue + [page];
        } else {
          queue := queue + [page];
        }
      }
      fault := !found;
    }

    /** Second-chance and circular-queue requests. */
    method RequestClock(page: nat) returns (fault: bool)
      requires alg in {SecondChance, CircularQueue} && page < PAGES
      requires Frame() && Bits() && ClockOk(Clock(queue, Marked()), maxSize)
      modifies this`queue, this`loaded, bitRefs
      ensures fault == (page !in old(queue)) && page in queue
      ensures Bits()
      ensures Clock(queue, Marked()) == ClockStep(Clock(old(queue), old(Marked())), maxSize, page, alg == CircularQueue)
      ensures loaded == old(loaded) + if fault then [page] else []
    {
      ghost var m := Marked();
      if alg == CircularQueue { bitRefs[page] := 0; }
      var found := FindElem(page);
      if found {
        assert Marked() == m + {page};
      } else {
        assert Marked() == m;
        LoadClock(page);
      }
      fault := !found;
    }

    /** The fault path of the clock policies: evict when full, then append. */
    method LoadClock(page: nat)
      requires alg in {SecondChance, CircularQueue} && page < PAGES && page !in queue
      requires alg == CircularQueue ==> bitRefs.Length == PAGES && bitRefs[page] == 0
      requires Frame() && Bits() && ClockOk(Clock(queue, Marked()), maxSize)
      modifies this`queue, this`loaded, bitRefs
      ensures Bits() && page in queue
      ensures Clock(queue, Marked()) == ClockStep(Clock(old(queue), old(Marked())), maxSize, page, alg == CircularQueue)
      ensures loaded == old(loaded) + [page]
    {
      ghost var c, onLoad := Clock(queue, Marked()), alg == CircularQueue;
      SimGetPage(page);
      MakeRoom(page);
      assert ClockStep(c, maxSize, page, onLoad) == Load(Clock(queue, Marked()), page, onLoad);
      AppendLoaded(page);
    }

    /** Evicts only when every frame is taken; the bit of an absent page stays as it is. */
    method MakeRoom(page: nat)
      requires page < bitRefs.Length && page !in queue
      requires Frame() && Bits() && ClockOk(Clock(queue, Marked()), maxSize)
      modifies this`queue, bitRefs
      ensures Bits() && page !in queue && bitRefs[page] == old(bitRefs[page])
      ensures Clock(queue, Marked()) ==
              if |old(queue)| == maxSize then Sweep(Clock(old(queue), old(Marked())))
              else Clock(old(queue), old(Marked()))
    {
      if |queue| == maxSize { EvictMarked(); }
    }

    method AppendLoaded(page: nat)
      requires alg in {SecondChance, CircularQueue} && page < bitRefs.Length && page !in queue
      requires alg == CircularQueue ==> bitRefs[page] == 0
      requires Bits()
      modifies this`queue
      ensures Bits() && page in queue
      ensures Clock(queue, Marked()) == Load(Clock(old(queue), old(Marked())), page, alg == CircularQueue)
    {
      ghost var m := Marked();
      queue := queue + [page];
      assert Marked() == if alg == CircularQueue then m + {page} else m;
    }

    /** Least-frequently-used requests; a full queue loses its head. */
    method RequestLfu(page: nat) returns (fault: bool)
      requires alg == Lfu && page < PAGES && Frame() && step == |log|
      requires LfuOk(freqQueue, freqList[..], log, maxSize)
      modifies this`freqQueue, this`loaded, freqList
      ensures fault == !Holds(old(freqQueue), page)
      ensures LfuOk(freqQueue, freqList[..], log + [Ref(page, fault)], maxSize)
      ensures forall x :: Holds(freqQueue, x) <==>
                x == page || (Holds(old(freqQueue), x) &&
                              !(fault && |old(freqQueue)| == maxSize && x == old(freqQueue)[0].page))
      ensures loaded == old(loaded) + if fault then [page] else []
    {
      ghost var q, f := freqQueue, freqList[..];
      freqList[page] := freqList[page] + 1;
      assert freqList[..] == f[page := f[page] + 1];
      var found := FindElemFreq(page);
      if found {
        LfuHit(q, f, log, page);
      } else {
        assert freqQueue == q by { assert forall i :: 0 <= i < |q| ==> freqQueue[i] == q[i]; }
        SimGetPage(page);
        var p := FreqPage(freqList[page], page, step);
        if |freqQueue| == maxSize {
          LfuEvict(q, f, log);
          LfuLoad(q[1..], f[q[0].page := 0], log, page);
          var t := freqQueue[0];
          freqQueue := freqQueue[1..];
          freqList[t.page] := 0;
          freqQueue := freqQueue + [p];
          assert freqList[..] == f[q[0].page := 0][page := 1];
        } else {
          LfuLoad(q, f, log, page);
          freqQueue := freqQueue + [p];
          assert freqList[..] == f[page := 1];
        }
      }
      fault := !found;
      ghost var q' := freqQueue;
      var sorted := QueueSort(freqQueue);
      freqQueue := sorted;
      LfuReorder(q', freqQueue, freqList[..], log + [Ref(page, fault)]);
    }

    method ServePlain(page: nat)
      requires Valid() && alg in {Fifo, Lru}
      modifies this, bitRefs
      ensures Valid() && Resident(page)
      ensures log == old(log) + [Ref(page, !old(Resident(page)))]
      ensures loaded == old(loaded) + if old(Resident(page)) then [] else [page]
    {
      ghost var h := Pages(log);
      var fault := RequestPlain(page);
      RunsSnoc(h, page, maxSize);
      Record(page, fault);
    }

    /** The end of a request: the step counter and the log go one further. */
    method Record(page: nat, ghost fault: bool)
      modifies this`step, this`log
      ensures step == old(step) + 1 && log == old(log) + [Ref(page, fault)]
      ensures Pages(log) == old(Pages(log)) + [page]
    {
      PagesSnoc(log, Ref(page, fault));
      step := step + 1;
      log := log + [Ref(page, fault)];
    }

    method ServeClock(page: nat)
      requires Valid() && alg in {SecondChance, CircularQueue} && page < PAGES
      modifies this, bitRefs
      ensures Valid() && Resident(page)
      ensures log == old(log) + [Ref(page, !old(Resident(page)))]
      ensures loaded == old(loaded) + if old(Resident(page)) then [] else [page]
    {
      ServeMarked(page);
    }

    method ServeMarked(page: nat)
      requires ClockValid() && page < PAGES
      modifies this, bitRefs
      ensures ClockValid() && page in queue
      ensures log == old(log) + [Ref(page, page !in old(queue))]
      ensures loaded == old(loaded) + if page in old(queue) then [] else [page]
    {
      ghost var h, onLoad := Pages(log), alg == CircularQueue;
      ClockRunOk(h, maxSize, onLoad);
      RunsSnoc(h, page, maxSize);
      var fault := RequestClock(page);
      Record(page, fault);
    }

    method ServeLfu(page: nat)
      requires Valid() && alg == Lfu && page < PAGES
      modifies this, freqList
      ensures Valid() && Resident(page)
      ensures log == old(log) + [Ref(page, !old(Resident(page)))]
      ensures loaded == old(loaded) + if old(Resident(page)) then [] else [page]
      ensures forall x :: Resident(x) <==> x == page || (old(Resident(x)) && !old(IsVictim(page, x)))
    {
      var fault := RequestLfu(page);
      step := step + 1;
      log := log + [Ref(page, fault)];
    }

    /** Under LFU, requesting `page` evicts `x`: the frames are full and `x` heads the queue. */
    ghost predicate IsVictim(page: nat, x: nat)
      reads this
    {
      !Holds(freqQueue, page) && |freqQueue| == maxSize && maxSize > 0 && x == freqQueue[0].page
    }

    /** One request. Afterwards the page is resident, the log has grown by this request with
        its true outcome, and `Valid` again ties the whole state to the whole log. */
    method Request(page: nat)
      requires Valid()
      requires alg in {Lfu, SecondChance, CircularQueue} ==> page < PAGES
      modifies this, freqList, bitRefs
      ensures Valid() && Resident(page)
      ensures log == old(log) + [Ref(page, !old(Resident(page)))]
      ensures loaded == old(loaded) + if old(Resident(page)) then [] else [page]
      ensures alg == Lfu ==>
                forall x :: Resident(x) <==> x == page || (old(Resident(x)) && !old(IsVictim(page, x)))
    {
      if alg in {Fifo, Lru} {
        ServePlain(page);
      } else if alg == Lfu {
        ServeLfu(page);
      } else {
        ServeClock(page);
      }
    }

    /** `queue_sort` is known only by its interface: some ordered permutation. */
    method QueueSort(q: seq<FreqPage>) returns (r: seq<FreqPage>)
      ensures SortedFreq(r) && multiset(r) == multiset(q)
      ensures DistinctPages(q) ==> DistinctPages(r)
    {
      r := [];
      for n := 0 to |q|
        invariant SortedFreq(r) && multiset(r) == multiset(q[..n])
        invariant DistinctPages(q) ==> DistinctPages(r)
      {
        assert q[..n + 1] == q[..n] + [q[n]];
        if DistinctPages(q) { NewPage(q, n, r); }
        r := InsertSorted(r, q[n]);
      }
      assert q[..|q|] == q;
    }

    method InsertSorted(r: seq<FreqPage>, e: FreqPage) returns (s: seq<FreqPage>)
      requires SortedFreq(r)
      ensures SortedFreq(s) && multiset(s) == multiset(r) + multiset{e}
      ensures DistinctPages(r) && !Holds(r, e.page) ==> DistinctPages(s)
    {
      var k := 0;
      while k < |r| && SortFreq(r[k], e) <= 0
        invariant k <= |r|
        invariant forall j :: 0 <= j < k ==> SortFreq(r[j], e) <= 0
      {
        k := k + 1;
      }
      s := Inserted(r, k, e);
      InsertedContents(r, k, e);
      if DistinctPages(r) && !Holds(r, e.page) { InsertedDistinct(r, k, e); }
    }
  }

  /** Of two LRU pagers that served the same requests, the one with more frames loaded no more pages. */
  lemma MoreFramesFewerLoads(p: Pager, q: Pager)
    requires p.Valid() && q.Valid() && p.alg == Lru && q.alg == Lru
    requires p.maxSize <= q.maxSize && Pages(p.log) == Pages(q.log)
    ensures |q.loaded| <= |p.loaded|
  {
    LruFaultsMonotone(Pages(p.log), p.maxSize, q.maxSize);
  }

  function Inserted(r: seq<FreqPage>, k: nat, e: FreqPage): seq<FreqPage>
    requires k <= |r|
  {
    r[..k] + [e] + r[k..]
  }

  lemma InsertedContents(r: seq<FreqPage>, k: nat, e: FreqPage)
    requires k <= |r|
    ensures multiset(Inserted(r, k, e)) == multiset(r) + multiset{e}
  {
    assert r == r[..k] + r[k..];
  }

  lemma InsertedDistinct(r: seq<FreqPage>, k: nat, e: FreqPage)
    requires k <= |r| && DistinctPages(r) && !Holds(r, e.page)
    ensures DistinctPages(Inserted(r, k, e))
  {
    var s := Inserted(r, k, e);
    forall i, j | 0 <= i < j < |s| ensures s[i].page != s[j].page {
      if i != k && j != k {
        assert s[i] == r[if i < k then i else i - 1] && s[j] == r[if j < k then j else j - 1];
      } else {
        assert if i == k then s[j] == r[j - 1] else s[i] == r[i];
      }
    }
  }

  lemma NewPage(q: seq<FreqPage>, n: nat, r: seq<FreqPage>)
    requires n < |q| && DistinctPages(q) && multiset(r) == multiset(q[..n])
    ensures !Holds(r, q[n].page)
  {
    forall j | 0 <= j < |r| ensures r[j].page != q[n].page {
      assert r[j] in multiset(r);
      assert r[j] in q[..n];
    }
  }

  /** Under the clock policies the pager's own queue is in the order in which its pages were last put in,
      and the marked ones are those requested since, by the account its log alone gives. */
  lemma ClockPagerInPutOrder(a: Pager, r: Puts)
    requires a.alg in {SecondChance, CircularQueue} && a.Valid()
    requires PutsAre(Pages(a.log), a.maxSize, a.alg == CircularQueue, r)
    ensures forall p :: p in a.queue ==> p < a.bitRefs.Length
    ensures Shows(Pages(a.log), Clock(a.queue, a.Marked()), r, a.alg == CircularQueue)
  {
    ClockIsPutOrder(Pages(a.log), a.maxSize, a.alg == CircularQueue, r);
  }
}
