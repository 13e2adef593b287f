/** The four-way merge sort of Assignment2/sort.c under every interleaving of its threads.
    A thread's pending calls form a stack; one step reads at most one array element or writes
    at most one. */
module MergeSortThreads {
  import opened Wrappers
  import opened MergeSort

  /** `Merging` is a merge under way: `x` and `y` are the heads of the two parts once read, `out`
      what has come out so far. `Copying` writes `out` back, from its element `k` on. */
  datatype Call =
    | SortCall(l: nat, r: int)
    | MergeCall(l: nat, m: int, r: int)
    | Merging(l: nat, m: int, r: int, i: nat, j: nat, x: Option<int>, y: Option<int>, out: seq<int>)
    | Copying(l: nat, out: seq<int>, k: nat)

  /** The call works on elements lo to hi only. */
  predicate Fits(it: Call, lo: nat, hi: int) {
    match it
    case SortCall(l, r) => lo <= l <= r + 1 && r <= hi
    case MergeCall(l, m, r) => lo <= l <= m + 1 <= r + 1 && r <= hi
    case Merging(l, m, r, i, j, x, y, out) =>
      lo <= l <= i <= m + 1 <= j <= r + 1 && r <= hi && |out| == i - l + j - (m + 1)
      && (x.Some? ==> i <= m) && (y.Some? ==> j <= r)
    case Copying(l, out, k) => lo <= l && l + |out| <= hi + 1 && k <= |out|
  }

  /** A thread's pending calls, the next one on top. */
  datatype Stack = Done | Push(top: Call, rest: Stack)

  predicate AllFit(stack: Stack, lo: nat, hi: int) {
    stack.Done? || (Fits(stack.top, lo, hi) && AllFit(stack.rest, lo, hi))
  }

  /** What one step does to the array: only copying writes. */
  function Effect(c: seq<int>, it: Call): (d: seq<int>)
    requires Fits(it, 0, |c| - 1)
    ensures |d| == |c|
  {
    if it.Copying? && it.k < |it.out| then c[it.l + it.k := it.out[it.k]] else c
  }

  /** A merge reads the heads it lacks, takes the smaller one (the first part's on a tie), and
      when both parts are used up goes on to copy. */
  function Advance(c: seq<int>, it: Call): Call
    requires it.Merging? && Fits(it, 0, |c| - 1)
  {
    if it.i <= it.m && it.x.None? then it.(x := Some(c[it.i]))
    else if it.j <= it.r && it.y.None? then it.(y := Some(c[it.j]))
    else if it.i > it.m && it.j > it.r then Copying(it.l, it.out, 0)
    else if it.i <= it.m && (it.j > it.r || it.x.value <= it.y.value) then
      it.(i := it.i + 1, x := None, out := it.out + [it.x.value])
    else it.(j := it.j + 1, y := None, out := it.out + [it.y.value])
  }

  function Middle(l: nat, r: int): (m: nat)
    requires l < r
    ensures l <= m < r
  {
    (l + r) / 2
  }

  /** The step ends its call: a range of at most one element, or the last write done. */
  predicate Ends(it: Call) {
    (it.SortCall? && it.l >= it.r) || (it.Copying? && it.k >= |it.out|)
  }

  predicate Opens(it: Call) { it.SortCall? && it.l < it.r }

  /** Where a call that neither ends nor opens goes on. */
  function Follow(c: seq<int>, it: Call): Call
    requires Fits(it, 0, |c| - 1) && !Ends(it) && !Opens(it)
  {
    if it.MergeCall? then Merging(it.l, it.m, it.r, it.l, it.m + 1, None, None, [])
    else if it.Merging? then Advance(c, it)
    else Copying(it.l, it.out, it.k + 1)
  }

  /** The two sorts and the merge that a sort opens into. */
  function Opened(l: nat, r: int, rest: Stack): Stack
    requires l < r
  {
    var m := Middle(l, r);
    Push(SortCall(l, m), Push(SortCall(m + 1, r), Push(MergeCall(l, m, r), rest)))
  }

  /** The calls a step leaves to do. */
  function Next(c: seq<int>, stack: Stack): Stack
    requires stack.Push? && Fits(stack.top, 0, |c| - 1)
  {
    if Opens(stack.top) then Opened(stack.top.l, stack.top.r, stack.rest)
    else if Ends(stack.top) then stack.rest
    else Push(Follow(c, stack.top), stack.rest)
  }

  // ----- How many steps ------------------------------------------------------------

  /** Merging n elements: a step to begin, two for each element, one to turn to copying, n writes
      and one to end. */
  function MergeSteps(n: int): int { 3 * n + 3 }

  /** Sorting: a step to open, both halves and their merge; one step for a range of at most one. */
  function SortSteps(l: nat, r: int): (w: int)
    ensures w >= 1
    decreases r - l
  {
    if l >= r then 1
    else 1 + SortSteps(l, Middle(l, r)) + SortSteps(Middle(l, r) + 1, r) + MergeSteps(r + 1 - l)
  }

  function AtLeastOne(w: int): nat { if w < 1 then 1 else w }

  /** The steps a call has still to take. */
  function CallSteps(it: Call): (w: nat)
    ensures w >= 1
  {
    match it
    case SortCall(l, r) => SortSteps(l, r)
    case MergeCall(l, _, r) => AtLeastOne(MergeSteps(r + 1 - l))
    case Merging(l, m, r, i, j, x, y, _) =>
      AtLeastOne(2 * (m + 1 - i + r + 1 - j) - (if x.Some? then 1 else 0) - (if y.Some? then 1 else 0)
                 + r + 1 - l + 2)
    case Copying(_, out, k) => AtLeastOne(|out| - k + 1)
  }

  function Steps(stack: Stack): nat {
    if stack.Done? then 0 else CallSteps(stack.top) + Steps(stack.rest)
  }

  lemma AdvanceSteps(c: seq<int>, it: Call)
    requires it.Merging? && Fits(it, 0, |c| - 1)
    ensures CallSteps(Advance(c, it)) == CallSteps(it) - 1
  {
  }

  lemma OpenSteps(l: nat, r: nat, rest: Stack)
    requires l < r
    ensures Steps(Opened(l, r, rest)) == SortSteps(l, r) - 1 + Steps(rest)
  {
    var m := Middle(l, r);
    StepsPush(SortCall(l, m), Push(SortCall(m + 1, r), Push(MergeCall(l, m, r), rest)));
    StepsPush(SortCall(m + 1, r), Push(MergeCall(l, m, r), rest));
    StepsPush(MergeCall(l, m, r), rest);
  }

  lemma StepsPush(it: Call, rest: Stack)
    ensures Steps(Push(it, rest)) == CallSteps(it) + Steps(rest)
  {
  }

  lemma FollowSteps(c: seq<int>, it: Call)
    requires Fits(it, 0, |c| - 1) && !Ends(it) && !Opens(it)
    ensures CallSteps(Follow(c, it)) == CallSteps(it) - 1
  {
    if it.Merging? { AdvanceSteps(c, it); }
  }

  lemma PushedSteps(it: Call, next: Call, rest: Stack)
    requires CallSteps(next) == CallSteps(it) - 1
    ensures Steps(Push(next, rest)) == Steps(Push(it, rest)) - 1
  {
    StepsPush(it, rest);
    StepsPush(next, rest);
  }

  lemma EndSteps(it: Call, rest: Stack, lo: nat, hi: int)
    requires Fits(it, lo, hi) && Ends(it)
    ensures Steps(rest) == Steps(Push(it, rest)) - 1
  {
    StepsPush(it, rest);
  }

  lemma NextSteps(c: seq<int>, stack: Stack)
    requires stack.Push? && Fits(stack.top, 0, |c| - 1)
    ensures Steps(Next(c, stack)) == Steps(stack) - 1
  {
    var it, rest := stack.top, stack.rest;
    if Opens(it) {
      OpenSteps(it.l, it.r, rest);
      StepsPush(it, rest);
    } else if Ends(it) {
      EndSteps(it, rest, 0, |c| - 1);
    } else {
      FollowSteps(c, it);
      PushedSteps(it, Follow(c, it), rest);
    }
  }

  lemma AdvanceFits(c: seq<int>, it: Call, lo: nat, hi: int)
    requires it.Merging? && Fits(it, lo, hi) && hi < |c|
    ensures Fits(it, 0, |c| - 1) && Fits(Advance(c, it), lo, hi)
  {
  }

  lemma NextFits(c: seq<int>, stack: Stack, lo: nat, hi: int)
    requires stack.Push? && AllFit(stack, lo, hi) && hi < |c|
    ensures Fits(stack.top, 0, |c| - 1) && AllFit(Next(c, stack), lo, hi)
  {
    if stack.top.Merging? { AdvanceFits(c, stack.top, lo, hi); }
  }

  lemma {:induction false} Widen(stack: Stack, lo: nat, hi: int, n: nat)
    requires AllFit(stack, lo, hi) && hi < n
    ensures AllFit(stack, 0, n - 1)
  {
    if stack.Done? {
    } else {
      Widen(stack.rest, lo, hi, n);
    }
  }

  // ----- What a thread touches -------------------------------------------------------

  /** A step writes nothing outside its thread's range. */
  lemma EffectOutside(c: seq<int>, it: Call, lo: nat, hi: int, k: nat)
    requires Fits(it, lo, hi) && hi < |c| && k < |c| && (k < lo || hi < k)
    ensures Fits(it, 0, |c| - 1) && Effect(c, it)[k] == c[k]
  {
  }

  /** And what it writes and does next depends on that range alone: it reads nothing outside. */
  lemma StepLocal(c: seq<int>, d: seq<int>, stack: Stack, lo: nat, hi: int)
    requires stack.Push? && AllFit(stack, lo, hi) && hi < |c| && Agree(c, d, lo, hi)
    ensures Fits(stack.top, 0, |c| - 1) && Next(c, stack) == Next(d, stack)
    ensures Agree(Effect(c, stack.top), Effect(d, stack.top), lo, hi)
  {
  }

  // ----- What a thread computes ------------------------------------------------------

  /** The array as a merge sees it: heads already read are the values that were read. */
  function Seen(c: seq<int>, it: Call): (d: seq<int>)
    requires it.Merging? && Fits(it, 0, |c| - 1)
    ensures |d| == |c|
  {
    var c1 := if it.x.Some? then c[it.i := it.x.value] else c;
    if it.y.Some? then c1[it.j := it.y.value] else c1
  }

  /** What comes out of a merge in all. */
  function MergeOutput(c: seq<int>, it: Call): (s: seq<int>)
    requires it.Merging? && Fits(it, 0, |c| - 1)
    ensures |s| == it.r + 1 - it.l
  {
    it.out + MergedFrom(Seen(c, it), it.i, it.m, it.j, it.r)
  }

  /** What a call does from where it is to its end. */
  ghost function Whole(c: seq<int>, it: Call): (d: seq<int>)
    requires Fits(it, 0, |c| - 1)
    ensures |d| == |c|
  {
    match it
    case SortCall(l, r) => SortRange(c, l, r)
    case MergeCall(l, m, r) => MergeRange(c, l, m, r)
    case Merging(l, _, _, _, _, _, _, _) => Replace(c, l, MergeOutput(c, it))
    case Copying(l, out, k) => Replace(c, l + k, out[k..])
  }

  /** What a thread's calls do, one after the other. */
  ghost function Outcome(c: seq<int>, stack: Stack): (d: seq<int>)
    requires AllFit(stack, 0, |c| - 1)
    ensures |d| == |c|
    decreases stack
  {
    if stack.Done? then c else Outcome(Whole(c, stack.top), stack.rest)
  }

  lemma {:induction false} MergedFromLocal(c: seq<int>, d: seq<int>, i: nat, m: int, j: nat, r: int)
    requires i <= m + 1 <= j <= r + 1 <= |c| && Agree(c, d, i, m) && Agree(c, d, j, r)
    ensures MergedFrom(c, i, m, j, r) == MergedFrom(d, i, m, j, r)
    decreases m + 1 - i + r + 1 - j
  {
    if i > m && j > r {
    } else if i <= m && (j > r || c[i] <= c[j]) {
      MergedFromLocal(c, d, i + 1, m, j, r);
    } else {
      MergedFromLocal(c, d, i, m, j + 1, r);
    }
  }

  lemma ReplaceLocal(c: seq<int>, d: seq<int>, i: nat, s: seq<int>, lo: nat, hi: int)
    requires i + |s| <= |c| && Agree(c, d, lo, hi)
    ensures Agree(Replace(c, i, s), Replace(d, i, s), lo, hi)
  {
  }

  lemma OutputLocal(c: seq<int>, d: seq<int>, it: Call, lo: nat, hi: int)
    requires it.Merging? && Fits(it, lo, hi) && hi < |c| && Agree(c, d, lo, hi)
    ensures Fits(it, 0, |c| - 1) && MergeOutput(c, it) == MergeOutput(d, it)
  {
    MergedFromLocal(Seen(c, it), Seen(d, it), it.i, it.m, it.j, it.r);
  }

  lemma SortLocal(c: seq<int>, d: seq<int>, l: nat, r: int, lo: nat, hi: int)
    requires lo <= l <= r + 1 && r <= hi < |c| && Agree(c, d, lo, hi)
    ensures Agree(SortRange(c, l, r), SortRange(d, l, r), lo, hi)
  {
    assert c[l..r + 1] == d[l..r + 1];
    ReplaceLocal(c, d, l, SortSeq(c[l..r + 1]), lo, hi);
  }

  lemma MergeLocal(c: seq<int>, d: seq<int>, l: nat, m: int, r: int, lo: nat, hi: int)
    requires lo <= l <= m + 1 <= r + 1 && r <= hi < |c| && Agree(c, d, lo, hi)
    ensures Agree(MergeRange(c, l, m, r), MergeRange(d, l, m, r), lo, hi)
  {
    assert c[l..m + 1] == d[l..m + 1] && c[m + 1..r + 1] == d[m + 1..r + 1];
    ReplaceLocal(c, d, l, Merged(c[l..m + 1], c[m + 1..r + 1]), lo, hi);
  }

  lemma WholeLocal(c: seq<int>, d: seq<int>, it: Call, lo: nat, hi: int)
    requires Fits(it, lo, hi) && hi < |c| && Agree(c, d, lo, hi)
    ensures Fits(it, 0, |c| - 1) && Agree(Whole(c, it), Whole(d, it), lo, hi)
  {
    if it.SortCall? {
      SortLocal(c, d, it.l, it.r, lo, hi);
    } else if it.MergeCall? {
      MergeLocal(c, d, it.l, it.m, it.r, lo, hi);
    } else if it.Merging? {
      OutputLocal(c, d, it, lo, hi);
      ReplaceLocal(c, d, it.l, MergeOutput(c, it), lo, hi);
    } else {
      ReplaceLocal(c, d, it.l + it.k, it.out[it.k..], lo, hi);
    }
  }

  lemma {:induction false} OutcomeLocal(c: seq<int>, d: seq<int>, stack: Stack, lo: nat, hi: int)
    requires AllFit(stack, lo, hi) && hi < |c| && Agree(c, d, lo, hi)
    requires AllFit(stack, 0, |c| - 1)
    ensures Agree(Outcome(c, stack), Outcome(d, stack), lo, hi)
    decreases stack
  {
    if stack.Done? {
    } else {
      WholeLocal(c, d, stack.top, lo, hi);
      OutcomeLocal(Whole(c, stack.top), Whole(d, stack.top), stack.rest, lo, hi);
    }
  }

  lemma OutcomePush(c: seq<int>, it: Call, rest: Stack)
    requires Fits(it, 0, |c| - 1) && AllFit(rest, 0, |c| - 1)
    ensures Outcome(c, Push(it, rest)) == Outcome(Whole(c, it), rest)
  {
  }

  // ----- A step keeps what its thread computes -----------------------------------------

  lemma OpenedFits(l: nat, r: int, rest: Stack, n: nat)
    requires l < r < n && AllFit(rest, 0, n - 1)
    ensures AllFit(Opened(l, r, rest), 0, n - 1)
  {
  }

  /** Opening a sort keeps what the calls will do. */
  lemma OpenKeepsOutcome(c: seq<int>, l: nat, r: int, rest: Stack)
    requires l < r < |c| && AllFit(rest, 0, |c| - 1) && AllFit(Opened(l, r, rest), 0, |c| - 1)
    ensures Outcome(c, Opened(l, r, rest)) == Outcome(SortRange(c, l, r), rest)
  {
    OpenedOutcome(c, l, Middle(l, r), r, rest, Opened(l, r, rest));
  }

  lemma OpenedOutcome(c: seq<int>, l: nat, m: nat, r: int, rest: Stack, calls: Stack)
    requires l <= m < r < |c| && AllFit(rest, 0, |c| - 1)
    requires calls == Push(SortCall(l, m), Push(SortCall(m + 1, r), Push(MergeCall(l, m, r), rest)))
    ensures Outcome(c, calls) == Outcome(SortRange(c, l, r), rest)
  {
    SecondHalfOutcome(c, SortRange(c, l, m), l, m, r, rest);
    FirstHalfOutcome(c, l, m, calls.rest, Outcome(SortRange(c, l, r), rest));
  }

  lemma FirstHalfOutcome(c: seq<int>, l: nat, m: int, second: Stack, d: seq<int>)
    requires l <= m + 1 <= |c| && AllFit(second, 0, |c| - 1) && Outcome(SortRange(c, l, m), second) == d
    ensures Outcome(c, Push(SortCall(l, m), second)) == d
  {
  }

  lemma SecondHalfOutcome(c: seq<int>, c1: seq<int>, l: nat, m: nat, r: int, rest: Stack)
    requires l <= m < r < |c| && AllFit(rest, 0, |c| - 1) && c1 == SortRange(c, l, m)
    ensures Outcome(c1, Push(SortCall(m + 1, r), Push(MergeCall(l, m, r), rest))) == Outcome(SortRange(c, l, r), rest)
  {
    SortOutcome(c1, m + 1, r, Push(MergeCall(l, m, r), rest));
    MergeOutcome(c, SortRange(c1, m + 1, r), l, m, r, rest);
  }

  lemma SortOutcome(c: seq<int>, l: nat, r: int, rest: Stack)
    requires l <= r + 1 <= |c| && AllFit(rest, 0, |c| - 1)
    ensures Outcome(c, Push(SortCall(l, r), rest)) == Outcome(SortRange(c, l, r), rest)
  {
  }

  lemma MergeOutcome(c: seq<int>, c2: seq<int>, l: nat, m: nat, r: int, rest: Stack)
    requires l <= m < r < |c| && AllFit(rest, 0, |c| - 1) && c2 == SortedHalves(c, l, m, r)
    ensures Outcome(c2, Push(MergeCall(l, m, r), rest)) == Outcome(SortRange(c, l, r), rest)
  {
    OutcomePush(c2, MergeCall(l, m, r), rest);
    SortRangeSplits(c, l, m, r);
  }

  /** Beginning a merge keeps what it will write. */
  lemma BeginKeepsWhole(c: seq<int>, l: nat, m: int, r: int)
    requires l <= m + 1 <= r + 1 <= |c|
    ensures Whole(c, Merging(l, m, r, l, m + 1, None, None, [])) == MergeRange(c, l, m, r)
  {
    BeginOutput(c, l, m, r);
  }

  lemma BeginOutput(c: seq<int>, l: nat, m: int, r: int)
    requires l <= m + 1 <= r + 1 <= |c|
    ensures MergeOutput(c, Merging(l, m, r, l, m + 1, None, None, [])) == Merged(c[l..m + 1], c[m + 1..r + 1])
  {
    MergedFromIs(c, l, m, m + 1, r);
    assert [] + MergedFrom(c, l, m, m + 1, r) == MergedFrom(c, l, m, m + 1, r);
  }

  /** Reading a head changes nothing of what the merge sees. */
  lemma ReadKeepsOutput(c: seq<int>, it: Call)
    requires it.Merging? && Fits(it, 0, |c| - 1)
    requires (it.i <= it.m && it.x.None?) || (it.j <= it.r && it.y.None?)
    ensures Advance(c, it).Merging? && Fits(Advance(c, it), 0, |c| - 1)
    ensures MergeOutput(c, Advance(c, it)) == MergeOutput(c, it)
  {
    assert Seen(c, Advance(c, it)) == Seen(c, it);
  }

  /** The merge has read the heads of what is left of its parts. */
  predicate HasHeads(c: seq<int>, it: Call) {
    it.Merging? && Fits(it, 0, |c| - 1) && (it.i <= it.m || it.j <= it.r)
    && (it.i <= it.m ==> it.x.Some?) && (it.j <= it.r ==> it.y.Some?)
  }

  /** Whether the first part's head comes next. */
  predicate FirstIsNext(it: Call)
    requires it.Merging? && (it.i <= it.m ==> it.x.Some?) && (it.j <= it.r ==> it.y.Some?)
  {
    it.i <= it.m && (it.j > it.r || it.x.value <= it.y.value)
  }

  /** What the merge still sees of the parts after a head is taken. */
  lemma TakenSeen(c: seq<int>, it: Call)
    requires HasHeads(c, it)
    ensures var next := Advance(c, it);
            && next.Merging? && Fits(next, 0, |c| - 1) && next.m == it.m && next.r == it.r
            && Agree(Seen(c, it), Seen(c, next), next.i, it.m) && Agree(Seen(c, it), Seen(c, next), next.j, it.r)
  {
  }

  lemma TakeFirst(c: seq<int>, it: Call)
    requires HasHeads(c, it) && FirstIsNext(it)
    ensures var s := Seen(c, it);
            it.out + MergedFrom(s, it.i, it.m, it.j, it.r)
            == (it.out + [it.x.value]) + MergedFrom(s, it.i + 1, it.m, it.j, it.r)
  {
    MergedFromStep(Seen(c, it), it.i, it.m, it.j, it.r, it.out);
  }

  lemma TakeSecond(c: seq<int>, it: Call)
    requires HasHeads(c, it) && !FirstIsNext(it)
    ensures it.j <= it.r
    ensures var s := Seen(c, it);
            it.out + MergedFrom(s, it.i, it.m, it.j, it.r)
            == (it.out + [it.y.value]) + MergedFrom(s, it.i, it.m, it.j + 1, it.r)
  {
    MergedFromStep(Seen(c, it), it.i, it.m, it.j, it.r, it.out);
  }

  /** Taking the smaller head moves it from what is to come to what has come. */
  lemma TakeKeepsOutput(c: seq<int>, it: Call)
    requires HasHeads(c, it)
    ensures Advance(c, it).Merging? && Fits(Advance(c, it), 0, |c| - 1)
    ensures MergeOutput(c, Advance(c, it)) == MergeOutput(c, it)
  {
    var next := Advance(c, it);
    TakenSeen(c, it);
    MergedFromLocal(Seen(c, it), Seen(c, next), next.i, it.m, next.j, it.r);
    if FirstIsNext(it) { TakeFirst(c, it); } else { TakeSecond(c, it); }
  }

  /** With both parts used up, what has come out is all. */
  lemma TurnKeepsWhole(c: seq<int>, it: Call)
    requires it.Merging? && Fits(it, 0, |c| - 1) && it.i > it.m && it.j > it.r
    ensures Whole(c, Copying(it.l, it.out, 0)) == Whole(c, it)
  {
    assert it.out[0..] == it.out && it.out + [] == it.out;
  }

  lemma AdvanceKeepsWhole(c: seq<int>, it: Call)
    requires it.Merging? && Fits(it, 0, |c| - 1)
    ensures Fits(Advance(c, it), 0, |c| - 1) && Whole(c, Advance(c, it)) == Whole(c, it)
  {
    if (it.i <= it.m && it.x.None?) || (it.j <= it.r && it.y.None?) {
      ReadKeepsOutput(c, it);
    } else if it.i <= it.m || it.j <= it.r {
      TakeKeepsOutput(c, it);
    } else {
      TurnKeepsWhole(c, it);
    }
  }

  /** Writing one element leaves the rest to write. */
  lemma WriteKeepsWhole(c: seq<int>, l: nat, out: seq<int>, k: nat)
    requires l + |out| <= |c| && k < |out|
    ensures Replace(c[l + k := out[k]], l + k + 1, out[k + 1..]) == Replace(c, l + k, out[k..])
  {
  }

  lemma NothingToWrite(c: seq<int>, i: nat)
    requires i <= |c|
    ensures Replace(c, i, []) == c
  {
  }

  lemma WriteFollows(c: seq<int>, it: Call)
    requires it.Copying? && Fits(it, 0, |c| - 1) && it.k < |it.out|
    ensures Fits(Follow(c, it), 0, |c| - 1) && Whole(Effect(c, it), Follow(c, it)) == Whole(c, it)
  {
    WriteKeepsWhole(c, it.l, it.out, it.k);
  }

  lemma MergeFollows(c: seq<int>, it: Call)
    requires it.MergeCall? && Fits(it, 0, |c| - 1)
    ensures Fits(Follow(c, it), 0, |c| - 1) && Whole(c, Follow(c, it)) == Whole(c, it)
  {
    BeginKeepsWhole(c, it.l, it.m, it.r);
  }

  /** Going on with a call keeps what it does in all. */
  lemma FollowKeepsWhole(c: seq<int>, it: Call)
    requires Fits(it, 0, |c| - 1) && !Ends(it) && !Opens(it)
    ensures Fits(Follow(c, it), 0, |c| - 1) && Whole(Effect(c, it), Follow(c, it)) == Whole(c, it)
  {
    if it.MergeCall? {
      MergeFollows(c, it);
    } else if it.Merging? {
      AdvanceKeepsWhole(c, it);
    } else {
      WriteFollows(c, it);
    }
  }

  lemma EndKeepsWhole(c: seq<int>, it: Call)
    requires Fits(it, 0, |c| - 1) && Ends(it)
    ensures Whole(c, it) == c && Effect(c, it) == c
  {
    if it.SortCall? {
      NothingToSort(c, it.l, it.r);
    } else {
      assert it.out[it.k..] == [];
      NothingToWrite(c, it.l + it.k);
    }
  }

  lemma OpenStep(c: seq<int>, stack: Stack)
    requires stack.Push? && AllFit(stack, 0, |c| - 1) && Opens(stack.top)
    ensures AllFit(Next(c, stack), 0, |c| - 1) && Outcome(c, Next(c, stack)) == Outcome(c, stack)
  {
    var it := stack.top;
    OutcomePush(c, it, stack.rest);
    OpenedFits(it.l, it.r, stack.rest, |c|);
    OpenKeepsOutcome(c, it.l, it.r, stack.rest);
  }

  lemma EndStep(c: seq<int>, stack: Stack)
    requires stack.Push? && AllFit(stack, 0, |c| - 1) && Ends(stack.top)
    ensures AllFit(Next(c, stack), 0, |c| - 1)
    ensures Outcome(Effect(c, stack.top), Next(c, stack)) == Outcome(c, stack)
  {
    OutcomePush(c, stack.top, stack.rest);
    EndKeepsWhole(c, stack.top);
  }

  lemma FollowStep(c: seq<int>, stack: Stack)
    requires stack.Push? && AllFit(stack, 0, |c| - 1) && !Opens(stack.top) && !Ends(stack.top)
    ensures AllFit(Next(c, stack), 0, |c| - 1)
    ensures Outcome(Effect(c, stack.top), Next(c, stack)) == Outcome(c, stack)
  {
    var it, rest := stack.top, stack.rest;
    FollowKeepsWhole(c, it);
    OutcomePush(c, it, rest);
    OutcomePush(Effect(c, it), Follow(c, it), rest);
  }

  /** A step keeps what a thread's calls will do. */
  lemma StepKeepsOutcome(c: seq<int>, stack: Stack)
    requires stack.Push? && AllFit(stack, 0, |c| - 1)
    ensures AllFit(Next(c, stack), 0, |c| - 1)
    ensures Outcome(Effect(c, stack.top), Next(c, stack)) == Outcome(c, stack)
  {
    if Opens(stack.top) {
      OpenStep(c, stack);
    } else if Ends(stack.top) {
      EndStep(c, stack);
    } else {
      FollowStep(c, stack);
    }
  }

  // ----- Threads in any order ----------------------------------------------------

  /** Thread `j` works on the elements lo[j] to hi[j]; its pending calls are stacks[j]. */
  datatype Threads = Threads(arr: seq<int>, stacks: seq<Stack>, lo: seq<nat>, hi: seq<int>)

  /** Every thread keeps to its range, and the ranges do not overlap. */
  predicate Inv(s: Threads) {
    |s.stacks| == |s.lo| == |s.hi|
    && (forall j :: 0 <= j < |s.lo| ==> s.lo[j] <= s.hi[j] + 1 <= |s.arr|)
    && (forall j :: 0 <= j < |s.lo| ==> AllFit(s.stacks[j], s.lo[j], s.hi[j]))
    && (forall i, j :: 0 <= i < j < |s.lo| ==> s.hi[i] < s.lo[j])
  }

  /** Thread `j` takes a step. */
  function Step(s: Threads, j: nat): Threads
    requires Inv(s) && j < |s.stacks| && s.stacks[j].Push?
  {
    FitsArray(s, j);
    s.(arr := Effect(s.arr, s.stacks[j].top), stacks := s.stacks[j := Next(s.arr, s.stacks[j])])
  }

  lemma FitsArray(s: Threads, j: nat)
    requires Inv(s) && j < |s.stacks|
    ensures AllFit(s.stacks[j], 0, |s.arr| - 1)
    ensures s.stacks[j].Push? ==> Fits(s.stacks[j].top, s.lo[j], s.hi[j]) && Fits(s.stacks[j].top, 0, |s.arr| - 1)
  {
    Widen(s.stacks[j], s.lo[j], s.hi[j], |s.arr|);
  }

  lemma StepInv(s: Threads, j: nat)
    requires Inv(s) && j < |s.stacks| && s.stacks[j].Push?
    ensures Inv(Step(s, j)) && |Step(s, j).arr| == |s.arr|
  {
    FitsArray(s, j);
    NextFits(s.arr, s.stacks[j], s.lo[j], s.hi[j]);
  }

  /** What thread `j` will have made of its range, whatever the others do. */
  ghost function Solo(s: Threads, j: nat): (d: seq<int>)
    requires Inv(s) && j < |s.stacks|
    ensures |d| == |s.arr|
  {
    FitsArray(s, j);
    Outcome(s.arr, s.stacks[j])
  }

  lemma StepKeepsSolo(s: Threads, i: nat, j: nat)
    requires Inv(s) && i < |s.stacks| && s.stacks[i].Push? && j < |s.stacks|
    ensures Inv(Step(s, i)) && |Step(s, i).arr| == |s.arr|
    ensures Agree(Solo(s, j), Solo(Step(s, i), j), s.lo[j], s.hi[j])
  {
    StepInv(s, i);
    FitsArray(s, i);
    FitsArray(s, j);
    var t := Step(s, i);
    if i != j {
      forall k | s.lo[j] <= k <= s.hi[j] && k < |s.arr|
        ensures s.arr[k] == t.arr[k]
      {
        EffectOutside(s.arr, s.stacks[i].top, s.lo[i], s.hi[i], k);
      }
      OutcomeLocal(s.arr, t.arr, s.stacks[j], s.lo[j], s.hi[j]);
    } else {
      StepKeepsOutcome(s.arr, s.stacks[i]);
    }
  }

  predicate Idle(s: Threads) { forall j :: 0 <= j < |s.stacks| ==> s.stacks[j] == Done }

  /** A schedule names the thread that takes each step. */
  predicate Feasible(s: Threads, sched: seq<nat>)
    requires Inv(s)
    decreases sched
  {
    sched == []
    || (sched[0] < |s.stacks| && s.stacks[sched[0]].Push?
        && (StepInv(s, sched[0]); Feasible(Step(s, sched[0]), sched[1..])))
  }

  function After(s: Threads, sched: seq<nat>): (t: Threads)
    requires Inv(s) && Feasible(s, sched)
    ensures Inv(t) && |t.arr| == |s.arr| && t.lo == s.lo && t.hi == s.hi
    decreases sched
  {
    if sched == [] then s
    else
      StepInv(s, sched[0]);
      After(Step(s, sched[0]), sched[1..])
  }

  /** No thread's range covers element `k`. */
  predicate Outside(s: Threads, k: nat)
    requires |s.lo| == |s.hi|
  {
    forall j :: 0 <= j < |s.lo| ==> k < s.lo[j] || s.hi[j] < k
  }

  /** Under any schedule, what each thread will make of its range is fixed, and the rest never changes. */
  lemma {:induction false} AnyOrderKeeps(s: Threads, sched: seq<nat>, j: nat)
    requires Inv(s) && Feasible(s, sched) && j < |s.stacks|
    ensures Agree(Solo(s, j), Solo(After(s, sched), j), s.lo[j], s.hi[j])
    decreases sched
  {
    if sched == [] {
    } else {
      StepKeepsSolo(s, sched[0], j);
      AnyOrderKeeps(Step(s, sched[0]), sched[1..], j);
    }
  }

  lemma {:induction false} AnyOrderOutside(s: Threads, sched: seq<nat>, k: nat)
    requires Inv(s) && Feasible(s, sched) && k < |s.arr| && Outside(s, k)
    ensures After(s, sched).arr[k] == s.arr[k]
    decreases sched
  {
    if sched == [] {
    } else {
      var i := sched[0];
      FitsArray(s, i);
      StepInv(s, i);
      assert k < s.lo[i] || s.hi[i] < k;
      EffectOutside(s.arr, s.stacks[i].top, s.lo[i], s.hi[i], k);
      AnyOrderOutside(Step(s, i), sched[1..], k);
    }
  }

  /** When every thread is done, each range holds what its thread makes of it alone. */
  lemma AnyOrderResult(s: Threads, sched: seq<nat>, j: nat)
    requires Inv(s) && Feasible(s, sched) && Idle(After(s, sched)) && j < |s.stacks|
    ensures Agree(Solo(s, j), After(s, sched).arr, s.lo[j], s.hi[j])
  {
    AnyOrderKeeps(s, sched, j);
  }

  function Work(stacks: seq<Stack>): nat {
    if stacks == [] then 0 else Steps(stacks[0]) + Work(stacks[1..])
  }

  lemma {:induction false} WorkFalls(stacks: seq<Stack>, j: nat, t: Stack)
    requires j < |stacks|
    ensures Work(stacks[j := t]) == Work(stacks) - Steps(stacks[j]) + Steps(t)
  {
    if j == 0 {
      assert stacks[j := t][1..] == stacks[1..];
    } else {
      assert stacks[j := t][1..] == stacks[1..][j - 1 := t];
      WorkFalls(stacks[1..], j - 1, t);
    }
  }

  lemma {:induction false} NoWorkIsIdle(stacks: seq<Stack>)
    ensures Work(stacks) == 0 <==> forall j :: 0 <= j < |stacks| ==> stacks[j] == Done
  {
    if stacks == [] {
    } else {
      NoWorkIsIdle(stacks[1..]);
      assert stacks[0].Push? ==> Steps(stacks[0]) >= 1;
      assert forall j :: 1 <= j < |stacks| ==> stacks[j] == stacks[1..][j - 1];
      assert forall j :: 0 <= j < |stacks| - 1 ==> stacks[1..][j] == stacks[j + 1];
    }
  }

  /** Every schedule ends: it is complete exactly when it has as many steps as there is work. */
  lemma {:induction false} ScheduleLength(s: Threads, sched: seq<nat>)
    requires Inv(s) && Feasible(s, sched)
    ensures |sched| <= Work(s.stacks)
    ensures Idle(After(s, sched)) <==> |sched| == Work(s.stacks)
    decreases sched
  {
    if sched == [] {
      NoWorkIsIdle(s.stacks);
    } else {
      var j := sched[0];
      StepInv(s, j);
      FitsArray(s, j);
      NextSteps(s.arr, s.stacks[j]);
      WorkFalls(s.stacks, j, Next(s.arr, s.stacks[j]));
      ScheduleLength(Step(s, j), sched[1..]);
    }
  }

  // ----- The sort that sort.c does -----------------------------------------------

  /** The state once the three sorting threads are created: the fourth sorter is the caller. */
  function SortThreads(c: seq<int>, left: nat, right: int): Threads
    requires left <= right
  {
    Threads(c, seq(4, (i: nat) => Push(SortCall(PartLeft(left, right, i), PartRight(left, right, i)), Done)),
            seq(4, (i: nat) => PartLeft(left, right, i)), seq(4, (i: nat) => PartRight(left, right, i)))
  }

  /** However the four sorts interleave, they leave the four parts sorted and the rest alone. */
  lemma SortsInAnyOrder(c: seq<int>, left: nat, right: int, sched: seq<nat>)
    requires 4 < right - left && right < |c| && Inv(SortThreads(c, left, right))
    requires Feasible(SortThreads(c, left, right), sched) && Idle(After(SortThreads(c, left, right), sched))
    ensures PartsDone(c, After(SortThreads(c, left, right), sched).arr, left, right, 4)
  {
    var d := After(SortThreads(c, left, right), sched).arr;
    forall i: nat | i < 4
      ensures PartSorted(c, d, left, right, i)
    {
      PartInside(left, right, i);
      SortedPart(c, left, right, sched, i, PartLeft(left, right, i), PartRight(left, right, i));
    }
    forall k: nat | k < |c| && (k < left || Reach(left, right, 4) <= k)
      ensures d[k] == c[k]
    {
      UntouchedPart(c, left, right, sched, k);
    }
  }

  lemma SortedPart(c: seq<int>, left: nat, right: int, sched: seq<nat>, i: nat, l: nat, r: int)
    requires 4 < right - left && right < |c| && Inv(SortThreads(c, left, right)) && i <= 3
    requires Feasible(SortThreads(c, left, right), sched) && Idle(After(SortThreads(c, left, right), sched))
    requires l == PartLeft(left, right, i) && r == PartRight(left, right, i)
    ensures RangeSorted(c, After(SortThreads(c, left, right), sched).arr, l, r)
  {
    PartInside(left, right, i);
    assert Outcome(c, Push(SortCall(l, r), Done)) == SortRange(c, l, r);
    AnyOrderResult(SortThreads(c, left, right), sched, i);
    SortRangeSorted(c, c, l, r);
    AgreeSorted(c, SortRange(c, l, r), After(SortThreads(c, left, right), sched).arr, l, r);
  }

  lemma UntouchedPart(c: seq<int>, left: nat, right: int, sched: seq<nat>, k: nat)
    requires 4 < right - left && right < |c| && Inv(SortThreads(c, left, right)) && k < |c| && !(left <= k <= right)
    requires Feasible(SortThreads(c, left, right), sched)
    ensures After(SortThreads(c, left, right), sched).arr[k] == c[k]
  {
    var s := SortThreads(c, left, right);
    forall i: nat | i < 4
      ensures k < s.lo[i] || s.hi[i] < k
    {
      PartInside(left, right, i);
    }
    AnyOrderOutside(s, sched, k);
  }

  lemma MergeRangeOutside(c: seq<int>, l: nat, m: int, r: int, k: nat)
    requires l <= m + 1 <= r + 1 <= |c| && k < |c| && (k < l || r < k)
    ensures MergeRange(c, l, m, r)[k] == c[k]
  {
  }

  lemma MergeRangeLocal(c: seq<int>, d: seq<int>, l: nat, m: int, r: int)
    requires l <= m + 1 <= r + 1 <= |c| && Agree(c, d, l, r)
    ensures Agree(MergeRange(c, l, m, r), MergeRange(d, l, m, r), l, r)
  {
    MergeLocal(c, d, l, m, r, l, r);
  }

  /** Two merges side by side, of l..m..p and of p + 1..n..r. */
  function MergeThreads(c: seq<int>, l: nat, m: int, p: nat, n: int, r: int): Threads {
    Threads(c, [Push(MergeCall(l, m, p), Done), Push(MergeCall(p + 1, n, r), Done)], [l, p + 1], [p, r])
  }

  lemma MergeThreadsInv(c: seq<int>, l: nat, m: int, p: nat, n: int, r: int)
    requires l <= m + 1 <= p + 1 <= n + 1 <= r + 1 <= |c|
    ensures Inv(MergeThreads(c, l, m, p, n, r))
  {
    var s := MergeThreads(c, l, m, p, n, r);
    assert AllFit(s.stacks[0], l, p) && AllFit(s.stacks[1], p + 1, r);
  }

  /** However two merges of neighbouring ranges interleave, the result is that of one after the other. */
  lemma MergesInAnyOrder(c: seq<int>, l: nat, m: int, p: nat, n: int, r: int, sched: seq<nat>)
    requires l <= m + 1 <= p + 1 <= n + 1 <= r + 1 <= |c| && Inv(MergeThreads(c, l, m, p, n, r))
    requires Feasible(MergeThreads(c, l, m, p, n, r), sched) && Idle(After(MergeThreads(c, l, m, p, n, r), sched))
    ensures After(MergeThreads(c, l, m, p, n, r), sched).arr == MergePair(c, l, m, p, n, r)
  {
    var d := After(MergeThreads(c, l, m, p, n, r), sched).arr;
    forall k: nat | k < |c|
      ensures d[k] == MergePair(c, l, m, p, n, r)[k]
    {
      if k < l || r < k {
        OutsideMerges(c, l, m, p, n, r, sched, k);
      } else if k <= p {
        FirstMerge(c, l, m, p, n, r, sched, k);
      } else {
        SecondMerge(c, l, m, p, n, r, sched, k);
      }
    }
  }

  lemma OutsideMerges(c: seq<int>, l: nat, m: int, p: nat, n: int, r: int, sched: seq<nat>, k: nat)
    requires l <= m + 1 <= p + 1 <= n + 1 <= r + 1 <= |c| && Inv(MergeThreads(c, l, m, p, n, r))
    requires Feasible(MergeThreads(c, l, m, p, n, r), sched) && k < |c| && (k < l || r < k)
    ensures After(MergeThreads(c, l, m, p, n, r), sched).arr[k] == MergePair(c, l, m, p, n, r)[k]
  {
    assert Outside(MergeThreads(c, l, m, p, n, r), k);
    AnyOrderOutside(MergeThreads(c, l, m, p, n, r), sched, k);
    MergeRangeOutside(c, l, m, p, k);
    MergeRangeOutside(MergeRange(c, l, m, p), p + 1, n, r, k);
  }

  lemma FirstMerge(c: seq<int>, l: nat, m: int, p: nat, n: int, r: int, sched: seq<nat>, k: nat)
    requires l <= m + 1 <= p + 1 <= n + 1 <= r + 1 <= |c| && Inv(MergeThreads(c, l, m, p, n, r))
    requires Feasible(MergeThreads(c, l, m, p, n, r), sched) && Idle(After(MergeThreads(c, l, m, p, n, r), sched))
    requires l <= k <= p
    ensures After(MergeThreads(c, l, m, p, n, r), sched).arr[k] == MergePair(c, l, m, p, n, r)[k]
  {
    assert Outcome(c, Push(MergeCall(l, m, p), Done)) == MergeRange(c, l, m, p);
    AnyOrderResult(MergeThreads(c, l, m, p, n, r), sched, 0);
    MergeRangeOutside(MergeRange(c, l, m, p), p + 1, n, r, k);
  }

  lemma SecondMerge(c: seq<int>, l: nat, m: int, p: nat, n: int, r: int, sched: seq<nat>, k: nat)
    requires l <= m + 1 <= p + 1 <= n + 1 <= r + 1 <= |c| && Inv(MergeThreads(c, l, m, p, n, r))
    requires Feasible(MergeThreads(c, l, m, p, n, r), sched) && Idle(After(MergeThreads(c, l, m, p, n, r), sched))
    requires p < k <= r
    ensures After(MergeThreads(c, l, m, p, n, r), sched).arr[k] == MergePair(c, l, m, p, n, r)[k]
  {
    assert Outcome(c, Push(MergeCall(p + 1, n, r), Done)) == MergeRange(c, p + 1, n, r);
    AnyOrderResult(MergeThreads(c, l, m, p, n, r), sched, 1);
    var c1 := MergeRange(c, l, m, p);
    forall x: nat | p + 1 <= x <= r
      ensures c[x] == c1[x]
    {
      MergeRangeOutside(c, l, m, p, x);
    }
    MergeRangeLocal(c, c1, p + 1, n, r);
  }

  /** After the joins: the two merges start from what the sorts left. */
  function MergePhase(c: seq<int>, left: nat, right: int): Threads
    requires 4 < right - left
  {
    PartsOrder(left, right);
    MergeThreads(c, left, PartRight(left, right, 0), PartRight(left, right, 1), PartRight(left, right, 2), right)
  }

  /** `d` is what the four sorts leave under the schedule `sorts`. */
  predicate SortsLeave(c: seq<int>, left: nat, right: int, sorts: seq<nat>, d: seq<int>)
    requires 4 < right - left && right < |c|
  {
    Feasible(SortThreads(c, left, right), sorts)
    && Idle(After(SortThreads(c, left, right), sorts)) && After(SortThreads(c, left, right), sorts).arr == d
  }

  /** `e` is what the two merges make of `d` under the schedule `merges`. */
  predicate MergesLeave(d: seq<int>, left: nat, right: int, merges: seq<nat>, e: seq<int>)
    requires 4 < right - left && right < |d|
  {
    MergePhaseInv(d, left, right);
    Feasible(MergePhase(d, left, right), merges)
    && Idle(After(MergePhase(d, left, right), merges)) && After(MergePhase(d, left, right), merges).arr == e
  }

  lemma MergePhaseInv(d: seq<int>, left: nat, right: int)
    requires 4 < right - left && right < |d|
    ensures Inv(MergePhase(d, left, right))
  {
    PartsOrder(left, right);
    MergeThreadsInv(d, left, PartRight(left, right, 0), PartRight(left, right, 1), PartRight(left, right, 2), right);
  }

  /** Whatever the two schedules, the last merge leaves arr[left..right] in order and the rest as it was. */
  lemma AnyInterleaving(c: seq<int>, left: nat, right: int, sorts: seq<nat>, d: seq<int>, merges: seq<nat>, e: seq<int>)
    requires 4 < right - left && right < |c| == |d| == |e|
    requires SortsLeave(c, left, right, sorts, d) && MergesLeave(d, left, right, merges, e)
    ensures RangeSorted(c, LastMerge(e, left, right), left, right) && OnlyRange(c, LastMerge(e, left, right), left, right)
  {
    SortsInAnyOrder(c, left, right, sorts);
    MergePhaseInv(d, left, right);
    PartsOrder(left, right);
    MergesInAnyOrder(d, left, PartRight(left, right, 0), PartRight(left, right, 1), PartRight(left, right, 2), right, merges);
    MergePartsSorts(c, d, left, right);
  }
}
