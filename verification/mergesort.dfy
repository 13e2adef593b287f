/** The merge sort of Assignment2/sort.c: recursive and in place, and split over four threads.
    `merge` comes as a library; here it has a body that meets its comment in merge.h. */
module MergeSort {

  // ----- Merging and sorting as functions ---------------------------------------

  predicate Sorted(s: seq<int>) { forall i, j :: 0 <= i < j < |s| ==> s[i] <= s[j] }

  ghost predicate SortedOf(s: seq<int>, t: seq<int>) {
    Sorted(t) && |t| == |s| && multiset(t) == multiset(s)
  }

  function Merged(x: seq<int>, y: seq<int>): (r: seq<int>)
    ensures |r| == |x| + |y|
    decreases |x| + |y|
  {
    if x == [] && y == [] then []
    else
      var first := TakesFirst(x, y);
      [if first then x[0] else y[0]] + Merged(if first then x[1..] else x, if first then y else y[1..])
  }

  /** The smaller head comes next, the first part's on a tie. */
  predicate TakesFirst(x: seq<int>, y: seq<int>) {
    x != [] && (y == [] || x[0] <= y[0])
  }

  lemma MultisetCons(s: seq<int>)
    requires s != []
    ensures multiset(s) == multiset{s[0]} + multiset(s[1..])
  {
    assert s == [s[0]] + s[1..];
  }

  lemma {:induction false} MergedPermutes(x: seq<int>, y: seq<int>)
    ensures multiset(Merged(x, y)) == multiset(x) + multiset(y)
    decreases |x| + |y|
  {
    var r := Merged(x, y);
    if x == [] && y == [] {
    } else if TakesFirst(x, y) {
      MergedPermutes(x[1..], y);
      assert r[0] == x[0] && r[1..] == Merged(x[1..], y);
      MultisetCons(x);
      MultisetCons(r);
    } else {
      MergedPermutes(x, y[1..]);
      assert r[0] == y[0] && r[1..] == Merged(x, y[1..]);
      MultisetCons(y);
      MultisetCons(r);
    }
  }

  lemma SortedCons(v: int, s: seq<int>)
    requires Sorted(s) && forall k :: k in s ==> v <= k
    ensures Sorted([v] + s)
  {
    var r := [v] + s;
    assert forall j :: 1 <= j < |r| ==> r[j] == s[j - 1];
    forall j | 0 <= j < |s|
      ensures v <= s[j]
    {
      assert s[j] in s;
    }
  }

  lemma SortedTail(s: seq<int>)
    requires Sorted(s) && s != []
    ensures Sorted(s[1..]) && forall k :: k in s ==> s[0] <= k
  {
  }

  lemma {:induction false} MergedSorted(x: seq<int>, y: seq<int>)
    requires Sorted(x) && Sorted(y)
    ensures Sorted(Merged(x, y))
    decreases |x| + |y|
  {
    if x == [] && y == [] {
    } else if TakesFirst(x, y) {
      SortedTail(x);
      MergedSorted(x[1..], y);
      MergedPermutes(x[1..], y);
      LowerBound(x[0], x[1..], y, Merged(x[1..], y));
      SortedCons(x[0], Merged(x[1..], y));
    } else {
      SortedTail(y);
      MergedSorted(x, y[1..]);
      MergedPermutes(x, y[1..]);
      LowerBound(y[0], x, y[1..], Merged(x, y[1..]));
      SortedCons(y[0], Merged(x, y[1..]));
    }
  }

  lemma LowerBound(v: int, x: seq<int>, y: seq<int>, r: seq<int>)
    requires Sorted(x) && Sorted(y) && (x != [] ==> v <= x[0]) && (y != [] ==> v <= y[0])
    requires multiset(r) == multiset(x) + multiset(y)
    ensures forall k :: k in r ==> v <= k
  {
    forall k | k in r
      ensures v <= k
    {
      assert k in multiset(r);
      assert k in x || k in y;
    }
  }

  lemma MultisetTail(s: seq<int>, t: seq<int>)
    requires s != [] && t != [] && s[0] == t[0] && multiset(s) == multiset(t)
    ensures multiset(s[1..]) == multiset(t[1..])
  {
    MultisetCons(s);
    MultisetCons(t);
    assert multiset(s[1..]) == multiset(s) - multiset{s[0]};
    assert multiset(t[1..]) == multiset(t) - multiset{t[0]};
  }

  /** There is only one way to put integers in order. */
  lemma {:induction false} SortedUnique(s: seq<int>, t: seq<int>)
    requires Sorted(s) && Sorted(t) && multiset(s) == multiset(t)
    ensures s == t
    decreases |s|
  {
    assert |s| == |multiset(s)| == |multiset(t)| == |t|;
    if s == [] {
    } else {
      assert s[0] in multiset(t) && t[0] in multiset(s);
      SortedTail(s);
      SortedTail(t);
      assert s[0] == t[0];
      MultisetTail(s, t);
      SortedUnique(s[1..], t[1..]);
      assert s == [s[0]] + s[1..] && t == [t[0]] + t[1..];
    }
  }

  /** And there is one. */
  lemma {:induction false} SortExists(s: seq<int>)
    ensures exists t :: SortedOf(s, t)
    decreases |s|
  {
    if |s| <= 1 {
      assert SortedOf(s, s);
    } else {
      SortExists(s[..1]);
      SortExists(s[1..]);
      var x :| SortedOf(s[..1], x);
      var y :| SortedOf(s[1..], y);
      MergedSorts(s, 1, x, y);
    }
  }

  /** The elements of `s` in ascending order. */
  ghost function SortSeq(s: seq<int>): (r: seq<int>)
    ensures |r| == |s|
  {
    SortExists(s);
    var r :| SortedOf(s, r);
    r
  }

  lemma SortSeqSorts(s: seq<int>)
    ensures SortedOf(s, SortSeq(s))
  {
    SortExists(s);
  }

  /** Wherever a sequence is cut, merging the sorted parts sorts the whole. */
  lemma SortSeqSplits(s: seq<int>, h: nat)
    requires h <= |s|
    ensures SortSeq(s) == Merged(SortSeq(s[..h]), SortSeq(s[h..]))
  {
    SortSeqSorts(s);
    SortSeqSorts(s[..h]);
    SortSeqSorts(s[h..]);
    MergedSorts(s, h, SortSeq(s[..h]), SortSeq(s[h..]));
    SortedUnique(SortSeq(s), Merged(SortSeq(s[..h]), SortSeq(s[h..])));
  }

  lemma ShortIsSorted(s: seq<int>)
    requires |s| <= 1
    ensures SortSeq(s) == s
  {
    SortSeqSorts(s);
    SortedUnique(SortSeq(s), s);
  }

  lemma MergedSorts(s: seq<int>, h: nat, x: seq<int>, y: seq<int>)
    requires h <= |s| && SortedOf(s[..h], x) && SortedOf(s[h..], y)
    ensures SortedOf(s, Merged(x, y))
  {
    MergedSorted(x, y);
    MergedPermutes(x, y);
    assert s == s[..h] + s[h..];
  }

  // ----- Ranges of the array -----------------------------------------------------

  /** `c` with `s` in place of what stands from `i` on. */
  function Replace(c: seq<int>, i: nat, s: seq<int>): (r: seq<int>)
    requires i + |s| <= |c|
    ensures |r| == |c|
  {
    seq(|c|, k requires 0 <= k < |c| => if i <= k < i + |s| then s[k - i] else c[k])
  }

  /** Merging c[l..m] with c[m + 1..r]; the second part may be empty. */
  function MergeRange(c: seq<int>, l: nat, m: int, r: int): (d: seq<int>)
    requires l <= m + 1 <= r + 1 <= |c|
    ensures |d| == |c|
  {
    Replace(c, l, Merged(c[l..m + 1], c[m + 1..r + 1]))
  }

  ghost function SortRange(c: seq<int>, l: nat, r: int): (d: seq<int>)
    requires l <= r + 1 <= |c|
    ensures |d| == |c|
  {
    Replace(c, l, SortSeq(c[l..r + 1]))
  }

  lemma ReplaceHere(c: seq<int>, i: nat, s: seq<int>)
    requires i + |s| <= |c|
    ensures Replace(c, i, s)[i..i + |s|] == s
  {
  }

  lemma ReplaceElsewhere(c: seq<int>, i: nat, s: seq<int>, a: nat, b: nat)
    requires i + |s| <= |c| && a <= b <= |c| && (b <= i || i + |s| <= a)
    ensures Replace(c, i, s)[a..b] == c[a..b]
  {
  }

  ghost function SortedHalves(c: seq<int>, l: nat, m: nat, r: int): (d: seq<int>)
    requires l <= m < r < |c|
    ensures |d| == |c|
  {
    SortRange(SortRange(c, l, m), m + 1, r)
  }

  lemma HalvesSorted(c: seq<int>, l: nat, m: nat, r: int)
    requires l <= m < r < |c|
    ensures var d := SortedHalves(c, l, m, r);
            d[l..m + 1] == SortSeq(c[l..m + 1]) && d[m + 1..r + 1] == SortSeq(c[m + 1..r + 1])
  {
    var c1 := SortRange(c, l, m);
    ReplaceHere(c, l, SortSeq(c[l..m + 1]));
    ReplaceElsewhere(c, l, SortSeq(c[l..m + 1]), m + 1, r + 1);
    ReplaceHere(c1, m + 1, SortSeq(c1[m + 1..r + 1]));
    ReplaceElsewhere(c1, m + 1, SortSeq(c1[m + 1..r + 1]), l, m + 1);
  }

  /** Sorting a range is sorting its parts, wherever it is cut, and merging them. */
  lemma SortRangeSplits(c: seq<int>, l: nat, m: nat, r: int)
    requires l <= m < r < |c|
    ensures SortRange(c, l, r) == MergeRange(SortedHalves(c, l, m, r), l, m, r)
  {
    var s := c[l..r + 1];
    var h := m + 1 - l;
    assert c[l..m + 1] == s[..h] && c[m + 1..r + 1] == s[h..];
    SortSeqSplits(s, h);
    HalvesSorted(c, l, m, r);
    HalvesCovered(c, l, m, r, SortSeq(s));
  }

  /** A later write over the whole range hides the sorted halves. */
  lemma HalvesCovered(c: seq<int>, l: nat, m: nat, r: int, t: seq<int>)
    requires l <= m < r < |c| && |t| == r + 1 - l
    ensures Replace(SortedHalves(c, l, m, r), l, t) == Replace(c, l, t)
  {
    ReplaceCovers(SortRange(c, l, m), m + 1, SortSeq(SortRange(c, l, m)[m + 1..r + 1]), l, t);
    ReplaceCovers(c, l, SortSeq(c[l..m + 1]), l, t);
  }

  lemma ReplaceCovers(c: seq<int>, i: nat, s: seq<int>, l: nat, t: seq<int>)
    requires l <= i && i + |s| <= l + |t| <= |c|
    ensures Replace(Replace(c, i, s), l, t) == Replace(c, l, t)
  {
  }

  method Merge(arr: array<int>, left: nat, middle: int, right: int)
    requires left <= middle + 1 <= right + 1 <= arr.Length
    modifies arr
    ensures arr[..] == MergeRange(old(arr[..]), left, middle, right)
  {
    MergedFromIs(arr[..], left, middle, middle + 1, right);
    var out := MergeOut(arr, left, middle, right);
    CopyBack(arr, left, out);
  }

  method MergeOut(arr: array<int>, left: nat, middle: int, right: int) returns (out: seq<int>)
    requires left <= middle + 1 <= right + 1 <= arr.Length
    ensures out == MergedFrom(arr[..], left, middle, middle + 1, right)
  {
    ghost var c := arr[..];
    var i: nat, j: nat := left, middle + 1;
    out := [];
    while i <= middle || j <= right
      invariant left <= i <= middle + 1 <= j <= right + 1
      invariant out + MergedFrom(c, i, middle, j, right) == MergedFrom(c, left, middle, middle + 1, right)
      decreases middle + 1 - i + right + 1 - j
    {
      MergedFromStep(c, i, middle, j, right, out);
      if i <= middle && (j > right || arr[i] <= arr[j]) {
        out, i := out + [arr[i]], i + 1;
      } else {
        out, j := out + [arr[j]], j + 1;
      }
    }
  }

  /** The merge of what is left of both parts, by index. */
  function MergedFrom(c: seq<int>, i: nat, m: int, j: nat, r: int): (s: seq<int>)
    requires i <= m + 1 <= j <= r + 1 <= |c|
    ensures |s| == m + 1 - i + r + 1 - j
    decreases m + 1 - i + r + 1 - j
  {
    if i > m && j > r then []
    else if i <= m && (j > r || c[i] <= c[j]) then [c[i]] + MergedFrom(c, i + 1, m, j, r)
    else [c[j]] + MergedFrom(c, i, m, j + 1, r)
  }

  lemma MergedFromStep(c: seq<int>, i: nat, m: int, j: nat, r: int, out: seq<int>)
    requires i <= m + 1 <= j <= r + 1 <= |c| && (i <= m || j <= r)
    ensures i <= m && (j > r || c[i] <= c[j]) ==>
              out + MergedFrom(c, i, m, j, r) == (out + [c[i]]) + MergedFrom(c, i + 1, m, j, r)
    ensures !(i <= m && (j > r || c[i] <= c[j])) ==>
              out + MergedFrom(c, i, m, j, r) == (out + [c[j]]) + MergedFrom(c, i, m, j + 1, r)
  {
  }

  lemma {:induction false} MergedFromIs(c: seq<int>, i: nat, m: int, j: nat, r: int)
    requires i <= m + 1 <= j <= r + 1 <= |c|
    ensures MergedFrom(c, i, m, j, r) == Merged(c[i..m + 1], c[j..r + 1])
    decreases m + 1 - i + r + 1 - j
  {
    if i > m && j > r {
    } else if i <= m && (j > r || c[i] <= c[j]) {
      MergedFromIs(c, i + 1, m, j, r);
      FirstGoes(c, i, m, c[j..r + 1]);
    } else {
      MergedFromIs(c, i, m, j + 1, r);
      SecondGoes(c[i..m + 1], c, j, r);
    }
  }

  lemma SliceTail(c: seq<int>, i: nat, n: nat)
    requires i < n <= |c|
    ensures c[i..n] != [] && c[i..n][0] == c[i] && c[i..n][1..] == c[i + 1..n]
  {
  }

  lemma FirstGoes(c: seq<int>, i: nat, m: nat, y: seq<int>)
    requires i <= m < |c| && (y == [] || c[i] <= y[0])
    ensures Merged(c[i..m + 1], y) == [c[i]] + Merged(c[i + 1..m + 1], y)
  {
    SliceTail(c, i, m + 1);
  }

  lemma SecondGoes(x: seq<int>, c: seq<int>, j: nat, r: nat)
    requires j <= r < |c| && (x == [] || c[j] < x[0])
    ensures Merged(x, c[j..r + 1]) == [c[j]] + Merged(x, c[j + 1..r + 1])
  {
    SliceTail(c, j, r + 1);
  }

  method CopyBack(arr: array<int>, left: nat, out: seq<int>)
    requires left + |out| <= arr.Length
    modifies arr
    ensures arr[..] == Replace(old(arr[..]), left, out)
  {
    ghost var c := arr[..];
    var k := 0;
    while k < |out|
      invariant k <= |out|
      invariant forall n :: 0 <= n < arr.Length ==> arr[n] == if left <= n < left + k then out[n - left] else c[n]
    {
      arr[left + k] := out[k];
      k := k + 1;
    }
  }

  method SingleThreadedMergeSort(arr: array<int>, left: nat, right: int)
    requires left <= right + 1 <= arr.Length
    modifies arr
    ensures arr[..] == SortRange(old(arr[..]), left, right)
    decreases right + 1 - left, 1
  {
    if left < right {
      var middle := (left + right) / 2;
      SortRangeSplits(arr[..], left, middle, right);
      SortHalves(arr, left, middle, right);
      Merge(arr, left, middle, right);
    } else {
      NothingToSort(arr[..], left, right);
    }
  }

  method SortHalves(arr: array<int>, left: nat, middle: int, right: int)
    requires left <= middle < right < arr.Length
    modifies arr
    ensures arr[..] == SortedHalves(old(arr[..]), left, middle, right)
    decreases right + 1 - left, 0
  {
    SingleThreadedMergeSort(arr, left, middle);
    SingleThreadedMergeSort(arr, middle + 1, right);
  }

  lemma NothingToSort(c: seq<int>, l: nat, r: int)
    requires r <= l <= r + 1 <= |c|
    ensures SortRange(c, l, r) == c
  {
    ShortIsSorted(c[l..r + 1]);
  }

  // ----- The four parts ----------------------------------------------------------

  /** The last element of part `i`: left + (i + 1) * base_num + i, but `right` for the fourth part. */
  function PartRight(left: nat, right: int, i: nat): int {
    var b := (right - left) / 4;
    if i == 0 then left + b else if i == 1 then left + 2 * b + 1 else if i == 2 then left + 3 * b + 2 else right
  }

  /** The first one: left + i * base_num + i. */
  function PartLeft(left: nat, right: int, i: nat): int {
    var b := (right - left) / 4;
    if i == 0 then left else if i == 1 then left + b + 1 else if i == 2 then left + 2 * b + 2 else left + 3 * b + 3
  }

  /** The four parts tile the range; the fourth is empty exactly when right - left is 5 or 8. */
  lemma PartsTile(left: nat, right: int)
    requires right - left > 4
    ensures PartLeft(left, right, 0) == left && PartRight(left, right, 3) == right
    ensures forall i: nat :: i < 3 ==> PartLeft(left, right, i + 1) == PartRight(left, right, i) + 1
    ensures forall i: nat :: i < 3 ==> PartLeft(left, right, i) <= PartRight(left, right, i)
    ensures PartLeft(left, right, 3) <= right + 1
    ensures PartLeft(left, right, 3) == right + 1 <==> right - left == 5 || right - left == 8
  {
  }

  lemma PartsOrder(left: nat, right: int)
    requires right - left > 4
    ensures left <= PartRight(left, right, 0) < PartRight(left, right, 1) < PartRight(left, right, 2) <= right
  {
  }

  lemma PartInside(left: nat, right: int, i: nat)
    requires i <= 3 && 4 < right - left
    ensures left <= PartLeft(left, right, i) <= PartRight(left, right, i) + 1 <= right + 1
  {
    PartsTile(left, right);
  }

  // ----- What each phase achieves ------------------------------------------------

  predicate Agree(c: seq<int>, d: seq<int>, lo: nat, hi: int) {
    |c| == |d| && forall k :: lo <= k <= hi && k < |c| ==> c[k] == d[k]
  }

  /** d[l..r] holds the elements of c[l..r] in order. */
  ghost predicate RangeSorted(c: seq<int>, d: seq<int>, l: nat, r: int) {
    l <= r + 1 <= |c| && |d| == |c| && SortedOf(c[l..r + 1], d[l..r + 1])
  }

  /** Outside c[l..r] nothing changed. */
  predicate OnlyRange(c: seq<int>, d: seq<int>, l: nat, r: int) {
    |d| == |c| && forall k: nat :: k < |c| && (k < l || r < k) ==> d[k] == c[k]
  }

  lemma AgreeSorted(c: seq<int>, d: seq<int>, e: seq<int>, l: nat, r: int)
    requires RangeSorted(c, d, l, r) && Agree(d, e, l, r)
    ensures RangeSorted(c, e, l, r)
  {
    assert d[l..r + 1] == e[l..r + 1];
  }

  lemma SortRangeSorted(c: seq<int>, d: seq<int>, l: nat, r: int)
    requires l <= r + 1 <= |c| && Agree(c, d, l, r)
    ensures RangeSorted(c, SortRange(d, l, r), l, r) && OnlyRange(d, SortRange(d, l, r), l, r)
  {
    assert c[l..r + 1] == d[l..r + 1];
    var s := SortSeq(d[l..r + 1]);
    SortSeqSorts(d[l..r + 1]);
    ReplaceHere(d, l, s);
  }

  lemma MergeRangeSorted(c: seq<int>, d: seq<int>, l: nat, m: int, r: int)
    requires l <= m + 1 <= r + 1 <= |c| == |d| && RangeSorted(c, d, l, m) && RangeSorted(c, d, m + 1, r)
    ensures RangeSorted(c, MergeRange(d, l, m, r), l, r)
  {
    PartsMergeSorted(c, l, m, r, d[l..m + 1], d[m + 1..r + 1]);
    ReplaceHere(d, l, Merged(d[l..m + 1], d[m + 1..r + 1]));
  }

  lemma PartsMergeSorted(c: seq<int>, l: nat, m: int, r: int, x: seq<int>, y: seq<int>)
    requires l <= m + 1 <= r + 1 <= |c| && SortedOf(c[l..m + 1], x) && SortedOf(c[m + 1..r + 1], y)
    ensures SortedOf(c[l..r + 1], Merged(x, y))
  {
    SliceHalves(c, l, m, r);
    MergedSorts(c[l..r + 1], m + 1 - l, x, y);
  }

  lemma SliceHalves(c: seq<int>, l: nat, m: int, r: int)
    requires l <= m + 1 <= r + 1 <= |c|
    ensures c[l..r + 1][..m + 1 - l] == c[l..m + 1] && c[l..r + 1][m + 1 - l..] == c[m + 1..r + 1]
  {
  }

  lemma MergeOnlyRange(d: seq<int>, l: nat, m: int, r: int)
    requires l <= m + 1 <= r + 1 <= |d|
    ensures OnlyRange(d, MergeRange(d, l, m, r), l, r)
  {
  }

  lemma OnlyRangeAgrees(d: seq<int>, e: seq<int>, l: nat, r: int, a: nat, z: int)
    requires OnlyRange(d, e, l, r) && (z < l || r < a)
    ensures Agree(d, e, a, z)
  {
  }

  ghost predicate PartSorted(c: seq<int>, d: seq<int>, left: nat, right: int, i: nat) {
    i <= 3 && 4 < right - left && PartLeft(left, right, i) >= 0
    && RangeSorted(c, d, PartLeft(left, right, i), PartRight(left, right, i))
  }

  /** Where part `n` starts, and where the range ends if there is none. */
  function Reach(left: nat, right: int, n: nat): int {
    if n <= 3 then PartLeft(left, right, n) else right + 1
  }

  /** The first `n` parts are sorted, and the rest is as it was. */
  ghost predicate PartsDone(c: seq<int>, d: seq<int>, left: nat, right: int, n: nat) {
    |d| == |c|
    && (forall i: nat :: i < n ==> PartSorted(c, d, left, right, i))
    && (forall k: nat :: k < |c| && (k < left || Reach(left, right, n) <= k) ==> d[k] == c[k])
  }

  lemma PartsNext(c: seq<int>, d: seq<int>, left: nat, right: int, n: nat, l: nat, r: int)
    requires n <= 3 && 4 < right - left && right < |c| && PartsDone(c, d, left, right, n)
    requires l == PartLeft(left, right, n) && r == PartRight(left, right, n)
    ensures l <= r + 1 <= |d| && PartsDone(c, SortRange(d, l, r), left, right, n + 1)
  {
    PartInside(left, right, n);
    PartsTile(left, right);
    var e := SortRange(d, l, r);
    SortRangeSorted(c, d, l, r);
    forall i: nat | i < n + 1
      ensures PartSorted(c, e, left, right, i)
    {
      if i < n {
        PartBefore(left, right, i, n);
        PartInside(left, right, i);
        assert PartSorted(c, d, left, right, i);
        AgreeSorted(c, d, e, PartLeft(left, right, i), PartRight(left, right, i));
      }
    }
  }

  lemma PartBefore(left: nat, right: int, i: nat, n: nat)
    requires i < n <= 3 && 4 < right - left
    ensures PartRight(left, right, i) < PartLeft(left, right, n)
  {
  }

  /** Two merges of neighbouring ranges: l..m..p and p + 1..n..r. */
  function MergePair(c: seq<int>, l: nat, m: int, p: nat, n: int, r: int): (d: seq<int>)
    requires l <= m + 1 <= p + 1 <= n + 1 <= r + 1 <= |c|
    ensures |d| == |c|
  {
    MergeRange(MergeRange(c, l, m, p), p + 1, n, r)
  }

  /** Merging a range keeps what is sorted before or after it. */
  lemma MergeKeeps(c: seq<int>, d: seq<int>, l: nat, m: int, r: int, a: nat, z: int)
    requires l <= m + 1 <= r + 1 <= |c| == |d| && (z < l || r < a) && RangeSorted(c, d, a, z)
    ensures RangeSorted(c, MergeRange(d, l, m, r), a, z)
  {
    MergeOnlyRange(d, l, m, r);
    KeepSorted(c, d, MergeRange(d, l, m, r), l, r, a, z);
  }

  lemma OnlyWithin(d: seq<int>, e: seq<int>, g: seq<int>, l: nat, p: nat, r: int)
    requires OnlyRange(d, e, l, p) && OnlyRange(e, g, p + 1, r) && l <= p + 1 <= r + 1
    ensures OnlyRange(d, g, l, r)
  {
  }

  /** Four sorted neighbours become two. */
  lemma PairSorts(c: seq<int>, d: seq<int>, l: nat, m: int, p: nat, n: int, r: int)
    requires l <= m + 1 <= p + 1 <= n + 1 <= r + 1 <= |c| == |d|
    requires RangeSorted(c, d, l, m) && RangeSorted(c, d, m + 1, p)
    requires RangeSorted(c, d, p + 1, n) && RangeSorted(c, d, n + 1, r)
    ensures var e := MergePair(d, l, m, p, n, r); RangeSorted(c, e, l, p) && RangeSorted(c, e, p + 1, r)
  {
    MergeRangeSorted(c, d, l, m, p);
    MergeKeeps(c, d, l, m, p, p + 1, n);
    MergeKeeps(c, d, l, m, p, n + 1, r);
    SecondOfPair(c, MergeRange(d, l, m, p), l, p, n, r);
  }

  lemma SecondOfPair(c: seq<int>, d: seq<int>, l: nat, p: nat, n: int, r: int)
    requires l <= p + 1 <= n + 1 <= r + 1 <= |c| == |d| && RangeSorted(c, d, l, p)
    requires RangeSorted(c, d, p + 1, n) && RangeSorted(c, d, n + 1, r)
    ensures var e := MergeRange(d, p + 1, n, r); RangeSorted(c, e, l, p) && RangeSorted(c, e, p + 1, r)
  {
    MergeRangeSorted(c, d, p + 1, n, r);
    MergeKeeps(c, d, p + 1, n, r, l, p);
  }

  lemma PairOnlyRange(d: seq<int>, l: nat, m: int, p: nat, n: int, r: int)
    requires l <= m + 1 <= p + 1 <= n + 1 <= r + 1 <= |d|
    ensures OnlyRange(d, MergePair(d, l, m, p, n, r), l, r)
  {
    MergeOnlyRange(d, l, m, p);
    MergeOnlyRange(MergeRange(d, l, m, p), p + 1, n, r);
    OnlyWithin(d, MergeRange(d, l, m, p), MergePair(d, l, m, p, n, r), l, p, r);
  }

  lemma KeepSorted(c: seq<int>, d: seq<int>, e: seq<int>, l: nat, r: int, a: nat, z: int)
    requires OnlyRange(d, e, l, r) && (z < l || r < a) && RangeSorted(c, d, a, z)
    ensures RangeSorted(c, e, a, z)
  {
    OnlyRangeAgrees(d, e, l, r, a, z);
    AgreeSorted(c, d, e, a, z);
  }

  /** The merges after the joins. */
  function MergeParts(c: seq<int>, left: nat, right: int): (d: seq<int>)
    requires 4 < right - left && right < |c|
    ensures |d| == |c|
  {
    PartsOrder(left, right);
    LastMerge(MergePair(c, left, PartRight(left, right, 0), PartRight(left, right, 1), PartRight(left, right, 2), right),
              left, right)
  }

  function LastMerge(e: seq<int>, left: nat, right: int): (d: seq<int>)
    requires 4 < right - left && right < |e|
    ensures |d| == |e|
  {
    PartsOrder(left, right);
    MergeRange(e, left, PartRight(left, right, 1), right)
  }

  lemma FirstParts(c: seq<int>, d: seq<int>, left: nat, right: int, m: int, p: int)
    requires 4 < right - left && right < |c| && PartsDone(c, d, left, right, 4)
    requires m == PartRight(left, right, 0) && p == PartRight(left, right, 1)
    ensures RangeSorted(c, d, left, m) && RangeSorted(c, d, m + 1, p)
  {
    PartsTile(left, right);
    PartIsSorted(c, d, left, right, 0, left, m);
    PartIsSorted(c, d, left, right, 1, m + 1, p);
  }

  lemma LastParts(c: seq<int>, d: seq<int>, left: nat, right: int, p: int, n: int)
    requires 4 < right - left && right < |c| && PartsDone(c, d, left, right, 4)
    requires p == PartRight(left, right, 1) && n == PartRight(left, right, 2)
    ensures RangeSorted(c, d, p + 1, n) && RangeSorted(c, d, n + 1, right)
  {
    PartsTile(left, right);
    PartIsSorted(c, d, left, right, 2, p + 1, n);
    PartIsSorted(c, d, left, right, 3, n + 1, right);
  }

  lemma PartIsSorted(c: seq<int>, d: seq<int>, left: nat, right: int, i: nat, l: nat, r: int)
    requires i <= 3 && PartsDone(c, d, left, right, 4)
    requires l == PartLeft(left, right, i) && r == PartRight(left, right, i)
    ensures RangeSorted(c, d, l, r)
  {
    assert PartSorted(c, d, left, right, i);
  }

  /** From sorted parts the three merges make a sorted range, and touch nothing else. */
  lemma MergePartsSorts(c: seq<int>, d: seq<int>, left: nat, right: int)
    requires 4 < right - left && right < |c| && PartsDone(c, d, left, right, 4)
    ensures RangeSorted(c, MergeParts(d, left, right), left, right) && OnlyRange(c, MergeParts(d, left, right), left, right)
  {
    PartsOrder(left, right);
    var m, p, n := PartRight(left, right, 0), PartRight(left, right, 1), PartRight(left, right, 2);
    FirstParts(c, d, left, right, m, p);
    LastParts(c, d, left, right, p, n);
    PairSorts(c, d, left, m, p, n, right);
    PairOnlyRange(d, left, m, p, n, right);
    MergeRangeSorted(c, MergePair(d, left, m, p, n, right), left, p, right);
    MergeOnlyRange(MergePair(d, left, m, p, n, right), left, p, right);
  }

  // ----- The methods of sort.c ---------------------------------------------------

  /** The range ends up in order and the rest as it was; here each thread runs to its end at once. */
  method MultiThreadedMergeSort(arr: array<int>, left: nat, right: int)
    requires left <= right + 1 <= arr.Length
    modifies arr
    ensures RangeSorted(old(arr[..]), arr[..], left, right) && OnlyRange(old(arr[..]), arr[..], left, right)
  {
    ghost var c := arr[..];
    if right - left <= 4 {
      SortRangeSorted(c, c, left, right);
      SingleThreadedMergeSort(arr, left, right);
      return;
    }
    SortAllParts(arr, left, right);
    MergePartsSorts(c, arr[..], left, right);
    MergeAllParts(arr, left, right);
  }

  method SortAllParts(arr: array<int>, left: nat, right: int)
    requires 4 < right - left && right < arr.Length
    modifies arr
    ensures PartsDone(old(arr[..]), arr[..], left, right, 4)
  {
    ghost var c := arr[..];
    var baseNum := (right - left) / 4;
    var i := 0;
    while i < 3
      invariant i <= 3 && PartsDone(c, arr[..], left, right, i)
    {
      var from := left + i * baseNum + i;
      var to := left + (i + 1) * baseNum + i;
      assert i == 0 || i == 1 || i == 2;
      SortPart(arr, c, left, right, i, from, to);
      i := i + 1;
    }
    SortPart(arr, c, left, right, 3, left + 3 * baseNum + 3, right);
  }

  /** Test, the body of a sorting thread. */
  method SortPart(arr: array<int>, ghost c: seq<int>, left: nat, right: int, i: nat, from: nat, to: int)
    requires i <= 3 && 4 < right - left && right < arr.Length == |c|
    requires from == PartLeft(left, right, i) && to == PartRight(left, right, i)
    requires PartsDone(c, arr[..], left, right, i)
    modifies arr
    ensures PartsDone(c, arr[..], left, right, i + 1)
  {
    PartsNext(c, arr[..], left, right, i, from, to);
    SingleThreadedMergeSort(arr, from, to);
  }

  method MergeAllParts(arr: array<int>, left: nat, right: int)
    requires 4 < right - left && right < arr.Length
    modifies arr
    ensures arr[..] == MergeParts(old(arr[..]), left, right)
  {
    PartsOrder(left, right);
    var baseNum := (right - left) / 4;
    var first := left + 2 * baseNum + 1;
    var middle := (left + first) / 2;
    var third := left + baseNum * 3 + 2;
    assert middle == PartRight(left, right, 0) && first == PartRight(left, right, 1) && third == PartRight(left, right, 2);
    MergeTwice(arr, left, middle, first, third, right);
    Merge(arr, left, first, right);
  }

  /** The merge that Test2 does in a thread of its own, and the caller's. */
  method MergeTwice(arr: array<int>, l: nat, m: int, p: nat, n: int, r: int)
    requires l <= m + 1 <= p + 1 <= n + 1 <= r + 1 <= arr.Length
    modifies arr
    ensures arr[..] == MergePair(old(arr[..]), l, m, p, n, r)
  {
    Merge(arr, l, m, p);
    Merge(arr, p + 1, n, r);
  }
}
