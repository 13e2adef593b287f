/** Heap sort and binary search over a caller's comparison (Lab1/pintos/src/lib/stdlib.c).
    Heap indexes are 1-based, as in the C code. */
module Stdlib {
  import opened Wrappers

  predicate AtLeast<T>(cmp: (T, T) -> int, x: T, y: T) { cmp(x, y) >= 0 }

  predicate AtMost<T>(cmp: (T, T) -> int, x: T, y: T) { cmp(x, y) <= 0 }

  /** A strcmp()-type comparison: swapping its arguments swaps the sign, and it is transitive. */
  ghost predicate TotalPreorder<T(!new)>(cmp: (T, T) -> int) {
    (forall x, y :: AtLeast(cmp, x, y) <==> AtMost(cmp, y, x))
    && (forall x, y, z :: AtLeast(cmp, x, y) && AtLeast(cmp, y, z) ==> AtLeast(cmp, x, z))
  }

  lemma Mirror<T(!new)>(cmp: (T, T) -> int, x: T, y: T)
    requires TotalPreorder(cmp)
    ensures cmp(x, y) >= 0 <==> cmp(y, x) <= 0
  {
    assert AtLeast(cmp, x, y) <==> AtMost(cmp, y, x);
  }

  lemma Transitive<T(!new)>(cmp: (T, T) -> int, x: T, y: T, z: T)
    requires TotalPreorder(cmp) && cmp(x, y) >= 0 && cmp(y, z) >= 0
    ensures cmp(x, z) >= 0
  {
    assert AtLeast(cmp, x, y) && AtLeast(cmp, y, z);
    assert AtLeast(cmp, x, z);
  }

  predicate Ordered<T>(cmp: (T, T) -> int, s: seq<T>) {
    forall i, j :: 0 <= i < j < |s| ==> cmp(s[i], s[j]) <= 0
  }

  /** The element with 1-based index `k` is not below its child `c`, when that child is in the heap. */
  predicate Above<T>(cmp: (T, T) -> int, s: seq<T>, k: int, c: int, cnt: int)
    requires 0 <= cnt <= |s| && 1 <= k && 1 <= c
  {
    k <= cnt && c <= cnt ==> cmp(s[k - 1], s[c - 1]) >= 0
  }

  /** Elements `lo` to `cnt` are heap-ordered with their children. */
  predicate HeapFrom<T>(cmp: (T, T) -> int, s: seq<T>, lo: int, cnt: int)
    requires 0 <= cnt <= |s| && 1 <= lo
  {
    forall k :: lo <= k <= cnt ==> Above(cmp, s, k, 2 * k, cnt) && Above(cmp, s, k, 2 * k + 1, cnt)
  }

  /** As HeapFrom, but for the element at `i`, whose children stay below its parent. */
  predicate HeapBut<T>(cmp: (T, T) -> int, s: seq<T>, lo: int, i: int, cnt: int)
    requires 0 <= cnt <= |s| && 1 <= lo <= i
  {
    (forall k :: lo <= k <= cnt && k != i ==> Above(cmp, s, k, 2 * k, cnt) && Above(cmp, s, k, 2 * k + 1, cnt))
    && (i / 2 >= lo ==> Above(cmp, s, i / 2, 2 * i, cnt) && Above(cmp, s, i / 2, 2 * i + 1, cnt))
  }

  /** Element `m` is the largest among `i` and its children, and strictly so against `i` if it is not `i`. */
  predicate Larger<T>(cmp: (T, T) -> int, s: seq<T>, i: int, m: int, cnt: int)
    requires 0 <= cnt <= |s| && 1 <= i && 1 <= m
  {
    (m != i ==> m <= cnt && i <= cnt && cmp(s[m - 1], s[i - 1]) > 0)
    && Above(cmp, s, m, 2 * i, cnt) && Above(cmp, s, m, 2 * i + 1, cnt)
  }

  function Swap<T>(s: seq<T>, i: nat, j: nat): seq<T>
    requires i < |s| && j < |s|
  {
    s[i := s[j]][j := s[i]]
  }

  /** Floating the larger child up moves the exception down to that child. */
  lemma SwapDown<T(!new)>(cmp: (T, T) -> int, s: seq<T>, lo: int, i: int, m: int, cnt: int)
    requires TotalPreorder(cmp) && 0 <= cnt <= |s| && 1 <= lo <= i && (m == 2 * i || m == 2 * i + 1) && m <= cnt
    requires HeapBut(cmp, s, lo, i, cnt) && Larger(cmp, s, i, m, cnt)
    ensures HeapBut(cmp, Swap(s, i - 1, m - 1), lo, m, cnt)
  {
    var t := Swap(s, i - 1, m - 1);
    assert t[i - 1] == s[m - 1] && t[m - 1] == s[i - 1];
    forall k | lo <= k <= cnt && k != m
      ensures Above(cmp, t, k, 2 * k, cnt) && Above(cmp, t, k, 2 * k + 1, cnt)
    {
      if k != i {
        assert Above(cmp, s, k, 2 * k, cnt) && Above(cmp, s, k, 2 * k + 1, cnt);
        if i / 2 == k { assert Above(cmp, s, i / 2, 2 * i, cnt) && Above(cmp, s, i / 2, 2 * i + 1, cnt); }
      }
    }
    assert m / 2 == i;
    assert Above(cmp, s, m, 2 * m, cnt) && Above(cmp, s, m, 2 * m + 1, cnt);
  }

  /** do_swap. */
  method DoSwap<T>(a: array<T>, x: nat, y: nat)
    requires 1 <= x <= a.Length && 1 <= y <= a.Length
    modifies a
    ensures a[..] == Swap(old(a[..]), x - 1, y - 1)
  {
    a[x - 1], a[y - 1] := a[y - 1], a[x - 1];
  }

  /** The index of the largest among element `i` and its children. */
  method LargestOf<T(!new)>(a: array<T>, i: nat, cnt: nat, cmp: (T, T) -> int) returns (max: nat)
    requires TotalPreorder(cmp) && 1 <= i && cnt <= a.Length
    ensures max == i || ((max == 2 * i || max == 2 * i + 1) && max <= cnt)
    ensures Larger(cmp, a[..], i, max, cnt)
  {
    var left := 2 * i;
    var right := 2 * i + 1;
    max := i;
    if left <= cnt && cmp(a[left - 1], a[max - 1]) > 0 { max := left; }
    if left <= cnt {
      Mirror(cmp, a[i - 1], a[left - 1]);
      Mirror(cmp, a[left - 1], a[left - 1]);
    }
    ghost var first := max;
    if right <= cnt && cmp(a[right - 1], a[max - 1]) > 0 { max := right; }
    if right <= cnt {
      Mirror(cmp, a[first - 1], a[right - 1]);
      Mirror(cmp, a[right - 1], a[right - 1]);
      if max == right {
        Transitive(cmp, a[right - 1], a[first - 1], a[left - 1]);
        if first == left { Over(cmp, a[right - 1], a[left - 1], a[i - 1]); }
      }
    }
  }

  /** `t` permutes the elements `start` to `cnt` of `s`, 1-based, and keeps the others. */
  ghost predicate Permuted<T>(s: seq<T>, t: seq<T>, start: nat, cnt: nat)
    requires cnt <= |s| && 1 <= start
  {
    |t| == |s| && multiset(t[..cnt]) == multiset(s[..cnt]) && t[cnt..] == s[cnt..]
    && forall k :: 0 <= k < start - 1 && k < |s| ==> t[k] == s[k]
  }

  lemma SwapStaysPermuted<T>(s: seq<T>, t: seq<T>, start: nat, cnt: nat, i: nat, j: nat)
    requires cnt <= |s| && 1 <= start && Permuted(s, t, start, cnt)
    requires start - 1 <= i < cnt && start - 1 <= j < cnt
    ensures Permuted(s, Swap(t, i, j), start, cnt)
  {
  }

  /** Floats element `start` down until the heap holds from `start` on. */
  method Heapify<T(!new)>(a: array<T>, start: nat, cnt: nat, cmp: (T, T) -> int)
    requires TotalPreorder(cmp) && 1 <= start && cnt <= a.Length
    requires HeapFrom(cmp, a[..], start + 1, cnt)
    modifies a
    ensures HeapFrom(cmp, a[..], start, cnt)
    ensures Permuted(old(a[..]), a[..], start, cnt)
  {
    ghost var s := a[..];
    var i := start;
    while true
      invariant start <= i && (i > start ==> i <= cnt)
      invariant HeapBut(cmp, a[..], start, i, cnt)
      invariant Permuted(s, a[..], start, cnt)
      decreases cnt + start - i
    {
      var max := LargestOf(a, i, cnt, cmp);
      if max == i {
        break;
      }
      FloatDown(a, s, start, i, max, cnt, cmp);
      i := max;
    }
  }

  method FloatDown<T(!new)>(a: array<T>, ghost s: seq<T>, start: nat, i: nat, max: nat, cnt: nat, cmp: (T, T) -> int)
    requires TotalPreorder(cmp) && cnt <= a.Length == |s| && 1 <= start <= i
    requires (max == 2 * i || max == 2 * i + 1) && max <= cnt && Larger(cmp, a[..], i, max, cnt)
    requires HeapBut(cmp, a[..], start, i, cnt) && Permuted(s, a[..], start, cnt)
    modifies a
    ensures HeapBut(cmp, a[..], start, max, cnt) && Permuted(s, a[..], start, cnt)
  {
    ghost var t := a[..];
    SwapDown(cmp, t, start, i, max, cnt);
    SwapStaysPermuted(s, t, start, cnt, i - 1, max - 1);
    DoSwap(a, i, max);
    assert a[..] == Swap(t, i - 1, max - 1);
  }

  lemma {:induction false} RootIsMax<T(!new)>(cmp: (T, T) -> int, s: seq<T>, cnt: nat, k: nat)
    requires TotalPreorder(cmp) && cnt <= |s| && HeapFrom(cmp, s, 1, cnt) && 1 <= k <= cnt
    ensures cmp(s[0], s[k - 1]) >= 0
  {
    if k > 1 {
      RootIsMax(cmp, s, cnt, k / 2);
      assert k == 2 * (k / 2) || k == 2 * (k / 2) + 1;
      assert Above(cmp, s, k / 2, 2 * (k / 2), cnt) && Above(cmp, s, k / 2, 2 * (k / 2) + 1, cnt);
      Transitive(cmp, s[0], s[k / 2 - 1], s[k - 1]);
    } else {
      Mirror(cmp, s[0], s[0]);
    }
  }

  /** Every element of the first part is at most every element of the second. */
  predicate Split<T>(cmp: (T, T) -> int, s: seq<T>, m: nat)
    requires m <= |s|
  {
    forall i, j :: 0 <= i < m <= j < |s| ==> cmp(s[i], s[j]) <= 0
  }

  /** Permuting the first part keeps the split. */
  lemma SplitPermuted<T>(cmp: (T, T) -> int, s: seq<T>, t: seq<T>, m: nat)
    requires m <= |s| == |t| && Split(cmp, s, m)
    requires multiset(s[..m]) == multiset(t[..m]) && s[m..] == t[m..]
    ensures Split(cmp, t, m)
  {
    forall i, j | 0 <= i < m <= j < |t|
      ensures cmp(t[i], t[j]) <= 0
    {
      assert t[..m][i] in multiset(s[..m]);
      var k :| 0 <= k < m && s[..m][k] == t[..m][i];
      assert t[j] == t[m..][j - m] == s[j];
      assert cmp(s[k], s[j]) <= 0;
    }
  }

  lemma WholePermuted<T>(s: seq<T>, t: seq<T>, m: nat)
    requires m <= |s| == |t| && multiset(s[..m]) == multiset(t[..m]) && s[m..] == t[m..]
    ensures multiset(s) == multiset(t)
  {
    assert s == s[..m] + s[m..] && t == t[..m] + t[m..];
  }

  /** Moving the root behind the heap extends the sorted part by one. */
  lemma RootGoesLast<T(!new)>(cmp: (T, T) -> int, s: seq<T>, i: nat)
    requires TotalPreorder(cmp) && 1 < i <= |s| && HeapFrom(cmp, s, 1, i) && Split(cmp, s, i) && Ordered(cmp, s[i..])
    ensures var t := Swap(s, 0, i - 1);
            Split(cmp, t, i - 1) && Ordered(cmp, t[i - 1..]) && HeapFrom(cmp, t, 2, i - 1)
  {
    var t := Swap(s, 0, i - 1);
    forall k | 0 <= k < i
      ensures cmp(s[k], s[0]) <= 0
    {
      RootIsMax(cmp, s, i, k + 1);
      Mirror(cmp, s[0], s[k]);
    }
    forall x, y | 0 <= x < i - 1 <= y < |t|
      ensures cmp(t[x], t[y]) <= 0
    {
      var x' := if x == 0 then i - 1 else x;
      assert t[x] == s[x'] && t[i - 1] == s[0] && (y >= i ==> t[y] == s[y]);
      assert cmp(s[x'], s[0]) <= 0;
    }
    var r := t[i - 1..];
    assert r == [s[0]] + s[i..];
    forall k | 2 <= k <= i - 1
      ensures Above(cmp, t, k, 2 * k, i - 1) && Above(cmp, t, k, 2 * k + 1, i - 1)
    {
      assert Above(cmp, s, k, 2 * k, i) && Above(cmp, s, k, 2 * k + 1, i);
    }
  }

  method Sort<T(!new)>(a: array<T>, cmp: (T, T) -> int)
    requires TotalPreorder(cmp)
    modifies a
    ensures Ordered(cmp, a[..]) && multiset(a[..]) == multiset(old(a[..]))
  {
    var cnt := a.Length;
    assert a[..cnt] == a[..] && a[cnt..] == [];
    var i := cnt / 2;
    while i > 0
      invariant 0 <= i <= cnt / 2
      invariant HeapFrom(cmp, a[..], i + 1, cnt)
      invariant multiset(a[..cnt]) == multiset(old(a[..]))
    {
      Heapify(a, i, cnt, cmp);
      i := i - 1;
    }
    assert a[..cnt] == a[..] && a[cnt..] == [];
    i := cnt;
    while i > 1
      invariant 0 <= i <= cnt && (cnt > 0 ==> i > 0)
      invariant HeapFrom(cmp, a[..], 1, i)
      invariant Split(cmp, a[..], i) && Ordered(cmp, a[i..])
      invariant multiset(a[..]) == multiset(old(a[..]))
    {
      SortStep(a, i, cmp);
      i := i - 1;
    }
    if i == 1 { assert a[..] == [a[0]] + a[1..]; }
  }

  /** One round of the second loop: the root goes behind the heap, which is then repaired. */
  method SortStep<T(!new)>(a: array<T>, i: nat, cmp: (T, T) -> int)
    requires TotalPreorder(cmp) && 1 < i <= a.Length
    requires HeapFrom(cmp, a[..], 1, i) && Split(cmp, a[..], i) && Ordered(cmp, a[i..])
    modifies a
    ensures HeapFrom(cmp, a[..], 1, i - 1) && Split(cmp, a[..], i - 1) && Ordered(cmp, a[i - 1..])
    ensures multiset(a[..]) == multiset(old(a[..]))
  {
    ghost var s := a[..];
    RootGoesLast(cmp, s, i);
    DoSwap(a, 1, i);
    ghost var t := a[..];
    Heapify(a, 1, i - 1, cmp);
    WholePermuted(t, a[..], i - 1);
    SplitPermuted(cmp, t, a[..], i - 1);
  }

  lemma Below<T(!new)>(cmp: (T, T) -> int, x: T, y: T, z: T)
    requires TotalPreorder(cmp) && cmp(x, y) < 0 && cmp(z, y) >= 0
    ensures cmp(x, z) < 0
  {
    if cmp(x, z) >= 0 { Transitive(cmp, x, z, y); }
  }

  lemma Over<T(!new)>(cmp: (T, T) -> int, x: T, y: T, z: T)
    requires TotalPreorder(cmp) && cmp(x, y) > 0 && cmp(y, z) >= 0
    ensures cmp(x, z) > 0
  {
    Transitive(cmp, x, y, z);
    Mirror(cmp, z, x);
    Mirror(cmp, y, x);
    if cmp(z, x) >= 0 { Transitive(cmp, y, z, x); }
  }

  /** The index of an element equal to `key`, if there is one. */
  method BinarySearch<T(!new)>(key: T, a: array<T>, cmp: (T, T) -> int) returns (r: Option<nat>)
    requires TotalPreorder(cmp) && Ordered(cmp, a[..])
    ensures r.Some? ==> r.value < a.Length && cmp(key, a[r.value]) == 0
    ensures r.None? <==> forall k :: 0 <= k < a.Length ==> cmp(key, a[k]) != 0
  {
    var first, last := 0, a.Length;
    while first < last
      invariant 0 <= first <= last <= a.Length
      invariant forall k :: 0 <= k < first ==> cmp(key, a[k]) > 0
      invariant forall k :: last <= k < a.Length ==> cmp(key, a[k]) < 0
    {
      var range := last - first;
      var middle := first + range / 2;
      var c := cmp(key, a[middle]);
      if c < 0 {
        forall k | middle <= k < a.Length
          ensures cmp(key, a[k]) < 0
        {
          assert a[..][middle] == a[middle] && a[..][k] == a[k];
          Mirror(cmp, a[k], a[middle]);
          Mirror(cmp, a[middle], a[middle]);
          Mirror(cmp, a[middle], key);
          Below(cmp, key, a[middle], a[k]);
        }
        last := middle;
      } else if c > 0 {
        forall k | 0 <= k <= middle
          ensures cmp(key, a[k]) > 0
        {
          assert a[..][middle] == a[middle] && a[..][k] == a[k];
          Mirror(cmp, a[middle], a[k]);
          Mirror(cmp, a[middle], a[middle]);
          Over(cmp, key, a[middle], a[k]);
        }
        first := middle + 1;
      } else {
        return Some(middle);
      }
    }
    return None;
  }
}
