/** The block allocator over the page allocator (malloc.c, palloc.c) as functions on the heap's
    state: the page bitmap, each descriptor's free list of block addresses, the arena headers by
    page number, and, for the specification, what each client holds. One call is one step. */
module Allocator {
  import opened Wrappers
  import A = Arithmetic

  const PGSIZE: nat := 4096
  const HEADER: nat := 12       // sizeof (struct arena)
  const DESCS: nat := 7         // desc_cnt once malloc_init returns

  /** A header holds its descriptor (None for a big block) and its free blocks, or its pages. */
  datatype Arena = Arena(desc: Option<nat>, freeCnt: nat)

  datatype Heap = Heap(base: nat, used: seq<bool>, free: seq<seq<nat>>, arenas: map<nat, Arena>,
                       live: map<nat, nat>)

  datatype Event = Malloc(size: A.u32) | Free(p: nat)

  function PageNo(a: nat): nat { a / 4096 }
  function Offset(a: nat): nat { a % 4096 }

  // ----- Size classes ----------------------------------------------------------

  function BlockSize(d: nat): (r: nat)
    ensures r >= 16
  {
    if d == 0 then 16 else 2 * BlockSize(d - 1)
  }

  function BlocksPerArena(d: nat): nat { A.Quot(PGSIZE - HEADER, BlockSize(d)) }

  lemma ClassSizes()
    ensures BlockSize(0) == 16 && BlockSize(1) == 32 && BlockSize(2) == 64 && BlockSize(3) == 128
    ensures BlockSize(4) == 256 && BlockSize(5) == 512 && BlockSize(6) == 1024 && BlockSize(7) == 2048
  {
    assert BlockSize(2) == 64;
    assert BlockSize(4) == 256;
    assert BlockSize(6) == 1024;
  }

  lemma {:induction false} SizesGrow(d: nat, e: nat)
    requires d <= e
    ensures BlockSize(d) <= BlockSize(e)
  {
    if d == e {
    } else {
      SizesGrow(d, e - 1);
    }
  }

  lemma ArenaHoldsSome(d: nat)
    requires d < DESCS
    ensures BlocksPerArena(d) >= 1 && BlockSize(d) <= 1024
  {
    ClassSizes();
    SizesGrow(d, 6);
  }

  /** `i * n` by addition, so that the solver only adds. */
  function Times(i: nat, n: nat): nat { if i == 0 then 0 else Times(i - 1, n) + n }

  lemma {:induction false} TimesDivides(i: nat, n: nat)
    requires n > 0
    ensures A.Quot(Times(i, n), n) == i && A.Rem(Times(i, n), n) == 0
  {
    if i == 0 {
    } else {
      TimesDivides(i - 1, n);
    }
  }

  lemma {:induction false} QuotTimes(x: nat, n: nat)
    requires n > 0
    ensures Times(A.Quot(x, n), n) <= x
  {
    if x < n {
    } else {
      QuotTimes(x - n, n);
    }
  }

  lemma {:induction false} TimesGrow(i: nat, j: nat, n: nat)
    requires i <= j
    ensures Times(i, n) <= Times(j, n)
    ensures i < j ==> Times(i, n) + n <= Times(j, n)
  {
    if i == j {
    } else {
      TimesGrow(i, j - 1, n);
    }
  }

  /** The blocks of an arena lie between its header and the end of its page. */
  lemma BlocksFit(d: nat, i: nat)
    requires d < DESCS && i < BlocksPerArena(d)
    ensures HEADER + Times(i, BlockSize(d)) + BlockSize(d) <= PGSIZE
  {
    QuotTimes(PGSIZE - HEADER, BlockSize(d));
    TimesGrow(i, BlocksPerArena(d), BlockSize(d));
  }

  /** An arena has as many blocks as fit behind its header. */
  lemma BlocksPerArenaMost(d: nat)
    requires d < DESCS
    ensures var n := BlocksPerArena(d);
            HEADER + Times(n, BlockSize(d)) <= PGSIZE < HEADER + Times(n + 1, BlockSize(d))
  {
    QuotMost(PGSIZE - HEADER, BlockSize(d));
  }

  lemma {:induction false} QuotMost(x: nat, n: nat)
    requires n > 0
    ensures Times(A.Quot(x, n), n) <= x < Times(A.Quot(x, n) + 1, n)
  {
    if x < n {
    } else {
      QuotMost(x - n, n);
    }
  }

  function BlockAt(page: nat, d: nat, i: nat): (b: nat)
    requires d < DESCS && i < BlocksPerArena(d)
    ensures PageNo(b) == page && Offset(b) == HEADER + Times(i, BlockSize(d))
    ensures IndexIn(d, b) == i
  {
    BlocksFit(d, i);
    TimesDivides(i, BlockSize(d));
    page * 4096 + HEADER + Times(i, BlockSize(d))
  }

  /** The index of the block at `b` among its arena's blocks. */
  function IndexIn(d: nat, b: nat): nat {
    if Offset(b) < HEADER then 0 else A.Quot(Offset(b) - HEADER, BlockSize(d))
  }

  /** `b` is where a block of size class `d` starts in its page. */
  predicate IsBlock(d: nat, b: nat)
    requires d < DESCS
  {
    IndexIn(d, b) < BlocksPerArena(d) && b == BlockAt(PageNo(b), d, IndexIn(d, b))
  }

  /** All the blocks of an arena from index `i` on. */
  function BlocksFrom(page: nat, d: nat, i: nat): seq<nat>
    requires d < DESCS && i <= BlocksPerArena(d)
    decreases BlocksPerArena(d) - i
  {
    if i == BlocksPerArena(d) then [] else [BlockAt(page, d, i)] + BlocksFrom(page, d, i + 1)
  }

  lemma {:induction false} BlocksFromMembers(page: nat, d: nat, i: nat)
    requires d < DESCS && i <= BlocksPerArena(d)
    ensures NoDup(BlocksFrom(page, d, i))
    ensures forall b :: b in BlocksFrom(page, d, i) <==>
              PageNo(b) == page && IsBlock(d, b) && i <= IndexIn(d, b)
    decreases BlocksPerArena(d) - i
  {
    if i == BlocksPerArena(d) {
    } else {
      BlocksFromMembers(page, d, i + 1);
    }
  }

  // ----- Lists -----------------------------------------------------------------

  predicate NoDup(s: seq<nat>) {
    s == [] || (s[0] !in s[1..] && NoDup(s[1..]))
  }

  /** list_remove on the element `x`. */
  function RemoveOne(s: seq<nat>, x: nat): seq<nat> {
    if s == [] then [] else if s[0] == x then s[1..] else [s[0]] + RemoveOne(s[1..], x)
  }

  /** The list without the first `n` blocks of the arena on `page`. */
  function Without(s: seq<nat>, page: nat, d: nat, n: nat): (r: seq<nat>)
    requires d < DESCS
    ensures forall b :: b in r <==> b in s && !(PageNo(b) == page && IsBlock(d, b) && IndexIn(d, b) < n)
  {
    if s == [] then []
    else
      var rest := Without(s[1..], page, d, n);
      if PageNo(s[0]) == page && IsBlock(d, s[0]) && IndexIn(d, s[0]) < n then rest else [s[0]] + rest
  }

  lemma {:induction false} WithoutNone(s: seq<nat>, page: nat, d: nat)
    requires d < DESCS
    ensures Without(s, page, d, 0) == s
  {
    if s == [] {
    } else {
      WithoutNone(s[1..], page, d);
    }
  }

  lemma {:induction false} WithoutNoDup(s: seq<nat>, page: nat, d: nat, n: nat)
    requires d < DESCS && NoDup(s)
    ensures NoDup(Without(s, page, d, n))
  {
    if s == [] {
    } else {
      WithoutNoDup(s[1..], page, d, n);
    }
  }

  lemma {:induction false} WithoutAbsent(s: seq<nat>, page: nat, d: nat, n: nat)
    requires d < DESCS && n < BlocksPerArena(d) && BlockAt(page, d, n) !in s
    ensures Without(s, page, d, n + 1) == Without(s, page, d, n)
  {
    if s == [] {
    } else {
      WithoutAbsent(s[1..], page, d, n);
    }
  }

  /** Removing the next block takes the list one block further. */
  lemma {:induction false} WithoutNext(s: seq<nat>, page: nat, d: nat, n: nat)
    requires d < DESCS && n < BlocksPerArena(d) && NoDup(s)
    ensures RemoveOne(Without(s, page, d, n), BlockAt(page, d, n)) == Without(s, page, d, n + 1)
  {
    if s == [] {
    } else {
      var b := BlockAt(page, d, n);
      WithoutNext(s[1..], page, d, n);
      if s[0] == b {
        WithoutAbsent(s[1..], page, d, n);
      } else {
        assert PageNo(s[0]) == page && IsBlock(d, s[0]) ==> IndexIn(d, s[0]) != n;
      }
    }
  }

  // ----- Counting an arena's free blocks ---------------------------------------

  /** How many of the first `n` blocks of the arena are on the list. */
  function FreeBlocks(s: seq<nat>, page: nat, d: nat, n: nat): (r: nat)
    requires d < DESCS && n <= BlocksPerArena(d)
    ensures r <= n
  {
    if n == 0 then 0
    else FreeBlocks(s, page, d, n - 1) + (if BlockAt(page, d, n - 1) in s then 1 else 0)
  }

  /** The count depends only on which of the arena's blocks are listed. */
  lemma {:induction false} FreeBlocksSame(s: seq<nat>, t: seq<nat>, page: nat, d: nat, n: nat)
    requires d < DESCS && n <= BlocksPerArena(d)
    requires forall b :: PageNo(b) == page ==> (b in s <==> b in t)
    ensures FreeBlocks(s, page, d, n) == FreeBlocks(t, page, d, n)
  {
    if n == 0 {
    } else {
      FreeBlocksSame(s, t, page, d, n - 1);
    }
  }

  /** One more block of the arena on the list adds one. */
  lemma {:induction false} FreeBlocksAdd(s: seq<nat>, t: seq<nat>, b: nat, d: nat, n: nat)
    requires d < DESCS && n <= BlocksPerArena(d) && IsBlock(d, b)
    requires b !in s && b in t && forall x :: x != b ==> (x in s <==> x in t)
    ensures FreeBlocks(t, PageNo(b), d, n) == FreeBlocks(s, PageNo(b), d, n) + (if IndexIn(d, b) < n then 1 else 0)
  {
    if n == 0 {
    } else {
      FreeBlocksAdd(s, t, b, d, n - 1);
    }
  }

  /** All are listed exactly when the count says so. */
  lemma {:induction false} FreeBlocksFull(s: seq<nat>, page: nat, d: nat, n: nat)
    requires d < DESCS && n <= BlocksPerArena(d)
    ensures FreeBlocks(s, page, d, n) == n <==> forall i: nat :: i < n ==> BlockAt(page, d, i) in s
  {
    if n == 0 {
    } else {
      FreeBlocksFull(s, page, d, n - 1);
    }
  }

  // ----- The page allocator ----------------------------------------------------

  predicate Clear(used: seq<bool>, i: nat, n: nat) {
    i + n <= |used| && forall k :: i <= k < i + n ==> !used[k]
  }

  /** bitmap_scan: the first run of `n` clear bits at or after `i`. */
  function FirstFit(used: seq<bool>, i: nat, n: nat): (r: Option<nat>)
    ensures r.Some? ==> i <= r.value && Clear(used, r.value, n)
    ensures forall k: nat :: i <= k && (r.None? || k < r.value) ==> !Clear(used, k, n)
    decreases |used| - i
  {
    if i + n > |used| then None
    else if Clear(used, i, n) then Some(i)
    else if i == |used| then None
    else FirstFit(used, i + 1, n)
  }

  function SetBits(used: seq<bool>, i: nat, n: nat, v: bool): (r: seq<bool>)
    ensures |r| == |used|
    ensures forall k :: 0 <= k < |used| ==> r[k] == if i <= k < i + n then v else used[k]
  {
    seq(|used|, k requires 0 <= k < |used| => if i <= k < i + n then v else used[k])
  }

  // ----- The calls -------------------------------------------------------------

  /** The first descriptor, from `d` on, whose blocks hold `size` bytes; DESCS if none does. */
  function Fit(size: nat, d: nat): (r: nat)
    requires d <= DESCS
    ensures d <= r <= DESCS
    ensures r < DESCS ==> size <= BlockSize(r)
    ensures forall e :: d <= e < r ==> BlockSize(e) < size
    decreases DESCS - d
  {
    if d == DESCS || size <= BlockSize(d) then d else Fit(size, d + 1)
  }

  /** DIV_ROUND_UP (size + sizeof *a, PGSIZE) in 32-bit arithmetic. */
  function BigPages(size: A.u32): nat {
    A.Wrap32(A.Wrap32(size + 12) + 4095) / 4096
  }

  /** `h` with an arena whose first page is page `i` of the pool. */
  function AddArena(h: Heap, i: nat, a: Arena): Heap {
    h.(used := SetBits(h.used, i, Pages(a), true), arenas := h.arenas[h.base + i := a])
  }

  function TakeBig(h: Heap, size: A.u32): (Heap, nat) {
    TakeRun(h, size, BigPages(size))
  }

  function TakeRun(h: Heap, size: nat, cnt: nat): (Heap, nat) {
    var at := FirstFit(h.used, 0, cnt);
    if cnt == 0 || at.None? then (h, 0)
    else (TakeAt(h, size, cnt, at.value), (h.base + at.value) * 4096 + HEADER)
  }

  /** A big block of `cnt` pages from page `i` of the pool. */
  function TakeAt(h: Heap, size: nat, cnt: nat, i: nat): Heap {
    AddArena(h, i, Arena(None, cnt)).(live := h.live[(h.base + i) * 4096 + HEADER := size])
  }

  /** A new arena for descriptor `d` on page `i` of the pool. */
  function RefillAt(h: Heap, d: nat, i: nat): Heap
    requires d < DESCS && |h.free| == DESCS
  {
    AddArena(h, i, Arena(Some(d), BlocksPerArena(d)))
      .(free := h.free[d := h.free[d] + BlocksFrom(h.base + i, d, 0)])
  }

  /** The heap is unchanged when no page is left. */
  function Refill(h: Heap, d: nat): Heap
    requires d < DESCS && |h.free| == DESCS
  {
    var at := FirstFit(h.used, 0, 1);
    if at.None? then h else RefillAt(h, d, at.value)
  }

  /** `free_cnt` of the arena on `page` becomes `n`. */
  function SetCount(arenas: map<nat, Arena>, page: nat, n: nat): map<nat, Arena>
    requires page in arenas
  {
    arenas[page := arenas[page].(freeCnt := n)]
  }

  function Pop(h: Heap, d: nat, size: nat): Heap
    requires d < DESCS && |h.free| == DESCS && h.free[d] != [] && PageNo(h.free[d][0]) in h.arenas
    requires h.arenas[PageNo(h.free[d][0])].freeCnt > 0
  {
    var b := h.free[d][0];
    h.(free := h.free[d := h.free[d][1..]],
       arenas := SetCount(h.arenas, PageNo(b), h.arenas[PageNo(b)].freeCnt - 1),
       live := h.live[b := size])
  }

  /** A block of descriptor `d`, from its free list or from a new arena. */
  function TakeSmall(h: Heap, d: nat, size: nat): (Heap, nat)
    requires HeapOk(h) && d < DESCS
  {
    var g := if h.free[d] == [] then RefillKeeps(h, d); Refill(h, d) else h;
    if g.free[d] == [] then (g, 0)
    else
      FrontBlock(g.arenas, g.free, d);
      (Pop(g, d, size), g.free[d][0])
  }

  function MallocStep(h: Heap, size: A.u32): (Heap, nat)
    requires HeapOk(h)
  {
    var d := Fit(size, 0);
    if size == 0 then (h, 0)
    else if d == DESCS then TakeBig(h, size)
    else TakeSmall(h, d, size)
  }

  /** The pages of the arena on `page` go back to the pool. */
  function GiveBack(h: Heap, page: nat): Heap
    requires page in h.arenas && page >= h.base
  {
    h.(used := SetBits(h.used, page - h.base, Pages(h.arenas[page]), false), arenas := h.arenas - {page})
  }

  /** An arena of small blocks goes; its blocks leave the free list. */
  function DropArena(h: Heap, page: nat): Heap
    requires page in h.arenas && page >= h.base && |h.free| == DESCS
    requires h.arenas[page].desc.Some? && h.arenas[page].desc.value < DESCS
  {
    var d := h.arenas[page].desc.value;
    GiveBack(h, page).(free := h.free[d := Without(h.free[d], page, d, BlocksPerArena(d))])
  }

  function DropBig(h: Heap, b: nat): Heap
    requires PageNo(b) in h.arenas && PageNo(b) >= h.base
  {
    GiveBack(h, PageNo(b)).(live := h.live - {b})
  }

  function Push(h: Heap, p: nat): Heap
    requires |h.free| == DESCS && PageNo(p) in h.arenas && h.arenas[PageNo(p)].desc.Some?
    requires h.arenas[PageNo(p)].desc.value < DESCS
  {
    var a := h.arenas[PageNo(p)];
    var d := a.desc.value;
    h.(free := h.free[d := [p] + h.free[d]],
       arenas := SetCount(h.arenas, PageNo(p), a.freeCnt + 1),
       live := h.live - {p})
  }

  function FreeStep(h: Heap, p: nat): Heap
    requires HeapOk(h) && (p == 0 || p in h.live)
  {
    if p == 0 then h
    else
      var page := PageNo(p);
      var a := h.arenas[page];
      if a.desc.None? then DropBig(h, p)
      else
        var g := Push(h, p);
        if g.arenas[page].freeCnt >= BlocksPerArena(a.desc.value) then DropArena(g, page) else g
  }

  // ----- Invariant -------------------------------------------------------------

  function Pages(a: Arena): nat { if a.desc.None? then a.freeCnt else 1 }

  /** Arenas lie in the pool, do not overlap, and each has at least one page. */
  predicate SpansOk(h: Heap) {
    h.base >= 1 && h.base + |h.used| <= 0x10_0000
    && (forall p :: p in h.arenas ==> Pages(h.arenas[p]) >= 1)
    && (forall p :: p in h.arenas ==> h.base <= p && p + Pages(h.arenas[p]) <= h.base + |h.used|)
    && (forall p, q :: p in h.arenas && q in h.arenas && p < q ==> p + Pages(h.arenas[p]) <= q)
  }

  predicate Covers(h: Heap, p: nat, g: nat) {
    p in h.arenas && p <= g < p + Pages(h.arenas[p])
  }

  /** The bit of page `g` in a bitmap whose first page is `base`. */
  predicate BitAt(used: seq<bool>, base: nat, g: nat) {
    base <= g < base + |used| && used[g - base]
  }

  ghost predicate BitsSet(h: Heap) {
    forall p, g :: Covers(h, p, g) ==> BitAt(h.used, h.base, g)
  }

  ghost predicate Covered(h: Heap, g: nat) { exists p :: Covers(h, p, g) }

  /** Beyond the bits set at the start, a bit is set exactly when an arena covers the page. */
  ghost predicate BitsOk(h: Heap, used0: seq<bool>) {
    |h.used| == |used0|
    && (forall g :: BitAt(h.used, h.base, g) <==> BitAt(used0, h.base, g) || Covered(h, g))
    && (forall g :: Covered(h, g) ==> !BitAt(used0, h.base, g))
  }

  /** A descriptor's free list: distinct blocks of its own arenas. */
  predicate ListOk(arenas: map<nat, Arena>, s: seq<nat>, d: nat)
    requires d < DESCS
  {
    NoDup(s)
    && forall b :: b in s ==> PageNo(b) in arenas && arenas[PageNo(b)].desc == Some(d) && IsBlock(d, b)
  }

  predicate ListsOk(arenas: map<nat, Arena>, free: seq<seq<nat>>)
    requires |free| == DESCS
  {
    forall d: nat :: d < DESCS ==> ListOk(arenas, free[d], d)
  }

  /** The header counts its blocks on the free list. */
  predicate CountOk(a: Arena, free: seq<seq<nat>>, p: nat)
    requires |free| == DESCS
  {
    a.desc.Some? ==>
      a.desc.value < DESCS
      && a.freeCnt == FreeBlocks(free[a.desc.value], p, a.desc.value, BlocksPerArena(a.desc.value))
  }

  predicate CountsOk(arenas: map<nat, Arena>, free: seq<seq<nat>>)
    requires |free| == DESCS
  {
    forall p :: p in arenas ==> CountOk(arenas[p], free, p)
  }

  /** `b` is the block of a big arena, or a block of a small one that is not free. */
  predicate BlockInUse(a: Arena, free: seq<seq<nat>>, b: nat)
    requires |free| == DESCS
  {
    if a.desc.None? then Offset(b) == HEADER
    else a.desc.value < DESCS && IsBlock(a.desc.value, b) && b !in free[a.desc.value]
  }

  predicate InUse(arenas: map<nat, Arena>, free: seq<seq<nat>>, b: nat)
    requires |free| == DESCS
  {
    PageNo(b) in arenas && BlockInUse(arenas[PageNo(b)], free, b)
  }

  /** What clients hold is exactly what is not free. */
  ghost predicate LiveOk(arenas: map<nat, Arena>, free: seq<seq<nat>>, live: map<nat, nat>)
    requires |free| == DESCS
  {
    forall b :: b in live <==> InUse(arenas, free, b)
  }

  /** No arena of small blocks has all its blocks free. */
  predicate NotWhollyFree(a: Arena) {
    a.desc.Some? ==> a.freeCnt < BlocksPerArena(a.desc.value)
  }

  ghost predicate BlocksOk(arenas: map<nat, Arena>, free: seq<seq<nat>>, live: map<nat, nat>) {
    |free| == DESCS && ListsOk(arenas, free) && CountsOk(arenas, free) && LiveOk(arenas, free, live)
  }

  ghost predicate PagesOk(h: Heap) { SpansOk(h) && BitsSet(h) }

  /** Everything but the promise that no arena is wholly free. */
  ghost predicate Core(h: Heap) {
    PagesOk(h) && BlocksOk(h.arenas, h.free, h.live)
  }

  ghost predicate HeapOk(h: Heap) {
    Core(h) && forall p :: p in h.arenas ==> NotWhollyFree(h.arenas[p])
  }

  ghost predicate Inv(h: Heap, used0: seq<bool>) {
    HeapOk(h) && BitsOk(h, used0)
  }

  lemma {:induction false} FreeBlocksPositive(s: seq<nat>, b: nat, d: nat, n: nat)
    requires d < DESCS && n <= BlocksPerArena(d) && IsBlock(d, b) && b in s && IndexIn(d, b) < n
    ensures FreeBlocks(s, PageNo(b), d, n) > 0
  {
    if IndexIn(d, b) == n - 1 {
    } else {
      FreeBlocksPositive(s, b, d, n - 1);
    }
  }

  lemma FrontBlock(arenas: map<nat, Arena>, free: seq<seq<nat>>, d: nat)
    requires |free| == DESCS && ListsOk(arenas, free) && CountsOk(arenas, free)
    requires d < DESCS && free[d] != []
    ensures var b := free[d][0];
            PageNo(b) in arenas && arenas[PageNo(b)].desc == Some(d) && IsBlock(d, b)
            && arenas[PageNo(b)].freeCnt > 0
  {
    var b := free[d][0];
    assert ListOk(arenas, free[d], d) && b in free[d];
    assert CountOk(arenas[PageNo(b)], free, PageNo(b));
    FreeBlocksPositive(free[d], b, d, BlocksPerArena(d));
  }

  // ----- What each part of a call keeps ----------------------------------------

  /** Clear bits carry no arena. */
  lemma ClearIsFree(h: Heap, i: nat, n: nat)
    requires PagesOk(h) && Clear(h.used, i, n) && n >= 1
    ensures forall g :: h.base + i <= g < h.base + i + n ==> !Covered(h, g)
    ensures forall p :: p in h.arenas ==> p + Pages(h.arenas[p]) <= h.base + i || h.base + i + n <= p
  {
    forall g | h.base + i <= g < h.base + i + n
      ensures !Covered(h, g)
    {
      assert !h.used[g - h.base] && !BitAt(h.used, h.base, g);
    }
    forall p | p in h.arenas
      ensures p + Pages(h.arenas[p]) <= h.base + i || h.base + i + n <= p
    {
      if !(p + Pages(h.arenas[p]) <= h.base + i || h.base + i + n <= p) {
        var g := if p < h.base + i then h.base + i else p;
        assert Covers(h, p, g);
      }
    }
  }

  lemma PageIsNew(h: Heap, i: nat, n: nat)
    requires PagesOk(h) && n >= 1 && Clear(h.used, i, n)
    ensures h.base + i !in h.arenas
  {
    ClearIsFree(h, i, n);
  }

  lemma AddKeepsSpans(h: Heap, i: nat, a: Arena)
    requires PagesOk(h) && Pages(a) >= 1 && Clear(h.used, i, Pages(a))
    ensures SpansOk(AddArena(h, i, a)) && h.base + i !in h.arenas
  {
    ClearIsFree(h, i, Pages(a));
  }

  /** The new arena covers its own pages and the others cover what they did. */
  lemma AddCovers(h: Heap, i: nat, a: Arena, x: nat)
    requires PagesOk(h) && Pages(a) >= 1 && h.base + i !in h.arenas
    ensures Covered(AddArena(h, i, a), x) <==> Covered(h, x) || h.base + i <= x < h.base + i + Pages(a)
  {
    var g := AddArena(h, i, a);
    if h.base + i <= x < h.base + i + Pages(a) { assert Covers(g, h.base + i, x); }
    if p :| Covers(h, p, x) { assert Covers(g, p, x); }
    if p :| Covers(g, p, x) { assert p == h.base + i || Covers(h, p, x); }
  }

  lemma AddSets(h: Heap, i: nat, n: nat, x: nat)
    requires i + n <= |h.used|
    ensures BitAt(SetBits(h.used, i, n, true), h.base, x) <==>
              BitAt(h.used, h.base, x) || h.base + i <= x < h.base + i + n
  {
  }

  lemma AddKeepsPages(h: Heap, i: nat, a: Arena)
    requires PagesOk(h) && Pages(a) >= 1 && Clear(h.used, i, Pages(a))
    ensures PagesOk(AddArena(h, i, a)) && h.base + i !in h.arenas
    ensures forall used0 :: BitsOk(h, used0) ==> BitsOk(AddArena(h, i, a), used0)
  {
    AddKeepsSpans(h, i, a);
    ClearIsFree(h, i, Pages(a));
    var g := AddArena(h, i, a);
    forall x: nat
      ensures Covered(g, x) <==> Covered(h, x) || h.base + i <= x < h.base + i + Pages(a)
      ensures BitAt(g.used, g.base, x) <==>
                BitAt(h.used, h.base, x) || h.base + i <= x < h.base + i + Pages(a)
    {
      AddCovers(h, i, a, x);
      AddSets(h, i, Pages(a), x);
    }
    forall p, x | Covers(g, p, x)
      ensures BitAt(g.used, g.base, x)
    {
      assert Covered(g, x);
      if q :| Covers(h, q, x) { assert BitAt(h.used, h.base, x); }
    }
    forall used0, x: nat | BitsOk(h, used0) && h.base + i <= x < h.base + i + Pages(a)
      ensures !BitAt(used0, h.base, x)
    {
      assert !BitAt(h.used, h.base, x);
    }
  }

  /** The page invariants see only the bitmap and where the arenas lie. */
  lemma SamePages(h: Heap, g: Heap)
    requires h.base == g.base && h.used == g.used && h.arenas.Keys == g.arenas.Keys
    requires forall p :: p in h.arenas ==> Pages(h.arenas[p]) == Pages(g.arenas[p])
    ensures PagesOk(h) ==> PagesOk(g)
    ensures forall used0 :: BitsOk(h, used0) ==> BitsOk(g, used0)
  {
    assert forall p, x :: Covers(h, p, x) <==> Covers(g, p, x);
    assert forall x :: Covered(h, x) <==> Covered(g, x) by {
      forall x
        ensures Covered(h, x) <==> Covered(g, x)
      {
        if p :| Covers(h, p, x) { assert Covers(g, p, x); }
        if p :| Covers(g, p, x) { assert Covers(h, p, x); }
      }
    }
  }

  /** A list of new arena blocks joins an empty free list. */
  lemma NewArenaBlocks(arenas: map<nat, Arena>, free: seq<seq<nat>>, live: map<nat, nat>, page: nat, d: nat)
    requires BlocksOk(arenas, free, live) && d < DESCS && free[d] == [] && page !in arenas
    ensures BlocksOk(arenas[page := Arena(Some(d), BlocksPerArena(d))], free[d := BlocksFrom(page, d, 0)], live)
  {
    var s := BlocksFrom(page, d, 0);
    var arenas' := arenas[page := Arena(Some(d), BlocksPerArena(d))];
    BlocksFromMembers(page, d, 0);
    NewArenaCounts(arenas, free, arenas', s, page, d);
    forall b
      ensures b in live <==> InUse(arenas', free[d := s], b)
    {
      assert b in live <==> InUse(arenas, free, b);
    }
  }

  lemma NewArenaCounts(arenas: map<nat, Arena>, free: seq<seq<nat>>, arenas': map<nat, Arena>, s: seq<nat>,
                       page: nat, d: nat)
    requires |free| == DESCS && CountsOk(arenas, free) && d < DESCS && page !in arenas && free[d] == []
    requires arenas' == arenas[page := Arena(Some(d), BlocksPerArena(d))]
    requires forall b :: b in s <==> PageNo(b) == page && IsBlock(d, b)
    ensures CountsOk(arenas', free[d := s])
  {
    FreeBlocksFull(s, page, d, BlocksPerArena(d));
    forall p | p in arenas'
      ensures CountOk(arenas'[p], free[d := s], p)
    {
      if p != page {
        assert CountOk(arenas[p], free, p);
        if arenas[p].desc == Some(d) {
          FreeBlocksSame(free[d], s, p, d, BlocksPerArena(d));
        }
      }
    }
  }

  lemma RefillAtKeepsPages(h: Heap, d: nat, i: nat)
    requires PagesOk(h) && d < DESCS && |h.free| == DESCS && Clear(h.used, i, 1)
    ensures h.base + i !in h.arenas && PagesOk(RefillAt(h, d, i))
    ensures forall used0 :: BitsOk(h, used0) ==> BitsOk(RefillAt(h, d, i), used0)
  {
    var a := Arena(Some(d), BlocksPerArena(d));
    AddKeepsPages(h, i, a);
    SamePages(AddArena(h, i, a), RefillAt(h, d, i));
  }

  lemma RefillAtShape(h: Heap, d: nat, i: nat)
    requires d < DESCS && |h.free| == DESCS && h.free[d] == []
    ensures var g := RefillAt(h, d, i);
            g.free == h.free[d := BlocksFrom(h.base + i, d, 0)] && g.live == h.live
            && g.arenas == h.arenas[h.base + i := Arena(Some(d), BlocksPerArena(d))]
  {
    var s := BlocksFrom(h.base + i, d, 0);
    assert h.free[d] + s == s;
  }

  lemma RefillAtKeepsBlocks(h: Heap, d: nat, i: nat)
    requires BlocksOk(h.arenas, h.free, h.live) && h.base + i !in h.arenas && d < DESCS && h.free[d] == []
    ensures var g := RefillAt(h, d, i); BlocksOk(g.arenas, g.free, g.live)
  {
    RefillAtShape(h, d, i);
    NewArenaBlocks(h.arenas, h.free, h.live, h.base + i, d);
  }

  lemma RefillAtKeeps(h: Heap, d: nat, i: nat)
    requires Core(h) && d < DESCS && h.free[d] == [] && Clear(h.used, i, 1)
    ensures Core(RefillAt(h, d, i))
    ensures forall used0 :: BitsOk(h, used0) ==> BitsOk(RefillAt(h, d, i), used0)
  {
    RefillAtKeepsPages(h, d, i);
    RefillAtKeepsBlocks(h, d, i);
  }

  lemma RefillKeeps(h: Heap, d: nat)
    requires Core(h) && d < DESCS && h.free[d] == []
    ensures Core(Refill(h, d))
    ensures forall used0 :: BitsOk(h, used0) ==> BitsOk(Refill(h, d), used0)
  {
    var at := FirstFit(h.used, 0, 1);
    if at.Some? { RefillAtKeeps(h, d, at.value); }
  }

  lemma TakeAtKeepsPages(h: Heap, size: nat, cnt: nat, i: nat)
    requires PagesOk(h) && cnt >= 1 && Clear(h.used, i, cnt)
    ensures h.base + i !in h.arenas && PagesOk(TakeAt(h, size, cnt, i))
    ensures forall used0 :: BitsOk(h, used0) ==> BitsOk(TakeAt(h, size, cnt, i), used0)
  {
    var a := Arena(None, cnt);
    AddKeepsPages(h, i, a);
    SamePages(AddArena(h, i, a), TakeAt(h, size, cnt, i));
  }

  lemma TakeAtKeepsBlocks(h: Heap, size: nat, cnt: nat, i: nat)
    requires BlocksOk(h.arenas, h.free, h.live) && h.base + i !in h.arenas
    ensures var g := TakeAt(h, size, cnt, i); BlocksOk(g.arenas, g.free, g.live)
  {
  }

  lemma TakeAtKeeps(h: Heap, size: nat, cnt: nat, i: nat)
    requires Core(h) && cnt >= 1 && Clear(h.used, i, cnt)
    ensures Core(TakeAt(h, size, cnt, i))
    ensures forall used0 :: BitsOk(h, used0) ==> BitsOk(TakeAt(h, size, cnt, i), used0)
  {
    TakeAtKeepsPages(h, size, cnt, i);
    TakeAtKeepsBlocks(h, size, cnt, i);
  }

  lemma TakeRunKeeps(h: Heap, size: nat, cnt: nat)
    requires HeapOk(h)
    ensures HeapOk(TakeRun(h, size, cnt).0)
    ensures forall used0 :: BitsOk(h, used0) ==> BitsOk(TakeRun(h, size, cnt).0, used0)
  {
    var at := FirstFit(h.used, 0, cnt);
    if cnt != 0 && at.Some? { TakeAtKeeps(h, size, cnt, at.value); }
  }

  /** Counts when the list of `d` differs by the one block `b`, present only in `t`. */
  lemma CountsFollow(s: seq<nat>, t: seq<nat>, b: nat, d: nat, p: nat)
    requires d < DESCS && IsBlock(d, b)
    requires b !in s && b in t && forall x :: x != b ==> (x in s <==> x in t)
    ensures FreeBlocks(t, p, d, BlocksPerArena(d))
         == FreeBlocks(s, p, d, BlocksPerArena(d)) + (if p == PageNo(b) then 1 else 0)
  {
    if p == PageNo(b) {
      FreeBlocksAdd(s, t, b, d, BlocksPerArena(d));
    } else {
      FreeBlocksSame(s, t, p, d, BlocksPerArena(d));
    }
  }

  /** The block `b` leaves the front of the list of `d`; `t` is what is left. */
  ghost predicate Pops(arenas: map<nat, Arena>, free: seq<seq<nat>>, d: nat, b: nat, t: seq<nat>) {
    && |free| == DESCS && d < DESCS && free[d] == [b] + t && ListOk(arenas, free[d], d)
    && PageNo(b) in arenas && arenas[PageNo(b)].freeCnt > 0
  }

  lemma PoppedFacts(arenas: map<nat, Arena>, free: seq<seq<nat>>, d: nat, b: nat, t: seq<nat>)
    requires Pops(arenas, free, d, b, t)
    ensures (forall x :: x in free[d] <==> x == b || x in t) && b !in t && ListOk(arenas, t, d)
    ensures arenas[PageNo(b)].desc == Some(d) && IsBlock(d, b)
  {
    assert free[d][0] == b && free[d][1..] == t;
  }

  lemma PopCounts(arenas: map<nat, Arena>, free: seq<seq<nat>>, d: nat, b: nat, t: seq<nat>)
    requires Pops(arenas, free, d, b, t) && CountsOk(arenas, free)
    ensures CountsOk(SetCount(arenas, PageNo(b), arenas[PageNo(b)].freeCnt - 1), free[d := t])
  {
    var arenas' := SetCount(arenas, PageNo(b), arenas[PageNo(b)].freeCnt - 1);
    PoppedFacts(arenas, free, d, b, t);
    forall p | p in arenas'
      ensures CountOk(arenas'[p], free[d := t], p)
    {
      assert CountOk(arenas[p], free, p);
      CountsFollow(t, free[d], b, d, p);
    }
  }

  lemma PopLive(arenas: map<nat, Arena>, free: seq<seq<nat>>, live: map<nat, nat>, d: nat, b: nat, t: seq<nat>,
                size: nat)
    requires Pops(arenas, free, d, b, t) && LiveOk(arenas, free, live)
    ensures LiveOk(SetCount(arenas, PageNo(b), arenas[PageNo(b)].freeCnt - 1), free[d := t], live[b := size])
  {
    var arenas' := SetCount(arenas, PageNo(b), arenas[PageNo(b)].freeCnt - 1);
    var free', live' := free[d := t], live[b := size];
    PoppedFacts(arenas, free, d, b, t);
    forall x
      ensures x in live' <==> InUse(arenas', free', x)
    {
      assert x in live <==> InUse(arenas, free, x);
    }
  }

  lemma PopLists(arenas: map<nat, Arena>, free: seq<seq<nat>>, d: nat, b: nat, t: seq<nat>)
    requires Pops(arenas, free, d, b, t) && ListsOk(arenas, free)
    ensures ListsOk(SetCount(arenas, PageNo(b), arenas[PageNo(b)].freeCnt - 1), free[d := t])
  {
    var arenas' := SetCount(arenas, PageNo(b), arenas[PageNo(b)].freeCnt - 1);
    var free' := free[d := t];
    PoppedFacts(arenas, free, d, b, t);
    forall e: nat | e < DESCS
      ensures ListOk(arenas', free'[e], e)
    {
      assert ListOk(arenas, free[e], e);
    }
  }

  lemma PopBlocks(arenas: map<nat, Arena>, free: seq<seq<nat>>, live: map<nat, nat>, d: nat, size: nat)
    requires BlocksOk(arenas, free, live) && d < DESCS && free[d] != []
    requires PageNo(free[d][0]) in arenas && arenas[PageNo(free[d][0])].freeCnt > 0
    ensures var b := free[d][0];
            BlocksOk(SetCount(arenas, PageNo(b), arenas[PageNo(b)].freeCnt - 1), free[d := free[d][1..]], live[b := size])
  {
    var b, t := free[d][0], free[d][1..];
    assert ListOk(arenas, free[d], d) && free[d] == [b] + t;
    PopLists(arenas, free, d, b, t);
    PopCounts(arenas, free, d, b, t);
    PopLive(arenas, free, live, d, b, t, size);
  }

  lemma PopKeepsPages(h: Heap, d: nat, size: nat)
    requires PagesOk(h) && |h.free| == DESCS && d < DESCS && h.free[d] != []
    requires PageNo(h.free[d][0]) in h.arenas && h.arenas[PageNo(h.free[d][0])].freeCnt > 0
    requires h.arenas[PageNo(h.free[d][0])].desc == Some(d)
    ensures PagesOk(Pop(h, d, size))
    ensures forall used0 :: BitsOk(h, used0) ==> BitsOk(Pop(h, d, size), used0)
  {
    SamePages(h, Pop(h, d, size));
  }

  lemma PopKeeps(h: Heap, d: nat, size: nat)
    requires Core(h) && d < DESCS && h.free[d] != []
    requires forall p :: p in h.arenas && p != PageNo(h.free[d][0]) ==> NotWhollyFree(h.arenas[p])
    ensures PageNo(h.free[d][0]) in h.arenas && h.arenas[PageNo(h.free[d][0])].freeCnt > 0
    ensures HeapOk(Pop(h, d, size))
    ensures forall used0 :: BitsOk(h, used0) ==> BitsOk(Pop(h, d, size), used0)
  {
    var b := h.free[d][0];
    FrontBlock(h.arenas, h.free, d);
    PopKeepsBlocks(h, d, size);
    PopKeepsPages(h, d, size);
    PoppedNotFull(h.arenas, h.free, b);
  }

  lemma PopKeepsBlocks(h: Heap, d: nat, size: nat)
    requires BlocksOk(h.arenas, h.free, h.live) && d < DESCS && h.free[d] != []
    requires PageNo(h.free[d][0]) in h.arenas && h.arenas[PageNo(h.free[d][0])].freeCnt > 0
    ensures var g := Pop(h, d, size); BlocksOk(g.arenas, g.free, g.live)
  {
    PopBlocks(h.arenas, h.free, h.live, d, size);
  }

  /** An arena's count never exceeds its number of blocks. */
  lemma PoppedNotFull(arenas: map<nat, Arena>, free: seq<seq<nat>>, b: nat)
    requires |free| == DESCS && CountsOk(arenas, free) && PageNo(b) in arenas && arenas[PageNo(b)].desc.Some?
    ensures arenas[PageNo(b)].freeCnt <= BlocksPerArena(arenas[PageNo(b)].desc.value)
  {
    assert CountOk(arenas[PageNo(b)], free, PageNo(b));
  }

  lemma PushBlocks(arenas: map<nat, Arena>, free: seq<seq<nat>>, live: map<nat, nat>, b: nat)
    requires BlocksOk(arenas, free, live) && b in live && PageNo(b) in arenas && arenas[PageNo(b)].desc.Some?
    requires arenas[PageNo(b)].desc.value < DESCS
    ensures var a := arenas[PageNo(b)];
            BlocksOk(SetCount(arenas, PageNo(b), a.freeCnt + 1),
                     free[a.desc.value := [b] + free[a.desc.value]], live - {b})
  {
    var d := arenas[PageNo(b)].desc.value;
    var s := free[d];
    var t := [b] + s;
    var arenas' := SetCount(arenas, PageNo(b), arenas[PageNo(b)].freeCnt + 1);
    var free' := free[d := t];
    assert InUse(arenas, free, b);
    assert ListOk(arenas, s, d) && t[1..] == s;
    assert forall x :: x in t <==> x == b || x in s;
    assert ListOk(arenas, t, d);
    forall p | p in arenas'
      ensures CountOk(arenas'[p], free', p)
    {
      assert CountOk(arenas[p], free, p);
      CountsFollow(s, t, b, d, p);
    }
    forall x
      ensures x in live - {b} <==> InUse(arenas', free', x)
    {
      assert x in live <==> InUse(arenas, free, x);
    }
  }

  lemma PushKeepsPages(h: Heap, b: nat)
    requires PagesOk(h) && |h.free| == DESCS && PageNo(b) in h.arenas && h.arenas[PageNo(b)].desc.Some?
    requires h.arenas[PageNo(b)].desc.value < DESCS
    ensures PagesOk(Push(h, b))
    ensures forall used0 :: BitsOk(h, used0) ==> BitsOk(Push(h, b), used0)
  {
    SamePages(h, Push(h, b));
  }

  lemma PushKeeps(h: Heap, b: nat)
    requires Core(h) && b in h.live && PageNo(b) in h.arenas && h.arenas[PageNo(b)].desc.Some?
    requires h.arenas[PageNo(b)].desc.value < DESCS
    ensures Core(Push(h, b))
    ensures forall used0 :: BitsOk(h, used0) ==> BitsOk(Push(h, b), used0)
  {
    PushKeepsBlocks(h, b);
    PushKeepsPages(h, b);
  }

  lemma PushKeepsBlocks(h: Heap, b: nat)
    requires BlocksOk(h.arenas, h.free, h.live) && b in h.live && PageNo(b) in h.arenas
    requires h.arenas[PageNo(b)].desc.Some? && h.arenas[PageNo(b)].desc.value < DESCS
    ensures var g := Push(h, b); BlocksOk(g.arenas, g.free, g.live)
  {
    PushBlocks(h.arenas, h.free, h.live, b);
  }

  // ----- Giving an arena's pages back ------------------------------------------

  lemma DropCovers(h: Heap, page: nat, g: Heap, x: nat)
    requires SpansOk(h) && page in h.arenas && g.arenas == h.arenas - {page}
    ensures Covered(g, x) <==> Covered(h, x) && !(page <= x < page + Pages(h.arenas[page]))
  {
    if p :| Covers(g, p, x) { assert Covers(h, p, x) && p != page; }
    if p :| Covers(h, p, x) { assert p == page || Covers(g, p, x); }
  }

  lemma DropSets(h: Heap, i: nat, n: nat, x: nat)
    ensures BitAt(SetBits(h.used, i, n, false), h.base, x) <==>
              BitAt(h.used, h.base, x) && !(h.base + i <= x < h.base + i + n)
  {
  }

  lemma DropKeepsPages(h: Heap, page: nat, g: Heap)
    requires PagesOk(h) && page in h.arenas && g.base == h.base && g.arenas == h.arenas - {page}
    requires g.used == SetBits(h.used, page - h.base, Pages(h.arenas[page]), false)
    ensures PagesOk(g)
    ensures forall used0 :: BitsOk(h, used0) ==> BitsOk(g, used0)
  {
    var n := Pages(h.arenas[page]);
    forall x: nat
      ensures Covered(g, x) <==> Covered(h, x) && !(page <= x < page + n)
      ensures BitAt(g.used, g.base, x) <==> BitAt(h.used, h.base, x) && !(page <= x < page + n)
    {
      DropCovers(h, page, g, x);
      DropSets(h, page - h.base, n, x);
    }
    forall p, x | Covers(g, p, x)
      ensures BitAt(g.used, g.base, x)
    {
      assert Covers(h, p, x) && Covered(g, x);
    }
    forall x: nat | page <= x < page + n
      ensures Covered(h, x)
    {
      assert Covers(h, page, x);
    }
  }

  lemma DropBlocks(arenas: map<nat, Arena>, free: seq<seq<nat>>, live: map<nat, nat>, page: nat, d: nat)
    requires BlocksOk(arenas, free, live) && page in arenas && d < DESCS
    requires arenas[page] == Arena(Some(d), BlocksPerArena(d))
    ensures BlocksOk(arenas - {page}, free[d := Without(free[d], page, d, BlocksPerArena(d))], live)
  {
    var s := free[d];
    var t := Without(s, page, d, BlocksPerArena(d));
    assert ListOk(arenas, s, d);
    WithoutNoDup(s, page, d, BlocksPerArena(d));
    assert forall b :: b in t <==> b in s && PageNo(b) != page;
    DropLists(arenas, free, page, d, t);
    DropCounts(arenas, free, page, d, t);
    assert CountOk(arenas[page], free, page);
    FreeBlocksFull(s, page, d, BlocksPerArena(d));
    forall b | PageNo(b) == page && IsBlock(d, b)
      ensures b in s
    {
      assert b == BlockAt(page, d, IndexIn(d, b));
    }
    DropLive(arenas, free, live, page, d, t);
  }

  lemma DropLists(arenas: map<nat, Arena>, free: seq<seq<nat>>, page: nat, d: nat, t: seq<nat>)
    requires |free| == DESCS && ListsOk(arenas, free) && d < DESCS && page in arenas
    requires arenas[page].desc == Some(d)
    requires NoDup(t) && forall b :: b in t <==> b in free[d] && PageNo(b) != page
    ensures ListsOk(arenas - {page}, free[d := t])
  {
    var free' := free[d := t];
    forall e: nat | e < DESCS
      ensures ListOk(arenas - {page}, free'[e], e)
    {
      assert ListOk(arenas, free[e], e);
    }
  }

  lemma DropLive(arenas: map<nat, Arena>, free: seq<seq<nat>>, live: map<nat, nat>, page: nat, d: nat, t: seq<nat>)
    requires |free| == DESCS && LiveOk(arenas, free, live) && d < DESCS && page in arenas
    requires arenas[page].desc == Some(d)
    requires forall b :: b in t <==> b in free[d] && PageNo(b) != page
    requires forall b :: PageNo(b) == page && IsBlock(d, b) ==> b in free[d]
    ensures LiveOk(arenas - {page}, free[d := t], live)
  {
    forall b
      ensures b in live <==> InUse(arenas - {page}, free[d := t], b)
    {
      assert b in live <==> InUse(arenas, free, b);
    }
  }

  lemma DropCounts(arenas: map<nat, Arena>, free: seq<seq<nat>>, page: nat, d: nat, t: seq<nat>)
    requires |free| == DESCS && CountsOk(arenas, free) && d < DESCS
    requires forall b :: b in t <==> b in free[d] && PageNo(b) != page
    ensures CountsOk(arenas - {page}, free[d := t])
  {
    forall p | p in arenas - {page}
      ensures CountOk((arenas - {page})[p], free[d := t], p)
    {
      assert CountOk(arenas[p], free, p);
      FreeBlocksSame(free[d], t, p, d, BlocksPerArena(d));
    }
  }

  lemma DropBigBlock(arenas: map<nat, Arena>, free: seq<seq<nat>>, live: map<nat, nat>, b: nat)
    requires BlocksOk(arenas, free, live) && b in live && PageNo(b) in arenas && arenas[PageNo(b)].desc == None
    ensures BlocksOk(arenas - {PageNo(b)}, free, live - {b})
  {
    var arenas' := arenas - {PageNo(b)};
    assert InUse(arenas, free, b);
    forall e: nat | e < DESCS
      ensures ListOk(arenas', free[e], e)
    {
      assert ListOk(arenas, free[e], e);
    }
    forall p | p in arenas'
      ensures CountOk(arenas'[p], free, p)
    {
      assert CountOk(arenas[p], free, p);
    }
    forall x
      ensures x in live - {b} <==> InUse(arenas', free, x)
    {
      assert x in live <==> InUse(arenas, free, x);
    }
  }

  lemma DropKeeps(h: Heap, page: nat)
    requires Core(h) && page in h.arenas && page >= h.base && h.arenas[page].desc.Some?
    requires h.arenas[page].desc.value < DESCS && h.arenas[page].freeCnt == BlocksPerArena(h.arenas[page].desc.value)
    ensures Core(DropArena(h, page))
    ensures forall used0 :: BitsOk(h, used0) ==> BitsOk(DropArena(h, page), used0)
  {
    DropBlocks(h.arenas, h.free, h.live, page, h.arenas[page].desc.value);
    DropKeepsPages(h, page, DropArena(h, page));
  }

  lemma DropBigKeeps(h: Heap, b: nat)
    requires Core(h) && b in h.live && PageNo(b) in h.arenas && h.arenas[PageNo(b)].desc.None?
    requires PageNo(b) >= h.base
    ensures Core(DropBig(h, b))
    ensures forall used0 :: BitsOk(h, used0) ==> BitsOk(DropBig(h, b), used0)
  {
    DropBigBlock(h.arenas, h.free, h.live, b);
    DropKeepsPages(h, PageNo(b), DropBig(h, b));
  }

  // ----- Whole calls -----------------------------------------------------------

  lemma TakeSmallKeeps(h: Heap, d: nat, size: nat)
    requires HeapOk(h) && d < DESCS
    ensures HeapOk(TakeSmall(h, d, size).0)
    ensures forall used0 :: BitsOk(h, used0) ==> BitsOk(TakeSmall(h, d, size).0, used0)
  {
    if h.free[d] != [] {
      PopKeeps(h, d, size);
    } else {
      RefillKeeps(h, d);
      var g := Refill(h, d);
      if g.free[d] == [] {
        RefillFills(h, d);
      } else {
        RefillOnlyNew(h, d);
        PopKeeps(g, d, size);
      }
    }
  }

  lemma MallocKeeps(h: Heap, size: A.u32, used0: seq<bool>)
    requires Inv(h, used0)
    ensures Inv(MallocStep(h, size).0, used0)
  {
    var d := Fit(size, 0);
    if size == 0 {
    } else if d == DESCS {
      TakeRunKeeps(h, size, BigPages(size));
    } else {
      TakeSmallKeeps(h, d, size);
    }
  }

  /** Only the new arena can be wholly free after a refill, and its block is at the front. */
  lemma RefillOnlyNew(h: Heap, d: nat)
    requires HeapOk(h) && d < DESCS && h.free[d] == [] && Refill(h, d).free[d] != []
    ensures var g := Refill(h, d);
            forall p :: p in g.arenas && p != PageNo(g.free[d][0]) ==> NotWhollyFree(g.arenas[p])
  {
    RefillAtOnlyNew(h, d, FirstFit(h.used, 0, 1).value);
  }

  lemma RefillAtOnlyNew(h: Heap, d: nat, i: nat)
    requires HeapOk(h) && d < DESCS && h.free[d] == [] && RefillAt(h, d, i).free[d] != []
    ensures var g := RefillAt(h, d, i);
            forall p :: p in g.arenas && p != PageNo(g.free[d][0]) ==> NotWhollyFree(g.arenas[p])
  {
    var s := BlocksFrom(h.base + i, d, 0);
    assert RefillAt(h, d, i).free[d] == s;
    assert s[0] == BlockAt(h.base + i, d, 0);
  }

  lemma FreeKeeps(h: Heap, p: nat, used0: seq<bool>)
    requires Inv(h, used0) && (p == 0 || p in h.live)
    ensures Inv(FreeStep(h, p), used0)
  {
    if p != 0 {
      var page := PageNo(p);
      if h.arenas[page].desc.None? {
        DropBigKeeps(h, p);
      } else {
        PushKeeps(h, p);
        var g := Push(h, p);
        PushedCount(h, p);
        if g.arenas[page].freeCnt >= BlocksPerArena(h.arenas[page].desc.value) { DropKeeps(g, page); }
      }
    }
  }

  /** The ASSERT in free: an arena's count never passes its number of blocks. */
  lemma PushedCount(h: Heap, p: nat)
    requires HeapOk(h) && p in h.live && PageNo(p) in h.arenas && h.arenas[PageNo(p)].desc.Some?
    ensures h.arenas[PageNo(p)].freeCnt + 1 <= BlocksPerArena(h.arenas[PageNo(p)].desc.value)
  {
    assert NotWhollyFree(h.arenas[PageNo(p)]);
  }

  // ----- What a client holds ---------------------------------------------------

  /** block_size: the bytes behind a block. */
  function Room(h: Heap, b: nat): int
    requires PageNo(b) in h.arenas
  {
    var a := h.arenas[PageNo(b)];
    if a.desc.Some? then BlockSize(a.desc.value) else 4096 * a.freeCnt - Offset(b)
  }

  /** A held block lies behind its arena's header and within the arena's pages. */
  lemma LiveInArena(h: Heap, b: nat)
    requires Core(h) && b in h.live
    ensures PageNo(b) in h.arenas && h.base <= PageNo(b)
    ensures PageNo(b) * 4096 + HEADER <= b && Room(h, b) > 0
    ensures b + Room(h, b) <= (PageNo(b) + Pages(h.arenas[PageNo(b)])) * 4096
    ensures PageNo(b) + Pages(h.arenas[PageNo(b)]) <= h.base + |h.used|
  {
    var a := h.arenas[PageNo(b)];
    if a.desc.Some? {
      assert IsBlock(a.desc.value, b);
      BlocksFit(a.desc.value, IndexIn(a.desc.value, b));
    }
  }

  lemma BlocksApart(d: nat, b: nat, c: nat)
    requires d < DESCS && IsBlock(d, b) && IsBlock(d, c) && PageNo(b) == PageNo(c) && b != c
    ensures b + BlockSize(d) <= c || c + BlockSize(d) <= b
  {
    var i, j := IndexIn(d, b), IndexIn(d, c);
    assert b == BlockAt(PageNo(b), d, i) && c == BlockAt(PageNo(c), d, j);
    if i < j { TimesGrow(i, j, BlockSize(d)); } else { TimesGrow(j, i, BlockSize(d)); }
  }

  /** Two held blocks never share a byte. */
  lemma LiveDisjoint(h: Heap, b: nat, c: nat)
    requires Core(h) && b in h.live && c in h.live && b != c
    ensures PageNo(b) in h.arenas && PageNo(c) in h.arenas
    ensures b + Room(h, b) <= c || c + Room(h, c) <= b
  {
    LiveInArena(h, b);
    LiveInArena(h, c);
    if PageNo(b) == PageNo(c) {
      BlocksApart(h.arenas[PageNo(b)].desc.value, b, c);
    } else if PageNo(b) < PageNo(c) {
      assert (PageNo(b) + Pages(h.arenas[PageNo(b)])) * 4096 <= PageNo(c) * 4096;
    } else {
      assert (PageNo(c) + Pages(h.arenas[PageNo(c)])) * 4096 <= PageNo(b) * 4096;
    }
  }

  /** How many pages a request for `size` bytes takes that is too big for any descriptor: the fewest
      that hold it and the header. Near 2^32 rounding up wraps, to none, and then adding the header
      wraps, to one. */
  ghost predicate TakesPages(size: A.u32, n: nat) {
    if size + HEADER + (PGSIZE - 1) < A.B32 then size + HEADER <= PGSIZE * n < size + HEADER + PGSIZE
    else n == if size + HEADER <= A.B32 then 0 else 1
  }

  lemma BigPagesLeast(size: A.u32)
    ensures TakesPages(size, BigPages(size))
    ensures forall n: nat :: TakesPages(size, n) ==> n == BigPages(size)
  {
    forall n: nat | TakesPages(size, n) ensures n == BigPages(size) {
      if size + HEADER + (PGSIZE - 1) < A.B32 { OneCount(size + HEADER, n, BigPages(size)); }
    }
  }

  lemma OneCount(x: nat, m: nat, n: nat)
    requires x <= PGSIZE * m < x + PGSIZE && x <= PGSIZE * n < x + PGSIZE
    ensures m == n
  {
  }

  /** The page count of a big request covers it unless adding the header wraps. */
  lemma BigPagesEnough(size: A.u32)
    requires size > 0 && BigPages(size) != 0
    ensures size <= 4096 * BigPages(size) - 12 <==> size + HEADER < A.B32
  {
  }

  /** An arena with the header `a` is one for requests of `size` bytes: of the smallest class that
      holds them, or a big block with the pages they take. */
  ghost predicate Suits(a: Arena, size: nat) {
    match a.desc
    case Some(d) => size <= BlockSize(d) && (d > 0 ==> BlockSize(d - 1) < size)
    case None => size > BlockSize(DESCS - 1) && size < A.B32 && TakesPages(size, a.freeCnt)
  }

  /** Each block is in an arena for requests of its size, and has room for its request, but for the
      requests whose size plus header wraps. */
  ghost predicate RoomOk(h: Heap) { forall b :: b in h.live ==> BlockRoom(h, b) }

  ghost predicate BlockRoom(h: Heap, b: nat)
    requires b in h.live
  {
    && PageNo(b) in h.arenas && h.live[b] > 0 && (h.live[b] <= Room(h, b) <==> h.live[b] + HEADER < A.B32)
    && Suits(h.arenas[PageNo(b)], h.live[b])
  }

  lemma TakeRunRoom(h: Heap, size: nat, cnt: nat)
    requires PagesOk(h) && RoomOk(h) && size > 0 && Suits(Arena(None, cnt), size)
    requires cnt != 0 ==> (size <= 4096 * cnt - 12 <==> size + HEADER < A.B32)
    ensures RoomOk(TakeRun(h, size, cnt).0)
  {
    var at := FirstFit(h.used, 0, cnt);
    if cnt != 0 && at.Some? {
      PageIsNew(h, at.value, cnt);
      TakeAtRoom(h, size, cnt, at.value);
    }
  }

  lemma TakeAtRoom(h: Heap, size: nat, cnt: nat, i: nat)
    requires RoomOk(h) && h.base + i !in h.arenas && size > 0 && Suits(Arena(None, cnt), size)
    requires size <= 4096 * cnt - 12 <==> size + HEADER < A.B32
    ensures RoomOk(TakeAt(h, size, cnt, i))
  {
    var g := TakeAt(h, size, cnt, i);
    forall b | b in g.live
      ensures PageNo(b) in g.arenas && g.live[b] > 0
      ensures g.live[b] <= Room(g, b) <==> g.live[b] + HEADER < A.B32
    {
    }
  }

  lemma RefillAtRoom(h: Heap, d: nat, i: nat)
    requires RoomOk(h) && d < DESCS && |h.free| == DESCS && h.base + i !in h.arenas
    ensures RoomOk(RefillAt(h, d, i))
  {
    var g := RefillAt(h, d, i);
    assert g.live == h.live;
    assert forall p :: p in h.arenas ==> p in g.arenas && g.arenas[p] == h.arenas[p];
    forall b | b in g.live
      ensures PageNo(b) in g.arenas && Room(g, b) == Room(h, b)
    {
    }
  }

  lemma RefillRoom(h: Heap, d: nat)
    requires PagesOk(h) && |h.free| == DESCS && RoomOk(h) && d < DESCS
    ensures RoomOk(Refill(h, d))
  {
    var at := FirstFit(h.used, 0, 1);
    if at.Some? {
      PageIsNew(h, at.value, 1);
      RefillAtRoom(h, d, at.value);
    }
  }

  lemma PopRoom(h: Heap, d: nat, size: nat)
    requires Core(h) && RoomOk(h) && d < DESCS && h.free[d] != [] && size > 0 && Suits(Arena(Some(d), 0), size)
    requires PageNo(h.free[d][0]) in h.arenas && h.arenas[PageNo(h.free[d][0])].freeCnt > 0
    ensures RoomOk(Pop(h, d, size))
  {
    var g := Pop(h, d, size);
    ArenaHoldsSome(d);
    FrontBlock(h.arenas, h.free, d);
    forall b | b in g.live ensures BlockRoom(g, b) {
      if b != h.free[d][0] {
        assert BlockRoom(h, b);
        SameRoom(h, g, b);
      }
    }
  }

  /** The count of free blocks does not matter. */
  lemma SameRoom(h: Heap, g: Heap, b: nat)
    requires b in h.live && BlockRoom(h, b) && b in g.live && g.live[b] == h.live[b] && PageNo(b) in g.arenas
    requires var a, c := h.arenas[PageNo(b)], g.arenas[PageNo(b)]; c.desc == a.desc && (a.desc.None? ==> c == a)
    ensures BlockRoom(g, b)
  {
  }

  lemma TakeSmallRoom(h: Heap, d: nat, size: nat)
    requires HeapOk(h) && RoomOk(h) && d < DESCS && size > 0 && Suits(Arena(Some(d), 0), size)
    ensures RoomOk(TakeSmall(h, d, size).0)
  {
    if h.free[d] != [] {
      FrontBlock(h.arenas, h.free, d);
      PopRoom(h, d, size);
    } else {
      RefillKeeps(h, d);
      RefillRoom(h, d);
      var g := Refill(h, d);
      if g.free[d] != [] {
        FrontBlock(g.arenas, g.free, d);
        PopRoom(g, d, size);
      }
    }
  }

  lemma MallocRoom(h: Heap, size: A.u32)
    requires HeapOk(h) && RoomOk(h)
    ensures RoomOk(MallocStep(h, size).0)
  {
    var d := Fit(size, 0);
    if size == 0 {
    } else if d == DESCS {
      BigPagesLeast(size);
      if BigPages(size) != 0 { BigPagesEnough(size); }
      TakeRunRoom(h, size, BigPages(size));
    } else {
      FitsNone(size);
      FitSuits(size);
      TakeSmallRoom(h, d, size);
    }
  }

  /** The result of malloc: a block nobody holds, recorded with its size; or null and nothing held changes. */
  lemma MallocResult(h: Heap, size: A.u32)
    requires HeapOk(h)
    ensures var (g, r) := MallocStep(h, size);
            if r == 0 then g.live == h.live else r !in h.live && g.live == h.live[r := size]
  {
    var d := Fit(size, 0);
    if size == 0 {
    } else if d == DESCS {
      TakeRunFresh(h, size, BigPages(size));
    } else {
      TakeSmallFresh(h, d, size);
    }
  }

  lemma TakeSmallFresh(h: Heap, d: nat, size: nat)
    requires HeapOk(h) && d < DESCS
    ensures var (g, r) := TakeSmall(h, d, size);
            if r == 0 then g.live == h.live else r !in h.live && g.live == h.live[r := size]
  {
    if h.free[d] != [] {
      PopFresh(h, d, size);
    } else {
      RefillKeeps(h, d);
      var g := Refill(h, d);
      if g.free[d] != [] { PopFresh(g, d, size); }
    }
  }

  lemma TakeRunFresh(h: Heap, size: nat, cnt: nat)
    requires PagesOk(h) && BlocksOk(h.arenas, h.free, h.live)
    ensures var (g, r) := TakeRun(h, size, cnt);
            if r == 0 then g.live == h.live else r !in h.live && g.live == h.live[r := size]
  {
    var at := FirstFit(h.used, 0, cnt);
    if cnt != 0 && at.Some? {
      PageIsNew(h, at.value, cnt);
      TakeAtFresh(h, size, cnt, at.value);
    }
  }

  lemma TakeAtFresh(h: Heap, size: nat, cnt: nat, i: nat)
    requires BlocksOk(h.arenas, h.free, h.live) && h.base + i !in h.arenas
    ensures var p := (h.base + i) * 4096 + HEADER;
            p !in h.live && TakeAt(h, size, cnt, i).live == h.live[p := size]
  {
    UnheldPage(h.arenas, h.free, h.live, h.base + i);
  }

  lemma UnheldPage(arenas: map<nat, Arena>, free: seq<seq<nat>>, live: map<nat, nat>, page: nat)
    requires |free| == DESCS && LiveOk(arenas, free, live) && page !in arenas
    ensures page * 4096 + HEADER !in live
  {
    assert page * 4096 + HEADER in live <==> InUse(arenas, free, page * 4096 + HEADER);
  }

  lemma PopFresh(h: Heap, d: nat, size: nat)
    requires Core(h) && d < DESCS && h.free[d] != []
    ensures h.free[d][0] != 0 && h.free[d][0] !in h.live
  {
    FrontBlock(h.arenas, h.free, d);
    var b := h.free[d][0];
    assert b in h.live <==> InUse(h.arenas, h.free, b);
  }

  /** No room for the request: of the smallest class that holds it no block is listed and no page is
      clear; or no run of the pages it takes is clear. */
  ghost predicate Exhausted(h: Heap, size: A.u32)
    requires |h.free| == DESCS
  {
    if size <= BlockSize(DESCS - 1) then
      forall d: nat :: d < DESCS && Suits(Arena(Some(d), 0), size) ==> h.free[d] == [] && forall i: nat :: !Clear(h.used, i, 1)
    else
      forall n: nat :: TakesPages(size, n) ==> n == 0 || forall i: nat :: !Clear(h.used, i, n)
  }

  /** Null comes back exactly for size zero or when memory is exhausted. */
  lemma MallocNull(h: Heap, size: A.u32)
    requires HeapOk(h)
    ensures MallocStep(h, size).1 == 0 <==> size == 0 || Exhausted(h, size)
  {
    if size == 0 {
    } else if size > BlockSize(DESCS - 1) {
      FitsNone(size);
      BigNull(h, size);
    } else {
      FitSuits(size);
      SmallNull(h, Fit(size, 0), size);
    }
  }

  lemma FitsNone(size: nat)
    ensures size > BlockSize(DESCS - 1) <==> Fit(size, 0) == DESCS
  {
    if Fit(size, 0) < DESCS { SizesGrow(Fit(size, 0), DESCS - 1); }
  }

  /** The descriptor that is found is the only one for the size. */
  lemma FitSuits(size: nat)
    requires 0 < size <= BlockSize(DESCS - 1)
    ensures Fit(size, 0) < DESCS && Suits(Arena(Some(Fit(size, 0)), 0), size)
    ensures forall e: nat :: e < DESCS && Suits(Arena(Some(e), 0), size) ==> e == Fit(size, 0)
  {
    FitsNone(size);
    var d := Fit(size, 0);
    forall e: nat | e < DESCS && Suits(Arena(Some(e), 0), size) ensures e == d {
      if d < e { SizesGrow(d, e - 1); }
    }
  }

  lemma BigNull(h: Heap, size: A.u32)
    requires HeapOk(h) && size > BlockSize(DESCS - 1)
    ensures TakeBig(h, size).1 == 0 <==> Exhausted(h, size)
  {
    BigPagesLeast(size);
    assert FirstFit(h.used, 0, BigPages(size)).None? <==> forall i: nat :: !Clear(h.used, i, BigPages(size));
  }

  lemma SmallNull(h: Heap, d: nat, size: nat)
    requires HeapOk(h) && d < DESCS
    ensures TakeSmall(h, d, size).1 == 0 <==> h.free[d] == [] && forall i: nat :: !Clear(h.used, i, 1)
  {
    assert FirstFit(h.used, 0, 1).None? <==> forall i: nat :: !Clear(h.used, i, 1);
    if h.free[d] != [] {
      PopFresh(h, d, size);
    } else {
      RefillKeeps(h, d);
      RefillFills(h, d);
      if Refill(h, d).free[d] != [] { PopFresh(Refill(h, d), d, size); }
    }
  }

  lemma RefillFills(h: Heap, d: nat)
    requires |h.free| == DESCS && d < DESCS && h.free[d] == []
    ensures Refill(h, d).free[d] == [] <==> FirstFit(h.used, 0, 1).None?
  {
    ArenaHoldsSome(d);
    var at := FirstFit(h.used, 0, 1);
    if at.Some? {
      assert BlocksFrom(h.base + at.value, d, 0) != [];
    }
  }

  // ----- Which block it is -----------------------------------------------------------------------

  lemma {:induction false} BlockInOrder(page: nat, d: nat, i: nat, k: nat)
    requires d < DESCS && i + k < BlocksPerArena(d)
    ensures k < |BlocksFrom(page, d, i)| && BlocksFrom(page, d, i)[k] == BlockAt(page, d, i + k)
    decreases k
  {
    if k == 0 {
    } else {
      BlockInOrder(page, d, i + 1, k - 1);
    }
  }

  lemma {:induction false} BlocksCount(page: nat, d: nat, i: nat)
    requires d < DESCS && i <= BlocksPerArena(d)
    ensures |BlocksFrom(page, d, i)| == BlocksPerArena(d) - i
    decreases BlocksPerArena(d) - i
  {
    if i == BlocksPerArena(d) {
    } else {
      BlocksCount(page, d, i + 1);
    }
  }

  /** `i` is the first page of the pool from which `n` pages are clear. */
  ghost predicate Lowest(used: seq<bool>, i: nat, n: nat) {
    Clear(used, i, n) && forall k: nat :: k < i ==> !Clear(used, k, n)
  }

  /** When no block of the class is listed, malloc turns the lowest clear page into an arena, hands
      out its first block, and lists the others in the order of their addresses. */
  lemma FreshArena(h: Heap, size: A.u32, d: nat)
    requires HeapOk(h) && size > 0 && d < DESCS && Suits(Arena(Some(d), 0), size) && h.free[d] == []
    ensures var (g, r) := MallocStep(h, size);
            r != 0 ==> FreshBlock(h, g, r, d) && ListsRest(g, PageNo(r), d)
  {
    MallocIsSmall(h, size, d);
    FreshOrNone(h, size, d);
  }

  lemma FreshOrNone(h: Heap, size: nat, d: nat)
    requires HeapOk(h) && d < DESCS && h.free[d] == []
    ensures var (g, r) := TakeSmall(h, d, size);
            r != 0 ==> FreshBlock(h, g, r, d) && ListsRest(g, PageNo(r), d)
  {
    var at := FirstFit(h.used, 0, 1);
    if at.Some? {
      PageIsNew(h, at.value, 1);
      RefillKeeps(h, d);
      FreshPops(h, size, d, at.value);
      FreshRest(h, size, d, at.value);
      TakeIsPop(h, d, size);
    }
  }

  lemma MallocIsSmall(h: Heap, size: A.u32, d: nat)
    requires HeapOk(h) && size > 0 && d < DESCS && Suits(Arena(Some(d), 0), size)
    ensures MallocStep(h, size) == TakeSmall(h, d, size)
  {
    SizesGrow(d, DESCS - 1);
    FitSuits(size);
  }

  /** `r` starts the first block of a new arena on the lowest clear page. */
  ghost predicate FreshBlock(h: Heap, g: Heap, r: nat, d: nat) {
    && PageNo(r) >= h.base && Lowest(h.used, PageNo(r) - h.base, 1) && Offset(r) == HEADER
    && PageNo(r) !in h.arenas && PageNo(r) in g.arenas && g.arenas[PageNo(r)].desc == Some(d)
  }

  /** The list has the blocks of the arena but the first, in the order of their addresses. */
  ghost predicate ListsRest(g: Heap, page: nat, d: nat)
    requires d < DESCS
  {
    && |g.free| == DESCS && |g.free[d]| == BlocksPerArena(d) - 1
    && forall k: nat :: k < |g.free[d]| ==> g.free[d][k] == BlockAt(page, d, k + 1)
  }

  lemma FreshPops(h: Heap, size: nat, d: nat, i: nat)
    requires |h.free| == DESCS && d < DESCS && h.free[d] == [] && FirstFit(h.used, 0, 1) == Some(i) && h.base + i !in h.arenas
    ensures var f := Refill(h, d);
            && f.free[d] != [] && PageNo(f.free[d][0]) in f.arenas && f.arenas[PageNo(f.free[d][0])].freeCnt > 0
            && FreshBlock(h, Pop(f, d, size), f.free[d][0], d)
  {
    ArenaHoldsSome(d);
    FreshList(h, d, i);
    FirstIsFresh(h, Pop(Refill(h, d), d, size), Refill(h, d).free[d][0], d, i);
  }

  lemma FreshRest(h: Heap, size: nat, d: nat, i: nat)
    requires |h.free| == DESCS && d < DESCS && h.free[d] == [] && FirstFit(h.used, 0, 1) == Some(i)
    ensures var f := Refill(h, d);
            && f.free[d] != [] && PageNo(f.free[d][0]) in f.arenas && f.arenas[PageNo(f.free[d][0])].freeCnt > 0
            && ListsRest(Pop(f, d, size), PageNo(f.free[d][0]), d)
  {
    ArenaHoldsSome(d);
    FreshList(h, d, i);
    PopsFirst(Refill(h, d), d, size, h.base + i);
  }

  lemma FirstIsFresh(h: Heap, g: Heap, r: nat, d: nat, i: nat)
    requires FirstFit(h.used, 0, 1) == Some(i) && h.base + i !in h.arenas
    requires PageNo(r) == h.base + i && Offset(r) == HEADER && PageNo(r) in g.arenas && g.arenas[PageNo(r)].desc == Some(d)
    ensures FreshBlock(h, g, r, d)
  {
  }

  lemma TakeIsPop(h: Heap, d: nat, size: nat)
    requires HeapOk(h) && d < DESCS && h.free[d] == [] && Core(Refill(h, d)) && Refill(h, d).free[d] != []
    ensures var f := Refill(h, d);
            && PageNo(f.free[d][0]) in f.arenas && f.arenas[PageNo(f.free[d][0])].freeCnt > 0
            && TakeSmall(h, d, size) == (Pop(f, d, size), f.free[d][0])
  {
    FrontBlock(Refill(h, d).arenas, Refill(h, d).free, d);
  }

  lemma FreshList(h: Heap, d: nat, i: nat)
    requires d < DESCS && |h.free| == DESCS && h.free[d] == [] && FirstFit(h.used, 0, 1) == Some(i) && BlocksPerArena(d) >= 1
    ensures var f := Refill(h, d);
            && f.free[d] == BlocksFrom(h.base + i, d, 0) != []
            && PageNo(f.free[d][0]) == h.base + i && Offset(f.free[d][0]) == HEADER
            && h.base + i in f.arenas && f.arenas[h.base + i].desc == Some(d) && f.arenas[h.base + i].freeCnt > 0
            && f.base == h.base
  {
    assert Refill(h, d).free[d] == BlocksFrom(h.base + i, d, 0);
    BlockInOrder(h.base + i, d, 0, 0);
    assert Times(0, BlockSize(d)) == 0;
  }

  lemma PopsFirst(f: Heap, d: nat, size: nat, page: nat)
    requires d < DESCS && |f.free| == DESCS && f.free[d] == BlocksFrom(page, d, 0) != []
    requires page in f.arenas && f.arenas[page].desc == Some(d) && f.arenas[page].freeCnt > 0
    requires PageNo(f.free[d][0]) == page
    ensures var g := Pop(f, d, size); page in g.arenas && g.arenas[page].desc == Some(d) && ListsRest(g, page, d)
  {
    RestInOrder(page, d);
  }

  lemma RestInOrder(page: nat, d: nat)
    requires d < DESCS && BlocksFrom(page, d, 0) != []
    ensures var q := BlocksFrom(page, d, 0)[1..];
            |q| == BlocksPerArena(d) - 1 && forall k: nat :: k < |q| ==> q[k] == BlockAt(page, d, k + 1)
  {
    var q := BlocksFrom(page, d, 0)[1..];
    BlocksCount(page, d, 0);
    forall k: nat | k < |q| ensures q[k] == BlockAt(page, d, k + 1) { BlockInOrder(page, d, 0, k + 1); }
  }

  /** A big block starts at the lowest run of clear pages that is long enough, and has exactly them. */
  lemma BigBlockPlace(h: Heap, size: A.u32)
    requires HeapOk(h) && size > BlockSize(DESCS - 1)
    ensures var (g, r) := MallocStep(h, size); r != 0 ==> BigBlock(h, g, r, size)
  {
    FitsNone(size);
    BigPagesLeast(size);
    BigOrNone(h, size, BigPages(size));
  }

  lemma BigOrNone(h: Heap, size: A.u32, n: nat)
    requires TakesPages(size, n)
    ensures var (g, r) := TakeRun(h, size, n); r != 0 ==> BigBlock(h, g, r, size)
  {
    var at := FirstFit(h.used, 0, n);
    if n != 0 && at.Some? { BigTaken(h, size, n, at.value); }
  }

  ghost predicate BigBlock(h: Heap, g: Heap, r: nat, size: A.u32) {
    && PageNo(r) >= h.base && Offset(r) == HEADER && PageNo(r) in g.arenas && g.arenas[PageNo(r)].desc == None
    && TakesPages(size, g.arenas[PageNo(r)].freeCnt)
    && Lowest(h.used, PageNo(r) - h.base, g.arenas[PageNo(r)].freeCnt)
  }

  lemma BigTaken(h: Heap, size: A.u32, n: nat, i: nat)
    requires TakesPages(size, n) && Lowest(h.used, i, n)
    ensures BigBlock(h, TakeAt(h, size, n, i), (h.base + i) * 4096 + HEADER, size)
  {
  }

  /** free and malloc undo each other: a small block that is freed, and whose arena stays, is the one
      the next request of its class gets, and a request of its size leaves the heap as it was. */
  lemma MallocUndoesFree(h: Heap, p: nat, size: A.u32, used0: seq<bool>)
    requires AllInv(h, used0) && p in h.live && PageNo(p) in h.arenas && PageNo(p) in FreeStep(h, p).arenas
    requires Suits(h.arenas[PageNo(p)], size) && size > 0
    ensures HeapOk(FreeStep(h, p)) && MallocStep(FreeStep(h, p), size).1 == p
    ensures size == h.live[p] ==> MallocStep(FreeStep(h, p), size).0 == h
  {
    FreeKeeps(h, p, used0);
    if h.arenas[PageNo(p)].desc.Some? {
      StaysPushed(h, p);
      PoppedPush(h, p, size);
      MallocPops(Push(h, p), size, h.arenas[PageNo(p)].desc.value);
    }
  }

  /** malloc hands out the front of the list, if there is one. */
  lemma MallocPops(h: Heap, size: A.u32, d: nat)
    requires HeapOk(h) && size > 0 && d < DESCS && Suits(Arena(Some(d), 0), size) && h.free[d] != []
    ensures PageNo(h.free[d][0]) in h.arenas && h.arenas[PageNo(h.free[d][0])].freeCnt > 0
    ensures MallocStep(h, size) == (Pop(h, d, size), h.free[d][0])
  {
    MallocIsSmall(h, size, d);
    FrontBlock(h.arenas, h.free, d);
  }

  /** The arena stays exactly if it is not wholly free. */
  lemma StaysPushed(h: Heap, p: nat)
    requires HeapOk(h) && p in h.live && PageNo(p) in h.arenas && h.arenas[PageNo(p)].desc.Some?
    requires PageNo(p) in FreeStep(h, p).arenas
    ensures h.arenas[PageNo(p)].desc.value < DESCS && FreeStep(h, p) == Push(h, p)
  {
    PushedCount(h, p);
  }

  lemma PoppedPush(h: Heap, p: nat, size: nat)
    requires Core(h) && p in h.live && PageNo(p) in h.arenas && h.arenas[PageNo(p)].desc.Some?
    requires h.arenas[PageNo(p)].desc.value < DESCS
    ensures var g := Pop(Push(h, p), h.arenas[PageNo(p)].desc.value, size);
            g.live == h.live[p := size] && (size == h.live[p] ==> g == h)
  {
    var d := h.arenas[PageNo(p)].desc.value;
    var g := Pop(Push(h, p), d, size);
    assert g.free[d] == h.free[d];
    assert g.free == h.free;
    assert g.arenas == h.arenas;
    assert size == h.live[p] ==> h.live[p := size] == h.live;
  }

  lemma FreeResult(h: Heap, p: nat)
    requires HeapOk(h) && (p == 0 || p in h.live)
    ensures FreeStep(h, p).live == h.live - {p}
    ensures FreeStep(h, p).base == h.base
  {
    if p == 0 {
      assert h.live - {p} == h.live;
    }
  }

  lemma FreeRoom(h: Heap, p: nat)
    requires HeapOk(h) && RoomOk(h) && (p == 0 || p in h.live)
    ensures RoomOk(FreeStep(h, p))
  {
    if p != 0 {
      var page := PageNo(p);
      if h.arenas[page].desc.None? {
        OnlyBigBlock(h, p);
        DroppedRoom(h, DropBig(h, p), page);
      } else {
        PushKeeps(h, p);
        PushedCount(h, p);
        PushRoom(h, p);
        var g := Push(h, p);
        var d := h.arenas[page].desc.value;
        if g.arenas[page].freeCnt >= BlocksPerArena(d) {
          NoneHeld(g, page, d);
          DroppedRoom(g, DropArena(g, page), page);
        }
      }
    }
  }

  lemma OnlyBigBlock(h: Heap, p: nat)
    requires Core(h) && p in h.live && PageNo(p) in h.arenas && h.arenas[PageNo(p)].desc.None?
    ensures forall b :: b in h.live && b != p ==> PageNo(b) != PageNo(p)
  {
    forall b | b in h.live && b != p
      ensures PageNo(b) != PageNo(p)
    {
    }
  }

  /** An arena that counts all its blocks free has none held. */
  lemma NoneHeld(h: Heap, page: nat, d: nat)
    requires Core(h) && d < DESCS && page in h.arenas && h.arenas[page] == Arena(Some(d), BlocksPerArena(d))
    ensures forall b :: b in h.live ==> PageNo(b) != page
  {
    assert CountOk(h.arenas[page], h.free, page);
    FreeBlocksFull(h.free[d], page, d, BlocksPerArena(d));
    forall b | PageNo(b) == page && IsBlock(d, b)
      ensures b in h.free[d]
    {
      assert b == BlockAt(page, d, IndexIn(d, b));
    }
    forall b | b in h.live
      ensures PageNo(b) != page
    {
    }
  }

  lemma DroppedRoom(h: Heap, g: Heap, page: nat)
    requires RoomOk(h) && g.arenas == h.arenas - {page}
    requires forall b :: b in g.live ==> b in h.live && h.live[b] == g.live[b] && PageNo(b) != page
    ensures RoomOk(g)
  {
    forall b | b in g.live
      ensures PageNo(b) in g.arenas && Room(g, b) == Room(h, b)
    {
    }
  }

  lemma PushRoom(h: Heap, p: nat)
    requires Core(h) && RoomOk(h) && p in h.live && PageNo(p) in h.arenas && h.arenas[PageNo(p)].desc.Some?
    requires h.arenas[PageNo(p)].desc.value < DESCS
    ensures RoomOk(Push(h, p))
  {
    var g := Push(h, p);
    forall b | b in g.live ensures BlockRoom(g, b) {
      assert BlockRoom(h, b);
      SameRoom(h, g, b);
    }
  }

  // ----- Runs ------------------------------------------------------------------

  function Initial(base: nat, used0: seq<bool>): Heap {
    Heap(base, used0, [[], [], [], [], [], [], []], map[], map[])
  }

  /** malloc takes any size; free takes null or a block that is held. */
  predicate Allowed(h: Heap, e: Event) {
    e.Free? ==> e.p == 0 || e.p in h.live
  }

  function Step(h: Heap, e: Event): Heap
    requires HeapOk(h) && Allowed(h, e)
  {
    if e.Malloc? then MallocStep(h, e.size).0 else FreeStep(h, e.p)
  }

  ghost predicate AllInv(h: Heap, used0: seq<bool>) {
    Inv(h, used0) && RoomOk(h)
  }

  lemma StepInv(h: Heap, e: Event, used0: seq<bool>)
    requires AllInv(h, used0) && Allowed(h, e)
    ensures AllInv(Step(h, e), used0) && Step(h, e).base == h.base
  {
    match e
    case Malloc(size) => MallocInv(h, size, used0);
    case Free(p) => FreeInv(h, p, used0);
  }

  lemma MallocInv(h: Heap, size: A.u32, used0: seq<bool>)
    requires AllInv(h, used0)
    ensures AllInv(MallocStep(h, size).0, used0) && MallocStep(h, size).0.base == h.base
  {
    MallocKeeps(h, size, used0);
    MallocRoom(h, size);
    MallocBase(h, size);
  }

  lemma MallocBase(h: Heap, size: A.u32)
    requires HeapOk(h)
    ensures MallocStep(h, size).0.base == h.base
  {
  }

  lemma FreeInv(h: Heap, p: nat, used0: seq<bool>)
    requires AllInv(h, used0) && (p == 0 || p in h.live)
    ensures AllInv(FreeStep(h, p), used0) && FreeStep(h, p).base == h.base
  {
    FreeKeeps(h, p, used0);
    FreeRoom(h, p);
    FreeResult(h, p);
  }

  lemma InitialInv(base: nat, used0: seq<bool>)
    requires base >= 1 && base + |used0| <= 0x10_0000
    ensures AllInv(Initial(base, used0), used0)
  {
    var h := Initial(base, used0);
    assert forall d: nat :: d < DESCS ==> h.free[d] == [];
    assert ListsOk(h.arenas, h.free);
  }

  ghost predicate Feasible(h: Heap, es: seq<Event>, used0: seq<bool>)
    requires AllInv(h, used0)
    decreases es
  {
    es == [] || (Allowed(h, es[0]) && (StepInv(h, es[0], used0); Feasible(Step(h, es[0]), es[1..], used0)))
  }

  ghost function After(h: Heap, es: seq<Event>, used0: seq<bool>): (g: Heap)
    requires AllInv(h, used0) && Feasible(h, es, used0)
    ensures AllInv(g, used0) && g.base == h.base
    decreases es
  {
    if es == [] then h
    else
      StepInv(h, es[0], used0);
      After(Step(h, es[0]), es[1..], used0)
  }

  /** With nothing held, everything is as it was at the start. */
  lemma NothingHeld(h: Heap, used0: seq<bool>)
    requires Inv(h, used0) && h.live == map[]
    ensures h == Initial(h.base, used0)
  {
    forall p | p in h.arenas
      ensures false
    {
      ArenaHasHeld(h, p);
    }
    assert h.arenas == map[];
    forall d: nat | d < DESCS
      ensures h.free[d] == []
    {
      assert ListOk(h.arenas, h.free[d], d);
      if h.free[d] != [] {
        SomeMember(h.free[d]);
        assert false;
      }
    }
    forall i | 0 <= i < |used0|
      ensures h.used[i] == used0[i]
    {
      assert !Covered(h, h.base + i);
      assert BitAt(h.used, h.base, h.base + i) <==> BitAt(used0, h.base, h.base + i);
    }
    assert h.used == used0;
    assert h.free == Initial(h.base, used0).free;
  }

  lemma SomeMember(s: seq<nat>)
    requires s != []
    ensures exists b :: b in s
  {
    assert s[0] in s;
  }

  /** Every arena has a held block. */
  lemma ArenaHasHeld(h: Heap, p: nat)
    requires HeapOk(h) && p in h.arenas
    ensures exists b :: b in h.live && PageNo(b) == p
  {
    var a := h.arenas[p];
    assert CountOk(a, h.free, p) && NotWhollyFree(a);
    if a.desc.None? {
      var b := p * 4096 + HEADER;
      assert InUse(h.arenas, h.free, b);
    } else {
      var d := a.desc.value;
      FreeBlocksFull(h.free[d], p, d, BlocksPerArena(d));
      var i: nat :| i < BlocksPerArena(d) && BlockAt(p, d, i) !in h.free[d];
      assert InUse(h.arenas, h.free, BlockAt(p, d, i));
    }
  }

  function Frees(order: seq<nat>): seq<Event> {
    if order == [] then [] else [Free(order[0])] + Frees(order[1..])
  }

  /** Freeing every held block, in any order, restores the page bitmap and empties every list. */
  lemma {:induction false} FreeAllRestores(h: Heap, order: seq<nat>, used0: seq<bool>)
    requires AllInv(h, used0) && NoDup(order) && forall b :: b in order <==> b in h.live
    ensures Feasible(h, Frees(order), used0)
    ensures After(h, Frees(order), used0) == Initial(h.base, used0)
    decreases order
  {
    if order == [] {
      assert h.live.Keys == {};
      NothingHeld(h, used0);
    } else {
      var e := Free(order[0]);
      assert order[0] in order && Frees(order)[0] == e && Frees(order)[1..] == Frees(order[1..]);
      StepInv(h, e, used0);
      FreeResult(h, order[0]);
      FreeAllRestores(Step(h, e), order[1..], used0);
    }
  }

  /** Adding the header to a size near 2^32 wraps: a request for 4 GB less a byte gets 4084 bytes. */
  lemma WrappedRequest()
    ensures var h := Initial(1, [false]);
            HeapOk(h) && var (g, r) := MallocStep(h, 0xFFFF_FFFF);
            r == 4096 + HEADER && PageNo(r) in g.arenas && Room(g, r) == 4084
  {
    var h := Initial(1, [false]);
    InitialInv(1, [false]);
    ClassSizes();
    assert Fit(0xFFFF_FFFF, 0) == DESCS by {
      forall d: nat | d < DESCS
        ensures BlockSize(d) <= 1024
      {
        ArenaHoldsSome(d);
      }
    }
    assert BigPages(0xFFFF_FFFF) == 1;
    assert Clear(h.used, 0, 1);
    assert FirstFit(h.used, 0, 1) == Some(0);
  }
}
