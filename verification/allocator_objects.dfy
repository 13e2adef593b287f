/** malloc.c and palloc.c as methods that update the pool's bitmap, the free lists and the arena
    headers in place. Each ASSERT of the C code is an `assert` here. */
module AllocatorObjects {
  import opened Wrappers
  import opened Allocator
  import A = Arithmetic

  datatype Desc = Desc(blockSize: nat, blocksPerArena: nat)

  class BlockAllocator {
    const base: nat               // page number of the pool's first page
    const descs: seq<Desc>
    ghost const used0: seq<bool>  // the bitmap at the start
    var used: seq<bool>
    var free: seq<seq<nat>>
    var arenas: map<nat, Arena>
    ghost var live: map<nat, nat>

    ghost function State(): Heap
      reads this
    {
      Heap(base, used, free, arenas, live)
    }

    ghost predicate Valid()
      reads this
    {
      DescsOk(descs) && |descs| == DESCS && AllInv(State(), used0)
    }

    static predicate DescsOk(ds: seq<Desc>) {
      |ds| <= DESCS && forall d :: 0 <= d < |ds| ==> ds[d] == Desc(BlockSize(d), BlocksPerArena(d))
    }

    /** malloc_init over a pool whose bitmap is `bits`. */
    constructor (first: nat, bits: seq<bool>)
      requires first >= 1 && first + |bits| <= 0x10_0000
      ensures Valid() && base == first && used0 == bits && State() == Initial(first, bits)
    {
      var ds: seq<Desc> := [];
      var fs: seq<seq<nat>> := [];
      var blockSize := 16;
      ClassSizes();
      while blockSize < 4096 / 2
        invariant |ds| == |fs| <= DESCS && blockSize == BlockSize(|ds|) && DescsOk(ds)
        invariant forall d :: 0 <= d < |fs| ==> fs[d] == []
        decreases DESCS - |ds|
      {
        assert |ds| < DESCS by {
          if |ds| == DESCS { assert false; }
        }
        A.QuotIsFloor(PGSIZE - HEADER, blockSize);
        ds := ds + [Desc(blockSize, (4096 - 12) / blockSize)];
        fs := fs + [[]];
        blockSize := blockSize * 2;
      }
      LastClass(|ds|);
      base, descs, used0 := first, ds, bits;
      used, free, arenas, live := bits, fs, map[], map[];
      InitialInv(first, bits);
      new;
      assert free == Initial(first, bits).free;
    }

    method PallocGetMultiple(pageCnt: nat) returns (pages: nat)
      requires base >= 1
      modifies this`used
      ensures var at := FirstFit(old(used), 0, pageCnt);
              if pageCnt == 0 || at.None? then pages == 0 && used == old(used)
              else pages == (base + at.value) * 4096 && pages != 0
                   && used == SetBits(old(used), at.value, pageCnt, true)
    {
      if pageCnt == 0 { return 0; }
      var pageIdx := FirstFit(used, 0, pageCnt);
      if pageIdx.None? { return 0; }
      used := SetBits(used, pageIdx.value, pageCnt, true);
      pages := (base + pageIdx.value) * 4096;
    }

    method PallocFreeMultiple(pages: nat, pageCnt: nat)
      requires Offset(pages) == 0 && base <= PageNo(pages) && PageNo(pages) + pageCnt <= base + |used|
      requires forall k :: PageNo(pages) - base <= k < PageNo(pages) - base + pageCnt ==> used[k]
      requires base >= 1 && pageCnt >= 1
      modifies this`used
      ensures used == SetBits(old(used), PageNo(pages) - base, pageCnt, false)
    {
      assert pages != 0;
      assert base <= PageNo(pages) < base + |used|;    // page_from_pool
      var pageIdx := PageNo(pages) - base;
      assert forall k :: pageIdx <= k < pageIdx + pageCnt ==> used[k];
      used := SetBits(used, pageIdx, pageCnt, false);
    }

    /** The page of the arena that block `b` is inside. */
    method BlockToArena(b: nat) returns (page: nat)
      requires DescsOk(descs) && |descs| == DESCS && base >= 1
      requires PageNo(b) in arenas && base <= PageNo(b)
      requires var a := arenas[PageNo(b)];
               if a.desc.None? then Offset(b) == HEADER else a.desc.value < DESCS && IsBlock(a.desc.value, b)
      ensures page == PageNo(b)
    {
      page := b / 4096;
      assert page != 0;
      assert page in arenas;                           // the magic number is in place
      var a := arenas[page];
      if a.desc.Some? {
        var d := a.desc.value;
        TimesDivides(IndexIn(d, b), BlockSize(d));
        A.RemIsMod(Offset(b) - HEADER, BlockSize(d));
        assert (Offset(b) - HEADER) % descs[d].blockSize == 0;
      } else {
        assert Offset(b) == HEADER;
      }
    }

    method ArenaToBlock(page: nat, idx: nat) returns (b: nat)
      requires DescsOk(descs) && |descs| == DESCS && page in arenas && arenas[page].desc.Some?
      requires arenas[page].desc.value < DESCS && idx < BlocksPerArena(arenas[page].desc.value)
      ensures b == BlockAt(page, arenas[page].desc.value, idx)
    {
      var d := arenas[page].desc.value;
      assert idx < descs[d].blocksPerArena;
      TimesIsProduct(idx, descs[d].blockSize);
      b := page * 4096 + 12 + idx * descs[d].blockSize;
    }
  
    /** The index of the first descriptor whose blocks hold `size` bytes. */
    method FindDesc(size: nat) returns (d: nat)
      requires DescsOk(descs) && |descs| == DESCS
      ensures d == Fit(size, 0)
    {
      d := 0;
      while d < |descs| && descs[d].blockSize < size
        invariant d <= DESCS && Fit(size, 0) == Fit(size, d)
      {
        d := d + 1;
      }
    }

    method MallocBig(size: A.u32) returns (p: nat)
      requires Valid()
      modifies this
      ensures (State(), p) == TakeBig(old(State()), size)
    {
      var pageCnt := A.Wrap32(A.Wrap32(size + 12) + 4095) / 4096;
      var a := PallocGetMultiple(pageCnt);
      if a == 0 { return 0; }
      p := a + 12;
      arenas := arenas[a / 4096 := Arena(None, pageCnt)];
      live := live[p := size];
    }

    /** Turns a page into an arena and its blocks into free blocks. */
    method NewArena(d: nat) returns (ok: bool)
      requires Valid() && d < DESCS
      modifies this
      ensures State() == Refill(old(State()), d)
      ensures ok == FirstFit(old(used), 0, 1).Some?
    {
      var a := PallocGetMultiple(1);
      if a == 0 { return false; }
      var page := a / 4096;
      arenas := arenas[page := Arena(Some(d), descs[d].blocksPerArena)];
      ListBlocks(page, d);
      ok := true;
    }

    /** Adds the blocks of a new arena to the back of its free list. */
    method ListBlocks(page: nat, d: nat)
      requires DescsOk(descs) && |descs| == DESCS && |free| == DESCS && d < DESCS
      requires page in arenas && arenas[page].desc == Some(d)
      modifies this`free
      ensures free == old(free)[d := old(free[d]) + BlocksFrom(page, d, 0)]
    {
      ghost var before := free[d];
      var i := 0;
      while i < descs[d].blocksPerArena
        invariant i <= BlocksPerArena(d) && |free| == DESCS
        invariant free == old(free)[d := free[d]]
        invariant free[d] + BlocksFrom(page, d, i) == before + BlocksFrom(page, d, 0)
      {
        var b := ArenaToBlock(page, i);
        assert (free[d] + [b]) + BlocksFrom(page, d, i + 1) == free[d] + ([b] + BlocksFrom(page, d, i + 1));
        free := free[d := free[d] + [b]];
        i := i + 1;
      }
      assert free[d] + [] == free[d];
    }

    /** Pops the first free block. */
    method TakeBlock(d: nat, ghost size: nat) returns (b: nat)
      requires DescsOk(descs) && |descs| == DESCS && Core(State()) && d < DESCS && free[d] != []
      modifies this`free, this`arenas, this`live
      ensures b == old(free[d][0]) && PageNo(b) in old(arenas) && old(arenas)[PageNo(b)].freeCnt > 0
      ensures State() == Pop(old(State()), d, size)
    {
      FrontBlock(arenas, free, d);
      assert SpansOk(State());
      b := free[d][0];
      free := free[d := free[d][1..]];
      var page := BlockToArena(b);
      arenas := arenas[page := arenas[page].(freeCnt := arenas[page].freeCnt - 1)];
      live := live[b := size];
    }

    method Malloc(size: A.u32) returns (p: nat)
      requires Valid()
      modifies this
      ensures Valid() && (State(), p) == MallocStep(old(State()), size)
    {
      ghost var h := State();
      StepInv(h, Event.Malloc(size), used0);
      if size == 0 { return 0; }
      var d := FindDesc(size);
      if d == |descs| {
        p := MallocBig(size);
        return;
      }
      if free[d] == [] {
        RefillKeeps(h, d);
        RefillFills(h, d);
        var ok := NewArena(d);
        if !ok { return 0; }
      }
      p := TakeBlock(d, size);
    }

    method Free(p: nat)
      requires Valid() && (p == 0 || p in live)
      modifies this
      ensures Valid() && State() == FreeStep(old(State()), p)
    {
      ghost var h := State();
      StepInv(h, Event.Free(p), used0);
      if p == 0 { return; }
      var page := BlockToArena(p);
      if arenas[page].desc.None? {
        FreeBig(p, page);
      } else {
        PushedCount(h, p);
        FreeSmall(p, page, arenas[page].desc.value);
      }
    }

    method FreeBig(p: nat, page: nat)
      requires Core(State()) && p in live && page == PageNo(p) && page in arenas && arenas[page].desc.None?
      modifies this`used, this`arenas, this`live
      ensures base <= page && State() == DropBig(old(State()), p)
    {
      PagesAreSet(page);
      PallocFreeMultiple(page * 4096, arenas[page].freeCnt);
      arenas := arenas - {page};
      live := live - {p};
    }

    /** Adds the block to its free list, and gives its arena back when that was the last block out. */
    method FreeSmall(p: nat, page: nat, d: nat)
      requires DescsOk(descs) && |descs| == DESCS && Core(State()) && p in live && page == PageNo(p) && page in arenas
      requires arenas[page].desc == Some(d) && d < DESCS && arenas[page].freeCnt + 1 <= BlocksPerArena(d)
      modifies this`free, this`arenas, this`used, this`live
      ensures base <= page
      ensures var g := Push(old(State()), p);
              State() == if g.arenas[page].freeCnt >= BlocksPerArena(d) then DropArena(g, page) else g
    {
      ghost var h := State();
      PagesAreSet(page);
      PushKeeps(h, p);
      free := free[d := [p] + free[d]];
      arenas := arenas[page := arenas[page].(freeCnt := arenas[page].freeCnt + 1)];
      live := live - {p};
      assert State() == Push(h, p);
      if arenas[page].freeCnt >= descs[d].blocksPerArena {
        assert arenas[page].freeCnt == descs[d].blocksPerArena;
        ReleaseArena(page, d);
      }
    }

    /** Takes the arena's blocks off the free list. */
    method UnlistBlocks(page: nat, d: nat)
      requires DescsOk(descs) && |descs| == DESCS && |free| == DESCS && d < DESCS
      requires page in arenas && arenas[page].desc == Some(d) && NoDup(free[d])
      requires forall i: nat :: i < BlocksPerArena(d) ==> BlockAt(page, d, i) in free[d]
      modifies this`free
      ensures free == old(free)[d := Without(old(free[d]), page, d, BlocksPerArena(d))]
    {
      ghost var before := free[d];
      WithoutNone(before, page, d);
      var i := 0;
      while i < descs[d].blocksPerArena
        invariant i <= BlocksPerArena(d) && free == old(free)[d := Without(before, page, d, i)]
      {
        var b := ArenaToBlock(page, i);
        WithoutNext(before, page, d, i);
        assert b in free[d];                            // list_remove takes a listed element
        free := free[d := RemoveOne(free[d], b)];
        i := i + 1;
      }
    }

    lemma AllListed(page: nat, d: nat)
      requires Core(State()) && page in arenas && d < DESCS && arenas[page] == Arena(Some(d), BlocksPerArena(d))
      ensures |free| == DESCS && NoDup(free[d])
      ensures forall i: nat :: i < BlocksPerArena(d) ==> BlockAt(page, d, i) in free[d]
    {
      assert ListOk(arenas, free[d], d) && CountOk(arenas[page], free, page);
      FreeBlocksFull(free[d], page, d, BlocksPerArena(d));
    }

    method ReleaseArena(page: nat, d: nat)
      requires DescsOk(descs) && |descs| == DESCS && Core(State()) && page in arenas && page >= base && d < DESCS
      requires arenas[page] == Arena(Some(d), BlocksPerArena(d))
      modifies this`free, this`arenas, this`used
      ensures State() == DropArena(old(State()), page)
    {
      PagesAreSet(page);
      AllListed(page, d);
      UnlistBlocks(page, d);
      PallocFreeMultiple(page * 4096, 1);
      arenas := arenas - {page};
    }

    lemma PagesAreSet(page: nat)
      requires PagesOk(State()) && page in arenas
      ensures base <= page && page + Pages(arenas[page]) <= base + |used|
      ensures forall k :: page - base <= k < page - base + Pages(arenas[page]) ==> used[k]
    {
      forall k | page - base <= k < page - base + Pages(arenas[page])
        ensures used[k]
      {
        assert Covers(State(), page, base + k);
      }
    }
  }

  lemma LastClass(n: nat)
    requires n <= DESCS && BlockSize(n) >= 2048
    ensures n == DESCS
  {
    if n < DESCS { ArenaHoldsSome(n); }
  }

  lemma {:induction false} TimesIsProduct(i: nat, n: nat)
    ensures Times(i, n) == i * n
  {
    if i == 0 {
    } else {
      TimesIsProduct(i - 1, n);
      A.Distribute(i - 1, 1, n);
    }
  }
}
