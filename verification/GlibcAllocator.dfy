/** The glibc-style allocator: pointer code on memory words that carries out the steps of
    GlibcOps and GlibcTheorems. */
module GlibcAllocator {
  import opened Basics
  import opened Words
  import opened GlibcHeap
  import opened GlibcOps
  import opened GlibcTheorems
  import opened GlibcMemory
  import opened GlibcSteps

  /** A block pointer as C sees it: null is 0. */
  ghost function Ptr(r: Option<int>): int {
    match r
    case None => 0
    case Some(a) => a
  }

  ghost predicate NextUsed(h: Heap, a: int)
    requires a in h.blocks
  {
    Next(h, a) in h.blocks && h.blocks[Next(h, a)].used
  }

  ghost function HeadOf(l: seq<int>): int {
    if l == [] then 0 else l[0]
  }

  class Allocator {
    const heap: int
    const heapSize: int
    var freeList: int
    var currentBrk: int
    var mem: Memory
    ghost var h: Heap

    /** Memory, free list and break represent the heap `h`, whose blocks `loose` are not listed. */
    ghost predicate Holds(loose: set<int>)
      reads this
    {
      && Stored(mem, h, loose) && freeList == HeadOf(h.free)
      && h.base == heap && h.limit == heap + heapSize && currentBrk == h.end + 16
    }

    ghost predicate Valid()
      reads this
    {
      Holds({}) && Inv(h)
    }

    constructor (base: int, size: int)
      ensures heap == base && heapSize == size && freeList == 0 && currentBrk == base && mem == map[]
    {
      heap, heapSize, freeList, currentBrk, mem := base, size, 0, base, map[];
    }

    /** `gca_create` on a mapped region of zeros: one free block and the sentinel in the first
        page, or null if the region is smaller than that. */
    static method Create(base: int, size: nat) returns (alloc: Allocator?)
      requires base > 0 && base % 16 == 0
      ensures alloc == null <==> size < 4096
      ensures alloc != null ==> fresh(alloc) && alloc.Valid() && alloc.h == Fresh(base, base + 4080, base + size)
    {
      hide PutSize, PutUsed, Stored, Inv, Undisturbed;
      var a := new Allocator(base, size);
      var ok, bottom, brk := a.HandledSbrk(4096);
      if !ok {
        return null;
      }
      var top := brk - 16;
      a.mem := PutSize(a.mem, bottom, 0);
      a.mem := PutUsed(a.mem, bottom, true);
      a.mem := PutSize(a.mem, top + 8, 0);
      a.mem := PutUsed(a.mem, top + 8, true);
      a.mem := PutSize(a.mem, bottom + 8, 4096 - 2 * 16);
      a.mem := PutUsed(a.mem, bottom + 8, false);
      a.mem := PutSize(a.mem, top, 4096 - 2 * 16);
      a.mem := PutUsed(a.mem, top, false);
      a.h := Fresh(base, top, base + size).(free := []);
      FreshInv(base, top, base + size);
      FreshStored(base, top, base + size);
      a.AddFreeList(bottom, {bottom}, 0, 0);
      assert {bottom} - {bottom} == {};
      assert [bottom] + [] == [bottom];
      assert a.h == Fresh(base, top, base + size);
      return a;
    }

    // ----- reading headers

    function SizeAt(a: int): int
      reads this
    {
      InfoSize(Read(mem, a + 8))
    }

    function UsedAt(a: int): bool
      reads this
    {
      InfoUsed(Read(mem, a + 8))
    }

    /** `gca_next`. */
    function NextOf(a: int): int
      reads this
    {
      a + 16 + SizeAt(a)
    }

    lemma HeaderOf(loose: set<int>, a: int)
      requires Holds(loose) && a in h.blocks
      ensures SizeAt(a) == h.blocks[a].size && UsedAt(a) == h.blocks[a].used && NextOf(a) == Next(h, a)
      ensures InfoSize(Read(mem, a)) == PrevSize(h, a) && InfoUsed(Read(mem, a)) == PrevUsed(h, a)
      ensures a != h.end ==> Next(h, a) in h.blocks && Linked(h, a)
    {
      assert HeaderOk(mem, h, a) && Linked(h, a);
    }

    // ----- the free list

    /** `gca_add_free_list`. */
    method AddFreeList(b: int, ghost loose: set<int>, ghost f: int, ghost len: int)
      requires Holds(loose) && b in loose && Focus(h, f, len)
      modifies `mem, `freeList, `h
      ensures h == PutIn(old(h), b) && Holds(loose - {b}) && Undisturbed(old(h), f, len, old(mem), mem)
    {
      hide Stored, Undisturbed, Focus;
      Insertion(mem, h, loose, f, len, b);
      mem := mem[b + 16 := 0];
      mem := mem[b + 24 := freeList];
      if freeList != 0 {
        mem := mem[freeList + 16 := b];
      }
      freeList := b;
      h := PutIn(h, b);
    }

    /** `gca_remove_free_list`. */
    method RemoveFreeList(b: int, ghost loose: set<int>, ghost f: int, ghost len: int)
      requires Holds(loose) && b in h.free && Focus(h, f, len)
      modifies `mem, `freeList, `h
      ensures h == TakeOut(old(h), b) && Holds(loose + {b}) && Undisturbed(old(h), f, len, old(mem), mem)
    {
      hide Stored, Undisturbed, Focus;
      ghost var i :| 0 <= i < |h.free| && h.free[i] == b;
      Removal(mem, h, loose, f, len, i);
      var prevFree, nextFree := Read(mem, b + 16), Read(mem, b + 24);
      if freeList == b {
        freeList := nextFree;
      }
      if prevFree != 0 {
        mem := mem[prevFree + 24 := nextFree];
      }
      if nextFree != 0 {
        mem := mem[nextFree + 16 := prevFree];
      }
      h := TakeOut(h, b);
    }

    // ----- the break

    /** `gca_brk`. */
    method Brk(addr: int) returns (rc: int)
      modifies `currentBrk
      ensures rc == (if addr > heap + heapSize then -1 else 0)
      ensures currentBrk == if rc == 0 then addr else old(currentBrk)
    {
      if addr > heap + heapSize {
        return -1;
      }
      currentBrk := addr;
      return 0;
    }

    /** `gca_sbrk`: the old break, or nothing if the new one is out of range. */
    method Sbrk(increment: int) returns (r: Option<int>)
      requires currentBrk >= 0
      modifies `currentBrk
      ensures r.Some? <==> increment == 0 || 0 <= old(currentBrk) + increment <= heap + heapSize
      ensures r.Some? ==> r.value == old(currentBrk) && currentBrk == old(currentBrk) + increment
      ensures r.None? ==> currentBrk == old(currentBrk)
    {
      if increment == 0 {
        return Some(currentBrk);
      }
      var oldBrk := currentBrk;
      if increment < 0 && oldBrk < -increment {
        return None;
      }
      var rc := Brk(oldBrk + increment);
      if rc < 0 {
        return None;
      }
      return Some(oldBrk);
    }

    /** `gca_handled_sbrk`. */
    method HandledSbrk(delta: nat) returns (ok: bool, origBrk: int, newBrk: int)
      requires 0 < currentBrk <= heap + heapSize
      modifies `currentBrk
      ensures ok <==> old(currentBrk) + delta <= heap + heapSize
      ensures ok ==> origBrk == old(currentBrk) && newBrk == currentBrk == old(currentBrk) + delta
      ensures !ok ==> currentBrk == old(currentBrk)
    {
      var last := Sbrk(delta);
      if last.None? {
        return false, 0, 0;
      }
      currentBrk := last.value + delta;
      return true, last.value, currentBrk;
    }

    // ----- coalescing

    /** `gca_coalesce_next`. */
    method CoalesceNext(a: int, ghost f: int, ghost len: int) returns (merged: bool)
      requires Holds({}) && a in h.blocks && a != h.end && Focus(h, f, len) && (Live(h, a) ==> f == a)
      modifies `mem, `freeList, `h
      ensures Partial(old(h), {}) && h == GlibcOps.CoalesceNext(old(h), a) && Holds({})
      ensures Undisturbed(old(h), f, len, old(mem), mem) && OthersKept(old(h), h, f)
      ensures merged <==> !NextUsed(old(h), a)
    {
      hide Stored, Undisturbed, Focus, Inv, Partial;
      HeaderOf({}, a);
      var next := NextOf(a);
      HeaderOf({}, next);
      Pieces(mem, h, {});
      CoalesceKept(h, a, f);
      if UsedAt(next) {
        UndisturbedSelf(h, f, len, mem);
        return false;
      }
      ghost var m0, h0 := mem, h;
      FreeListed(h, next);
      RemoveFreeList(next, {}, f, len);
      HeaderOf({} + {next}, a);
      HeaderOf({} + {next}, next);
      AbsorbStep(mem, h0, h, f, len, a, next);
      ghost var m1 := mem;
      var newSize := SizeAt(a) + 16 + SizeAt(next);
      var nextNext := NextOf(next);
      var used := UsedAt(a);
      mem := PutUsed(mem, nextNext, used);
      mem := PutSize(mem, nextNext, newSize);
      mem := PutSize(mem, a + 8, newSize);
      h := Absorb(h, a);
      UndisturbedJoin(h0, f, len, m0, m1, mem);
      return true;
    }

    /** `gca_coalesce_prev` for a free block. */
    method CoalescePrev(a: int, ghost f: int, ghost len: int) returns (b: int)
      requires Holds({}) && a in h.blocks && a != h.end && !h.blocks[a].used && Focus(h, f, len)
      modifies `mem, `freeList, `h
      ensures Partial(old(h), {}) && (h, b) == GlibcOps.CoalescePrev(old(h), a) && Holds({})
      ensures Undisturbed(old(h), f, len, old(mem), mem) && OthersKept(old(h), h, f)
    {
      hide Stored, Undisturbed, Focus, Partial, GlibcOps.CoalesceNext, OthersKept;
      Pieces(mem, h, {});
      HeaderOf({}, a);
      if !InfoUsed(Read(mem, a)) {
        b := a - InfoSize(Read(mem, a)) - 16;
        var _ := CoalesceNext(b, f, len);
      } else {
        UndisturbedSelf(h, f, len, mem);
        KeptSelf(h);
        b := a;
      }
    }

    /** `gca_find_free_block`: the first block of the free list that is large enough, or null. */
    method FindFreeBlock(n: int) returns (a: int)
      requires Holds({})
      ensures a == Ptr(FirstFit(h, h.free, n))
    {
      a := freeList;
      ghost var i := 0;
      while a != 0
        invariant 0 <= i <= |h.free| && a == HeadOf(h.free[i..])
        invariant FirstFit(h, h.free[i..], n) == FirstFit(h, h.free, n)
        decreases |h.free| - i
      {
        assert h.free[i..][1..] == h.free[i + 1..];
        ListedFree(h, {}, i);
        HeaderOf({}, a);
        assert LinkOk(mem, h.free, i);
        if SizeAt(a) >= n {
          return;
        }
        a := Read(mem, a + 24);
        i := i + 1;
      }
      if i < |h.free| {
        ListedFree(h, {}, i);
      }
    }

    /** The header writes of `gca_sbrk_new_block` once the break has moved. */
    method Extend(page: int, origBrk: int, newBrk: int, ghost f: int, ghost len: int) returns (header: int)
      requires Stored(mem, h, {}) && freeList == HeadOf(h.free) && h.base == heap && h.limit == heap + heapSize
      requires page >= 32 && page % 16 == 0 && origBrk == h.end + 16
               && currentBrk == newBrk == origBrk + page <= h.limit
      requires Focus(h, f, len)
      modifies `mem, `h
      ensures header == old(h).end && header in old(h).blocks && h == Grow(old(h), page) && Holds({header})
      ensures Undisturbed(old(h), f, len, old(mem), mem) && Focus(h, f, len)
    {
      hide Stored, Undisturbed, Focus, Tiled, PutSize, PutUsed, AllKept;
      GrowStep(mem, h, f, len, page);
      header := origBrk - 16;
      mem := PutSize(mem, header + 8, page - 16);
      mem := PutUsed(mem, header + 8, false);
      var sentinel := newBrk - 16;
      mem := PutSize(mem, sentinel, page - 16);
      mem := PutUsed(mem, sentinel, false);
      mem := PutSize(mem, sentinel + 8, 0);
      mem := PutUsed(mem, sentinel + 8, true);
      h := Grow(h, page);
    }

    /** `gca_sbrk_new_block`: null, and nothing changes, if the break cannot move far enough. */
    method SbrkNewBlock(n: nat, ghost f: int, ghost len: int) returns (b: int)
      requires Holds({}) && n >= 16 && Focus(h, f, len)
      modifies `mem, `freeList, `h, `currentBrk
      ensures Partial(old(h), {}) && Holds({}) && Undisturbed(old(h), f, len, old(mem), mem) && OthersKept(old(h), h, f)
      ensures NewBlock(old(h), n).None? ==> b == 0 && h == old(h) && mem == old(mem)
      ensures NewBlock(old(h), n).Some? ==> (h, b) == NewBlock(old(h), n).value && b > 0
    {
      hide Stored, Undisturbed, Focus, Partial, GlibcOps.CoalescePrev, OthersKept, AllKept, Grow, Tiled;
      ghost var h0, m0 := h, mem;
      Pieces(mem, h, {});
      PositiveEnd(h);
      var page := Pages(n + 16);
      var ok, origBrk, newBrk := HandledSbrk(page);
      UndisturbedSelf(h, f, len, mem);
      KeptSelf(h);
      if !ok {
        return 0;
      }
      var header := Extend(page, origBrk, newBrk, f, len);
      NewListed(h0, page, f, len);
      ghost var h1, m1 := h, mem;
      AddFreeList(header, {header}, f, len);
      assert {header} - {header} == {};
      ghost var h2, m2 := h, mem;
      Pieces(mem, h, {});
      CoalescedPositive(h, header);
      b := CoalescePrev(header, f, len);
      UndisturbedTrans(h0, h1, f, len, m0, m1, m2);
      UndisturbedTrans(h0, h2, f, len, m0, m2, mem);
      OthersTrans(h0, h2, h, f);
    }

    // ----- splitting

    /** The header writes of `gca_split_block`. */
    method Cut(a: int, n: int, ghost f: int, ghost len: int) returns (split: int)
      requires Holds({}) && CanSplit(h, a, n) && n % 16 == 0 && Focus(h, f, len) && (Live(h, a) ==> f == a && len <= n)
      modifies `mem, `h
      ensures split == a + 16 + n && Next(old(h), a) in old(h).blocks && h == Split(old(h), a, n) && Holds({split})
      ensures Undisturbed(old(h), f, len, old(mem), mem) && OthersKept(old(h), h, f) && Focus(h, f, len)
      ensures split in h.blocks && split != h.end && !h.blocks[split].used
    {
      hide Stored, Undisturbed, Focus, InfoSize, InfoUsed, PutSize, PutUsed, OthersKept, Live;
      HeaderOf({}, a);
      CutStep(mem, h, f, len, a, n);
      ghost var m0 := mem;
      var splitSize := SizeAt(a) - n - 16;
      var next := NextOf(a);
      CutReads(mem, a, next, n, splitSize);
      mem := PutSize(mem, next, splitSize);
      mem := PutUsed(mem, next, false);
      mem := PutSize(mem, a + 8, n);
      split := NextOf(a);
      var used := UsedAt(a);
      mem := PutSize(mem, split, n);
      mem := PutUsed(mem, split, used);
      mem := PutSize(mem, split + 8, splitSize);
      mem := PutUsed(mem, split + 8, false);
      assert mem == SplitWrites(m0, a, next, h.blocks[a].used, n, splitSize);
      h := Split(h, a, n);
    }

    /** `gca_split_block`: the header of the block split off, or null. */
    method SplitBlock(a: int, n: nat, ghost f: int, ghost len: int) returns (split: int)
      requires Holds({}) && a in h.blocks && a != h.end && n >= 16 && n % 16 == 0
      requires Focus(h, f, len) && (Live(h, a) ==> f == a && len <= n)
      modifies `mem, `freeList, `h
      ensures Partial(old(h), {}) && h == GlibcOps.SplitBlock(old(h), a, n) && Holds({})
      ensures Undisturbed(old(h), f, len, old(mem), mem) && OthersKept(old(h), h, f)
      ensures split == if old(h).blocks[a].size < n + 32 then 0 else a + 16 + n
    {
      hide Stored, Undisturbed, Focus, Partial, OthersKept, GlibcOps.CoalesceNext, Split;
      ghost var h0, m0 := h, mem;
      Pieces(mem, h, {});
      HeaderOf({}, a);
      if SizeAt(a) < n + 32 {
        UndisturbedSelf(h, f, len, mem);
        KeptSelf(h);
        return 0;
      }
      split := Cut(a, n, f, len);
      ghost var h1, m1 := h, mem;
      SplitListed(h0, h1, split, f, len);
      AddFreeList(split, {split}, f, len);
      assert {split} - {split} == {};
      ghost var h2, m2 := h, mem;
      var _ := CoalesceNext(split, f, len);
      UndisturbedTrans(h0, h1, f, len, m0, m1, m2);
      UndisturbedTrans(h0, h2, f, len, m0, m2, mem);
      OthersTrans(h0, h2, h, f);
    }

    // ----- malloc

    /** Set the used flag of a block, in its header and in the next one. */
    method Mark(a: int, used: bool, ghost loose: set<int>, ghost loose': set<int>, ghost f: int, ghost len: int)
      requires Holds(loose) && a in h.blocks && a != h.end && Partial(SetUsed(h, a, used), loose')
               && Focus(SetUsed(h, a, used), f, len)
      modifies `mem, `h
      ensures h == SetUsed(old(h), a, used) && Holds(loose') && Undisturbed(h, f, len, old(mem), mem)
    {
      hide Stored, Undisturbed, Focus, Partial, InfoSize, InfoUsed, WithSize, WithUsed;
      HeaderOf(loose, a);
      MarkStored(mem, h, loose, loose', f, len, a, used);
      PutUsedTags(mem, a + 8, used);
      mem := PutUsed(mem, a + 8, used);
      mem := PutUsed(mem, NextOf(a), used);
      h := SetUsed(h, a, used);
    }

    /** The end of `gca_malloc`: split the block found and hand it out. */
    method Hand(a: int, n: nat)
      requires Valid() && a in h.blocks && !h.blocks[a].used && n >= 16 && n % 16 == 0 && n <= h.blocks[a].size
      modifies `mem, `freeList, `h
      ensures Inv(old(h)) && h == Place(old(h), a, n) && Valid() && Undisturbed(old(h), 0, 0, old(mem), mem)
    {
      hide Stored, Undisturbed, Partial, OthersKept, GlibcOps.SplitBlock, Coalesced;
      ghost var h0, m0 := h, mem;
      PlaceKeeps(h, a, n);
      SplitBlockKeeps(h, a, n);
      var _ := SplitBlock(a, n, 0, 0);
      ghost var h1, m1 := h, mem;
      Pieces(mem, h, {});
      FreeListed(h, a);
      RemoveFreeList(a, {}, 0, 0);
      ghost var h2, m2 := h, mem;
      PutInKept(h1, a);
      KeptOthers(h1, h2, 0);
      Pieces(mem, h, {} + {a});
      MarkUsedKeeps(h, {} + {a}, a);
      assert {} + {a} - {a} == {};
      Mark(a, true, {} + {a}, {}, 0, 0);
      MarkedUsed(h2, a, m2, mem);
      UndisturbedTrans(h0, h1, 0, 0, m0, m1, m2);
      OthersTrans(h0, h1, h2, 0);
      UndisturbedTrans(h0, h2, 0, 0, m0, m2, mem);
    }

    /** `gca_malloc`: null, and nothing changes, or the payload of a block that holds the request.
        No byte of a live payload changes. */
    method Malloc(size: nat) returns (ptr: int)
      requires Valid()
      modifies `mem, `freeList, `h, `currentBrk
      ensures Inv(old(h)) && Valid() && Undisturbed(old(h), 0, 0, old(mem), mem)
      ensures GlibcOps.Malloc(old(h), size).None? ==> ptr == 0 && h == old(h) && mem == old(mem)
      ensures GlibcOps.Malloc(old(h), size).Some? ==> (h, ptr - 16) == GlibcOps.Malloc(old(h), size).value && ptr > 16
    {
      hide Stored, Undisturbed, Partial, OthersKept, Place, NewBlock, FirstFit, Coalesced, RoundUp;
      ghost var h0, m0 := h, mem;
      UndisturbedSelf(h, 0, 0, mem);
      KeptSelf(h);
      if size == 0 {
        return 0;
      }
      var n := RoundUp(size);
      FirstFitFinds(h, h.free, n);
      var a := FindFreeBlock(n);
      if FirstFit(h, h.free, n).Some? {
        FreeBlock(h, a);
        Positive(h, a);
      }
      if a == 0 {
        if NewBlock(h, n).Some? {
          NewBlockKeeps(h, n);
        }
        a := SbrkNewBlock(n, 0, 0);
        if a == 0 {
          return 0;
        }
      }
      ghost var h1, m1 := h, mem;
      Hand(a, n);
      UndisturbedTrans(h0, h1, 0, 0, m0, m1, mem);
      return a + 16;
    }

    /** `gca_free`. */
    method Free(ptr: int) returns (rc: int)
      requires Valid() && (ptr == 0 || Live(h, ptr - 16))
      modifies `mem, `freeList, `h
      ensures ptr == 0 ==> rc == -1 && h == old(h) && mem == old(mem) && Valid()
      ensures ptr != 0 ==> rc == 0 && Partial(old(h), {}) && h == GlibcOps.Free(old(h), ptr - 16) && Valid()
      ensures Undisturbed(old(h), ptr - 16, 0, old(mem), mem)
    {
      hide Stored, Undisturbed, Partial, OthersKept, Coalesced, GlibcOps.CoalesceNext, GlibcOps.CoalescePrev;
      if ptr == 0 {
        UndisturbedSelf(h, -16, 0, mem);
        return -1;
      }
      var a := ptr - 16;
      ghost var h0, m0 := h, mem;
      FreeKeeps(h, a);
      MarkFreeKeeps(h, {}, a);
      SetUsedKept(h, a, false);
      Mark(a, false, {}, {} + {a}, a, 0);
      ghost var h1, m1 := h, mem;
      UndisturbedBack(h0, h1, a, 0, m0, m1);
      SplitListed(h0, h1, a, a, 0);
      AddFreeList(a, {} + {a}, a, 0);
      assert {} + {a} - {a} == {};
      ghost var h2, m2 := h, mem;
      UndisturbedTrans(h0, h1, a, 0, m0, m1, m2);
      Pieces(mem, h, {});
      CoalesceNextBlocks(h, a);
      var _ := CoalesceNext(a, a, 0);
      ghost var h3, m3 := h, mem;
      UndisturbedTrans(h0, h2, a, 0, m0, m2, m3);
      OthersTrans(h0, h2, h3, a);
      var _ := CoalescePrev(a, a, 0);
      UndisturbedTrans(h0, h3, a, 0, m0, m3, mem);
      return 0;
    }

    // ----- realloc

    /** The last path of `gca_realloc`: a new block gets the first `orig` bytes, and the old one is
        freed. On failure nothing changes. */
    method MoveBlock(a: int, size: nat, orig: nat) returns (r: int)
      requires Valid() && Live(h, a) && orig % 8 == 0 && orig <= h.blocks[a].size && orig < size
      modifies `mem, `freeList, `h, `currentBrk
      ensures Inv(old(h)) && Valid() && (h, r) == (Move(old(h), a, size).0, Payload(Move(old(h), a, size).1))
      ensures r == 0 ==> h == old(h) && mem == old(mem)
      ensures r != 0 ==> Carried(old(mem), a + 16, mem, r, orig)
      ensures Undisturbed(old(h), a, 0, old(mem), mem)
    {
      hide Stored, Undisturbed, Partial, OthersKept, Coalesced, GlibcOps.Malloc, GlibcOps.Free, Carried, CopyWords,
           Tiled;
      ghost var h0, m0 := h, mem;
      UndisturbedSelf(h, a, 0, mem);
      Pieces(mem, h, {});
      Positive(h, a);
      if GlibcOps.Malloc(h, size).Some? {
        MallocKeeps(h, size);
      }
      r := Malloc(size);
      ghost var h2, m2 := h, mem;
      if r != 0 {
        ghost var c := r - 16;
        StillLive(h0, h2, a, c);
        Pieces(mem, h, {});
        CopyStored(mem, h, c, a + 16, orig);
        mem := CopyWords(mem, r, a + 16, orig);
        ghost var m3 := mem;
        FreeKeeps(h, a);
        var _ := Free(a + 16);
        Moved(h0, h2, a, c, orig, m0, m2, m3, mem);
      }
    }

    /** Growing the last block through the break, once no free block follows it. Nothing changes if
        the break cannot move far enough. */
    method GrowLast(a: int, n: nat, ghost len: int) returns (ok: bool)
      requires Valid() && Live(h, a) && Next(h, a) == h.end && h.blocks[a].size < n && n % 16 == 0
               && h.blocks[a].size % 16 == 0
      requires n >= 16 && Focus(h, a, len) && len <= n
      modifies `mem, `freeList, `h, `currentBrk
      ensures Inv(old(h)) && n - old(h.blocks[a].size) >= 16 && Undisturbed(old(h), a, len, old(mem), mem) && Valid()
      ensures ok <==> CanGrow(old(h), a, n)
      ensures !ok ==> h == old(h) && mem == old(mem)
      ensures ok ==> var g := NewBlock(old(h), n - old(h.blocks[a].size)).value.0;
                     && Inv(g) && Live(g, a) && Inv(GlibcOps.CoalesceNext(g, a)) && Live(GlibcOps.CoalesceNext(g, a), a)
                     && h == GlibcOps.SplitBlock(GlibcOps.CoalesceNext(g, a), a, n)
    {
      hide Stored, Undisturbed, Partial, OthersKept, Coalesced, NewBlock, GlibcOps.CoalesceNext, GlibcOps.SplitBlock,
           Focus;
      ghost var h0, m0 := h, mem;
      GrowBehind(h, a, n);
      HeaderOf({}, a);
      var more := n - SizeAt(a);
      var next := SbrkNewBlock(more, a, len);
      if next == 0 {
        return false;
      }
      ghost var h1, m1 := h, mem;
      FocusGrown(h0, h1, a, len);
      var _ := CoalesceNext(a, a, len);
      ghost var h2, m2 := h, mem;
      UndisturbedTrans(h0, h1, a, len, m0, m1, m2);
      OthersTrans(h0, h1, h2, a);
      FocusGrown(h0, h2, a, len);
      SplitLive(h, a, n);
      var _ := SplitBlock(a, n, a, len);
      UndisturbedTrans(h0, h2, a, len, m0, m2, mem);
      return true;
    }

    /** `gca_realloc`: on success the result holds the request and the first bytes of the old
        block, as many as both have; on failure the old block is live with all its bytes. No
        other live byte changes. */
    method Realloc(ptr: int, size: nat) returns (r: int)
      requires Valid() && (ptr == 0 || Live(h, ptr - 16))
      modifies `mem, `freeList, `h, `currentBrk
      ensures Inv(old(h)) && Valid() && Undisturbed(old(h), ptr - 16, 0, old(mem), mem)
      ensures size == 0 ==> r == 0 && h == old(h) && mem == old(mem)
      ensures size > 0 && ptr == 0 && GlibcOps.Malloc(old(h), size).None? ==> r == 0 && h == old(h) && mem == old(mem)
      ensures size > 0 && ptr == 0 && GlibcOps.Malloc(old(h), size).Some? ==>
                (h, r - 16) == GlibcOps.Malloc(old(h), size).value
      ensures ptr != 0 ==>
                var (g, a) := GlibcTheorems.Realloc(old(h), ptr - 16, size);
                (h, r) == (g, Payload(a))
      ensures ptr != 0 && r == 0 ==> Carried(old(mem), ptr, mem, ptr, old(h.blocks[ptr - 16].size))
      ensures ptr != 0 && r != 0 ==> Carried(old(mem), ptr, mem, r, Min(old(h.blocks[ptr - 16].size), size))
    {
      hide Stored, Undisturbed, Coalesced, GlibcOps.Malloc, Carried, GlibcTheorems.Realloc;
      UndisturbedSelf(h, ptr - 16, 0, mem);
      if size == 0 {
        if ptr != 0 {
          CarriedSelf(mem, ptr, h.blocks[ptr - 16].size);
          ReallocNothing(h, ptr - 16);
        }
        return 0;
      }
      if ptr == 0 {
        ghost var h0, m0 := h, mem;
        Pieces(mem, h, {});
        r := Malloc(size);
        GuardAll(h0, -16, 0, m0, mem);
        return;
      }
      r := Reallocate(ptr - 16, size);
    }

    /** The owner of a live block writes a word of its payload. */
    method Store(w: int, v: int, ghost a: int)
      requires Valid() && Live(h, a) && a + 16 <= w < a + 16 + h.blocks[a].size
      modifies `mem
      ensures Valid() && mem == old(mem)[w := v]
    {
      hide Stored, Inv;
      PayloadWritten(mem, mem[w := v], h, {}, a);
      mem := mem[w := v];
    }

    /** `gca_realloc` of a block, for a nonzero size. */
    method Reallocate(a: int, size: nat) returns (r: int)
      requires Valid() && Live(h, a) && size > 0
      modifies `mem, `freeList, `h, `currentBrk
      ensures Inv(old(h)) && Valid() && Undisturbed(old(h), a, 0, old(mem), mem)
      ensures (h, r) == (GlibcTheorems.Realloc(old(h), a, size).0, Payload(GlibcTheorems.Realloc(old(h), a, size).1))
      ensures r == 0 ==> Carried(old(mem), a + 16, mem, a + 16, old(h.blocks[a].size))
      ensures r != 0 ==> Carried(old(mem), a + 16, mem, r, Min(old(h.blocks[a].size), size))
    {
      hide Stored, Undisturbed, Partial, OthersKept, Coalesced, GlibcOps.CoalesceNext, GlibcOps.SplitBlock, Focus,
           Carried, RoundUp, GlibcTheorems.Realloc;
      ghost var h0, m0 := h, mem;
      Positive(h, a);
      HeaderOf({}, a);
      var n := RoundUp(size);
      var orig := SizeAt(a);
      if n <= orig {
        ReallocShrinks(h, a, size);
        SplitLive(h, a, n);
        PartFocus(h, a, n);
        var _ := SplitBlock(a, n, a, n);
        InPlace(h0, a, n, Min(orig, size), m0, mem);
        return a + 16;
      }
      r := Enlarge(a, size, n);
      CarriedLess(m0, a + 16, mem, if r == 0 then a + 16 else r, orig, Min(orig, size));
    }

    /** The paths of `gca_realloc` for a block that is too small. */
    method Enlarge(a: int, size: nat, n: nat) returns (r: int)
      requires Valid() && Live(h, a) && size > 0 && n == RoundUp(size) && h.blocks[a].size < n
      modifies `mem, `freeList, `h, `currentBrk
      ensures Inv(old(h)) && Valid() && Undisturbed(old(h), a, 0, old(mem), mem)
      ensures (h, r) == (GlibcTheorems.Realloc(old(h), a, size).0, Payload(GlibcTheorems.Realloc(old(h), a, size).1))
      ensures Carried(old(mem), a + 16, mem, if r == 0 then a + 16 else r, old(h.blocks[a].size))
    {
      hide Stored, Undisturbed, Partial, OthersKept, Coalesced, GlibcOps.CoalesceNext, GlibcOps.SplitBlock, Focus,
           Carried, RoundUp, GlibcTheorems.Realloc, Move, NewBlock;
      ghost var h0, m0 := h, mem;
      Positive(h, a);
      HeaderOf({}, a);
      var orig := SizeAt(a);
      WholeFocus(h, a);
      AbsorbNextKeeps(h, a);
      ReallocAbsorbs(h, a, size);
      Pieces(mem, h, {});
      CoalesceNextBlocks(h, a);
      var merged := CoalesceNext(a, a, orig);
      ghost var h1, m1 := h, mem;
      FocusGrown(h0, h1, a, orig);
      HeaderOf({}, a);
      if merged && n <= SizeAt(a) {
        SplitLive(h, a, n);
        var _ := SplitBlock(a, n, a, orig);
        UndisturbedTrans(h0, h1, a, orig, m0, m1, mem);
        InPlace(h0, a, orig, orig, m0, mem);
        return a + 16;
      }
      ReallocGrows(h0, a, size);
      HeaderOf({}, NextOf(a));
      if SizeAt(NextOf(a)) == 0 {
        SentinelOnly(h, Next(h, a));
        var grown := GrowLast(a, n, orig);
        if grown {
          UndisturbedTrans(h0, h1, a, orig, m0, m1, mem);
          InPlace(h0, a, orig, orig, m0, mem);
          return a + 16;
        }
      }
      InPlace(h0, a, orig, orig, m0, m1);
      SmallerThan(orig, n, size);
      r := MoveBlock(a, size, orig);
      UndisturbedTrans(h0, h1, a, 0, m0, m1, mem);
      if r != 0 {
        CarriedTrans(m0, a + 16, m1, a + 16, mem, r, orig);
      }
    }
  }

  ghost function Payload(r: Option<int>): int {
    match r
    case None => 0
    case Some(a) => a + 16
  }

  /** Only the sentinel has size zero. */
  lemma SentinelOnly(h: Heap, a: int)
    requires Inv(h) && a in h.blocks
    ensures h.blocks[a].size == 0 <==> a == h.end
  {
    assert Linked(h, a);
  }

  lemma SmallerThan(orig: nat, n: nat, size: nat)
    requires orig % 16 == 0 && n == RoundUp(size) && orig < n
    ensures orig < size && orig % 8 == 0
  {
    Eighths(orig);
    assert n % 16 == 0;
  }

  lemma ReallocNothing(h: Heap, a: int)
    requires Inv(h) && Live(h, a)
    ensures GlibcTheorems.Realloc(h, a, 0) == (h, None)
  {
  }

  lemma Positive(h: Heap, a: int)
    requires Inv(h) && a in h.blocks
    ensures a > 0
  {
    assert Linked(h, a);
  }
}
