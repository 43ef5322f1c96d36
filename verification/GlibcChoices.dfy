/** Which block malloc and realloc use, when realloc fails, and how the free list and the break
    change. */
module GlibcChoices {
  import opened Basics
  import opened Seqs
  import opened GlibcHeap
  import opened GlibcOps
  import opened GlibcTheorems

  // ----- malloc

  /** `a` is the first block of the free list with at least `n` bytes. */
  ghost predicate FirstBig(h: Heap, a: int, n: int) {
    exists i :: 0 <= i < |h.free| && h.free[i] == a && Big(h, a, n) && forall j :: 0 <= j < i ==> !Big(h, h.free[j], n)
  }

  ghost predicate Big(h: Heap, a: int, n: int) {
    a in h.blocks && !h.blocks[a].used && h.blocks[a].size >= n
  }

  /** Where a block made by moving the break begins: at a free block below the sentinel, if there is one. */
  ghost function Top(h: Heap): int
    requires h.end in h.blocks
  {
    var p := h.blocks[h.end].prev;
    if p in h.blocks && !h.blocks[p].used then p else h.end
  }

  /** Block `a`, `whole` bytes long, is handed out for `n` bytes: the rest becomes a block at the
      head of the free list if it is large enough, and `a` leaves the list. */
  ghost predicate Carved(h: Heap, g: Heap, a: int, n: int, whole: int) {
    var split := whole >= n + 32;
    && a in g.blocks && g.blocks[a].used && g.blocks[a].size == (if split then n else whole)
    && (split ==> Big(g, a + 16 + n, 16))
    && g.free == (if split then [a + 16 + n] else []) + Drop(h.free, a)
  }

  lemma PlaceCarves(h: Heap, a: int, n: nat)
    requires Inv(h) && a in h.blocks && !h.blocks[a].used && n >= 16 && n % 16 == 0 && n <= h.blocks[a].size
    ensures Carved(h, Place(h, a, n), a, n, h.blocks[a].size) && Place(h, a, n).end == h.end
  {
    assert Linked(h, a) && !FreePair(h, a);
    SplitBlockKeeps(h, a, n);
    if h.blocks[a].size >= n + 32 {
      SplitFresh(h, a, n);
      SplitKeeps(h, {}, a, n);
    }
  }

  lemma NewBlockTop(h: Heap, n: nat)
    requires Inv(h) && n >= 16 && NewBlock(h, n).Some?
    ensures h.end in h.blocks
    ensures var (g, b) := NewBlock(h, n).value;
            && b == Top(h) && g.end == h.end + Pages(n + 16)
            && Drop(g.free, b) == Drop(h.free, b)
  {
    var page := Pages(n + 16);
    assert Linked(h, h.end);
    GrowKeeps(h, page);
    PutInKeeps(Grow(h, page), {h.end}, h.end);
    assert {h.end} - {h.end} == {};
    var h1 := PutIn(Grow(h, page), h.end);
    assert Linked(h1, h.end);
    assert !Listed(h, {}, h.end);
    DropAbsent(h.free, h.end);
  }

  lemma FirstFitBig(h: Heap, n: int)
    requires Inv(h)
    ensures FirstFit(h, h.free, n).Some? ==> FirstBig(h, FirstFit(h, h.free, n).value, n)
    ensures FirstFit(h, h.free, n).None? ==> forall x {:trigger Big(h, x, n)} :: !Big(h, x, n)
  {
    FirstFitFinds(h, h.free, n);
    if FirstFit(h, h.free, n).Some? {
      var i := FirstFitIsFirst(h, h.free, n);
      assert Listed(h, {}, h.free[i]);
      forall j | 0 <= j < i
        ensures !Big(h, h.free[j], n)
      {
      }
    } else {
      forall x
        ensures !Big(h, x, n)
      {
        assert Listed(h, {}, x) ==> x in h.free;
      }
    }
  }

  /** malloc hands out the first block of the list that is large enough. Only if there is none it
      moves the break, by whole pages, and takes the block at the top. */
  lemma MallocTakes(h: Heap, size: nat)
    requires Inv(h) && Malloc(h, size).Some?
    ensures h.end in h.blocks
    ensures var (g, a) := Malloc(h, size).value;
            var n := RoundUp(size);
            if exists x :: Big(h, x, n) then
              FirstBig(h, a, n) && a in h.blocks && g.end == h.end && Carved(h, g, a, n, h.blocks[a].size)
            else
              a == Top(h) && g.end == h.end + Pages(n + 16) && Carved(h, g, a, n, g.end - a - 16)
  {
    hide Carved, FirstBig, RoundUp, Pages, FirstFit, Place, NewBlock, Partial, Coalesced, Big, Top;
    var n := RoundUp(size);
    SentinelThere(h);
    FirstFitBig(h, n);
    FirstFitFinds(h, h.free, n);
    match FirstFit(h, h.free, n) {
      case Some(a) =>
        FreeBlock(h, a);
        BigBlock(h, a, n);
        PlaceCarves(h, a, n);
      case None =>
        NewBlockKeeps(h, n);
        NewBlockTop(h, n);
        var (h1, b) := NewBlock(h, n).value;
        PlaceCarves(h1, b, n);
        CarvedSame(h, h1, Place(h1, b, n), b, n, h1.blocks[b].size);
    }
  }

  lemma SentinelThere(h: Heap)
    requires Inv(h)
    ensures h.end in h.blocks
  {
  }

  lemma BigBlock(h: Heap, a: int, n: int)
    requires a in h.blocks && !h.blocks[a].used && h.blocks[a].size >= n
    ensures Big(h, a, n)
  {
  }

  lemma CarvedSame(h: Heap, h1: Heap, g: Heap, a: int, n: int, whole: int)
    requires Carved(h1, g, a, n, whole) && Drop(h1.free, a) == Drop(h.free, a)
    ensures Carved(h, g, a, n, whole)
  {
  }

  // ----- free

  /** Where the free block that freeing `a` makes begins, and where it ends. */
  ghost function Lowest(h: Heap, a: int): int
    requires a in h.blocks
  {
    var p := h.blocks[a].prev;
    if a != h.base && p in h.blocks && !h.blocks[p].used then p else a
  }

  ghost function Highest(h: Heap, a: int): int
    requires a in h.blocks
  {
    var n := Next(h, a);
    if n in h.blocks && !h.blocks[n].used then Next(h, n) else n
  }

  /** The free list without the block after `a`. */
  ghost function Unjoined(h: Heap, a: int): seq<int>
    requires a in h.blocks
  {
    if Highest(h, a) != Next(h, a) then Drop(h.free, Next(h, a)) else h.free
  }

  lemma CoalesceNextJoins(h: Heap, a: int)
    requires Partial(h, {}) && a in h.blocks && a != h.end
    ensures var g := CoalesceNext(h, a);
            && a in g.blocks && Next(g, a) == Highest(h, a) && g.free == Unjoined(h, a)
            && g.blocks[a].prev == h.blocks[a].prev && g.blocks[a].used == h.blocks[a].used
  {
    assert Linked(h, a);
    assert Linked(h, Next(h, a));
  }

  /** free makes one block of `a` and its free neighbours. It is on the list where a free block
      before it was, or at the head, and a free block after it is no longer listed. */
  lemma FreeJoins(h: Heap, a: int)
    requires Inv(h) && Live(h, a)
    ensures var g := Free(h, a);
            var lo := Lowest(h, a);
            && lo in g.blocks && !g.blocks[lo].used && Next(g, lo) == Highest(h, a)
            && g.free == (if lo == a then [a] else []) + Unjoined(h, a)
  {
    MarkFreeKeeps(h, {}, a);
    PutInKeeps(SetUsed(h, a, false), {} + {a}, a);
    assert {} + {a} - {a} == {};
    var h1 := PutIn(SetUsed(h, a, false), a);
    assert Linked(h, a) && Linked(h1, a) && Linked(h1, Next(h1, a));
    CoalesceNextJoins(h1, a);
    CoalesceNextBlocks(h1, a);
    var h2 := CoalesceNext(h1, a);
    assert Linked(h2, a);
    var p := h.blocks[a].prev;
    hide CoalesceNext;
    if Lowest(h, a) != a {
      CoalesceNextJoins(h2, p);
    }
  }

  // ----- realloc

  /** The payload of block `a` together with a free block after it. */
  ghost function JoinedSize(h: Heap, a: int): int
    requires a in h.blocks
  {
    Highest(h, a) - a - 16
  }

  /** The break can move far enough for a new block of `n` bytes. */
  ghost predicate CanExtend(h: Heap, n: int) {
    n >= 0 && h.end + 16 + Pages(n + 16) <= h.limit
  }

  /** Block `a` can hold `n` bytes where it is: with the free block after it, or, being last, with
      what the break gives. */
  ghost predicate InPlace(h: Heap, a: int, n: int)
    requires a in h.blocks
  {
    n <= JoinedSize(h, a) || (Highest(h, a) == h.end && CanExtend(h, n - JoinedSize(h, a)))
  }

  /** What the heap is when `a` has taken over a free block after it. */
  lemma AbsorbedFacts(h: Heap, a: int, n: int)
    requires Inv(h) && Live(h, a)
    ensures var g := CoalesceNext(h, a);
            && Inv(g) && Live(g, a) && g.end == h.end && g.limit == h.limit && g.blocks[a].size == JoinedSize(h, a)
            && h.blocks[a].size <= JoinedSize(h, a) && JoinedSize(h, a) % 16 == 0
            && Next(g, a) == Highest(h, a) && g.free == Unjoined(h, a)
            && (forall x {:trigger Big(g, x, n)} :: Big(g, x, n) <==> Big(h, x, n) && x != Next(h, a))
  {
    AbsorbNextKeeps(h, a);
    CoalesceNextBlocks(h, a);
    CoalesceNextJoins(h, a);
    assert Linked(h, a);
    var g := CoalesceNext(h, a);
    hide CoalesceNext, Inv;
    forall x
      ensures Big(g, x, n) <==> Big(h, x, n) && x != Next(h, a)
    {
      AbsorbedBig(h, a, n, x);
    }
  }

  lemma AbsorbedBig(h: Heap, a: int, n: int, x: int)
    requires Inv(h) && Live(h, a)
    ensures Big(CoalesceNext(h, a), x, n) <==> Big(h, x, n) && x != Next(h, a)
  {
    CoalesceNextBlocks(h, a);
    assert Linked(h, a);
    assert Linked(h, Next(h, a));
  }

  /** When realloc moves a block: as malloc and free in the heap where it has taken over a free
      block after it, and only if it cannot stay. */
  lemma ReallocMoves(h: Heap, a: int, size: nat)
    requires Inv(h) && Live(h, a) && size > 0 && !InPlace(h, a, RoundUp(size))
    ensures var h1 := CoalesceNext(h, a);
            && Inv(h1) && Live(h1, a)
            && Realloc(h, a, size) == Move(h1, a, size)
  {
    hide Realloc, Move, CoalesceNext, RoundUp, Inv, Live;
    AbsorbedFacts(h, a, RoundUp(size));
    ReallocAbsorbs(h, a, size);
    ReallocGrows(h, a, size);
    Unextendable(h, a, RoundUp(size));
  }

  lemma Unextendable(h: Heap, a: int, n: nat)
    requires Inv(h) && Live(h, a) && !InPlace(h, a, n) && Inv(CoalesceNext(h, a)) && Live(CoalesceNext(h, a), a)
    ensures !CanGrow(CoalesceNext(h, a), a, n)
  {
    AbsorbedFacts(h, a, n);
  }

  /** The list after splitting the used block `a`: what is split off goes to the head and takes a
      free block after it along. */
  lemma SplitList(h: Heap, a: int, n: nat)
    requires Inv(h) && Live(h, a) && n >= 16 && n % 16 == 0 && n <= h.blocks[a].size
    ensures var g := SplitBlock(h, a, n);
            && g.end == h.end && a in g.blocks
            && g.blocks[a].size == (if h.blocks[a].size >= n + 32 then n else h.blocks[a].size)
            && g.free == if h.blocks[a].size >= n + 32 then [a + 16 + n] + Unjoined(h, a) else h.free
  {
    SplitBlockKeeps(h, a, n);
    if h.blocks[a].size >= n + 32 {
      assert Linked(h, a);
      SplitStep(h, a, n);
      var m := a + 16 + n;
      var h1 := PutIn(Split(h, a, n), m);
      SplitFresh(h, a, n);
      CoalesceNextJoins(h1, m);
      assert m != Next(h, a);
    }
  }

  /** A block that can stay does: within the block after it if that is free and large enough, and
      with the break moved by whole pages otherwise. */
  ghost predicate Stays(h: Heap, g: Heap, a: int, n: int)
    requires a in h.blocks
  {
    var size, joined := h.blocks[a].size, JoinedSize(h, a);
    && (n <= joined ==> g.end == h.end)
    && (n > joined ==> g.end == h.end + Pages(n - joined + 16))
    && var whole := if n <= size then size else if n <= joined then joined else g.end - a - 16;
    && a in g.blocks && g.blocks[a].size == (if whole >= n + 32 then n else whole)
    && g.free == (if whole >= n + 32 then [a + 16 + n] else [])
                 + (if whole >= n + 32 || n > size then Unjoined(h, a) else h.free)
  }

  lemma ReallocStays(h: Heap, a: int, size: nat)
    requires Inv(h) && Live(h, a) && size > 0 && InPlace(h, a, RoundUp(size))
    ensures var (g, r) := Realloc(h, a, size); r == Some(a) && Stays(h, g, a, RoundUp(size))
  {
    hide Realloc, CoalesceNext, RoundUp, Partial, Coalesced, NewBlock, SplitBlock, Unjoined, Pages;
    var n := RoundUp(size);
    AbsorbedFacts(h, a, n);
    var h1 := CoalesceNext(h, a);
    if n <= h.blocks[a].size {
      ReallocShrinks(h, a, size);
      SplitList(h, a, n);
    } else if n <= h1.blocks[a].size {
      ReallocAbsorbs(h, a, size);
      SplitList(h1, a, n);
      UnjoinedTwice(h, a);
    } else {
      Extended(h1, a, n);
      ReallocGrows(h, a, size);
      UnjoinedTwice(h, a);
      SplitList(CoalesceNext(NewBlock(h1, n - h1.blocks[a].size).value.0, a), a, n);
    }
  }

  lemma UnjoinedTwice(h: Heap, a: int)
    requires Inv(h) && Live(h, a)
    ensures a in CoalesceNext(h, a).blocks && Unjoined(CoalesceNext(h, a), a) == CoalesceNext(h, a).free
  {
    AbsorbedFacts(h, a, 0);
    assert Linked(h, a);
    assert Linked(h, Next(h, a)) && !FreePair(h, Next(h, a));
    CoalesceNextBlocks(h, a);
  }

  /** Growing behind the last block gives it all that the break gives, and no list entry. */
  lemma Extended(h: Heap, a: int, n: nat)
    requires Inv(h) && Live(h, a) && Next(h, a) == h.end && h.blocks[a].size < n && n % 16 == 0
    requires h.blocks[a].size % 16 == 0 && CanExtend(h, n - h.blocks[a].size)
    ensures n - h.blocks[a].size >= 16 && CanGrow(h, a, n)
    ensures var g := NewBlock(h, n - h.blocks[a].size).value.0;
            && Inv(g) && Live(g, a) && Inv(CoalesceNext(g, a)) && Live(CoalesceNext(g, a), a)
            && var k := CoalesceNext(g, a);
            && k.end == h.end + Pages(n - h.blocks[a].size + 16) && k.blocks[a].size == k.end - a - 16
            && n <= k.blocks[a].size && k.free == h.free && Unjoined(k, a) == k.free
  {
    GrowBehind(h, a, n);
    var more := n - h.blocks[a].size;
    NewBlockTop(h, more);
    NewBlockAfter(h, more, a);
    NewBlockKeeps(h, more);
    var g := NewBlock(h, more).value.0;
    GrownList(h, a, more);
    hide NewBlock;
    AbsorbedFacts(g, a, 0);
    UnjoinedTwice(g, a);
  }

  lemma GrownList(h: Heap, a: int, n: nat)
    requires Inv(h) && Live(h, a) && Next(h, a) == h.end && n >= 16 && NewBlock(h, n).Some?
    ensures NewBlock(h, n).value.0.free == [h.end] + h.free
  {
    assert Linked(h, a) && Linked(h, h.end);
  }

  /** realloc of a nonzero size returns the block itself exactly if it can stay, and fails exactly
      if it cannot, no other free block is large enough, and the break cannot give a new one. */
  lemma ReallocExact(h: Heap, a: int, size: nat)
    requires Inv(h) && Live(h, a) && size > 0
    ensures var (g, r) := Realloc(h, a, size);
            var n := RoundUp(size);
            && (r == Some(a) <==> InPlace(h, a, n))
            && (r == None <==>
                  && !InPlace(h, a, n) && !CanExtend(h, n)
                  && forall x {:trigger Big(h, x, n)} :: x != Next(h, a) ==> !Big(h, x, n))
            && (r == None ==>
                  g.end == h.end && a in g.blocks && g.blocks[a].size == JoinedSize(h, a) && g.free == Unjoined(h, a))
  {
    hide Realloc, CoalesceNext, RoundUp, Partial, Coalesced, Malloc, InPlace, Pages;
    var n := RoundUp(size);
    if InPlace(h, a, n) {
      ReallocStays(h, a, size);
    } else {
      ReallocMoves(h, a, size);
      AbsorbedFacts(h, a, n);
      var h1 := CoalesceNext(h, a);
      MallocFails(h1, size);
      NoneBig(h1, n);
      if Malloc(h1, size).Some? {
        MallocKeeps(h1, size);
      }
      forall x | (forall y {:trigger Big(h, y, n)} :: y != Next(h, a) ==> !Big(h, y, n))
        ensures !Big(h1, x, n)
      {
      }
      forall x | (forall y {:trigger Big(h1, y, n)} :: !Big(h1, y, n)) && x != Next(h, a)
        ensures !Big(h, x, n)
      {
        assert !Big(h1, x, n);
      }
    }
  }

  lemma NoneBig(h: Heap, n: int)
    ensures (forall a :: a in h.blocks && !h.blocks[a].used ==> h.blocks[a].size < n)
            <==> forall x {:trigger Big(h, x, n)} :: !Big(h, x, n)
  {
    forall a | a in h.blocks && !h.blocks[a].used
      ensures h.blocks[a].size >= n ==> Big(h, a, n)
    {
    }
  }

  /** A block that cannot stay moves to the first block of the list, less the one it has taken
      over, that is large enough; or, if there is none, to the top. */
  lemma ReallocTakes(h: Heap, a: int, size: nat)
    requires Inv(h) && Live(h, a) && size > 0 && !InPlace(h, a, RoundUp(size)) && Realloc(h, a, size).1.Some?
    ensures h.end in h.blocks
    ensures var (g, r) := Realloc(h, a, size);
            var n := RoundUp(size);
            if exists x :: x != Next(h, a) && Big(h, x, n) then
              FirstBig(h.(free := Unjoined(h, a)), r.value, n) && g.end == h.end
            else
              r.value == (if Highest(h, a) == h.end then h.end else Top(h)) && g.end == h.end + Pages(n + 16)
  {
    hide Realloc, CoalesceNext, RoundUp, Partial, Coalesced, Malloc, Free, InPlace, Pages, Carved, FirstBig, Top;
    var n := RoundUp(size);
    SentinelThere(h);
    ReallocMoves(h, a, size);
    AbsorbedFacts(h, a, n);
    var h1 := CoalesceNext(h, a);
    MallocKeeps(h1, size);
    MallocTakes(h1, size);
    var (g1, c) := Malloc(h1, size).value;
    assert Same(h1, g1, a);
    FreeKeeps(g1, a);
    FirstBigAbsorbed(h, a, c, n);
    TopAbsorbed(h, a);
    if x :| Big(h1, x, n) {
      assert Big(h, x, n) && x != Next(h, a);
    }
    if x :| x != Next(h, a) && Big(h, x, n) {
      assert Big(h1, x, n);
    }
  }

  lemma FirstBigAbsorbed(h: Heap, a: int, c: int, n: int)
    requires Inv(h) && Live(h, a)
    ensures FirstBig(CoalesceNext(h, a), c, n) ==> FirstBig(h.(free := Unjoined(h, a)), c, n)
  {
    hide CoalesceNext, Unjoined;
    AbsorbedFacts(h, a, n);
    var h1, k := CoalesceNext(h, a), h.(free := Unjoined(h, a));
    if FirstBig(h1, c, n) {
      var i :| 0 <= i < |h1.free| && h1.free[i] == c && Big(h1, c, n)
               && forall j :: 0 <= j < i ==> !Big(h1, h1.free[j], n);
      assert k.free[i] == c && Big(h, c, n) && Big(k, c, n);
      forall j | 0 <= j < i
        ensures !Big(k, k.free[j], n)
      {
        assert !Big(h1, h1.free[j], n);
        ListedApart(h, a, j);
      }
    }
  }

  lemma ListedApart(h: Heap, a: int, j: nat)
    requires Inv(h) && Live(h, a) && j < |Unjoined(h, a)|
    ensures Unjoined(h, a)[j] != Next(h, a)
  {
    assert Linked(h, a);
    assert Linked(h, Next(h, a));
    DropMembers(h.free, Next(h, a));
    var x := Unjoined(h, a)[j];
    assert x in Unjoined(h, a);
    if Highest(h, a) == Next(h, a) {
      assert Listed(h, {}, x);
    }
  }

  lemma TopAbsorbed(h: Heap, a: int)
    requires Inv(h) && Live(h, a)
    ensures h.end in h.blocks && h.end in CoalesceNext(h, a).blocks
    ensures Top(CoalesceNext(h, a)) == if Highest(h, a) == h.end then h.end else Top(h)
  {
    assert Linked(h, a);
    assert Linked(h, Next(h, a)) && Linked(h, h.end);
    AbsorbedFacts(h, a, 0);
    var g := CoalesceNext(h, a);
    assert Linked(g, a) && Linked(g, g.end);
    CoalesceNextBlocks(h, a);
  }
}
