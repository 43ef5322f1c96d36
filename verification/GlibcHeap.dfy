/** The boundary-tag heap of the glibc-style allocator as a mathematical object: blocks by header
    address up to a used zero-size sentinel just below the break, and one free list. */
module GlibcHeap {
  import opened Seqs

  /** A block: payload size, used flag, and the header address of the block before. */
  datatype Blk = Blk(size: int, used: bool, prev: int)

  /** `base` is the lowest header, `end` the sentinel's, 16 below the break, and the break may
      grow up to `limit`. */
  datatype Heap = Heap(base: int, end: int, limit: int, blocks: map<int, Blk>, free: seq<int>)

  /** `gca_next`. */
  function Next(h: Heap, a: int): int
    requires a in h.blocks
  {
    a + 16 + h.blocks[a].size
  }

  // ----- invariants

  /** Block `a` lies in the heap and is linked with its neighbours in both directions. */
  ghost predicate Linked(h: Heap, a: int)
    requires a in h.blocks
  {
    && h.base <= a <= h.end
    && (a != h.end ==>
          && 16 <= h.blocks[a].size && Next(h, a) <= h.end
          && Next(h, a) in h.blocks && h.blocks[Next(h, a)].prev == a)
    && (a == h.base ==> h.blocks[a].prev == 0)
    && (a != h.base ==>
          && h.blocks[a].prev in h.blocks && h.blocks[a].prev != h.end
          && Next(h, h.blocks[a].prev) == a)
  }

  ghost predicate Apart(h: Heap, a: int, b: int)
    requires a in h.blocks
  {
    a < b ==> Next(h, a) <= b
  }

  /** The blocks tile the heap from its base to the break. */
  ghost predicate Tiled(h: Heap) {
    && h.base in h.blocks && h.end in h.blocks && 0 < h.base < h.end && h.end + 16 <= h.limit
    && h.blocks[h.end].size == 0 && h.blocks[h.end].used
    && (forall a {:trigger Linked(h, a)} :: a in h.blocks ==> Linked(h, a))
    && (forall a, b {:trigger Apart(h, a, b)} :: a in h.blocks && b in h.blocks ==> Apart(h, a, b))
  }

  ghost predicate Aligned(h: Heap) {
    forall a {:trigger h.blocks[a]} :: a in h.blocks ==> a % 16 == 0 && h.blocks[a].size % 16 == 0
  }

  ghost predicate FreePair(h: Heap, a: int)
    requires a in h.blocks
  {
    !h.blocks[a].used && Next(h, a) in h.blocks && !h.blocks[Next(h, a)].used
  }

  /** No two neighbouring blocks are both free. */
  ghost predicate Coalesced(h: Heap) {
    forall a {:trigger FreePair(h, a)} :: a in h.blocks ==> !FreePair(h, a)
  }

  ghost predicate Listed(h: Heap, loose: set<int>, a: int) {
    a in h.blocks && !h.blocks[a].used && a !in loose
  }

  /** The free list has each free block once, except those held out of it by an operation in
      progress. */
  ghost predicate Indexed(h: Heap, loose: set<int>) {
    NoDup(h.free) && forall a {:trigger Listed(h, loose, a)} :: a in h.free <==> Listed(h, loose, a)
  }

  /** What holds between the steps of an operation that keeps the blocks `loose` in hand. */
  ghost predicate Partial(h: Heap, loose: set<int>) {
    && Tiled(h) && Aligned(h) && Indexed(h, loose)
    && (forall a :: a in loose ==> a in h.blocks && !h.blocks[a].used)
  }

  ghost predicate Inv(h: Heap) {
    Partial(h, {}) && Coalesced(h)
  }

  // ----- steps

  function SetUsed(h: Heap, a: int, used: bool): Heap
    requires a in h.blocks
  {
    h.(blocks := h.blocks[a := h.blocks[a].(used := used)])
  }

  function TakeOut(h: Heap, a: int): Heap {
    h.(free := Drop(h.free, a))
  }

  function PutIn(h: Heap, a: int): Heap {
    h.(free := [a] + h.free)
  }

  /** Cut block `a` after `size` payload bytes; the rest becomes a free block. */
  function Split(h: Heap, a: int, size: int): Heap
    requires a in h.blocks && Next(h, a) in h.blocks
  {
    var n := Next(h, a);
    var m := a + 16 + size;
    h.(blocks := h.blocks[n := h.blocks[n].(prev := m)][a := h.blocks[a].(size := size)]
        [m := Blk(h.blocks[a].size - size - 16, false, a)])
  }

  /** Block `a` takes over the block after it. */
  function Absorb(h: Heap, a: int): Heap
    requires a in h.blocks && Next(h, a) in h.blocks && Next(h, Next(h, a)) in h.blocks
  {
    var b := Next(h, a);
    var n := Next(h, b);
    h.(blocks := (h.blocks - {b})[n := h.blocks[n].(prev := a)]
        [a := h.blocks[a].(size := h.blocks[a].size + 16 + h.blocks[b].size)])
  }

  /** The break moves up by `page` bytes: the sentinel's place becomes a free block, and there is
      a new sentinel below the new break. */
  function Grow(h: Heap, page: int): Heap
    requires h.end in h.blocks
  {
    h.(end := h.end + page, blocks := h.blocks[h.end := Blk(page - 16, false, h.blocks[h.end].prev)]
        [h.end + page := Blk(0, true, h.end)])
  }

  // ----- what each step keeps

  lemma SameBlocksTiled(h: Heap, g: Heap)
    requires Tiled(h) && g == h.(free := g.free)
    ensures Tiled(g)
  {
    forall a | a in g.blocks
      ensures Linked(g, a)
    {
      assert Linked(h, a);
    }
    forall a, b | a in g.blocks && b in g.blocks
      ensures Apart(g, a, b)
    {
      assert Apart(h, a, b);
    }
  }

  lemma SetUsedTiles(h: Heap, a: int, used: bool)
    requires Tiled(h) && a in h.blocks && a != h.end
    ensures Tiled(SetUsed(h, a, used))
  {
    var g := SetUsed(h, a, used);
    forall x | x in g.blocks
      ensures Linked(g, x)
    {
      assert Linked(h, x);
    }
    forall x, y | x in g.blocks && y in g.blocks
      ensures Apart(g, x, y)
    {
      assert Apart(h, x, y);
    }
  }

  ghost predicate CanSplit(h: Heap, a: int, size: int) {
    a in h.blocks && a != h.end && 16 <= size && size + 32 <= h.blocks[a].size
  }

  lemma SplitFresh(h: Heap, a: int, size: int)
    requires Tiled(h) && CanSplit(h, a, size)
    ensures a + 16 + size !in h.blocks && Next(h, a) in h.blocks
  {
    assert Linked(h, a);
    assert a + 16 + size in h.blocks ==> Apart(h, a, a + 16 + size);
  }

  lemma SplitLinks(h: Heap, a: int, size: int, x: int)
    requires Tiled(h) && CanSplit(h, a, size)
    requires a + 16 + size !in h.blocks && Next(h, a) in h.blocks && x in Split(h, a, size).blocks
    ensures Linked(Split(h, a, size), x)
  {
    assert Linked(h, a);
    assert x != a + 16 + size ==> Linked(h, x);
  }

  lemma SplitApart(h: Heap, a: int, size: int, x: int, y: int)
    requires Tiled(h) && CanSplit(h, a, size)
    requires a + 16 + size !in h.blocks && Next(h, a) in h.blocks
    requires x in Split(h, a, size).blocks && y in Split(h, a, size).blocks
    ensures Apart(Split(h, a, size), x, y)
  {
    var m := a + 16 + size;
    assert x != m && y != m ==> Apart(h, x, y);
    assert x != m ==> Apart(h, x, a) && Apart(h, a, x);
    assert y != m ==> Apart(h, a, y);
  }

  lemma SplitTiles(h: Heap, a: int, size: int)
    requires Tiled(h) && CanSplit(h, a, size)
    ensures a + 16 + size !in h.blocks && Next(h, a) in h.blocks
    ensures Tiled(Split(h, a, size))
  {
    SplitFresh(h, a, size);
    assert Linked(h, a);
    var g := Split(h, a, size);
    forall x | x in g.blocks
      ensures Linked(g, x)
    {
      SplitLinks(h, a, size, x);
    }
    forall x, y | x in g.blocks && y in g.blocks
      ensures Apart(g, x, y)
    {
      SplitApart(h, a, size, x, y);
    }
  }

  lemma AbsorbLinks(h: Heap, a: int, x: int)
    requires Tiled(h) && a in h.blocks && a != h.end && Next(h, a) != h.end
    ensures Next(h, a) in h.blocks && Next(h, Next(h, a)) in h.blocks && Next(h, Next(h, a)) <= h.end
    ensures x in Absorb(h, a).blocks ==> Linked(Absorb(h, a), x)
  {
    assert Linked(h, a);
    var b := Next(h, a);
    assert Linked(h, b);
    var n := Next(h, b);
    if x in Absorb(h, a).blocks {
      assert Linked(h, x);
      if x != a && x != h.end {
        assert Next(h, x) != b && Next(h, x) != n;
      }
    }
  }

  lemma AbsorbApart(h: Heap, a: int, x: int, y: int)
    requires Tiled(h) && a in h.blocks && a != h.end && Next(h, a) != h.end
    requires Next(h, a) in h.blocks && Next(h, Next(h, a)) in h.blocks
    requires x in Absorb(h, a).blocks && y in Absorb(h, a).blocks
    ensures Apart(Absorb(h, a), x, y)
  {
    var b := Next(h, a);
    assert Linked(h, a) && Linked(h, b);
    assert Apart(h, x, y);
    assert Apart(h, b, y);
    if x == a {
      assert y != b;
      assert Next(Absorb(h, a), x) == Next(h, b);
    } else {
      assert Next(Absorb(h, a), x) == Next(h, x);
    }
  }

  lemma AbsorbTiles(h: Heap, a: int)
    requires Tiled(h) && a in h.blocks && a != h.end && Next(h, a) != h.end
    ensures Next(h, a) in h.blocks && Next(h, Next(h, a)) in h.blocks
    ensures Tiled(Absorb(h, a))
  {
    AbsorbLinks(h, a, a);
    assert Linked(h, a) && Linked(h, Next(h, a));
    var g := Absorb(h, a);
    assert g.base in g.blocks && g.end in g.blocks && g.blocks[g.end].size == 0 && g.blocks[g.end].used;
    forall x | x in g.blocks
      ensures Linked(g, x)
    {
      AbsorbLinks(h, a, x);
    }
    forall x, y | x in g.blocks && y in g.blocks
      ensures Apart(g, x, y)
    {
      AbsorbApart(h, a, x, y);
    }
  }

  lemma GrowTiles(h: Heap, page: int)
    requires Tiled(h) && page >= 32 && h.end + 16 + page <= h.limit
    ensures Tiled(Grow(h, page)) && h.end + page !in h.blocks
  {
    var g := Grow(h, page);
    assert h.end + page in h.blocks ==> Linked(h, h.end + page);
    assert Linked(h, h.end);
    forall x | x in g.blocks
      ensures Linked(g, x)
    {
      assert x in h.blocks ==> Linked(h, x);
    }
    forall x, y | x in g.blocks && y in g.blocks
      ensures Apart(g, x, y)
    {
      assert x in h.blocks && y in h.blocks ==> Apart(h, x, y);
      assert x in h.blocks ==> Linked(h, x);
      assert y in h.blocks ==> Linked(h, y);
    }
  }

  // ----- the free list follows the blocks

  lemma Relisted(h: Heap, loose: set<int>, g: Heap, loose': set<int>)
    requires Indexed(h, loose) && g.free == h.free
    requires forall a {:trigger Listed(g, loose', a)} :: Listed(g, loose', a) <==> Listed(h, loose, a)
    ensures Indexed(g, loose')
  {
    forall a
      ensures a in g.free <==> Listed(g, loose', a)
    {
      assert a in h.free <==> Listed(h, loose, a);
    }
  }

  lemma TakeOutKeeps(h: Heap, loose: set<int>, a: int)
    requires Partial(h, loose) && a in h.blocks && !h.blocks[a].used && a !in loose
    ensures Partial(TakeOut(h, a), loose + {a})
  {
    DropMembers(h.free, a);
    var g := TakeOut(h, a);
    SameBlocksTiled(h, g);
    forall x
      ensures x in g.free <==> Listed(g, loose + {a}, x)
    {
      assert x in h.free <==> Listed(h, loose, x);
    }
  }

  lemma PutInKeeps(h: Heap, loose: set<int>, a: int)
    requires Partial(h, loose) && a in loose
    ensures Partial(PutIn(h, a), loose - {a})
  {
    var g := PutIn(h, a);
    SameBlocksTiled(h, g);
    assert !Listed(h, loose, a);
    forall x
      ensures x in g.free <==> Listed(g, loose - {a}, x)
    {
      assert x in h.free <==> Listed(h, loose, x);
    }
  }

  lemma MarkFreeKeeps(h: Heap, loose: set<int>, a: int)
    requires Partial(h, loose) && a in h.blocks && a != h.end && a !in loose && h.blocks[a].used
    ensures Partial(SetUsed(h, a, false), loose + {a})
  {
    SetUsedTiles(h, a, false);
    Relisted(h, loose, SetUsed(h, a, false), loose + {a});
  }

  lemma MarkUsedKeeps(h: Heap, loose: set<int>, a: int)
    requires Partial(h, loose) && a in loose
    ensures Partial(SetUsed(h, a, true), loose - {a})
  {
    SetUsedTiles(h, a, true);
    Relisted(h, loose, SetUsed(h, a, true), loose - {a});
  }

  lemma SplitKeeps(h: Heap, loose: set<int>, a: int, size: int)
    requires Partial(h, loose) && CanSplit(h, a, size) && size % 16 == 0
    ensures Next(h, a) in h.blocks && Partial(Split(h, a, size), loose + {a + 16 + size})
  {
    SplitTiles(h, a, size);
    Relisted(h, loose, Split(h, a, size), loose + {a + 16 + size});
  }

  lemma AbsorbKeeps(h: Heap, loose: set<int>, a: int)
    requires Partial(h, loose) && a in h.blocks && a != h.end && Next(h, a) in loose
    ensures Next(h, Next(h, a)) in h.blocks && Partial(Absorb(h, a), loose - {Next(h, a)})
  {
    AbsorbTiles(h, a);
    assert Linked(h, a) && Linked(h, Next(h, a));
    Relisted(h, loose, Absorb(h, a), loose - {Next(h, a)});
  }

  lemma GrowKeeps(h: Heap, page: int)
    requires Partial(h, {}) && page >= 32 && page % 16 == 0 && h.end + 16 + page <= h.limit
    ensures Partial(Grow(h, page), {h.end})
  {
    GrowTiles(h, page);
    Relisted(h, {}, Grow(h, page), {h.end});
  }
}
