/** The TLSF pool as a mathematical object: blocks by header address and one free list per
    size class. The operations here say what malloc, memalign and free do to blocks and
    lists; `TlsfAllocator` shows that the pointer and bitmap code computes them. */
module TlsfPool {
  import opened Mapping
  import opened Seqs

  /** A physical block: payload size, free flag, and the header address of the block before. */
  datatype Blk = Blk(size: int, free: bool, prev: int)

  /** `first` is the header of the lowest block, `end` that of the zero-size sentinel. */
  datatype Pool = Pool(first: int, end: int, blocks: map<int, Blk>, lists: seq<seq<int>>)

  /** Address of the next header: `block_next`. */
  function Next(p: Pool, a: int): int
    requires a in p.blocks
  {
    a + 8 + p.blocks[a].size
  }

  // ----- invariants

  /** Block `a` lies in the pool and is linked with its physical neighbours in both directions. */
  ghost predicate Linked(p: Pool, a: int)
    requires a in p.blocks
  {
    && p.first <= a <= p.end
    && (a != p.end ==>
          && BLOCK_SIZE_MIN <= p.blocks[a].size && Next(p, a) <= p.end
          && Next(p, a) in p.blocks && p.blocks[Next(p, a)].prev == a)
    && (a == p.first ==> p.blocks[a].prev == 0)
    && (a != p.first ==>
          && p.blocks[a].prev in p.blocks && p.blocks[a].prev != p.end
          && Next(p, p.blocks[a].prev) == a)
  }

  ghost predicate Apart(p: Pool, a: int, b: int)
    requires a in p.blocks
  {
    a < b ==> Next(p, a) <= b
  }

  /** The blocks tile the pool up to the sentinel: all are linked and none overlap. */
  ghost predicate Tiled(p: Pool) {
    && p.first in p.blocks && p.end in p.blocks && 0 <= p.first < p.end
    && p.blocks[p.end].size == 0 && !p.blocks[p.end].free
    && p.end - p.first - 8 < BLOCK_SIZE_MAX
    && (forall a {:trigger Linked(p, a)} :: a in p.blocks ==> Linked(p, a))
    && (forall a, b {:trigger Apart(p, a, b)} :: a in p.blocks && b in p.blocks ==> Apart(p, a, b))
  }

  ghost predicate Aligned(p: Pool) {
    forall a {:trigger p.blocks[a]} :: a in p.blocks ==> a % ALIGN_SIZE == 0 && p.blocks[a].size % ALIGN_SIZE == 0
  }

  ghost predicate FreePair(p: Pool, a: int)
    requires a in p.blocks
  {
    && p.blocks[a].free
    && Next(p, a) in p.blocks && p.blocks[Next(p, a)].free
  }

  /** No two neighbouring blocks are both free. */
  ghost predicate Coalesced(p: Pool) {
    forall a {:trigger FreePair(p, a)} :: a in p.blocks ==> !FreePair(p, a)
  }

  /** A block is in the list of class `k`: free, of that class, and not held out of the lists
      by an operation in progress. */
  ghost predicate Listed(p: Pool, loose: set<int>, a: int, k: int) {
    a in p.blocks && p.blocks[a].free && a !in loose && 0 <= p.blocks[a].size && ClassOf(p.blocks[a].size) == k
  }

  /** The free lists hold exactly the free blocks, each once, by class. */
  ghost predicate Indexed(p: Pool, loose: set<int>) {
    && |p.lists| == CLASS_COUNT
    && (forall k :: 0 <= k < CLASS_COUNT ==> NoDup(p.lists[k]))
    && (forall k, a {:trigger Listed(p, loose, a, k)} :: 0 <= k < CLASS_COUNT ==>
          (a in p.lists[k] <==> Listed(p, loose, a, k)))
  }

  /** What holds between the steps of an operation that keeps the blocks `loose` in hand. */
  ghost predicate Partial(p: Pool, loose: set<int>) {
    && Tiled(p) && Aligned(p) && Indexed(p, loose)
    && (forall a :: a in loose ==> a in p.blocks && p.blocks[a].free)
  }

  ghost predicate Inv(p: Pool) {
    Partial(p, {}) && Coalesced(p)
  }

  // ----- steps

  function SetFree(p: Pool, a: int, free: bool): Pool
    requires a in p.blocks
  {
    p.(blocks := p.blocks[a := p.blocks[a].(free := free)])
  }

  ghost predicate HasList(p: Pool, a: int) {
    a in p.blocks && 0 <= p.blocks[a].size && 0 <= ClassOf(p.blocks[a].size) < |p.lists|
  }

  /** Remove a block from the list of its class. */
  ghost function TakeOut(p: Pool, a: int): Pool
    requires HasList(p, a)
  {
    var k := ClassOf(p.blocks[a].size);
    p.(lists := p.lists[k := Drop(p.lists[k], a)])
  }

  /** Insert a block at the head of the list of its class. */
  ghost function PutIn(p: Pool, a: int): Pool
    requires HasList(p, a)
  {
    var k := ClassOf(p.blocks[a].size);
    p.(lists := p.lists[k := [a] + p.lists[k]])
  }

  /** Cut block `a` after `size` payload bytes; the rest becomes a free block. */
  function Split(p: Pool, a: int, size: int): Pool
    requires a in p.blocks && Next(p, a) in p.blocks
  {
    var n := Next(p, a);
    var m := a + 8 + size;
    p.(blocks := p.blocks[n := p.blocks[n].(prev := m)][a := p.blocks[a].(size := size)]
        [m := Blk(p.blocks[a].size - size - 8, true, a)])
  }

  /** Block `a` takes over the block after it. */
  function Absorb(p: Pool, a: int): Pool
    requires a in p.blocks && Next(p, a) in p.blocks && Next(p, Next(p, a)) in p.blocks
  {
    var b := Next(p, a);
    var n := Next(p, b);
    p.(blocks := (p.blocks - {b})[n := p.blocks[n].(prev := a)]
        [a := p.blocks[a].(size := p.blocks[a].size + 8 + p.blocks[b].size)])
  }

  // ----- what each step keeps

  lemma ListOf(p: Pool, a: int)
    requires Tiled(p) && a in p.blocks && |p.lists| == CLASS_COUNT
    ensures HasList(p, a)
  {
    assert Linked(p, a);
    ClassHoldsSize(p.blocks[a].size);
    ClassInRange(p.blocks[a].size);
  }

  lemma SameBlocksTiled(p: Pool, q: Pool)
    requires Tiled(p) && q == p.(lists := q.lists)
    ensures Tiled(q)
  {
    forall a | a in q.blocks
      ensures Linked(q, a)
    {
      assert Linked(p, a);
    }
    forall a, b | a in q.blocks && b in q.blocks
      ensures Apart(q, a, b)
    {
      assert Apart(p, a, b);
    }
  }

  lemma SetFreeTiles(p: Pool, a: int, free: bool)
    requires Tiled(p) && a in p.blocks && a != p.end
    ensures Tiled(SetFree(p, a, free))
  {
    var q := SetFree(p, a, free);
    forall x | x in q.blocks
      ensures Linked(q, x)
    {
      assert Linked(p, x);
    }
    forall x, y | x in q.blocks && y in q.blocks
      ensures Apart(q, x, y)
    {
      assert Apart(p, x, y);
    }
  }

  lemma SplitFresh(p: Pool, a: int, size: int)
    requires Tiled(p) && a in p.blocks && a != p.end
    requires BLOCK_SIZE_MIN <= size && size + 8 + BLOCK_SIZE_MIN <= p.blocks[a].size
    ensures a + 8 + size !in p.blocks && Next(p, a) in p.blocks
  {
    assert Linked(p, a);
    assert a + 8 + size in p.blocks ==> Apart(p, a, a + 8 + size);
  }

  lemma SplitLinks(p: Pool, a: int, size: int, x: int)
    requires Tiled(p) && a in p.blocks && a != p.end
    requires BLOCK_SIZE_MIN <= size && size + 8 + BLOCK_SIZE_MIN <= p.blocks[a].size
    requires a + 8 + size !in p.blocks && Next(p, a) in p.blocks && x in Split(p, a, size).blocks
    ensures Linked(Split(p, a, size), x)
  {
    assert Linked(p, a);
    assert x != a + 8 + size ==> Linked(p, x);
  }

  lemma SplitApart(p: Pool, a: int, size: int, x: int, y: int)
    requires Tiled(p) && a in p.blocks && a != p.end
    requires BLOCK_SIZE_MIN <= size && size + 8 + BLOCK_SIZE_MIN <= p.blocks[a].size
    requires a + 8 + size !in p.blocks && Next(p, a) in p.blocks
    requires x in Split(p, a, size).blocks && y in Split(p, a, size).blocks
    ensures Apart(Split(p, a, size), x, y)
  {
    var m := a + 8 + size;
    assert x != m && y != m ==> Apart(p, x, y);
    assert x != m ==> Apart(p, x, a) && Apart(p, a, x);
    assert y != m ==> Apart(p, a, y);
  }

  lemma SplitTiles(p: Pool, a: int, size: int)
    requires Tiled(p) && a in p.blocks && a != p.end
    requires BLOCK_SIZE_MIN <= size && size + 8 + BLOCK_SIZE_MIN <= p.blocks[a].size
    ensures a + 8 + size !in p.blocks && Next(p, a) in p.blocks
    ensures Tiled(Split(p, a, size))
  {
    SplitFresh(p, a, size);
    assert Linked(p, a);
    var q := Split(p, a, size);
    forall x | x in q.blocks
      ensures Linked(q, x)
    {
      SplitLinks(p, a, size, x);
    }
    forall x, y | x in q.blocks && y in q.blocks
      ensures Apart(q, x, y)
    {
      SplitApart(p, a, size, x, y);
    }
  }

  lemma AbsorbLinks(p: Pool, a: int, x: int)
    requires Tiled(p) && a in p.blocks && a != p.end && Next(p, a) != p.end
    ensures Next(p, a) in p.blocks && Next(p, Next(p, a)) in p.blocks && Next(p, Next(p, a)) <= p.end
    ensures x in Absorb(p, a).blocks ==> Linked(Absorb(p, a), x)
  {
    assert Linked(p, a);
    var b := Next(p, a);
    assert Linked(p, b);
    var n := Next(p, b);
    if x in Absorb(p, a).blocks {
      assert Linked(p, x);
      if x != a && x != p.end {
        assert Next(p, x) != b && Next(p, x) != n;
      }
    }
  }

  lemma AbsorbApart(p: Pool, a: int, x: int, y: int)
    requires Tiled(p) && a in p.blocks && a != p.end && Next(p, a) != p.end
    requires Next(p, a) in p.blocks && Next(p, Next(p, a)) in p.blocks
    requires x in Absorb(p, a).blocks && y in Absorb(p, a).blocks
    ensures Apart(Absorb(p, a), x, y)
  {
    var b := Next(p, a);
    assert Linked(p, a) && Linked(p, b);
    assert Apart(p, x, y);
    assert Apart(p, b, y);
    if x == a {
      assert y != b;
      assert Next(Absorb(p, a), x) == Next(p, b);
    } else {
      assert Next(Absorb(p, a), x) == Next(p, x);
    }
  }

  lemma AbsorbTiles(p: Pool, a: int)
    requires Tiled(p) && a in p.blocks && a != p.end && Next(p, a) != p.end
    ensures Next(p, a) in p.blocks && Next(p, Next(p, a)) in p.blocks
    ensures Tiled(Absorb(p, a))
  {
    AbsorbLinks(p, a, a);
    assert Linked(p, a) && Linked(p, Next(p, a));
    var q := Absorb(p, a);
    assert q.first in q.blocks && q.end in q.blocks && q.blocks[q.end].size == 0 && !q.blocks[q.end].free;
    forall x | x in q.blocks
      ensures Linked(q, x)
    {
      AbsorbLinks(p, a, x);
    }
    forall x, y | x in q.blocks && y in q.blocks
      ensures Apart(q, x, y)
    {
      AbsorbApart(p, a, x, y);
    }
  }

  // ----- the lists follow the blocks

  /** The lists stay right when every listed block of one pool is a listed block of the other. */
  lemma Relisted(p: Pool, loose: set<int>, q: Pool, loose': set<int>)
    requires Indexed(p, loose) && q.lists == p.lists
    requires forall a, k {:trigger Listed(q, loose', a, k)} :: Listed(q, loose', a, k) <==> Listed(p, loose, a, k)
    ensures Indexed(q, loose')
  {
    forall k, a | 0 <= k < CLASS_COUNT
      ensures a in q.lists[k] <==> Listed(q, loose', a, k)
    {
      assert a in p.lists[k] <==> Listed(p, loose, a, k);
    }
  }

  lemma TakeOutKeeps(p: Pool, loose: set<int>, a: int)
    requires Partial(p, loose) && a in p.blocks && p.blocks[a].free && a !in loose
    ensures HasList(p, a) && Partial(TakeOut(p, a), loose + {a})
  {
    ListOf(p, a);
    var k := ClassOf(p.blocks[a].size);
    DropMembers(p.lists[k], a);
    var q := TakeOut(p, a);
    SameBlocksTiled(p, q);
    forall j, x | 0 <= j < CLASS_COUNT
      ensures x in q.lists[j] <==> Listed(q, loose + {a}, x, j)
    {
      assert x in p.lists[j] <==> Listed(p, loose, x, j);
    }
  }

  lemma PutInKeeps(p: Pool, loose: set<int>, a: int)
    requires Partial(p, loose) && a in loose
    ensures HasList(p, a) && Partial(PutIn(p, a), loose - {a})
  {
    ListOf(p, a);
    var k := ClassOf(p.blocks[a].size);
    var q := PutIn(p, a);
    SameBlocksTiled(p, q);
    assert !Listed(p, loose, a, k);
    forall j, x | 0 <= j < CLASS_COUNT
      ensures x in q.lists[j] <==> Listed(q, loose - {a}, x, j)
    {
      assert x in p.lists[j] <==> Listed(p, loose, x, j);
    }
  }

  lemma MarkFreeKeeps(p: Pool, loose: set<int>, a: int)
    requires Partial(p, loose) && a in p.blocks && a != p.end && a !in loose && !p.blocks[a].free
    ensures Partial(SetFree(p, a, true), loose + {a})
  {
    SetFreeTiles(p, a, true);
    Relisted(p, loose, SetFree(p, a, true), loose + {a});
  }

  lemma MarkUsedKeeps(p: Pool, loose: set<int>, a: int)
    requires Partial(p, loose) && a in loose
    ensures Partial(SetFree(p, a, false), loose - {a})
  {
    SetFreeTiles(p, a, false);
    Relisted(p, loose, SetFree(p, a, false), loose - {a});
  }

  lemma SplitKeeps(p: Pool, loose: set<int>, a: int, size: int)
    requires Partial(p, loose) && a in loose
    requires BLOCK_SIZE_MIN <= size && size + 8 + BLOCK_SIZE_MIN <= p.blocks[a].size && size % ALIGN_SIZE == 0
    ensures Next(p, a) in p.blocks && Partial(Split(p, a, size), loose + {a + 8 + size})
  {
    SplitTiles(p, a, size);
    Relisted(p, loose, Split(p, a, size), loose + {a + 8 + size});
  }

  lemma AbsorbKeeps(p: Pool, loose: set<int>, a: int)
    requires Partial(p, loose) && a in loose && Next(p, a) in loose
    ensures Next(p, Next(p, a)) in p.blocks && Partial(Absorb(p, a), loose - {Next(p, a)})
  {
    AbsorbTiles(p, a);
    Relisted(p, loose, Absorb(p, a), loose - {Next(p, a)});
  }
}
