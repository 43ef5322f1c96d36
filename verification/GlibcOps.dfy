/** malloc, free and realloc on the mathematical heap: what each keeps, and what it does to the
    live blocks. */
module GlibcOps {
  import opened Basics
  import opened GlibcHeap

  // ----- live blocks

  /** Block `a` is handed out: used, and not the sentinel. */
  ghost predicate Live(h: Heap, a: int) {
    a in h.blocks && a != h.end && h.blocks[a].used
  }

  /** `x` is live in both heaps with the same size, or in neither. */
  ghost predicate Same(h: Heap, g: Heap, x: int) {
    (Live(h, x) <==> Live(g, x)) && (Live(h, x) ==> h.blocks[x].size == g.blocks[x].size)
  }

  /** All live blocks but `a` stay as they are, and the heap stays in place. */
  ghost predicate OthersKept(h: Heap, g: Heap, a: int) {
    g.base == h.base && g.limit == h.limit && forall x {:trigger Same(h, g, x)} :: x != a ==> Same(h, g, x)
  }

  ghost predicate AllKept(h: Heap, g: Heap) {
    g.base == h.base && g.limit == h.limit && forall x {:trigger Same(h, g, x)} :: Same(h, g, x)
  }

  lemma OthersTrans(h: Heap, g: Heap, k: Heap, a: int)
    requires OthersKept(h, g, a) && OthersKept(g, k, a)
    ensures OthersKept(h, k, a)
  {
    forall x | x != a
      ensures Same(h, k, x)
    {
      assert Same(h, g, x) && Same(g, k, x);
    }
  }

  lemma KeptOthers(h: Heap, g: Heap, a: int)
    requires AllKept(h, g)
    ensures OthersKept(h, g, a)
  {
  }

  lemma OthersKeptAll(h: Heap, g: Heap, a: int)
    requires OthersKept(h, g, a) && Same(h, g, a)
    ensures AllKept(h, g)
  {
    forall x
      ensures Same(h, g, x)
    {
      assert x != a ==> Same(h, g, x);
    }
  }

  // ----- pairs of free neighbours after each step

  lemma AbsorbPairs(h: Heap, a: int, x: int)
    requires Tiled(h) && a in h.blocks && a != h.end && Next(h, a) in h.blocks && Next(h, a) != h.end
    requires Next(h, Next(h, a)) in h.blocks && x in Absorb(h, a).blocks && FreePair(Absorb(h, a), x)
    ensures x in h.blocks && if x == a then FreePair(h, Next(h, a)) || h.blocks[Next(h, a)].used else FreePair(h, x)
  {
    assert Linked(h, a) && Linked(h, Next(h, a)) && Linked(h, x);
    AbsorbTiles(h, a);
    assert Linked(Absorb(h, a), x);
  }

  lemma SplitPairs(h: Heap, a: int, size: int, x: int)
    requires Tiled(h) && CanSplit(h, a, size) && Next(h, a) in h.blocks && x in Split(h, a, size).blocks
             && FreePair(Split(h, a, size), x)
    ensures if x == a then !h.blocks[a].used
            else if x == a + 16 + size then !h.blocks[Next(h, a)].used
            else x in h.blocks && FreePair(h, x)
  {
    SplitFresh(h, a, size);
    assert Linked(h, a);
    if x in h.blocks {
      assert Linked(h, x);
    }
  }

  lemma GrowPairs(h: Heap, page: int, x: int)
    requires Tiled(h) && page >= 32 && h.end + 16 + page <= h.limit && x in Grow(h, page).blocks
             && FreePair(Grow(h, page), x)
    ensures x in h.blocks && (FreePair(h, x) || Next(h, x) == h.end)
  {
    GrowTiles(h, page);
    if x in h.blocks {
      assert Linked(h, x);
    }
  }

  // ----- coalescing

  /** `gca_coalesce_next`: block `a` takes over a free block after it. */
  ghost function CoalesceNext(h: Heap, a: int): (g: Heap)
    requires Partial(h, {}) && a in h.blocks && a != h.end
    ensures Partial(g, {})
  {
    assert Linked(h, a);
    var b := Next(h, a);
    if h.blocks[b].used then h
    else
      TakeOutKeeps(h, {}, b);
      AbsorbKeeps(TakeOut(h, b), {} + {b}, a);
      assert {} + {b} - {b} == {};
      Absorb(TakeOut(h, b), a)
  }

  lemma CoalesceNextBlocks(h: Heap, a: int)
    requires Partial(h, {}) && a in h.blocks && a != h.end
    ensures var g := CoalesceNext(h, a);
            var b := Next(h, a);
            && b in h.blocks && a in g.blocks && a != g.end && g.end == h.end && g.base == h.base && g.limit == h.limit
            && g.blocks[a].used == h.blocks[a].used && g.blocks[a].prev == h.blocks[a].prev
            && g.blocks[a].size == h.blocks[a].size + (if h.blocks[b].used then 0 else 16 + h.blocks[b].size)
            && (forall x :: x != a && x in g.blocks ==>
                  x in h.blocks && h.blocks[x].size == g.blocks[x].size && h.blocks[x].used == g.blocks[x].used)
            && (forall x :: x in h.blocks && x !in g.blocks ==> x == b && !h.blocks[b].used)
  {
    assert Linked(h, a) && Linked(h, Next(h, a));
    if !h.blocks[Next(h, a)].used {
      var b := Next(h, a);
      TakeOutKeeps(h, {}, b);
      AbsorbKeeps(TakeOut(h, b), {} + {b}, a);
    }
  }

  lemma CoalesceNextKept(h: Heap, a: int)
    requires Partial(h, {}) && a in h.blocks && a != h.end
    ensures OthersKept(h, CoalesceNext(h, a), a)
    ensures !h.blocks[a].used ==> AllKept(h, CoalesceNext(h, a))
  {
    CoalesceNextBlocks(h, a);
    var g := CoalesceNext(h, a);
    hide CoalesceNext, Partial;
    forall x | x != a
      ensures Same(h, g, x)
    {
    }
    if !h.blocks[a].used {
      OthersKeptAll(h, g, a);
    }
  }

  /** After coalescing, `a` has no free neighbour after it, unless the one it took over had. */
  lemma CoalesceNextPairs(h: Heap, a: int, x: int)
    requires Partial(h, {}) && a in h.blocks && a != h.end
    requires x in CoalesceNext(h, a).blocks && FreePair(CoalesceNext(h, a), x)
    ensures x in h.blocks && Next(h, a) in h.blocks
    ensures if x == a then FreePair(h, Next(h, a)) else FreePair(h, x)
  {
    assert Linked(h, a);
    var b := Next(h, a);
    if !h.blocks[b].used {
      TakeOutKeeps(h, {}, b);
      var t := TakeOut(h, b);
      AbsorbKeeps(t, {} + {b}, a);
      AbsorbPairs(t, a, x);
      assert x == a ==> FreePair(t, b) && FreePair(h, b);
    }
  }

  /** `gca_coalesce_prev`: a free block before `a` takes it over. */
  ghost function CoalescePrev(h: Heap, a: int): (r: (Heap, int))
    requires Partial(h, {}) && a in h.blocks && a != h.end
    ensures Partial(r.0, {})
  {
    assert Linked(h, a);
    if a == h.base || h.blocks[h.blocks[a].prev].used then (h, a)
    else (CoalesceNext(h, h.blocks[a].prev), h.blocks[a].prev)
  }

  /** With `a` free and its only free neighbour before it, coalescing leaves no pair. */
  lemma CoalescePrevKeeps(h: Heap, a: int)
    requires Partial(h, {}) && a in h.blocks && a != h.end && !h.blocks[a].used
    requires forall x {:trigger FreePair(h, x)} :: x in h.blocks && FreePair(h, x) ==> Next(h, x) == a
    ensures var (g, b) := CoalescePrev(h, a);
            && Inv(g) && AllKept(h, g) && b in g.blocks && b != g.end && !g.blocks[b].used && g.end == h.end
            && g.blocks[b].size >= h.blocks[a].size && Next(g, b) == Next(h, a)
  {
    assert Linked(h, a);
    var (g, b) := CoalescePrev(h, a);
    var p := h.blocks[a].prev;
    if a == h.base || h.blocks[p].used {
      forall x | x in h.blocks
        ensures !FreePair(h, x)
      {
        assert Linked(h, x);
      }
    } else {
      CoalesceNextBlocks(h, p);
      CoalesceNextKept(h, p);
      assert Linked(h, p);
      forall x | x in g.blocks
        ensures !FreePair(g, x)
      {
        if FreePair(g, x) {
          CoalesceNextPairs(h, p, x);
          OnlyPredecessor(h, a, x);
        }
      }
    }
  }

  /** Only the block before `a` ends where `a` begins. */
  lemma OnlyPredecessor(h: Heap, a: int, x: int)
    requires Tiled(h) && a in h.blocks && x in h.blocks
    ensures x != h.end && Next(h, x) == a ==> x == h.blocks[a].prev
  {
    assert Linked(h, a) && Linked(h, x);
  }

  lemma Upwards(h: Heap, a: int)
    requires Tiled(h) && a in h.blocks && a != h.end
    ensures a < Next(h, a) && Next(h, a) in h.blocks && a < Next(h, Next(h, a))
  {
    assert Linked(h, a) && Linked(h, Next(h, a));
  }

  // ----- free

  /** `gca_free` of the live block `a`. */
  ghost function Free(h: Heap, a: int): (g: Heap)
    requires Partial(h, {}) && Live(h, a)
    ensures Partial(g, {})
  {
    MarkFreeKeeps(h, {}, a);
    PutInKeeps(SetUsed(h, a, false), {} + {a}, a);
    assert {} + {a} - {a} == {};
    var g := CoalesceNext(PutIn(SetUsed(h, a, false), a), a);
    CoalesceNextBlocks(PutIn(SetUsed(h, a, false), a), a);
    CoalescePrev(g, a).0
  }

  /** Freeing a block keeps the invariant and all other live blocks. */
  lemma FreeKeeps(h: Heap, a: int)
    requires Inv(h) && Live(h, a)
    ensures var g := Free(h, a); Inv(g) && OthersKept(h, g, a) && !Live(g, a) && g.end == h.end
  {
    MarkFreeKeeps(h, {}, a);
    PutInKeeps(SetUsed(h, a, false), {} + {a}, a);
    assert {} + {a} - {a} == {};
    var h1 := PutIn(SetUsed(h, a, false), a);
    FreedPairs(h, a);
    assert OthersKept(h, h1, a) by {
      forall x | x != a
        ensures Same(h, h1, x)
      {
      }
    }
    var h2 := CoalesceNext(h1, a);
    CoalesceNextBlocks(h1, a);
    CoalesceNextKept(h1, a);
    forall x | x in h2.blocks && FreePair(h2, x)
      ensures Next(h2, x) == a
    {
      CoalesceNextPairs(h1, a, x);
      Upwards(h1, a);
    }
    CoalescePrevKeeps(h2, a);
    var g := Free(h, a);
    hide Free, CoalesceNext, CoalescePrev, Inv, Partial;
    KeptOthers(h1, h2, a);
    KeptOthers(h2, g, a);
    OthersTrans(h, h1, h2, a);
    OthersTrans(h, h2, g, a);
    assert Same(h1, h2, a) && Same(h2, g, a);
  }

  /** Freeing makes pairs only of `a` and its neighbours. */
  lemma FreedPairs(h: Heap, a: int)
    requires Inv(h) && Live(h, a)
    ensures var g := PutIn(SetUsed(h, a, false), a);
            forall x {:trigger FreePair(g, x)} :: x in g.blocks && FreePair(g, x) ==> x == a || Next(g, x) == a
  {
    var g := PutIn(SetUsed(h, a, false), a);
    forall x | x in g.blocks && FreePair(g, x)
      ensures x == a || Next(g, x) == a
    {
      assert !FreePair(h, x);
    }
  }

  // ----- growth

  /** `gca_round_up(x, GCA_DATA_ALIGN)`. */
  function RoundUp(x: nat): (r: nat)
    ensures x <= r < x + 16 && r % 16 == 0
  {
    (x + 15) / 16 * 16
  }

  /** `gca_round_up(x, GCA_SBRK_ALIGN)`. */
  function Pages(x: nat): (r: nat)
    ensures x <= r < x + 4096 && r % 4096 == 0 && r % 16 == 0
  {
    PagesAligned(x);
    (x + 4095) / 4096 * 4096
  }

  lemma PagesAligned(x: nat)
    ensures ((x + 4095) / 4096 * 4096) % 16 == 0
  {
    var q := (x + 4095) / 4096;
    assert q * 4096 == 16 * (256 * q);
  }

  /** `gca_sbrk_new_block`: move the break to make a free block of at least `n` bytes, joined to
      a free block before it. */
  ghost function NewBlock(h: Heap, n: nat): (r: Option<(Heap, int)>)
    requires Partial(h, {}) && n >= 16
    ensures r.Some? ==> Partial(r.value.0, {})
  {
    var page := Pages(n + 16);
    if h.end + 16 + page > h.limit then None
    else
      GrowKeeps(h, page);
      PutInKeeps(Grow(h, page), {h.end}, h.end);
      assert {h.end} - {h.end} == {};
      Some(CoalescePrev(PutIn(Grow(h, page), h.end), h.end))
  }

  lemma NewBlockKeeps(h: Heap, n: nat)
    requires Inv(h) && n >= 16 && NewBlock(h, n).Some?
    ensures var (g, b) := NewBlock(h, n).value;
            && Inv(g) && AllKept(h, g) && b in g.blocks && !g.blocks[b].used && n <= g.blocks[b].size
            && b != g.end && Next(g, b) == g.end && h.end < g.end
  {
    var page := Pages(n + 16);
    GrowKeeps(h, page);
    PutInKeeps(Grow(h, page), {h.end}, h.end);
    assert {h.end} - {h.end} == {};
    var h1 := PutIn(Grow(h, page), h.end);
    forall x | x in h1.blocks && FreePair(h1, x)
      ensures Next(h1, x) == h.end
    {
      assert FreePair(Grow(h, page), x);
      GrowPairs(h, page, x);
    }
    GrowTiles(h, page);
    assert AllKept(h, h1) by {
      forall x
        ensures Same(h, h1, x)
      {
      }
    }
    CoalescePrevKeeps(h1, h.end);
    var (g, b) := CoalescePrev(h1, h.end);
    hide CoalescePrev, Inv, Partial, Grow;
    KeptTrans(h, h1, g);
  }

  lemma KeptTrans(h: Heap, g: Heap, k: Heap)
    requires AllKept(h, g) && AllKept(g, k)
    ensures AllKept(h, k)
  {
    forall x
      ensures Same(h, k, x)
    {
      assert Same(h, g, x) && Same(g, k, x);
    }
  }

  /** After growing behind the used block `a`, the new block follows it. */
  lemma NewBlockAfter(h: Heap, n: nat, a: int)
    requires Inv(h) && n >= 16 && NewBlock(h, n).Some? && Live(h, a) && Next(h, a) == h.end
    ensures var (g, b) := NewBlock(h, n).value; b == h.end && a in g.blocks && Next(g, a) == b
  {
    assert Linked(h, a);
    var page := Pages(n + 16);
    GrowKeeps(h, page);
  }

  // ----- splitting

  /** `gca_split_block`: return what block `a` has beyond `n` bytes, if it can hold a block of its
      own, to the free list. */
  ghost function SplitBlock(h: Heap, a: int, n: nat): (g: Heap)
    requires Partial(h, {}) && a in h.blocks && a != h.end && n >= 16 && n % 16 == 0
    ensures Partial(g, {})
  {
    if h.blocks[a].size < n + 32 then h
    else
      var m := a + 16 + n;
      SplitKeeps(h, {}, a, n);
      PutInKeeps(Split(h, a, n), {} + {m}, m);
      assert {} + {m} - {m} == {};
      Upwards(Split(h, a, n), a);
      CoalesceNext(PutIn(Split(h, a, n), m), m)
  }

  lemma SplitBlockKeeps(h: Heap, a: int, n: nat)
    requires Inv(h) && a in h.blocks && a != h.end && n >= 16 && n % 16 == 0 && n <= h.blocks[a].size
    ensures var g := SplitBlock(h, a, n);
            && a in g.blocks && g.end == h.end && a != g.end && OthersKept(h, g, a)
            && g.blocks[a].used == h.blocks[a].used
            && g.blocks[a].size == (if h.blocks[a].size < n + 32 then h.blocks[a].size else n)
            && (forall x {:trigger FreePair(g, x)} :: x in g.blocks && FreePair(g, x) ==> x == a && !h.blocks[a].used)
  {
    if h.blocks[a].size < n + 32 {
      hide Partial;
      forall x
        ensures Same(h, h, x)
      {
      }
    } else {
      SplitStep(h, a, n);
      hide Split, CoalesceNext, Partial, Coalesced;
      SplitRest(h, PutIn(Split(h, a, n), a + 16 + n), a, a + 16 + n);
    }
  }

  /** Cutting a block in two makes pairs only of the new block and its neighbours. */
  lemma SplitStep(h: Heap, a: int, n: nat)
    requires Inv(h) && CanSplit(h, a, n) && n % 16 == 0
    ensures Next(h, a) in h.blocks
    ensures var m := a + 16 + n;
            var g := PutIn(Split(h, a, n), m);
            && Partial(g, {}) && a in g.blocks && m in g.blocks && g.end == h.end && m != g.end && !g.blocks[m].used
            && g.blocks[a].size == n && g.blocks[a].used == h.blocks[a].used && OthersKept(h, g, a) && Next(g, a) == m
            && (forall x {:trigger FreePair(g, x)} :: x in g.blocks && FreePair(g, x) ==>
                  x == m || (x == a && !h.blocks[a].used))
  {
    var m := a + 16 + n;
    SplitFresh(h, a, n);
    SplitKeeps(h, {}, a, n);
    PutInKeeps(Split(h, a, n), {} + {m}, m);
    assert {} + {m} - {m} == {};
    var g := PutIn(Split(h, a, n), m);
    forall x | x in g.blocks && FreePair(g, x)
      ensures x == m || (x == a && !h.blocks[a].used)
    {
      assert FreePair(Split(h, a, n), x);
      SplitPairs(h, a, n, x);
      assert x in h.blocks ==> !FreePair(h, x);
    }
    forall x | x != a
      ensures Same(h, g, x)
    {
    }
  }

  /** The block split off joins a free block after it. */
  lemma SplitRest(h: Heap, h1: Heap, a: int, m: int)
    requires Partial(h1, {}) && a in h1.blocks && m in h1.blocks && m != h1.end && !h1.blocks[m].used && m != a
             && a != h1.end
    requires h1.end == h.end && OthersKept(h, h1, a) && Next(h1, a) == m
    requires forall x {:trigger FreePair(h1, x)} :: x in h1.blocks && FreePair(h1, x) ==>
               x == m || (x == a && !h1.blocks[a].used)
    ensures var g := CoalesceNext(h1, m);
            && a in g.blocks && g.end == h.end && OthersKept(h, g, a) && g.blocks[a].used == h1.blocks[a].used
            && g.blocks[a].size == h1.blocks[a].size
            && (forall x {:trigger FreePair(g, x)} :: x in g.blocks && FreePair(g, x) ==> x == a && !h1.blocks[a].used)
  {
    CoalesceNextBlocks(h1, m);
    CoalesceNextKept(h1, m);
    var g := CoalesceNext(h1, m);
    Upwards(h1, m);
    Upwards(h1, a);
    forall x | x in g.blocks && FreePair(g, x)
      ensures x == a && !h1.blocks[a].used
    {
      CoalesceNextPairs(h1, m, x);
    }
    KeptOthers(h1, g, a);
    OthersTrans(h, h1, g, a);
  }

  // ----- malloc

  /** `gca_find_free_block`: the first block of the list with at least `n` bytes. */
  ghost function FirstFit(h: Heap, l: seq<int>, n: int): Option<int> {
    if l == [] then None
    else if l[0] in h.blocks && h.blocks[l[0]].size >= n then Some(l[0])
    else FirstFit(h, l[1..], n)
  }

  lemma {:induction false} FirstFitFinds(h: Heap, l: seq<int>, n: int)
    ensures FirstFit(h, l, n).Some? ==> FirstFit(h, l, n).value in l && FirstFit(h, l, n).value in h.blocks
                                        && h.blocks[FirstFit(h, l, n).value].size >= n
    ensures FirstFit(h, l, n).None? ==> forall a :: a in l && a in h.blocks ==> h.blocks[a].size < n
  {
    if l != [] {
      FirstFitFinds(h, l[1..], n);
    }
  }

  /** It is the first: every block before it in the list is too small. */
  lemma {:induction false} FirstFitIsFirst(h: Heap, l: seq<int>, n: int) returns (i: nat)
    requires FirstFit(h, l, n).Some?
    ensures i < |l| && l[i] == FirstFit(h, l, n).value && forall j :: 0 <= j < i && l[j] in h.blocks ==>
              h.blocks[l[j]].size < n
  {
    if l[0] in h.blocks && h.blocks[l[0]].size >= n {
      i := 0;
    } else {
      var k := FirstFitIsFirst(h, l[1..], n);
      i := k + 1;
    }
  }

  /** Hand out the free block `a` for `n` bytes. */
  ghost function Place(h: Heap, a: int, n: nat): (g: Heap)
    requires Inv(h) && a in h.blocks && !h.blocks[a].used && n >= 16 && n % 16 == 0 && n <= h.blocks[a].size
    ensures Partial(g, {})
  {
    SplitBlockKeeps(h, a, n);
    var h1 := SplitBlock(h, a, n);
    TakeOutKeeps(h1, {}, a);
    MarkUsedKeeps(TakeOut(h1, a), {} + {a}, a);
    assert {} + {a} - {a} == {};
    SetUsed(TakeOut(h1, a), a, true)
  }

  lemma PlaceKeeps(h: Heap, a: int, n: nat)
    requires Inv(h) && a in h.blocks && !h.blocks[a].used && n >= 16 && n % 16 == 0 && n <= h.blocks[a].size
    ensures var g := Place(h, a, n);
            Inv(g) && OthersKept(h, g, a) && Live(g, a) && !Live(h, a) && n <= g.blocks[a].size < n + 32
            && g.end == h.end
  {
    SplitBlockKeeps(h, a, n);
    var h1 := SplitBlock(h, a, n);
    TakeOutKeeps(h1, {}, a);
    MarkUsedKeeps(TakeOut(h1, a), {} + {a}, a);
    assert {} + {a} - {a} == {};
    var g := Place(h, a, n);
    hide SplitBlock, Partial;
    forall x | x in g.blocks
      ensures !FreePair(g, x)
    {
      assert FreePair(g, x) ==> FreePair(h1, x);
    }
    assert OthersKept(h1, g, a) by {
      forall x | x != a
        ensures Same(h1, g, x)
      {
      }
    }
    OthersTrans(h, h1, g, a);
  }

  /** `gca_malloc`: the new heap and the block handed out. */
  ghost function Malloc(h: Heap, size: nat): (r: Option<(Heap, int)>)
    requires Inv(h)
  {
    if size == 0 then None
    else
      var n := RoundUp(size);
      FirstFitFinds(h, h.free, n);
      match FirstFit(h, h.free, n)
      case Some(a) =>
        assert Listed(h, {}, a);
        Some((Place(h, a, n), a))
      case None =>
        match NewBlock(h, n)
        case None => None
        case Some(gb) =>
          NewBlockKeeps(h, n);
          Some((Place(gb.0, gb.1, n), gb.1))
  }

  /** malloc keeps the invariant, hands out a block that was not live, holds the request and has
      less than 32 bytes beyond the rounded size, and leaves all live blocks alone. */
  lemma MallocKeeps(h: Heap, size: nat)
    requires Inv(h) && Malloc(h, size).Some?
    ensures var (g, a) := Malloc(h, size).value;
            Inv(g) && OthersKept(h, g, a) && !Live(h, a) && Live(g, a) && size <= g.blocks[a].size < RoundUp(size) + 32
  {
    var n := RoundUp(size);
    FirstFitFinds(h, h.free, n);
    hide Partial, Coalesced, Place, NewBlock, RoundUp, FirstFit;
    match FirstFit(h, h.free, n) {
      case Some(a) =>
        FreeBlock(h, a);
        PlaceKeeps(h, a, n);
      case None =>
        NewBlockKeeps(h, n);
        var (h1, b) := NewBlock(h, n).value;
        PlaceKeeps(h1, b, n);
        var g := Place(h1, b, n);
        KeptOthers(h, h1, b);
        OthersTrans(h, h1, g, b);
        assert Same(h, h1, b);
    }
  }

  lemma FreeBlock(h: Heap, a: int)
    requires Inv(h) && a in h.free
    ensures a in h.blocks && !h.blocks[a].used
  {
    assert Listed(h, {}, a);
  }

  /** malloc of a nonzero size fails exactly if no free block is large enough and the break cannot
      move far enough. */
  lemma MallocFails(h: Heap, size: nat)
    requires Inv(h) && size > 0
    ensures Malloc(h, size).None? <==>
              (forall a :: a in h.blocks && !h.blocks[a].used ==> h.blocks[a].size < RoundUp(size))
              && h.end + 16 + Pages(RoundUp(size) + 16) > h.limit
  {
    var n := RoundUp(size);
    FirstFitFinds(h, h.free, n);
    hide Place, RoundUp, Pages, CoalescePrev, Grow;
    if FirstFit(h, h.free, n).Some? {
      FreeBlock(h, FirstFit(h, h.free, n).value);
    } else {
      forall a | a in h.blocks && !h.blocks[a].used
        ensures h.blocks[a].size < n
      {
        assert Listed(h, {}, a);
      }
    }
  }
}
