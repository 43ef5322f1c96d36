/** realloc on the mathematical heap, and whole runs of malloc, free and realloc. */
module GlibcTheorems {
  import opened Basics
  import opened Seqs
  import opened GlibcHeap
  import opened GlibcOps
  import opened Walks

  // ----- realloc

  /** The last path of `gca_realloc`: a new block, and the old one is freed. */
  ghost function Move(h: Heap, a: int, size: nat): (Heap, Option<int>)
    requires Inv(h) && Live(h, a)
  {
    match Malloc(h, size)
    case None => (h, None)
    case Some(gc) =>
      MallocKeeps(h, size);
      assert Same(h, gc.0, a);
      (Free(gc.0, a), Some(gc.1))
  }

  /** `gca_realloc` of the live block `a`: the new heap and the resulting block. */
  ghost function Realloc(h: Heap, a: int, size: nat): (Heap, Option<int>)
    requires Inv(h) && Live(h, a)
  {
    var n := RoundUp(size);
    if size == 0 then (h, None)
    else if n <= h.blocks[a].size then (SplitBlock(h, a, n), Some(a))
    else
      AbsorbNextKeeps(h, a);
      var h1 := CoalesceNext(h, a);
      if n <= h1.blocks[a].size then (SplitBlock(h1, a, n), Some(a))
      else if Next(h1, a) == h1.end && NewBlock(h1, n - h1.blocks[a].size).Some? then
        GrowBehind(h1, a, n);
        (SplitBlock(CoalesceNext(NewBlock(h1, n - h1.blocks[a].size).value.0, a), a, n), Some(a))
      else Move(h1, a, size)
  }

  /** A live block may take over a free block after it. */
  lemma AbsorbNextKeeps(h: Heap, a: int)
    requires Inv(h) && Live(h, a)
    ensures var g := CoalesceNext(h, a);
            && Inv(g) && Live(g, a) && OthersKept(h, g, a) && g.end == h.end
            && h.blocks[a].size <= g.blocks[a].size && g.blocks[a].size % 16 == 0
  {
    CoalesceNextBlocks(h, a);
    CoalesceNextKept(h, a);
    var g := CoalesceNext(h, a);
    assert Linked(h, a) && Linked(h, Next(h, a));
    assert Aligned(g);
    forall x | x in g.blocks
      ensures !FreePair(g, x)
    {
      if FreePair(g, x) {
        CoalesceNextPairs(h, a, x);
      }
    }
  }

  /** Moving the break behind the last block lets it grow to any size that was asked for. */
  lemma GrowBehind(h: Heap, a: int, n: nat)
    requires Inv(h) && Live(h, a) && Next(h, a) == h.end && h.blocks[a].size < n && n % 16 == 0
    requires h.blocks[a].size % 16 == 0
    ensures n - h.blocks[a].size >= 16
    ensures NewBlock(h, n - h.blocks[a].size).Some? ==>
              var g := NewBlock(h, n - h.blocks[a].size).value.0;
              && Inv(g) && Live(g, a) && g.blocks[a].size == h.blocks[a].size
              && var k := CoalesceNext(g, a); Inv(k) && Live(k, a) && OthersKept(h, k, a) && n <= k.blocks[a].size
  {
    var more := n - h.blocks[a].size;
    assert more % 16 == 0;
    if NewBlock(h, more).Some? {
      NewBlockKeeps(h, more);
      NewBlockAfter(h, more, a);
      var (g, b) := NewBlock(h, more).value;
      hide NewBlock, Coalesced;
      assert Same(h, g, a);
      AbsorbNextKeeps(g, a);
      CoalesceNextBlocks(g, a);
      hide CoalesceNext, Partial;
      KeptOthers(h, g, a);
      OthersTrans(h, g, CoalesceNext(g, a), a);
    }
  }

  lemma SplitLive(h: Heap, a: int, n: nat)
    requires Inv(h) && Live(h, a) && n >= 16 && n % 16 == 0 && n <= h.blocks[a].size
    ensures var g := SplitBlock(h, a, n); Inv(g) && Live(g, a) && OthersKept(h, g, a) && n <= g.blocks[a].size < n + 32
  {
    SplitBlockKeeps(h, a, n);
    var g := SplitBlock(h, a, n);
    hide SplitBlock, Partial;
    forall x | x in g.blocks
      ensures !FreePair(g, x)
    {
    }
  }

  /** What realloc promises about blocks: on success the result is live, holds the request and has
      less than 32 bytes beyond the rounded size; on failure the old block is still live and no
      smaller. All other live blocks stay. */
  ghost predicate Reallocated(h: Heap, a: int, size: nat, g: Heap, r: Option<int>)
    requires Live(h, a)
  {
    match r
    case None => OthersKept(h, g, a) && Live(g, a) && h.blocks[a].size <= g.blocks[a].size
    case Some(c) =>
      && Live(g, c) && size <= g.blocks[c].size < RoundUp(size) + 32
      && (c == a ==> OthersKept(h, g, a))
      && (c != a ==> !Live(h, c) && !Live(g, a))
      && (forall x {:trigger Same(h, g, x)} :: x != a && x != c ==> Same(h, g, x))
  }

  lemma MoveKeeps(h: Heap, h1: Heap, a: int, size: nat)
    requires Inv(h1) && Live(h, a) && Live(h1, a) && OthersKept(h, h1, a) && h.blocks[a].size <= h1.blocks[a].size
    ensures var (g, r) := Move(h1, a, size); Inv(g) && Reallocated(h, a, size, g, r)
  {
    if Malloc(h1, size).Some? {
      MallocKeeps(h1, size);
      var (h2, c) := Malloc(h1, size).value;
      assert Same(h1, h2, a);
      FreeKeeps(h2, a);
      var g := Free(h2, a);
      assert Move(h1, a, size) == (g, Some(c));
      hide Malloc, Free, Inv, Move;
      assert Same(h2, g, c) && Same(h, h1, c);
      forall x | x != a && x != c
        ensures Same(h, g, x)
      {
        assert Same(h, h1, x) && Same(h1, h2, x) && Same(h2, g, x);
      }
    }
  }

  /** On every path, realloc keeps the invariant and does what it promises. */
  lemma ReallocKeeps(h: Heap, a: int, size: nat)
    requires Inv(h) && Live(h, a)
    ensures var (g, r) := Realloc(h, a, size); Inv(g) && Reallocated(h, a, size, g, r)
  {
    var n := RoundUp(size);
    hide RoundUp, SplitBlock, CoalesceNext, NewBlock, Move, Partial, Coalesced;
    if size == 0 {
      KeptSelf(h);
    } else if n <= h.blocks[a].size {
      SplitLive(h, a, n);
    } else {
      AbsorbNextKeeps(h, a);
      var h1 := CoalesceNext(h, a);
      if n <= h1.blocks[a].size {
        SplitLive(h1, a, n);
        OthersTrans(h, h1, SplitBlock(h1, a, n), a);
      } else if Next(h1, a) == h1.end && NewBlock(h1, n - h1.blocks[a].size).Some? {
        GrowBehind(h1, a, n);
        var h2 := CoalesceNext(NewBlock(h1, n - h1.blocks[a].size).value.0, a);
        SplitLive(h2, a, n);
        OthersTrans(h, h1, h2, a);
        OthersTrans(h, h2, SplitBlock(h2, a, n), a);
      } else {
        MoveKeeps(h, h1, a, size);
      }
    }
  }

  lemma KeptSelf(h: Heap)
    ensures forall a :: OthersKept(h, h, a)
  {
    forall x
      ensures Same(h, h, x)
    {
    }
  }

  // ----- the four paths of realloc

  lemma ReallocShrinks(h: Heap, a: int, size: nat)
    requires Inv(h) && Live(h, a) && size > 0 && RoundUp(size) <= h.blocks[a].size
    ensures Realloc(h, a, size) == (SplitBlock(h, a, RoundUp(size)), Some(a))
  {
  }

  lemma ReallocAbsorbs(h: Heap, a: int, size: nat)
    requires Inv(h) && Live(h, a) && size > 0 && h.blocks[a].size < RoundUp(size)
    ensures var h1 := CoalesceNext(h, a);
            && Inv(h1) && Live(h1, a)
            && (RoundUp(size) <= h1.blocks[a].size ==>
                  Realloc(h, a, size) == (SplitBlock(h1, a, RoundUp(size)), Some(a)))
  {
    hide SplitBlock, CoalesceNext, RoundUp, Move, NewBlock;
    AbsorbNextKeeps(h, a);
  }

  /** Whether the break can move far enough for the last block to grow. */
  ghost predicate CanGrow(h: Heap, a: int, n: nat)
    requires Inv(h) && Live(h, a)
  {
    Next(h, a) == h.end && h.blocks[a].size + 16 <= n && NewBlock(h, n - h.blocks[a].size).Some?
  }

  lemma ReallocGrows(h: Heap, a: int, size: nat)
    requires Inv(h) && Live(h, a) && size > 0
    requires Inv(CoalesceNext(h, a)) && Live(CoalesceNext(h, a), a)
    requires h.blocks[a].size < RoundUp(size) && CoalesceNext(h, a).blocks[a].size < RoundUp(size)
    ensures var h1, n := CoalesceNext(h, a), RoundUp(size);
            if CanGrow(h1, a, n) then
              && var g := NewBlock(h1, n - h1.blocks[a].size).value.0;
              && Inv(g) && Live(g, a) && Inv(CoalesceNext(g, a)) && Live(CoalesceNext(g, a), a)
              && Realloc(h, a, size) == (SplitBlock(CoalesceNext(g, a), a, n), Some(a))
            else Realloc(h, a, size) == Move(h1, a, size)
  {
    hide SplitBlock, CoalesceNext, RoundUp, Move, NewBlock, Partial, Coalesced;
    AbsorbNextKeeps(h, a);
    var h1, n := CoalesceNext(h, a), RoundUp(size);
    if Next(h1, a) == h1.end {
      GrowBehind(h1, a, n);
    }
  }

  // ----- the walk along the heap

  /** Where each block's walk continues. */
  ghost function Steps(h: Heap): map<int, int> {
    map a | a in h.blocks && a != h.end :: Next(h, a)
  }

  lemma StepsLadder(h: Heap)
    requires Tiled(h)
    ensures Ladder(Steps(h), h.end) && h.base in Steps(h)
    ensures forall x :: x in Steps(h) ==> h.base <= x
  {
    var next := Steps(h);
    forall a | a in next
      ensures a < next[a] <= h.end && (next[a] == h.end || next[a] in next) && h.base <= a
    {
      assert Linked(h, a);
    }
    forall a, b | a in next && b in next && a < b
      ensures next[a] <= b
    {
      assert Apart(h, a, b);
    }
    assert Ladder(next, h.end) by {
      hide Tiled, Steps;
    }
  }

  /** Walking from the lowest block meets every block below the sentinel once, in address order,
      and covers every byte, each block with its two info words. */
  lemma WalkTiles(h: Heap)
    requires Tiled(h)
    ensures Ladder(Steps(h), h.end) && h.base in Steps(h)
    ensures var w := Walk(Steps(h), h.end, h.base);
            && (forall x :: x in w <==> x in h.blocks && x != h.end)
            && (forall i, j :: 0 <= i < j < |w| ==> w[i] < w[j])
            && Bytes(Steps(h), w) == h.end - h.base
  {
    hide Walk, Bytes, Ladder, Tiled;
    StepsLadder(h);
    Walks.WalkTiles(Steps(h), h.end, h.base);
  }

  /** Payloads of different live blocks do not overlap. */
  lemma PayloadsDisjoint(h: Heap, a: int, b: int)
    requires Tiled(h) && Live(h, a) && Live(h, b) && a != b
    ensures a + 16 + h.blocks[a].size <= b || b + 16 + h.blocks[b].size <= a
  {
    assert Apart(h, a, b) && Apart(h, b, a);
  }

  // ----- whole runs

  datatype Op = MallocOp(size: nat) | FreeOp(block: int) | ReallocOp(block: int, size: nat)

  ghost predicate Legal(h: Heap, op: Op) {
    match op
    case MallocOp(_) => true
    case FreeOp(a) => Live(h, a)
    case ReallocOp(a, _) => Live(h, a)
  }

  ghost function Step(h: Heap, op: Op): Heap
    requires Inv(h) && Legal(h, op)
  {
    match op
    case MallocOp(size) => (match Malloc(h, size) case None => h case Some(ga) => ga.0)
    case FreeOp(a) => Free(h, a)
    case ReallocOp(a, size) => Realloc(h, a, size).0
  }

  lemma StepKeeps(h: Heap, op: Op)
    requires Inv(h) && Legal(h, op)
    ensures Inv(Step(h, op))
  {
    hide Inv, Malloc, Free, Realloc, Reallocated;
    match op
    case MallocOp(size) =>
      if Malloc(h, size).Some? {
        MallocKeeps(h, size);
      }
    case FreeOp(a) => FreeKeeps(h, a);
    case ReallocOp(a, size) => ReallocKeeps(h, a, size);
  }

  ghost predicate Runs(h: Heap, ops: seq<Op>, g: Heap)
    requires Inv(h)
    decreases |ops|
  {
    if ops == [] then g == h
    else
      Legal(h, ops[0]) && (StepKeeps(h, ops[0]); Runs(Step(h, ops[0]), ops[1..], g))
  }

  /** Every reachable heap is well formed. */
  lemma {:induction false} RunKeeps(h: Heap, ops: seq<Op>, g: Heap)
    requires Inv(h) && Runs(h, ops, g)
    ensures Inv(g)
    decreases |ops|
  {
    hide Inv, Step;
    if ops != [] {
      StepKeeps(h, ops[0]);
      RunKeeps(Step(h, ops[0]), ops[1..], g);
    }
  }

  /** The heap after `gca_create`: one free block between the base and the sentinel. */
  ghost function Fresh(base: int, end: int, limit: int): Heap {
    Heap(base, end, limit, map[base := Blk(end - base - 16, false, 0), end := Blk(0, true, base)], [base])
  }

  lemma FreshInv(base: int, end: int, limit: int)
    requires 0 < base && base % 16 == 0 && end % 16 == 0 && base + 32 <= end && end + 16 <= limit
    ensures Inv(Fresh(base, end, limit))
  {
    var h := Fresh(base, end, limit);
    assert Linked(h, base) && Linked(h, end);
    assert Apart(h, base, end) && Apart(h, end, base) && Apart(h, base, base) && Apart(h, end, end);
    assert !FreePair(h, base) && !FreePair(h, end);
    forall a
      ensures a in h.free <==> Listed(h, {}, a)
    {
    }
  }

  /** A well-formed heap with nothing live is one free block reaching from the base to the
      sentinel. */
  lemma NothingLiveIsFresh(h: Heap)
    requires Inv(h) && forall a :: !Live(h, a)
    ensures h == Fresh(h.base, h.end, h.limit)
  {
    var n := Next(h, h.base);
    assert Linked(h, h.base) && !FreePair(h, h.base);
    assert !Live(h, h.base) && !Live(h, n);
    assert n == h.end;
    forall x | x in h.blocks
      ensures x == h.base || x == h.end
    {
      assert Linked(h, x) && Apart(h, h.base, x);
    }
    assert h.blocks == Fresh(h.base, h.end, h.limit).blocks;
    assert Listed(h, {}, h.base);
    forall i | 0 <= i < |h.free|
      ensures h.free[i] == h.base
    {
      assert h.free[i] in h.free;
      assert Listed(h, {}, h.free[i]);
    }
    SingletonSeq(h.free, h.base);
  }
}
