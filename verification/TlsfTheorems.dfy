/** What holds over whole runs of the TLSF allocator. */
module TlsfTheorems {
  import opened Mapping
  import opened Seqs
  import opened TlsfPool
  import opened TlsfOps
  import opened Walks

  // ----- live blocks

  /** The same blocks are live in both pools, with the same sizes, in the same memory. */
  ghost predicate SameLive(p: Pool, q: Pool) {
    && q.first == p.first && q.end == p.end
    && (forall b :: b in Live(q) <==> b in Live(p))
    && (forall b :: b in Live(p) ==> q.blocks[b].size == p.blocks[b].size)
  }

  /** Block `a` went from free or absent to live; nothing else did. */
  ghost predicate AddsLive(p: Pool, q: Pool, a: int) {
    && q.first == p.first && q.end == p.end
    && a !in Live(p)
    && (forall b :: b in Live(q) <==> b in Live(p) || b == a)
    && (forall b :: b in Live(p) ==> q.blocks[b].size == p.blocks[b].size)
  }

  lemma AbsorbSameLive(p: Pool, a: int)
    requires Tiled(p) && a in p.blocks && p.blocks[a].free
    requires Next(p, a) in p.blocks && p.blocks[Next(p, a)].free && Next(p, Next(p, a)) in p.blocks
    ensures SameLive(p, Absorb(p, a))
  {
  }

  lemma CutLeadingSameLive(p: Pool, a: int, gap: int)
    requires Partial(p, {a}) && GAP_MINIMUM <= gap && gap % ALIGN_SIZE == 0 && 32 + gap <= p.blocks[a].size
    ensures SameLive(p, CutLeading(p, a, gap)) && a + gap !in Live(p)
  {
    SplitTiles(p, a, gap - 8);
    assert Linked(p, a);
  }

  lemma UseLive(p: Pool, a: int, r: nat)
    requires Partial(p, {a}) && BLOCK_SIZE_MIN <= r <= p.blocks[a].size && r % ALIGN_SIZE == 0
    ensures AddsLive(p, Use(p, a, r), a) && r <= Use(p, a, r).blocks[a].size < r + 32
  {
    SplitTilesIf(p, a, r);
    assert Linked(p, a);
  }

  /** Handing out a block adds one live block, large enough and with less than a header to
      spare, and disturbs no other. */
  lemma PlaceLive(p: Pool, a: int, gap: int, r: int)
    requires Partial(p, {}) && Placeable(p, a, gap, r)
    ensures var q := Place(p, a, gap, r);
            AddsLive(p, q, a + gap) && r <= q.blocks[a + gap].size < r + 32
  {
    TakeOutKeeps(p, {}, a);
    assert {} + {a} == {a};
    var t := TakeOut(p, a);
    assert SameLive(p, t);
    if gap == 0 {
      UseLive(t, a, r);
    } else {
      CutLeadingSameLive(t, a, gap);
      UseLive(CutLeading(t, a, gap), a + gap, r);
    }
  }

  /** Freeing a block removes it from the live ones and disturbs no other. */
  lemma FreeLive(p: Pool, a: int)
    requires Inv(p) && a in Live(p)
    ensures AddsLive(Free(p, a), p, a)
  {
    MarkFreeKeeps(p, {}, a);
    assert {} + {a} == {a};
    var p1 := SetFree(p, a, true);
    assert AddsLive(p1, p, a);
    MergePrevSameLive(p1, a);
    var (p2, b) := MergePrev(p1, a);
    MergeNextSameLive(p2, b);
    var p3 := MergeNext(p2, b);
    PutInKeeps(p3, {b}, b);
    assert SameLive(p3, Free(p, a));
  }

  lemma MergePrevSameLive(p: Pool, a: int)
    requires Partial(p, {a})
    ensures SameLive(p, MergePrev(p, a).0)
  {
    assert Linked(p, a);
    if a != p.first && p.blocks[p.blocks[a].prev].free {
      var b := p.blocks[a].prev;
      TakeOutKeeps(p, {a}, b);
      AbsorbKeeps(TakeOut(p, b), {a} + {b}, b);
      AbsorbSameLive(TakeOut(p, b), b);
      assert SameLive(p, TakeOut(p, b));
    }
  }

  lemma MergeNextSameLive(p: Pool, a: int)
    requires Partial(p, {a})
    ensures SameLive(p, MergeNext(p, a))
  {
    assert Linked(p, a);
    var b := Next(p, a);
    if p.blocks[b].free {
      TakeOutKeeps(p, {a}, b);
      AbsorbKeeps(TakeOut(p, b), {a} + {b}, a);
      AbsorbSameLive(TakeOut(p, b), a);
      assert SameLive(p, TakeOut(p, b));
    }
  }

  /** Payloads of live blocks lie in the pool and do not overlap. */
  lemma PayloadsDisjoint(p: Pool, a: int, b: int, w: int)
    requires Tiled(p) && a in Live(p) && b in Live(p)
    requires a + 16 <= w < a + 16 + p.blocks[a].size
    ensures p.first + 16 <= w < p.end + 8
    ensures b + 16 <= w < b + 16 + p.blocks[b].size ==> a == b
  {
    assert Linked(p, a);
    assert Apart(p, a, b) && Apart(p, b, a);
  }

  // ----- free undoes malloc

  lemma MallocResult(p: Pool, size: nat)
    requires Inv(p) && size < WORD_MODULUS
    ensures var r := AdjustRequestSize(size, ALIGN_SIZE);
            match Find(p, r)
            case None => Malloc(p, size) == (p, NULL)
            case Some(a) =>
              a % 8 == 0 && a >= 0 && Placeable(p, a, 0, r) && Malloc(p, size) == (Place(p, a, 0, r), a + 16)
  {
    var r := AdjustRequestSize(size, ALIGN_SIZE);
    AdjustedRequest(size);
    if Find(p, r).Some? {
      FindFits(p, r);
      assert Linked(p, Find(p, r).value);
    }
  }

  /** Freeing what malloc just returned restores the pool exactly: the same blocks, and the
      same lists in the same order. */
  lemma FreeUndoesMalloc(p: Pool, size: nat)
    requires Inv(p) && size < WORD_MODULUS && Malloc(p, size).1 != NULL
    ensures var (q, ptr) := Malloc(p, size); Inv(q) && ptr - 16 in Live(q) && Free(q, ptr - 16) == p
  {
    var r := AdjustRequestSize(size, ALIGN_SIZE);
    MallocKeepsInv(p, size);
    MallocResult(p, size);
    AdjustedRequest(size);
    hide AdjustRequestSize, Find, Malloc, Place, Free;
    var a := Find(p, r).value;
    PlaceLive(p, a, 0, r);
    HeadOfOwnList(p, r);
    FreeUndoesPlace(p, a, r);
  }

  lemma HeadOfOwnList(p: Pool, r: nat)
    requires Partial(p, {}) && r % ALIGN_SIZE == 0 && Find(p, r).Some?
    ensures var a := Find(p, r).value; HasList(p, a) && AtHead(p, a)
  {
    FindFits(p, r);
    var a := Find(p, r).value;
    ListOf(p, a);
    var k := ClassOf(RoundedRequest(r));
    ClassHoldsSize(RoundedRequest(r));
    FirstNonEmptyIsLeast(p.lists, k);
    var f := FirstNonEmpty(p.lists, k);
    assert a in p.lists[f];
    assert Listed(p, {}, a, f);
  }

  ghost predicate AtHead(p: Pool, a: int)
    requires HasList(p, a)
  {
    var l := p.lists[ClassOf(p.blocks[a].size)];
    l != [] && l[0] == a
  }

  lemma FreeUndoesPlace(p: Pool, a: int, r: int)
    requires Inv(p) && Placeable(p, a, 0, r) && HasList(p, a) && AtHead(p, a)
    requires Inv(Place(p, a, 0, r)) && a in Live(Place(p, a, 0, r))
    ensures Free(Place(p, a, 0, r), a) == p
  {
    TakeOutKeeps(p, {}, a);
    assert {} + {a} == {a};
    var t := TakeOut(p, a);
    var q := Place(p, a, 0, r);
    MarkFreeKeeps(q, {}, a);
    var q1 := SetFree(q, a, true);
    assert Linked(p, a) && !FreePair(p, a);
    if a != p.first {
      assert Linked(p, p.blocks[a].prev) && !FreePair(p, p.blocks[a].prev);
    }
    SplitTilesIf(t, a, r);
    assert MergePrev(q1, a) == (q1, a);
    MergeBack(t, a, r);
    assert MergeNext(q1, a) == t;
    PutBack(p, a);
  }

  lemma PutBack(p: Pool, a: int)
    requires Partial(p, {}) && HasList(p, a) && AtHead(p, a)
    ensures HasList(TakeOut(p, a), a) && PutIn(TakeOut(p, a), a) == p
  {
    var k := ClassOf(p.blocks[a].size);
    assert p.lists[k] == [a] + p.lists[k][1..];
    assert PutIn(TakeOut(p, a), a).lists == p.lists;
  }

  lemma SplitThenAbsorb(p: Pool, a: int, size: int)
    requires Tiled(p) && a in p.blocks && a != p.end
    requires BLOCK_SIZE_MIN <= size && size + 8 + BLOCK_SIZE_MIN <= p.blocks[a].size
    ensures Next(p, a) in p.blocks
    ensures var s := Split(p, a, size);
            && Next(s, a) == a + 8 + size && Next(s, Next(s, a)) in s.blocks
            && Absorb(s, a) == p
  {
    SplitTiles(p, a, size);
    assert Linked(p, a);
    var s := Split(p, a, size);
    var m := a + 8 + size;
    var n := Next(p, a);
    assert Next(s, m) == n && n != a && n != m;
    assert p.blocks[n] == p.blocks[n].(prev := a);
    assert Absorb(s, a).blocks == p.blocks;
  }

  /** Merging the rest back into block `a` undoes the split. */
  lemma MergeBack(t: Pool, a: int, r: int)
    requires Partial(t, {a}) && BLOCK_SIZE_MIN <= r <= t.blocks[a].size && r % ALIGN_SIZE == 0
    requires Next(t, a) in t.blocks && !t.blocks[Next(t, a)].free
    requires Partial(SetFree(Use(t, a, r), a, true), {a})
    ensures MergeNext(SetFree(Use(t, a, r), a, true), a) == t
  {
    var q1 := SetFree(Use(t, a, r), a, true);
    if t.blocks[a].size >= 32 + r {
      var m := a + 8 + r;
      SplitTiles(t, a, r);
      var s := Split(t, a, r);
      SplitKeeps(t, {a}, a, r);
      PutInKeeps(s, {a} + {m}, m);
      assert q1 == PutIn(s, m);
      assert TakeOut(q1, m).lists == s.lists;
      SplitThenAbsorb(t, a, r);
    } else {
      assert q1.blocks == t.blocks;
    }
  }

  // ----- what a caller gets

  /** `ptr` is a new block of `q`, the only one, with room for `size` bytes. The capacity is
      short only for the last seven sizes below the word limit, where the rounding wraps. */
  ghost predicate Granted(p: Pool, q: Pool, ptr: int, size: nat) {
    && AddsLive(p, q, ptr - 16)
    && (size <= WORD_MODULUS - 8 ==> size <= q.blocks[ptr - 16].size)
  }

  /** Every free block is smaller than `r + r / 32`, or smaller than `r` for small `r`. */
  ghost predicate Exhausted(p: Pool, r: nat) {
    forall a :: a in p.blocks && p.blocks[a].free ==>
      p.blocks[a].size < (if r < SMALL_BLOCK_SIZE then r else r + r / 32)
  }

  /** malloc returns a new aligned block with room for the request and less than a header to
      spare, or fails and changes nothing. It fails exactly for requests of zero or out of range
      and when every free block is below the class searched for the rounded request. */
  lemma MallocMeetsRequest(p: Pool, size: nat)
    requires Inv(p) && size < WORD_MODULUS
    ensures var (q, ptr) := Malloc(p, size);
            var r := AdjustRequestSize(size, ALIGN_SIZE);
            && (ptr == NULL <==> r == 0 || Short(p, r))
            && if ptr == NULL then
                 q == p && (r > 0 ==> Exhausted(p, r))
               else
                 Granted(p, q, ptr, size) && ptr % ALIGN_SIZE == 0 && r <= q.blocks[ptr - 16].size < r + 32
  {
    hide Find, Short, Exhausted, AdjustRequestSize, Malloc, Place, Partial, Coalesced, Live, ClassOf, RoundedRequest;
    var r := AdjustRequestSize(size, ALIGN_SIZE);
    AdjustedRequest(size);
    MallocResult(p, size);
    SearchFails(p, r);
    if Find(p, r).Some? {
      PlaceLive(p, Find(p, r).value, 0, r);
    }
  }

  /** When the search fails, and what that says about the free blocks. */
  lemma SearchFails(p: Pool, r: nat)
    requires Inv(p)
    ensures |p.lists| == CLASS_COUNT
    ensures Find(p, r).None? <==> r == 0 || Short(p, r)
    ensures Find(p, r).None? && r > 0 ==> Exhausted(p, r)
  {
    if r > 0 {
      FindExact(p, r);
      hide Find, Short;
      forall a | Find(p, r).None? && a in p.blocks && p.blocks[a].free
        ensures p.blocks[a].size < (if r < SMALL_BLOCK_SIZE then r else r + r / 32)
      {
        FindExhausted(p, r, a);
      }
    }
  }

  /** memalign returns a new block at a multiple of the alignment with room for the request and
      less than 32 bytes to spare, or fails and changes nothing. It fails exactly when the padded
      request is zero or every free block is below the class searched for it. */
  lemma MemalignMeetsRequest(p: Pool, align: nat, size: nat)
    requires Inv(p) && LegalAlign(align) && size < WORD_MODULUS
    ensures var (q, ptr) := Memalign(p, align, size);
            && align > 0
            && (ptr == NULL <==> AlignedSize(align, size) == 0 || Short(p, AlignedSize(align, size)))
            && if ptr == NULL then
                 q == p && (AlignedSize(align, size) > 0 ==> Exhausted(p, AlignedSize(align, size)))
               else
                 var r := AdjustRequestSize(size, ALIGN_SIZE);
                 && Granted(p, q, ptr, size) && ptr > 0 && MultipleOf(ptr, align)
                 && r <= q.blocks[ptr - 16].size < r + 32
  {
    hide MemalignSlot, AdjustRequestSize, AlignedSize, Place, Short, Exhausted, Partial, Coalesced, Granted, MultipleOf;
    MemalignFails(p, align, size);
    match MemalignSlot(p, align, size)
    case None =>
    case Some((a, gap)) =>
      var q := Place(p, a, gap, AdjustRequestSize(size, ALIGN_SIZE));
      assert Memalign(p, align, size) == (q, a + gap + 16);
      MemalignGranted(p, a, gap, size);
  }

  lemma MemalignFails(p: Pool, align: nat, size: nat)
    requires Inv(p) && LegalAlign(align) && size < WORD_MODULUS
    ensures align > 0
    ensures var r := AlignedSize(align, size);
            && (MemalignSlot(p, align, size).None? <==> r == 0 || Short(p, r))
            && (MemalignSlot(p, align, size).None? && r > 0 ==> Exhausted(p, r))
  {
    AlignedSizeFacts(align, size);
    hide AlignedSize, Short, Exhausted;
    SearchFails(p, AlignedSize(align, size));
  }

  lemma MemalignGranted(p: Pool, a: int, gap: int, size: nat)
    requires Inv(p) && size < WORD_MODULUS && Placeable(p, a, gap, AdjustRequestSize(size, ALIGN_SIZE))
    ensures var r := AdjustRequestSize(size, ALIGN_SIZE);
            var q := Place(p, a, gap, r);
            Granted(p, q, a + gap + 16, size) && r <= q.blocks[a + gap].size < r + 32
  {
    AdjustedRequest(size);
    PlaceLive(p, a, gap, AdjustRequestSize(size, ALIGN_SIZE));
  }

  // ----- the physical walk

  /** Where each block's walk continues. */
  ghost function Steps(p: Pool): map<int, int> {
    map a | a in p.blocks && a != p.end :: Next(p, a)
  }

  lemma StepsLadder(p: Pool)
    requires Tiled(p)
    ensures Ladder(Steps(p), p.end) && p.first in Steps(p)
    ensures forall x :: x in Steps(p) ==> p.first <= x
  {
    var next := Steps(p);
    forall a | a in next
      ensures a < next[a] <= p.end && (next[a] == p.end || next[a] in next) && p.first <= a
    {
      assert Linked(p, a);
    }
    forall a, b | a in next && b in next && a < b
      ensures next[a] <= b
    {
      assert Apart(p, a, b);
    }
    assert Ladder(next, p.end) by {
      hide Tiled, Steps;
    }
  }

  /** Walking from the lowest block meets every block below the sentinel once, in address order,
      and covers every byte, each block with its size word. */
  lemma WalkTiles(p: Pool)
    requires Tiled(p)
    ensures Ladder(Steps(p), p.end) && p.first in Steps(p)
    ensures var w := Walk(Steps(p), p.end, p.first);
            && (forall x :: x in w <==> x in p.blocks && x != p.end)
            && (forall i, j :: 0 <= i < j < |w| ==> w[i] < w[j])
            && Bytes(Steps(p), w) == p.end - p.first
  {
    hide Walk, Bytes, Ladder, Tiled;
    StepsLadder(p);
    Walks.WalkTiles(Steps(p), p.end, p.first);
  }

  // ----- whole runs

  datatype Op = MallocOp(size: nat) | MemalignOp(align: nat, size: nat) | FreeOp(ptr: int)

  /** Calls the allocator accepts: pointers passed to free are null or header-backed. */
  ghost predicate Legal(p: Pool, op: Op) {
    match op
    case MallocOp(size) => size < WORD_MODULUS
    case MemalignOp(align, size) => LegalAlign(align) && size < WORD_MODULUS
    case FreeOp(ptr) => ptr == NULL || (ptr - 16 in p.blocks && ptr - 16 != p.end)
  }

  /** One call; freeing null or a block that is already free changes nothing. */
  ghost function Step(p: Pool, op: Op): Pool
    requires Inv(p) && Legal(p, op)
  {
    match op
    case MallocOp(size) => Malloc(p, size).0
    case MemalignOp(align, size) => Memalign(p, align, size).0
    case FreeOp(ptr) => if ptr == NULL || p.blocks[ptr - 16].free then p else Free(p, ptr - 16)
  }

  lemma StepKeepsInv(p: Pool, op: Op)
    requires Inv(p) && Legal(p, op)
    ensures Inv(Step(p, op)) && Step(p, op).first == p.first && Step(p, op).end == p.end
  {
    match op
    case MallocOp(size) =>
      MallocKeepsInv(p, size);
      MallocMeetsRequest(p, size);
    case MemalignOp(align, size) =>
      MemalignKeepsInv(p, align, size);
      MemalignMeetsRequest(p, align, size);
    case FreeOp(ptr) =>
      if ptr != NULL && !p.blocks[ptr - 16].free {
        FreeKeepsInv(p, ptr - 16);
        FreeLive(p, ptr - 16);
      }
  }

  /** `ops` are legal calls one after the other and lead from `p` to `q`. */
  ghost predicate Runs(p: Pool, ops: seq<Op>, q: Pool)
    requires Inv(p)
    decreases |ops|
  {
    if ops == [] then q == p
    else
      && Legal(p, ops[0])
      && (StepKeepsInv(p, ops[0]); Runs(Step(p, ops[0]), ops[1..], q))
  }

  /** Every reachable pool is well formed. */
  lemma {:induction false} RunKeepsInv(p: Pool, ops: seq<Op>, q: Pool)
    requires Inv(p) && Runs(p, ops, q)
    ensures Inv(q) && q.first == p.first && q.end == p.end
    decreases |ops|
  {
    if ops != [] {
      StepKeepsInv(p, ops[0]);
      RunKeepsInv(Step(p, ops[0]), ops[1..], q);
    }
  }

  /** A pool as `htfh_add_pool` leaves it: one free block and the sentinel. */
  ghost function Fresh(first: int, end: int): Pool {
    var size := end - first - 8;
    Pool(first, end,
         map[first := Blk(size, true, 0), end := Blk(0, false, first)],
         seq(CLASS_COUNT, k => if size >= 0 && k == ClassOf(size) then [first] else []))
  }

  lemma FreshInv(first: int, end: int)
    requires 0 <= first && first % ALIGN_SIZE == 0 && end % ALIGN_SIZE == 0
    requires BLOCK_SIZE_MIN <= end - first - 8 < BLOCK_SIZE_MAX
    ensures Inv(Fresh(first, end)) && Live(Fresh(first, end)) == {}
  {
    var p := Fresh(first, end);
    FreshTiled(first, end);
    FreshIndexed(first, end);
    assert !FreePair(p, first) && !FreePair(p, end);
  }

  lemma FreshTiled(first: int, end: int)
    requires 0 <= first && BLOCK_SIZE_MIN <= end - first - 8 < BLOCK_SIZE_MAX
    ensures Tiled(Fresh(first, end))
  {
    var p := Fresh(first, end);
    assert Linked(p, first) && Linked(p, end);
    assert Apart(p, first, end) && Apart(p, end, first) && Apart(p, first, first) && Apart(p, end, end);
  }

  lemma FreshIndexed(first: int, end: int)
    requires 0 <= first && BLOCK_SIZE_MIN <= end - first - 8 < BLOCK_SIZE_MAX
    ensures Indexed(Fresh(first, end), {})
  {
    var p := Fresh(first, end);
    forall k, a | 0 <= k < CLASS_COUNT
      ensures a in p.lists[k] <==> Listed(p, {}, a, k)
    {
      assert a in p.lists[k] <==> a == first && k == ClassOf(end - first - 8);
    }
  }

  /** A well-formed pool with nothing live is one free block of the whole pool. */
  lemma NothingLiveIsFresh(p: Pool)
    requires Inv(p) && Live(p) == {}
    ensures p == Fresh(p.first, p.end)
  {
    var n := Next(p, p.first);
    assert Linked(p, p.first) && !FreePair(p, p.first);
    assert p.first !in Live(p) && n !in Live(p);
    assert n == p.end;
    forall x | x in p.blocks
      ensures x == p.first || x == p.end
    {
      assert Linked(p, x) && Apart(p, p.first, x);
    }
    assert p.blocks == Fresh(p.first, p.end).blocks;
    forall k | 0 <= k < CLASS_COUNT
      ensures p.lists[k] == Fresh(p.first, p.end).lists[k]
    {
      OnlyFirstListed(p, k);
    }
  }

  lemma OnlyFirstListed(p: Pool, k: int)
    requires Inv(p) && 0 <= k < CLASS_COUNT
    requires p.blocks == map[p.first := Blk(p.end - p.first - 8, true, 0), p.end := Blk(0, false, p.first)]
    ensures p.lists[k] == if k == ClassOf(p.end - p.first - 8) then [p.first] else []
  {
    var l := p.lists[k];
    if l != [] {
      assert l[0] in l;
      assert Listed(p, {}, l[0], k);
    }
    if k == ClassOf(p.end - p.first - 8) {
      forall i | 0 <= i < |l|
        ensures l[i] == p.first
      {
        assert l[i] in l;
        assert Listed(p, {}, l[i], k);
      }
      assert Listed(p, {}, p.first, k);
      SingletonSeq(l, p.first);
    }
  }

  ghost function FreeOps(order: seq<int>): seq<Op> {
    if order == [] then [] else [FreeOp(order[0] + 16)] + FreeOps(order[1..])
  }

  /** Freeing all live blocks, in any order, leaves one free block of the original size. */
  lemma {:induction false} FreeAll(p: Pool, order: seq<int>)
    requires Inv(p) && NoDup(order) && (forall a :: a in order <==> a in Live(p))
    ensures Runs(p, FreeOps(order), Fresh(p.first, p.end))
    decreases |order|
  {
    if order == [] {
      NothingLiveIsFresh(p);
    } else {
      var a := order[0];
      assert a in order;
      DropMembers(order, a);
      FreeKeepsInv(p, a);
      FreeLive(p, a);
      FreeAll(Free(p, a), order[1..]);
      FirstFree(p, order);
    }
  }

  lemma FirstFree(p: Pool, order: seq<int>)
    requires Inv(p) && order != [] && order[0] in Live(p)
    ensures Legal(p, FreeOps(order)[0]) && Step(p, FreeOps(order)[0]) == Free(p, order[0])
    ensures FreeOps(order)[1..] == FreeOps(order[1..])
  {
    assert Linked(p, order[0]);
  }
}
