/** malloc, memalign and free on the mathematical pool, and what every run of them keeps. */
module TlsfOps {
  import opened Basics
  import opened Mapping
  import opened TlsfPool

  // ----- free

  /** `controller_block_merge_prev`: join block `a` to a free block before it. */
  ghost function MergePrev(p: Pool, a: int): (r: (Pool, int))
    requires Partial(p, {a})
    ensures Partial(r.0, {r.1})
  {
    assert Linked(p, a);
    if a != p.first && p.blocks[p.blocks[a].prev].free then
      var b := p.blocks[a].prev;
      TakeOutKeeps(p, {a}, b);
      AbsorbKeeps(TakeOut(p, b), {a} + {b}, b);
      assert {a} + {b} - {a} == {b};
      (Absorb(TakeOut(p, b), b), b)
    else
      (p, a)
  }

  /** `controller_block_merge_next`: join block `a` with a free block after it. */
  ghost function MergeNext(p: Pool, a: int): (q: Pool)
    requires Partial(p, {a})
    ensures Partial(q, {a})
  {
    assert Linked(p, a);
    var b := Next(p, a);
    if p.blocks[b].free then
      TakeOutKeeps(p, {a}, b);
      AbsorbKeeps(TakeOut(p, b), {a} + {b}, a);
      assert {a} + {b} - {b} == {a};
      Absorb(TakeOut(p, b), a)
    else
      p
  }

  /** `htfh_free` of the live block `a`. */
  ghost function Free(p: Pool, a: int): (q: Pool)
    requires Inv(p) && a in Live(p)
    ensures Partial(q, {})
  {
    MarkFreeKeeps(p, {}, a);
    assert {} + {a} == {a};
    var (p2, b) := MergePrev(SetFree(p, a, true), a);
    var p3 := MergeNext(p2, b);
    PutInKeeps(p3, {b}, b);
    assert {b} - {b} == {};
    PutIn(p3, b)
  }

  /** The blocks handed out and not yet freed. */
  ghost function Live(p: Pool): set<int> {
    set a | a in p.blocks && a != p.end && !p.blocks[a].free
  }

  // ----- malloc

  /** The first non-empty list at or after `k`, or the number of lists if there is none. */
  ghost function FirstNonEmpty(lists: seq<seq<int>>, k: nat): nat
    requires k <= |lists|
    decreases |lists| - k
  {
    if k == |lists| || lists[k] != [] then k else FirstNonEmpty(lists, k + 1)
  }

  lemma {:induction false} FirstNonEmptyIsLeast(lists: seq<seq<int>>, k: nat)
    requires k <= |lists|
    ensures var f := FirstNonEmpty(lists, k);
            && k <= f <= |lists|
            && (f < |lists| ==> lists[f] != [])
            && (forall j :: k <= j < f ==> lists[j] == [])
    decreases |lists| - k
  {
    if k < |lists| && lists[k] == [] {
      FirstNonEmptyIsLeast(lists, k + 1);
    }
  }

  /** `controller_block_find_free`, before the block leaves its list: the head of the least
      non-empty class at or above the class of the rounded request. */
  ghost function Find(p: Pool, r: nat): Option<int>
    requires |p.lists| == CLASS_COUNT
  {
    if r == 0 then
      None
    else
      var k := ClassOf(RoundedRequest(r));
      ClassHoldsSize(RoundedRequest(r));
      if k >= CLASS_COUNT then
        None
      else
        var f := FirstNonEmpty(p.lists, k);
        FirstNonEmptyIsLeast(p.lists, k);
        if f == CLASS_COUNT then None else Some(p.lists[f][0])
  }

  /** What the search finds is a free block large enough for the request. */
  lemma FindFits(p: Pool, r: nat)
    requires Partial(p, {}) && r % ALIGN_SIZE == 0 && Find(p, r).Some?
    ensures var a := Find(p, r).value; a in p.blocks && a != p.end && p.blocks[a].free && r <= p.blocks[a].size
  {
    var k := ClassOf(RoundedRequest(r));
    ClassHoldsSize(RoundedRequest(r));
    FirstNonEmptyIsLeast(p.lists, k);
    var f := FirstNonEmpty(p.lists, k);
    var a := p.lists[f][0];
    assert a in p.lists[f];
    assert Listed(p, {}, a, f);
    GoodFit(r, p.blocks[a].size);
  }

  /** The search for `r` fails if and only if every free block is below the searched class. */
  lemma FindExact(p: Pool, r: nat)
    requires Partial(p, {}) && r > 0
    ensures Find(p, r).None? <==> Short(p, r)
  {
    var k := ClassOf(RoundedRequest(r));
    ClassHoldsSize(RoundedRequest(r));
    if Find(p, r).None? {
      forall a | a in p.blocks && p.blocks[a].free
        ensures p.blocks[a].size < ClassMin(k)
      {
        FindMisses(p, r, a);
        ClassOrder(p.blocks[a].size, k);
      }
    } else {
      FirstNonEmptyIsLeast(p.lists, k);
      var f := FirstNonEmpty(p.lists, k);
      var a := p.lists[f][0];
      assert a in p.lists[f];
      assert Listed(p, {}, a, f);
      ClassOrder(p.blocks[a].size, k);
    }
  }

  /** Every free block is smaller than the smallest size of the class searched for `r`. */
  ghost predicate Short(p: Pool, r: nat) {
    ClassHoldsSize(RoundedRequest(r));
    forall a :: a in p.blocks && p.blocks[a].free ==> p.blocks[a].size < ClassMin(ClassOf(RoundedRequest(r)))
  }

  lemma FindMisses(p: Pool, r: nat, a: int)
    requires Partial(p, {}) && r > 0 && Find(p, r).None?
    requires a in p.blocks && p.blocks[a].free
    ensures 0 <= p.blocks[a].size && ClassOf(p.blocks[a].size) < ClassOf(RoundedRequest(r))
  {
    ListOf(p, a);
    var k := ClassOf(RoundedRequest(r));
    ClassHoldsSize(RoundedRequest(r));
    assert Listed(p, {}, a, ClassOf(p.blocks[a].size));
    if k < CLASS_COUNT {
      FirstNonEmptyIsLeast(p.lists, k);
    }
  }

  /** The search fails only if no free block reaches the rounded size. */
  lemma FindExhausted(p: Pool, r: nat, a: int)
    requires Partial(p, {}) && r > 0 && Find(p, r).None?
    requires a in p.blocks && p.blocks[a].free
    ensures p.blocks[a].size < (if r < SMALL_BLOCK_SIZE then r else r + r / 32)
  {
    FindMisses(p, r, a);
    SearchMisses(r, p.blocks[a].size);
  }

  /** `controller_block_mark_used`: hand out block `a` for `r` bytes, returning what is left
      over to the lists when it can hold a block of its own. */
  ghost function Use(p: Pool, a: int, r: nat): (q: Pool)
    requires Partial(p, {a}) && BLOCK_SIZE_MIN <= r <= p.blocks[a].size && r % ALIGN_SIZE == 0
    ensures Partial(q, {})
  {
    if p.blocks[a].size >= 32 + r then
      var m := a + 8 + r;
      SplitKeeps(p, {a}, a, r);
      SplitTiles(p, a, r);
      PutInKeeps(Split(p, a, r), {a} + {m}, m);
      assert {a} + {m} - {m} == {a};
      MarkUsedKeeps(PutIn(Split(p, a, r), m), {a}, a);
      assert {a} - {a} == {};
      SetFree(PutIn(Split(p, a, r), m), a, false)
    else
      MarkUsedKeeps(p, {a}, a);
      assert {a} - {a} == {};
      SetFree(p, a, false)
  }

  // ----- malloc and memalign

  /** `controller_block_trim_free_leading`: the first `gap` bytes of block `a` go back to the
      lists as a block, and the rest stays in hand. */
  ghost function CutLeading(p: Pool, a: int, gap: int): (q: Pool)
    requires Partial(p, {a}) && GAP_MINIMUM <= gap && gap % ALIGN_SIZE == 0 && 32 + gap <= p.blocks[a].size
    ensures Partial(q, {a + gap}) && q.blocks[a + gap].size == p.blocks[a].size - gap
  {
    SplitKeeps(p, {a}, a, gap - 8);
    SplitTiles(p, a, gap - 8);
    PutInKeeps(Split(p, a, gap - 8), {a} + {a + gap}, a);
    assert {a} + {a + gap} - {a} == {a + gap};
    PutIn(Split(p, a, gap - 8), a)
  }

  /** Free block `a` can hold `r` bytes behind a gap that is empty or a block of its own. */
  ghost predicate Placeable(p: Pool, a: int, gap: int, r: int) {
    && a in p.blocks && p.blocks[a].free
    && BLOCK_SIZE_MIN <= r && r % ALIGN_SIZE == 0
    && gap + r <= p.blocks[a].size
    && (gap == 0 || (GAP_MINIMUM <= gap && gap % ALIGN_SIZE == 0 && 32 + gap <= p.blocks[a].size))
  }

  /** Take free block `a`, give back the gap in front and the rest behind, and hand out `r`
      bytes in the middle. */
  ghost function Place(p: Pool, a: int, gap: int, r: int): (q: Pool)
    requires Partial(p, {}) && Placeable(p, a, gap, r)
    ensures Partial(q, {})
  {
    TakeOutKeeps(p, {}, a);
    assert {} + {a} == {a};
    if gap == 0 then Use(TakeOut(p, a), a, r) else Use(CutLeading(TakeOut(p, a), a, gap), a + gap, r)
  }

  const NULL := 0

  /** `htfh_malloc`: the new pool and the pointer returned. */
  ghost function Malloc(p: Pool, size: nat): (r: (Pool, int))
    requires Inv(p) && size < WORD_MODULUS
    ensures Partial(r.0, {})
  {
    var r := AdjustRequestSize(size, ALIGN_SIZE);
    AdjustedRequest(size);
    match Find(p, r)
    case None => (p, NULL)
    case Some(a) =>
      FindFits(p, r);
      (Place(p, a, 0, r), a + 16)
  }

  ghost predicate LegalAlign(align: nat) {
    PowerOfTwo(align) && align <= WORD_MODULUS / 4
  }

  /** The block memalign finds and the gap it leaves in front: it can always be cut at the
      aligned address. */
  ghost function MemalignSlot(p: Pool, align: nat, size: nat): (s: Option<(int, int)>)
    requires Inv(p) && LegalAlign(align) && size < WORD_MODULUS
    ensures align > 0
    ensures s.Some? ==>
              && 0 <= s.value.0 && 0 <= s.value.1 && MultipleOf(s.value.0 + s.value.1 + 16, align)
              && Placeable(p, s.value.0, s.value.1, AdjustRequestSize(size, ALIGN_SIZE))
  {
    AlignedSizeFacts(align, size);
    match Find(p, AlignedSize(align, size))
    case None => None
    case Some(a) =>
      SlotFits(p, a, align, size);
      Some((a, Gap(a + 16, align)))
  }

  lemma SlotFits(p: Pool, a: int, align: nat, size: nat)
    requires Inv(p) && LegalAlign(align) && size < WORD_MODULUS && align > 0
    requires Find(p, AlignedSize(align, size)) == Some(a)
    ensures 0 <= a && 0 <= Gap(a + 16, align) && MultipleOf(a + Gap(a + 16, align) + 16, align)
    ensures Placeable(p, a, Gap(a + 16, align), AdjustRequestSize(size, ALIGN_SIZE))
  {
    AlignedSizeFacts(align, size);
    AdjustedRequest(size);
    FindFits(p, AlignedSize(align, size));
    assert Linked(p, a);
    GapFacts(a + 16, align);
    assert a + 16 + Gap(a + 16, align) == a + Gap(a + 16, align) + 16;
  }

  /** `htfh_memalign`: the new pool and the pointer returned. */
  ghost function Memalign(p: Pool, align: nat, size: nat): (r: (Pool, int))
    requires Inv(p) && LegalAlign(align) && size < WORD_MODULUS
    ensures Partial(r.0, {})
  {
    match MemalignSlot(p, align, size)
    case None => (p, NULL)
    case Some((a, gap)) => (Place(p, a, gap, AdjustRequestSize(size, ALIGN_SIZE)), a + gap + 16)
  }

  // ----- no two free neighbours

  /** Every pair of free neighbours has block `x` in it. */
  ghost predicate PairsTouch(p: Pool, x: int) {
    forall a {:trigger FreePair(p, a)} :: a in p.blocks && FreePair(p, a) ==> a == x || Next(p, a) == x
  }

  lemma UseCoalesces(p: Pool, a: int, r: nat)
    requires Partial(p, {a}) && BLOCK_SIZE_MIN <= r <= p.blocks[a].size && r % ALIGN_SIZE == 0
    requires PairsTouch(p, a) && Next(p, a) in p.blocks && !p.blocks[Next(p, a)].free
    ensures Coalesced(Use(p, a, r))
  {
    var q := Use(p, a, r);
    SplitTilesIf(p, a, r);
    forall x | x in q.blocks
      ensures !FreePair(q, x)
    {
      if x in p.blocks && x != a {
        assert Linked(p, x);
        assert FreePair(p, x) ==> Next(p, x) == a;
      }
    }
  }

  lemma SplitTilesIf(p: Pool, a: int, r: nat)
    requires Tiled(p) && a in p.blocks && a != p.end && BLOCK_SIZE_MIN <= r
    ensures p.blocks[a].size >= 32 + r ==> a + 8 + r !in p.blocks
  {
    if p.blocks[a].size >= 32 + r {
      SplitTiles(p, a, r);
    }
  }

  lemma PlaceKeepsInv(p: Pool, a: int, gap: int, r: int)
    requires Inv(p) && Placeable(p, a, gap, r)
    ensures Inv(Place(p, a, gap, r))
  {
    TakeOutKeeps(p, {}, a);
    assert {} + {a} == {a};
    var q := TakeOut(p, a);
    forall x | x in q.blocks
      ensures !FreePair(q, x)
    {
      assert !FreePair(p, x);
    }
    if gap == 0 {
      assert Linked(q, a) && !FreePair(q, a);
      UseCoalesces(q, a, r);
    } else {
      CutLeadingPairs(q, a, gap);
      UseCoalesces(CutLeading(q, a, gap), a + gap, r);
    }
  }

  /** malloc keeps every invariant of the pool. */
  lemma MallocKeepsInv(p: Pool, size: nat)
    requires Inv(p) && size < WORD_MODULUS
    ensures Inv(Malloc(p, size).0)
  {
    var r := AdjustRequestSize(size, ALIGN_SIZE);
    AdjustedRequest(size);
    if Find(p, r).Some? {
      FindFits(p, r);
      PlaceKeepsInv(p, Find(p, r).value, 0, r);
    }
  }

  /** memalign keeps every invariant of the pool. */
  lemma MemalignKeepsInv(p: Pool, align: nat, size: nat)
    requires Inv(p) && LegalAlign(align) && size < WORD_MODULUS
    ensures Inv(Memalign(p, align, size).0)
  {
    match MemalignSlot(p, align, size)
    case None =>
    case Some((a, gap)) => PlaceKeepsInv(p, a, gap, AdjustRequestSize(size, ALIGN_SIZE));
  }

  lemma CutLeadingPairs(p: Pool, a: int, gap: int)
    requires Partial(p, {a}) && GAP_MINIMUM <= gap && gap % ALIGN_SIZE == 0 && 32 + gap <= p.blocks[a].size
    requires Coalesced(p)
    ensures var q := CutLeading(p, a, gap);
            PairsTouch(q, a + gap) && Next(q, a + gap) in q.blocks && !q.blocks[Next(q, a + gap)].free
  {
    var q := CutLeading(p, a, gap);
    SplitTiles(p, a, gap - 8);
    assert Linked(p, a) && !FreePair(p, a);
    forall x | x in q.blocks && FreePair(q, x)
      ensures x == a + gap || Next(q, x) == a + gap
    {
      assert x in p.blocks && x != a ==> Linked(p, x) && !FreePair(p, x);
    }
  }

  lemma MergePrevPairs(p: Pool, a: int, p0: Pool)
    requires Inv(p0) && a in Live(p0) && p == SetFree(p0, a, true) && Partial(p, {a})
    ensures var (q, b) := MergePrev(p, a);
            PairsTouch(q, b) && (b != q.first ==> q.blocks[b].prev in q.blocks && !q.blocks[q.blocks[b].prev].free)
  {
    var (q, b) := MergePrev(p, a);
    assert Linked(p, a) && Linked(p, b) && Linked(q, b);
    forall x | x in q.blocks
      ensures FreePair(q, x) ==> x == b || Next(q, x) == b
    {
      MergePrevPair(p, a, p0, x);
    }
    if b != q.first {
      var c := p.blocks[b].prev;
      assert Linked(p, c) && !FreePair(p0, c);
    }
  }

  lemma MergePrevPair(p: Pool, a: int, p0: Pool, x: int)
    requires Inv(p0) && a in Live(p0) && p == SetFree(p0, a, true) && Partial(p, {a})
    requires x in MergePrev(p, a).0.blocks
    ensures var (q, b) := MergePrev(p, a); FreePair(q, x) ==> x == b || Next(q, x) == b
  {
    assert Linked(p, a);
    assert Linked(p, x) && !FreePair(p0, x);
  }

  lemma MergeNextCoalesces(p: Pool, a: int)
    requires Partial(p, {a}) && PairsTouch(p, a)
    requires a != p.first ==> p.blocks[a].prev in p.blocks && !p.blocks[p.blocks[a].prev].free
    ensures Coalesced(MergeNext(p, a))
  {
    forall x | x in MergeNext(p, a).blocks
      ensures !FreePair(MergeNext(p, a), x)
    {
      MergeNextPair(p, a, x);
    }
  }

  lemma MergeNextPair(p: Pool, a: int, x: int)
    requires Partial(p, {a}) && PairsTouch(p, a) && x in MergeNext(p, a).blocks
    requires a != p.first ==> p.blocks[a].prev in p.blocks && !p.blocks[p.blocks[a].prev].free
    ensures !FreePair(MergeNext(p, a), x)
  {
    assert Linked(p, a);
    var b := Next(p, a);
    assert Linked(p, b) && Linked(p, x);
    assert FreePair(p, b) ==> Next(p, b) == a;
    assert x != a && FreePair(p, x) ==> Next(p, x) == a;
  }

  lemma FreeKeepsInv(p: Pool, a: int)
    requires Inv(p) && a in Live(p)
    ensures Inv(Free(p, a))
  {
    MarkFreeKeeps(p, {}, a);
    assert {} + {a} == {a};
    var p1 := SetFree(p, a, true);
    var (p2, b) := MergePrev(p1, a);
    MergePrevPairs(p1, a, p);
    MergeNextCoalesces(p2, b);
    var p3 := MergeNext(p2, b);
    PutInKeeps(p3, {b}, b);
    var q := Free(p, a);
    forall x | x in q.blocks
      ensures !FreePair(q, x)
    {
      assert !FreePair(p3, x);
    }
  }
}
