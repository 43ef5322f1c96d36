/** Which block malloc and memalign take, what they leave of it, and where malloc, memalign and
    free put blocks on the lists. */
module TlsfChoices {
  import opened Basics
  import opened Mapping
  import opened Seqs
  import opened TlsfPool
  import opened TlsfOps
  import opened TlsfTheorems

  // ----- the block that is taken

  /** Free block `b` is in the class searched for `r`, or in a higher one. */
  ghost predicate Suits(p: Pool, b: int, r: nat) {
    ClassHoldsSize(RoundedRequest(r));
    b in p.blocks && p.blocks[b].free && ClassMin(ClassOf(RoundedRequest(r))) <= p.blocks[b].size
  }

  /** `a` heads the list of its class, and no suitable block is in a lower class. */
  ghost predicate Chosen(p: Pool, a: int, r: nat) {
    && Suits(p, a, r) && HasList(p, a) && AtHead(p, a)
    && forall b {:trigger Suits(p, b, r)} :: Suits(p, b, r) ==> ClassOf(p.blocks[a].size) <= ClassOf(p.blocks[b].size)
  }

  lemma FindChooses(p: Pool, r: nat)
    requires Inv(p) && r % ALIGN_SIZE == 0 && Find(p, r).Some?
    ensures Chosen(p, Find(p, r).value, r)
  {
    var a := Find(p, r).value;
    HeadOfOwnList(p, r);
    FindFits(p, r);
    var k := ClassOf(RoundedRequest(r));
    ClassHoldsSize(RoundedRequest(r));
    ClassOrder(p.blocks[a].size, k);
    forall b | Suits(p, b, r)
      ensures ClassOf(p.blocks[a].size) <= ClassOf(p.blocks[b].size)
    {
      NoneBelow(p, r, b);
    }
    FoundClass(p, r);
  }

  lemma FoundClass(p: Pool, r: nat)
    requires Inv(p) && Find(p, r).Some?
    ensures var a := Find(p, r).value;
            var k := ClassOf(RoundedRequest(r));
            && HasList(p, a) && 0 <= k < CLASS_COUNT && ClassOf(p.blocks[a].size) == FirstNonEmpty(p.lists, k) >= k
  {
    var k := ClassOf(RoundedRequest(r));
    ClassHoldsSize(RoundedRequest(r));
    FirstNonEmptyIsLeast(p.lists, k);
    var f := FirstNonEmpty(p.lists, k);
    var a := p.lists[f][0];
    assert a in p.lists[f];
    assert Listed(p, {}, a, f);
  }

  lemma NoneBelow(p: Pool, r: nat, b: int)
    requires Inv(p) && Find(p, r).Some? && Suits(p, b, r)
    ensures var a := Find(p, r).value; HasList(p, a) && ClassOf(p.blocks[a].size) <= ClassOf(p.blocks[b].size)
  {
    FoundClass(p, r);
    ListOf(p, b);
    var k := ClassOf(RoundedRequest(r));
    ClassHoldsSize(RoundedRequest(r));
    ClassOrder(p.blocks[b].size, k);
    FirstNonEmptyIsLeast(p.lists, k);
    assert Listed(p, {}, b, ClassOf(p.blocks[b].size));
  }

  // ----- what is left of it

  /** The list of class `j` with the block `x` of `size` bytes in front, if it belongs there. */
  ghost function Front(there: bool, x: int, size: int, j: int): seq<int> {
    if there && size >= 0 && ClassOf(size) == j then [x] else []
  }

  /** `q` is `p` with `r` bytes handed out from block `a`, `gap` bytes into it. The gap and the
      rest, if it can hold a block, go to the head of their lists, the rest last. */
  ghost predicate Carved(p: Pool, q: Pool, a: int, gap: int, r: int)
    requires a in p.blocks && 0 <= p.blocks[a].size
  {
    var whole := p.blocks[a].size;
    var split := whole - gap >= 32 + r;
    var c, m, rest := a + gap, a + gap + 8 + r, whole - gap - r - 8;
    && q.first == p.first && q.end == p.end && |q.lists| == |p.lists|
    && c in q.blocks && !q.blocks[c].free && q.blocks[c].size == (if split then r else whole - gap)
    && (gap > 0 ==> a in q.blocks && q.blocks[a].free && q.blocks[a].size == gap - 8)
    && (split ==> m in q.blocks && q.blocks[m].free && q.blocks[m].size == rest)
    && (forall x {:trigger Alike(p, q, x)} :: x != a && x != c && !(split && x == m) ==> Alike(p, q, x))
    && (forall j :: 0 <= j < |p.lists| ==>
          q.lists[j] == Front(split, m, rest, j) + Front(gap > 0, a, gap - 8, j)
                        + if j == ClassOf(whole) && p.lists[j] != [] then p.lists[j][1..] else p.lists[j])
  }

  /** Block `x` is the same in both pools, up to its back link. */
  ghost predicate Alike(p: Pool, q: Pool, x: int) {
    (x in q.blocks <==> x in p.blocks)
    && (x in p.blocks ==> q.blocks[x].size == p.blocks[x].size && q.blocks[x].free == p.blocks[x].free)
  }

  /** The first step: block `a` leaves the head of its list. */
  ghost predicate Popped(p: Pool, q: Pool, a: int)
    requires a in p.blocks && 0 <= p.blocks[a].size
  {
    && q.first == p.first && q.end == p.end && |q.lists| == |p.lists| && q.blocks == p.blocks
    && (forall j :: 0 <= j < |p.lists| ==>
          q.lists[j] == if j == ClassOf(p.blocks[a].size) && p.lists[j] != [] then p.lists[j][1..] else p.lists[j])
  }

  /** The second: the first `gap` bytes of `a` become a block. */
  ghost predicate CutOff(p: Pool, q: Pool, a: int, gap: int)
    requires a in p.blocks
  {
    && q.first == p.first && q.end == p.end && |q.lists| == |p.lists|
    && a + gap !in p.blocks && a + gap in q.blocks && q.blocks[a + gap].size == p.blocks[a].size - gap
    && a in q.blocks && q.blocks[a].free && q.blocks[a].size == gap - 8
    && (forall x {:trigger Alike(p, q, x)} :: x != a && x != a + gap ==> Alike(p, q, x))
    && (forall j :: 0 <= j < |p.lists| ==> q.lists[j] == Front(true, a, gap - 8, j) + p.lists[j])
  }

  /** The third: `r` bytes of `c` are used and the rest, if large enough, becomes a block. */
  ghost predicate Handed(p: Pool, q: Pool, c: int, r: int)
    requires c in p.blocks
  {
    var split := p.blocks[c].size >= 32 + r;
    var m, rest := c + 8 + r, p.blocks[c].size - r - 8;
    && q.first == p.first && q.end == p.end && |q.lists| == |p.lists|
    && c in q.blocks && !q.blocks[c].free && q.blocks[c].size == (if split then r else p.blocks[c].size)
    && (split ==> m !in p.blocks && m in q.blocks && q.blocks[m].free && q.blocks[m].size == rest)
    && (forall x {:trigger Alike(p, q, x)} :: x != c && !(split && x == m) ==> Alike(p, q, x))
    && (forall j :: 0 <= j < |p.lists| ==> q.lists[j] == Front(split, m, rest, j) + p.lists[j])
  }

  lemma UseHands(p: Pool, a: int, r: nat)
    requires Partial(p, {a}) && BLOCK_SIZE_MIN <= r <= p.blocks[a].size && r % ALIGN_SIZE == 0
    ensures Handed(p, Use(p, a, r), a, r)
  {
    assert Linked(p, a);
    if p.blocks[a].size >= 32 + r {
      SplitTiles(p, a, r);
      SplitKeeps(p, {a}, a, r);
      PutInKeeps(Split(p, a, r), {a} + {a + 8 + r}, a + 8 + r);
    }
  }

  lemma CutLeadingCuts(p: Pool, a: int, gap: int)
    requires Partial(p, {a}) && GAP_MINIMUM <= gap && gap % ALIGN_SIZE == 0 && 32 + gap <= p.blocks[a].size
    ensures CutOff(p, CutLeading(p, a, gap), a, gap)
  {
    assert Linked(p, a);
    SplitTiles(p, a, gap - 8);
    SplitKeeps(p, {a}, a, gap - 8);
    PutInKeeps(Split(p, a, gap - 8), {a} + {a + gap}, a);
  }

  lemma TakeOutPops(p: Pool, a: int)
    requires HasList(p, a) && AtHead(p, a)
    ensures Popped(p, TakeOut(p, a), a)
  {
  }

  lemma HandedCarves(p: Pool, t: Pool, q: Pool, a: int, r: int)
    requires a in p.blocks && 0 <= p.blocks[a].size && Popped(p, t, a) && Handed(t, q, a, r)
    ensures Carved(p, q, a, 0, r)
  {
    forall x | x != a && !(p.blocks[a].size >= 32 + r && x == a + 8 + r)
      ensures Alike(p, q, x)
    {
      assert Alike(t, q, x);
    }
    forall j | 0 <= j < |p.lists|
      ensures q.lists[j] == Front(p.blocks[a].size >= 32 + r, a + 8 + r, p.blocks[a].size - r - 8, j) + t.lists[j]
    {
    }
  }

  lemma CutCarves(p: Pool, t: Pool, u: Pool, q: Pool, a: int, gap: int, r: int)
    requires a in p.blocks && 0 <= p.blocks[a].size && gap > 0
    requires Popped(p, t, a) && CutOff(t, u, a, gap) && Handed(u, q, a + gap, r)
    requires a + gap + 8 + r != a
    ensures Carved(p, q, a, gap, r)
  {
    assert Alike(u, q, a);
    CutLists(p, t, u, q, a, gap, r);
    hide Front;
    forall x | x != a && x != a + gap && !(p.blocks[a].size - gap >= 32 + r && x == a + gap + 8 + r)
      ensures Alike(p, q, x)
    {
      assert Alike(u, q, x) && Alike(t, u, x);
    }
  }

  lemma CutLists(p: Pool, t: Pool, u: Pool, q: Pool, a: int, gap: int, r: int)
    requires a in p.blocks && 0 <= p.blocks[a].size && gap > 0
    requires Popped(p, t, a) && CutOff(t, u, a, gap) && Handed(u, q, a + gap, r)
    ensures |q.lists| == |p.lists| == |t.lists|
    ensures var split := p.blocks[a].size - gap >= 32 + r;
            forall j :: 0 <= j < |p.lists| ==>
              q.lists[j] == Front(split, a + gap + 8 + r, p.blocks[a].size - gap - r - 8, j)
                            + Front(gap > 0, a, gap - 8, j) + t.lists[j]
  {
    hide Front, Alike;
    var split := p.blocks[a].size - gap >= 32 + r;
    forall j | 0 <= j < |p.lists|
      ensures q.lists[j] == Front(split, a + gap + 8 + r, p.blocks[a].size - gap - r - 8, j)
                            + Front(gap > 0, a, gap - 8, j) + t.lists[j]
    {
      assert u.lists[j] == Front(true, a, gap - 8, j) + t.lists[j];
    }
  }

  lemma PlaceCarves(p: Pool, a: int, gap: int, r: int)
    requires Inv(p) && Placeable(p, a, gap, r) && HasList(p, a) && AtHead(p, a)
    ensures Carved(p, Place(p, a, gap, r), a, gap, r)
  {
    hide Carved, Popped, CutOff, Handed, TakeOut, Use, CutLeading, AtHead;
    TakeOutKeeps(p, {}, a);
    TakeOutPops(p, a);
    assert {} + {a} == {a};
    var t := TakeOut(p, a);
    SameBlocksTaken(p, a);
    if gap == 0 {
      UseHands(t, a, r);
      HandedCarves(p, t, Use(t, a, r), a, r);
    } else {
      CutLeadingCuts(t, a, gap);
      UseHands(CutLeading(t, a, gap), a + gap, r);
      CutCarves(p, t, CutLeading(t, a, gap), Use(CutLeading(t, a, gap), a + gap, r), a, gap, r);
    }
  }

  lemma SameBlocksTaken(p: Pool, a: int)
    requires HasList(p, a)
    ensures TakeOut(p, a).blocks == p.blocks
  {
  }

  /** malloc takes the head of the lowest class that suits and carves the request off its front. */
  lemma MallocTakes(p: Pool, size: nat)
    requires Inv(p) && size < WORD_MODULUS && Malloc(p, size).1 != NULL
    ensures var (q, ptr) := Malloc(p, size);
            var r := AdjustRequestSize(size, ALIGN_SIZE);
            Chosen(p, ptr - 16, r) && Carved(p, q, ptr - 16, 0, r)
  {
    hide Chosen, Carved, AdjustRequestSize, Find, Place, Malloc;
    var r := AdjustRequestSize(size, ALIGN_SIZE);
    AdjustedRequest(size);
    MallocResult(p, size);
    FindChooses(p, r);
    HeadOfOwnList(p, r);
    PlaceCarves(p, Find(p, r).value, 0, r);
  }

  /** memalign takes the head of the lowest class that suits the padded request, and in it the
      first aligned address that leaves no gap or one with room for a block. */
  lemma MemalignTakes(p: Pool, align: nat, size: nat) returns (a: int, gap: int)
    requires Inv(p) && LegalAlign(align) && size < WORD_MODULUS && Memalign(p, align, size).1 != NULL
    ensures align > 0
    ensures var (q, ptr) := Memalign(p, align, size);
            && a >= 0 && gap >= 0 && ptr == a + gap + 16 && Chosen(p, a, AlignedSize(align, size))
            && Carved(p, q, a, gap, AdjustRequestSize(size, ALIGN_SIZE))
            && forall x :: (x == a + 16 || x >= a + 16 + GAP_MINIMUM) && MultipleOf(x, align) ==> ptr <= x
  {
    hide Chosen, Carved, AdjustRequestSize, AlignedSize, Find, Place, MultipleOf, Gap, PowerOfTwo, Partial, Coalesced;
    AlignedSizeFacts(align, size);
    AdjustedRequest(size);
    var r := AlignedSize(align, size);
    SearchFails(p, r);
    a := MemalignSlot(p, align, size).value.0;
    gap := MemalignSlot(p, align, size).value.1;
    FindChooses(p, r);
    HeadOfOwnList(p, r);
    PlaceCarves(p, a, gap, AdjustRequestSize(size, ALIGN_SIZE));
    AlignedBlock(p, a);
    forall x | (x == a + 16 || x >= a + 16 + GAP_MINIMUM) && MultipleOf(x, align)
      ensures a + gap + 16 <= x
    {
      GapLeast(a + 16, align, x);
    }
  }

  lemma AlignedBlock(p: Pool, a: int)
    requires Partial(p, {}) && a in p.blocks
    ensures a % ALIGN_SIZE == 0 && (a + 16) % ALIGN_SIZE == 0 && a >= 0
  {
    assert Linked(p, a);
  }

  // ----- free

  /** Where the free block that freeing `a` makes begins, and where it ends. */
  ghost function Lowest(p: Pool, a: int): int
    requires a in p.blocks
  {
    var b := p.blocks[a].prev;
    if a != p.first && b in p.blocks && p.blocks[b].free then b else a
  }

  ghost function Highest(p: Pool, a: int): int
    requires a in p.blocks
  {
    var n := Next(p, a);
    if n in p.blocks && p.blocks[n].free then Next(p, n) else n
  }

  /** The list of class `j` without the neighbours that are joined to `a`. */
  ghost function Unjoined(p: Pool, a: int, j: int): seq<int>
    requires a in p.blocks && 0 <= j < |p.lists|
  {
    var l := if Lowest(p, a) != a then Drop(p.lists[j], Lowest(p, a)) else p.lists[j];
    if Highest(p, a) != Next(p, a) then Drop(l, Next(p, a)) else l
  }

  lemma TakeOutDrops(p: Pool, loose: set<int>, b: int)
    requires Partial(p, loose) && b in p.blocks && p.blocks[b].free && b !in loose
    ensures HasList(p, b)
    ensures forall j :: 0 <= j < CLASS_COUNT ==> TakeOut(p, b).lists[j] == Drop(p.lists[j], b)
  {
    ListOf(p, b);
    forall j | 0 <= j < CLASS_COUNT && j != ClassOf(p.blocks[b].size)
      ensures Drop(p.lists[j], b) == p.lists[j]
    {
      assert !Listed(p, loose, b, j);
      DropAbsent(p.lists[j], b);
    }
  }

  /** The block `c` of `q` reaches from where it did to `hi`; blocks elsewhere are those of `p`. */
  ghost predicate Joined(p: Pool, q: Pool, c: int, hi: int) {
    && q.first == p.first && q.end == p.end && |q.lists| == |p.lists|
    && c in q.blocks && q.blocks[c].free && q.blocks[c].size == hi - c - 8
    && (forall x {:trigger Alike(p, q, x)} :: x < c || hi <= x ==> Alike(p, q, x))
  }

  lemma MergePrevJoins(p: Pool, a: int)
    requires Partial(p, {a})
    ensures var (q, b) := MergePrev(p, a);
            && b == Lowest(p, a) && Joined(p, q, b, Next(p, a))
            && (forall j :: 0 <= j < |p.lists| ==> q.lists[j] == if b != a then Drop(p.lists[j], b) else p.lists[j])
  {
    assert Linked(p, a);
    var b := p.blocks[a].prev;
    if a != p.first && p.blocks[b].free {
      TakeOutDrops(p, {a}, b);
      assert Linked(p, b);
      var q := MergePrev(p, a).0;
      forall x | x < b || Next(p, a) <= x
        ensures Alike(p, q, x)
      {
      }
    }
  }

  lemma MergeNextJoins(p: Pool, a: int)
    requires Partial(p, {a})
    ensures var q := MergeNext(p, a);
            var n := Next(p, a);
            && Joined(p, q, a, Highest(p, a))
            && (forall j :: 0 <= j < |p.lists| ==>
                  q.lists[j] == if Highest(p, a) != n then Drop(p.lists[j], n) else p.lists[j])
  {
    assert Linked(p, a);
    var n := Next(p, a);
    assert Linked(p, n);
    if p.blocks[n].free {
      TakeOutDrops(p, {a}, n);
      var q := MergeNext(p, a);
      forall x | x < a || Highest(p, a) <= x
        ensures Alike(p, q, x)
      {
      }
    }
  }

  lemma MarkedFree(p: Pool, a: int)
    requires Inv(p) && a in Live(p)
    ensures var p1 := SetFree(p, a, true);
            && Lowest(p1, a) == Lowest(p, a) && Next(p1, a) == Next(p, a) && Highest(p1, a) == Highest(p, a)
            && p1.lists == p.lists && Lowest(p, a) <= a < Next(p, a) <= Highest(p, a)
            && (forall x {:trigger Alike(p1, p, x)} :: x != a ==> Alike(p1, p, x))
  {
    assert Linked(p, a);
    assert Linked(p, Next(p, a));
    if a != p.first {
      assert Linked(p, p.blocks[a].prev);
    }
  }

  /** The two merges, one after the other. */
  lemma MergedBoth(p: Pool, p1: Pool, p2: Pool, p3: Pool, a: int, b: int)
    requires a in p.blocks && a in p1.blocks && b in p2.blocks && b == Lowest(p, a) <= a < Next(p, a) <= Highest(p, a)
    requires p1.first == p.first && p1.end == p.end && p1.lists == p.lists && Highest(p1, a) == Highest(p, a)
    requires Next(p1, a) == Next(p, a) && (forall x {:trigger Alike(p1, p, x)} :: x != a ==> Alike(p1, p, x))
    requires Joined(p1, p2, b, Next(p, a)) && Joined(p2, p3, b, Highest(p2, b))
    ensures Highest(p2, b) == Highest(p, a) && Next(p2, b) == Next(p, a) && Joined(p, p3, b, Highest(p, a))
  {
    assert Alike(p1, p2, Next(p, a));
    forall x | x < b || Highest(p, a) <= x
      ensures Alike(p, p3, x)
    {
      assert Alike(p1, p, x) && Alike(p1, p2, x) && Alike(p2, p3, x);
    }
  }

  /** free makes one block of `a` and its free neighbours, puts it at the head of its list, and
      changes the lists in no other way. */
  lemma FreeJoins(p: Pool, a: int)
    requires Inv(p) && a in Live(p)
    ensures var q := Free(p, a);
            var lo, hi := Lowest(p, a), Highest(p, a);
            && Joined(p, q, lo, hi) && (forall x :: lo < x < hi ==> x !in q.blocks)
            && (forall j :: 0 <= j < |p.lists| ==> q.lists[j] == Front(true, lo, hi - lo - 8, j) + Unjoined(p, a, j))
  {
    hide Lowest, Highest, MergePrev, MergeNext, Partial, Coalesced, Drop, Front, Alike;
    InvParts(p);
    MarkFreeKeeps(p, {}, a);
    assert {} + {a} == {a};
    var p1 := SetFree(p, a, true);
    MarkedFree(p, a);
    var (p2, b) := MergePrev(p1, a);
    MergePrevJoins(p1, a);
    var p3 := MergeNext(p2, b);
    MergeNextJoins(p2, b);
    MergedBoth(p, p1, p2, p3, a, b);
    PutInKeeps(p3, {b}, b);
    assert {b} - {b} == {};
    hide Joined, PutIn, HasList;
    PutInFront(p, p3, b, Highest(p, a));
  }

  lemma InvParts(p: Pool)
    requires Inv(p)
    ensures Partial(p, {}) && |p.lists| == CLASS_COUNT
  {
  }

  lemma PutInFront(p: Pool, p3: Pool, b: int, hi: int)
    requires Joined(p, p3, b, hi) && HasList(p3, b) && Partial(PutIn(p3, b), {})
    ensures var q := PutIn(p3, b);
            && Joined(p, q, b, hi) && (forall x :: b < x < hi ==> x !in q.blocks)
            && (forall j :: 0 <= j < |p.lists| ==> q.lists[j] == Front(true, b, hi - b - 8, j) + p3.lists[j])
  {
    var q := PutIn(p3, b);
    forall x | x < b || hi <= x
      ensures Alike(p, q, x)
    {
      assert Alike(p, p3, x);
    }
    forall x | b < x < hi
      ensures x !in q.blocks
    {
      assert x in q.blocks ==> Apart(q, b, x);
    }
  }
}
