/** Size classes of the TLSF allocator (the 64-bit column of constants.h): the two-level
    mapping of block sizes to free lists, request rounding and alignment. */
module Mapping {
  import opened Bits

  const ALIGN_SIZE := 8
  const SL_INDEX_COUNT := 32
  const FL_INDEX_COUNT := 25
  const SMALL_BLOCK_SIZE := 256
  const BLOCK_SIZE_MIN := 24
  const BLOCK_SIZE_MAX := 0x1_0000_0000
  const WORD_MODULUS := 0x1_0000_0000_0000_0000
  /** Number of free lists. */
  const CLASS_COUNT := 800

  /** `x ^ (1 << SL_INDEX_COUNT_LOG2)`: flips bit five. */
  function FlipBit5(x: int): int {
    if x / 32 % 2 == 1 then x - 32 else x + 32
  }

  /** `1 << (fls(size) - SL_INDEX_COUNT_LOG2)`: the step between classes around a large size. */
  function Unit(size: nat): (u: nat)
    requires size >= SMALL_BLOCK_SIZE
    ensures u > 0
  {
    FlsLarge(size);
    Pow2(Fls(size) - 5)
  }

  /** `mapping_insert`: the first- and second-level index of a block size. */
  function MappingInsert(size: nat): (int, int) {
    if size < SMALL_BLOCK_SIZE then
      (0, size / 8)
    else
      (Fls(size) - 7, FlipBit5(size / Unit(size)))
  }

  /** The size `mapping_search` looks up: the request rounded up to the next class. */
  function RoundedRequest(size: nat): nat {
    if size < SMALL_BLOCK_SIZE then
      size
    else
      size + Unit(size) - 1
  }

  /** `mapping_search`: the indices at which the search for a request starts. */
  function MappingSearch(size: nat): (int, int) {
    MappingInsert(RoundedRequest(size))
  }

  lemma FlsLarge(size: nat)
    requires size >= SMALL_BLOCK_SIZE
    ensures Fls(size) >= 8
  {
    FlsBounds(size);
    Pow2Values();
    if Fls(size) < 8 {
      Pow2Grows(Fls(size), 8);
    }
  }

  // ----- classes in one linear order

  /** The position of a list in the order the bitmap search visits them. */
  function Linear(fl: int, sl: int): int {
    SL_INDEX_COUNT * fl + sl
  }

  function ClassOf(size: nat): int {
    Linear(MappingInsert(size).0, MappingInsert(size).1)
  }

  /** The distance between the smallest sizes of class `k` and the next class. */
  function Width(k: nat): nat {
    if k < 32 then 8 else Pow2(k / 32 + 2)
  }

  /** The smallest size of class `k`. */
  function ClassMin(k: nat): nat {
    if k < 32 then 8 * k else Width(k) * (32 + k % 32)
  }

  lemma ClassMinStep(k: nat)
    ensures ClassMin(k + 1) == ClassMin(k) + Width(k)
  {
    Pow2Values();
    if k >= 32 && k % 32 == 31 {
      assert (k + 1) / 32 == k / 32 + 1 && (k + 1) % 32 == 0;
      assert Width(k + 1) == 2 * Width(k);
    } else if k >= 32 {
      assert (k + 1) / 32 == k / 32 && (k + 1) % 32 == k % 32 + 1;
      assert Width(k + 1) == Width(k);
    } else if k == 31 {
      assert Pow2(3) == 2 * Pow2(2);
    }
  }

  lemma {:induction false} ClassMinMonotone(i: nat, j: nat)
    requires i <= j
    ensures ClassMin(i) <= ClassMin(j)
    ensures i < j ==> ClassMin(i) + Width(i) <= ClassMin(j)
  {
    if i < j {
      ClassMinMonotone(i, j - 1);
      ClassMinStep(j - 1);
      ClassMinStep(i);
    }
  }

  lemma DivideByUnit(size: nat, u: nat)
    requires u > 0 && 32 * u <= size < 64 * u
    ensures 32 <= size / u < 64
    ensures u * (size / u) <= size < u * (size / u) + u
  {
  }

  /** The unit of a large size is the width of the classes at its first-level index. */
  lemma UnitIsWidth(size: nat, sl: nat)
    requires size >= SMALL_BLOCK_SIZE && sl < 32
    ensures 32 * Unit(size) <= size < 64 * Unit(size)
    ensures Fls(size) >= 8 && Width(32 * (Fls(size) - 7) + sl) == Unit(size)
  {
    FlsLarge(size);
    FlsBounds(size);
    var f := Fls(size);
    Pow2Nibble(f - 5);
    assert Pow2(f) == 2 * Pow2(f - 1);
    assert (32 * (f - 7) + sl) / 32 == f - 7;
  }

  /** The second-level index of a large size, as a quotient. */
  lemma LargeIndex(size: nat) returns (q: nat)
    requires size >= SMALL_BLOCK_SIZE
    ensures 32 <= q < 64 && Unit(size) * q <= size < Unit(size) * q + Unit(size)
    ensures MappingInsert(size) == (Fls(size) - 7, q - 32)
  {
    UnitIsWidth(size, 0);
    DivideByUnit(size, Unit(size));
    q := size / Unit(size);
  }

  lemma ClassBounds(k: nat, f: nat, q: nat, u: nat)
    requires f >= 8 && 32 <= q < 64 && k == 32 * (f - 7) + (q - 32) && Width(k) == u
    ensures ClassMin(k) == u * q
  {
    hide Width;
    assert k % 32 == q - 32 && k >= 32;
  }

  /** `mapping_insert` puts a size in the one class whose range holds it. */
  lemma ClassHoldsSize(size: nat)
    ensures var m := MappingInsert(size); 0 <= m.0 && 0 <= m.1 < SL_INDEX_COUNT
    ensures 0 <= ClassOf(size) && ClassMin(ClassOf(size)) <= size < ClassMin(ClassOf(size)) + Width(ClassOf(size))
  {
    if size >= SMALL_BLOCK_SIZE {
      var q := LargeIndex(size);
      UnitIsWidth(size, q - 32);
      hide MappingInsert, ClassMin, Unit, Fls, Width;
      ClassBounds(ClassOf(size), Fls(size), q, Unit(size));
    }
  }

  /** The mapping and the class bounds are adjoint: a size reaches class `k` exactly when
      its own class is at or above `k`. */
  lemma ClassOrder(size: nat, k: nat)
    ensures k <= ClassOf(size) <==> ClassMin(k) <= size
  {
    ClassHoldsSize(size);
    if k <= ClassOf(size) {
      ClassMinMonotone(k, ClassOf(size));
    } else {
      ClassMinMonotone(ClassOf(size), k);
    }
  }

  /** The indices of a size stay inside the table exactly below `block_size_max`. */
  lemma ClassInRange(size: nat)
    ensures ClassOf(size) < CLASS_COUNT <==> size < BLOCK_SIZE_MAX
    ensures MappingInsert(size).0 < FL_INDEX_COUNT <==> size < BLOCK_SIZE_MAX
    ensures MappingInsert(BLOCK_SIZE_MAX).0 == FL_INDEX_COUNT
  {
    ClassOrder(size, CLASS_COUNT);
    ClassHoldsSize(size);
    Pow2Values();
    assert Pow2(27) * 32 == Pow2(32) by {
      Pow2Nibble(27);
      assert Pow2(32) == 2 * Pow2(31);
    }
    assert ClassMin(CLASS_COUNT) == Width(CLASS_COUNT) * 32;
    FlsUnique(BLOCK_SIZE_MAX, 32);
  }

  // ----- good fit

  /** The target class of a request holds only sizes that satisfy it. */
  lemma SearchClassFits(r: nat)
    requires r % ALIGN_SIZE == 0
    ensures 0 <= ClassOf(RoundedRequest(r)) && ClassMin(ClassOf(RoundedRequest(r))) >= r
  {
    ClassHoldsSize(RoundedRequest(r));
    if r >= SMALL_BLOCK_SIZE {
      ClassHoldsSize(r);
      var k := ClassOf(r);
      RoundingStep(r);
      if ClassMin(k) < r {
        ClassMinStep(k);
        ClassOrder(RoundedRequest(r), k + 1);
        ClassMinMonotone(k + 1, ClassOf(RoundedRequest(r)));
      } else {
        ClassOrder(RoundedRequest(r), k);
        ClassMinMonotone(k, ClassOf(RoundedRequest(r)));
      }
    }
  }

  /** A large request is rounded up by one less than the width of its own class. */
  lemma RoundingStep(r: nat)
    requires r >= SMALL_BLOCK_SIZE
    ensures ClassOf(r) >= 32 && RoundedRequest(r) == r + Width(ClassOf(r)) - 1
    ensures 32 * Width(ClassOf(r)) <= r
  {
    ClassHoldsSize(r);
    FlsLarge(r);
    FlsBounds(r);
    var f := Fls(r);
    Pow2Nibble(f - 5);
    assert Pow2(f) == 2 * Pow2(f - 1);
    DivideByUnit(r, Pow2(f - 5));
    assert ClassOf(r) / 32 == f - 7;
  }

  /** Good fit: every block in a class at or above the target of an aligned request is large
      enough for it. */
  lemma GoodFit(r: nat, b: nat)
    requires r % ALIGN_SIZE == 0
    requires ClassOf(RoundedRequest(r)) <= ClassOf(b)
    ensures r <= b
  {
    SearchClassFits(r);
    ClassOrder(b, ClassOf(RoundedRequest(r)));
  }

  /** The search begins at the lowest class whose blocks are all large enough. */
  lemma SearchLeast(r: nat, k: nat)
    requires r % ALIGN_SIZE == 0 && ClassMin(k) >= r
    ensures ClassOf(RoundedRequest(r)) <= k
  {
    hide ClassMin, Width, ClassOf, RoundedRequest;
    ClassMinStep(k);
    ClassOrder(RoundedRequest(r), k + 1);
    ClassOrder(r, k + 1);
    if r >= SMALL_BLOCK_SIZE {
      RoundingStep(r);
      ClassOrder(ClassMin(k), ClassOf(r));
      AtLeastOwnClass(r, k);
      WidthGrows(ClassOf(r), k);
    } else {
      SmallRounded(r);
      WidthPositive(k);
    }
  }

  lemma AtLeastOwnClass(r: nat, k: nat)
    requires ClassMin(k) >= r
    ensures 0 <= ClassOf(r) <= k
  {
    hide ClassMin, Width, ClassOf;
    ClassHoldsSize(r);
    if k < ClassOf(r) {
      WidthPositive(k);
      ClassMinStep(k);
      ClassMinMonotone(k + 1, ClassOf(r));
    }
  }

  lemma SmallRounded(r: nat)
    requires r < SMALL_BLOCK_SIZE
    ensures RoundedRequest(r) == r
  {
  }

  lemma WidthPositive(k: nat)
    ensures Width(k) > 0
  {
  }

  lemma WidthGrows(j: nat, k: nat)
    requires j <= k
    ensures Width(j) <= Width(k)
  {
    assert Pow2(3) == 8;
    hide Pow2;
    var i, n := if j < 32 then 3 else j / 32 + 2, k / 32 + 2;
    if k >= 32 && i < n {
      Pow2Grows(i, n);
    }
  }

  /** Bounded waste: a block the search for `r` cannot see is smaller than `r + r / 32`, and
      smaller than `r` itself for small requests. */
  lemma SearchMisses(r: nat, b: nat)
    requires ClassOf(b) < ClassOf(RoundedRequest(r))
    ensures b < RoundedRequest(r)
    ensures b < (if r < SMALL_BLOCK_SIZE then r else r + r / 32)
  {
    ClassHoldsSize(RoundedRequest(r));
    ClassOrder(b, ClassOf(RoundedRequest(r)));
    if r >= SMALL_BLOCK_SIZE {
      RoundingStep(r);
    }
  }

  // ----- alignment and request rounding, on 64-bit words

  /** `align_down` for a power of two: the largest multiple of `align` not above `x`. */
  function AlignDown(x: nat, align: nat): nat
    requires align > 0
  {
    if x < align then 0 else align + AlignDown(x - align, align)
  }

  /** `align_up` for a power of two; the sum wraps at the word size. */
  function AlignUp(x: nat, align: nat): nat
    requires align > 0
  {
    AlignDown((x + align - 1) % WORD_MODULUS, align)
  }

  /** `adjust_request_size`. */
  function AdjustRequestSize(size: nat, align: nat): nat
    requires align > 0
  {
    if size == 0 then
      0
    else
      var aligned := AlignUp(size, align);
      if aligned < BLOCK_SIZE_MAX then (if aligned > BLOCK_SIZE_MIN then aligned else BLOCK_SIZE_MIN) else 0
  }

  /** A rounded request is a legal block size that covers the request, or zero for a request
      of zero or out of range. Only the last seven sizes below the word limit, where the sum
      wraps, are turned into a small request instead. */
  lemma AdjustedRequest(size: nat)
    requires size < WORD_MODULUS
    ensures var r := AdjustRequestSize(size, ALIGN_SIZE);
            && (r == 0 <==> size == 0 || BLOCK_SIZE_MAX - 8 < size <= WORD_MODULUS - 8)
            && (r > 0 ==> BLOCK_SIZE_MIN <= r < BLOCK_SIZE_MAX && r % ALIGN_SIZE == 0)
            && (0 < r < size <==> size > WORD_MODULUS - 8)
            && (r >= size ==> r < size + 8 || r == BLOCK_SIZE_MIN)
  {
    AlignDownMultiple((size + 7) % WORD_MODULUS, 8);
    MultipleOfEight(AlignUp(size, 8), 8);
    if size > WORD_MODULUS - 8 {
      assert (size + 7) % WORD_MODULUS == size + 7 - WORD_MODULUS;
    }
  }

  // ----- the alignment gap of memalign

  ghost predicate PowerOfTwo(n: nat) {
    exists k: nat :: n == Pow2(k)
  }

  lemma PowerOfTwoCases(n: nat)
    requires PowerOfTwo(n)
    ensures n == 1 || n == 2 || n == 4 || n == 8 || n == 16 || (n >= 32 && n % 16 == 0)
  {
    var k: nat :| n == Pow2(k);
    Pow2Values();
    if k >= 5 {
      Pow2Nibble(k - 4);
      Pow2Grows(4, k);
      hide Pow2;
      assert n == 16 * Pow2(k - 4);
    } else if k == 3 {
      assert Pow2(3) == 2 * Pow2(2);
    }
  }

  ghost predicate MultipleOf(x: nat, d: nat)
    requires d > 0
  {
    x == 0 || (d <= x && MultipleOf(x - d, d))
  }

  lemma {:induction false} AlignDownMultiple(x: nat, align: nat)
    requires align > 0
    ensures x - align < AlignDown(x, align) <= x && MultipleOf(AlignDown(x, align), align)
  {
    if x >= align {
      AlignDownMultiple(x - align, align);
    }
  }

  /** A multiple of a multiple of eight is a multiple of eight. */
  lemma {:induction false} MultipleOfEight(x: nat, d: nat)
    requires d > 0 && d % 8 == 0 && MultipleOf(x, d)
    ensures x % 8 == 0
  {
    if x != 0 {
      MultipleOfEight(x - d, d);
    }
  }

  lemma NextMultiple(x: nat, d: nat)
    requires d > 0 && MultipleOf(x, d)
    ensures MultipleOf(x + d, d)
  {
  }

  /** Two multiples less than one step apart are equal. */
  lemma {:induction false} MultiplesApart(x: nat, y: nat, d: nat)
    requires d > 0 && MultipleOf(x, d) && MultipleOf(y, d) && x <= y < x + d
    ensures x == y
  {
    if x != 0 {
      MultiplesApart(x - d, y - d, d);
    }
  }

  /** `align_ptr` for a power of two. */
  function AlignPtr(ptr: nat, align: nat): nat
    requires align > 0
  {
    AlignDown(ptr + align - 1, align)
  }

  lemma AlignPtrFacts(ptr: nat, align: nat)
    requires align > 0
    ensures ptr <= AlignPtr(ptr, align) < ptr + align && MultipleOf(AlignPtr(ptr, align), align)
  {
    AlignDownMultiple(ptr + align - 1, align);
  }

  /** An address that is a multiple of eight passes the alignment checks. */
  lemma AlignedAddress(ptr: nat)
    requires ptr % 8 == 0
    ensures AlignPtr(ptr, 8) == ptr
  {
    AlignPtrFacts(ptr, 8);
    SmallAlign(ptr, 8);
    MultiplesApart(ptr, AlignPtr(ptr, 8), 8);
  }

  const GAP_MINIMUM := 32

  /** How far past the first aligned address memalign looks again. */
  function SecondOffset(gap: int, align: nat): int {
    if GAP_MINIMUM - gap > align then GAP_MINIMUM - gap else align
  }

  /** The distance from a payload to the aligned address memalign chooses in it: the next
      aligned address, or a later one when the first leaves a gap too small for a header. */
  function Gap(ptr: nat, align: nat): int
    requires align > 0
  {
    var aligned := AlignPtr(ptr, align);
    var gap := aligned - ptr;
    if 0 < gap < GAP_MINIMUM then
      AlignPtr(aligned + SecondOffset(gap, align), align) - ptr
    else
      gap
  }

  /** The gap is zero or holds a whole header, ends on an aligned address, and is at most
      24 bytes longer than the alignment. */
  lemma GapFacts(ptr: nat, align: nat)
    requires PowerOfTwo(align) && ptr % ALIGN_SIZE == 0
    ensures align > 0 && GoodGap(ptr, align, Gap(ptr, align))
  {
    hide AlignPtr, MultipleOf;
    PowerOfTwoCases(align);
    var aligned := AlignPtr(ptr, align);
    AlignPtrFacts(ptr, align);
    if align <= ALIGN_SIZE {
      SmallAlign(ptr, align);
      MultiplesApart(ptr, aligned, align);
    } else {
      MultipleOfEight(aligned, align);
      if 0 < aligned - ptr < GAP_MINIMUM {
        SecondGap(ptr, align, aligned);
      } else {
        FirstGap(ptr, align, aligned);
      }
    }
  }

  ghost predicate GoodGap(ptr: nat, align: nat, gap: int)
    requires align > 0
  {
    && gap >= 0 && MultipleOf(ptr + gap, align) && gap % ALIGN_SIZE == 0
    && (gap == 0 || GAP_MINIMUM <= gap <= align + 24)
    && (align <= ALIGN_SIZE ==> gap == 0)
  }

  /** Rounding up gives the least multiple. */
  lemma AlignPtrLeast(ptr: nat, align: nat, x: nat)
    requires align > 0 && MultipleOf(x, align) && ptr <= x
    ensures AlignPtr(ptr, align) <= x
  {
    hide MultipleOf, AlignPtr;
    AlignPtrFacts(ptr, align);
    if x < AlignPtr(ptr, align) {
      MultiplesApart(x, AlignPtr(ptr, align), align);
    }
  }

  /** memalign takes the first aligned address that leaves no gap or one with room for a header. */
  lemma GapLeast(ptr: nat, align: nat, x: nat)
    requires PowerOfTwo(align) && align > 0 && ptr % ALIGN_SIZE == 0
    requires MultipleOf(x, align) && (x == ptr || x >= ptr + GAP_MINIMUM)
    ensures ptr + Gap(ptr, align) <= x
  {
    hide AlignPtr, MultipleOf, PowerOfTwo;
    var aligned := AlignPtr(ptr, align);
    AlignPtrFacts(ptr, align);
    AlignPtrLeast(ptr, align, x);
    var offset := SecondOffset(aligned - ptr, align);
    if 0 < aligned - ptr < GAP_MINIMUM {
      if x < aligned + align {
        MultiplesApart(aligned, x, align);
      }
      AlignPtrLeast(aligned + offset, align, x);
    }
  }

  lemma FirstGap(ptr: nat, align: nat, aligned: nat)
    requires align > ALIGN_SIZE && ptr % 8 == 0 && aligned % 8 == 0 && MultipleOf(aligned, align)
    requires aligned == ptr || GAP_MINIMUM <= aligned - ptr < align
    ensures GoodGap(ptr, align, aligned - ptr)
  {
    assert ptr + (aligned - ptr) == aligned;
  }

  lemma {:induction false} SmallAlign(ptr: nat, align: nat)
    requires ptr % 8 == 0 && (align == 1 || align == 2 || align == 4 || align == 8)
    ensures MultipleOf(ptr, align)
  {
    if ptr != 0 {
      assert ptr >= 8;
      SmallAlign(ptr - 8, align);
      StepUp(ptr - 8, 8, align);
    }
  }

  lemma {:induction false} StepUp(x: nat, n: nat, d: nat)
    requires d > 0 && MultipleOf(x, d) && MultipleOf(n, d)
    ensures MultipleOf(x + n, d)
  {
    if n != 0 {
      StepUp(x, n - d, d);
    }
  }

  /** When the first aligned address is too close, the next choice leaves room for a header. */
  lemma SecondGap(ptr: nat, align: nat, aligned: nat)
    requires align == 16 || (align >= 32 && align % 16 == 0)
    requires ptr % 8 == 0 && aligned % 8 == 0 && ptr < aligned < ptr + 32 && aligned < ptr + align
    requires MultipleOf(aligned, align)
    ensures GoodGap(ptr, align, AlignPtr(aligned + SecondOffset(aligned - ptr, align), align) - ptr)
  {
    hide AlignPtr, MultipleOf;
    var offset := SecondOffset(aligned - ptr, align);
    AlignPtrFacts(aligned + offset, align);
    var next := AlignPtr(aligned + offset, align);
    MultipleOfEight(next, align);
    if align >= 32 {
      NextMultiple(aligned, align);
      MultiplesApart(aligned + align, next, align);
    }
    SecondGapBounds(ptr, align, aligned, offset, next);
    assert ptr + (next - ptr) == next;
  }

  lemma SecondGapBounds(ptr: nat, align: nat, aligned: nat, offset: nat, next: nat)
    requires align == 16 || align >= 32
    requires ptr % 8 == 0 && aligned % 8 == 0 && next % 8 == 0 && ptr < aligned < ptr + 32 && aligned < ptr + align
    requires offset == SecondOffset(aligned - ptr, align)
    requires aligned + offset <= next < aligned + offset + align && (align >= 32 ==> next == aligned + align)
    ensures (next - ptr) % 8 == 0 && GAP_MINIMUM <= next - ptr <= align + 24
  {
  }

  /** The size memalign searches for. */
  function AlignedSize(align: nat, size: nat): nat
    requires align > 0
  {
    var adjust := AdjustRequestSize(size, ALIGN_SIZE);
    if adjust > 0 && align > ALIGN_SIZE then AdjustRequestSize(adjust + align + GAP_MINIMUM, align) else adjust
  }

  /** The searched size is a block size with room for the request behind any gap, and for a
      block of its own in the gap. */
  lemma AlignedSizeFacts(align: nat, size: nat)
    requires PowerOfTwo(align) && align <= WORD_MODULUS / 4 && size < WORD_MODULUS
    ensures align > 0
    ensures var r := AlignedSize(align, size);
            var adjust := AdjustRequestSize(size, ALIGN_SIZE);
            r > 0 ==>
              && adjust > 0 && BLOCK_SIZE_MIN <= r < BLOCK_SIZE_MAX && r % ALIGN_SIZE == 0 && adjust <= r
              && (align > ALIGN_SIZE ==> adjust + align + GAP_MINIMUM <= r)
  {
    PowerOfTwoCases(align);
    AdjustedRequest(size);
    hide PowerOfTwo, AdjustRequestSize;
    if AdjustRequestSize(size, ALIGN_SIZE) > 0 && align > ALIGN_SIZE {
      PaddedRequest(AdjustRequestSize(size, ALIGN_SIZE), align);
    }
  }

  /** For every alignment that is a power of two below the word limit: the searched size has room
      for the request behind any gap, or the request is refused, if and only if the alignment is
      not the highest bit. There the sum wraps and memalign searches for the smallest block. */
  lemma AlignedSizeExact(align: nat, size: nat)
    requires PowerOfTwo(align) && ALIGN_SIZE < align < WORD_MODULUS && size < WORD_MODULUS
             && AdjustRequestSize(size, ALIGN_SIZE) > 0
    ensures var r := AlignedSize(align, size);
            var adjust := AdjustRequestSize(size, ALIGN_SIZE);
            && (r == 0 || adjust + align + GAP_MINIMUM <= r <==> align < WORD_MODULUS / 2)
            && (align == WORD_MODULUS / 2 ==> r == BLOCK_SIZE_MIN)
  {
    AdjustedRequest(size);
    BelowHighestBit(align);
    PowerOfTwoCases(align);
    hide PowerOfTwo, AdjustRequestSize;
    if align <= WORD_MODULUS / 4 {
      PaddedRequest(AdjustRequestSize(size, ALIGN_SIZE), align);
    } else {
      PaddedWraps(AdjustRequestSize(size, ALIGN_SIZE));
    }
  }

  /** Nothing more is searched for than needed: the request itself up to the base alignment, and
      above it the least multiple of the alignment with room for the request, the alignment and a
      header. The request is refused exactly if that is out of range. */
  lemma AlignedSizeLeast(align: nat, size: nat)
    requires PowerOfTwo(align) && 0 < align <= WORD_MODULUS / 4 && size < WORD_MODULUS
    ensures var r := AlignedSize(align, size);
            var adjust := AdjustRequestSize(size, ALIGN_SIZE);
            if adjust == 0 || align <= ALIGN_SIZE then r == adjust
            else
              var want := adjust + align + GAP_MINIMUM;
              && (r > 0 ==> MultipleOf(r, align) && want <= r < want + align)
              && (r == 0 ==> forall x :: want <= x && MultipleOf(x, align) ==> x >= BLOCK_SIZE_MAX)
  {
    PowerOfTwoCases(align);
    AdjustedRequest(size);
    hide PowerOfTwo, MultipleOf;
    var adjust := AdjustRequestSize(size, ALIGN_SIZE);
    if adjust > 0 && align > ALIGN_SIZE {
      var want := adjust + align + GAP_MINIMUM;
      assert (want + align - 1) % WORD_MODULUS == want + align - 1;
      AlignDownMultiple(want + align - 1, align);
      assert AlignUp(want, align) == AlignPtr(want, align);
      hide AdjustRequestSize, AlignDown;
      forall x | want <= x && MultipleOf(x, align)
        ensures x >= AlignUp(want, align)
      {
        AlignPtrLeast(want, align, x);
      }
    }
  }

  lemma BelowHighestBit(n: nat)
    requires PowerOfTwo(n) && n < WORD_MODULUS
    ensures n <= WORD_MODULUS / 4 || n == WORD_MODULUS / 2
  {
    var k: nat :| n == Pow2(k);
    HighestBits();
    hide Pow2;
    if k < 62 {
      Pow2Grows(k, 62);
    } else if k > 64 {
      Pow2Grows(64, k);
    }
  }

  lemma HighestBits()
    ensures Pow2(62) == WORD_MODULUS / 4 && Pow2(63) == WORD_MODULUS / 2 && Pow2(64) == WORD_MODULUS
  {
    Pow2Values();
    Pow2Nibble(32);
    Pow2Nibble(36);
    Pow2Nibble(40);
    Pow2Nibble(44);
    Pow2Nibble(48);
    Pow2Nibble(52);
    Pow2Nibble(56);
    assert Pow2(61) == 2 * Pow2(60) && Pow2(62) == 2 * Pow2(61) && Pow2(63) == 2 * Pow2(62) && Pow2(64) == 2 * Pow2(63);
  }

  lemma PaddedWraps(adjust: nat)
    requires BLOCK_SIZE_MIN <= adjust < BLOCK_SIZE_MAX
    ensures AdjustRequestSize(adjust + WORD_MODULUS / 2 + GAP_MINIMUM, WORD_MODULUS / 2) == BLOCK_SIZE_MIN
  {
    var x := adjust + WORD_MODULUS / 2 + GAP_MINIMUM;
    assert (x + WORD_MODULUS / 2 - 1) % WORD_MODULUS == adjust + GAP_MINIMUM - 1;
  }

  lemma PaddedRequest(adjust: nat, align: nat)
    requires BLOCK_SIZE_MIN <= adjust < BLOCK_SIZE_MAX && 0 < align <= WORD_MODULUS / 4 && align % 8 == 0
    ensures var r := AdjustRequestSize(adjust + align + GAP_MINIMUM, align);
            r > 0 ==> adjust + align + GAP_MINIMUM <= r < BLOCK_SIZE_MAX && r % 8 == 0
  {
    hide AlignUp;
    AlignUpFacts(adjust + align + GAP_MINIMUM, align);
  }

  lemma AlignUpFacts(x: nat, align: nat)
    requires align > 0 && align % 8 == 0 && x + align <= WORD_MODULUS
    ensures x <= AlignUp(x, align) && AlignUp(x, align) % 8 == 0
  {
    assert (x + align - 1) % WORD_MODULUS == x + align - 1;
    AlignDownMultiple(x + align - 1, align);
    MultipleOfEight(AlignUp(x, align), align);
  }
}
