/** Unsigned words as natural numbers: powers of two, single bits, and the bit searches
    `htfh_ffs` and `htfh_fls` of the allocator, with the generic fallbacks. */
module Bits {

  function Pow2(k: nat): (p: nat)
    ensures p >= 1
  {
    if k == 0 then 1 else 2 * Pow2(k - 1)
  }

  lemma {:induction false} Pow2Grows(i: nat, j: nat)
    requires i < j
    ensures 2 * Pow2(i) <= Pow2(j)
  {
    if i + 1 < j {
      Pow2Grows(i, j - 1);
    }
  }

  lemma Pow2Nibble(k: nat)
    ensures Pow2(k + 4) == 0x10 * Pow2(k)
  {
    assert Pow2(k + 1) == 2 * Pow2(k) && Pow2(k + 2) == 2 * Pow2(k + 1);
    assert Pow2(k + 3) == 2 * Pow2(k + 2) && Pow2(k + 4) == 2 * Pow2(k + 3);
  }

  lemma Pow2Values()
    ensures Pow2(0) == 1 && Pow2(1) == 2 && Pow2(2) == 4 && Pow2(4) == 0x10 && Pow2(8) == 0x100
    ensures Pow2(16) == 0x1_0000 && Pow2(32) == 0x1_0000_0000
  {
    Pow2Nibble(0);
    Pow2Nibble(4);
    Pow2Nibble(8);
    Pow2Nibble(12);
    Pow2Nibble(16);
    Pow2Nibble(20);
    Pow2Nibble(24);
    Pow2Nibble(28);
    assert Pow2(1) == 2 * Pow2(0) && Pow2(2) == 2 * Pow2(1);
  }

  // ----- single bits

  /** Bit `i` of the word is set. */
  predicate Bit(w: nat, i: nat) {
    if i == 0 then w % 2 == 1 else Bit(w / 2, i - 1)
  }

  /** `w | (1U << i)`. */
  function SetBit(w: nat, i: nat): nat {
    if i == 0 then w / 2 * 2 + 1 else 2 * SetBit(w / 2, i - 1) + w % 2
  }

  /** `w & ~(1U << i)`. */
  function ClearBit(w: nat, i: nat): nat {
    if i == 0 then w / 2 * 2 else 2 * ClearBit(w / 2, i - 1) + w % 2
  }

  /** `w & (~0U << i)`: the word masked with `largest_bit_class(i)`. */
  function KeepFrom(w: nat, i: nat): nat {
    if i == 0 then w else 2 * KeepFrom(w / 2, i - 1)
  }

  lemma {:induction false} SetBitBits(w: nat, i: nat, j: nat)
    ensures Bit(SetBit(w, i), j) <==> Bit(w, j) || i == j
  {
    if i > 0 && j > 0 {
      SetBitBits(w / 2, i - 1, j - 1);
    }
  }

  lemma {:induction false} ClearBitBits(w: nat, i: nat, j: nat)
    ensures Bit(ClearBit(w, i), j) <==> Bit(w, j) && i != j
  {
    if i > 0 && j > 0 {
      ClearBitBits(w / 2, i - 1, j - 1);
    }
  }

  lemma {:induction false} KeepFromBits(w: nat, i: nat, j: nat)
    ensures Bit(KeepFrom(w, i), j) <==> Bit(w, j) && i <= j
  {
    if i > 0 && j > 0 {
      KeepFromBits(w / 2, i - 1, j - 1);
    }
  }

  /** A zero word has no bit set. */
  lemma {:induction false} ZeroHasNoBit(j: nat)
    ensures !Bit(0, j)
  {
    if j > 0 {
      ZeroHasNoBit(j - 1);
    }
  }

  // ----- lowest and highest set bit

  /** `htfh_ffs` of a non-zero word: the index of its lowest set bit. */
  function Ffs(w: nat): nat
    requires w > 0
  {
    if w % 2 == 1 then 0 else 1 + Ffs(w / 2)
  }

  lemma {:induction false} FfsIsLowest(w: nat)
    requires w > 0
    ensures Bit(w, Ffs(w))
    ensures forall j :: 0 <= j < Ffs(w) ==> !Bit(w, j)
  {
    if w % 2 == 0 {
      FfsIsLowest(w / 2);
      forall j | 0 <= j < Ffs(w)
        ensures !Bit(w, j)
      {
        if j > 0 {
          assert !Bit(w / 2, j - 1);
        }
      }
    }
  }

  /** `htfh_fls` of a non-zero word: the index of its highest set bit. */
  function Fls(w: nat): nat
    requires w > 0
  {
    if w == 1 then 0 else 1 + Fls(w / 2)
  }

  lemma {:induction false} FlsBounds(w: nat)
    requires w > 0
    ensures Pow2(Fls(w)) <= w < 2 * Pow2(Fls(w))
  {
    if w > 1 {
      FlsBounds(w / 2);
    }
  }

  lemma FlsUnique(w: nat, k: nat)
    requires Pow2(k) <= w < 2 * Pow2(k)
    ensures Fls(w) == k
  {
    FlsBounds(w);
    if Fls(w) < k {
      Pow2Grows(Fls(w), k);
    } else if k < Fls(w) {
      Pow2Grows(k, Fls(w));
    }
  }

  /** The value of `w & (~w + 1)`: the word's lowest set bit on its own. */
  function LowBit(w: nat): nat
    requires w > 0
  {
    if w % 2 == 1 then 1 else 2 * LowBit(w / 2)
  }

  lemma {:induction false} LowBitIsPower(w: nat)
    requires w > 0
    ensures LowBit(w) == Pow2(Ffs(w)) <= w
  {
    if w % 2 == 0 {
      LowBitIsPower(w / 2);
    }
  }

  /** Shifting left by `k` moves the highest bit up by `k`. */
  lemma {:induction false} FlsShift(w: nat, k: nat)
    requires w > 0
    ensures w * Pow2(k) > 0 && Fls(w * Pow2(k)) == Fls(w) + k
  {
    if k > 0 {
      FlsShift(w, k - 1);
      assert w * Pow2(k) == 2 * (w * Pow2(k - 1));
    }
  }

  /** `htfh_fls_generic`: a binary search for the highest set bit of a 32-bit word, counting
      from one, and zero for the zero word. A mask test `!(word & 0xffff0000)` holds exactly
      when `word < 0x10000`, and likewise for the narrower masks. */
  method FlsGeneric(w: nat) returns (bit: nat)
    requires w < 0x1_0000_0000
    ensures bit == FlsCount(w)
  {
    var word := w;
    bit := 32;
    if word == 0 {
      bit := bit - 1;
    }
    Literals(word);
    if word < 0x1_0000 {
      word, bit := word * 0x1_0000, bit - 16;
    }
    assert FlsCount(word) - FlsCount(w) == (if w == 0 then 15 else 32) - bit;
    Literals(word);
    if word < 0x100_0000 {
      word, bit := word * 0x100, bit - 8;
    }
    assert FlsCount(word) - FlsCount(w) == (if w == 0 then 7 else 32) - bit;
    Literals(word);
    if word < 0x1000_0000 {
      word, bit := word * 0x10, bit - 4;
    }
    assert FlsCount(word) - FlsCount(w) == (if w == 0 then 3 else 32) - bit;
    Literals(word);
    if word < 0x4000_0000 {
      word, bit := word * 4, bit - 2;
    }
    assert FlsCount(word) - FlsCount(w) == (if w == 0 then 1 else 32) - bit;
    Literals(word);
    if word < 0x8000_0000 {
      word, bit := word * 2, bit - 1;
    }
    TopBit(word);
  }

  /** The bit count `fls` is specified by: one above the highest set bit. */
  function FlsCount(w: nat): nat {
    if w == 0 then 0 else Fls(w) + 1
  }

  lemma Literals(w: nat)
    ensures w > 0 ==> FlsCount(w * 0x1_0000) == FlsCount(w) + 16 && FlsCount(w * 0x100) == FlsCount(w) + 8
    ensures w > 0 ==> FlsCount(w * 0x10) == FlsCount(w) + 4 && FlsCount(w * 4) == FlsCount(w) + 2
    ensures w > 0 ==> FlsCount(w * 2) == FlsCount(w) + 1
  {
    Pow2Values();
    if w > 0 {
      FlsShift(w, 16);
      FlsShift(w, 8);
      FlsShift(w, 4);
      FlsShift(w, 2);
      FlsShift(w, 1);
    }
  }

  lemma TopBit(w: nat)
    ensures 0x8000_0000 <= w < 0x1_0000_0000 ==> FlsCount(w) == 32
  {
    Pow2Values();
    assert Pow2(32) == 2 * Pow2(31);
    if 0x8000_0000 <= w < 0x1_0000_0000 {
      FlsUnique(w, 31);
    }
  }

  /** The generic `htfh_ffs`, in terms of `fls`. */
  method FfsGeneric(w: nat) returns (r: nat)
    requires 0 < w < 0x1_0000_0000
    ensures r == Ffs(w)
  {
    LowBitIsPower(w);
    var bit := FlsGeneric(LowBit(w));
    FlsUnique(LowBit(w), Ffs(w));
    r := bit - 1;
  }
}
