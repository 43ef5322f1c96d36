/** The header writes of block.c, each shown to track one step of the mathematical pool. */
module TlsfHeaders {
  import opened Mapping
  import opened TlsfPool
  import opened TlsfOps
  import opened TlsfTheorems
  import opened TlsfMemory
  import opened Words

  /** The memory, minus one header in progress, agrees with the pool. */
  ghost predicate HeadersBut(m: Memory, p: Pool, x: int) {
    forall a {:trigger HeaderOk(m, p, a)} :: a in p.blocks && a != x ==> HeaderOk(m, p, a)
  }

  /** Writing a size word, or the back link behind a free block, touches no list link and no
      guarded word. */
  lemma HeaderWrite(m: Memory, p: Pool, nil: int, loose: set<int>, a: int, x: int, v: int)
    requires Partial(p, loose) && Below(p, nil) && Links(m, p, nil) && a in p.blocks
    requires x == a + 8 || (p.blocks[a].free && x == Next(p, a))
    ensures Links(m[x := v], p, nil) && Undisturbed(p, nil, m, m[x := v])
  {
    assert Linked(p, a);
    HeaderWriteKeepsLinks(m, p, nil, loose, a, x, v);
    if x == a + 8 {
      SizeWordUnguarded(p, nil, a);
    } else {
      FreeWordUnguarded(p, nil, a, x);
    }
  }

  /** Two header words are the same word only for the same block. */
  lemma HeaderWordsDiffer(p: Pool, a: int, b: int)
    requires Tiled(p) && a in p.blocks && b in p.blocks && a != b
    ensures a + 8 != b + 8 && a != b + 8
  {
    assert Linked(p, a) && Linked(p, b);
    WordsApart(p, a, b);
  }

  /** What the flag tests and updates of block.c see in a header. */
  lemma HeaderDecoded(m: Memory, p: Pool, a: int)
    requires Aligned(p) && Headers(m, p) && a in p.blocks
    ensures var w := Read(m, a + 8);
            var s, f, v := p.blocks[a].size, p.blocks[a].free, PrevFree(p, a);
            && HeaderOk(m, p, a)
            && SizeOf(w) == s && FreeBit(w) == f && PrevBit(w) == v
            && WithFree(w) == Encode(s, true, v) && WithUsed(w) == Encode(s, false, v)
            && WithPrevFree(w) == Encode(s, f, true) && WithPrevUsed(w) == Encode(s, f, false)
  {
    assert HeaderOk(m, p, a);
    hide PrevFree;
    Decoded(p.blocks[a].size, p.blocks[a].free, PrevFree(p, a));
  }

  // ----- block_mark_as_free, block_mark_as_used

  function MarkFreeWrites(m: Memory, a: int, n: int): Memory {
    var m1 := m[n := a];
    var m2 := m1[n + 8 := WithPrevFree(Read(m1, n + 8))];
    m2[a + 8 := WithFree(Read(m2, a + 8))]
  }

  lemma MarkedFree(m: Memory, p: Pool, nil: int, a: int)
    requires Inv(p) && Below(p, nil) && Headers(m, p) && Links(m, p, nil) && a in Live(p)
    ensures var q := SetFree(p, a, true);
            var m' := MarkFreeWrites(m, a, Next(p, a));
            && Partial(q, {a}) && Headers(m', q) && Links(m', q, nil) && Undisturbed(q, nil, m, m')
  {
    hide WithPrevFree, WithFree;
    var n := Next(p, a);
    var q := SetFree(p, a, true);
    assert Linked(p, a);
    MarkFreeKeeps(p, {}, a);
    assert {} + {a} == {a};
    forall x | x in q.blocks
      ensures HeaderOk(MarkFreeWrites(m, a, n), q, x)
    {
      MarkedFreeHeader(m, p, a, x);
    }
    MarkFreeFrame(m, q, nil, {a}, a);
  }

  lemma UndisturbedChain(p: Pool, nil: int, m: Memory, m1: Memory, m2: Memory, m3: Memory)
    requires Undisturbed(p, nil, m, m1) && Undisturbed(p, nil, m1, m2) && Undisturbed(p, nil, m2, m3)
    ensures Undisturbed(p, nil, m, m3)
  {
    forall w | Guarded(p, nil, w)
      ensures Read(m3, w) == Read(m, w)
    {
      assert Read(m2, w) == Read(m1, w);
    }
  }

  lemma MarkedFreeHeader(m: Memory, p: Pool, a: int, x: int)
    requires Tiled(p) && Aligned(p) && Headers(m, p) && a in Live(p) && x in p.blocks
    ensures HeaderOk(MarkFreeWrites(m, a, Next(p, a)), SetFree(p, a, true), x)
  {
    hide WithFree, WithUsed, WithPrevFree, WithPrevUsed, SizeOf, FreeBit, PrevBit, Encode, Aligned;
    var n := Next(p, a);
    assert Linked(p, a);
    if x == a || x == n {
      assert Linked(p, x);
      HeaderDecoded(m, p, a);
      HeaderDecoded(m, p, n);
      HeaderWordsDiffer(p, a, n);
      HeaderWordsDiffer(p, n, a);
    } else {
      MarkedFreeOther(m, p, a, x);
    }
  }

  lemma MarkedFreeOther(m: Memory, p: Pool, a: int, x: int)
    requires Tiled(p) && Headers(m, p) && a in Live(p) && x in p.blocks && x != a && x != Next(p, a)
    ensures HeaderOk(MarkFreeWrites(m, a, Next(p, a)), SetFree(p, a, true), x)
  {
    hide WithFree, WithUsed, WithPrevFree, WithPrevUsed, Encode;
    var n := Next(p, a);
    assert Linked(p, a) && Linked(p, x);
    assert HeaderOk(m, p, x);
    HeaderWordsDiffer(p, x, a);
    HeaderWordsDiffer(p, x, n);
    HeaderWordsDiffer(p, n, x);
  }

  function MarkUsedWrites(m: Memory, a: int, n: int): Memory {
    var m1 := m[n + 8 := WithPrevUsed(Read(m, n + 8))];
    m1[a + 8 := WithUsed(Read(m1, a + 8))]
  }

  lemma MarkedUsed(m: Memory, p: Pool, nil: int, a: int)
    requires Partial(p, {a}) && Below(p, nil) && Headers(m, p) && Links(m, p, nil)
    ensures Next(p, a) in p.blocks
    ensures var q := SetFree(p, a, false);
            var m' := MarkUsedWrites(m, a, Next(p, a));
            && Headers(m', q) && Links(m', q, nil) && Undisturbed(p, nil, m, m')
  {
    hide WithPrevUsed, WithUsed;
    assert Linked(p, a);
    MarkedUsedFrame(m, p, nil, a);
    forall x | x in p.blocks
      ensures HeaderOk(MarkUsedWrites(m, a, Next(p, a)), SetFree(p, a, false), x)
    {
      MarkedUsedHeader(m, p, a, x);
    }
  }

  lemma MarkedUsedFrame(m: Memory, p: Pool, nil: int, a: int)
    requires Partial(p, {a}) && Below(p, nil) && Links(m, p, nil) && Next(p, a) in p.blocks
    ensures var m' := MarkUsedWrites(m, a, Next(p, a));
            Links(m', p, nil) && Undisturbed(p, nil, m, m')
  {
    hide WithPrevUsed, WithUsed;
    var n := Next(p, a);
    var v := WithPrevUsed(Read(m, n + 8));
    var m1 := m[n + 8 := v];
    HeaderWrite(m, p, nil, {a}, n, n + 8, v);
    HeaderWrite(m1, p, nil, {a}, a, a + 8, WithUsed(Read(m1, a + 8)));
    UndisturbedChain(p, nil, m, m, m1, MarkUsedWrites(m, a, n));
  }

  lemma MarkedUsedHeader(m: Memory, p: Pool, a: int, x: int)
    requires Tiled(p) && Aligned(p) && Headers(m, p) && a in p.blocks && a != p.end && x in p.blocks
    ensures HeaderOk(MarkUsedWrites(m, a, Next(p, a)), SetFree(p, a, false), x)
  {
    hide WithFree, WithUsed, WithPrevFree, WithPrevUsed, SizeOf, FreeBit, PrevBit, Encode, Aligned;
    var n := Next(p, a);
    assert Linked(p, a);
    if x == a || x == n {
      assert Linked(p, x);
      HeaderDecoded(m, p, a);
      HeaderDecoded(m, p, n);
      HeaderWordsDiffer(p, a, n);
      HeaderWordsDiffer(p, n, a);
    } else {
      MarkedUsedOther(m, p, a, x);
    }
  }

  lemma MarkedUsedOther(m: Memory, p: Pool, a: int, x: int)
    requires Tiled(p) && Headers(m, p) && a in p.blocks && a != p.end && x in p.blocks && x != a && x != Next(p, a)
    ensures HeaderOk(MarkUsedWrites(m, a, Next(p, a)), SetFree(p, a, false), x)
  {
    hide WithFree, WithUsed, WithPrevFree, WithPrevUsed, Encode;
    var n := Next(p, a);
    assert Linked(p, a) && Linked(p, x);
    assert HeaderOk(m, p, x);
    HeaderWordsDiffer(p, x, a);
    HeaderWordsDiffer(p, x, n);
    HeaderWordsDiffer(p, n, x);
  }

  // ----- block_absorb

  function AbsorbWrites(m: Memory, a: int, b: int, n: int): Memory {
    m[a + 8 := Read(m, a + 8) + SizeOf(Read(m, b + 8)) + 8][n := a]
  }

  lemma Absorbed(m: Memory, p: Pool, nil: int, loose: set<int>, a: int)
    requires Partial(p, loose) && Below(p, nil) && Headers(m, p) && Links(m, p, nil)
    requires a in loose && Next(p, a) in loose
    ensures Next(p, Next(p, a)) in p.blocks
    ensures var q := Absorb(p, a);
            var m' := AbsorbWrites(m, a, Next(p, a), Next(p, Next(p, a)));
            && Headers(m', q) && Links(m', q, nil) && Undisturbed(p, nil, m, m')
  {
    assert Linked(p, a) && Linked(p, Next(p, a));
    AbsorbedFrame(m, p, nil, loose, a);
    var q := Absorb(p, a);
    forall x | x in q.blocks
      ensures HeaderOk(AbsorbWrites(m, a, Next(p, a), Next(p, Next(p, a))), q, x)
    {
      AbsorbedHeader(m, p, a, x);
    }
  }

  lemma AbsorbedFrame(m: Memory, p: Pool, nil: int, loose: set<int>, a: int)
    requires Partial(p, loose) && Below(p, nil) && Links(m, p, nil)
    requires a in loose && Next(p, a) in loose && Next(p, Next(p, a)) in p.blocks
    ensures var m' := AbsorbWrites(m, a, Next(p, a), Next(p, Next(p, a)));
            Links(m', p, nil) && Undisturbed(p, nil, m, m')
  {
    hide SizeOf;
    var b := Next(p, a);
    assert Linked(p, a) && Linked(p, b);
    var v := Read(m, a + 8) + SizeOf(Read(m, b + 8)) + 8;
    var m1 := m[a + 8 := v];
    HeaderWrite(m, p, nil, loose, a, a + 8, v);
    HeaderWrite(m1, p, nil, loose, b, Next(p, b), a);
    UndisturbedChain(p, nil, m, m, m1, m1[Next(p, b) := a]);
  }

  lemma AbsorbedHeader(m: Memory, p: Pool, a: int, x: int)
    requires Tiled(p) && Aligned(p) && Headers(m, p)
    requires a in p.blocks && p.blocks[a].free && a != p.end
    requires Next(p, a) in p.blocks && p.blocks[Next(p, a)].free && Next(p, Next(p, a)) in p.blocks
    requires x in Absorb(p, a).blocks
    ensures HeaderOk(AbsorbWrites(m, a, Next(p, a), Next(p, Next(p, a))), Absorb(p, a), x)
  {
    hide SizeOf, FreeBit, PrevBit, WithFree, WithUsed, WithPrevFree, WithPrevUsed, Aligned;
    var b := Next(p, a);
    var n := Next(p, b);
    assert Linked(p, a) && Linked(p, b) && Linked(p, x);
    HeaderDecoded(m, p, b);
    assert HeaderOk(m, p, x) && HeaderOk(m, p, a);
    HeaderWordsDiffer(p, n, a);
    if x == a {
    } else {
      HeaderWordsDiffer(p, a, x);
      HeaderWordsDiffer(p, x, a);
      if x != n {
        HeaderWordsDiffer(p, n, x);
      }
    }
  }

  // ----- block_split

  /** The writes of `block_split`, which cuts `a` at `r` and marks the rest free. */
  function SplitWrites(m: Memory, a: int, size: int, r: int, rest: int, n: int): Memory {
    var m1 := m[r + 8 := WithSize(Read(m, r + 8), rest)];
    var m2 := m1[a + 8 := WithSize(Read(m1, a + 8), size)];
    MarkFreeWrites(m2, r, n)
  }

  /** `a` is in hand and can be cut after `size` bytes. */
  ghost predicate Splittable(p: Pool, loose: set<int>, a: int, size: int) {
    && Partial(p, loose) && a in loose
    && BLOCK_SIZE_MIN <= size && size % ALIGN_SIZE == 0 && size + 8 + BLOCK_SIZE_MIN <= p.blocks[a].size
  }

  /** After `block_split` only the new block's header is unfinished: its back link and
      previous-free bit still hold old payload. */
  lemma SplitHeaders(m: Memory, p: Pool, nil: int, loose: set<int>, a: int, size: int)
    requires Splittable(p, loose, a, size) && Below(p, nil) && Headers(m, p) && Links(m, p, nil)
    ensures Next(p, a) in p.blocks
    ensures var q := Split(p, a, size);
            var r := a + 8 + size;
            var m' := SplitWrites(m, a, size, r, p.blocks[a].size - size - 8, Next(p, a));
            && Partial(q, loose + {r}) && HeadersBut(m', q, r)
            && Read(m', r + 8) == Encode(q.blocks[r].size, true, PrevBit(Read(m, r + 8)))
            && Links(m', q, nil) && Undisturbed(p, nil, m, m')
  {
    hide WithFree, WithUsed, WithPrevFree, WithPrevUsed, WithSize, SizeOf, FreeBit, PrevBit, Encode, Aligned;
    SplitTiles(p, a, size);
    SplitKeeps(p, loose, a, size);
    SplitFrame(m, p, nil, loose, a, size);
    var r := a + 8 + size;
    var q := Split(p, a, size);
    forall x | x in q.blocks && x != r
      ensures HeaderOk(SplitWrites(m, a, size, r, p.blocks[a].size - size - 8, Next(p, a)), q, x)
    {
      SplitHeader(m, p, loose, a, size, x);
    }
    SplitRest(m, p, loose, a, size);
  }

  lemma SplitFrame(m: Memory, p: Pool, nil: int, loose: set<int>, a: int, size: int)
    requires Splittable(p, loose, a, size) && Below(p, nil) && Links(m, p, nil) && Next(p, a) in p.blocks
    ensures var q := Split(p, a, size);
            var m' := SplitWrites(m, a, size, a + 8 + size, p.blocks[a].size - size - 8, Next(p, a));
            Links(m', q, nil) && Undisturbed(p, nil, m, m')
  {
    hide WithFree, WithPrevFree, WithSize;
    SplitTiles(p, a, size);
    SplitKeeps(p, loose, a, size);
    var r := a + 8 + size;
    var q := Split(p, a, size);
    var rest := p.blocks[a].size - size - 8;
    var m1 := m[r + 8 := WithSize(Read(m, r + 8), rest)];
    var m2 := m1[a + 8 := WithSize(Read(m1, a + 8), size)];
    HeaderWrite(m, q, nil, loose + {r}, r, r + 8, WithSize(Read(m, r + 8), rest));
    HeaderWrite(m1, q, nil, loose + {r}, a, a + 8, WithSize(Read(m1, a + 8), size));
    assert Next(q, r) == Next(p, a);
    MarkFreeFrame(m2, q, nil, loose + {r}, r);
    var m' := MarkFreeWrites(m2, r, Next(p, a));
    UndisturbedChain(q, nil, m, m1, m2, m');
    SplitSameLive(p, a, size);
    UndisturbedTrans(p, q, nil, m, m, m');
  }

  lemma MarkFreeFrame(m: Memory, q: Pool, nil: int, loose: set<int>, r: int)
    requires Partial(q, loose) && Below(q, nil) && Links(m, q, nil) && r in loose
    ensures var m' := MarkFreeWrites(m, r, Next(q, r));
            Links(m', q, nil) && Undisturbed(q, nil, m, m')
  {
    hide WithPrevFree, WithFree;
    var n := Next(q, r);
    assert Linked(q, r);
    var m1 := m[n := r];
    var v2 := WithPrevFree(Read(m1, n + 8));
    var m2 := m1[n + 8 := v2];
    var v3 := WithFree(Read(m2, r + 8));
    HeaderWrite(m, q, nil, loose, r, n, r);
    HeaderWrite(m1, q, nil, loose, n, n + 8, v2);
    HeaderWrite(m2, q, nil, loose, r, r + 8, v3);
    UndisturbedChain(q, nil, m, m1, m2, m2[r + 8 := v3]);
  }

  lemma SplitSameLive(p: Pool, a: int, size: int)
    requires Tiled(p) && a in p.blocks && p.blocks[a].free && a != p.end
    requires Next(p, a) in p.blocks && a + 8 + size !in p.blocks
    ensures SameLive(p, Split(p, a, size))
  {
  }

  lemma SplitHeader(m: Memory, p: Pool, loose: set<int>, a: int, size: int, x: int)
    requires Splittable(p, loose, a, size) && Headers(m, p)
    requires Next(p, a) in p.blocks && a + 8 + size !in p.blocks && x in p.blocks
    ensures HeaderOk(SplitWrites(m, a, size, a + 8 + size, p.blocks[a].size - size - 8, Next(p, a)),
            Split(p, a, size), x)
  {
    hide WithFree, WithUsed, WithPrevFree, WithPrevUsed, WithSize, SizeOf, FreeBit, PrevBit, Encode, Aligned;
    var r, n := a + 8 + size, Next(p, a);
    assert Linked(p, a) && Linked(p, x);
    if x == a {
      HeaderDecoded(m, p, a);
      HeaderDecoded(m, p, n);
      Resized(Read(m, a + 8), size);
    } else if x == n {
      HeaderDecoded(m, p, n);
      HeaderDecoded(m, p, a);
      HeaderWordsDiffer(p, a, n);
    } else {
      assert HeaderOk(m, p, x);
      WordsApart(p, a, x);
      HeaderWordsDiffer(p, x, n);
      HeaderWordsDiffer(p, n, x);
    }
  }

  lemma SplitRest(m: Memory, p: Pool, loose: set<int>, a: int, size: int)
    requires Splittable(p, loose, a, size)
    ensures var r := a + 8 + size;
            var rest := p.blocks[a].size - size - 8;
            Read(SplitWrites(m, a, size, r, rest, Next(p, a)), r + 8) == Encode(rest, true, PrevBit(Read(m, r + 8)))
  {
    var r := a + 8 + size;
    var rest := p.blocks[a].size - size - 8;
    var w := Read(m, r + 8);
    Resized(w, rest);
    Decoded(rest, FreeBit(w), PrevBit(w));
    hide WithFree, WithPrevFree, WithSize, FreeBit, PrevBit, Encode, Aligned;
  }

  /** The last two writes of a split, in either order: the new block points back to `a` and
      knows that it is free. */
  lemma SplitFinished(m: Memory, q: Pool, nil: int, loose: set<int>, a: int, rest: int, stale: bool)
    requires Partial(q, loose) && Below(q, nil) && a in loose && Next(q, a) in loose && Links(m, q, nil)
    requires rest == q.blocks[Next(q, a)].size && HeadersBut(m, q, Next(q, a))
    requires Read(m, Next(q, a) + 8) == Encode(rest, true, stale)
    ensures var r := Next(q, a);
            var v := WithPrevFree(Read(m, r + 8));
            && m[r := a][r + 8 := v] == m[r + 8 := v][r := a]
            && Headers(m[r := a][r + 8 := v], q) && Links(m[r := a][r + 8 := v], q, nil)
            && Undisturbed(q, nil, m, m[r := a][r + 8 := v])
  {
    hide WithFree, WithUsed, WithPrevFree, WithPrevUsed, WithSize, SizeOf, FreeBit, PrevBit, Encode, Aligned;
    var r := Next(q, a);
    assert Linked(q, a);
    RestDecoded(q, r, stale);
    var v := WithPrevFree(Read(m, r + 8));
    SplitFinishedFrame(m, q, nil, loose, a, v);
    forall x | x in q.blocks && x != r
      ensures HeaderOk(m[r := a][r + 8 := v], q, x)
    {
      assert HeaderOk(m, q, x);
      SplitFinishedOther(m, q, a, v, x);
    }
    assert HeaderOk(m[r := a][r + 8 := v], q, r);
  }

  lemma RestDecoded(q: Pool, r: int, stale: bool)
    requires Aligned(q) && r in q.blocks
    ensures WithPrevFree(Encode(q.blocks[r].size, true, stale)) == Encode(q.blocks[r].size, true, true)
  {
    Decoded(q.blocks[r].size, true, stale);
  }

  lemma SplitFinishedFrame(m: Memory, q: Pool, nil: int, loose: set<int>, a: int, v: int)
    requires Partial(q, loose) && Below(q, nil) && a in loose && Next(q, a) in loose && Links(m, q, nil)
    ensures var r := Next(q, a);
            Links(m[r := a][r + 8 := v], q, nil) && Undisturbed(q, nil, m, m[r := a][r + 8 := v])
  {
    var r := Next(q, a);
    HeaderWrite(m, q, nil, loose, a, r, a);
    HeaderWrite(m[r := a], q, nil, loose, r, r + 8, v);
    UndisturbedChain(q, nil, m, m, m[r := a], m[r := a][r + 8 := v]);
  }

  lemma SplitFinishedOther(m: Memory, q: Pool, a: int, v: int, x: int)
    requires Tiled(q) && a in q.blocks && a != q.end && Next(q, a) in q.blocks
    requires x in q.blocks && x != Next(q, a) && HeaderOk(m, q, x)
    ensures HeaderOk(m[Next(q, a) := a][Next(q, a) + 8 := v], q, x)
  {
    HeaderWordsDiffer(q, x, Next(q, a));
    HeaderWordsDiffer(q, Next(q, a), x);
  }

  // ----- each step on a stored pool

  lemma StoredMarkFree(m: Memory, p: Pool, nil: int, a: int)
    requires Stored(m, p, nil, {}) && Coalesced(p) && a in Live(p)
    ensures SizeOf(Read(m, a + 8)) == p.blocks[a].size > 0 && Next(p, a) in p.blocks
    ensures var q := SetFree(p, a, true);
            var m' := MarkFreeWrites(m, a, Next(p, a));
            Stored(m', q, nil, {a}) && Undisturbed(q, nil, m, m')
  {
    MarkedFree(m, p, nil, a);
    StoredHeader(m, p, nil, {}, a);
  }

  /** What an operation reads from the header of a block. */
  lemma StoredHeader(m: Memory, p: Pool, nil: int, loose: set<int>, a: int)
    requires Stored(m, p, nil, loose) && a in p.blocks
    ensures var w := Read(m, a + 8);
            && SizeOf(w) == p.blocks[a].size && FreeBit(w) == p.blocks[a].free && PrevBit(w) == PrevFree(p, a)
            && (PrevFree(p, a) ==> Read(m, a) == p.blocks[a].prev)
    ensures a > 0 && (a != p.end ==> p.blocks[a].size > 0 && Next(p, a) in p.blocks)
    ensures a != p.first ==> p.blocks[a].prev in p.blocks && p.blocks[a].prev > 0
  {
    hide SizeOf, FreeBit, PrevBit, WithFree, WithUsed, WithPrevFree, WithPrevUsed, Aligned, Encode;
    HeaderDecoded(m, p, a);
    assert Linked(p, a);
    if a != p.first {
      assert Linked(p, p.blocks[a].prev);
    }
  }

  lemma StoredMarkUsed(m: Memory, p: Pool, nil: int, a: int)
    requires Stored(m, p, nil, {a})
    ensures SizeOf(Read(m, a + 8)) == p.blocks[a].size > 0 && Next(p, a) in p.blocks
    ensures var q := SetFree(p, a, false);
            var m' := MarkUsedWrites(m, a, Next(p, a));
            Stored(m', q, nil, {}) && Undisturbed(p, nil, m, m')
  {
    MarkedUsed(m, p, nil, a);
    MarkUsedKeeps(p, {a}, a);
    assert {a} - {a} == {};
    StoredHeader(m, p, nil, {a}, a);
  }

  lemma StoredAbsorb(m: Memory, p: Pool, nil: int, loose: set<int>, a: int)
    requires Stored(m, p, nil, loose) && a in loose && Next(p, a) in loose
    ensures var b := Next(p, a);
            && Next(p, b) in p.blocks && SizeOf(Read(m, a + 8)) == p.blocks[a].size > 0
            && SizeOf(Read(m, b + 8)) == p.blocks[b].size
            && SizeOf(Read(AbsorbWrites(m, a, b, Next(p, b)), a + 8)) == p.blocks[a].size + 8 + p.blocks[b].size
            && SizeOf(Read(m[a + 8 := Read(m, a + 8) + SizeOf(Read(m, b + 8)) + 8], a + 8)) ==
                p.blocks[a].size + 8 + p.blocks[b].size
            && Stored(AbsorbWrites(m, a, b, Next(p, b)), Absorb(p, a), nil, loose - {b})
            && Undisturbed(p, nil, m, AbsorbWrites(m, a, b, Next(p, b)))
  {
    hide SizeOf, FreeBit, PrevBit, WithFree, WithUsed, WithPrevFree, WithPrevUsed, Aligned, Encode;
    var b := Next(p, a);
    Absorbed(m, p, nil, loose, a);
    AbsorbKeeps(p, loose, a);
    StoredHeader(m, p, nil, loose, a);
    StoredHeader(m, p, nil, loose, b);
    var m' := AbsorbWrites(m, a, b, Next(p, b));
    HeaderDecoded(m', Absorb(p, a), a);
    HeaderWordsDiffer(p, Next(p, b), a);
  }

  /** The size a resized word reads back. */
  lemma ResizedSize(w: int, size: int)
    requires size % 8 == 0
    ensures SizeOf(WithSize(w, size)) == size
  {
    Resized(w, size);
    Decoded(size, FreeBit(w), PrevBit(w));
  }

  /** A whole split, the two last writes included, in either order. */
  lemma StoredSplit(m: Memory, p: Pool, nil: int, loose: set<int>, a: int, size: int)
    requires Stored(m, p, nil, loose) && Splittable(p, loose, a, size)
    ensures Next(p, a) in p.blocks
    ensures var r := a + 8 + size;
            var m1 := SplitWrites(m, a, size, r, p.blocks[a].size - size - 8, Next(p, a));
            var v := WithPrevFree(Read(m1, r + 8));
            && SizeOf(Read(m, a + 8)) == p.blocks[a].size && SizeOf(Read(m1, a + 8)) == size
            && SizeOf(Read(m1[r + 8 := v], a + 8)) == size
            && Read(m1[r := a], r + 8) == Read(m1, r + 8)
            && m1[r := a][r + 8 := v] == m1[r + 8 := v][r := a]
            && Stored(m1[r := a][r + 8 := v], Split(p, a, size), nil, loose + {r})
            && Undisturbed(p, nil, m, m1[r := a][r + 8 := v])
  {
    hide WithFree, WithUsed, WithPrevFree, WithPrevUsed, WithSize, SizeOf, FreeBit, PrevBit, Encode, Aligned;
    var r := a + 8 + size;
    SplitHeaders(m, p, nil, loose, a, size);
    StoredHeader(m, p, nil, loose, a);
    var q := Split(p, a, size);
    var m1 := SplitWrites(m, a, size, r, p.blocks[a].size - size - 8, Next(p, a));
    var v := WithPrevFree(Read(m1, r + 8));
    SplitFinished(m1, q, nil, loose + {r}, a, q.blocks[r].size, PrevBit(Read(m, r + 8)));
    var m2 := m1[r := a][r + 8 := v];
    HeaderDecoded(m2, q, a);
    SplitFresh(p, a, size);
    SplitSameLive(p, a, size);
    UndisturbedTrans(p, q, nil, m, m1, m2);
  }
}
