/** Each group of writes of the glibc-style allocator carries out one step on the heap. */
module GlibcSteps {
  import opened Seqs
  import opened Words
  import opened GlibcHeap
  import opened GlibcOps
  import opened GlibcMemory
  import opened GlibcTheorems

  // ----- links

  /** Links lie in free payloads, where there are no headers and nothing is guarded. */
  lemma LinkWrite(m: Memory, h: Heap, f: int, len: int, b: int, x: int, v: int)
    requires Tiled(h) && Headers(m, h) && Focus(h, f, len)
    requires b in h.blocks && !h.blocks[b].used && (x == b + 16 || x == b + 24)
    ensures Headers(m[x := v], h) && !Guarded(h, f, len, x)
  {
    assert Linked(h, b);
    FreeUnguarded(h, f, len, b, x);
    var m' := m[x := v];
    forall a | a in h.blocks
      ensures HeaderOk(m', h, a)
    {
      assert HeaderOk(m, h, a);
      if a != b {
        BlocksApart(h, a, b);
      }
    }
  }

  lemma RemovalHeaders(m: Memory, h: Heap, loose: set<int>, f: int, len: int, i: int)
    requires Stored(m, h, loose) && Focus(h, f, len) && 0 <= i < |h.free|
    ensures var m' := RemoveWrites(m, h.free[i]); Headers(m', h) && Undisturbed(h, f, len, m, m')
  {
    hide Headers, Guarded;
    var l := h.free;
    assert LinkOk(m, l, i);
    var prev, next := Read(m, l[i] + 16), Read(m, l[i] + 24);
    var m1 := m;
    if i > 0 {
      ListedFree(h, loose, i - 1);
      LinkWrite(m, h, f, len, prev, prev + 24, next);
      m1 := m[prev + 24 := next];
    }
    if i + 1 < |l| {
      ListedFree(h, loose, i + 1);
      LinkWrite(m1, h, f, len, next, next + 16, prev);
    }
  }

  /** `gca_remove_free_list` takes the block out of the list. */
  lemma Removal(m: Memory, h: Heap, loose: set<int>, f: int, len: int, i: int)
    requires Stored(m, h, loose) && Focus(h, f, len) && 0 <= i < |h.free|
    ensures var b := h.free[i];
            var m' := RemoveWrites(m, b);
            && Stored(m', TakeOut(h, b), loose + {b}) && Undisturbed(h, f, len, m, m')
            && Read(m, b + 24) == (if i + 1 < |h.free| then h.free[i + 1] else 0)
            && TakeOut(h, b).free == h.free[..i] + h.free[i + 1..]
            && (h.free[0] == b <==> i == 0)
  {
    var b := h.free[i];
    RemovalHeaders(m, h, loose, f, len, i);
    ListedFree(h, loose, i);
    ListSpread(h, loose);
    Unlinked(m, h.free, i);
    TakeOutKeeps(h, loose, b);
    DropAt(h.free, i);
    assert LinkOk(m, h.free, i);
    hide RemoveWrites, Partial, Undisturbed, ListOk;
    SameHeaders(RemoveWrites(m, b), h, TakeOut(h, b));
  }

  lemma SameHeaders(m: Memory, h: Heap, g: Heap)
    requires Headers(m, h) && g == h.(free := g.free)
    ensures Headers(m, g)
  {
    forall a | a in g.blocks
      ensures HeaderOk(m, g, a)
    {
      assert HeaderOk(m, h, a);
    }
  }

  /** `gca_add_free_list` puts a block in front of the list. */
  lemma Insertion(m: Memory, h: Heap, loose: set<int>, f: int, len: int, b: int)
    requires Stored(m, h, loose) && Focus(h, f, len) && b in loose
    ensures var head := if h.free == [] then 0 else h.free[0];
            var m' := AddWrites(m, b, head);
            Stored(m', PutIn(h, b), loose - {b}) && Undisturbed(h, f, len, m, m') && b != 0
  {
    var l := h.free;
    var head := if l == [] then 0 else l[0];
    PutInKeeps(h, loose, b);
    ListSpread(PutIn(h, b), loose - {b});
    Pushed(m, l, b);
    LinkWrite(m, h, f, len, b, b + 16, 0);
    var m1 := m[b + 16 := 0];
    LinkWrite(m1, h, f, len, b, b + 24, head);
    var m2 := m1[b + 24 := head];
    if l != [] {
      ListedFree(h, loose, 0);
      LinkWrite(m2, h, f, len, head, head + 16, b);
    }
    assert ([b] + l)[0] == b;
    hide Partial, ListOk, LinkOk, Spread;
    SameHeaders(AddWrites(m, b, head), h, PutIn(h, b));
  }

  // ----- info words

  /** Info words are not links and not guarded. */
  lemma InfoWrite(m: Memory, h: Heap, loose: set<int>, f: int, len: int, a: int, x: int, v: int)
    requires Partial(h, loose) && Focus(h, f, len) && ListOk(m, h.free) && a in h.blocks && (x == a || x == a + 8)
    ensures ListOk(m[x := v], h.free) && !Guarded(h, f, len, x)
  {
    HeaderUnguarded(h, f, len, a, x);
    forall i | 0 <= i < |h.free|
      ensures x != h.free[i] + 16 && x != h.free[i] + 24
    {
      ListedFree(h, loose, i);
      if a != h.free[i] {
        BlocksApart(h, a, h.free[i]);
      }
    }
    OtherWord(m, h.free, x, v);
  }

  /** Marking block `a` used or free, in its own header and in the one after it. */
  function MarkWrites(m: Memory, a: int, n: int, used: bool): Memory {
    PutUsed(PutUsed(m, a + 8, used), n, used)
  }

  lemma MarkStored(m: Memory, h: Heap, loose: set<int>, loose': set<int>, f: int, len: int, a: int, used: bool)
    requires Stored(m, h, loose) && a in h.blocks && a != h.end
    requires Partial(SetUsed(h, a, used), loose') && Focus(SetUsed(h, a, used), f, len)
    ensures var g := SetUsed(h, a, used);
            var m' := MarkWrites(m, a, Next(h, a), used);
            Stored(m', g, loose') && Undisturbed(g, f, len, m, m')
  {
    var g := SetUsed(h, a, used);
    var n := Next(h, a);
    var m1 := PutUsed(m, a + 8, used);
    var m' := MarkWrites(m, a, n, used);
    assert Linked(h, a);
    InfoWrite(m, g, loose', f, len, a, a + 8, m1[a + 8]);
    InfoWrite(m1, g, loose', f, len, n, n, m'[n]);
    hide Guarded, Partial, ListOk;
    forall x | x in g.blocks
      ensures HeaderOk(m', g, x)
    {
      MarkHeader(m, h, a, used, x);
    }
  }

  lemma MarkHeader(m: Memory, h: Heap, a: int, used: bool, x: int)
    requires Tiled(h) && Headers(m, h) && a in h.blocks && a != h.end && x in h.blocks
    ensures HeaderOk(MarkWrites(m, a, Next(h, a), used), SetUsed(h, a, used), x)
  {
    hide InfoSize, InfoUsed, WithSize, WithUsed;
    var n := Next(h, a);
    assert Linked(h, a) && Linked(h, x) && HeaderOk(m, h, x);
    var m1 := PutUsed(m, a + 8, used);
    PutUsedTags(m, a + 8, used);
    PutUsedTags(m1, n, used);
    BlocksApart(h, a, n);
    if x != a {
      BlocksApart(h, a, x);
    }
    if x != n {
      BlocksApart(h, n, x);
    }
  }

  /** The writes of `gca_coalesce_next`: block `a`, with the given used flag, gets a new size, and
      the header at `n` mirrors it. */
  function AbsorbWrites(m: Memory, a: int, n: int, used: bool, size: int): Memory {
    PutSize(PutSize(PutUsed(m, n, used), n, size), a + 8, size)
  }

  /** `m'` differs from `m` only in the given words. */
  ghost predicate OnlyWords(m: Memory, m': Memory, ws: set<int>) {
    forall w {:trigger Read(m', w)} :: w !in ws ==> Read(m', w) == Read(m, w)
  }

  lemma AbsorbTags(m: Memory, a: int, n: int, used: bool, size: int)
    requires size % 16 == 0 && n != a + 8
    ensures var m' := AbsorbWrites(m, a, n, used, size);
            Tag(m', n, size, used) && Tag(m', a + 8, size, InfoUsed(Read(m, a + 8))) && OnlyWords(m, m', {n, a + 8})
  {
    hide InfoSize, InfoUsed, WithSize, WithUsed;
    Eighths(size);
    Retagged(m, n, size, used);
    PutSizeTags(PutSize(PutUsed(m, n, used), n, size), a + 8, size);
  }

  /** What the headers must say after block `a` took over the next one. */
  lemma AbsorbView(h: Heap, a: int, x: int)
    requires Tiled(h) && a in h.blocks && a != h.end && Next(h, a) in h.blocks && Next(h, a) != h.end
    requires Next(h, Next(h, a)) in h.blocks && x in Absorb(h, a).blocks
    ensures var b := Next(h, a);
            var n := Next(h, b);
            var g := Absorb(h, a);
            && x in h.blocks && n != a && a + 32 <= n
            && g.blocks[x].used == h.blocks[x].used
            && g.blocks[x].size == (if x == a then h.blocks[a].size + 16 + h.blocks[b].size else h.blocks[x].size)
            && PrevSize(g, x) == (if x == n then g.blocks[a].size else PrevSize(h, x))
            && PrevUsed(g, x) == (if x == n then h.blocks[a].used else PrevUsed(h, x))
            && (x != a ==> x + 16 <= a || a + 16 <= x) && (x != n ==> x + 16 <= n || n + 16 <= x)
  {
    var b := Next(h, a);
    var n := Next(h, b);
    assert Linked(h, a) && Linked(h, b) && Linked(h, x);
    if x != a {
      BlocksApart(h, a, x);
    }
    if x != n {
      BlocksApart(h, n, x);
    }
    if x != h.base {
      assert Linked(h, h.blocks[x].prev);
    }
  }

  lemma AbsorbHeader(m: Memory, m': Memory, h: Heap, a: int, x: int)
    requires Tiled(h) && Headers(m, h) && a in h.blocks && a != h.end && Next(h, a) in h.blocks && Next(h, a) != h.end
    requires Next(h, Next(h, a)) in h.blocks && x in Absorb(h, a).blocks
    requires var n := Next(h, Next(h, a));
             var size := Absorb(h, a).blocks[a].size;
             Tag(m', n, size, h.blocks[a].used) && Tag(m', a + 8, size, h.blocks[a].used)
             && OnlyWords(m, m', {n, a + 8})
    ensures HeaderOk(m', Absorb(h, a), x)
  {
    AbsorbView(h, a, x);
    hide InfoSize, InfoUsed, Absorb, Tiled, PrevSize, PrevUsed;
    assert HeaderOk(m, h, x);
  }

  lemma AbsorbHeaders(m: Memory, h: Heap, a: int)
    requires Tiled(h) && Aligned(h) && Headers(m, h) && a in h.blocks && a != h.end
    requires Next(h, a) in h.blocks && Next(h, a) != h.end && Next(h, Next(h, a)) in h.blocks
    ensures var b := Next(h, a);
            Headers(AbsorbWrites(m, a, Next(h, b), h.blocks[a].used, h.blocks[a].size + 16 + h.blocks[b].size),
                Absorb(h, a))
  {
    hide AbsorbWrites, Tiled, Aligned, OnlyWords, InfoSize, InfoUsed;
    var b := Next(h, a);
    var n := Next(h, b);
    var size := h.blocks[a].size + 16 + h.blocks[b].size;
    var m' := AbsorbWrites(m, a, n, h.blocks[a].used, size);
    assert HeaderOk(m, h, a);
    AbsorbSize(h, a);
    AbsorbTags(m, a, n, h.blocks[a].used, size);
    hide Tag;
    forall x | x in Absorb(h, a).blocks
      ensures HeaderOk(m', Absorb(h, a), x)
    {
      AbsorbHeader(m, m', h, a, x);
    }
  }

  lemma AbsorbSize(h: Heap, a: int)
    requires Tiled(h) && Aligned(h) && a in h.blocks && a != h.end && Next(h, a) in h.blocks && Next(h, a) != h.end
    ensures (h.blocks[a].size + 16 + h.blocks[Next(h, a)].size) % 16 == 0
    ensures Next(h, Next(h, a)) != a + 8
  {
    assert Linked(h, a) && Linked(h, Next(h, a));
  }

  /** The writes of `gca_coalesce_next` carry out the step on the heap. */
  lemma AbsorbStored(m: Memory, h: Heap, loose: set<int>, f: int, len: int, a: int)
    requires Stored(m, h, loose) && a in h.blocks && a != h.end && Next(h, a) in loose
    ensures Next(h, Next(h, a)) in h.blocks
    ensures Focus(Absorb(h, a), f, len) ==>
              var b := Next(h, a);
              var m' := AbsorbWrites(m, a, Next(h, b), h.blocks[a].used, h.blocks[a].size + 16 + h.blocks[b].size);
              Stored(m', Absorb(h, a), loose - {b}) && Undisturbed(Absorb(h, a), f, len, m, m')
  {
    hide AbsorbWrites, ListOk, Partial, Headers, Undisturbed, Focus, Tiled, Aligned;
    LooseBlock(h, loose, Next(h, a));
    AbsorbKeeps(h, loose, a);
    if Focus(Absorb(h, a), f, len) {
      var b := Next(h, a);
      Pieces(m, h, loose);
      AbsorbHeaders(m, h, a);
      AbsorbWords(m, Absorb(h, a), loose - {b}, f, len, a, Next(h, b), h.blocks[a].used,
          h.blocks[a].size + 16 + h.blocks[b].size);
    }
  }

  lemma AbsorbWords(m: Memory, g: Heap, loose: set<int>, f: int, len: int, a: int, n: int, used: bool, size: int)
    requires Partial(g, loose) && Focus(g, f, len) && ListOk(m, g.free) && a in g.blocks && n in g.blocks
    ensures var m' := AbsorbWrites(m, a, n, used, size); ListOk(m', g.free) && Undisturbed(g, f, len, m, m')
  {
    hide Partial, ListOk, Guarded, Focus;
    var m1 := PutUsed(m, n, used);
    InfoWrite(m, g, loose, f, len, n, n, m1[n]);
    var m2 := PutSize(m1, n, size);
    InfoWrite(m1, g, loose, f, len, n, n, m2[n]);
    InfoWrite(m2, g, loose, f, len, a, a + 8, PutSize(m2, a + 8, size)[a + 8]);
  }

  /** The writes of `gca_split_block`: block `a` keeps `size` bytes, `rest` go to a new block, and
      the header at `n` mirrors the new block. */
  function SplitWrites(m: Memory, a: int, n: int, used: bool, size: int, rest: int): Memory {
    var s := a + 16 + size;
    var m1 := PutSize(PutUsed(PutSize(m, n, rest), n, false), a + 8, size);
    var m2 := PutUsed(PutSize(m1, s, size), s, used);
    PutUsed(PutSize(m2, s + 8, rest), s + 8, false)
  }

  lemma SplitTags(m: Memory, a: int, n: int, used: bool, size: int, rest: int)
    requires size % 16 == 0 && rest % 16 == 0 && size >= 16 && a + 48 + size <= n
    ensures var m' := SplitWrites(m, a, n, used, size, rest);
            var s := a + 16 + size;
            && Tag(m', n, rest, false) && Tag(m', a + 8, size, InfoUsed(Read(m, a + 8)))
            && Tag(m', s, size, used) && Tag(m', s + 8, rest, false) && OnlyWords(m, m', {n, a + 8, s, s + 8})
  {
    hide InfoSize, InfoUsed, WithSize, WithUsed;
    var s := a + 16 + size;
    Eighths(size);
    Eighths(rest);
    Retagged(m, n, rest, false);
    var m0 := PutUsed(PutSize(m, n, rest), n, false);
    PutSizeTags(m0, a + 8, size);
    var m1 := PutSize(m0, a + 8, size);
    Retagged(m1, s, size, used);
    var m2 := PutUsed(PutSize(m1, s, size), s, used);
    Retagged(m2, s + 8, rest, false);
  }

  /** Half-way through the writes of a split, the header of `a` has its new size and its flag. */
  lemma CutReads(m: Memory, a: int, n: int, size: int, rest: int)
    requires size % 16 == 0 && n != a + 8
    ensures var m1 := PutSize(PutUsed(PutSize(m, n, rest), n, false), a + 8, size);
            InfoSize(Read(m1, a + 8)) == size && InfoUsed(Read(m1, a + 8)) == InfoUsed(Read(m, a + 8))
  {
    Eighths(size);
    PutSizeTags(PutUsed(PutSize(m, n, rest), n, false), a + 8, size);
  }

  /** What the headers must say after a split. */
  lemma SplitView(h: Heap, a: int, size: int, x: int)
    requires Tiled(h) && CanSplit(h, a, size) && Next(h, a) in h.blocks && x in Split(h, a, size).blocks
    ensures var s, n, g := a + 16 + size, Next(h, a), Split(h, a, size);
            var rest := h.blocks[a].size - size - 16;
            && (x == s ==>
                  && g.blocks[s].size == rest && !g.blocks[s].used
                  && PrevSize(g, s) == size && PrevUsed(g, s) == h.blocks[a].used)
            && (x != s ==>
                  && x in h.blocks && g.blocks[x].used == h.blocks[x].used
                  && g.blocks[x].size == (if x == a then size else h.blocks[x].size)
                  && PrevSize(g, x) == (if x == n then rest else PrevSize(h, x))
                  && PrevUsed(g, x) == (if x == n then false else PrevUsed(h, x)))
  {
    var s, n := a + 16 + size, Next(h, a);
    SplitFresh(h, a, size);
    assert Linked(h, a);
    if x != s {
      assert Linked(h, x);
    }
  }

  lemma SplitHeader(m: Memory, m': Memory, h: Heap, a: int, size: int, x: int)
    requires Tiled(h) && Headers(m, h) && CanSplit(h, a, size) && Next(h, a) in h.blocks
    requires x in Split(h, a, size).blocks
    requires var s, n, rest := a + 16 + size, Next(h, a), h.blocks[a].size - size - 16;
             && Tag(m', n, rest, false) && Tag(m', a + 8, size, h.blocks[a].used)
             && Tag(m', s, size, h.blocks[a].used) && Tag(m', s + 8, rest, false)
             && OnlyWords(m, m', {n, a + 8, s, s + 8})
    ensures HeaderOk(m', Split(h, a, size), x)
  {
    SplitView(h, a, size, x);
    SplitWhere(h, a, size, x);
    hide InfoSize, InfoUsed, Split, Tiled, PrevSize, PrevUsed;
    if x != a + 16 + size {
      assert HeaderOk(m, h, x);
    }
  }

  /** The header words after a split are all different. */
  lemma SplitWhere(h: Heap, a: int, size: int, x: int)
    requires Tiled(h) && CanSplit(h, a, size) && Next(h, a) in h.blocks && x in Split(h, a, size).blocks
    ensures var s, n := a + 16 + size, Next(h, a);
            && a + 32 <= s && s + 32 <= n
            && (x != a ==> x + 16 <= a || a + 16 <= x) && (x != s ==> x + 16 <= s || s + 16 <= x)
            && (x != n ==> x + 16 <= n || n + 16 <= x)
  {
    var s, n := a + 16 + size, Next(h, a);
    if x != s {
      if x != a {
        BlocksApart(h, a, x);
      }
      if x != n {
        BlocksApart(h, n, x);
      }
    }
  }

  lemma RestAligned(h: Heap, a: int, size: int)
    requires Aligned(h) && a in h.blocks && size % 16 == 0
    ensures (h.blocks[a].size - size - 16) % 16 == 0
  {
  }

  lemma LooseBlock(h: Heap, loose: set<int>, a: int)
    requires Partial(h, loose) && a in loose
    ensures a in h.blocks && !h.blocks[a].used
  {
  }

  lemma SplitHeaders(m: Memory, h: Heap, a: int, size: int)
    requires Tiled(h) && Aligned(h) && Headers(m, h) && CanSplit(h, a, size) && size % 16 == 0 && Next(h, a) in h.blocks
    ensures Headers(SplitWrites(m, a, Next(h, a), h.blocks[a].used, size, h.blocks[a].size - size - 16),
            Split(h, a, size))
  {
    hide SplitWrites, Tiled, Aligned, OnlyWords, InfoSize, InfoUsed;
    var rest := h.blocks[a].size - size - 16;
    RestAligned(h, a, size);
    var m' := SplitWrites(m, a, Next(h, a), h.blocks[a].used, size, rest);
    assert HeaderOk(m, h, a);
    SplitTags(m, a, Next(h, a), h.blocks[a].used, size, rest);
    hide Tag;
    forall x | x in Split(h, a, size).blocks
      ensures HeaderOk(m', Split(h, a, size), x)
    {
      SplitHeader(m, m', h, a, size, x);
    }
  }

  lemma Pieces(m: Memory, h: Heap, loose: set<int>)
    requires Stored(m, h, loose)
    ensures Partial(h, loose) && Tiled(h) && Aligned(h) && Headers(m, h)
    ensures forall a :: a in loose ==> a in h.blocks && a != h.end
  {
  }

  /** The first writes of `gca_split_block` carry out the split on the heap. */
  lemma SplitStored(m: Memory, h: Heap, loose: set<int>, f: int, len: int, a: int, size: int)
    requires Stored(m, h, loose) && CanSplit(h, a, size) && size % 16 == 0 && Next(h, a) in h.blocks
    requires Focus(Split(h, a, size), f, len)
    ensures var m' := SplitWrites(m, a, Next(h, a), h.blocks[a].used, size, h.blocks[a].size - size - 16);
            var g := Split(h, a, size);
            Stored(m', g, loose + {a + 16 + size}) && Undisturbed(g, f, len, m, m')
  {
    hide SplitWrites, ListOk, Partial, Headers, Undisturbed, Focus, Tiled, Aligned;
    SplitKeeps(h, loose, a, size);
    Pieces(m, h, loose);
    SplitHeaders(m, h, a, size);
    SplitWords(m, Split(h, a, size), loose + {a + 16 + size}, f, len, a, Next(h, a), h.blocks[a].used, size,
        h.blocks[a].size - size - 16);
  }

  lemma SplitWords(m: Memory, g: Heap, loose: set<int>, f: int, len: int, a: int, n: int, used: bool, size: int,
      rest: int)
    requires Partial(g, loose) && Focus(g, f, len) && ListOk(m, g.free) && a in g.blocks && n in g.blocks
             && a + 16 + size in g.blocks
    ensures var m' := SplitWrites(m, a, n, used, size, rest); ListOk(m', g.free) && Undisturbed(g, f, len, m, m')
  {
    hide Partial, ListOk, Guarded, Focus;
    var s := a + 16 + size;
    var m1 := PutSize(m, n, rest);
    InfoWrite(m, g, loose, f, len, n, n, m1[n]);
    var m2 := PutUsed(m1, n, false);
    InfoWrite(m1, g, loose, f, len, n, n, m2[n]);
    var m3 := PutSize(m2, a + 8, size);
    InfoWrite(m2, g, loose, f, len, a, a + 8, m3[a + 8]);
    var m4 := PutSize(m3, s, size);
    InfoWrite(m3, g, loose, f, len, s, s, m4[s]);
    var m5 := PutUsed(m4, s, used);
    InfoWrite(m4, g, loose, f, len, s, s, m5[s]);
    var m6 := PutSize(m5, s + 8, rest);
    InfoWrite(m5, g, loose, f, len, s, s + 8, m6[s + 8]);
    InfoWrite(m6, g, loose, f, len, s, s + 8, PutUsed(m6, s + 8, false)[s + 8]);
  }

  /** The writes of `gca_sbrk_new_block`: the sentinel at `e` becomes a free block, and there is a
      new sentinel `page` bytes further up. */
  function GrowWrites(m: Memory, e: int, page: int): Memory {
    var m1 := PutUsed(PutSize(m, e + 8, page - 16), e + 8, false);
    var m2 := PutUsed(PutSize(m1, e + page, page - 16), e + page, false);
    PutUsed(PutSize(m2, e + page + 8, 0), e + page + 8, true)
  }

  lemma GrowTags(m: Memory, e: int, page: int)
    requires page >= 32 && page % 16 == 0
    ensures var m' := GrowWrites(m, e, page);
            var s := e + page;
            Tag(m', e + 8, page - 16, false) && Tag(m', s, page - 16, false) && Tag(m', s + 8, 0, true)
            && OnlyWords(m, m', {e + 8, s, s + 8})
  {
    hide InfoSize, InfoUsed, WithSize, WithUsed;
    var s := e + page;
    Eighths(page - 16);
    Retagged(m, e + 8, page - 16, false);
    var m1 := PutUsed(PutSize(m, e + 8, page - 16), e + 8, false);
    Retagged(m1, s, page - 16, false);
    var m2 := PutUsed(PutSize(m1, s, page - 16), s, false);
    Retagged(m2, s + 8, 0, true);
  }

  lemma GrowHeader(m: Memory, m': Memory, h: Heap, page: int, x: int)
    requires Tiled(h) && Headers(m, h) && page >= 32 && h.end + 16 + page <= h.limit && x in Grow(h, page).blocks
    requires var e, s := h.end, h.end + page;
             Tag(m', e + 8, page - 16, false) && Tag(m', s, page - 16, false) && Tag(m', s + 8, 0, true)
             && OnlyWords(m, m', {e + 8, s, s + 8})
    ensures HeaderOk(m', Grow(h, page), x)
  {
    hide InfoSize, InfoUsed;
    GrowTiles(h, page);
    if x != h.end + page {
      assert Linked(h, x) && HeaderOk(m, h, x);
      if x != h.end {
        BlocksApart(h, h.end, x);
      }
    }
  }

  lemma GrowHeaders(m: Memory, h: Heap, page: int)
    requires Tiled(h) && Headers(m, h) && page >= 32 && page % 16 == 0 && h.end + 16 + page <= h.limit
    ensures Headers(GrowWrites(m, h.end, page), Grow(h, page))
  {
    hide GrowWrites, Tag;
    GrowTags(m, h.end, page);
    var m' := GrowWrites(m, h.end, page);
    forall x | x in Grow(h, page).blocks
      ensures HeaderOk(m', Grow(h, page), x)
    {
      GrowHeader(m, m', h, page, x);
    }
  }

  /** The first writes of `gca_sbrk_new_block` carry out the growth of the heap. */
  lemma GrowStored(m: Memory, h: Heap, f: int, len: int, page: int)
    requires Stored(m, h, {}) && page >= 32 && page % 16 == 0 && h.end + 16 + page <= h.limit
             && Focus(Grow(h, page), f, len)
    ensures var m' := GrowWrites(m, h.end, page);
            var g := Grow(h, page);
            Stored(m', g, {h.end}) && Undisturbed(g, f, len, m, m')
  {
    hide GrowWrites, ListOk, Tiled, Headers, Undisturbed, Focus, Aligned, Indexed;
    GrowKeeps(h, page);
    GrowHeaders(m, h, page);
    EndHere(h);
    GrowWords(m, Grow(h, page), {h.end}, f, len, h.end, page);
  }

  lemma EndHere(h: Heap)
    requires Tiled(h)
    ensures h.end in h.blocks
  {
  }

  lemma GrowWords(m: Memory, g: Heap, loose: set<int>, f: int, len: int, e: int, page: int)
    requires Partial(g, loose) && Focus(g, f, len) && ListOk(m, g.free) && e in g.blocks && e + page in g.blocks
    ensures var m' := GrowWrites(m, e, page); ListOk(m', g.free) && Undisturbed(g, f, len, m, m')
  {
    hide Partial, ListOk, Guarded, Focus;
    var s := e + page;
    var m1 := PutSize(m, e + 8, page - 16);
    InfoWrite(m, g, loose, f, len, e, e + 8, m1[e + 8]);
    var m2 := PutUsed(m1, e + 8, false);
    InfoWrite(m1, g, loose, f, len, e, e + 8, m2[e + 8]);
    var m3 := PutSize(m2, s, page - 16);
    InfoWrite(m2, g, loose, f, len, s, s, m3[s]);
    var m4 := PutUsed(m3, s, false);
    InfoWrite(m3, g, loose, f, len, s, s, m4[s]);
    var m5 := PutSize(m4, s + 8, 0);
    InfoWrite(m4, g, loose, f, len, s, s + 8, m5[s + 8]);
    InfoWrite(m5, g, loose, f, len, s, s + 8, PutUsed(m5, s + 8, true)[s + 8]);
  }

  // ----- steps put together

  lemma UndisturbedSelf(h: Heap, f: int, len: int, m: Memory)
    ensures Undisturbed(h, f, len, m, m)
  {
  }

  lemma UndisturbedJoin(h: Heap, f: int, len: int, m: Memory, m': Memory, m'': Memory)
    requires Undisturbed(h, f, len, m, m') && Undisturbed(h, f, len, m', m'')
    ensures Undisturbed(h, f, len, m, m'')
  {
    hide Guarded;
    forall w | Guarded(h, f, len, w)
      ensures Read(m'', w) == Read(m, w)
    {
      assert Read(m', w) == Read(m, w);
    }
  }

  lemma UndisturbedBack(h: Heap, g: Heap, f: int, len: int, m: Memory, m': Memory)
    requires OthersKept(h, g, f) && Undisturbed(g, f, len, m, m')
    ensures Undisturbed(h, f, len, m, m')
  {
    forall w | Guarded(h, f, len, w)
      ensures Read(m', w) == Read(m, w)
    {
      GuardedSame(h, g, f, len, w);
    }
  }

  lemma FreeListed(h: Heap, a: int)
    requires Partial(h, {}) && a in h.blocks && !h.blocks[a].used
    ensures a in h.free
  {
    assert Listed(h, {}, a);
  }

  lemma CoalesceKept(h: Heap, a: int, f: int)
    requires Partial(h, {}) && a in h.blocks && a != h.end && (Live(h, a) ==> f == a)
    ensures OthersKept(h, CoalesceNext(h, a), f)
  {
    CoalesceNextKept(h, a);
    if !h.blocks[a].used {
      KeptOthers(h, CoalesceNext(h, a), f);
    }
  }

  /** A live block that coalesces, or that another block's coalescing leaves alone, keeps its
      bytes. */
  lemma CoalesceFocus(h: Heap, a: int, f: int, len: int)
    requires Partial(h, {}) && a in h.blocks && a != h.end && (Live(h, a) ==> f == a) && Focus(h, f, len)
    ensures Focus(CoalesceNext(h, a), f, len)
  {
    CoalesceNextKept(h, a);
    CoalesceNextBlocks(h, a);
    assert Linked(h, a) && Linked(h, Next(h, a));
    hide CoalesceNext;
    assert f != a ==> Same(h, CoalesceNext(h, a), f);
  }

  /** The second half of `gca_coalesce_next`, once the next block has left the list. */
  lemma AbsorbStep(m: Memory, h0: Heap, h: Heap, f: int, len: int, a: int, b: int)
    requires Partial(h0, {}) && a in h0.blocks && a != h0.end && b == Next(h0, a) && b in h0.blocks
             && !h0.blocks[b].used
    requires h == TakeOut(h0, b) && Stored(m, h, {} + {b}) && (Live(h0, a) ==> f == a) && Focus(h0, f, len)
    ensures Next(h, b) in h.blocks && Absorb(h, a) == CoalesceNext(h0, a)
    ensures var m' := AbsorbWrites(m, a, Next(h, b), h.blocks[a].used, h.blocks[a].size + 16 + h.blocks[b].size);
            Stored(m', Absorb(h, a), {}) && Undisturbed(h0, f, len, m, m')
  {
    CoalesceFocus(h0, a, f, len);
    CoalesceKept(h0, a, f);
    assert Linked(h0, a) && Linked(h0, b);
    assert CoalesceNext(h0, a) == Absorb(h, a);
    hide CoalesceNext, Stored, Focus, Undisturbed, Partial, AbsorbWrites;
    AbsorbStored(m, h, {} + {b}, f, len, a);
    assert {} + {b} - {b} == {};
    UndisturbedBack(h0, Absorb(h, a), f, len, m,
        AbsorbWrites(m, a, Next(h, b), h.blocks[a].used, h.blocks[a].size + 16 + h.blocks[b].size));
  }

  lemma FocusKept(h: Heap, g: Heap, f: int, len: int)
    requires AllKept(h, g) && Focus(h, f, len)
    ensures Focus(g, f, len) && OthersKept(h, g, f)
  {
    assert Same(h, g, f);
  }

  lemma PutInKept(h: Heap, b: int)
    ensures AllKept(h, PutIn(h, b)) && AllKept(h, TakeOut(h, b))
  {
    var g, k := PutIn(h, b), TakeOut(h, b);
    forall x
      ensures Same(h, g, x)
    {
    }
    forall x
      ensures Same(h, k, x)
    {
    }
  }

  /** Growth leaves all live blocks alone. */
  lemma GrowKept(h: Heap, page: int)
    requires Tiled(h) && page >= 32 && h.end + 16 + page <= h.limit
    ensures AllKept(h, Grow(h, page))
  {
    GrowTiles(h, page);
    var g := Grow(h, page);
    forall x
      ensures Same(h, g, x)
    {
    }
  }

  /** The writes of `gca_sbrk_new_block` before the new block is listed. */
  lemma GrowStep(m: Memory, h: Heap, f: int, len: int, page: int)
    requires Stored(m, h, {}) && page >= 32 && page % 16 == 0 && h.end + 16 + page <= h.limit && Focus(h, f, len)
    ensures h.end in h.blocks
    ensures var m' := GrowWrites(m, h.end, page);
            var g := Grow(h, page);
            Stored(m', g, {h.end}) && Undisturbed(h, f, len, m, m') && AllKept(h, g) && Focus(g, f, len)
  {
    hide Stored, Focus, Undisturbed, GrowWrites, Grow, AllKept, OthersKept, Tiled;
    Pieces(m, h, {});
    EndHere(h);
    GrowKept(h, page);
    FocusKept(h, Grow(h, page), f, len);
    GrowStored(m, h, f, len, page);
    UndisturbedBack(h, Grow(h, page), f, len, m, GrowWrites(m, h.end, page));
  }

  lemma SplitKept(h: Heap, a: int, size: int, f: int, len: int)
    requires Tiled(h) && CanSplit(h, a, size) && Focus(h, f, len) && (Live(h, a) ==> f == a && len <= size)
    ensures Next(h, a) in h.blocks && OthersKept(h, Split(h, a, size), f) && Focus(Split(h, a, size), f, len)
  {
    SplitFresh(h, a, size);
    assert Linked(h, a);
    var g := Split(h, a, size);
    forall x | x != f
      ensures Same(h, g, x)
    {
    }
    assert f != a ==> Same(h, g, f);
  }

  /** The writes of `gca_split_block` before the new block is listed. */
  lemma CutStep(m: Memory, h: Heap, f: int, len: int, a: int, size: int)
    requires Stored(m, h, {}) && CanSplit(h, a, size) && size % 16 == 0 && Focus(h, f, len)
             && (Live(h, a) ==> f == a && len <= size)
    ensures Next(h, a) in h.blocks
    ensures var m' := SplitWrites(m, a, Next(h, a), h.blocks[a].used, size, h.blocks[a].size - size - 16);
            var g := Split(h, a, size);
            && Stored(m', g, {a + 16 + size}) && Undisturbed(h, f, len, m, m') && OthersKept(h, g, f)
            && Focus(g, f, len)
            && a + 16 + size in g.blocks && a + 16 + size != g.end && !g.blocks[a + 16 + size].used
  {
    hide Stored, Focus, Undisturbed, SplitWrites, AllKept, OthersKept, Tiled;
    Pieces(m, h, {});
    SplitKept(h, a, size, f, len);
    SplitStored(m, h, {}, f, len, a, size);
    assert {} + {a + 16 + size} == {a + 16 + size};
    Pieces(SplitWrites(m, a, Next(h, a), h.blocks[a].used, size, h.blocks[a].size - size - 16), Split(h, a, size),
        {a + 16 + size});
    UndisturbedBack(h, Split(h, a, size), f, len, m,
        SplitWrites(m, a, Next(h, a), h.blocks[a].used, size, h.blocks[a].size - size - 16));
  }

  lemma PositiveEnd(h: Heap)
    requires Tiled(h)
    ensures 0 < h.end && h.end + 16 <= h.limit && h.end in h.blocks
  {
  }

  /** The new block behind the old break, once it is listed. */
  lemma NewListed(h: Heap, page: int, f: int, len: int)
    requires Tiled(h) && page >= 32 && h.end + 16 + page <= h.limit && Focus(h, f, len)
    ensures h.end in h.blocks
    ensures var g := Grow(h, page);
            var k := PutIn(g, h.end);
            && OthersKept(h, g, f) && OthersKept(h, k, f) && Focus(k, f, len)
            && h.end in k.blocks && h.end != k.end && !k.blocks[h.end].used
  {
    GrowKept(h, page);
    var g := Grow(h, page);
    PutInKept(g, h.end);
    FocusKept(h, g, f, len);
    FocusKept(g, PutIn(g, h.end), f, len);
    hide Grow, Focus, PutIn;
    OthersTrans(h, g, PutIn(g, h.end), f);
  }

  lemma CoalescedPositive(h: Heap, a: int)
    requires Partial(h, {}) && a in h.blocks && a != h.end
    ensures CoalescePrev(h, a).1 > 0
  {
    assert Linked(h, a);
    if a != h.base {
      assert Linked(h, h.blocks[a].prev);
    }
  }

  lemma SetUsedKept(h: Heap, a: int, used: bool)
    requires a in h.blocks
    ensures OthersKept(h, SetUsed(h, a, used), a)
  {
    var g := SetUsed(h, a, used);
    forall x | x != a
      ensures Same(h, g, x)
    {
    }
  }

  /** Guarding all live payloads guards more than guarding those that were live before. */
  lemma MarkedUsed(h: Heap, a: int, m: Memory, m': Memory)
    requires Tiled(h) && a in h.blocks && !h.blocks[a].used && Undisturbed(SetUsed(h, a, true), 0, 0, m, m')
    ensures Undisturbed(h, 0, 0, m, m')
  {
    var g := SetUsed(h, a, true);
    forall w | Guarded(h, 0, 0, w)
      ensures Read(m', w) == Read(m, w)
    {
      if x :| x != 0 && Live(h, x) && x + 16 <= w < x + 16 + h.blocks[x].size {
        assert Live(g, x) && g.blocks[x].size == h.blocks[x].size;
      }
      assert Guarded(g, 0, 0, w);
    }
  }

  lemma SplitListed(h: Heap, g: Heap, s: int, f: int, len: int)
    requires OthersKept(h, g, f) && Focus(g, f, len)
    ensures OthersKept(h, PutIn(g, s), f) && Focus(PutIn(g, s), f, len)
  {
    PutInKept(g, s);
    FocusKept(g, PutIn(g, s), f, len);
    OthersTrans(h, g, PutIn(g, s), f);
  }

  // ----- copying a payload

  /** `memcpy` of `n` bytes, word by word. */
  function CopyWords(m: Memory, dst: int, src: int, n: nat): Memory
    decreases n
  {
    if n < 8 then m else CopyWords(m, dst, src, n - 8)[dst + n - 8 := Read(m, src + n - 8)]
  }

  lemma {:induction false} CopyWordsReads(m: Memory, dst: int, src: int, n: nat)
    requires n % 8 == 0
    ensures forall w :: !(dst <= w < dst + n) ==> Read(CopyWords(m, dst, src, n), w) == Read(m, w)
    ensures forall o :: 0 <= o < n && o % 8 == 0 ==> Read(CopyWords(m, dst, src, n), dst + o) == Read(m, src + o)
    decreases n
  {
    if n >= 8 {
      CopyWordsReads(m, dst, src, n - 8);
      forall o | 0 <= o < n && o % 8 == 0
        ensures Read(CopyWords(m, dst, src, n), dst + o) == Read(m, src + o)
      {
        assert o < n - 8 || o == n - 8;
      }
    }
  }

  /** Writing the payload of a live block leaves headers and links alone. */
  lemma PayloadWritten(m: Memory, m': Memory, h: Heap, loose: set<int>, c: int)
    requires Stored(m, h, loose) && Live(h, c)
    requires forall w :: !(c + 16 <= w < c + 16 + h.blocks[c].size) ==> Read(m', w) == Read(m, w)
    ensures Stored(m', h, loose)
  {
    forall a | a in h.blocks
      ensures HeaderOk(m', h, a)
    {
      assert HeaderOk(m, h, a);
      if a != c {
        BlocksApart(h, a, c);
      }
    }
    forall i | 0 <= i < |h.free|
      ensures LinkOk(m', h.free, i)
    {
      assert LinkOk(m, h.free, i);
      ListedFree(h, loose, i);
      BlocksApart(h, h.free[i], c);
    }
  }

  /** A block that was not live before is out of the way of the others. */
  lemma NewPayloadUnguarded(h: Heap, g: Heap, a: int, c: int, m: Memory, m': Memory)
    requires Tiled(g) && OthersKept(h, g, c) && !Live(h, c) && Live(g, c)
    requires forall w :: !(c + 16 <= w < c + 16 + g.blocks[c].size) ==> Read(m', w) == Read(m, w)
    ensures Undisturbed(h, a, 0, m, m')
  {
    assert Linked(g, c);
    forall w | Guarded(h, a, 0, w)
      ensures Read(m', w) == Read(m, w)
    {
      if x :| x != a && Live(h, x) && x + 16 <= w < x + 16 + h.blocks[x].size {
        assert Same(h, g, x);
        BlocksApart(g, x, c);
      }
    }
  }

  /** Guarding everything guards the bytes of each live block. */
  lemma GuardAll(h: Heap, f: int, len: int, m: Memory, m': Memory)
    requires Undisturbed(h, 0, 0, m, m') && Focus(h, f, len) && Tiled(h)
    ensures Undisturbed(h, f, len, m, m')
  {
    forall w | Guarded(h, f, len, w)
      ensures Read(m', w) == Read(m, w)
    {
      assert Live(h, f) ==> Linked(h, f);
      if x :| x != f && Live(h, x) && x + 16 <= w < x + 16 + h.blocks[x].size {
        assert Linked(h, x);
      }
      assert Guarded(h, 0, 0, w);
    }
  }

  lemma GuardLess(h: Heap, f: int, len: int, len': int, m: Memory, m': Memory)
    requires Undisturbed(h, f, len, m, m') && len' <= len
    ensures Undisturbed(h, f, len', m, m')
  {
    forall w | Guarded(h, f, len', w)
      ensures Read(m', w) == Read(m, w)
    {
      assert Guarded(h, f, len, w);
    }
  }

  /** A heap with one more live block guards at least as much. */
  lemma GuardMore(h: Heap, g: Heap, a: int, c: int, m: Memory, m': Memory)
    requires OthersKept(h, g, c) && !Live(h, c) && Undisturbed(g, a, 0, m, m')
    ensures Undisturbed(h, a, 0, m, m')
  {
    forall w | Guarded(h, a, 0, w)
      ensures Read(m', w) == Read(m, w)
    {
      if x :| x != a && Live(h, x) && x + 16 <= w < x + 16 + h.blocks[x].size {
        assert Same(h, g, x);
      }
      assert Guarded(g, a, 0, w);
    }
  }

  /** The first `len` bytes at `src` are found at `dst` afterwards. */
  ghost predicate Carried(m: Memory, src: int, m': Memory, dst: int, len: int) {
    forall o {:trigger CarriedAt(m, src, m', dst, o)} :: 0 <= o < len && o % 8 == 0 ==> CarriedAt(m, src, m', dst, o)
  }

  ghost predicate CarriedAt(m: Memory, src: int, m': Memory, dst: int, o: int) {
    Read(m', dst + o) == Read(m, src + o)
  }

  lemma CarriedInPlace(h: Heap, a: int, len: int, m: Memory, m': Memory)
    requires Undisturbed(h, a, len, m, m')
    ensures Carried(m, a + 16, m', a + 16, len)
  {
    forall o | 0 <= o < len && o % 8 == 0
      ensures CarriedAt(m, a + 16, m', a + 16, o)
    {
      assert Guarded(h, a, len, a + 16 + o);
    }
  }

  lemma CarriedLess(m: Memory, src: int, m': Memory, dst: int, len: int, len': int)
    requires Carried(m, src, m', dst, len) && len' <= len
    ensures Carried(m, src, m', dst, len')
  {
  }

  /** Through malloc, copy and free, the bytes of `a` reach `c`, and no other live byte changes. */
  lemma Moved(h: Heap, g: Heap, a: int, c: int, orig: nat, m: Memory, m2: Memory, m3: Memory, m4: Memory)
    requires Tiled(h) && Tiled(g) && OthersKept(h, g, c) && !Live(h, c) && Live(g, c) && Live(h, a)
    requires orig % 8 == 0 && orig <= h.blocks[a].size && orig <= g.blocks[c].size
             && m3 == CopyWords(m2, c + 16, a + 16, orig)
    requires Undisturbed(h, 0, 0, m, m2) && Undisturbed(g, a, 0, m3, m4)
    ensures Carried(m, a + 16, m4, c + 16, orig) && Undisturbed(h, a, 0, m, m4)
  {
    CopyWordsReads(m2, c + 16, a + 16, orig);
    GuardAll(h, a, 0, m, m2);
    NewPayloadUnguarded(h, g, a, c, m2, m3);
    GuardMore(h, g, a, c, m3, m4);
    UndisturbedJoin(h, a, 0, m, m2, m3);
    UndisturbedJoin(h, a, 0, m, m3, m4);
    assert Linked(h, a);
    forall o | 0 <= o < orig && o % 8 == 0
      ensures CarriedAt(m, a + 16, m4, c + 16, o)
    {
      assert Guarded(g, a, 0, c + 16 + o);
      assert Guarded(h, 0, 0, a + 16 + o);
    }
  }

  lemma CopyStored(m: Memory, h: Heap, c: int, src: int, n: nat)
    requires Stored(m, h, {}) && Live(h, c) && n % 8 == 0 && n <= h.blocks[c].size
    ensures Stored(CopyWords(m, c + 16, src, n), h, {})
  {
    hide Stored;
    CopyWordsReads(m, c + 16, src, n);
    PayloadWritten(m, CopyWords(m, c + 16, src, n), h, {}, c);
  }

  lemma StillLive(h: Heap, g: Heap, a: int, c: int)
    requires OthersKept(h, g, c) && Live(h, a) && !Live(h, c)
    ensures Live(g, a) && g.blocks[a].size == h.blocks[a].size && a != c
  {
    assert Same(h, g, a);
  }

  lemma FocusGrown(h: Heap, g: Heap, a: int, len: int)
    requires Live(h, a) && Live(g, a) && h.blocks[a].size <= g.blocks[a].size && Focus(h, a, len)
    ensures Focus(g, a, len)
  {
  }

  lemma CarriedSelf(m: Memory, a: int, len: int)
    ensures Carried(m, a, m, a, len)
  {
  }

  lemma CarriedTrans(m: Memory, a: int, m': Memory, b: int, m'': Memory, c: int, len: int)
    requires Carried(m, a, m', b, len) && Carried(m', b, m'', c, len)
    ensures Carried(m, a, m'', c, len)
  {
    forall o | 0 <= o < len && o % 8 == 0
      ensures CarriedAt(m, a, m'', c, o)
    {
      assert CarriedAt(m, a, m', b, o) && CarriedAt(m', b, m'', c, o);
    }
  }

  lemma WholeFocus(h: Heap, a: int)
    requires Live(h, a)
    ensures Focus(h, a, h.blocks[a].size)
  {
  }

  lemma PartFocus(h: Heap, a: int, n: int)
    requires Live(h, a) && n <= h.blocks[a].size
    ensures Focus(h, a, n)
  {
  }

  /** A block that stays in place carries its first bytes. */
  lemma InPlace(h: Heap, a: int, len: int, len': int, m: Memory, m': Memory)
    requires Undisturbed(h, a, len, m, m') && len >= 0 && len' <= len
    ensures Undisturbed(h, a, 0, m, m') && Carried(m, a + 16, m', a + 16, len')
  {
    GuardLess(h, a, len, 0, m, m');
    CarriedInPlace(h, a, len, m, m');
    CarriedLess(m, a + 16, m', a + 16, len, len');
  }

  // ----- creation

  /** The header writes of `gca_create` to a region of zeros. */
  function CreateWrites(bottom: int, top: int): Memory {
    var m1 := PutUsed(PutSize(map[], bottom, 0), bottom, true);
    var m2 := PutUsed(PutSize(m1, top + 8, 0), top + 8, true);
    var m3 := PutUsed(PutSize(m2, bottom + 8, 4064), bottom + 8, false);
    PutUsed(PutSize(m3, top, 4064), top, false)
  }

  /** They describe one free block, not yet listed, below the sentinel. */
  lemma FreshStored(base: int, top: int, limit: int)
    requires 0 < base && base % 16 == 0 && top == base + 4080 && top + 16 <= limit
    ensures Stored(CreateWrites(base, top), Fresh(base, top, limit).(free := []), {base})
  {
    var h := Fresh(base, top, limit);
    FreshInv(base, top, limit);
    TakeOutKeeps(h, {}, base);
    var g := h.(free := []);
    assert TakeOut(h, base) == g && {} + {base} == {base};
    CreateTags(base, top);
    hide CreateWrites, InfoSize, InfoUsed, Partial;
    assert HeaderOk(CreateWrites(base, top), g, base) && HeaderOk(CreateWrites(base, top), g, top);
  }

  lemma CreateTags(bottom: int, top: int)
    requires top == bottom + 4080
    ensures var m := CreateWrites(bottom, top);
            Tag(m, bottom, 0, true) && Tag(m, bottom + 8, 4064, false) && Tag(m, top, 4064, false)
            && Tag(m, top + 8, 0, true)
  {
    hide InfoSize, InfoUsed, WithSize, WithUsed;
    Retagged(map[], bottom, 0, true);
    var m1 := PutUsed(PutSize(map[], bottom, 0), bottom, true);
    Retagged(m1, top + 8, 0, true);
    var m2 := PutUsed(PutSize(m1, top + 8, 0), top + 8, true);
    Retagged(m2, bottom + 8, 4064, false);
    var m3 := PutUsed(PutSize(m2, bottom + 8, 4064), bottom + 8, false);
    Retagged(m3, top, 4064, false);
  }
}
