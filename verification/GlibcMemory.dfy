/** How the boundary-tag heap is laid out in memory words: two info words in front of each
    payload, and free-list links inside free payloads. */
module GlibcMemory {
  import opened Words
  import opened GlibcHeap
  import opened GlibcOps

  // ----- info words: the low three bits are flags, of which only bit 0, "used", has a meaning

  /** `gca_size`. */
  function InfoSize(w: int): int {
    w / 8 * 8
  }

  /** `gca_used`. */
  predicate InfoUsed(w: int) {
    w % 2 == 1
  }

  /** `gca_set_size`: all three flag bits stay. */
  function PutSize(m: Memory, x: int, size: int): Memory {
    m[x := WithSize(Read(m, x), size)]
  }

  function WithSize(w: int, size: int): int {
    size + w % 8
  }

  /** `gca_set_used`: only bit 0 changes. */
  function PutUsed(m: Memory, x: int, used: bool): Memory {
    m[x := WithUsed(Read(m, x), used)]
  }

  function WithUsed(w: int, used: bool): int {
    w - w % 2 + if used then 1 else 0
  }

  /** The info word at `x` says size and used flag. Bits 1 and 2 may be anything. */
  ghost predicate Tag(m: Memory, x: int, size: int, used: bool) {
    InfoSize(Read(m, x)) == size && InfoUsed(Read(m, x)) == used
  }

  lemma PutSizeTags(m: Memory, x: int, size: int)
    requires size % 8 == 0
    ensures Tag(PutSize(m, x, size), x, size, InfoUsed(Read(m, x)))
  {
    Flags(size, Read(m, x));
  }

  lemma Flags(size: int, w: int)
    requires size % 8 == 0
    ensures InfoSize(size + w % 8) == size && InfoUsed(size + w % 8) == InfoUsed(w)
  {
    Eighth(size / 8, w % 8);
    Eighth(w / 8, w % 8);
  }

  lemma PutUsedTags(m: Memory, x: int, used: bool)
    ensures Tag(PutUsed(m, x, used), x, InfoSize(Read(m, x)), used)
  {
    FlagSet(Read(m, x), used);
  }

  lemma FlagSet(w: int, used: bool)
    ensures var v := w - w % 2 + (if used then 1 else 0); InfoSize(v) == InfoSize(w) && InfoUsed(v) == used
  {
    var q, r := w / 8, w % 8;
    Eighth(q, r);
    var t := r - r % 2 + if used then 1 else 0;
    Eighth(q, t);
  }

  lemma Eighth(q: int, r: int)
    requires 0 <= r < 8
    ensures InfoSize(8 * q + r) == 8 * q && (8 * q + r) % 2 == r % 2
  {
    assert (8 * q + r) / 8 == q;
    Even(4 * q, r);
  }

  lemma Even(q: int, r: int)
    ensures (2 * q + r) % 2 == r % 2
  {
  }

  /** Setting size and flag of any word, in either order. */
  lemma Retagged(m: Memory, x: int, size: int, used: bool)
    requires size % 8 == 0
    ensures Tag(PutUsed(PutSize(m, x, size), x, used), x, size, used)
    ensures Tag(PutSize(PutUsed(m, x, used), x, size), x, size, used)
  {
    PutSizeTags(m, x, size);
    PutUsedTags(PutSize(m, x, size), x, used);
    PutUsedTags(m, x, used);
    PutSizeTags(PutUsed(m, x, used), x, size);
  }

  lemma Eighths(x: int)
    requires x % 16 == 0
    ensures x % 8 == 0
  {
  }

  // ----- headers

  ghost function PrevSize(h: Heap, a: int): int
    requires a in h.blocks
  {
    if a == h.base || h.blocks[a].prev !in h.blocks then 0 else h.blocks[h.blocks[a].prev].size
  }

  ghost predicate PrevUsed(h: Heap, a: int)
    requires a in h.blocks
  {
    a == h.base || h.blocks[a].prev !in h.blocks || h.blocks[h.blocks[a].prev].used
  }

  /** The header of `a` holds its own size and used flag and mirrors those of the block before;
      the lowest block sees a used block of size zero before it. */
  ghost predicate HeaderOk(m: Memory, h: Heap, a: int)
    requires a in h.blocks
  {
    Tag(m, a, PrevSize(h, a), PrevUsed(h, a)) && Tag(m, a + 8, h.blocks[a].size, h.blocks[a].used)
  }

  ghost predicate Headers(m: Memory, h: Heap) {
    forall a {:trigger HeaderOk(m, h, a)} :: a in h.blocks ==> HeaderOk(m, h, a)
  }

  // ----- the free list

  /** The `i`th block of the list points to its neighbours, and to null at the ends. */
  ghost predicate LinkOk(m: Memory, l: seq<int>, i: int)
    requires 0 <= i < |l|
  {
    && Read(m, l[i] + 16) == (if i > 0 then l[i - 1] else 0)
    && Read(m, l[i] + 24) == (if i + 1 < |l| then l[i + 1] else 0)
  }

  ghost predicate ListOk(m: Memory, l: seq<int>) {
    forall i {:trigger LinkOk(m, l, i)} :: 0 <= i < |l| ==> LinkOk(m, l, i)
  }

  ghost predicate Stored(m: Memory, h: Heap, loose: set<int>) {
    Partial(h, loose) && Headers(m, h) && ListOk(m, h.free)
  }

  // ----- which words an operation may write

  /** A word that must not change: outside the heap, in the payload of a live block other than
      `f`, or in the first `len` bytes of the payload of `f`. */
  ghost predicate Guarded(h: Heap, f: int, len: int, w: int) {
    || w < h.base || w >= h.limit || f + 16 <= w < f + 16 + len
    || exists x :: x != f && Live(h, x) && x + 16 <= w < x + 16 + h.blocks[x].size
  }

  ghost predicate Undisturbed(h: Heap, f: int, len: int, m: Memory, m': Memory) {
    forall w {:trigger Read(m', w)} :: Guarded(h, f, len, w) ==> Read(m', w) == Read(m, w)
  }

  /** The first `len` bytes of `f` are part of a live payload. */
  ghost predicate Focus(h: Heap, f: int, len: int) {
    len <= 0 || (Live(h, f) && len <= h.blocks[f].size)
  }

  lemma GuardedSame(h: Heap, g: Heap, f: int, len: int, w: int)
    requires OthersKept(h, g, f)
    ensures Guarded(h, f, len, w) <==> Guarded(g, f, len, w)
  {
    if x :| x != f && Live(h, x) && x + 16 <= w < x + 16 + h.blocks[x].size {
      assert Same(h, g, x);
    }
    if x :| x != f && Live(g, x) && x + 16 <= w < x + 16 + g.blocks[x].size {
      assert Same(h, g, x);
    }
  }

  lemma UndisturbedTrans(h: Heap, g: Heap, f: int, len: int, m: Memory, m': Memory, m'': Memory)
    requires OthersKept(h, g, f) && Undisturbed(h, f, len, m, m') && Undisturbed(g, f, len, m', m'')
    ensures Undisturbed(h, f, len, m, m'')
  {
    forall w | Guarded(h, f, len, w)
      ensures Read(m'', w) == Read(m, w)
    {
      GuardedSame(h, g, f, len, w);
      assert Read(m', w) == Read(m, w);
    }
  }

  lemma BlocksApart(h: Heap, a: int, b: int)
    requires Tiled(h) && a in h.blocks && b in h.blocks && a != b
    ensures a < b ==> a + 16 + h.blocks[a].size <= b
    ensures b < a ==> b + 16 + h.blocks[b].size <= a
    ensures a < b ==> a + 16 <= b
    ensures b < a ==> b + 16 <= a
  {
    assert Apart(h, a, b) && Apart(h, b, a) && Linked(h, a) && Linked(h, b);
  }

  /** A header word is never guarded. */
  lemma HeaderUnguarded(h: Heap, f: int, len: int, a: int, w: int)
    requires Tiled(h) && Focus(h, f, len) && a in h.blocks && (w == a || w == a + 8)
    ensures !Guarded(h, f, len, w)
  {
    assert Linked(h, a);
    forall x | Live(h, x)
      ensures !(x + 16 <= w < x + 16 + h.blocks[x].size)
    {
      if x != a {
        BlocksApart(h, a, x);
      }
    }
  }

  /** The words of a free block are not guarded. */
  lemma FreeUnguarded(h: Heap, f: int, len: int, a: int, w: int)
    requires Tiled(h) && Focus(h, f, len) && a in h.blocks && !h.blocks[a].used && a <= w < a + 16 + h.blocks[a].size
    ensures !Guarded(h, f, len, w)
  {
    assert Linked(h, a);
    forall x | Live(h, x)
      ensures !(x + 16 <= w < x + 16 + h.blocks[x].size)
    {
      BlocksApart(h, a, x);
    }
  }

  // ----- free-list surgery

  lemma ListedFree(h: Heap, loose: set<int>, i: int)
    requires Partial(h, loose) && 0 <= i < |h.free|
    ensures var b := h.free[i];
            b in h.blocks && !h.blocks[b].used && b !in loose && b != h.end && 16 <= h.blocks[b].size && 0 < b
  {
    assert h.free[i] in h.free;
    assert Listed(h, loose, h.free[i]) && Linked(h, h.free[i]);
  }

  /** A word that is a link of no listed block may be written. */
  lemma OtherWord(m: Memory, l: seq<int>, x: int, v: int)
    requires ListOk(m, l) && forall i :: 0 <= i < |l| ==> x != l[i] + 16 && x != l[i] + 24
    ensures ListOk(m[x := v], l)
  {
    var m' := m[x := v];
    forall i | 0 <= i < |l|
      ensures LinkOk(m', l, i)
    {
      assert LinkOk(m, l, i);
    }
  }

  /** Blocks of a list are 32 bytes apart at least, so their links are different words. */
  ghost predicate Spread(l: seq<int>) {
    && (forall i :: 0 <= i < |l| ==> 0 < l[i])
    && (forall i, j :: 0 <= i < j < |l| ==> l[i] - l[j] >= 32 || l[j] - l[i] >= 32)
  }

  lemma ListSpread(h: Heap, loose: set<int>)
    requires Partial(h, loose)
    ensures Spread(h.free)
  {
    forall i | 0 <= i < |h.free|
      ensures 0 < h.free[i]
    {
      ListedFree(h, loose, i);
    }
    forall i, j | 0 <= i < j < |h.free|
      ensures h.free[i] - h.free[j] >= 32 || h.free[j] - h.free[i] >= 32
    {
      ListedFree(h, loose, i);
      ListedFree(h, loose, j);
      BlocksApart(h, h.free[i], h.free[j]);
    }
  }

  /** The writes of `gca_remove_free_list`. */
  function RemoveWrites(m: Memory, b: int): Memory {
    var prev, next := Read(m, b + 16), Read(m, b + 24);
    var m1 := if prev != 0 then m[prev + 24 := next] else m;
    if next != 0 then m1[next + 16 := prev] else m1
  }

  /** The writes of `gca_add_free_list` to a list with the given head. */
  function AddWrites(m: Memory, b: int, head: int): Memory {
    var m1 := m[b + 16 := 0][b + 24 := head];
    if head != 0 then m1[head + 16 := b] else m1
  }

  lemma Unlinked(m: Memory, l: seq<int>, i: int)
    requires ListOk(m, l) && Spread(l) && 0 <= i < |l|
    ensures ListOk(RemoveWrites(m, l[i]), l[..i] + l[i + 1..])
  {
    var l' := l[..i] + l[i + 1..];
    forall j | 0 <= j < |l'|
      ensures LinkOk(RemoveWrites(m, l[i]), l', j)
    {
      UnlinkedAt(m, l, i, j);
    }
  }

  lemma UnlinkedAt(m: Memory, l: seq<int>, i: int, j: int)
    requires ListOk(m, l) && Spread(l) && 0 <= i < |l| && 0 <= j < |l| - 1
    ensures LinkOk(RemoveWrites(m, l[i]), l[..i] + l[i + 1..], j)
  {
    assert LinkOk(m, l, i);
    var prev, next := Read(m, l[i] + 16), Read(m, l[i] + 24);
    var m', l' := RemoveWrites(m, l[i]), l[..i] + l[i + 1..];
    var t := if j < i then j else j + 1;
    assert l'[j] == l[t];
    assert LinkOk(m, l, t);
    assert j + 1 < |l'| ==> l'[j + 1] == if j + 1 < i then l[j + 1] else l[j + 2];
    assert j > 0 ==> l'[j - 1] == if j - 1 < i then l[j - 1] else l[j];
    assert Read(m', l[t] + 16) == if t == i + 1 then prev else Read(m, l[t] + 16);
    assert Read(m', l[t] + 24) == if t == i - 1 then next else Read(m, l[t] + 24);
  }

  lemma Pushed(m: Memory, l: seq<int>, b: int)
    requires ListOk(m, l) && Spread([b] + l)
    ensures ListOk(AddWrites(m, b, if l == [] then 0 else l[0]), [b] + l)
  {
    var head := if l == [] then 0 else l[0];
    var m', l' := AddWrites(m, b, head), [b] + l;
    forall j | 0 <= j < |l'|
      ensures LinkOk(m', l', j)
    {
      PushedAt(m, l, b, j);
    }
  }

  lemma PushedAt(m: Memory, l: seq<int>, b: int, j: int)
    requires ListOk(m, l) && Spread([b] + l) && 0 <= j <= |l|
    ensures LinkOk(AddWrites(m, b, if l == [] then 0 else l[0]), [b] + l, j)
  {
    var l' := [b] + l;
    assert l'[0] == b && (l != [] ==> l'[1] == l[0]);
    if j > 0 {
      assert LinkOk(m, l, j - 1);
      assert l'[j] == l[j - 1] && (j > 1 ==> l'[j - 1] == l[j - 2]) && (j < |l| ==> l'[j + 1] == l[j]);
      assert l'[0] - l'[j] >= 32 || l'[j] - l'[0] >= 32;
      assert j > 1 ==> l'[1] - l'[j] >= 32 || l'[j] - l'[1] >= 32;
    } else {
      assert l != [] ==> l'[0] - l'[1] >= 32 || l'[1] - l'[0] >= 32;
    }
  }
}
