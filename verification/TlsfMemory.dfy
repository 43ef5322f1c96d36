/** How a TLSF pool is laid out in memory words: header words with flag bits, physical back
    links inside the preceding free block, and free-list links inside free payloads. */
module TlsfMemory {
  import opened Mapping
  import opened Words
  import opened Seqs
  import opened TlsfPool
  import opened TlsfOps
  import opened TlsfTheorems

  // ----- the size word: bit 0 is "free", bit 1 is "previous block free"

  function Encode(size: int, free: bool, prevFree: bool): int {
    size + (if free then 1 else 0) + (if prevFree then 2 else 0)
  }

  /** `block_size`. */
  function SizeOf(w: int): int {
    w / 4 * 4
  }

  /** `block_is_free`. */
  predicate FreeBit(w: int) {
    w % 2 == 1
  }

  /** `block_is_prev_free`. */
  predicate PrevBit(w: int) {
    w / 2 % 2 == 1
  }

  /** `block_set_size`: the flags stay. */
  function WithSize(w: int, size: int): int {
    size + w % 4
  }

  function WithFree(w: int): int {
    if FreeBit(w) then w else w + 1
  }

  function WithUsed(w: int): int {
    if FreeBit(w) then w - 1 else w
  }

  function WithPrevFree(w: int): int {
    if PrevBit(w) then w else w + 2
  }

  function WithPrevUsed(w: int): int {
    if PrevBit(w) then w - 2 else w
  }

  lemma MultipleOfFour(x: int)
    requires x % 8 == 0
    ensures x % 4 == 0
  {
  }

  lemma Decoded(size: int, f: bool, p: bool)
    requires size % 8 == 0
    ensures var w := Encode(size, f, p);
            && SizeOf(w) == size && FreeBit(w) == f && PrevBit(w) == p
            && WithFree(w) == Encode(size, true, p) && WithUsed(w) == Encode(size, false, p)
            && WithPrevFree(w) == Encode(size, f, true) && WithPrevUsed(w) == Encode(size, f, false)
  {
    MultipleOfFour(size);
    FlagsOver(size, f, p);
  }

  lemma FlagsOver(size: int, f: bool, p: bool)
    requires size % 4 == 0
    ensures var w := Encode(size, f, p);
            && SizeOf(w) == size && FreeBit(w) == f && PrevBit(w) == p
            && WithFree(w) == Encode(size, true, p) && WithUsed(w) == Encode(size, false, p)
            && WithPrevFree(w) == Encode(size, f, true) && WithPrevUsed(w) == Encode(size, f, false)
  {
  }

  /** Setting the size of any word keeps its flags, whatever they are. */
  lemma Resized(w: int, size: int)
    ensures WithSize(w, size) == Encode(size, FreeBit(w), PrevBit(w))
  {
  }

  // ----- headers

  ghost predicate PrevFree(p: Pool, a: int)
    requires a in p.blocks
  {
    a != p.first && p.blocks[a].prev in p.blocks && p.blocks[p.blocks[a].prev].free
  }

  /** The header of block `a` encodes its size, its free bit and its predecessor's, and points
      back to the predecessor when that is free. */
  ghost predicate HeaderOk(m: Memory, p: Pool, a: int)
    requires a in p.blocks
  {
    && Read(m, a + 8) == Encode(p.blocks[a].size, p.blocks[a].free, PrevFree(p, a))
    && (PrevFree(p, a) ==> Read(m, a) == p.blocks[a].prev)
  }

  ghost predicate Headers(m: Memory, p: Pool) {
    forall a {:trigger HeaderOk(m, p, a)} :: a in p.blocks ==> HeaderOk(m, p, a)
  }

  // ----- free-list links

  /** The `i`th block of a list is linked to its neighbours, and to the null block at the ends. */
  ghost predicate LinkOk(m: Memory, l: seq<int>, nil: int, i: int)
    requires 0 <= i < |l|
  {
    && Read(m, l[i] + 16) == (if i + 1 < |l| then l[i + 1] else nil)
    && Read(m, l[i] + 24) == (if i > 0 then l[i - 1] else nil)
  }

  ghost predicate ListOk(m: Memory, l: seq<int>, nil: int) {
    forall i {:trigger LinkOk(m, l, nil, i)} :: 0 <= i < |l| ==> LinkOk(m, l, nil, i)
  }

  ghost predicate Links(m: Memory, p: Pool, nil: int) {
    forall k {:trigger ListOk(m, p.lists[k], nil)} :: 0 <= k < |p.lists| ==> ListOk(m, p.lists[k], nil)
  }

  // ----- which words an operation may write

  /** A word of a live payload, or outside the pool and the null block's links. */
  ghost predicate Guarded(p: Pool, nil: int, w: int) {
    || (exists a :: a in Live(p) && a + 16 <= w < a + 16 + p.blocks[a].size)
    || !(p.first + 8 <= w < p.end + 16 || w == nil + 16 || w == nil + 24)
  }

  /** No guarded word changes. */
  ghost predicate Undisturbed(p: Pool, nil: int, m: Memory, m': Memory) {
    forall w {:trigger Read(m', w)} :: Guarded(p, nil, w) ==> Read(m', w) == Read(m, w)
  }

  /** The null block lies below the pool. */
  ghost predicate Below(p: Pool, nil: int) {
    0 < nil && nil + 32 <= p.first + 8
  }

  /** The words of block `a` are its size word and its payload; words of different blocks differ. */
  lemma WordsApart(p: Pool, a: int, b: int)
    requires Tiled(p) && a in p.blocks && b in p.blocks && a != b
    ensures a < b ==> a + 16 + p.blocks[a].size <= b + 8
    ensures b < a ==> b + 16 + p.blocks[b].size <= a + 8
  {
    assert Apart(p, a, b) && Apart(p, b, a);
  }

  /** A size word is never guarded. */
  lemma SizeWordUnguarded(p: Pool, nil: int, a: int)
    requires Tiled(p) && Below(p, nil) && a in p.blocks
    ensures !Guarded(p, nil, a + 8)
  {
    assert Linked(p, a);
    forall b | b in Live(p)
      ensures !(b + 16 <= a + 8 < b + 16 + p.blocks[b].size)
    {
      if a != b {
        WordsApart(p, a, b);
      }
    }
  }

  /** The words of a free block are not guarded. */
  lemma FreeWordUnguarded(p: Pool, nil: int, a: int, w: int)
    requires Tiled(p) && Below(p, nil) && a in p.blocks && p.blocks[a].free
    requires a + 8 <= w < a + 16 + p.blocks[a].size
    ensures !Guarded(p, nil, w)
  {
    assert Linked(p, a);
    forall b | b in Live(p)
      ensures !(b + 16 <= w < b + 16 + p.blocks[b].size)
    {
      WordsApart(p, a, b);
    }
  }

  lemma NullWordUnguarded(p: Pool, nil: int)
    requires Tiled(p) && Below(p, nil)
    ensures !Guarded(p, nil, nil + 16) && !Guarded(p, nil, nil + 24)
  {
    forall b | b in Live(p)
      ensures b >= p.first
    {
      assert Linked(p, b);
    }
  }

  lemma UndisturbedTrans(p: Pool, q: Pool, nil: int, m: Memory, m': Memory, m'': Memory)
    requires SameLive(p, q) && Undisturbed(p, nil, m, m') && Undisturbed(q, nil, m', m'')
    ensures Undisturbed(p, nil, m, m'')
  {
    forall w | Guarded(p, nil, w)
      ensures Read(m'', w) == Read(m, w)
    {
      assert Guarded(q, nil, w) by {
        if a :| a in Live(p) && a + 16 <= w < a + 16 + p.blocks[a].size {
          assert a in Live(q);
        }
      }
      assert Read(m', w) == Read(m, w);
    }
  }

  // ----- header words and link words do not meet

  /** `b` is the null block or a free block. */
  ghost predicate Linkable(p: Pool, nil: int, b: int) {
    b == nil || (b in p.blocks && p.blocks[b].free && b != p.end)
  }

  lemma LinkWriteKeepsHeaders(m: Memory, p: Pool, nil: int, b: int, x: int, v: int)
    requires Tiled(p) && Below(p, nil) && Linkable(p, nil, b) && (x == b + 16 || x == b + 24)
    requires Headers(m, p)
    ensures Headers(m[x := v], p) && Undisturbed(p, nil, m, m[x := v])
  {
    forall a | a in p.blocks
      ensures HeaderOk(m[x := v], p, a)
    {
      assert HeaderOk(m, p, a);
      LinkWordNotHeader(p, nil, b, x, a);
    }
    if b == nil {
      NullWordUnguarded(p, nil);
    } else {
      assert Linked(p, b);
      FreeWordUnguarded(p, nil, b, x);
    }
  }

  lemma LinkWordNotHeader(p: Pool, nil: int, b: int, x: int, a: int)
    requires Tiled(p) && Below(p, nil) && Linkable(p, nil, b) && (x == b + 16 || x == b + 24) && a in p.blocks
    ensures x != a + 8 && (PrevFree(p, a) ==> x != a)
  {
    assert Linked(p, a);
    if b != nil {
      assert Linked(p, b);
      if a != b {
        WordsApart(p, a, b);
      }
    }
  }

  /** `x` is the size word of block `a` or the back link stored at its end. */
  ghost predicate HeaderWord(p: Pool, a: int, x: int)
    requires a in p.blocks
  {
    x == a + 8 || (a != p.end && x == Next(p, a))
  }

  lemma HeaderWriteKeepsLinks(m: Memory, p: Pool, nil: int, loose: set<int>, a: int, x: int, v: int)
    requires Partial(p, loose) && Links(m, p, nil) && a in p.blocks && HeaderWord(p, a, x)
    ensures Links(m[x := v], p, nil)
  {
    forall k | 0 <= k < |p.lists|
      ensures ListOk(m[x := v], p.lists[k], nil)
    {
      var l := p.lists[k];
      assert ListOk(m, l, nil);
      forall i | 0 <= i < |l|
        ensures x != l[i] + 16 && x != l[i] + 24
      {
        ListedBlock(p, loose, k, i);
        HeaderWordNotLink(p, a, x, l[i]);
      }
      OtherList(m, m[x := v], l, nil);
    }
  }

  lemma ListedBlock(p: Pool, loose: set<int>, k: int, i: int)
    requires Indexed(p, loose) && 0 <= k < |p.lists| && 0 <= i < |p.lists[k]|
    ensures Listed(p, loose, p.lists[k][i], k)
  {
    assert p.lists[k][i] in p.lists[k];
    assert Listed(p, loose, p.lists[k][i], k);
  }

  lemma HeaderWordNotLink(p: Pool, a: int, x: int, b: int)
    requires Tiled(p) && a in p.blocks && HeaderWord(p, a, x) && b in p.blocks && b != p.end
    ensures x != b + 16 && x != b + 24
  {
    assert Linked(p, a) && Linked(p, b);
    if a != b {
      WordsApart(p, a, b);
    }
  }

  // ----- free-list surgery

  /** A list keeps its links when the memory changes only at links of blocks outside it. */
  lemma OtherList(m: Memory, m': Memory, l: seq<int>, nil: int)
    requires ListOk(m, l, nil)
    requires forall i :: 0 <= i < |l| ==>
               Read(m', l[i] + 16) == Read(m, l[i] + 16) && Read(m', l[i] + 24) == Read(m, l[i] + 24)
    ensures ListOk(m', l, nil)
  {
    forall i | 0 <= i < |l|
      ensures LinkOk(m', l, nil, i)
    {
      assert LinkOk(m, l, nil, i);
    }
  }

  /** Link words of different blocks, and of the null block, are different words. */
  ghost predicate Spread(l: seq<int>, nil: int) {
    && (forall i :: 0 <= i < |l| ==> l[i] - nil >= 16)
    && (forall i, j :: 0 <= i < j < |l| ==> l[i] - l[j] >= 16 || l[j] - l[i] >= 16)
  }

  /** Unlinking the block at index `i` leaves the list without it. */
  lemma Unlinked(m: Memory, l: seq<int>, nil: int, i: int)
    requires ListOk(m, l, nil) && Spread(l, nil) && 0 <= i < |l|
    ensures var next := Read(m, l[i] + 16);
            var prev := Read(m, l[i] + 24);
            ListOk(m[next + 24 := prev][prev + 16 := next], l[..i] + l[i + 1..], nil)
  {
    assert LinkOk(m, l, nil, i);
    var next, prev := Read(m, l[i] + 16), Read(m, l[i] + 24);
    var m' := m[next + 24 := prev][prev + 16 := next];
    var l' := l[..i] + l[i + 1..];
    forall j | 0 <= j < |l'|
      ensures LinkOk(m', l', nil, j)
    {
      UnlinkedAt(m, l, nil, i, j);
    }
  }

  lemma UnlinkedAt(m: Memory, l: seq<int>, nil: int, i: int, j: int)
    requires ListOk(m, l, nil) && Spread(l, nil) && 0 <= i < |l| && 0 <= j < |l| - 1
    ensures var next := Read(m, l[i] + 16);
            var prev := Read(m, l[i] + 24);
            LinkOk(m[next + 24 := prev][prev + 16 := next], l[..i] + l[i + 1..], nil, j)
  {
    assert LinkOk(m, l, nil, i);
    var next, prev := Read(m, l[i] + 16), Read(m, l[i] + 24);
    var m' := m[next + 24 := prev][prev + 16 := next];
    var l' := l[..i] + l[i + 1..];
    var t := if j < i then j else j + 1;
    assert l'[j] == l[t];
    assert LinkOk(m, l, nil, t);
    assert j + 1 < |l'| ==> l'[j + 1] == if j + 1 < i then l[j + 1] else l[j + 2];
    assert j > 0 ==> l'[j - 1] == if j - 1 < i then l[j - 1] else l[j];
    assert Read(m', l[t] + 16) == if t == i - 1 then next else Read(m, l[t] + 16);
    assert Read(m', l[t] + 24) == if t == i + 1 then prev else Read(m, l[t] + 24);
  }

  /** Pushing a block not in the list in front of it. */
  lemma Pushed(m: Memory, l: seq<int>, nil: int, b: int)
    requires ListOk(m, l, nil) && Spread([b] + l, nil)
    ensures var head := if l == [] then nil else l[0];
            ListOk(m[b + 16 := head][b + 24 := nil][head + 24 := b], [b] + l, nil)
  {
    var head := if l == [] then nil else l[0];
    var m' := m[b + 16 := head][b + 24 := nil][head + 24 := b];
    var l' := [b] + l;
    forall j | 0 <= j < |l'|
      ensures LinkOk(m', l', nil, j)
    {
      if j > 0 {
        assert LinkOk(m, l, nil, j - 1);
        assert l'[j] == l[j - 1];
        assert l'[0] == b && l'[1] == l[0];
      } else {
        assert l != [] ==> l'[1] == l[0] && l'[0] == b;
      }
    }
  }

  // ----- lists of a pool

  lemma BlockSpread(p: Pool, nil: int, a: int, b: int)
    requires Tiled(p) && Below(p, nil) && a in p.blocks && b in p.blocks
    ensures a - nil >= 16
    ensures a != b && a != p.end && b != p.end ==> a - b >= 16 || b - a >= 16
  {
    assert Linked(p, a) && Linked(p, b);
    if a != b {
      WordsApart(p, a, b);
    }
  }

  lemma ListSpread(p: Pool, loose: set<int>, nil: int, k: int)
    requires Partial(p, loose) && Below(p, nil) && 0 <= k < |p.lists|
    ensures Spread(p.lists[k], nil)
  {
    var l := p.lists[k];
    forall i | 0 <= i < |l|
      ensures l[i] - nil >= 16
    {
      ListedBlock(p, loose, k, i);
      BlockSpread(p, nil, l[i], l[i]);
    }
    forall i, j | 0 <= i < j < |l|
      ensures l[i] - l[j] >= 16 || l[j] - l[i] >= 16
    {
      ListedBlock(p, loose, k, i);
      ListedBlock(p, loose, k, j);
      BlockSpread(p, nil, l[i], l[j]);
    }
  }

  /** Changing a link of `b`, the null block or a block outside list `j`, keeps list `j`. */
  lemma LinkWriteKeepsList(m: Memory, p: Pool, loose: set<int>, nil: int, j: int, b: int, x: int, v: int)
    requires Partial(p, loose) && Below(p, nil) && 0 <= j < |p.lists| && ListOk(m, p.lists[j], nil)
    requires Linkable(p, nil, b) && (b == nil || b !in p.lists[j]) && (x == b + 16 || x == b + 24)
    ensures ListOk(m[x := v], p.lists[j], nil)
  {
    var l := p.lists[j];
    forall i | 0 <= i < |l|
      ensures x != l[i] + 16 && x != l[i] + 24
    {
      ListedBlock(p, loose, j, i);
      assert l[i] in l;
      if b == nil {
        BlockSpread(p, nil, l[i], l[i]);
      } else {
        BlockSpread(p, nil, l[i], b);
      }
    }
    OtherList(m, m[x := v], l, nil);
  }

  /** A block is in no list but its own. */
  lemma ListsDisjoint(p: Pool, loose: set<int>, k: int, i: int, j: int)
    requires Indexed(p, loose) && 0 <= k < |p.lists| && 0 <= i < |p.lists[k]| && 0 <= j < |p.lists| && j != k
    ensures p.lists[k][i] !in p.lists[j]
  {
    ListedBlock(p, loose, k, i);
    assert !Listed(p, loose, p.lists[k][i], j);
  }

  /** The neighbours of a listed block are the null block or other blocks of its list. */
  lemma Neighbours(m: Memory, p: Pool, loose: set<int>, nil: int, k: int, i: int)
    requires Partial(p, loose) && 0 <= k < |p.lists| && 0 <= i < |p.lists[k]| && ListOk(m, p.lists[k], nil)
    ensures var l := p.lists[k];
            var next, prev := Read(m, l[i] + 16), Read(m, l[i] + 24);
            && next == (if i + 1 < |l| then l[i + 1] else nil) && prev == (if i > 0 then l[i - 1] else nil)
            && Linkable(p, nil, next) && Linkable(p, nil, prev)
            && (forall j :: 0 <= j < |p.lists| && j != k ==>
                  (next == nil || next !in p.lists[j]) && (prev == nil || prev !in p.lists[j]))
  {
    var l := p.lists[k];
    assert LinkOk(m, l, nil, i);
    if i + 1 < |l| {
      ListedBlock(p, loose, k, i + 1);
    }
    if i > 0 {
      ListedBlock(p, loose, k, i - 1);
    }
    forall j | 0 <= j < |p.lists| && j != k
      ensures i + 1 < |l| ==> l[i + 1] !in p.lists[j]
      ensures i > 0 ==> l[i - 1] !in p.lists[j]
    {
      if i + 1 < |l| {
        ListsDisjoint(p, loose, k, i + 1, j);
      }
      if i > 0 {
        ListsDisjoint(p, loose, k, i - 1, j);
      }
    }
  }

  /** The two writes of `controller_remove_free_block` take one block out of its list. */
  lemma RemovedLinks(m: Memory, p: Pool, loose: set<int>, nil: int, k: int, i: int)
    requires Partial(p, loose) && Below(p, nil) && Headers(m, p) && Links(m, p, nil)
    requires 0 <= k < |p.lists| && 0 <= i < |p.lists[k]|
    ensures var l := p.lists[k];
            var next, prev := Read(m, l[i] + 16), Read(m, l[i] + 24);
            var m' := m[next + 24 := prev][prev + 16 := next];
            && Headers(m', p) && Undisturbed(p, nil, m, m')
            && Links(m', p.(lists := p.lists[k := Drop(l, l[i])]), nil)
  {
    var l := p.lists[k];
    assert ListOk(m, l, nil);
    Neighbours(m, p, loose, nil, k, i);
    var next, prev := Read(m, l[i] + 16), Read(m, l[i] + 24);
    var m1 := m[next + 24 := prev];
    var m' := m1[prev + 16 := next];
    LinkWriteKeepsHeaders(m, p, nil, next, next + 24, prev);
    LinkWriteKeepsHeaders(m1, p, nil, prev, prev + 16, next);
    hide Partial, Headers, ListOk, Undisturbed;
    var lists' := p.lists[k := Drop(l, l[i])];
    forall j | 0 <= j < |lists'|
      ensures ListOk(m', lists'[j], nil)
    {
      if j == k {
        ListSpread(p, loose, nil, k);
        Unlinked(m, l, nil, i);
        DropAt(l, i);
      } else {
        assert ListOk(m, p.lists[j], nil);
        LinkWriteKeepsList(m, p, loose, nil, j, next, next + 24, prev);
        LinkWriteKeepsList(m1, p, loose, nil, j, prev, prev + 16, next);
      }
    }
  }

  /** The three writes of `controller_insert_free_block` put a free block in front of a list. */
  lemma InsertedLinks(m: Memory, p: Pool, loose: set<int>, nil: int, k: int, b: int)
    requires Partial(p, loose) && Below(p, nil) && Headers(m, p) && Links(m, p, nil)
    requires 0 <= k < |p.lists| && b in loose
    ensures var l := p.lists[k];
            var head := if l == [] then nil else l[0];
            var m' := m[b + 16 := head][b + 24 := nil][head + 24 := b];
            && Headers(m', p) && Undisturbed(p, nil, m, m')
            && Links(m', p.(lists := p.lists[k := [b] + l]), nil)
  {
    var l := p.lists[k];
    var head := if l == [] then nil else l[0];
    assert ListOk(m, l, nil);
    if l != [] {
      ListedBlock(p, loose, k, 0);
    }
    var m1 := m[b + 16 := head];
    var m2 := m1[b + 24 := nil];
    var m' := m2[head + 24 := b];
    LinkWriteKeepsHeaders(m, p, nil, b, b + 16, head);
    LinkWriteKeepsHeaders(m1, p, nil, b, b + 24, nil);
    LinkWriteKeepsHeaders(m2, p, nil, head, head + 24, b);
    var lists' := p.lists[k := [b] + l];
    forall j | 0 <= j < |lists'|
      ensures ListOk(m', lists'[j], nil)
    {
      assert ListOk(m, p.lists[j], nil);
      assert !Listed(p, loose, b, j);
      if j == k {
        PushedSpread(p, loose, nil, k, b);
        Pushed(m, l, nil, b);
      } else {
        LinkWriteKeepsList(m, p, loose, nil, j, b, b + 16, head);
        LinkWriteKeepsList(m1, p, loose, nil, j, b, b + 24, nil);
        if l != [] {
          ListsDisjoint(p, loose, k, 0, j);
        }
        LinkWriteKeepsList(m2, p, loose, nil, j, head, head + 24, b);
      }
    }
  }

  lemma PushedSpread(p: Pool, loose: set<int>, nil: int, k: int, b: int)
    requires Partial(p, loose) && Below(p, nil) && 0 <= k < |p.lists| && b in loose
    ensures Spread([b] + p.lists[k], nil)
  {
    var l := p.lists[k];
    ListSpread(p, loose, nil, k);
    BlockSpread(p, nil, b, b);
    forall i | 0 <= i < |l|
      ensures l[i] - b >= 16 || b - l[i] >= 16
    {
      ListedBlock(p, loose, k, i);
      BlockSpread(p, nil, l[i], b);
    }
  }

  lemma SameBlocksHeaders(m: Memory, p: Pool, q: Pool)
    requires Headers(m, p) && q == p.(lists := q.lists)
    ensures Headers(m, q)
  {
    forall a | a in q.blocks
      ensures HeaderOk(m, q, a)
    {
      assert HeaderOk(m, p, a);
    }
  }

  ghost predicate Stored(m: Memory, p: Pool, nil: int, loose: set<int>) {
    Below(p, nil) && Partial(p, loose) && Headers(m, p) && Links(m, p, nil)
  }

  /** Everything about taking the block at index `i` out of list `k`. */
  lemma Removal(m: Memory, p: Pool, loose: set<int>, nil: int, k: int, i: int)
    requires Stored(m, p, nil, loose) && 0 <= k < |p.lists| && 0 <= i < |p.lists[k]|
    ensures var l := p.lists[k];
            var b := l[i];
            var next, prev := Read(m, b + 16), Read(m, b + 24);
            var m' := m[next + 24 := prev][prev + 16 := next];
            && next != NULL && prev != NULL && nil !in l && NoDup(l) && b in p.blocks && p.blocks[b].free && b !in loose
            && next == (if i + 1 < |l| then l[i + 1] else nil)
            && HasList(p, b) && TakeOut(p, b) == p.(lists := p.lists[k := l[..i] + l[i + 1..]])
            && Stored(m', TakeOut(p, b), nil, loose + {b}) && Undisturbed(p, nil, m, m')
  {
    var l := p.lists[k];
    var b := l[i];
    assert ListOk(m, l, nil);
    ListedBlock(p, loose, k, i);
    Neighbours(m, p, loose, nil, k, i);
    RemovedLinks(m, p, loose, nil, k, i);
    TakeOutKeeps(p, loose, b);
    DropAt(l, i);
    ListSpread(p, loose, nil, k);
    var next, prev := Read(m, b + 16), Read(m, b + 24);
    SameBlocksHeaders(m[next + 24 := prev][prev + 16 := next], p, TakeOut(p, b));
  }

  /** Everything about putting the loose block `b` in front of its list. */
  lemma Insertion(m: Memory, p: Pool, loose: set<int>, nil: int, b: int)
    requires Stored(m, p, nil, loose) && b in loose
    ensures HasList(p, b)
    ensures var k := ClassOf(p.blocks[b].size);
            var l := p.lists[k];
            var head := if l == [] then nil else l[0];
            var m' := m[b + 16 := head][b + 24 := nil][head + 24 := b];
            head != NULL && Stored(m', PutIn(p, b), nil, loose - {b}) && Undisturbed(p, nil, m, m')
  {
    hide ClassOf, Partial, Headers, Links, Undisturbed, Below;
    PutInKeeps(p, loose, b);
    var k := ClassOf(p.blocks[b].size);
    InsertedLinks(m, p, loose, nil, k, b);
    HeadNotNull(p, loose, nil, k);
    var l := p.lists[k];
    var head := if l == [] then nil else l[0];
    SameBlocksHeaders(m[b + 16 := head][b + 24 := nil][head + 24 := b], p, PutIn(p, b));
    BelowFirst(p, PutIn(p, b), nil);
  }

  lemma BelowFirst(p: Pool, q: Pool, nil: int)
    requires Below(p, nil) && q.first == p.first
    ensures Below(q, nil)
  {
  }

  lemma HeadNotNull(p: Pool, loose: set<int>, nil: int, k: int)
    requires Partial(p, loose) && Below(p, nil) && 0 <= k < |p.lists|
    ensures (if p.lists[k] == [] then nil else p.lists[k][0]) != NULL
  {
    if p.lists[k] != [] {
      ListedBlock(p, loose, k, 0);
      BlockSpread(p, nil, p.lists[k][0], p.lists[k][0]);
    }
  }
}
