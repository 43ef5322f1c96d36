/** The TLSF allocator as the C code runs it: words of memory, a controller with bitmaps and
    list heads, and the operations of block.c, controller.c and htfh.c. Each method is proved
    to perform one step of the mathematical pool and to write no guarded word. */
module TlsfAllocator {
  import opened Bits
  import opened Mapping
  import opened Seqs
  import opened TlsfPool
  import opened TlsfOps
  import opened TlsfTheorems
  import opened TlsfMemory
  import opened Words
  import opened TlsfHeaders
  import opened TlsfIndex

  /** `sizeof(Controller)` with 8-byte pointers, and the size words around a pool. */
  const CONTROLLER_SIZE := 6536
  const POOL_OVERHEAD := 16

  class Allocator {
    /** Address of the controller, which begins with `block_null`. */
    const nil: int
    var mem: Memory
    var flBitmap: nat
    const slBitmap: array<nat>
    const heads: array2<int>
    ghost var pool: Pool

    /** List heads and bitmaps describe the free lists. */
    ghost predicate Indexes(lists: seq<seq<int>>)
      reads this`flBitmap, slBitmap, heads
    {
      && slBitmap.Length == FL_INDEX_COUNT && heads.Length0 == FL_INDEX_COUNT && heads.Length1 == SL_INDEX_COUNT
      && |lists| == CLASS_COUNT
      && (forall fl, sl {:trigger heads[fl, sl]} :: 0 <= fl < FL_INDEX_COUNT && 0 <= sl < SL_INDEX_COUNT ==>
            heads[fl, sl] == HeadOf(lists[Linear(fl, sl)], nil))
      && (forall fl {:trigger slBitmap[fl]} :: 0 <= fl < FL_INDEX_COUNT ==> RowOk(slBitmap[fl], lists, fl))
      && ColumnOk(flBitmap, slBitmap[..])
    }

    /** Memory holds the pool, with the blocks `loose` in the hands of an operation. */
    ghost predicate Holds(loose: set<int>)
      reads this, slBitmap, heads
    {
      Stored(mem, pool, nil, loose) && Indexes(pool.lists)
    }

    ghost predicate Valid()
      reads this, slBitmap, heads
    {
      Holds({}) && Coalesced(pool)
    }

    // ----- htfh_create: controller_new and htfh_add_pool

    /** `htfh_create` for a heap mapped at `heap`: the controller, and one free block behind it. */
    constructor (heap: nat, bytes: nat)
      requires heap > 0 && heap % ALIGN_SIZE == 0 && bytes % ALIGN_SIZE == 0
      requires BLOCK_SIZE_MIN <= bytes - CONTROLLER_SIZE - POOL_OVERHEAD < BLOCK_SIZE_MAX
      ensures Valid() && nil == heap && fresh(slBitmap) && fresh(heads)
      ensures pool == Fresh(heap + CONTROLLER_SIZE - 8, heap + bytes - POOL_OVERHEAD)
    {
      nil := heap;
      mem := map[];
      flBitmap := 0;
      slBitmap := new nat[FL_INDEX_COUNT](_ => 0);
      heads := new int[FL_INDEX_COUNT, SL_INDEX_COUNT];
      var start := heap + CONTROLLER_SIZE;
      var poolBytes := AlignDown(bytes - CONTROLLER_SIZE - POOL_OVERHEAD, ALIGN_SIZE);
      AlignedSizeDown(bytes - CONTROLLER_SIZE - POOL_OVERHEAD);
      ghost var end := start + poolBytes;
      pool := Fresh(start - 8, end).(lists := EmptyLists());
      new;
      ClearHeads();
      AddPool(start, poolBytes);
    }

    /** The clearing loops of `controller_new`. */
    method ClearHeads()
      requires flBitmap == 0 && slBitmap.Length == FL_INDEX_COUNT && forall i :: 0 <= i < FL_INDEX_COUNT ==>
                 slBitmap[i] == 0
      requires heads.Length0 == FL_INDEX_COUNT && heads.Length1 == SL_INDEX_COUNT
      modifies this`mem, heads
      ensures Indexes(EmptyLists()) && mem == old(mem)[nil + 24 := nil][nil + 16 := nil]
    {
      mem := mem[nil + 24 := nil];
      mem := mem[nil + 16 := nil];
      for i := 0 to FL_INDEX_COUNT
        invariant mem == old(mem)[nil + 24 := nil][nil + 16 := nil]
        invariant forall a, b {:trigger heads[a, b]} :: 0 <= a < i && 0 <= b < SL_INDEX_COUNT ==> heads[a, b] == nil
      {
        for j := 0 to SL_INDEX_COUNT
          invariant mem == old(mem)[nil + 24 := nil][nil + 16 := nil]
          invariant forall a, b {:trigger heads[a, b]} :: 0 <= a < i && 0 <= b < SL_INDEX_COUNT ==> heads[a, b] == nil
          invariant forall b {:trigger heads[i, b]} :: 0 <= b < j ==> heads[i, b] == nil
        {
          heads[i, j] := nil;
        }
      }
      EmptyIndex(slBitmap[..]);
    }

    /** `htfh_add_pool` on a heap with empty lists. */
    method AddPool(start: nat, poolBytes: nat)
      requires start > nil + 24 && nil > 0 && start % ALIGN_SIZE == 0 && poolBytes % ALIGN_SIZE == 0
      requires BLOCK_SIZE_MIN <= poolBytes < BLOCK_SIZE_MAX && start >= nil + CONTROLLER_SIZE
      requires pool == Fresh(start - 8, start + poolBytes).(lists := EmptyLists())
      requires Indexes(pool.lists)
      modifies this`mem, this`flBitmap, this`pool, slBitmap, heads
      ensures Valid() && pool == Fresh(start - 8, start + poolBytes)
    {
      hide WithSize, WithUsed, WithPrevFree, SizeOf, Encode, Fresh, Stored, Coalesced, EmptyLists, FirstBlockReady;
      var block := start - 8;
      AddFirstBlock(block, poolBytes);
      SentinelWritten(mem, nil, block, poolBytes);
      FirstBlockSize(mem, nil, block, poolBytes);
      var next := LinkNext(block);
      mem := mem[next + 8 := WithSize(Read(mem, next + 8), 0)];
      mem := mem[next + 8 := WithUsed(Read(mem, next + 8))];
      mem := mem[next + 8 := WithPrevFree(Read(mem, next + 8))];
    }

    /** The first half of `htfh_add_pool`: the one free block and its list. */
    method AddFirstBlock(block: int, size: nat)
      requires nil + 24 <= block && size % ALIGN_SIZE == 0 && BLOCK_SIZE_MIN <= size < BLOCK_SIZE_MAX
      requires pool == Fresh(block, block + 8 + size).(lists := EmptyLists()) && Indexes(pool.lists)
      modifies this`mem, this`flBitmap, this`pool, slBitmap, heads
      ensures FirstBlockReady(mem, nil, block, size)
      ensures pool == Fresh(block, block + 8 + size) && Indexes(pool.lists)
    {
      hide WithSize, WithFree, WithPrevUsed, SizeOf, Encode, MappingInsert, Fresh, EmptyLists, FirstBlockReady;
      FirstBlockWritten(mem, nil, block, size);
      FreshList(block, block + 8 + size);
      mem := mem[block + 8 := WithSize(Read(mem, block + 8), size)];
      mem := mem[block + 8 := WithFree(Read(mem, block + 8))];
      mem := mem[block + 8 := WithPrevUsed(Read(mem, block + 8))];
      var (fl, sl) := MappingInsert(SizeOf(Read(mem, block + 8)));
      var current := heads[fl, sl];
      mem := mem[block + 16 := current];
      mem := mem[block + 24 := nil];
      mem := mem[current + 24 := block];
      Reindex(block, fl, sl);
    }

    // ----- controller.c: free lists

    method RemoveFreeBlock(block: int, fl: int, sl: int, ghost loose: set<int>) returns (rc: int)
      requires Holds(loose) && 0 <= fl < FL_INDEX_COUNT && 0 <= sl < SL_INDEX_COUNT
      requires block in pool.lists[Linear(fl, sl)]
      modifies this`mem, this`flBitmap, this`pool, slBitmap, heads
      ensures rc == 0 && HasList(old(pool), block) && pool == TakeOut(old(pool), block)
      ensures Holds(loose + {block}) && Undisturbed(old(pool), nil, old(mem), mem)
    {
      hide TakeOut, Stored, HasList, Undisturbed;
      ghost var l := pool.lists[Linear(fl, sl)];
      ghost var i :| 0 <= i < |l| && l[i] == block;
      Removal(mem, pool, loose, nil, Linear(fl, sl), i);
      var prev := Read(mem, block + 24);
      var next := Read(mem, block + 16);
      if prev == NULL {
        rc := -1;
      } else if next == NULL {
        rc := -1;
      } else {
        mem := mem[next + 24 := prev];
        mem := mem[prev + 16 := next];
        Unindex(block, next, fl, sl, i);
        rc := 0;
      }
    }

    /** The controller half of `controller_remove_free_block`. */
    method Unindex(block: int, next: int, fl: int, sl: int, ghost i: int)
      requires Indexes(pool.lists) && 0 <= fl < FL_INDEX_COUNT && 0 <= sl < SL_INDEX_COUNT
      requires 0 <= i < |pool.lists[Linear(fl, sl)]| && NoDup(pool.lists[Linear(fl, sl)])
      requires var l := pool.lists[Linear(fl, sl)];
               l[i] == block && next == (if i + 1 < |l| then l[i + 1] else nil) && nil !in l
      modifies this`flBitmap, this`pool, slBitmap, heads
      ensures var l := old(pool).lists[Linear(fl, sl)];
              pool == old(pool).(lists := old(pool).lists[Linear(fl, sl) := l[..i] + l[i + 1..]])
      ensures Indexes(pool.lists)
    {
      ghost var k := Linear(fl, sl);
      ghost var lists := pool.lists;
      ghost var l := lists[k];
      ghost var l' := l[..i] + l[i + 1..];
      ghost var rows := slBitmap[..];
      pool := pool.(lists := lists[k := l']);
      if heads[fl, sl] == block {
        heads[fl, sl] := next;
        if next == nil {
          assert l' == [];
          RowCleared(slBitmap[fl], lists, fl, sl);
          slBitmap[fl] := ClearBit(slBitmap[fl], sl);
          assert slBitmap[..] == rows[fl := slBitmap[fl]];
          if slBitmap[fl] == 0 {
            ColumnCleared(flBitmap, rows, fl);
            flBitmap := ClearBit(flBitmap, fl);
          } else {
            assert rows[fl] != 0 by { assert Bit(rows[fl], sl); BitMeansNonZero(rows[fl], sl); }
            ColumnKept(flBitmap, rows, fl, slBitmap[fl]);
          }
        }
      }
      forall f | 0 <= f < FL_INDEX_COUNT
        ensures RowOk(slBitmap[f], pool.lists, f)
      {
        assert RowOk(rows[f], lists, f);
        if f != fl || l' != [] {
          RowKept(rows[f], lists, f, k, l');
        }
      }
    }

    method InsertFreeBlock(block: int, fl: int, sl: int, ghost loose: set<int>) returns (rc: int)
      requires Holds(loose) && block in loose && HasList(pool, block)
      requires (fl, sl) == MappingInsert(pool.blocks[block].size)
      requires 0 <= fl < FL_INDEX_COUNT && 0 <= sl < SL_INDEX_COUNT
      modifies this`mem, this`flBitmap, this`pool, slBitmap, heads
      ensures rc == 0 && HasList(old(pool), block) && pool == PutIn(old(pool), block)
      ensures Holds(loose - {block}) && Undisturbed(old(pool), nil, old(mem), mem)
    {
      BlockAddress(pool, nil, loose, block);
      hide PutIn, Stored, HasList, Undisturbed, MappingInsert;
      Insertion(mem, pool, loose, nil, block);
      InsertionList(pool, block);
      var current := heads[fl, sl];
      if current == NULL {
        rc := -1;
      } else if block == NULL {
        rc := -1;
      } else {
        mem := mem[block + 16 := current];
        mem := mem[block + 24 := nil];
        mem := mem[current + 24 := block];
        if block + 16 != AlignPtr(block + 16, ALIGN_SIZE) {
          rc := -1;
        } else {
          Reindex(block, fl, sl);
          rc := 0;
        }
      }
    }

    /** The controller half of `controller_insert_free_block`. */
    method Reindex(block: int, fl: int, sl: int)
      requires Indexes(pool.lists) && 0 <= fl < FL_INDEX_COUNT && 0 <= sl < SL_INDEX_COUNT
      modifies this`flBitmap, this`pool, slBitmap, heads
      ensures pool == old(pool).(lists := old(pool).lists[Linear(fl, sl) := [block] + old(pool).lists[Linear(fl, sl)]])
      ensures Indexes(pool.lists)
    {
      ghost var k := Linear(fl, sl);
      ghost var lists := pool.lists;
      ghost var l' := [block] + lists[k];
      ghost var rows := slBitmap[..];
      pool := pool.(lists := lists[k := l']);
      heads[fl, sl] := block;
      RowSet(slBitmap[fl], lists, fl, sl, l');
      ColumnSet(flBitmap, rows, fl, SetBit(slBitmap[fl], sl));
      flBitmap := SetBit(flBitmap, fl);
      slBitmap[fl] := SetBit(slBitmap[fl], sl);
      assert slBitmap[..] == rows[fl := slBitmap[fl]];
      forall f | 0 <= f < FL_INDEX_COUNT
        ensures RowOk(slBitmap[f], pool.lists, f)
      {
        assert RowOk(rows[f], lists, f);
        if f != fl {
          RowKept(rows[f], lists, f, k, l');
        }
      }
    }

    // ----- block.c

    /** `block_next`: null for the last block. */
    method BlockNext(block: int) returns (next: int)
      ensures next == if SizeOf(Read(mem, block + 8)) == 0 then NULL else block + 8 + SizeOf(Read(mem, block + 8))
    {
      next := block + 16 + SizeOf(Read(mem, block + 8)) - 8;
      if SizeOf(Read(mem, block + 8)) == 0 {
        next := NULL;
      }
    }

    /** `block_link_next`. */
    method LinkNext(block: int) returns (next: int)
      requires SizeOf(Read(mem, block + 8)) > 0 && block > 0
      modifies this`mem
      ensures next == block + 8 + SizeOf(Read(old(mem), block + 8)) && mem == old(mem)[next := block]
    {
      next := BlockNext(block);
      if next != NULL {
        mem := mem[next := block];
      }
    }

    /** `block_mark_as_free`. */
    method MarkAsFree(block: int) returns (rc: int)
      requires SizeOf(Read(mem, block + 8)) > 0 && block > 0
      modifies this`mem
      ensures rc == 0
      ensures mem == MarkFreeWrites(old(mem), block, block + 8 + SizeOf(Read(old(mem), block + 8)))
    {
      var next := LinkNext(block);
      mem := mem[next + 8 := WithPrevFree(Read(mem, next + 8))];
      mem := mem[block + 8 := WithFree(Read(mem, block + 8))];
      rc := 0;
    }

    /** `block_mark_as_used`. */
    method MarkAsUsed(block: int) returns (rc: int)
      requires SizeOf(Read(mem, block + 8)) > 0 && block > 0
      modifies this`mem
      ensures rc == 0
      ensures mem == MarkUsedWrites(old(mem), block, block + 8 + SizeOf(Read(old(mem), block + 8)))
    {
      var next := BlockNext(block);
      if next == NULL {
        rc := -1;
      } else {
        mem := mem[next + 8 := WithPrevUsed(Read(mem, next + 8))];
        mem := mem[block + 8 := WithUsed(Read(mem, block + 8))];
        rc := 0;
      }
    }

    /** `block_absorb`. */
    method BlockAbsorb(prev: int, block: int) returns (r: int)
      requires prev > 0 && SizeOf(Read(mem, prev + 8)) > 0
      requires SizeOf(Read(mem, prev + 8) + SizeOf(Read(mem, block + 8)) + 8) > 0
      modifies this`mem
      ensures r == prev
      ensures var w := Read(old(mem), prev + 8) + SizeOf(Read(old(mem), block + 8)) + 8;
              mem == AbsorbWrites(old(mem), prev, block, prev + 8 + SizeOf(w))
    {
      if SizeOf(Read(mem, prev + 8)) == 0 {
        r := NULL;
      } else {
        mem := mem[prev + 8 := Read(mem, prev + 8) + SizeOf(Read(mem, block + 8)) + 8];
        var _ := LinkNext(prev);
        r := prev;
      }
    }

    /** `block_split`. */
    method BlockSplit(block: int, size: int) returns (remaining: int)
      requires block > 0 && block % 8 == 0 && size % 8 == 0 && BLOCK_SIZE_MIN <= size
      requires SizeOf(Read(mem, block + 8)) >= 32 + size && SizeOf(Read(mem, block + 8)) % 8 == 0
      modifies this`mem
      ensures remaining == block + 8 + size
      ensures var full := SizeOf(Read(old(mem), block + 8));
              mem == SplitWrites(old(mem), block, size, remaining, full - size - 8, block + 8 + full)
    {
      hide SizeOf, WithSize, AlignPtr;
      remaining := block + 16 + size - 8;
      var remainSize := SizeOf(Read(mem, block + 8)) - (size + 8);
      SplitSizes(block, size, SizeOf(Read(mem, block + 8)), Read(mem, remaining + 8));
      if remaining + 16 != AlignPtr(remaining + 16, ALIGN_SIZE) {
        remaining := NULL;
      } else if SizeOf(Read(mem, block + 8)) != remainSize + size + 8 {
        remaining := NULL;
      } else {
        mem := mem[remaining + 8 := WithSize(Read(mem, remaining + 8), remainSize)];
        if SizeOf(Read(mem, remaining + 8)) < BLOCK_SIZE_MIN {
          remaining := NULL;
        } else {
          mem := mem[block + 8 := WithSize(Read(mem, block + 8), size)];
          var _ := MarkAsFree(remaining);
        }
      }
    }

    // ----- controller.c: blocks in and out of the lists

    /** `controller_block_remove`. */
    method BlockRemove(block: int, ghost loose: set<int>) returns (rc: int)
      requires Holds(loose) && block in pool.blocks && pool.blocks[block].free && block !in loose
      modifies this`mem, this`flBitmap, this`pool, slBitmap, heads
      ensures rc == 0 && HasList(old(pool), block) && pool == TakeOut(old(pool), block)
      ensures Holds(loose + {block}) && Undisturbed(old(pool), nil, old(mem), mem)
    {
      hide SizeOf, FreeBit, PrevBit;
      ClassIndices(mem, pool, nil, loose, block);
      hide MappingInsert, Stored, HasList, TakeOut, Undisturbed;
      var (fl, sl) := MappingInsert(SizeOf(Read(mem, block + 8)));
      rc := RemoveFreeBlock(block, fl, sl, loose);
    }

    /** `controller_block_insert`. */
    method BlockInsert(block: int, ghost loose: set<int>) returns (rc: int)
      requires Holds(loose) && block in loose
      modifies this`mem, this`flBitmap, this`pool, slBitmap, heads
      ensures rc == 0 && HasList(old(pool), block) && pool == PutIn(old(pool), block)
      ensures Holds(loose - {block}) && Undisturbed(old(pool), nil, old(mem), mem)
    {
      hide SizeOf, FreeBit, PrevBit;
      ClassIndices(mem, pool, nil, loose, block);
      hide MappingInsert, Stored, HasList, PutIn, Undisturbed;
      var (fl, sl) := MappingInsert(SizeOf(Read(mem, block + 8)));
      rc := InsertFreeBlock(block, fl, sl, loose);
    }

    /** `controller_block_merge_prev`. */
    method MergePrev(block: int) returns (r: int)
      requires Holds({block})
      modifies this`mem, this`flBitmap, this`pool, slBitmap, heads
      ensures (pool, r) == TlsfOps.MergePrev(old(pool), block)
      ensures Holds({r}) && Undisturbed(old(pool), nil, old(mem), mem)
    {
      hide SizeOf, FreeBit, PrevBit, Undisturbed, Headers, Links, ClassOf, Aligned;
      ghost var p, m := pool, mem;
      assert Linked(p, block);
      StoredHeader(mem, pool, nil, {block}, block);
      UndisturbedSelf(p, nil, m);
      if !PrevBit(Read(mem, block + 8)) {
        r := block;
      } else {
        var prev := Read(mem, block);
        StoredHeader(mem, pool, nil, {block}, prev);
        if prev == NULL {
          r := NULL;
        } else if !FreeBit(Read(mem, prev + 8)) {
          r := NULL;
        } else {
          var rc := BlockRemove(prev, {block});
          if rc != 0 {
            r := NULL;
          } else {
            StoredAbsorb(mem, pool, nil, {block} + {prev}, prev);
            assert {block} + {prev} - {block} == {prev};
            ghost var p1, m1 := pool, mem;
            r := BlockAbsorb(prev, block);
            pool := Absorb(pool, prev);
            UndisturbedTrans(p, p1, nil, m, m1, mem);
          }
        }
      }
    }

    /** `controller_block_merge_next`. */
    method MergeNext(block: int) returns (r: int)
      requires Holds({block})
      modifies this`mem, this`flBitmap, this`pool, slBitmap, heads
      ensures r == block && pool == TlsfOps.MergeNext(old(pool), block)
      ensures Holds({block}) && Undisturbed(old(pool), nil, old(mem), mem)
    {
      hide SizeOf, FreeBit, PrevBit, Undisturbed, Headers, Links, ClassOf, Aligned;
      ghost var p, m := pool, mem;
      assert Linked(p, block);
      StoredHeader(mem, pool, nil, {block}, block);
      UndisturbedSelf(p, nil, m);
      var next := BlockNext(block);
      StoredHeader(mem, pool, nil, {block}, next);
      if next == NULL {
        r := NULL;
      } else if !FreeBit(Read(mem, next + 8)) {
        r := block;
      } else if SizeOf(Read(mem, block + 8)) == 0 {
        r := NULL;
      } else {
        var rc := BlockRemove(next, {block});
        if rc != 0 {
          r := NULL;
        } else {
          StoredAbsorb(mem, pool, nil, {block} + {next}, block);
          assert {block} + {next} - {next} == {block};
          ghost var p1, m1 := pool, mem;
          r := BlockAbsorb(block, next);
          pool := Absorb(pool, block);
          UndisturbedTrans(p, p1, nil, m, m1, mem);
        }
      }
    }

    /** `controller_block_trim_free`: return what is left over after `size` bytes. */
    method TrimFree(block: int, size: int) returns (rc: int)
      requires Holds({block}) && BLOCK_SIZE_MIN <= size <= pool.blocks[block].size && size % ALIGN_SIZE == 0
      modifies this`mem, this`flBitmap, this`pool, slBitmap, heads
      ensures rc == 0 && Holds({block}) && Undisturbed(old(pool), nil, old(mem), mem)
      ensures pool == Trimmed(old(pool), block, size) && SameLive(old(pool), pool)
    {
      hide SizeOf, FreeBit, PrevBit, WithPrevFree, WithSize, Undisturbed, Stored, SplitWrites, Split, PutIn, SameLive,
           HasList, Partial, Trimmed, CutLeading;
      TrimPlan(mem, pool, nil, block, size);
      ghost var p, m := pool, mem;
      if !FreeBit(Read(mem, block + 8)) {
        rc := -1;
      } else if SizeOf(Read(mem, block + 8)) < 32 + size {
        rc := 0;
      } else {
        var remaining := BlockSplit(block, size);
        if remaining == NULL {
          rc := -1;
        } else {
          var _ := LinkNext(block);
          mem := mem[remaining + 8 := WithPrevFree(Read(mem, remaining + 8))];
          pool := Split(pool, block, size);
          ghost var p1, m1 := pool, mem;
          rc := BlockInsert(remaining, {block} + {remaining});
          UndisturbedTrans(p, p1, nil, m, m1, mem);
        }
      }
    }

    /** `controller_block_trim_free_leading`: return the first `gap` bytes. */
    method TrimFreeLeading(block: int, gap: int) returns (remaining: int)
      requires Holds({block}) && GAP_MINIMUM <= gap && gap % ALIGN_SIZE == 0 && 32 + gap <= pool.blocks[block].size
      modifies this`mem, this`flBitmap, this`pool, slBitmap, heads
      ensures remaining == block + gap && Holds({remaining}) && Undisturbed(old(pool), nil, old(mem), mem)
      ensures pool == CutLeading(old(pool), block, gap) && SameLive(old(pool), pool)
    {
      hide SizeOf, FreeBit, PrevBit, WithPrevFree, WithSize, Undisturbed, Stored, SplitWrites, Split, PutIn, SameLive,
           HasList, Partial, Trimmed, CutLeading;
      LeadPlan(mem, pool, nil, block, gap);
      ghost var p, m := pool, mem;
      if SizeOf(Read(mem, block + 8)) < 32 + gap {
        remaining := block;
      } else {
        remaining := BlockSplit(block, gap - 8);
        mem := mem[remaining + 8 := WithPrevFree(Read(mem, remaining + 8))];
        var _ := LinkNext(block);
        pool := Split(pool, block, gap - 8);
        ghost var p1, m1 := pool, mem;
        var rc := BlockInsert(block, {block} + {remaining});
        UndisturbedTrans(p, p1, nil, m, m1, mem);
        if rc != 0 {
          remaining := NULL;
        }
      }
    }

    /** `controller_search_suitable_block`: the head of the first non-empty list at or after
        the given indices. */
    method SearchSuitable(fl0: int, sl0: int) returns (block: int, fl: int, sl: int)
      requires Indexes(pool.lists) && 0 <= fl0 < FL_INDEX_COUNT && 0 <= sl0 < SL_INDEX_COUNT
      ensures var f := FirstNonEmpty(pool.lists, Linear(fl0, sl0));
              if f == CLASS_COUNT then block == NULL
              else
                && f < CLASS_COUNT && pool.lists[f] != [] && block == pool.lists[f][0]
                && 0 <= fl < FL_INDEX_COUNT && 0 <= sl < SL_INDEX_COUNT && Linear(fl, sl) == f
    {
      ghost var lists := pool.lists;
      ghost var rows := slBitmap[..];
      fl, sl := fl0, sl0;
      RowSearch(slBitmap[fl0], lists, fl0, sl0);
      var slMap := KeepFrom(slBitmap[fl0], sl0);
      if slMap == 0 {
        ColumnSearch(flBitmap, rows, fl0 + 1);
        var flMap := KeepFrom(flBitmap, fl0 + 1);
        EmptyStretch(rows, lists, fl0, sl0, if flMap == 0 then FL_INDEX_COUNT else Ffs(flMap));
        if flMap == 0 {
          FirstNonEmptyUnique(lists, Linear(fl0, sl0), CLASS_COUNT);
          return NULL, fl, sl;
        }
        fl := Ffs(flMap);
        slMap := slBitmap[fl];
        RowSearch(slMap, lists, fl, 0);
        assert KeepFrom(slMap, 0) == slMap;
        EmptyRowStart(lists, fl0, sl0, fl, Ffs(slMap));
      } else {
        EmptyRowRest(lists, fl0, sl0, Ffs(slMap));
      }
      if slMap == 0 {
        block := NULL;
      } else {
        sl := Ffs(slMap);
        FirstNonEmptyUnique(lists, Linear(fl0, sl0), Linear(fl, sl));
        block := heads[fl, sl];
      }
    }

    /** `controller_block_find_free`: the block the search finds, out of its list. */
    method FindFree(size: nat) returns (block: int)
      requires Holds({}) && size % ALIGN_SIZE == 0
      modifies this`mem, this`flBitmap, this`pool, slBitmap, heads
      ensures match Find(old(pool), size)
              case None => block == NULL && mem == old(mem) && pool == old(pool) && Holds({})
              case Some(a) => block == a && HasList(old(pool), a) && pool == TakeOut(old(pool), a) && Holds({a})
      ensures Undisturbed(old(pool), nil, old(mem), mem)
    {
      hide Stored, Undisturbed, TakeOut, HasList, MappingInsert, SizeOf, RoundedRequest;
      UndisturbedSelf(pool, nil, mem);
      if size == 0 {
        block := NULL;
      } else {
        SearchIndices(size);
        var (fl, sl) := MappingSearch(size);
        if fl >= FL_INDEX_COUNT {
          block := NULL;
        } else {
          FoundPlan(mem, pool, nil, size);
          block, fl, sl := SearchSuitable(fl, sl);
          if block == NULL {
          } else if SizeOf(Read(mem, block + 8)) < size {
            block := NULL;
          } else {
            var rc := RemoveFreeBlock(block, fl, sl, {});
            assert {} + {block} == {block};
            block := if rc == 0 then block else NULL;
          }
        }
      }
    }

    /** `controller_block_mark_used`. */
    method MarkUsed(block: int, size: int) returns (ptr: int)
      requires block != NULL ==>
                 Holds({block}) && BLOCK_SIZE_MIN <= size <= pool.blocks[block].size && size % ALIGN_SIZE == 0
      modifies this`mem, this`flBitmap, this`pool, slBitmap, heads
      ensures block == NULL ==> ptr == NULL && mem == old(mem) && pool == old(pool)
      ensures block == NULL ==> flBitmap == old(flBitmap) && unchanged(slBitmap) && unchanged(heads)
      ensures block != NULL ==>
                && ptr == block + 16 && pool == Use(old(pool), block, size)
                && Holds({}) && Undisturbed(old(pool), nil, old(mem), mem)
    {
      hide Stored, Undisturbed, Partial, Trimmed, Use, SetFree, MarkUsedWrites, SizeOf, SameLive;
      if block == NULL {
        ptr := NULL;
      } else if size <= 0 {
        ptr := NULL;
      } else {
        UsePlan(mem, pool, nil, block, size);
        ghost var p, m := pool, mem;
        var rc := TrimFree(block, size);
        if rc != 0 {
          ptr := NULL;
        } else {
          UsedPlan(mem, pool, nil, block);
          ghost var p1, m1 := pool, mem;
          rc := MarkAsUsed(block);
          pool := SetFree(pool, block, false);
          UndisturbedTrans(p, p1, nil, m, m1, mem);
          ptr := if rc == 0 then block + 16 else NULL;
        }
      }
    }

    // ----- htfh.c

    /** `htfh_malloc` returns what the mathematical malloc returns, leaves memory holding its
        pool, and writes no word of a live payload and none outside the pool. */
    method Malloc(size: nat) returns (ptr: int)
      requires Valid() && size < WORD_MODULUS
      modifies this`mem, this`flBitmap, this`pool, slBitmap, heads
      ensures Valid() && (pool, ptr) == TlsfOps.Malloc(old(pool), size)
      ensures Undisturbed(old(pool), nil, old(mem), mem)
    {
      hide Stored, Undisturbed, Partial, Place, Use, TakeOut, HasList, AdjustRequestSize, Find, Coalesced;
      MallocPlan(mem, pool, nil, size);
      ghost var p, m := pool, mem;
      var adjust := AdjustRequestSize(size, ALIGN_SIZE);
      var block := FindFree(adjust);
      if block == NULL {
        ptr := NULL;
      } else {
        PlacePlan(p, block, 0, adjust);
        ghost var p1, m1 := pool, mem;
        ptr := MarkUsed(block, adjust);
        TakeOutSameLive(p, block);
        UndisturbedTrans(p, p1, nil, m, m1, mem);
      }
    }

    /** `htfh_memalign`, for alignments that are powers of two. */
    method Memalign(align: nat, size: nat) returns (ptr: int)
      requires Valid() && LegalAlign(align) && size < WORD_MODULUS
      modifies this`mem, this`flBitmap, this`pool, slBitmap, heads
      ensures Valid() && (pool, ptr) == TlsfOps.Memalign(old(pool), align, size)
      ensures Undisturbed(old(pool), nil, old(mem), mem)
    {
      hide Stored, Undisturbed, Partial, Use, TakeOut, HasList, AdjustRequestSize, Find, Coalesced, CutLeading,
           AlignPtr, PowerOfTwo, Place;
      MemalignPlan(mem, pool, nil, align, size);
      ghost var p, m := pool, mem;
      var adjust := AdjustRequestSize(size, ALIGN_SIZE);
      var sizeWithGap := AdjustRequestSize(adjust + align + GAP_MINIMUM, align);
      var alignedSize := if adjust > 0 && align > ALIGN_SIZE then sizeWithGap else adjust;
      var block := FindFree(alignedSize);
      if block != NULL {
        ghost var p1, m1 := pool, mem;
        PlacePlan(p, block, Gap(block + 16, align), adjust);
        TakeOutSameLive(p, block);
        var start := block + 16;
        var aligned := AlignPtr(start, align);
        var gap := aligned - start;
        if 0 < gap < GAP_MINIMUM {
          aligned := AlignPtr(aligned + SecondOffset(gap, align), align);
          gap := aligned - start;
        }
        if gap != 0 {
          block := TrimFreeLeading(block, gap);
          UndisturbedTrans(p, p1, nil, m, m1, mem);
          SameLiveTrans(p, p1, pool);
        }
      }
      ghost var p2, m2 := pool, mem;
      ptr := MarkUsed(block, adjust);
      if block != NULL {
        UndisturbedTrans(p, p2, nil, m, m2, mem);
      }
    }

    /** `htfh_free`: null is ignored, a free block is refused, and a live block goes back to
        the pool with no other payload disturbed. */
    method Free(ptr: int) returns (rc: int)
      requires Valid() && (ptr == NULL || (ptr - 16 in pool.blocks && ptr - 16 != pool.end))
      modifies this`mem, this`flBitmap, this`pool, slBitmap, heads
      ensures Valid()
      ensures ptr == NULL || ptr - 16 !in Live(old(pool)) ==>
                rc == (if ptr == NULL then 0 else -1) && mem == old(mem) && pool == old(pool)
      ensures ptr != NULL && ptr - 16 in Live(old(pool)) ==>
                && rc == 0 && pool == TlsfOps.Free(old(pool), ptr - 16)
                && Undisturbed(pool, nil, old(mem), mem)
    {
      hide SizeOf, FreeBit, PrevBit, Stored, Undisturbed, Partial, Coalesced, MarkFreeWrites, SetFree, SameLive,
           Released;
      hide TlsfOps.Free;
      if ptr == NULL {
        rc := 0;
      } else {
        var block := ptr - 16;
        FreePlan(mem, pool, nil, block);
        if block == NULL {
          rc := -1;
        } else if FreeBit(Read(mem, block + 8)) {
          rc := -1;
        } else {
          ghost var p, m := pool, mem;
          var _ := MarkAsFree(block);
          pool := SetFree(pool, block, true);
          ghost var p1, m1 := pool, mem;
          rc := Release(block);
          UndisturbedTrans(p1, p1, nil, m, m1, mem);
          SameLiveTrans(p1, p1, pool);
          UndisturbedSelf(pool, nil, m);
          UndisturbedTrans(pool, p1, nil, m, m, mem);
        }
      }
    }

    /** The second half of `htfh_free`: coalesce the block in hand and list the result. */
    method Release(block0: int) returns (rc: int)
      requires Holds({block0}) && pool.first > 0
      modifies this`mem, this`flBitmap, this`pool, slBitmap, heads
      ensures rc == 0 && Holds({}) && pool == Released(old(pool), block0)
      ensures Undisturbed(old(pool), nil, old(mem), mem) && SameLive(old(pool), pool)
    {
      ReleasePlan(mem, pool, nil, block0);
      hide Stored, Undisturbed, Partial, SameLive, TlsfOps.MergePrev, TlsfOps.MergeNext, PutIn, HasList;
      ghost var p, m := pool, mem;
      var block := MergePrev(block0);
      if block == NULL {
        rc := -1;
      } else {
        ghost var p1, m1 := pool, mem;
        block := MergeNext(block);
        ghost var p2, m2 := pool, mem;
        UndisturbedTrans(p, p1, nil, m, m1, mem);
        if block == NULL {
          rc := -1;
        } else {
          rc := BlockInsert(block, {block});
          assert {block} - {block} == {};
          UndisturbedTrans(p, p2, nil, m, m2, mem);
        }
      }
    }

    /** The owner of a live block writes a word of its payload. */
    method Store(w: int, v: int, ghost a: int)
      requires Valid() && a in Live(pool) && a + 16 <= w < a + 16 + pool.blocks[a].size
      modifies this`mem
      ensures Valid() && mem == old(mem)[w := v]
    {
      PayloadWrite(mem, pool, nil, a, w, v);
      mem := mem[w := v];
    }
  }

  /** The value a list head holds: its first block, or the null block. */
  function HeadOf(l: seq<int>, nil: int): int {
    if l == [] then nil else l[0]
  }

  lemma BlockAddress(p: Pool, nil: int, loose: set<int>, b: int)
    requires Partial(p, loose) && Below(p, nil) && b in loose
    ensures b > 0 && AlignPtr(b + 16, ALIGN_SIZE) == b + 16
  {
    assert Linked(p, b);
    assert p.blocks[b].size % 8 == 0 && b % 8 == 0;
    AlignedAddress(b + 16);
  }

  lemma InsertionList(p: Pool, b: int)
    requires HasList(p, b)
    ensures ClassOf(p.blocks[b].size) == Linear(MappingInsert(p.blocks[b].size).0, MappingInsert(p.blocks[b].size).1)
    ensures PutIn(p, b) == p.(lists := p.lists[ClassOf(p.blocks[b].size) := [b] + p.lists[ClassOf(p.blocks[b].size)]])
  {
  }

  lemma SplitSizes(block: int, size: int, full: int, w: int)
    requires block > 0 && block % 8 == 0 && size >= 0 && size % 8 == 0 && full % 8 == 0
    ensures AlignPtr(block + size + 24, ALIGN_SIZE) == block + size + 24
    ensures SizeOf(WithSize(w, full - (size + 8))) == full - (size + 8)
  {
    AlignedAddress(block + size + 24);
    ResizedSize(w, full - (size + 8));
  }

  lemma UndisturbedSelf(p: Pool, nil: int, m: Memory)
    ensures Undisturbed(p, nil, m, m)
  {
  }

  /** The indices computed from a block's size word are in range and name its list. */
  lemma ClassIndices(m: Memory, p: Pool, nil: int, loose: set<int>, b: int)
    requires Stored(m, p, nil, loose) && b in p.blocks && p.blocks[b].free
    ensures HasList(p, b) && SizeOf(Read(m, b + 8)) == p.blocks[b].size
    ensures var (fl, sl) := MappingInsert(p.blocks[b].size);
            && 0 <= fl < FL_INDEX_COUNT && 0 <= sl < SL_INDEX_COUNT && Linear(fl, sl) < |p.lists|
            && (b !in loose ==> b in p.lists[Linear(fl, sl)])
  {
    hide SizeOf, FreeBit, PrevBit;
    StoredHeader(m, p, nil, loose, b);
    ListOf(p, b);
    var size := p.blocks[b].size;
    ClassHoldsSize(size);
    ClassInRange(size);
    assert Linked(p, b);
    assert b !in loose ==> Listed(p, loose, b, ClassOf(size));
  }

  /** `block` in hand, cut to `size` bytes with the rest back in the lists if it is a block. */
  ghost function Trimmed(p: Pool, block: int, size: int): (q: Pool)
    requires Partial(p, {block}) && BLOCK_SIZE_MIN <= size <= p.blocks[block].size && size % ALIGN_SIZE == 0
    ensures Partial(q, {block})
  {
    if p.blocks[block].size >= 32 + size then
      var r := block + 8 + size;
      SplitKeeps(p, {block}, block, size);
      SplitTiles(p, block, size);
      PutInKeeps(Split(p, block, size), {block} + {r}, r);
      assert {block} + {r} - {r} == {block};
      PutIn(Split(p, block, size), r)
    else
      p
  }

  /** The rest of row `fl0` and all rows up to `fl1` hold no block. */
  lemma EmptyStretch(rows: seq<nat>, lists: seq<seq<int>>, fl0: int, sl0: int, fl1: int)
    requires |rows| == FL_INDEX_COUNT && |lists| == CLASS_COUNT
    requires 0 <= fl0 < fl1 <= FL_INDEX_COUNT && 0 <= sl0 < SL_INDEX_COUNT
    requires forall f :: 0 <= f < FL_INDEX_COUNT ==> RowOk(rows[f], lists, f)
    requires forall i :: sl0 <= i < SL_INDEX_COUNT ==> lists[Linear(fl0, i)] == []
    requires forall f :: fl0 + 1 <= f < fl1 ==> rows[f] == 0
    ensures forall j :: Linear(fl0, sl0) <= j < Linear(fl1, 0) ==> lists[j] == []
  {
    forall j | Linear(fl0, sl0) <= j < Linear(fl1, 0)
      ensures lists[j] == []
    {
      if j / 32 == fl0 {
        assert Linear(fl0, j % 32) == j;
      } else {
        EmptyRow(lists, j / 32, j) by { assert rows[j / 32] == 0; }
      }
    }
  }

  lemma EmptyRowStart(lists: seq<seq<int>>, fl0: int, sl0: int, fl: int, sl: int)
    requires |lists| == CLASS_COUNT && 0 <= fl0 < fl < FL_INDEX_COUNT && 0 <= sl0 < SL_INDEX_COUNT
             && 0 <= sl < SL_INDEX_COUNT
    requires forall j :: Linear(fl0, sl0) <= j < Linear(fl, 0) ==> lists[j] == []
    requires forall i :: 0 <= i < sl ==> lists[Linear(fl, i)] == []
    ensures forall j :: Linear(fl0, sl0) <= j < Linear(fl, sl) ==> lists[j] == []
  {
    forall j | Linear(fl0, sl0) <= j < Linear(fl, sl)
      ensures lists[j] == []
    {
      if j >= Linear(fl, 0) {
        assert Linear(fl, j - Linear(fl, 0)) == j;
      }
    }
  }

  lemma EmptyRowRest(lists: seq<seq<int>>, fl: int, sl0: int, sl: int)
    requires |lists| == CLASS_COUNT && 0 <= fl < FL_INDEX_COUNT && 0 <= sl0 <= sl < SL_INDEX_COUNT
    requires forall i :: sl0 <= i < sl ==> lists[Linear(fl, i)] == []
    ensures forall j :: Linear(fl, sl0) <= j < Linear(fl, sl) ==> lists[j] == []
  {
    forall j | Linear(fl, sl0) <= j < Linear(fl, sl)
      ensures lists[j] == []
    {
      assert Linear(fl, j - Linear(fl, 0)) == j;
    }
  }

  /** What trimming a block in hand reads and leaves. */
  lemma TrimPlan(m: Memory, p: Pool, nil: int, block: int, size: int)
    requires Stored(m, p, nil, {block})
    requires BLOCK_SIZE_MIN <= size <= p.blocks[block].size && size % ALIGN_SIZE == 0
    ensures block in p.blocks && block > 0 && block % 8 == 0 && p.blocks[block].size % 8 == 0
    ensures FreeBit(Read(m, block + 8)) && SizeOf(Read(m, block + 8)) == p.blocks[block].size
    ensures p.blocks[block].size < 32 + size ==>
              Trimmed(p, block, size) == p && SameLive(p, p) && Undisturbed(p, nil, m, m)
    ensures p.blocks[block].size >= 32 + size ==>
              && SplitPlan(m, p, nil, block, size)
              && HasList(Split(p, block, size), block + 8 + size)
              && Trimmed(p, block, size) == PutIn(Split(p, block, size), block + 8 + size)
              && SameLive(p, Trimmed(p, block, size))
              && {block} + {block + 8 + size} - {block + 8 + size} == {block}
  {
    hide SizeOf, FreeBit, PrevBit, WithPrevFree, WithSize;
    StoredHeader(m, p, nil, {block}, block);
    assert p.blocks[block].size % 8 == 0;
    if p.blocks[block].size >= 32 + size {
      SplitPlanned(m, p, nil, block, size);
      SplitFresh(p, block, size);
      PutInKeeps(Split(p, block, size), {block} + {block + 8 + size}, block + 8 + size);
    }
  }

  /** Cutting `block` after `size` bytes with the two last writes, in either order. */
  ghost predicate SplitPlan(m: Memory, p: Pool, nil: int, block: int, size: int)
    requires block in p.blocks
  {
    var r := block + 8 + size;
    var m1 := SplitWrites(m, block, size, r, p.blocks[block].size - size - 8, block + 8 + p.blocks[block].size);
    var v := WithPrevFree(Read(m1, r + 8));
    && Next(p, block) in p.blocks && r > 0
    && SizeOf(Read(m1, block + 8)) == size && SizeOf(Read(m1[r + 8 := v], block + 8)) == size
    && Read(m1[r := block], r + 8) == Read(m1, r + 8)
    && m1[r := block][r + 8 := v] == m1[r + 8 := v][r := block]
    && Stored(m1[r := block][r + 8 := v], Split(p, block, size), nil, {block} + {r})
    && Undisturbed(p, nil, m, m1[r := block][r + 8 := v])
    && SameLive(p, Split(p, block, size)) && Split(p, block, size).lists == p.lists
  }

  lemma SplitPlanned(m: Memory, p: Pool, nil: int, block: int, size: int)
    requires Stored(m, p, nil, {block}) && Splittable(p, {block}, block, size)
    ensures SplitPlan(m, p, nil, block, size)
  {
    hide SizeOf, FreeBit, PrevBit, WithPrevFree, WithSize, Stored, SplitWrites;
    StoredSplit(m, p, nil, {block}, block, size);
    SplitFresh(p, block, size);
    SplitSameLive(p, block, size);
    assert Linked(p, block);
  }

  lemma LeadFacts(m: Memory, p: Pool, nil: int, block: int, gap: int)
    requires Stored(m, p, nil, {block})
    requires GAP_MINIMUM <= gap && gap % ALIGN_SIZE == 0 && 32 + gap <= p.blocks[block].size
    ensures block in p.blocks && block > 0 && block % 8 == 0 && p.blocks[block].size % 8 == 0
    ensures SizeOf(Read(m, block + 8)) == p.blocks[block].size && Splittable(p, {block}, block, gap - 8)
    ensures Next(p, block) in p.blocks && HasList(Split(p, block, gap - 8), block)
    ensures CutLeading(p, block, gap) == PutIn(Split(p, block, gap - 8), block)
    ensures {block} + {block + gap} - {block} == {block + gap}
  {
    hide SizeOf, FreeBit, PrevBit;
    StoredHeader(m, p, nil, {block}, block);
    assert block % 8 == 0 && p.blocks[block].size % 8 == 0;
    SplitKeeps(p, {block}, block, gap - 8);
    PutInKeeps(Split(p, block, gap - 8), {block} + {block + gap}, block);
  }

  lemma LeadPlan(m: Memory, p: Pool, nil: int, block: int, gap: int)
    requires Stored(m, p, nil, {block})
    requires GAP_MINIMUM <= gap && gap % ALIGN_SIZE == 0 && 32 + gap <= p.blocks[block].size
    ensures block in p.blocks && block > 0 && block % 8 == 0 && p.blocks[block].size % 8 == 0
    ensures SizeOf(Read(m, block + 8)) == p.blocks[block].size
    ensures SplitPlan(m, p, nil, block, gap - 8)
    ensures HasList(Split(p, block, gap - 8), block)
            && CutLeading(p, block, gap) == PutIn(Split(p, block, gap - 8), block)
    ensures SameLive(p, CutLeading(p, block, gap))
    ensures {block} + {block + gap} - {block} == {block + gap}
  {
    hide SizeOf, FreeBit, PrevBit, WithPrevFree, WithSize, Stored, Partial, SplitPlan, SameLive, Split, CutLeading;
    LeadFacts(m, p, nil, block, gap);
    SplitPlanned(m, p, nil, block, gap - 8);
    CutLeadingSameLive(p, block, gap);
  }

  /** The indices a search starts from. */
  lemma SearchIndices(size: nat)
    ensures var (fl, sl) := MappingSearch(size);
            && 0 <= fl && 0 <= sl < SL_INDEX_COUNT && Linear(fl, sl) == ClassOf(RoundedRequest(size)) >= 0
            && (fl < FL_INDEX_COUNT <==> ClassOf(RoundedRequest(size)) < CLASS_COUNT)
  {
    ClassHoldsSize(RoundedRequest(size));
    ClassInRange(RoundedRequest(size));
  }

  /** The block at the head of the list a search finds. */
  lemma FoundPlan(m: Memory, p: Pool, nil: int, size: nat)
    requires Stored(m, p, nil, {}) && size > 0 && size % ALIGN_SIZE == 0
    ensures |p.lists| == CLASS_COUNT
    ensures var k := ClassOf(RoundedRequest(size));
            0 <= k < CLASS_COUNT ==>
              var f := FirstNonEmpty(p.lists, k);
              f < CLASS_COUNT ==>
                && p.lists[f] != [] && p.lists[f][0] in p.lists[f] && p.lists[f][0] > 0
                && SizeOf(Read(m, p.lists[f][0] + 8)) >= size
  {
    hide SizeOf, FreeBit, PrevBit;
    var k := ClassOf(RoundedRequest(size));
    if 0 <= k < CLASS_COUNT {
      FirstNonEmptyIsLeast(p.lists, k);
      if FirstNonEmpty(p.lists, k) < CLASS_COUNT {
        FindFits(p, size);
        StoredHeader(m, p, nil, {}, Find(p, size).value);
      }
    }
  }

  lemma UsePlan(m: Memory, p: Pool, nil: int, block: int, size: int)
    requires Stored(m, p, nil, {block}) && BLOCK_SIZE_MIN <= size <= p.blocks[block].size && size % ALIGN_SIZE == 0
    ensures block in Trimmed(p, block, size).blocks
    ensures Use(p, block, size) == SetFree(Trimmed(p, block, size), block, false)
  {
  }

  lemma UsedPlan(m: Memory, p: Pool, nil: int, block: int)
    requires Stored(m, p, nil, {block})
    ensures block in p.blocks && block > 0 && SizeOf(Read(m, block + 8)) == p.blocks[block].size > 0
    ensures var q := SetFree(p, block, false);
            var m' := MarkUsedWrites(m, block, block + 8 + SizeOf(Read(m, block + 8)));
            Stored(m', q, nil, {}) && Undisturbed(p, nil, m, m') && q.lists == p.lists
  {
    hide SizeOf;
    StoredMarkUsed(m, p, nil, block);
    StoredHeader(m, p, nil, {block}, block);
  }

  lemma TakeOutSameLive(p: Pool, a: int)
    requires HasList(p, a)
    ensures SameLive(p, TakeOut(p, a))
  {
  }

  lemma MallocPlan(m: Memory, p: Pool, nil: int, size: nat)
    requires Stored(m, p, nil, {}) && Coalesced(p) && size < WORD_MODULUS
    ensures Inv(p) && Inv(TlsfOps.Malloc(p, size).0)
    ensures var r := AdjustRequestSize(size, ALIGN_SIZE);
            && r % ALIGN_SIZE == 0
            && match Find(p, r)
               case None => TlsfOps.Malloc(p, size) == (p, NULL)
               case Some(a) => a > 0 && Placeable(p, a, 0, r) && TlsfOps.Malloc(p, size) == (Place(p, a, 0, r), a + 16)
  {
    MallocKeepsInv(p, size);
    MallocResult(p, size);
    AdjustedRequest(size);
    hide AdjustRequestSize, TlsfOps.Malloc, Find, Place;
    var r := AdjustRequestSize(size, ALIGN_SIZE);
    if Find(p, r).Some? {
      assert Linked(p, Find(p, r).value);
    }
  }

  lemma SameLiveTrans(p: Pool, q: Pool, r: Pool)
    requires SameLive(p, q) && SameLive(q, r)
    ensures SameLive(p, r) && SameLive(r, p) && SameLive(p, p)
  {
  }

  lemma PutInSameLive(p: Pool, a: int)
    requires HasList(p, a)
    ensures SameLive(p, PutIn(p, a))
  {
  }

  /** Handing out a placed block is cutting and using it, starting from its list. */
  lemma PlacePlan(p: Pool, a: int, gap: int, r: int)
    requires Partial(p, {}) && Placeable(p, a, gap, r)
    ensures HasList(p, a) && a in TakeOut(p, a).blocks && Partial(TakeOut(p, a), {a})
    ensures TakeOut(p, a).blocks[a].size == p.blocks[a].size
    ensures gap == 0 ==> Place(p, a, gap, r) == Use(TakeOut(p, a), a, r)
    ensures gap != 0 ==>
              var q := CutLeading(TakeOut(p, a), a, gap);
              r <= q.blocks[a + gap].size && Place(p, a, gap, r) == Use(q, a + gap, r)
  {
    hide Use, CutLeading;
    TakeOutKeeps(p, {}, a);
    assert {} + {a} == {a};
  }

  lemma MemalignPlan(m: Memory, p: Pool, nil: int, align: nat, size: nat)
    requires Stored(m, p, nil, {}) && Coalesced(p) && LegalAlign(align) && size < WORD_MODULUS
    ensures Inv(p) && Inv(TlsfOps.Memalign(p, align, size).0) && align > 0
    ensures AlignedSize(align, size) % ALIGN_SIZE == 0 && |p.lists| == CLASS_COUNT
    ensures match Find(p, AlignedSize(align, size))
            case None => TlsfOps.Memalign(p, align, size) == (p, NULL)
            case Some(a) =>
              var gap := Gap(a + 16, align);
              var adjust := AdjustRequestSize(size, ALIGN_SIZE);
              && a > 0 && gap >= 0 && Placeable(p, a, gap, adjust)
              && TlsfOps.Memalign(p, align, size) == (Place(p, a, gap, adjust), a + gap + 16)
  {
    hide Gap, AlignPtr, PowerOfTwo, AdjustRequestSize, Find, AlignedSize, Place, Aligned, MultipleOf;
    AlignedSizeFacts(align, size);
    MemalignKeepsInv(p, align, size);
    match Find(p, AlignedSize(align, size))
    case None =>
    case Some(a) =>
      SlotFits(p, a, align, size);
      assert Linked(p, a);
  }

  /** Freeing reads the header and starts by marking the block free. */
  lemma FreePlan(m: Memory, p: Pool, nil: int, a: int)
    requires Stored(m, p, nil, {}) && Coalesced(p) && a in p.blocks && a != p.end
    ensures a > 0 && FreeBit(Read(m, a + 8)) == p.blocks[a].free && Inv(p)
    ensures !p.blocks[a].free ==>
              && a in Live(p) && SizeOf(Read(m, a + 8)) > 0
              && Partial(SetFree(p, a, true), {a}) && SetFree(p, a, true).lists == p.lists
              && Stored(MarkFreeWrites(m, a, a + 8 + SizeOf(Read(m, a + 8))), SetFree(p, a, true), nil, {a})
              && Undisturbed(SetFree(p, a, true), nil, m, MarkFreeWrites(m, a, a + 8 + SizeOf(Read(m, a + 8))))
              && SameLive(SetFree(p, a, true), SetFree(p, a, true))
              && SetFree(p, a, true).first > 0
              && TlsfOps.Free(p, a) == Released(SetFree(p, a, true), a) && Coalesced(TlsfOps.Free(p, a))
  {
    hide SizeOf, FreeBit, PrevBit;
    StoredHeader(m, p, nil, {}, a);
    if !p.blocks[a].free {
      StoredMarkFree(m, p, nil, a);
      FreeKeepsInv(p, a);
    }
  }

  /** A block in hand, joined with its free neighbours and put in its list. */
  ghost function Released(p: Pool, a: int): Pool
    requires Partial(p, {a})
  {
    var (p2, b) := TlsfOps.MergePrev(p, a);
    var p3 := TlsfOps.MergeNext(p2, b);
    PutInKeeps(p3, {b}, b);
    PutIn(p3, b)
  }

  lemma ReleasePlan(m: Memory, p: Pool, nil: int, a: int)
    requires Stored(m, p, nil, {a}) && p.first > 0
    ensures var (p2, b) := TlsfOps.MergePrev(p, a);
            var p3 := TlsfOps.MergeNext(p2, b);
            && b > 0 && HasList(p3, b) && Released(p, a) == PutIn(p3, b)
            && SameLive(p, p2) && SameLive(p, p3) && SameLive(p, PutIn(p3, b))
  {
    hide TlsfOps.MergePrev, TlsfOps.MergeNext;
    var (p2, b) := TlsfOps.MergePrev(p, a);
    var p3 := TlsfOps.MergeNext(p2, b);
    MergePrevSameLive(p, a);
    MergeNextSameLive(p2, b);
    SameLiveTrans(p, p2, p3);
    PutInKeeps(p3, {b}, b);
    PutInSameLive(p3, b);
    SameLiveTrans(p, p3, PutIn(p3, b));
    assert Linked(p2, b);
  }

  /** A live payload holds no header word and no link. */
  lemma PayloadWrite(m: Memory, p: Pool, nil: int, a: int, w: int, v: int)
    requires Stored(m, p, nil, {}) && a in Live(p) && a + 16 <= w < a + 16 + p.blocks[a].size
    ensures Stored(m[w := v], p, nil, {})
  {
    hide Encode, Aligned;
    forall x | x in p.blocks
      ensures HeaderOk(m[w := v], p, x)
    {
      assert HeaderOk(m, p, x);
      PayloadNotHeader(p, a, w, x);
    }
    forall k | 0 <= k < |p.lists|
      ensures ListOk(m[w := v], p.lists[k], nil)
    {
      var l := p.lists[k];
      assert ListOk(m, l, nil);
      forall i | 0 <= i < |l|
        ensures w != l[i] + 16 && w != l[i] + 24
      {
        ListedBlock(p, {}, k, i);
        PayloadNotHeader(p, a, w, l[i]);
      }
      OtherList(m, m[w := v], l, nil);
    }
  }

  lemma PayloadNotHeader(p: Pool, a: int, w: int, x: int)
    requires Tiled(p) && a in Live(p) && a + 16 <= w < a + 16 + p.blocks[a].size && x in p.blocks
    ensures w != x + 8 && (PrevFree(p, x) ==> w != x)
    ensures p.blocks[x].free ==> w != x + 16 && w != x + 24
  {
    assert Linked(p, a) && Linked(p, x);
    if x != a {
      WordsApart(p, a, x);
    }
    if PrevFree(p, x) {
      assert Linked(p, p.blocks[x].prev);
      WordsApart(p, a, p.blocks[x].prev);
    }
  }

  lemma AlignedSizeDown(x: nat)
    requires x % 8 == 0
    ensures AlignDown(x, 8) == x
  {
    AlignDownMultiple(x, 8);
    MultipleOfEight(AlignDown(x, 8), 8);
  }

  lemma EmptyIndex(rows: seq<nat>)
    requires |rows| == FL_INDEX_COUNT && forall i :: 0 <= i < FL_INDEX_COUNT ==> rows[i] == 0
    ensures forall fl :: 0 <= fl < FL_INDEX_COUNT ==> RowOk(rows[fl], EmptyLists(), fl)
    ensures ColumnOk(0, rows)
  {
    forall j: nat
      ensures !Bit(0, j)
    {
      ZeroHasNoBit(j);
    }
  }

  ghost function EmptyLists(): seq<seq<int>> {
    seq(CLASS_COUNT, _ => [])
  }

  /** The memory of a new pool while its one block is set up. */
  function FirstBlockWrites(m: Memory, nil: int, block: int, size: int): Memory {
    var m1 := m[block + 8 := WithSize(Read(m, block + 8), size)];
    var m2 := m1[block + 8 := WithFree(Read(m1, block + 8))];
    var m3 := m2[block + 8 := WithPrevUsed(Read(m2, block + 8))];
    m3[block + 16 := nil][block + 24 := nil][nil + 24 := block]
  }

  ghost predicate FirstBlockReady(m: Memory, nil: int, block: int, size: int) {
    && Read(m, block + 8) == Encode(size, true, false) && SizeOf(Read(m, block + 8)) == size
    && Read(m, block + 16) == nil && Read(m, block + 24) == nil
  }

  lemma FirstBlockWritten(m: Memory, nil: int, block: int, size: int)
    requires size % 8 == 0 && nil + 24 <= block
    ensures FirstBlockReady(FirstBlockWrites(m, nil, block, size), nil, block, size)
    ensures var m1 := m[block + 8 := WithSize(Read(m, block + 8), size)];
            var m2 := m1[block + 8 := WithFree(Read(m1, block + 8))];
            var m3 := m2[block + 8 := WithPrevUsed(Read(m2, block + 8))];
            SizeOf(Read(m3, block + 8)) == size
  {
    var w := Read(m, block + 8);
    Resized(w, size);
    Decoded(size, FreeBit(w), PrevBit(w));
    Decoded(size, true, PrevBit(w));
    Decoded(size, true, false);
    hide WithSize, WithFree, WithPrevUsed, SizeOf, Encode;
  }

  lemma FirstBlockSize(m: Memory, nil: int, block: int, size: int)
    requires FirstBlockReady(m, nil, block, size)
    ensures SizeOf(Read(m, block + 8)) == size
  {
  }

  function SentinelWrites(m: Memory, block: int, next: int): Memory {
    var m1 := m[next := block];
    var m2 := m1[next + 8 := WithSize(Read(m1, next + 8), 0)];
    var m3 := m2[next + 8 := WithUsed(Read(m2, next + 8))];
    m3[next + 8 := WithPrevFree(Read(m3, next + 8))]
  }

  lemma SentinelWritten(m: Memory, nil: int, block: int, size: int)
    requires FirstBlockReady(m, nil, block, size) && BLOCK_SIZE_MIN <= size < BLOCK_SIZE_MAX
    requires 0 < nil && nil + 24 <= block && block % ALIGN_SIZE == 0 && size % ALIGN_SIZE == 0
    ensures var end := block + 8 + size;
            Stored(SentinelWrites(m, block, end), Fresh(block, end), nil, {}) && Coalesced(Fresh(block, end))
  {
    var end := block + 8 + size;
    var w := Read(m[end := block], end + 8);
    Resized(w, 0);
    Decoded(0, FreeBit(w), PrevBit(w));
    Decoded(0, false, PrevBit(w));
    hide WithSize, WithUsed, WithPrevFree, SizeOf, Encode, Fresh;
    FreshStored(SentinelWrites(m, block, end), nil, block, end);
  }

  lemma FreshList(first: int, end: int)
    requires BLOCK_SIZE_MIN <= end - first - 8 < BLOCK_SIZE_MAX
    ensures var size := end - first - 8;
            var (fl, sl) := MappingInsert(size);
            && 0 <= fl < FL_INDEX_COUNT && 0 <= sl < SL_INDEX_COUNT && 0 <= Linear(fl, sl) < CLASS_COUNT
            && EmptyLists()[Linear(fl, sl)] == []
            && var empty := Fresh(first, end).(lists := EmptyLists());
               var k := Linear(fl, sl);
               Fresh(first, end) == empty.(lists := empty.lists[k := [first] + empty.lists[k]])
  {
    var size := end - first - 8;
    ClassHoldsSize(size);
    ClassInRange(size);
    var k := ClassOf(size);
    assert [first] + EmptyLists()[k] == [first];
    assert EmptyLists()[k := [first]] == Fresh(first, end).lists;
  }

  lemma FreshStored(m: Memory, nil: int, first: int, end: int)
    requires 0 < nil && nil + 24 <= first && first % ALIGN_SIZE == 0 && end % ALIGN_SIZE == 0
    requires BLOCK_SIZE_MIN <= end - first - 8 < BLOCK_SIZE_MAX
    requires Read(m, first + 8) == Encode(end - first - 8, true, false)
    requires Read(m, first + 16) == nil && Read(m, first + 24) == nil
    requires Read(m, end) == first && Read(m, end + 8) == Encode(0, false, true)
    ensures Stored(m, Fresh(first, end), nil, {}) && Coalesced(Fresh(first, end))
  {
    FreshInv(first, end);
    var p := Fresh(first, end);
    assert HeaderOk(m, p, first) && HeaderOk(m, p, end);
    forall k | 0 <= k < |p.lists|
      ensures ListOk(m, p.lists[k], nil)
    {
      forall i | 0 <= i < |p.lists[k]|
        ensures LinkOk(m, p.lists[k], nil, i)
      {
        assert p.lists[k] == [first];
      }
    }
  }
}
