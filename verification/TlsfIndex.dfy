/** The two-level bitmap over the free lists. */
module TlsfIndex {
  import opened Bits
  import opened Mapping
  import opened TlsfOps

  /** The second-level word of row `fl` has exactly the bits of the row's non-empty lists. */
  ghost predicate RowOk(w: nat, lists: seq<seq<int>>, fl: int)
    requires |lists| == CLASS_COUNT && 0 <= fl < FL_INDEX_COUNT
  {
    forall sl: nat {:trigger Bit(w, sl)} :: Bit(w, sl) <==> sl < SL_INDEX_COUNT && lists[Linear(fl, sl)] != []
  }

  /** The first-level word has exactly the bits of the non-zero second-level words. */
  ghost predicate ColumnOk(w: nat, rows: seq<nat>)
    requires |rows| == FL_INDEX_COUNT
  {
    forall fl: nat {:trigger Bit(w, fl)} :: Bit(w, fl) <==> fl < FL_INDEX_COUNT && rows[fl] != 0
  }

  lemma BitMeansNonZero(w: nat, i: nat)
    requires Bit(w, i)
    ensures w != 0
  {
    ZeroHasNoBit(i);
  }

  // ----- updates

  /** Replacing a list keeps every row in which no list becomes empty or non-empty. */
  lemma RowKept(w: nat, lists: seq<seq<int>>, fl: int, k: int, l: seq<int>)
    requires |lists| == CLASS_COUNT && 0 <= fl < FL_INDEX_COUNT && 0 <= k < CLASS_COUNT && RowOk(w, lists, fl)
    requires fl != k / 32 || (l == [] <==> lists[k] == [])
    ensures RowOk(w, lists[k := l], fl)
  {
    forall sl: nat
      ensures Bit(w, sl) <==> sl < SL_INDEX_COUNT && lists[k := l][Linear(fl, sl)] != []
    {
      assert Bit(w, sl) <==> sl < SL_INDEX_COUNT && lists[Linear(fl, sl)] != [];
    }
  }

  lemma RowCleared(w: nat, lists: seq<seq<int>>, fl: int, sl: nat)
    requires |lists| == CLASS_COUNT && 0 <= fl < FL_INDEX_COUNT && sl < SL_INDEX_COUNT && RowOk(w, lists, fl)
    ensures RowOk(ClearBit(w, sl), lists[Linear(fl, sl) := []], fl)
  {
    forall i: nat
      ensures Bit(ClearBit(w, sl), i) <==> i < SL_INDEX_COUNT && lists[Linear(fl, sl) := []][Linear(fl, i)] != []
    {
      ClearBitBits(w, sl, i);
    }
  }

  lemma RowSet(w: nat, lists: seq<seq<int>>, fl: int, sl: nat, l: seq<int>)
    requires |lists| == CLASS_COUNT && 0 <= fl < FL_INDEX_COUNT && sl < SL_INDEX_COUNT && RowOk(w, lists, fl)
    requires l != []
    ensures RowOk(SetBit(w, sl), lists[Linear(fl, sl) := l], fl) && SetBit(w, sl) != 0
  {
    forall i: nat
      ensures Bit(SetBit(w, sl), i) <==> i < SL_INDEX_COUNT && lists[Linear(fl, sl) := l][Linear(fl, i)] != []
    {
      SetBitBits(w, sl, i);
    }
    SetBitBits(w, sl, sl);
    BitMeansNonZero(SetBit(w, sl), sl);
  }

  lemma ColumnCleared(w: nat, rows: seq<nat>, fl: nat)
    requires |rows| == FL_INDEX_COUNT && fl < FL_INDEX_COUNT && ColumnOk(w, rows)
    ensures ColumnOk(ClearBit(w, fl), rows[fl := 0])
  {
    forall i: nat
      ensures Bit(ClearBit(w, fl), i) <==> i < FL_INDEX_COUNT && rows[fl := 0][i] != 0
    {
      ClearBitBits(w, fl, i);
    }
  }

  lemma ColumnSet(w: nat, rows: seq<nat>, fl: nat, v: nat)
    requires |rows| == FL_INDEX_COUNT && fl < FL_INDEX_COUNT && ColumnOk(w, rows) && v != 0
    ensures ColumnOk(SetBit(w, fl), rows[fl := v])
  {
    forall i: nat
      ensures Bit(SetBit(w, fl), i) <==> i < FL_INDEX_COUNT && rows[fl := v][i] != 0
    {
      SetBitBits(w, fl, i);
    }
  }

  lemma ColumnKept(w: nat, rows: seq<nat>, fl: nat, v: nat)
    requires |rows| == FL_INDEX_COUNT && fl < FL_INDEX_COUNT && ColumnOk(w, rows)
    requires v == 0 <==> rows[fl] == 0
    ensures ColumnOk(w, rows[fl := v])
  {
    forall i: nat
      ensures Bit(w, i) <==> i < FL_INDEX_COUNT && rows[fl := v][i] != 0
    {
      assert Bit(w, i) <==> i < FL_INDEX_COUNT && rows[i] != 0;
    }
  }

  // ----- search

  lemma {:induction false} FirstNonEmptyUnique(lists: seq<seq<int>>, k: nat, f: nat)
    requires k <= f <= |lists| && (f < |lists| ==> lists[f] != [])
    requires forall j :: k <= j < f ==> lists[j] == []
    ensures FirstNonEmpty(lists, k) == f
    decreases f - k
  {
    if k < f {
      FirstNonEmptyUnique(lists, k + 1, f);
    }
  }

  /** The masked second-level word finds the first non-empty list in the rest of a row. */
  lemma RowSearch(w: nat, lists: seq<seq<int>>, fl: int, sl: nat)
    requires |lists| == CLASS_COUNT && 0 <= fl < FL_INDEX_COUNT && sl < SL_INDEX_COUNT && RowOk(w, lists, fl)
    ensures KeepFrom(w, sl) == 0 ==> forall i :: sl <= i < SL_INDEX_COUNT ==> lists[Linear(fl, i)] == []
    ensures var m := KeepFrom(w, sl);
            m > 0 ==>
              && sl <= Ffs(m) < SL_INDEX_COUNT && lists[Linear(fl, Ffs(m))] != []
              && (forall i :: sl <= i < Ffs(m) ==> lists[Linear(fl, i)] == [])
  {
    var m := KeepFrom(w, sl);
    forall i: nat
      ensures Bit(m, i) <==> sl <= i < SL_INDEX_COUNT && lists[Linear(fl, i)] != []
    {
      KeepFromBits(w, sl, i);
      assert Bit(w, i) <==> i < SL_INDEX_COUNT && lists[Linear(fl, i)] != [];
    }
    if m > 0 {
      FfsIsLowest(m);
    }
    forall i | sl <= i < SL_INDEX_COUNT && (m == 0 || i < Ffs(m))
      ensures lists[Linear(fl, i)] == []
    {
      ZeroHasNoBit(i);
      assert !Bit(m, i);
    }
  }

  /** The masked first-level word finds the first non-empty row. */
  lemma ColumnSearch(w: nat, rows: seq<nat>, fl: nat)
    requires |rows| == FL_INDEX_COUNT && ColumnOk(w, rows)
    ensures KeepFrom(w, fl) == 0 ==> forall i :: fl <= i < FL_INDEX_COUNT ==> rows[i] == 0
    ensures var m := KeepFrom(w, fl);
            m > 0 ==>
              && fl <= Ffs(m) < FL_INDEX_COUNT && rows[Ffs(m)] != 0
              && (forall i :: fl <= i < Ffs(m) ==> rows[i] == 0)
  {
    var m := KeepFrom(w, fl);
    forall i: nat
      ensures Bit(m, i) <==> fl <= i < FL_INDEX_COUNT && rows[i] != 0
    {
      KeepFromBits(w, fl, i);
      assert Bit(w, i) <==> i < FL_INDEX_COUNT && rows[i] != 0;
    }
    if m > 0 {
      FfsIsLowest(m);
    }
    forall i | fl <= i < FL_INDEX_COUNT && (m == 0 || i < Ffs(m))
      ensures rows[i] == 0
    {
      ZeroHasNoBit(i);
      assert !Bit(m, i);
    }
  }

  /** A zero second-level word means an empty row. */
  lemma EmptyRow(lists: seq<seq<int>>, fl: int, j: int)
    requires |lists| == CLASS_COUNT && 0 <= fl < FL_INDEX_COUNT && RowOk(0, lists, fl)
    requires j / 32 == fl
    ensures lists[j] == []
  {
    ZeroHasNoBit(j % 32);
    assert Linear(fl, j % 32) == j;
    assert !Bit(0, j % 32);
  }
}
