/** The DLIRS cache as an object whose fields change step by step, refining the functions of
    DlirsSpec. Its eviction loops carry no guard against empty tables; that they end and never
    pop an empty table follows from the invariant. */
module DlirsCache {
  import opened Basics
  import opened Seqs
  import opened DlirsSpec
  import opened DlirsInvariant
  import opened DlirsOps
  import opened DlirsTheorems
  import opened DlirsRuns

  class Cache {
    const size: int
    var hirsLimit: int
    var lirsLimit: int
    var hirsCount: int
    var lirsCount: int
    var demoted: int
    var nonResident: int
    var lirs: seq<Key>
    var nonRes: seq<Key>
    var res: seq<Key>
    var entries: map<Key, Entry>

    /** The entries that have made way for a newer one while the caller held them. */
    ghost var strays: seq<Entry>

    ghost function Abs(): Dlirs
      reads this
    {
      Dlirs(size, hirsLimit, lirsLimit, hirsCount, lirsCount, demoted, nonResident, lirs, nonRes, res, entries, strays)
    }

    ghost predicate Valid()
      reads this
    {
      Inv(Abs())
    }

    /** `dlirs_create`. */
    constructor (cacheSize: int, hirsRatio: real)
      ensures Abs() == Create(cacheSize, InitialLimit(cacheSize, hirsRatio))
      ensures Valid() <==> cacheSize >= 2 && InitialLimit(cacheSize, hirsRatio) < cacheSize
    {
      size := cacheSize;
      var limit := InitialLimit(cacheSize, hirsRatio);
      hirsLimit, lirsLimit := limit, cacheSize - limit;
      hirsCount, lirsCount, demoted, nonResident := 0, 0, 0, 0;
      lirs, nonRes, res, entries, strays := [], [], [], map[], [];
      CreateExact(cacheSize, hirsRatio);
    }

    /** The entry a table holds for `k`. */
    function At(k: Key): (e: Entry)
      reads this
      ensures e == EntryOf(Abs(), k)
    {
      if k in entries then entries[k] else Entry(0, false, false, false, 0, 0, 0)
    }

    /** `dlirs_contains`: the key is resident and its value is not null. */
    method Contains(k: Key) returns (found: bool)
      requires Valid()
      ensures found <==> ResidentKey(Abs(), k) && EntryOf(Abs(), k).value != 0
    {
      InvKey(Abs(), k);
      if k in lirs && At(k).inCache {
        return At(k).value != 0;
      }
      return k in res && At(k).value != 0;
    }

    /** `dlirs_is_full`. */
    method IsFull() returns (full: bool)
      requires Valid()
      ensures full <==> Residents(Abs()) >= size
    {
      full := hirsCount + lirsCount == size;
    }

    /** `dlirs_entry_destroy` on a reference that a table gave up, if there was one. */
    method DropReference(k: Key, held: bool)
      modifies `entries
      ensures Abs() == Unref(old(Abs()), k, held)
    {
      if held {
        entries := entries[k := At(k).(rc := At(k).rc - 1)];
      }
    }

    /** `dlirs_prune`. */
    method Prune()
      modifies this
      ensures Abs() == DlirsSpec.Prune(old(Abs()))
    {
      while |lirs| > 0
        invariant DlirsSpec.Prune(Abs()) == DlirsSpec.Prune(old(Abs()))
        decreases |lirs|
      {
        ghost var before := Abs();
        var k := lirs[0];
        if At(k).isLir {
          break;
        }
        var inCache := At(k).inCache;
        var inStack, inOrder := k in lirs, k in nonRes;
        lirs := Drop(lirs, k);
        DropReference(k, inStack);
        nonRes := Drop(nonRes, k);
        DropReference(k, inOrder);
        if !inCache {
          nonResident := nonResident - 1;
        }
        assert Abs() == Forget(before, k);
        ForgetShorter(before, k);
      }
    }

    /** `dlirs_evict_lir`. */
    method EvictLir()
      modifies this
      ensures Abs() == DlirsSpec.EvictLir(old(Abs()))
    {
      if lirs == [] {
        return;
      }
      var k := lirs[0];
      lirs := Drop(lirs, k);
      lirsCount := lirsCount - 1;
      entries := entries[k := At(k).(isLir := false, isDemoted := true)];
      demoted := demoted + 1;
      res := PutBack(res, k);
      hirsCount := hirsCount + 1;
      assert Abs() == Demote(old(Abs()), k);
      Prune();
    }

    /** `dlirs_evict_resident_hir`. */
    method EvictResidentHir() returns (evicted: Option<Key>)
      modifies this
      ensures (Abs(), evicted) == EvictResident(old(Abs()))
    {
      if res == [] {
        return None;
      }
      var k := res[0];
      res := Drop(res, k);
      var lru := At(k);
      if k in lirs {
        lru := lru.(inCache := false);
        nonResident := nonResident + 1;
      }
      if lru.isDemoted {
        lru := lru.(isDemoted := false);
        demoted := demoted - 1;
      }
      hirsCount := hirsCount - 1;
      entries := entries[k := lru.(handles := lru.handles + 1)];
      return Some(k);
    }

    /** `dlirs_resize`. */
    method Resize(hitNonResident: bool)
      requires if hitNonResident then nonResident != 0 else demoted != 0
      modifies `hirsLimit, `lirsLimit
      ensures Abs() == DlirsSpec.Resize(old(Abs()), hitNonResident)
    {
      if hitNonResident {
        hirsLimit := Min(size - 1, hirsLimit + Delta(demoted, nonResident));
        lirsLimit := size - hirsLimit;
      } else {
        lirsLimit := Min(size - 1, lirsLimit + Delta(nonResident, demoted));
        hirsLimit := size - lirsLimit;
      }
    }

    /** `dlirs_limit_stack`: the HIR order always has the entries that the loop pops, and the
        stack has them too, so neither of its fatal exits is taken. */
    method LimitStack()
      requires ListsHirs(Abs()) && Excess(Abs()) <= |nonRes|
      modifies this
      ensures Abs() == DlirsSpec.LimitStack(old(Abs()))
    {
      hide ListsHirs, Forget;
      var pruneSize := hirsCount + lirsCount + nonResident - size * 2;
      ghost var whole := pruneSize;
      while pruneSize > 0
        invariant ListsHirs(Abs()) && pruneSize <= |nonRes|
        invariant ForgetOldest(Abs(), pruneSize) == ForgetOldest(old(Abs()), whole)
        decreases pruneSize
      {
        var k := nonRes[0];
        PopsBoth(Abs());
        ForgetSkew(Abs(), k);
        LimitStep(k);
        pruneSize := pruneSize - 1;
      }
    }

    /** One round of `dlirs_limit_stack`'s loop. */
    method LimitStep(k: Key)
      modifies this
      ensures Abs() == Forget(old(Abs()), k)
    {
      hide Drop;
      var inStack, inOrder := k in lirs, k in nonRes;
      nonRes := Drop(nonRes, k);
      if !At(k).inCache {
        nonResident := nonResident - 1;
      }
      lirs := Drop(lirs, k);
      DropReference(k, inStack);
      DropReference(k, inOrder);
    }

    /** `dlirs_hit_lir`. */
    method HitLir(k: Key)
      requires Valid() && k in lirs && At(k).isLir
      modifies this
      ensures Valid() && Abs() == DlirsSpec.HitLir(old(Abs()), k)
    {
      hide Core;
      HitLirKeeps(Abs(), k);
      var front := lirs[0];
      lirs := PutBack(lirs, k);
      if front == k {
        Prune();
      }
    }

    /** Take `k` out of the stack, marking it LIR, and out of the HIR order. */
    method LeaveStack(k: Key)
      modifies `lirs, `nonRes, `entries
      ensures var d1 := SetEntry(old(Abs()).(lirs := Drop(old(lirs), k)), k, old(At(k)).(isLir := true));
              Abs() == Unref(d1.(nonRes := Drop(d1.nonRes, k)), k, k in d1.nonRes)
    {
      hide Drop;
      var held := k in nonRes;
      lirs := Drop(lirs, k);
      entries := entries[k := At(k).(isLir := true)];
      nonRes := Drop(nonRes, k);
      DropReference(k, held);
    }

    /** The removals of `dlirs_hir_in_lirs`. */
    method TakeOut(k: Key) returns (inCache: bool)
      requires Core(Abs()) && k in lirs && !At(k).isLir
      modifies this
      ensures Abs() == Promote(old(Abs()), k) && inCache == old(At(k).inCache)
    {
      if !At(k).inCache {
        AwayCounted(Abs(), k);
      }
      hide Core, Drop, DlirsSpec.Resize;
      inCache := At(k).inCache;
      LeaveStack(k);
      if inCache {
        var held := k in res;
        res := Drop(res, k);
        hirsCount := hirsCount - 1;
        DropReference(k, held);
      } else {
        Resize(true);
        entries := entries[k := At(k).(inCache := true)];
        nonResident := nonResident - 1;
      }
    }

    /** The loop that demotes LIR entries while there are more than `keep`. */
    method ShedLirs(keep: int)
      requires Core(Abs()) && FrontLir(Abs()) && keep >= 0
      modifies this
      ensures Abs() == DlirsSpec.ShedLirs(old(Abs()), keep)
    {
      hide Core, FrontLir, DlirsSpec.EvictLir, Evolves;
      LirPresent(Abs());
      while lirsCount > keep
        invariant Core(Abs()) && FrontLir(Abs())
        invariant DlirsSpec.ShedLirs(Abs(), keep) == DlirsSpec.ShedLirs(old(Abs()), keep)
        decreases |lirs|
      {
        LirPresent(Abs());
        EvictLirKeeps(Abs());
        EvictLirShrinks(Abs());
        EvictLir();
      }
    }

    /** The loop of `dlirs_hir_in_lirs` that evicts resident HIR entries. */
    method ShedResidents() returns (evicted: Option<Key>)
      requires Core(Abs()) && FrontLir(Abs()) && Residents(Abs()) <= size && lirsCount < size
      modifies this
      ensures (Abs(), evicted) == DlirsSpec.ShedResidents(old(Abs()), None)
    {
      hide Core, FrontLir, EvictResident;
      evicted := None;
      while hirsCount + lirsCount >= size
        invariant Core(Abs()) && FrontLir(Abs()) && lirsCount < size
        invariant DlirsSpec.ShedResidents(Abs(), evicted) == DlirsSpec.ShedResidents(old(Abs()), None)
        decreases |res|
      {
        HirsPresent(Abs());
        EvictResidentKeeps(Abs());
        EvictionShrinks(Abs());
        evicted := EvictResidentHir();
      }
    }

    /** `dlirs_hir_in_lirs`. */
    method HirInLirs(k: Key) returns (miss: bool, evicted: Option<Key>)
      requires Valid() && k in lirs && !At(k).isLir
      modifies this
      ensures Valid() && (Abs(), evicted) == DlirsSpec.HirInLirs(old(Abs()), k)
      ensures miss == !old(At(k).inCache)
    {
      hide Core, FrontLir, Promote, DlirsSpec.ShedLirs, DlirsSpec.ShedResidents, ResidentsAfter, ResidentKey;
      HirInLirsKeeps(Abs(), k);
      PromoteStep(Abs(), k);
      ghost var d1 := Promote(Abs(), k);
      LimitsHold(d1);
      ShedLirsKeeps(d1, d1.lirsLimit - 1);
      var inCache := TakeOut(k);
      ShedLirs(lirsLimit - 1);
      evicted := ShedResidents();
      lirs := PutBack(lirs, k);
      lirsCount := lirsCount + 1;
      miss := !inCache;
    }

    /** `dlirs_hit_hir_in_resident_hirs`. */
    method HitHirInResidentHirs(k: Key)
      requires Valid() && k in res && k !in lirs
      modifies this
      ensures Valid() && Abs() == HitResident(old(Abs()), k)
    {
      hide Core, FrontLir, DlirsSpec.Resize, DlirsSpec.LimitStack, Evolves, ListsHirs, Excess, DlirsSpec.Undemote,
           DlirsSpec.Restack;
      HitResidentKeeps(Abs(), k);
      RestackReady(Abs(), k);
      Undemote(k);
      Restack(k);
      LimitStack();
    }

    /** A hit on a demoted entry adapts the limits. */
    method Undemote(k: Key)
      requires Core(Abs()) && k in res
      modifies this
      ensures Abs() == DlirsSpec.Undemote(old(Abs()), k)
    {
      if At(k).isDemoted {
        DemotedCounted(Abs(), k);
        hide Core, DlirsSpec.Resize;
        Resize(false);
        entries := entries[k := At(k).(isDemoted := false)];
        demoted := demoted - 1;
      }
    }

    /** Two more references to the entry, and insertions in all tables; the first of them
        overrides the entry with itself and drops a reference. */
    method Restack(k: Key)
      modifies this
      ensures Abs() == DlirsSpec.Restack(old(Abs()), k)
    {
      hide PutBack;
      var e := At(k);
      e := e.(rc := e.rc + 1);
      e := e.(rc := e.rc + 1);
      res := PutBack(res, k);
      e := e.(rc := e.rc - 1, lost := e.lost + 1);
      lirs := PutBack(lirs, k);
      nonRes := PutBack(nonRes, k);
      entries := entries[k := e];
    }

    /** `dlirs_get`: the value is returned exactly for resident keys. */
    method Get(k: Key) returns (value: Option<Value>, evicted: Option<Key>)
      requires Valid()
      modifies this
      ensures Valid()
      ensures var (f, hit, ev) := DlirsSpec.Get(old(Abs()), k);
              Abs() == f && evicted == ev && value == if hit then Some(old(At(k)).value) else None
      ensures value.Some? <==> old(ResidentKey(Abs(), k))
      ensures value.Some? ==> evicted == None
    {
      hide Core, FrontLir, DlirsSpec.HirInLirs, DlirsSpec.HitLir, HitResident;
      GetKeeps(Abs(), k);
      InvKey(Abs(), k);
      evicted := None;
      value := None;
      var e := At(k);
      if k in lirs {
        if e.isLir {
          HitLir(k);
          value := Some(e.value);
        } else {
          var miss;
          miss, evicted := HirInLirs(k);
          if !miss {
            value := Some(e.value);
          }
        }
      } else if k in res {
        HitHirInResidentHirs(k);
        value := Some(e.value);
      }
    }

    /** The eviction loops of `dlirs_request`. */
    method MakeRoom() returns (evicted: Option<Key>)
      requires Valid()
      modifies this
      ensures (Abs(), evicted) == DlirsSpec.MakeRoom(old(Abs()), None)
    {
      hide Core, FrontLir, EvictResident, DlirsSpec.ShedLirs, Evolves;
      evicted := None;
      while hirsCount + lirsCount >= size
        invariant Core(Abs()) && FrontLir(Abs())
        invariant DlirsSpec.MakeRoom(Abs(), evicted) == DlirsSpec.MakeRoom(old(Abs()), None)
        decreases |lirs| + |res|
      {
        LimitsHold(Abs());
        ShedLirsKeeps(Abs(), lirsLimit);
        ShedLirsShrinks(Abs(), lirsLimit);
        ShedKeepsLimits(Abs(), lirsLimit);
        ShedLirs(lirsLimit);
        HirsPresent(Abs());
        EvictResidentKeeps(Abs());
        EvictionShrinks(Abs());
        evicted := EvictResidentHir();
      }
    }

    /** `dlirs_request`, for any key: the loops end and pop no empty table. The cache stays well
        formed exactly if the key is in no table once room is made. */
    method Request(k: Key, v: Value) returns (evicted: Option<Key>)
      requires Valid()
      modifies this
      ensures (Abs(), evicted) == DlirsSpec.Request(old(Abs()), k, v)
      ensures Valid() <==> !Tracked(Room(old(Abs())), k)
      ensures Valid() ==> Admitted(old(Abs()), Abs(), k, evicted)
    {
      hide Core, FrontLir, DlirsSpec.MakeRoom, DlirsSpec.LimitStack, DlirsSpec.AddHir, PutBack, Admitted, Tracked,
           ListsHirs, Excess, Room;
      RequestExact(Abs(), k, v);
      if !Tracked(Room(Abs()), k) {
        RequestAdmits(Abs(), k, v);
      }
      if lirsCount < lirsLimit && hirsCount == 0 {
        strays := Displace(Abs(), k).strays;
        entries := entries[k := Entry(v, true, false, true, 1, 0, 0)];
        lirs := PutBack(lirs, k);
        lirsCount := lirsCount + 1;
        return None;
      }
      RoomForHir(Abs(), k, v);
      evicted := MakeRoom();
      AddHir(k, v);
      LimitStack();
    }

    /** A new entry with three references, one for each table. */
    method AddHir(k: Key, v: Value)
      modifies this
      ensures Abs() == DlirsSpec.AddHir(old(Abs()), k, v)
    {
      hide PutBack;
      var e := Entry(v, false, false, true, 1, 0, 0);
      e := e.(rc := e.rc + 1);
      e := e.(rc := e.rc + 1);
      strays := Displace(Abs(), k).strays;
      entries := entries[k := e];
      lirs := PutBack(lirs, k);
      nonRes := PutBack(nonRes, k);
      res := PutBack(res, k);
      hirsCount := hirsCount + 1;
    }
  }

  lemma ShedKeepsLimits(d: Dlirs, keep: int)
    requires Core(d) && FrontLir(d) && keep >= 0
    ensures var f := ShedLirs(d, keep); f.size == d.size && Residents(f) == Residents(d)
  {
    hide Core, FrontLir, ShedLirs;
    ShedLirsKeeps(d, keep);
  }

  /** By how much the stack may exceed its bound: the rounds of `dlirs_limit_stack`. */
  ghost function Excess(d: Dlirs): int {
    Residents(d) + d.nonResident - 2 * d.size
  }

  /** What a round of `dlirs_limit_stack` pops is in both tables, once. */
  lemma PopsBoth(d: Dlirs)
    requires ListsHirs(d) && d.nonRes != []
    ensures d.nonRes[0] in d.nonRes && d.nonRes[0] in d.lirs
    ensures |Forget(d, d.nonRes[0]).nonRes| == |d.nonRes| - 1
  {
  }

  lemma CoreLists(d: Dlirs)
    requires Core(d)
    ensures ListsHirs(d) && d.nonResident <= |d.nonRes|
  {
    StackSize(d);
    if d.nonRes != [] {
      NonResMembers(d, d.nonRes[0]);
    }
    forall x
      ensures x in d.nonRes ==> x in d.lirs && !EntryOf(d, x).isLir
    {
      NonResMembers(d, x);
    }
  }

  /** Where a hit on a resident entry calls `dlirs_limit_stack`, its precondition holds. */
  lemma RestackReady(d: Dlirs, k: Key)
    requires Inv(d) && k in d.res && k !in d.lirs
    ensures var f := Restack(Undemote(d, k), k); ListsHirs(f) && Excess(f) < |f.nonRes|
  {
    UndemoteCore(d, k);
    RestackCore(Undemote(d, k), k);
    CoreLists(Restack(Undemote(d, k), k));
  }

  /** Where a request calls `dlirs_limit_stack`, its precondition holds. */
  lemma RoomForHir(d: Dlirs, k: Key, v: Value)
    requires Inv(d) && !(d.lirsCount < d.lirsLimit && d.hirsCount == 0)
    ensures var f := AddHir(MakeRoom(d, None).0, k, v); ListsHirs(f) && Excess(f) < |f.nonRes|
  {
    hide Core, FrontLir, ResidentKey, MakeRoom, Tracked, ListsHirs;
    LimitsHold(d);
    MakeRoomOnce(d);
    if Residents(d) == d.size {
      RoomMade(d);
    }
    var d1 := MakeRoom(d, None).0;
    CoreLists(d1);
    AddHirLists(d1, k, v);
    PutBackGrows(d1.nonRes, k);
  }

  lemma PutBackGrows(s: seq<Key>, k: Key)
    ensures |PutBack(s, k)| >= |s|
  {
    if k in s {
      DropShrinks(s, k);
    } else {
      DropAbsent(s, k);
    }
  }
}
