/** The DLIRS cache on deque hash tables. On requests for requestable keys and on lookups that are
    not hits outside the stack it inserts absent keys only, so the tables stay well formed and the
    cache follows the policy. */
module DlirsTables {
  import opened Basics
  import opened Seqs
  import opened DlirsSpec
  import opened DlirsInvariant
  import opened DlirsOps
  import opened DlirsTheorems
  import opened DlirsCarry
  import opened DlirsRuns
  import opened DlirsCache
  import opened DlirsInsertions
  import opened KeyTables

  class TableCache {
    const size: int
    var hirsLimit: int
    var lirsLimit: int
    var hirsCount: int
    var lirsCount: int
    var demoted: int
    var nonResident: int
    const lirs: KeyTable
    const nonRes: KeyTable
    const res: KeyTable
    var entries: map<Key, Entry>
    ghost var strays: seq<Entry>

    ghost function Abs(): Dlirs
      reads this, lirs, nonRes, res
    {
      Dlirs(size, hirsLimit, lirsLimit, hirsCount, lirsCount, demoted, nonResident, lirs.keys, nonRes.keys, res.keys,
          entries, strays)
    }

    /** The memory of the tables. */
    ghost function Repr(): set<object>
      reads this, lirs, nonRes, res
    {
      lirs.Repr + nonRes.Repr + res.Repr
    }

    /** Three tables in separate memory. The stack and the HIR order are well formed. */
    ghost predicate Stacked()
      reads this, lirs, nonRes, res, lirs.Repr, nonRes.Repr
    {
      && this !in Repr() && lirs in lirs.Repr && nonRes in nonRes.Repr && res in res.Repr
      && lirs.Repr !! nonRes.Repr && lirs.Repr !! res.Repr && nonRes.Repr !! res.Repr
      && lirs.Valid() && nonRes.Valid()
    }

    ghost predicate Sound()
      reads this, lirs, nonRes, res, lirs.Repr, nonRes.Repr, res.Repr
    {
      Stacked() && res.Valid()
    }

    ghost predicate Valid()
      reads this, lirs, nonRes, res, lirs.Repr, nonRes.Repr, res.Repr
    {
      Sound() && Inv(Abs())
    }

    /** `dlirs_create`. */
    constructor (tableSize: nat, cacheSize: int, hirsRatio: real, hash: Key -> nat, address: Key -> int,
        keyAt: int -> Key)
      requires tableSize >= 1 && forall k {:trigger address(k)} :: address(k) != 0 && keyAt(address(k)) == k
      ensures Sound() && fresh(Repr()) && Abs() == Create(cacheSize, InitialLimit(cacheSize, hirsRatio))
      ensures Valid() <==> cacheSize >= 2 && InitialLimit(cacheSize, hirsRatio) < cacheSize
    {
      hide KeyTable.Valid, Core, FrontLir, Settled;
      size := cacheSize;
      var limit := InitialLimit(cacheSize, hirsRatio);
      hirsLimit, lirsLimit := limit, cacheSize - limit;
      hirsCount, lirsCount, demoted, nonResident := 0, 0, 0, 0;
      entries, strays := map[], [];
      var stack := new KeyTable(tableSize, hash, address, keyAt);
      var order := new KeyTable(tableSize, hash, address, keyAt);
      var residents := new KeyTable(tableSize, hash, address, keyAt);
      lirs, nonRes, res := stack, order, residents;
      CreateExact(cacheSize, hirsRatio);
    }

    function At(k: Key): (e: Entry)
      reads this
    {
      if k in entries then entries[k] else Entry(0, false, false, false, 0, 0, 0)
    }

    /** `dlirs_entry_destroy` on a reference that a table gave up, if there was one. */
    method DropReference(k: Key, held: bool)
      modifies `entries
      ensures Abs() == Unref(old(Abs()), k, held)
    {
      if held {
        entries := entries[k := At(k).(rc := At(k).rc - 1)];
      }
    }

    /** Take `k` off the stack and out of the HIR order. */
    method ForgetKey(k: Key)
      requires Sound()
      modifies this, Repr()
      ensures Sound() && Repr() == old(Repr()) && Abs() == Forget(old(Abs()), k)
    {
      hide KeyTable.Valid, Drop;
      var away := !At(k).inCache;
      var held := lirs.Remove(k);
      DropReference(k, held);
      held := nonRes.Remove(k);
      DropReference(k, held);
      if away {
        nonResident := nonResident - 1;
      }
    }

    /** `dlirs_prune`. */
    method Prune()
      requires Sound()
      modifies this, Repr()
      ensures Sound() && Repr() == old(Repr()) && Abs() == DlirsSpec.Prune(old(Abs()))
    {
      hide KeyTable.Valid, Forget;
      var front := lirs.Front();
      while front.Some? && !At(front.value).isLir
        invariant Sound() && Repr() == old(Repr())
        invariant front == if lirs.keys == [] then None else Some(lirs.keys[0])
        invariant DlirsSpec.Prune(Abs()) == DlirsSpec.Prune(old(Abs()))
        decreases |lirs.keys|
      {
        ForgetShorter(Abs(), front.value);
        ForgetKey(front.value);
        front := lirs.Front();
      }
    }

    /** The LIR entry at the front of the stack becomes the last resident HIR entry. */
    method DemoteFront()
      requires Sound() && lirs.keys != [] && lirs.keys[0] !in res.keys
      modifies this, Repr()
      ensures Sound() && fresh(Repr() - old(Repr())) && Abs() == Demote(old(Abs()), old(lirs.keys[0]))
    {
      hide KeyTable.Valid;
      DropAbsent(res.keys, lirs.keys[0]);
      var k := lirs.PopFront();
      lirsCount := lirsCount - 1;
      entries := entries[k := At(k).(isLir := false, isDemoted := true)];
      demoted := demoted + 1;
      res.Insert(k);
      hirsCount := hirsCount + 1;
    }

    /** `dlirs_evict_lir`. */
    method EvictLir()
      requires Sound() && Core(Abs()) && FrontLir(Abs()) && lirs.keys != []
      modifies this, Repr()
      ensures Sound() && fresh(Repr() - old(Repr())) && Abs() == DlirsSpec.EvictLir(old(Abs()))
    {
      hide Sound, Core, Demote, DlirsSpec.Prune, FrontLir, OnlyEntry;
      DemoteFields(Abs());
      DemoteFront();
      Prune();
    }

    /** `dlirs_evict_resident_hir`. */
    method EvictResidentHir() returns (evicted: Option<Key>)
      requires Sound() && res.keys != []
      modifies this, Repr()
      ensures Sound() && Repr() == old(Repr()) && (Abs(), evicted) == EvictResident(old(Abs()))
    {
      hide KeyTable.Valid;
      var k := res.PopFront();
      var onStack := lirs.Contains(k);
      var lru := At(k);
      if onStack {
        lru := lru.(inCache := false);
        nonResident := nonResident + 1;
      }
      if lru.isDemoted {
        lru := lru.(isDemoted := false);
        demoted := demoted - 1;
      }
      hirsCount := hirsCount - 1;
      entries := entries[k := lru.(handles := lru.handles + 1)];
      return Some(k);
    }

    /** `dlirs_resize`. */
    method Resize(hitNonResident: bool)
      requires if hitNonResident then nonResident != 0 else demoted != 0
      modifies `hirsLimit, `lirsLimit
      ensures Abs() == DlirsSpec.Resize(old(Abs()), hitNonResident)
    {
      if hitNonResident {
        hirsLimit := Min(size - 1, hirsLimit + Delta(demoted, nonResident));
        lirsLimit := size - hirsLimit;
      } else {
        lirsLimit := Min(size - 1, lirsLimit + Delta(nonResident, demoted));
        hirsLimit := size - lirsLimit;
      }
    }

    /** One round of `dlirs_limit_stack`'s loop, which does not touch the resident table. */
    method LimitStep()
      requires Stacked() && nonRes.keys != []
      modifies this, lirs.Repr, nonRes.Repr
      ensures Stacked() && lirs.Repr == old(lirs.Repr) && nonRes.Repr == old(nonRes.Repr)
      ensures Abs() == Forget(old(Abs()), old(nonRes.keys[0]))
    {
      hide KeyTable.Valid, Drop;
      FrontDropped(nonRes.keys);
      var k := nonRes.PopFront();
      if !At(k).inCache {
        nonResident := nonResident - 1;
      }
      var held := lirs.Remove(k);
      DropReference(k, held);
      DropReference(k, true);
    }

    /** `dlirs_limit_stack`. */
    method LimitStack()
      requires Stacked() && ListsHirs(Abs()) && Excess(Abs()) <= |nonRes.keys|
      modifies this, lirs.Repr, nonRes.Repr
      ensures Stacked() && lirs.Repr == old(lirs.Repr) && nonRes.Repr == old(nonRes.Repr)
      ensures Abs() == DlirsSpec.LimitStack(old(Abs()))
    {
      hide Stacked, ListsHirs, Forget;
      var pruneSize := hirsCount + lirsCount + nonResident - size * 2;
      ghost var whole := pruneSize;
      while pruneSize > 0
        invariant Stacked() && ListsHirs(Abs()) && pruneSize <= |nonRes.keys|
        invariant lirs.Repr == old(lirs.Repr) && nonRes.Repr == old(nonRes.Repr)
        invariant ForgetOldest(Abs(), pruneSize) == ForgetOldest(old(Abs()), whole)
        decreases pruneSize
      {
        PopsBoth(Abs());
        ForgetSkew(Abs(), nonRes.keys[0]);
        LimitStep();
        pruneSize := pruneSize - 1;
      }
    }

    /** The key moves to the back of the stack. */
    method MoveToBack(k: Key)
      requires Sound() && NoDup(lirs.keys)
      modifies this, Repr()
      ensures Sound() && fresh(Repr() - old(Repr())) && Abs() == old(Abs()).(lirs := PutBack(old(lirs.keys), k))
    {
      hide KeyTable.Valid, Drop;
      DropMembers(lirs.keys, k);
      var _ := lirs.Remove(k);
      lirs.Insert(k);
    }

    /** `dlirs_hit_lir`. */
    method HitLir(k: Key)
      requires Valid() && k in lirs.keys && At(k).isLir
      modifies this, Repr()
      ensures Valid() && fresh(Repr() - old(Repr())) && Abs() == DlirsSpec.HitLir(old(Abs()), k)
    {
      hide Sound, Core, FrontLir, Settled, PutBack, DlirsSpec.Prune, Evolves, NoDup;
      StackDistinct(Abs());
      HitLirKeeps(Abs(), k);
      var front := LowestKey();
      MoveToBack(k);
      if front == k {
        Prune();
      }
    }

    /** `dqht_get_front` of the stack. */
    method LowestKey() returns (k: Key)
      requires Sound() && lirs.keys != []
      ensures k == lirs.keys[0]
    {
      hide KeyTable.Valid;
      var front := lirs.Front();
      k := front.value;
    }

    /** Take `k` out of the stack, marking it LIR, and out of the HIR order. */
    method LeaveStack(k: Key)
      requires Sound()
      modifies this, Repr()
      ensures Sound() && Repr() == old(Repr())
      ensures var d1 := SetEntry(old(Abs()).(lirs := Drop(old(lirs.keys), k)), k,
              EntryOf(old(Abs()), k).(isLir := true));
              Abs() == Unref(d1.(nonRes := Drop(d1.nonRes, k)), k, k in d1.nonRes)
    {
      hide KeyTable.Valid, Drop;
      var _ := lirs.Remove(k);
      entries := entries[k := At(k).(isLir := true)];
      var held := nonRes.Remove(k);
      DropReference(k, held);
    }

    /** Take `k` out of the resident table. */
    method LeaveResidents(k: Key)
      requires Sound()
      modifies this, Repr()
      ensures Sound() && Repr() == old(Repr())
      ensures Abs() == Unref(old(Abs()).(res := Drop(old(res.keys), k), hirsCount := old(hirsCount) - 1), k,
              k in old(res.keys))
    {
      hide KeyTable.Valid, Drop;
      var held := res.Remove(k);
      hirsCount := hirsCount - 1;
      DropReference(k, held);
    }

    /** The removals of `dlirs_hir_in_lirs`. */
    method TakeOut(k: Key) returns (inCache: bool)
      requires Sound() && Core(Abs()) && k in lirs.keys && !At(k).isLir
      modifies this, Repr()
      ensures Sound() && Repr() == old(Repr()) && Abs() == Promote(old(Abs()), k) && inCache == old(At(k).inCache)
    {
      hide Sound, Core, Drop, DlirsSpec.Resize;
      if !At(k).inCache {
        AwayCounted(Abs(), k);
      }
      inCache := At(k).inCache;
      LeaveStack(k);
      if inCache {
        LeaveResidents(k);
      } else {
        ComeBack(k);
      }
    }

    /** A non-resident key becomes resident. */
    method ComeBack(k: Key)
      requires Sound() && nonResident != 0
      modifies this
      ensures Sound() && Repr() == old(Repr())
      ensures var d := DlirsSpec.Resize(old(Abs()), true);
              Abs() == SetEntry(d, k, EntryOf(d, k).(inCache := true)).(nonResident := d.nonResident - 1)
    {
      hide KeyTable.Valid;
      Resize(true);
      entries := entries[k := At(k).(inCache := true)];
      nonResident := nonResident - 1;
    }

    /** The loop that demotes LIR entries while there are more than `keep`. */
    method ShedLirs(keep: int)
      requires Sound() && Core(Abs()) && FrontLir(Abs()) && keep >= 0
      modifies this, Repr()
      ensures Sound() && fresh(Repr() - old(Repr())) && Abs() == DlirsSpec.ShedLirs(old(Abs()), keep)
    {
      hide Sound, Core, FrontLir, DlirsSpec.EvictLir, Evolves;
      LirPresent(Abs());
      while lirsCount > keep
        invariant Sound() && fresh(Repr() - old(Repr())) && Core(Abs()) && FrontLir(Abs())
        invariant DlirsSpec.ShedLirs(Abs(), keep) == DlirsSpec.ShedLirs(old(Abs()), keep)
        decreases |lirs.keys|
      {
        LirPresent(Abs());
        EvictLirKeeps(Abs());
        EvictLirShrinks(Abs());
        EvictLir();
      }
    }

    /** The loop of `dlirs_hir_in_lirs` that evicts resident HIR entries. */
    method ShedResidents() returns (evicted: Option<Key>)
      requires Sound() && Core(Abs()) && FrontLir(Abs()) && Residents(Abs()) <= size && lirsCount < size
      modifies this, Repr()
      ensures Sound() && fresh(Repr() - old(Repr())) && (Abs(), evicted) == DlirsSpec.ShedResidents(old(Abs()), None)
    {
      hide Sound, Core, FrontLir, EvictResident;
      evicted := None;
      while hirsCount + lirsCount >= size
        invariant Sound() && fresh(Repr() - old(Repr())) && Core(Abs()) && FrontLir(Abs()) && lirsCount < size
        invariant DlirsSpec.ShedResidents(Abs(), evicted) == DlirsSpec.ShedResidents(old(Abs()), None)
        decreases |res.keys|
      {
        HirsPresent(Abs());
        EvictResidentKeeps(Abs());
        EvictionShrinks(Abs());
        evicted := EvictResidentHir();
      }
    }

    /** A new key at the back of the stack. */
    method PushStack(k: Key)
      requires Sound() && k !in lirs.keys
      modifies this, Repr()
      ensures Sound() && fresh(Repr() - old(Repr()))
      ensures Abs() == old(Abs()).(lirs := PutBack(old(lirs.keys), k), lirsCount := old(lirsCount) + 1)
    {
      hide KeyTable.Valid, Drop;
      DropAbsent(lirs.keys, k);
      lirs.Insert(k);
      lirsCount := lirsCount + 1;
    }

    /** `dlirs_hir_in_lirs`. */
    method HirInLirs(k: Key) returns (miss: bool, evicted: Option<Key>)
      requires Valid() && k in lirs.keys && !At(k).isLir
      modifies this, Repr()
      ensures Valid() && fresh(Repr() - old(Repr())) && (Abs(), evicted) == DlirsSpec.HirInLirs(old(Abs()), k)
      ensures miss == !old(At(k).inCache)
    {
      hide Sound, Core, FrontLir, Promote, DlirsSpec.ShedLirs, DlirsSpec.ShedResidents, ResidentsAfter, ResidentKey,
           Settled, HandsOut;
      HirInLirsKeeps(Abs(), k);
      PromoteStep(Abs(), k);
      ghost var d1 := Promote(Abs(), k);
      LimitsHold(d1);
      ShedLirsKeeps(d1, d1.lirsLimit - 1);
      TakesUpAbsent(d1, k);
      var inCache := TakeOut(k);
      ShedLirs(lirsLimit - 1);
      evicted := ShedResidents();
      PushStack(k);
      miss := !inCache;
    }

    /** A hit on a demoted entry adapts the limits. */
    method Undemote(k: Key)
      requires Sound() && Core(Abs()) && k in res.keys
      modifies this
      ensures Sound() && Repr() == old(Repr()) && Abs() == DlirsSpec.Undemote(old(Abs()), k)
      ensures forall x :: res.Takes(x) == old(res.Takes(x))
    {
      hide KeyTable.Valid, KeyTable.Takes, Core, DlirsSpec.Resize;
      if At(k).isDemoted {
        DemotedCounted(Abs(), k);
        Resize(false);
        entries := entries[k := At(k).(isDemoted := false)];
        demoted := demoted - 1;
      }
    }

    /** Two more references to the entry, and insertions in all tables. The first of them is of a
        present key. */
    method Restack(k: Key)
      requires Sound() && k !in lirs.keys && k !in nonRes.keys
      modifies this, Repr()
      ensures Stacked() && fresh(Repr() - old(Repr())) && Abs() == DlirsSpec.Restack(old(Abs()), k)
      ensures (res.Valid() <==> old(res.Takes(k))) && (res.Broken(k) <==> !old(res.Takes(k)))
    {
      hide KeyTable.Valid, KeyTable.Takes, KeyTable.Broken, Drop;
      DropAbsent(lirs.keys, k);
      DropAbsent(nonRes.keys, k);
      var e := At(k);
      entries := entries[k := e.(rc := e.rc + 2 - 1, lost := e.lost + 1)];
      res.Refresh(k);
      lirs.Insert(k);
      nonRes.Insert(k);
    }

    /** `dlirs_hit_hir_in_resident_hirs`: the resident table breaks unless it takes the key. */
    method HitHirInResidentHirs(k: Key)
      requires Valid() && Overrides(Abs(), k)
      modifies this, Repr()
      ensures Stacked() && fresh(Repr() - old(Repr())) && Abs() == HitResident(old(Abs()), k)
      ensures (res.Valid() <==> old(res.Takes(k))) && (res.Broken(k) <==> !old(res.Takes(k)))
    {
      hide KeyTable.Valid, KeyTable.Takes, KeyTable.Broken, Core, FrontLir, Settled, ListsHirs, Excess;
      hide DlirsSpec.Undemote, DlirsSpec.Restack, DlirsSpec.LimitStack;
      UndemoteCore(Abs(), k);
      UntouchedNonRes(Abs(), k);
      RestackReady(Abs(), k);
      Undemote(k);
      Restack(k);
      LimitStack();
    }

    /** `dlirs_get`: always the policy. The tables stay well formed exactly if this is not a hit on
        a resident entry outside the stack, or the resident table takes its key. */
    method Get(k: Key) returns (value: Option<Value>, evicted: Option<Key>)
      requires Valid()
      modifies this, Repr()
      ensures Stacked() && fresh(Repr() - old(Repr()))
      ensures var (f, hit, ev) := DlirsSpec.Get(old(Abs()), k);
              Abs() == f && evicted == ev && value == if hit then Some(EntryOf(old(Abs()), k).value) else None
      ensures Valid() <==> !Overrides(old(Abs()), k) || old(res.Takes(k))
      ensures !Valid() ==> res.Broken(k)
    {
      hide Stacked, Core, FrontLir, DlirsSpec.HirInLirs, DlirsSpec.HitLir, HitResident, Settled, CountsExact, HandsOut;
      hide KeyTable.Takes, KeyTable.Broken, KeyTable.Valid;
      GetKeeps(Abs(), k);
      InvKey(Abs(), k);
      evicted := None;
      value := None;
      var onStack, resident := Lookup(k);
      var e := At(k);
      if onStack {
        if e.isLir {
          HitLir(k);
          value := Some(e.value);
        } else {
          var miss;
          miss, evicted := HirInLirs(k);
          if !miss {
            value := Some(e.value);
          }
        }
      } else if resident {
        HitHirInResidentHirs(k);
        value := Some(e.value);
      }
    }

    /** `dqht_get` on the stack and on the resident table. */
    method Lookup(k: Key) returns (onStack: bool, resident: bool)
      requires Sound()
      ensures (onStack <==> k in lirs.keys) && (resident <==> k in res.keys)
    {
      hide KeyTable.Valid;
      onStack := lirs.Contains(k);
      resident := res.Contains(k);
    }

    /** The eviction loops of `dlirs_request`. */
    method MakeRoom() returns (evicted: Option<Key>)
      requires Valid()
      modifies this, Repr()
      ensures Sound() && fresh(Repr() - old(Repr())) && (Abs(), evicted) == DlirsSpec.MakeRoom(old(Abs()), None)
    {
      hide Sound, Core, FrontLir, EvictResident, DlirsSpec.ShedLirs, Evolves;
      evicted := None;
      while hirsCount + lirsCount >= size
        invariant Sound() && fresh(Repr() - old(Repr())) && Core(Abs()) && FrontLir(Abs())
        invariant DlirsSpec.MakeRoom(Abs(), evicted) == DlirsSpec.MakeRoom(old(Abs()), None)
        invariant Residents(Abs()) <= size
        decreases |lirs.keys| + |res.keys|
      {
        LimitsHold(Abs());
        ShedLirsKeeps(Abs(), lirsLimit);
        ShedLirsShrinks(Abs(), lirsLimit);
        ShedKeepsLimits(Abs(), lirsLimit);
        ShedLirs(lirsLimit);
        HirsPresent(Abs());
        EvictResidentKeeps(Abs());
        EvictionShrinks(Abs());
        evicted := EvictResidentHir();
      }
    }

    /** A new entry with three references, one for each table. */
    method AddHir(k: Key, v: Value)
      requires Sound() && k !in lirs.keys && k !in nonRes.keys && k !in res.keys
      modifies this, Repr()
      ensures Sound() && fresh(Repr() - old(Repr())) && Abs() == DlirsSpec.AddHir(old(Abs()), k, v)
    {
      hide KeyTable.Valid, Drop;
      DropAbsent(lirs.keys, k);
      DropAbsent(nonRes.keys, k);
      DropAbsent(res.keys, k);
      strays := Displace(Abs(), k).strays;
      entries := entries[k := Entry(v, false, false, true, 3, 0, 0)];
      hirsCount := hirsCount + 1;
      lirs.Insert(k);
      nonRes.Insert(k);
      res.Insert(k);
    }

    /** `dlirs_request` of a requestable key. */
    method Request(k: Key, v: Value) returns (evicted: Option<Key>)
      requires Valid() && Requestable(Abs(), k)
      modifies this, Repr()
      ensures Valid() && fresh(Repr() - old(Repr()))
      ensures (Abs(), evicted) == DlirsSpec.Request(old(Abs()), k, v)
    {
      hide Sound, Core, FrontLir, Settled, DlirsSpec.MakeRoom, DlirsSpec.LimitStack, DlirsSpec.AddHir, AddLir, PutBack;
      hide RoomAbsent, ListsHirs, Excess, Requestable, Handed, Stacked;
      RequestKeeps(Abs(), k, v);
      RequestInsertsAbsent(Abs(), k);
      if lirsCount < lirsLimit && hirsCount == 0 {
        AddFirst(k, v);
        return None;
      }
      RoomForHir(Abs(), k, v);
      evicted := MakeRoom();
      AddHir(k, v);
      LimitSound();
    }

    /** `dlirs_limit_stack` between well-formed tables. */
    method LimitSound()
      requires Sound() && ListsHirs(Abs()) && Excess(Abs()) <= |nonRes.keys|
      modifies this, Repr()
      ensures Sound() && Repr() == old(Repr()) && Abs() == DlirsSpec.LimitStack(old(Abs()))
    {
      hide KeyTable.Valid, ListsHirs, Excess, DlirsSpec.LimitStack;
      LimitStack();
    }

    /** A new LIR entry. */
    method AddFirst(k: Key, v: Value)
      requires Sound() && k !in lirs.keys
      modifies this, Repr()
      ensures Sound() && fresh(Repr() - old(Repr())) && Abs() == AddLir(old(Abs()), k, v)
    {
      hide KeyTable.Valid, Drop;
      DropAbsent(lirs.keys, k);
      strays := Displace(Abs(), k).strays;
      entries := entries[k := Entry(v, true, false, true, 1, 0, 0)];
      lirsCount := lirsCount + 1;
      lirs.Insert(k);
    }
  }

  lemma FrontDropped(s: seq<Key>)
    requires s != []
    ensures Drop(s, s[0]) == s[1..]
  {
  }

  lemma StackDistinct(d: Dlirs)
    requires Core(d)
    ensures NoDup(d.lirs)
  {
  }
}
