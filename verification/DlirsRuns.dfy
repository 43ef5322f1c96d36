/** Requests, whole runs of the DLIRS cache, and where its promises stop. */
module DlirsRuns {
  import opened Basics
  import opened Seqs
  import opened DlirsSpec
  import opened DlirsInvariant
  import opened DlirsOps
  import opened DlirsTheorems
  import opened DlirsCarry

  // ----- new entries

  lemma AddLirCore(d: Dlirs, k: Key, v: Value)
    requires Core(d) && FrontLir(d) && !Tracked(d, k)
    ensures var f := AddLir(d, k, v);
            Core(f) && FrontLir(f) && f.lirs == d.lirs + [k]
            && (forall x :: ResidentKey(f, x) <==> ResidentKey(d, x) || x == k)
  {
    hide Core, FrontLir;
    var e := Entry(v, true, false, true, 1, 0, 0);
    ReplaceEntry(d, k, e);
    PushReady(SetEntry(Displace(d, k), k, e), k);
    var f := AddLir(d, k, v);
    forall x
      ensures ResidentKey(f, x) <==> ResidentKey(d, x) || x == k
    {
      assert x != k ==> EntryOf(f, x) == EntryOf(d, x);
    }
  }

  /** The entry of an untracked key may be anything. */
  lemma ReplaceEntry(d: Dlirs, k: Key, e: Entry)
    requires Core(d) && FrontLir(d) && !Tracked(d, k)
    ensures var f := SetEntry(Displace(d, k), k, e); Core(f) && FrontLir(f) && EntryOf(f, k) == e
  {
    hide Select;
    var f := SetEntry(Displace(d, k), k, e);
    assert OnlyEntry(d, f, k);
    SelectOther(d, f, d.lirs, k, Hir);
    SelectOther(d, f, d.lirs, k, Lir);
    SelectOther(d, f, d.lirs, k, Away);
    SelectOther(d, f, d.res, k, Demoted);
    forall x
      ensures KeyOk(f, x) && Counted(f, x)
    {
      assert KeyOk(d, x) && Counted(d, x);
    }
  }

  /** Push an untracked key, whose entry is a resident HIR entry with three references. */
  lemma PushHirCore(d: Dlirs, k: Key)
    requires Core(d) && FrontLir(d) && d.lirs != [] && !Tracked(d, k)
    requires var e := EntryOf(d, k); !e.isLir && e.inCache && !e.isDemoted && e.rc == 3 && e.handles == 0 && e.lost == 0
    ensures var f := d.(lirs := d.lirs + [k], nonRes := d.nonRes + [k], res := d.res + [k],
            hirsCount := d.hirsCount + 1);
            Core(f) && FrontLir(f)
  {
    hide Select;
    var f := d.(lirs := d.lirs + [k], nonRes := d.nonRes + [k], res := d.res + [k], hirsCount := d.hirsCount + 1);
    PushSelect(d, f, k, Hir);
    PushSelect(d, f, k, Lir);
    PushSelect(d, f, k, Away);
    SelectAppend(d, d.res, k, Demoted);
    SelectSame(d, f, f.res, Demoted);
    forall x
      ensures KeyOk(f, x) && Counted(f, x)
    {
      PushHirKey(d, k, x);
    }
  }

  lemma PushHirKey(d: Dlirs, k: Key, x: Key)
    requires Core(d) && !Tracked(d, k)
    requires var e := EntryOf(d, k); !e.isLir && e.inCache && !e.isDemoted && e.rc == 3 && e.handles == 0 && e.lost == 0
    ensures var f := d.(lirs := d.lirs + [k], nonRes := d.nonRes + [k], res := d.res + [k],
            hirsCount := d.hirsCount + 1);
            KeyOk(f, x) && Counted(f, x)
  {
    hide Select;
    assert KeyOk(d, x) && Counted(d, x);
    NonResMembers(d, x);
  }

  lemma AddHirCore(d: Dlirs, k: Key, v: Value)
    requires Core(d) && FrontLir(d) && d.lirs != [] && !Tracked(d, k)
    ensures var f := AddHir(d, k, v);
            && Core(f) && FrontLir(f) && f.lirs != [] && f.size == d.size
            && Residents(f) == Residents(d) + 1 && f.nonResident == d.nonResident
            && (forall x :: ResidentKey(f, x) <==> ResidentKey(d, x) || x == k)
  {
    var e := Entry(v, false, false, true, 3, 0, 0);
    UntrackedNonRes(d, k);
    DropAbsent(d.lirs, k);
    DropAbsent(d.nonRes, k);
    DropAbsent(d.res, k);
    hide Core, FrontLir, Drop;
    ReplaceEntry(d, k, e);
    PushHirCore(SetEntry(Displace(d, k), k, e), k);
    var f := AddHir(d, k, v);
    forall x
      ensures ResidentKey(f, x) <==> ResidentKey(d, x) || x == k
    {
      assert x != k ==> EntryOf(f, x) == EntryOf(d, x);
    }
  }

  lemma UntrackedNonRes(d: Dlirs, k: Key)
    requires Core(d) && !Tracked(d, k)
    ensures k !in d.nonRes
  {
    NonResMembers(d, k);
  }

  /** The references to a new entry are accounted for, and so are those to the one it displaces. */
  lemma AddSettles(d: Dlirs, f: Dlirs, k: Key)
    requires Core(d) && Settled(d) && !Tracked(d, k) && OnlyEntry(d, f, k) && f.strays == Displace(d, k).strays
    requires EntryOf(f, k).rc == Holders(f, k) && EntryOf(f, k).handles == 0 && EntryOf(f, k).lost == 0
    requires forall x {:trigger Holders(f, x)} :: x != k ==> Holders(f, x) == Holders(d, x)
    ensures Settled(f)
  {
    UntrackedNonRes(d, k);
    assert Balance(d, k) == 0;
    forall x
      ensures Balance(f, x) == 0
    {
      assert Balance(d, x) == 0;
      assert x != k ==> Holders(f, x) == Holders(d, x);
    }
  }

  lemma AddLirSettles(d: Dlirs, k: Key, v: Value)
    requires Core(d) && Settled(d) && !Tracked(d, k)
    ensures Settled(AddLir(d, k, v))
  {
    UntrackedNonRes(d, k);
    DropAbsent(d.lirs, k);
    hide Core, Drop, Settled;
    AddSettles(d, AddLir(d, k, v), k);
  }

  lemma AddHirSettles(d: Dlirs, k: Key, v: Value)
    requires Core(d) && Settled(d) && !Tracked(d, k)
    ensures Settled(AddHir(d, k, v))
  {
    UntrackedNonRes(d, k);
    DropAbsent(d.lirs, k);
    DropAbsent(d.nonRes, k);
    DropAbsent(d.res, k);
    hide Core, Drop, Settled;
    AddSettles(d, AddHir(d, k, v), k);
  }

  // ----- requests

  /** What making room in a full cache does. */
  lemma RoomMade(d: Dlirs)
    requires Inv(d) && Residents(d) == d.size
    ensures var (f, ev) := MakeRoom(d, None);
            && Core(f) && FrontLir(f) && f.lirs != [] && f.size == d.size && Residents(f) == d.size - 1
            && ev.Some? && ResidentKey(d, ev.value) && !ResidentKey(f, ev.value)
            && (forall x {:trigger ResidentKey(f, x)} :: x != ev.value ==> (ResidentKey(f, x) <==> ResidentKey(d, x)))
            && (forall x {:trigger Tracked(f, x)} :: Tracked(f, x) ==> Tracked(d, x))
  {
    hide Core, FrontLir, MakeRoom, ShedLirs, EvictResident, ResidentKey, Tracked, OnlyEntry;
    MakeRoomOnce(d);
    LimitsHold(d);
    LirPresent(d);
    HirsPresent(d);
    var d1 := ShedLirs(d, d.lirsLimit);
    EvictResidentKeeps(d1);
    LirPresent(d1);
    var (f, ev) := EvictResident(d1);
    assert KeyEvolves(d, d1, ev.value);
    forall x | x != ev.value
      ensures ResidentKey(f, x) <==> ResidentKey(d, x)
    {
      assert KeyEvolves(d, d1, x);
    }
    forall x
      ensures Tracked(f, x) ==> Tracked(d, x)
    {
      assert KeyEvolves(d, d1, x);
    }
  }

  /** Making room leaves every reference accounted for, the evicted one as a handle. */
  lemma RoomSettles(d: Dlirs)
    requires Inv(d)
    ensures var (f, ev) := MakeRoom(d, None); Settled(f) && HandsOut(d, f, ev)
  {
    hide Core, FrontLir, MakeRoom, ShedLirs, EvictResident, Evolves, Expels, Balance;
    MakeRoomOnce(d);
    if Residents(d) == d.size {
      var d1 := ShedLirs(d, d.lirsLimit);
      EvictResidentKeeps(d1);
      EvolvesFields(d, d1);
      var (f, ev) := EvictResident(d1);
      forall x
        ensures Balance(f, x) == 0
        ensures EntryOf(f, x).handles == EntryOf(d, x).handles + (if ev == Some(x) then 1 else 0)
      {
        assert Balance(d, x) == 0;
        EvolvesAt(d, d1, x);
        ExpelsAt(d1, f, ev.value, x);
      }
      ExpelsAt(d1, f, ev.value, ev.value);
    }
  }

  /** How a request for `k` changes the outstanding handles: one more for the evicted key. The
      handles of the entry that `k` had go on, to the stray that it becomes. */
  ghost predicate Handed(d: Dlirs, f: Dlirs, k: Key, ev: Option<Key>) {
    var n, held := |d.strays|, EntryOf(d, k).handles + (if ev == Some(k) then 1 else 0);
    && (forall x {:trigger EntryOf(f, x)} ::
          x != k ==> EntryOf(f, x).handles == EntryOf(d, x).handles + (if ev == Some(x) then 1 else 0))
    && EntryOf(f, k).handles == 0
    && (held == 0 ==> f.strays == d.strays)
    && (held > 0 ==> |f.strays| == n + 1 && f.strays[..n] == d.strays && f.strays[n].handles == held)
  }

  lemma RequestHands(d: Dlirs, k: Key, v: Value)
    requires Inv(d)
    ensures var (f, ev) := Request(d, k, v); Handed(d, f, k, ev)
  {
    hide Core, FrontLir, MakeRoom, Settled, PutBack, ForgetOldest;
    if !(d.lirsCount < d.lirsLimit && d.hirsCount == 0) {
      RoomSettles(d);
      var (d1, ev) := MakeRoom(d, None);
      var d2 := AddHir(d1, k, v);
      var n := d2.hirsCount + d2.lirsCount + d2.nonResident - 2 * d2.size;
      ForgetOldestCarries(d2, n);
      CarriedAt(d2, ForgetOldest(d2, n), k);
      hide Carried;
      var f := ForgetOldest(d2, n);
      forall x
        ensures x != k ==> EntryOf(f, x).handles == EntryOf(d, x).handles + (if ev == Some(x) then 1 else 0)
      {
        assert EntryOf(f, x) == EntryOf(d2, x).(rc := EntryOf(f, x).rc);
        assert EntryOf(d1, x).handles == EntryOf(d, x).handles + (if ev == Some(x) then 1 else 0);
      }
      assert EntryOf(d1, k).handles == EntryOf(d, k).handles + (if ev == Some(k) then 1 else 0);
      assert EntryOf(f, k) == EntryOf(d2, k).(rc := EntryOf(f, k).rc);
    }
  }

  /** What a request does to a well-formed cache when its key is not in the way. */
  ghost predicate Admitted(d: Dlirs, f: Dlirs, k: Key, ev: Option<Key>) {
    && Inv(f) && f.size == d.size && ResidentsAfter(d, f, k, ev)
    && (ev.Some? <==> Residents(d) == d.size) && (ev.Some? ==> ResidentKey(d, ev.value))
    && Residents(f) == Min(d.size, Residents(d) + 1)
  }

  /** `k` is the entry that a full cache gives up next, and is not on the stack. */
  ghost predicate Leaving(d: Dlirs, k: Key) {
    Residents(d) == d.size && d.res != [] && k == d.res[0] && k !in d.lirs
  }

  /** `k` is in no table, or is the entry that makes room for itself. */
  ghost predicate Requestable(d: Dlirs, k: Key) {
    !Tracked(d, k) || Leaving(d, k)
  }

  /** A request for a requestable key keeps the invariant, makes the key resident and evicts one
      entry exactly when the cache is full. */
  lemma RequestKeeps(d: Dlirs, k: Key, v: Value)
    requires Inv(d) && Requestable(d, k)
    ensures var (f, ev) := Request(d, k, v); Admitted(d, f, k, ev) && Handed(d, f, k, ev)
  {
    RequestHands(d, k, v);
    RoomUntracked(d, k);
    RequestAdmits(d, k, v);
  }

  lemma RoomUntracked(d: Dlirs, k: Key)
    requires Inv(d) && Requestable(d, k)
    ensures !Tracked(Room(d), k)
  {
    hide Core, FrontLir, MakeRoom, ShedLirs, EvictResident;
    MakeRoomOnce(d);
    LimitsHold(d);
    HirsPresent(d);
    if Residents(d) == d.size {
      RoomMade(d);
      if Leaving(d, k) {
        ShedLirsFront(d, d.lirsLimit);
        var d1 := ShedLirs(d, d.lirsLimit);
        assert KeyEvolves(d, d1, k);
        ExpelTracked(d1, k);
      }
    }
    assert Tracked(Room(d), k) ==> Tracked(d, k);
  }

  /** Demotions leave the front of the resident table alone. */
  lemma {:induction false} ShedLirsFront(d: Dlirs, keep: int)
    requires Core(d) && FrontLir(d) && keep >= 0 && d.res != []
    ensures ShedLirs(d, keep).res != [] && ShedLirs(d, keep).res[0] == d.res[0]
    decreases |d.lirs|
  {
    if !(d.lirsCount <= keep || d.lirs == []) {
      EvictLirFront(d);
      EvictLirKeeps(d);
      EvictLirShrinks(d);
      hide Core, FrontLir, EvictLir;
      ShedLirsFront(EvictLir(d), keep);
    }
  }

  lemma EvictLirFront(d: Dlirs)
    requires Core(d) && FrontLir(d) && d.lirs != [] && d.res != []
    ensures EvictLir(d).res != [] && EvictLir(d).res[0] == d.res[0]
  {
    DemoteFields(d);
    DropAbsent(d.res, d.lirs[0]);
    PruneShrinks(Demote(d, d.lirs[0]));
  }

  lemma ExpelTracked(d: Dlirs, k: Key)
    requires Core(d) && d.res != []
    ensures Tracked(EvictResident(d).0, k) <==> Tracked(d, k) && !(k == d.res[0] && k !in d.lirs)
  {
    DropMembers(d.res, d.res[0]);
  }

  lemma RequestAdmits(d: Dlirs, k: Key, v: Value)
    requires Inv(d) && !Tracked(Room(d), k)
    ensures var (f, ev) := Request(d, k, v); Admitted(d, f, k, ev)
  {
    hide Core, FrontLir, ResidentKey, MakeRoom, LimitStack, AddHir, AddLir, Tracked;
    if d.lirsCount < d.lirsLimit && d.hirsCount == 0 {
      RequestLir(d, k, v);
    } else {
      RequestHir(d, k, v);
    }
  }

  lemma RequestLir(d: Dlirs, k: Key, v: Value)
    requires Inv(d) && !Tracked(d, k) && d.lirsCount < d.lirsLimit && d.hirsCount == 0
    ensures Admitted(d, AddLir(d, k, v), k, None)
  {
    hide Core, FrontLir, ResidentKey;
    LimitsHold(d);
    AddLirCore(d, k, v);
    AddLirSettles(d, k, v);
    StackSize(d);
  }

  lemma RequestHir(d: Dlirs, k: Key, v: Value)
    requires Inv(d) && !(d.lirsCount < d.lirsLimit && d.hirsCount == 0) && !Tracked(Room(d), k)
    ensures var (d1, ev) := MakeRoom(d, None); Admitted(d, LimitStack(AddHir(d1, k, v)), k, ev)
  {
    hide Core, FrontLir, ResidentKey, MakeRoom, LimitStack, AddHir, Tracked, Settled, Evolves;
    LimitsHold(d);
    LirPresent(d);
    HirsPresent(d);
    MakeRoomOnce(d);
    if Residents(d) == d.size {
      RoomMade(d);
    }
    var (d1, ev) := MakeRoom(d, None);
    AddHirCore(d1, k, v);
    var d2 := AddHir(d1, k, v);
    LimitStackKeeps(d2);
    var f := LimitStack(d2);
    StackSize(f);
    RoomSettles(d);
    AddHirSettles(d1, k, v);
    SettledEvolves(d2, f);
    EvolvesFields(d2, f);
    forall x
      ensures ResidentKey(f, x) <==> (ResidentKey(d, x) && ev != Some(x)) || x == k
    {
      EvolvesResident(d2, f, x);
      assert ResidentKey(d2, x) <==> ResidentKey(d1, x) || x == k;
    }
  }

  // ----- lookups

  /** A lookup is a hit exactly for resident keys. A hit evicts nothing; a miss on a key of the
      stack brings it back and evicts one entry; any other miss changes nothing. The evicted entry
      gets one handle more, and no other entry does. The reference counters stay exact if and only
      if it is not a hit on a resident entry outside the stack. */
  lemma GetKeeps(d: Dlirs, k: Key)
    requires Inv(d)
    ensures var (f, hit, ev) := Get(d, k);
            && Inv(f) && f.size == d.size && (hit <==> ResidentKey(d, k))
            && (hit ==> ev == None && Residents(f) == Residents(d) && ResidentsAfter(d, f, k, None))
            && (!hit && Tracked(d, k) ==>
                  ev.Some? && ResidentKey(d, ev.value) && ResidentsAfter(d, f, k, ev)
                  && Residents(f) == Residents(d) == d.size)
            && HandsOut(d, f, ev)
            && (!Tracked(d, k) ==> f == d && ev == None)
            && (CountsExact(d) ==> (CountsExact(f) <==> !Overrides(d, k)))
  {
    if CountsExact(d) {
      GetCounts(d, k);
    }
    InvKey(d, k);
    hide Core, FrontLir, HitLir, HirInLirs, HitResident, CountsExact, Overrides, Settled, Evolves;
    if k in d.lirs && EntryOf(d, k).isLir {
      HitLirKeeps(d, k);
      var f := HitLir(d, k);
      EvolvesFields(d, f);
      HandsOutEvolves(d, d, f);
      forall x
        ensures ResidentKey(f, x) <==> ResidentKey(d, x) || x == k
      {
        EvolvesResident(d, f, x);
      }
    } else if k in d.lirs {
      HirInLirsKeeps(d, k);
    } else if k in d.res {
      HitResidentKeeps(d, k);
    }
  }

  lemma GetInv(d: Dlirs, k: Key)
    requires Inv(d)
    ensures Inv(Get(d, k).0)
  {
    InvKey(d, k);
    hide Core, FrontLir, HitLir, HirInLirs, HitResident, Settled;
    if k in d.lirs && EntryOf(d, k).isLir {
      HitLirKeeps(d, k);
    } else if k in d.lirs {
      HirInLirsKeeps(d, k);
    } else if k in d.res {
      HitResidentKeeps(d, k);
    }
  }

  lemma GetCounts(d: Dlirs, k: Key)
    requires Inv(d) && CountsExact(d)
    ensures CountsExact(Get(d, k).0) <==> !Overrides(d, k)
  {
    var f := Get(d, k).0;
    GetInv(d, k);
    hide Get, Core, FrontLir, CountsExact, Overrides, Settled;
    ExactLossless(d);
    ExactLossless(f);
    GetCarries(d, k, k);
    forall x
      ensures EntryOf(f, x).lost == if x == k && Overrides(d, k) then 1 else 0
    {
      GetCarries(d, k, x);
    }
  }

  lemma RequestCounts(d: Dlirs, k: Key, v: Value)
    requires Inv(d) && Requestable(d, k)
    ensures CountsExact(d) ==> CountsExact(Request(d, k, v).0)
  {
    RequestKeeps(d, k, v);
    var f := Request(d, k, v).0;
    hide Request, Core, FrontLir, CountsExact, Settled, Requestable, Room;
    ExactLossless(d);
    ExactLossless(f);
    if CountsExact(d) {
      forall x
        ensures EntryOf(f, x).lost == 0
      {
        RequestCarries(d, k, v, x);
      }
      RequestCarries(d, k, v, k);
    }
  }

  lemma ReleaseCounts(d: Dlirs, k: Key)
    ensures CountsExact(d) ==> CountsExact(Release(d, k))
  {
    var f := Release(d, k);
    forall x | CountsExact(d)
      ensures EntryOf(f, x).rc == Holders(f, x) + EntryOf(f, x).handles
    {
      assert Holders(d, x) == Holders(f, x);
    }
  }

  // ----- the LIR budget

  /** There are no more LIR entries than the limit allows. */
  ghost predicate InBudget(d: Dlirs) {
    d.lirsCount <= d.lirsLimit
  }

  lemma UndemoteBudget(d: Dlirs, k: Key)
    requires Limits(d) && InBudget(d)
    ensures InBudget(Undemote(d, k))
  {
    if EntryOf(d, k).isDemoted && d.demoted != 0 {
      ResizeLimits(d, false);
    }
  }

  lemma GetBudget(d: Dlirs, k: Key)
    requires Inv(d)
    ensures InBudget(d) ==> InBudget(Get(d, k).0)
  {
    hide Core, FrontLir, HitLir, HirInLirs, ForgetOldest;
    LimitsHold(d);
    if k in d.lirs && EntryOf(d, k).isLir {
      HitLirCarries(d, k);
    } else if k in d.lirs {
      HirInLirsKeeps(d, k);
    } else if k in d.res && InBudget(d) {
      UndemoteBudget(d, k);
      hide Undemote;
      var r := Restack(Undemote(d, k), k);
      ForgetOldestCarries(r, r.hirsCount + r.lirsCount + r.nonResident - 2 * r.size);
    }
  }

  lemma RequestBudget(d: Dlirs, k: Key, v: Value)
    requires Inv(d)
    ensures InBudget(d) ==> InBudget(Request(d, k, v).0)
  {
    hide Core, FrontLir, MakeRoom, ForgetOldest, PutBack, EvictResident, ShedLirs;
    if !(d.lirsCount < d.lirsLimit && d.hirsCount == 0) && InBudget(d) {
      MakeRoomOnce(d);
      if Residents(d) == d.size {
        EvictResidentKeeps(ShedLirs(d, d.lirsLimit));
      }
      var d2 := AddHir(MakeRoom(d, None).0, k, v);
      ForgetOldestCarries(d2, d2.hirsCount + d2.lirsCount + d2.nonResident - 2 * d2.size);
    }
  }

  lemma InvKey(d: Dlirs, k: Key)
    requires Inv(d)
    ensures KeyOk(d, k)
  {
    assert KeyOk(d, k);
  }

  /** The caller has one handle of `k` less, if it had one, and everything else is as it was. */
  ghost predicate HandsBack(d: Dlirs, f: Dlirs, k: Key) {
    var held := EntryOf(d, k).handles;
    && f == d.(entries := f.entries) && OnlyEntry(d, f, k)
    && EntryOf(f, k).handles == (if held > 0 then held - 1 else 0)
  }

  /** Destroying an evicted reference keeps the invariant. With exact counters it frees the entry,
      by bringing its counter to zero, exactly if it is the last handle and no table has it. */
  lemma ReleaseKeeps(d: Dlirs, k: Key)
    requires Inv(d)
    ensures var f := Release(d, k);
            && Inv(f) && HandsBack(d, f, k)
            && (CountsExact(d) && EntryOf(d, k).handles > 0 ==>
                  (EntryOf(f, k).rc == 0 <==> EntryOf(d, k).handles == 1 && !Tracked(d, k)))
  {
    LastRelease(d, k);
    hide Select, CountsExact, NoDup;
    var f := Release(d, k);
    SameSelections(d, f);
    forall x
      ensures KeyOk(f, x) && Counted(f, x) && Balance(f, x) == 0
    {
      assert KeyOk(d, x) && Counted(d, x) && Balance(d, x) == 0;
    }
  }

  lemma LastRelease(d: Dlirs, k: Key)
    requires Core(d)
    ensures CountsExact(d) && EntryOf(d, k).handles > 0 ==>
              (EntryOf(Release(d, k), k).rc == 0 <==> EntryOf(d, k).handles == 1 && !Tracked(d, k))
  {
    NonResMembers(d, k);
    hide Core;
    if CountsExact(d) {
      assert EntryOf(d, k).rc == Holders(d, k) + EntryOf(d, k).handles;
    }
  }

  /** So does destroying a reference to a stray. */
  lemma ReleaseStrayKeeps(d: Dlirs, i: nat)
    requires Inv(d)
    ensures var f := ReleaseStray(d, i);
            && Inv(f) && (CountsExact(d) ==> CountsExact(f)) && f == d.(strays := f.strays) && |f.strays| == |d.strays|
            && (forall j :: 0 <= j < |d.strays| ==>
                  f.strays[j].handles == d.strays[j].handles - (if j == i && d.strays[i].handles > 0 then 1 else 0))
            && (CountsExact(d) && i < |d.strays| && d.strays[i].handles > 0 ==>
                  (f.strays[i].rc == 0 <==> d.strays[i].handles == 1))
  {
    hide Select;
    var f := ReleaseStray(d, i);
    SameSelections(d, f);
    forall x
      ensures KeyOk(f, x) && Counted(f, x) && Balance(f, x) == 0
      ensures Holders(f, x) == Holders(d, x) && EntryOf(f, x) == EntryOf(d, x)
    {
      assert KeyOk(d, x) && Counted(d, x) && Balance(d, x) == 0;
    }
    if CountsExact(d) {
      forall x
        ensures EntryOf(f, x).rc == Holders(f, x) + EntryOf(f, x).handles
      {
        assert Holders(f, x) == Holders(d, x);
      }
    }
  }

  lemma SameSelections(d: Dlirs, f: Dlirs)
    requires f.lirs == d.lirs && f.res == d.res
    requires forall x {:trigger EntryOf(f, x)} ::
               EntryOf(f, x) == EntryOf(d, x).(rc := EntryOf(f, x).rc, handles := EntryOf(f, x).handles)
    ensures Select(f, d.lirs, Hir) == Select(d, d.lirs, Hir) && Select(f, d.lirs, Lir) == Select(d, d.lirs, Lir)
    ensures Select(f, d.lirs, Away) == Select(d, d.lirs, Away) && Select(f, d.res, Demoted) == Select(d, d.res, Demoted)
  {
    hide Select;
    SelectSame(d, f, d.lirs, Hir);
    SelectSame(d, f, d.lirs, Lir);
    SelectSame(d, f, d.lirs, Away);
    SelectSame(d, f, d.res, Demoted);
  }

  // ----- whole runs

  datatype Op = RequestOp(key: Key, value: Value) | GetOp(key: Key) | ReleaseOp(key: Key) | ReleaseStrayOp(index: nat)

  /** Requests are made for requestable keys only. */
  ghost predicate Legal(d: Dlirs, op: Op) {
    op.RequestOp? ==> Requestable(d, op.key)
  }

  ghost function Step(d: Dlirs, op: Op): Dlirs {
    match op
    case RequestOp(k, v) => Request(d, k, v).0
    case GetOp(k) => Get(d, k).0
    case ReleaseOp(k) => Release(d, k)
    case ReleaseStrayOp(i) => ReleaseStray(d, i)
  }

  /** The step that inserts an entry over itself. */
  ghost predicate Overriding(d: Dlirs, op: Op) {
    op.GetOp? && Overrides(d, op.key)
  }

  /** Every operation keeps the invariant and the LIR budget and never lowers the number of
      residents. It keeps the reference counters exact if and only if it is not a hit on a
      resident entry outside the stack. */
  lemma StepKeeps(d: Dlirs, op: Op)
    requires Inv(d) && Legal(d, op)
    ensures Inv(Step(d, op)) && Residents(Step(d, op)) >= Residents(d) && Step(d, op).size == d.size
    ensures InBudget(d) ==> InBudget(Step(d, op))
    ensures CountsExact(d) ==> (CountsExact(Step(d, op)) <==> !Overriding(d, op))
  {
    hide Core, FrontLir, Request, Get, CountsExact, Overrides, Settled;
    match op
    case RequestOp(k, v) =>
      RequestKeeps(d, k, v);
      RequestBudget(d, k, v);
      RequestCounts(d, k, v);
    case GetOp(k) =>
      GetKeeps(d, k);
      GetBudget(d, k);
    case ReleaseOp(k) =>
      ReleaseKeeps(d, k);
      ReleaseCounts(d, k);
    case ReleaseStrayOp(i) =>
      ReleaseStrayKeeps(d, i);
  }

  ghost predicate Runs(d: Dlirs, ops: seq<Op>, f: Dlirs)
    decreases |ops|
  {
    if ops == [] then f == d else Legal(d, ops[0]) && Runs(Step(d, ops[0]), ops[1..], f)
  }

  lemma CreateInv(size: int, hirsLimit: int)
    requires size >= 2 && 1 <= hirsLimit < size
    ensures Inv(Create(size, hirsLimit))
  {
    var d := Create(size, hirsLimit);
    forall k
      ensures KeyOk(d, k) && Counted(d, k) && Balance(d, k) == 0
    {
    }
  }

  /** A new cache is well formed exactly if the ratio leaves room for a LIR entry. */
  lemma CreateExact(size: int, ratio: real)
    ensures Inv(Create(size, InitialLimit(size, ratio))) <==> size >= 2 && InitialLimit(size, ratio) < size
  {
    var d := Create(size, InitialLimit(size, ratio));
    if size >= 2 && InitialLimit(size, ratio) < size {
      CreateInv(size, InitialLimit(size, ratio));
    } else {
      assert !Limits(d);
    }
  }

  /** No step of the run inserts an entry over itself. */
  ghost predicate Gentle(d: Dlirs, ops: seq<Op>)
    decreases |ops|
  {
    ops == [] || (!Overriding(d, ops[0]) && Gentle(Step(d, ops[0]), ops[1..]))
  }

  /** Every reachable state satisfies the invariant: the counters count what they name, the HIR
      order is the HIR part of the stack, the stack has a LIR entry at its front and at most
      twice as many entries as the cache, and a cache that was once full is full. If no step
      inserts an entry over itself, every reference counter is the number of tables and evicted
      handles that hold its entry, so an entry is alive exactly while a table or the caller has it. */
  lemma {:induction false} RunKeeps(d: Dlirs, ops: seq<Op>, f: Dlirs)
    requires Inv(d) && Runs(d, ops, f)
    ensures Inv(f) && f.size == d.size && Residents(d) <= Residents(f) <= f.size
    ensures InBudget(d) ==> InBudget(f)
    ensures CountsExact(d) && Gentle(d, ops) ==> CountsExact(f) && AliveWhileHeld(f)
    decreases |ops|
  {
    hide Core, FrontLir, Step, CountsExact, Overriding, InBudget, Settled, AliveWhileHeld, Legal;
    if ops != [] {
      StepKeeps(d, ops[0]);
      RunKeeps(Step(d, ops[0]), ops[1..], f);
    } else if CountsExact(d) {
      ExactAlive(d);
    }
  }

  // ----- requests for tracked keys

  /** The counters' errors. Forgetting HIR entries does not change them. */
  function Skew(d: Dlirs): (int, int, int) {
    (d.hirsCount - |d.res|, d.lirsCount - |Select(d, d.lirs, Lir)|, d.nonResident - |Select(d, d.lirs, Away)|)
  }

  /** The HIR order lists HIR entries of the stack only. */
  ghost predicate ListsHirs(d: Dlirs) {
    NoDup(d.lirs) && NoDup(d.nonRes) && forall x :: x in d.nonRes ==> x in d.lirs && !EntryOf(d, x).isLir
  }

  lemma ForgetSkew(d: Dlirs, k: Key)
    requires ListsHirs(d) && k in d.nonRes
    ensures Skew(Forget(d, k)) == Skew(d) && ListsHirs(Forget(d, k))
  {
    hide Select, Drop;
    var f := Forget(d, k);
    DropMembers(d.lirs, k);
    DropMembers(d.nonRes, k);
    assert SameFlags(d, f);
    SameFlagsSelect(d, f, f.lirs, Lir);
    SameFlagsSelect(d, f, f.lirs, Away);
    CountDrop(d, d.lirs, k, Lir);
    CountDrop(d, d.lirs, k, Away);
  }

  lemma {:induction false} ForgetOldestSkew(d: Dlirs, n: int)
    requires ListsHirs(d)
    ensures Skew(ForgetOldest(d, n)) == Skew(d)
    decreases n
  {
    hide Skew, ListsHirs, Forget;
    if n > 0 && d.nonRes != [] {
      ForgetSkew(d, d.nonRes[0]);
      ForgetOldestSkew(Forget(d, d.nonRes[0]), n - 1);
    }
  }

  lemma SkewBreaks(d: Dlirs)
    requires Skew(d) != (0, 0, 0)
    ensures !Inv(d)
  {
  }

  lemma AddLirSkews(d: Dlirs, k: Key, v: Value)
    requires Inv(d) && Tracked(d, k) && d.lirsCount < d.lirsLimit && d.hirsCount == 0
    ensures Skew(AddLir(d, k, v)).1 == 1
  {
    hide Select;
    StackSize(d);
    NonResMembers(d, k);
    var g := d.(lirs := PutBack(d.lirs, k));
    MoveSelect(d, g, k, Lir);
    var f := AddLir(d, k, v);
    SelectSame(g, f, f.lirs, Lir);
  }

  lemma AddHirSkews(d: Dlirs, k: Key, v: Value)
    requires Core(d) && Tracked(d, k)
    ensures Skew(AddHir(d, k, v)) != (0, 0, 0)
  {
    hide Select;
    var f := AddHir(d, k, v);
    assert KeyOk(d, k) && OnlyEntry(d, f, k);
    PutBackMembers(d.res, k);
    if k !in d.res {
      AddHirCount(d, f, k, Lir);
      AddHirCount(d, f, k, Away);
    }
  }

  lemma AddHirCount(d: Dlirs, f: Dlirs, k: Key, t: Trait)
    requires NoDup(d.lirs) && k in d.lirs && f.lirs == PutBack(d.lirs, k) && OnlyEntry(d, f, k) && !Has(f, k, t)
    ensures |Select(f, f.lirs, t)| == |Select(d, d.lirs, t)| - (if Has(d, k, t) then 1 else 0)
  {
    DropMembers(d.lirs, k);
    SelectAppend(f, Drop(d.lirs, k), k, t);
    SelectOther(d, f, Drop(d.lirs, k), k, t);
    CountDrop(d, d.lirs, k, t);
  }

  lemma AddHirLists(d: Dlirs, k: Key, v: Value)
    requires Core(d)
    ensures ListsHirs(AddHir(d, k, v))
  {
    hide Select;
    NonResMembers(d, k);
    PutBackMembers(d.lirs, k);
    PutBackMembers(d.nonRes, k);
    var f := AddHir(d, k, v);
    forall x | x in f.nonRes
      ensures x in f.lirs && !EntryOf(f, x).isLir
    {
      NonResMembers(d, x);
    }
  }

  /** A request keeps the invariant exactly when its key is in no table once room is made. A
      tracked key leaves a counter wrong. */
  lemma RequestExact(d: Dlirs, k: Key, v: Value)
    requires Inv(d)
    ensures Inv(Request(d, k, v).0) <==> !Tracked(Room(d), k)
  {
    hide Core, FrontLir, MakeRoom, LimitStack, AddHir, AddLir, Tracked, Skew, ListsHirs;
    if !Tracked(Room(d), k) {
      RequestAdmits(d, k, v);
    } else if d.lirsCount < d.lirsLimit && d.hirsCount == 0 {
      AddLirSkews(d, k, v);
      SkewBreaks(AddLir(d, k, v));
    } else {
      RoomCore(d);
      var d1 := MakeRoom(d, None).0;
      AddHirSkews(d1, k, v);
      AddHirLists(d1, k, v);
      LimitSkew(AddHir(d1, k, v));
      SkewBreaks(LimitStack(AddHir(d1, k, v)));
    }
  }

  /** The same, as a condition on the state before the call, for every reachable state. */
  lemma RequestExactBefore(d: Dlirs, k: Key, v: Value)
    requires Inv(d) && InBudget(d)
    ensures Inv(Request(d, k, v).0) <==> Requestable(d, k)
  {
    RequestExact(d, k, v);
    RoomTracked(d, k);
  }

  lemma RoomTracked(d: Dlirs, k: Key)
    requires Inv(d) && InBudget(d)
    ensures Tracked(Room(d), k) <==> Tracked(d, k) && !Leaving(d, k)
  {
    hide Core, FrontLir, MakeRoom;
    MakeRoomOnce(d);
    LimitsHold(d);
    if Residents(d) == d.size {
      HirsPresent(d);
      assert ShedLirs(d, d.lirsLimit) == d;
      ExpelTracked(d, k);
    }
  }

  lemma LimitSkew(d: Dlirs)
    requires ListsHirs(d)
    ensures Skew(LimitStack(d)) == Skew(d)
  {
    hide Skew, ListsHirs, ForgetOldest;
    ForgetOldestSkew(d, d.hirsCount + d.lirsCount + d.nonResident - 2 * d.size);
  }

  lemma RoomCore(d: Dlirs)
    requires Inv(d)
    ensures Core(MakeRoom(d, None).0)
  {
    hide Core, FrontLir, MakeRoom;
    MakeRoomOnce(d);
    if Residents(d) == d.size {
      RoomMade(d);
    }
  }

  /** The driver's pattern, a lookup of a non-resident key of the stack followed by a request
      for it, always breaks the invariant: the lookup has already made the key resident. */
  lemma RequestAfterMissBreaks(d: Dlirs, k: Key, v: Value)
    requires Inv(d) && k in d.lirs && !EntryOf(d, k).inCache
    ensures var (f, hit, ev) := Get(d, k); Inv(f) && !hit && ResidentKey(f, k) && !Inv(Request(f, k, v).0)
  {
    InvKey(d, k);
    hide Core, FrontLir, HirInLirs, MakeRoom, Request;
    HirInLirsKeeps(d, k);
    GetKeeps(d, k);
    var f := HirInLirs(d, k).0;
    StillTracked(f, k);
    RequestExact(f, k, v);
  }

  lemma StillTracked(f: Dlirs, k: Key)
    requires Inv(f) && f.lirsCount <= f.lirsLimit && k in f.lirs
    ensures Tracked(Room(f), k)
  {
    hide Core, FrontLir, MakeRoom;
    MakeRoomOnce(f);
    if Residents(f) == f.size {
      assert ShedLirs(f, f.lirsLimit) == f;
      EvictResidentKeeps(f);
    }
  }
}
