/** What holds over every run of the DLIRS cache. */
module DlirsTheorems {
  import opened Basics
  import opened Seqs
  import opened DlirsSpec
  import opened DlirsInvariant
  import opened DlirsOps

  // ----- the size of the stack

  lemma {:induction false} SubsetLength(s: seq<Key>, t: seq<Key>)
    requires NoDup(s) && NoDup(t) && forall k :: k in s ==> k in t
    ensures |s| <= |t|
  {
    if s != [] {
      assert s[0] in s;
      DropMembers(t, s[0]);
      var r := s[1..];
      assert NoDup(r) && s[0] !in r;
      SubsetLength(r, Drop(t, s[0]));
    }
  }

  /** HIR entries of the stack are non-resident or in the resident table. */
  ghost function Nearby(d: Dlirs, s: seq<Key>): seq<Key> {
    if s == [] then [] else (if !Has(d, s[0], Lir) && !Has(d, s[0], Away) then [s[0]] else []) + Nearby(d, s[1..])
  }

  lemma {:induction false} NearbyMembers(d: Dlirs, s: seq<Key>)
    ensures forall k :: k in Nearby(d, s) <==> k in s && !Has(d, k, Lir) && !Has(d, k, Away)
    ensures NoDup(s) ==> NoDup(Nearby(d, s))
  {
    if s != [] {
      NearbyMembers(d, s[1..]);
      assert NoDup(s) ==> NoDup(s[1..]) && s[0] !in s[1..];
    }
  }

  lemma {:induction false} HirSplit(d: Dlirs, s: seq<Key>)
    requires forall k :: k in s && Has(d, k, Away) ==> Has(d, k, Hir)
    ensures |Select(d, s, Hir)| == |Nearby(d, s)| + |Select(d, s, Away)|
  {
    if s != [] {
      assert s[0] in s;
      HirSplit(d, s[1..]);
    }
  }

  /** The stack is no longer than residents and non-residents together, and the HIR order holds
      every non-resident. */
  lemma StackSize(d: Dlirs)
    requires Core(d)
    ensures |d.lirs| <= Residents(d) + d.nonResident
    ensures 0 <= d.nonResident <= |d.nonRes| && |d.lirs| == d.lirsCount + |d.nonRes|
  {
    forall k | k in d.lirs && Has(d, k, Away)
      ensures Has(d, k, Hir)
    {
      assert KeyOk(d, k);
    }
    HirSplit(d, d.lirs);
    NearbyMembers(d, d.lirs);
    forall k | k in Nearby(d, d.lirs)
      ensures k in d.res
    {
      assert KeyOk(d, k);
    }
    SubsetLength(Nearby(d, d.lirs), d.res);
    SelectSplit(d, d.lirs);
  }

  // ----- limit_stack

  lemma {:induction false} ForgetOldestKeeps(d: Dlirs, n: int)
    requires Core(d) && FrontLir(d) && 0 <= n <= |d.nonRes|
    ensures var f := ForgetOldest(d, n);
            Core(f) && FrontLir(f) && Evolves(d, f) && |f.lirs| == |d.lirs| - n && (d.lirs != [] ==> f.lirs != [])
    decreases n
  {
    hide Core, Evolves, Forget, Select, Drop, FrontLir;
    if n == 0 {
      EvolvesSelf(d);
    } else {
      var k := d.nonRes[0];
      OldestHir(d);
      ForgetCore(d, k);
      ForgetEvolves(d, k);
      ForgetOldestKeeps(Forget(d, k), n - 1);
      EvolvesTrans(d, Forget(d, k), ForgetOldest(d, n));
    }
  }

  lemma OldestHir(d: Dlirs)
    requires Core(d) && FrontLir(d) && d.nonRes != []
    ensures var k := d.nonRes[0];
            var f := Forget(d, k);
            && k in d.lirs && !EntryOf(d, k).isLir && FrontLir(f) && f.lirs != []
            && |f.lirs| == |d.lirs| - 1 && |f.nonRes| == |d.nonRes| - 1
  {
    hide Select;
    var k := d.nonRes[0];
    NonResMembers(d, k);
    ForgetFields(d, k);
    hide Forget;
    DropMembers(d.lirs, k);
    DropMembers(d.nonRes, k);
    assert d.lirs[0] != k;
    assert Drop(d.lirs, k)[0] == d.lirs[0];
    assert EntryOf(Forget(d, k), d.lirs[0]) == EntryOf(d, d.lirs[0]).(rc := EntryOf(Forget(d, k), d.lirs[0]).rc);
  }

  /** `dlirs_limit_stack` never pops an empty table and bounds the stack by twice the cache. */
  lemma LimitStackKeeps(d: Dlirs)
    requires Core(d) && FrontLir(d) && Residents(d) <= d.size
    ensures var f := LimitStack(d);
            Core(f) && FrontLir(f) && Evolves(d, f) && |f.lirs| <= 2 * d.size && (d.lirs != [] ==> f.lirs != [])
    ensures Residents(d) + d.nonResident - 2 * d.size <= |d.nonRes|
  {
    StackSize(d);
    hide Core, Evolves, FrontLir, ForgetOldest;
    var n := Residents(d) + d.nonResident - 2 * d.size;
    if n > 0 {
      ForgetOldestKeeps(d, n);
    } else {
      ForgetNone(d, n);
      EvolvesSelf(d);
    }
  }

  lemma ForgetNone(d: Dlirs, n: int)
    requires n <= 0
    ensures ForgetOldest(d, n) == d
  {
  }

  // ----- hit on a LIR entry

  lemma HitLirKeeps(d: Dlirs, k: Key)
    requires Inv(d) && k in d.lirs && EntryOf(d, k).isLir
    ensures var f := HitLir(d, k); Inv(f) && Evolves(d, f)
  {
    var d1 := d.(lirs := PutBack(d.lirs, k));
    hide Core, Evolves, Settled, Prune;
    MoveLirCore(d, k);
    MoveLirEvolves(d, k);
    if d.lirs[0] == k {
      PruneCore(d1);
      PruneEvolves(d1);
      EvolvesTrans(d, d1, Prune(d1));
      assert k in Prune(d1).lirs;
    } else {
      assert Drop(d.lirs, k)[0] == d.lirs[0];
    }
    SettledEvolves(d, HitLir(d, k));
    EvolvesFields(d, HitLir(d, k));
    StackSize(HitLir(d, k));
  }

  lemma EvolvesFields(d: Dlirs, f: Dlirs)
    requires Evolves(d, f)
    ensures f.size == d.size && f.hirsLimit == d.hirsLimit && f.lirsLimit == d.lirsLimit && f.strays == d.strays
    ensures Residents(f) == Residents(d) && f.nonResident <= d.nonResident && |f.lirs| <= |d.lirs|
  {
  }

  lemma MoveLirCore(d: Dlirs, k: Key)
    requires Core(d) && k in d.lirs && EntryOf(d, k).isLir
    ensures var f := d.(lirs := PutBack(d.lirs, k));
            Core(f) && |f.lirs| == |d.lirs| && k in f.lirs && EntryOf(f, k).isLir
  {
    hide Select;
    var f := d.(lirs := PutBack(d.lirs, k));
    PutBackMembers(d.lirs, k);
    MoveSelect(d, f, k, Lir);
    MoveSelect(d, f, k, Hir);
    MoveSelect(d, f, k, Away);
    NonResMembers(d, k);
    DropAbsent(d.nonRes, k);
    assert KeyOk(d, k);
    SelectSame(d, f, d.res, Demoted);
    forall x
      ensures KeyOk(f, x) && Counted(f, x)
    {
      assert KeyOk(d, x) && Counted(d, x);
    }
  }

  /** Moving a key to the back of the stack moves it to the back of its selections. */
  lemma MoveSelect(d: Dlirs, f: Dlirs, k: Key, t: Trait)
    requires NoDup(d.lirs) && k in d.lirs && f == d.(lirs := PutBack(d.lirs, k))
    ensures Select(f, f.lirs, t) == Drop(Select(d, d.lirs, t), k) + (if Has(d, k, t) then [k] else [])
    ensures |Select(f, f.lirs, t)| == |Select(d, d.lirs, t)|
  {
    SelectSame(d, f, f.lirs, t);
    SelectDrop(d, d.lirs, k, t);
    SelectAppend(d, Drop(d.lirs, k), k, t);
    SelectMembers(d, d.lirs, t);
    DropMembers(Select(d, d.lirs, t), k);
  }

  lemma MoveLirEvolves(d: Dlirs, k: Key)
    requires Core(d) && k in d.lirs
    ensures Evolves(d, d.(lirs := PutBack(d.lirs, k)))
  {
    hide Select, Drop;
    var f := d.(lirs := PutBack(d.lirs, k));
    PutBackMembers(d.lirs, k);
    forall x
      ensures KeyEvolves(d, f, x)
    {
      assert EntryOf(f, x) == EntryOf(d, x);
    }
  }

  // ----- limits

  lemma ResizeLimits(d: Dlirs, hitNonResident: bool)
    requires Limits(d) && if hitNonResident then d.nonResident != 0 else d.demoted != 0
    ensures Limits(Resize(d, hitNonResident))
    ensures var f := Resize(d, hitNonResident);
            if hitNonResident then f.hirsLimit == d.size - 1 || f.hirsLimit > d.hirsLimit
            else f.lirsLimit == d.size - 1 || f.lirsLimit > d.lirsLimit
  {
  }

  // ----- a key of the stack becomes LIR

  /** `Promote` takes `k` out of all tables and leaves its entry ready to be a LIR entry. */
  ghost predicate Promoted(d: Dlirs, f: Dlirs, k: Key) {
    var e := EntryOf(d, k);
    && f.size == d.size && f.strays == d.strays && !Tracked(f, k)
    && f.lirs == Drop(d.lirs, k) && f.nonRes == Drop(d.nonRes, k) && f.res == Drop(d.res, k)
    && f.lirsCount == d.lirsCount && f.demoted == d.demoted
    && f.hirsCount == d.hirsCount - (if e.inCache then 1 else 0)
    && f.nonResident == d.nonResident - (if e.inCache then 0 else 1)
    && OnlyEntry(d, f, k)
    && EntryOf(f, k) == e.(isLir := true, inCache := true, rc := 1 + e.handles - e.lost)
  }

  lemma PromoteFields(d: Dlirs, k: Key)
    requires Core(d) && k in d.lirs && !EntryOf(d, k).isLir
    ensures Promoted(d, Promote(d, k), k) && Limits(Promote(d, k))
  {
    if !EntryOf(d, k).inCache {
      AwayCounted(d, k);
    }
    NonResMembers(d, k);
    DropMembers(d.lirs, k);
    DropMembers(d.res, k);
    if k !in d.res {
      DropAbsent(d.res, k);
    }
    assert KeyOk(d, k) && Counted(d, k);
    hide Drop, Select, Delta, Min;
    if !EntryOf(d, k).inCache {
      var d1 := SetEntry(d.(lirs := Drop(d.lirs, k)), k, EntryOf(d, k).(isLir := true));
      var d2 := Unref(d1.(nonRes := Drop(d1.nonRes, k)), k, k in d1.nonRes);
      ResizeLimits(d2, true);
    }
  }

  /** The reference of the stack stays with the promoted key, which is in hand. */
  lemma PromoteBalance(d: Dlirs, k: Key)
    requires Core(d) && k in d.lirs && !EntryOf(d, k).isLir
    ensures var f := Promote(d, k);
            && (forall x {:trigger Balance(f, x)} :: Balance(f, x) == Balance(d, x) + (if x == k then 1 else 0))
            && (forall x {:trigger EntryOf(f, x)} :: EntryOf(f, x).handles == EntryOf(d, x).handles)
            && f.strays == d.strays
  {
    PromoteFields(d, k);
    assert Counted(d, k);
    NonResMembers(d, k);
    hide Promote, Select, Drop, Core;
    DropsMember(d, k);
    var f := Promote(d, k);
    forall x
      ensures Balance(f, x) == Balance(d, x) + (if x == k then 1 else 0)
      ensures EntryOf(f, x).handles == EntryOf(d, x).handles
    {
      assert x != k ==> EntryOf(f, x) == EntryOf(d, x);
    }
  }

  lemma DropsMember(d: Dlirs, k: Key)
    requires Core(d)
    ensures forall x :: x in Drop(d.lirs, k) <==> x in d.lirs && x != k
    ensures forall x :: x in Drop(d.nonRes, k) <==> x in d.nonRes && x != k
    ensures forall x :: x in Drop(d.res, k) <==> x in d.res && x != k
  {
    NonResMembers(d, k);
    DropMembers(d.lirs, k);
    DropMembers(d.nonRes, k);
    DropMembers(d.res, k);
  }

  lemma AwayCounted(d: Dlirs, k: Key)
    requires Core(d) && k in d.lirs && !EntryOf(d, k).inCache
    ensures d.nonResident >= 1
  {
    SelectMembers(d, d.lirs, Away);
    assert k in Select(d, d.lirs, Away);
  }

  lemma PromoteCore(d: Dlirs, k: Key)
    requires Core(d) && FrontLir(d) && k in d.lirs && !EntryOf(d, k).isLir
    ensures Core(Promote(d, k)) && FrontLir(Promote(d, k)) && |Promote(d, k).lirs| == |d.lirs| - 1
  {
    PromoteFields(d, k);
    PromoteFront(d, k);
    PromoteCounters(d, k);
    hide Promote, Select, Drop, Counters, Tables;
    forall x
      ensures KeyOk(Promote(d, k), x) && Counted(Promote(d, k), x)
    {
      PromoteKey(d, k, x);
    }
  }

  lemma PromoteFront(d: Dlirs, k: Key)
    requires Core(d) && FrontLir(d) && k in d.lirs && !EntryOf(d, k).isLir
    ensures FrontLir(Promote(d, k)) && |Promote(d, k).lirs| == |d.lirs| - 1
  {
    PromoteFields(d, k);
    hide Promote, Select;
    assert d.lirs[0] != k && Drop(d.lirs, k)[0] == d.lirs[0];
    assert EntryOf(Promote(d, k), d.lirs[0]) == EntryOf(d, d.lirs[0]);
    DropMembers(d.lirs, k);
  }

  lemma PromoteCounters(d: Dlirs, k: Key)
    requires Core(d) && k in d.lirs && !EntryOf(d, k).isLir
    ensures Tables(Promote(d, k)) && Counters(Promote(d, k))
  {
    var f := Promote(d, k);
    PromoteFields(d, k);
    assert KeyOk(d, k);
    hide Promote, Select, Drop, OnlyEntry;
    DropMembers(d.lirs, k);
    DropMembers(d.res, k);
    SelectOther(d, f, f.lirs, k, Hir);
    SelectOther(d, f, f.lirs, k, Lir);
    SelectOther(d, f, f.lirs, k, Away);
    SelectOther(d, f, f.res, k, Demoted);
    SelectDrop(d, d.lirs, k, Hir);
    CountDrop(d, d.lirs, k, Lir);
    CountDrop(d, d.lirs, k, Away);
    CountDrop(d, d.res, k, Demoted);
  }

  lemma PromoteKey(d: Dlirs, k: Key, x: Key)
    requires Core(d) && k in d.lirs && !EntryOf(d, k).isLir
    ensures KeyOk(Promote(d, k), x) && Counted(Promote(d, k), x)
  {
    PromoteFields(d, k);
    hide Promote, Select, Drop;
    DropMembers(d.lirs, k);
    DropMembers(d.res, k);
    assert KeyOk(d, x) && Counted(d, x);
    NonResMembers(d, x);
    DropMembers(d.nonRes, k);
    assert x != k ==> EntryOf(Promote(d, k), x) == EntryOf(d, x);
  }

  /** Adding a LIR entry for an untracked key at the back of the stack. */
  lemma PushLirCore(d: Dlirs, k: Key)
    requires Core(d) && FrontLir(d) && !Tracked(d, k)
    requires var e := EntryOf(d, k); e.isLir && e.inCache && !e.isDemoted && e.rc == 1 + e.handles - e.lost
    ensures var f := d.(lirs := PutBack(d.lirs, k), lirsCount := d.lirsCount + 1);
            Core(f) && FrontLir(f) && f.lirs == d.lirs + [k]
  {
    hide Select;
    var f := d.(lirs := PutBack(d.lirs, k), lirsCount := d.lirsCount + 1);
    DropAbsent(d.lirs, k);
    hide Drop;
    PutBackMembers(d.lirs, k);
    PushSelect(d, f, k, Lir);
    PushSelect(d, f, k, Hir);
    PushSelect(d, f, k, Away);
    SelectSame(d, f, d.res, Demoted);
    NonResMembers(d, k);
    forall x
      ensures KeyOk(f, x) && Counted(f, x)
    {
      assert KeyOk(d, x) && Counted(d, x);
    }
  }

  lemma PushSelect(d: Dlirs, f: Dlirs, k: Key, t: Trait)
    requires k !in d.lirs && f.lirs == d.lirs + [k] && f.entries == d.entries
    ensures Select(f, f.lirs, t) == Select(d, d.lirs, t) + (if Has(d, k, t) then [k] else [])
  {
    SelectAppend(d, d.lirs, k, t);
    SelectSame(d, f, f.lirs, t);
  }

  /** After the operation the residents are those before, less the evicted key, plus `k`. */
  ghost predicate ResidentsAfter(d: Dlirs, f: Dlirs, k: Key, ev: Option<Key>) {
    forall x {:trigger ResidentKey(f, x)} :: ResidentKey(f, x) <==> (ResidentKey(d, x) && ev != Some(x)) || x == k
  }

  /** The entry of `k` is ready to be pushed on the stack as a LIR entry. */
  ghost predicate Ready(d: Dlirs, k: Key) {
    var e := EntryOf(d, k);
    !Tracked(d, k) && e.isLir && e.inCache && !e.isDemoted && e.rc == 1 + e.handles - e.lost
  }

  /** The second half of `dlirs_hir_in_lirs`: make room and push `k`. */
  ghost function TakeUp(d1: Dlirs, k: Key): (Dlirs, Option<Key>) {
    var d2 := ShedLirs(d1, d1.lirsLimit - 1);
    var (d3, ev) := ShedResidents(d2, None);
    (d3.(lirs := PutBack(d3.lirs, k), lirsCount := d3.lirsCount + 1), ev)
  }

  lemma TakeUpKeeps(d: Dlirs, k: Key)
    requires Core(d) && FrontLir(d) && Residents(d) <= d.size && Ready(d, k)
    ensures var (f, ev) := TakeUp(d, k);
            && Core(f) && FrontLir(f) && f.lirs != [] && |f.lirs| <= |d.lirs| + 1 && f.size == d.size
            && Residents(f) == Min(d.size, Residents(d) + 1)
            && f.lirsCount <= f.lirsLimit && k in f.lirs && EntryOf(f, k).isLir
            && (ev.Some? <==> Residents(d) == d.size)
            && (ev == None ==> f.nonResident <= d.nonResident)
            && (ev.Some? ==> ResidentKey(d, ev.value))
            && ResidentsAfter(d, f, k, ev)
  {
    hide Core, ShedLirs, ShedResidents, Select, Drop, EvictResident, FrontLir;
    LimitsHold(d);
    hide ResidentsAfter, ResidentKey, Tracked, Ready, EntryOf, OnlyEntry, KeyEvolves;
    var d2 := ShedLirs(d, d.lirsLimit - 1);
    ShedLirsKeeps(d, d.lirsLimit - 1);
    ReadyEvolves(d, d2, k);
    ShedResidentsOnce(d2);
    var (d3, ev) := ShedResidents(d2, None);
    if Residents(d2) == d2.size {
      EvictResidentKeeps(d2);
      ReadyExpels(d2, d3, d2.res[0], k);
    }
    PushReady(d3, k);
    TakeUpResidents(d, d2, d3, k, ev);
  }

  /** Handles are handed out for the evicted key and for no other. */
  ghost predicate HandsOut(d: Dlirs, f: Dlirs, ev: Option<Key>) {
    && f.strays == d.strays
    && (forall x {:trigger EntryOf(f, x)} ::
          EntryOf(f, x).handles == EntryOf(d, x).handles + (if ev == Some(x) then 1 else 0))
  }

  /** The key in hand gives its reference to the stack; no other balance changes. */
  lemma TakeUpBalance(d: Dlirs, k: Key)
    requires Core(d) && FrontLir(d) && Residents(d) <= d.size && Ready(d, k)
    ensures var (f, ev) := TakeUp(d, k);
            && HandsOut(d, f, ev)
            && (forall x {:trigger Balance(f, x)} :: Balance(f, x) == Balance(d, x) - (if x == k then 1 else 0))
  {
    hide Core, ShedLirs, ShedResidents, Select, EvictResident, FrontLir, Evolves, Expels, Balance;
    LimitsHold(d);
    var d2 := ShedLirs(d, d.lirsLimit - 1);
    ShedLirsKeeps(d, d.lirsLimit - 1);
    EvolvesFields(d, d2);
    ReadyEvolves(d, d2, k);
    ShedResidentsOnce(d2);
    var (d3, ev) := ShedResidents(d2, None);
    if Residents(d2) == d2.size {
      EvictResidentKeeps(d2);
      ReadyExpels(d2, d3, d2.res[0], k);
    }
    var f := TakeUp(d, k).0;
    forall x
      ensures Balance(f, x) == Balance(d, x) - (if x == k then 1 else 0)
      ensures EntryOf(f, x).handles == EntryOf(d, x).handles + (if ev == Some(x) then 1 else 0)
    {
      EvolvesAt(d, d2, x);
      if ev.Some? {
        ExpelsAt(d2, d3, ev.value, x);
      }
      PushBalance(d3, k, x);
    }
    if ev.Some? {
      ExpelsAt(d2, d3, ev.value, k);
    }
  }

  lemma EvolvesAt(d: Dlirs, f: Dlirs, x: Key)
    requires Evolves(d, f)
    ensures Balance(f, x) == Balance(d, x) && EntryOf(f, x).handles == EntryOf(d, x).handles
  {
    assert KeyEvolves(d, f, x);
  }

  lemma ExpelsAt(d: Dlirs, f: Dlirs, k: Key, x: Key)
    requires Expels(d, f, k)
    ensures Balance(f, x) == Balance(d, x) && f.strays == d.strays
    ensures EntryOf(f, x).handles == EntryOf(d, x).handles + (if x == k then 1 else 0)
  {
    assert Balance(f, x) == Balance(d, x);
    assert x != k ==> EntryOf(f, x) == EntryOf(d, x);
  }

  lemma PushBalance(d: Dlirs, k: Key, x: Key)
    requires Core(d) && Ready(d, k)
    ensures var f := d.(lirs := PutBack(d.lirs, k), lirsCount := d.lirsCount + 1);
            Balance(f, x) == Balance(d, x) - (if x == k then 1 else 0)
  {
    DropAbsent(d.lirs, k);
  }

  lemma PushReady(d: Dlirs, k: Key)
    requires Core(d) && FrontLir(d) && Ready(d, k)
    ensures var f := d.(lirs := PutBack(d.lirs, k), lirsCount := d.lirsCount + 1);
            Core(f) && FrontLir(f) && f.lirs == d.lirs + [k] && k in f.lirs && EntryOf(f, k).isLir
  {
    hide Core, FrontLir;
    PushLirCore(d, k);
    var f := d.(lirs := PutBack(d.lirs, k), lirsCount := d.lirsCount + 1);
    assert f.lirs[|d.lirs|] == k;
  }

  lemma ReadyEvolves(d: Dlirs, f: Dlirs, k: Key)
    requires Ready(d, k) && Evolves(d, f)
    ensures Ready(f, k)
  {
    assert KeyEvolves(d, f, k);
  }

  lemma ReadyExpels(d: Dlirs, f: Dlirs, x: Key, k: Key)
    requires Ready(d, k) && Expels(d, f, x)
    ensures Ready(f, k)
  {
    assert Tracked(f, k) ==> Tracked(d, k);
    assert EntryOf(f, k) == EntryOf(d, k);
  }

  /** Taking `k` up as a LIR entry evicts one entry if `k` was not resident, and none if it was. */
  lemma HirInLirsKeeps(d: Dlirs, k: Key)
    requires Inv(d) && k in d.lirs && !EntryOf(d, k).isLir
    ensures var (f, ev) := HirInLirs(d, k);
            && Inv(f) && f.size == d.size && ResidentsAfter(d, f, k, ev)
            && f.lirsCount <= f.lirsLimit && k in f.lirs && EntryOf(f, k).isLir
            && HandsOut(d, f, ev)
            && (EntryOf(d, k).inCache ==> ev == None && Residents(f) == Residents(d))
            && (!EntryOf(d, k).inCache ==>
                  ev.Some? && ResidentKey(d, ev.value) && Residents(d) == d.size == Residents(f))
  {
    hide Promote, Core, TakeUp, Select, Drop, FrontLir, ResidentsAfter, ResidentKey, OnlyEntry, Settled, HandsOut;
    var d1 := Promote(d, k);
    PromoteStep(d, k);
    SplitHirInLirs(d, k);
    hide HirInLirs;
    TakeUpKeeps(d1, k);
    var (f, ev) := TakeUp(d1, k);
    ResidentsCompose(d, d1, f, k, ev);
    StackSize(f);
    PromotionSettles(d, k);
  }

  /** A promotion leaves every reference accounted for. */
  lemma PromotionSettles(d: Dlirs, k: Key)
    requires Inv(d) && k in d.lirs && !EntryOf(d, k).isLir
    ensures var (f, ev) := TakeUp(Promote(d, k), k); Settled(f) && HandsOut(d, f, ev)
  {
    hide Promote, Core, TakeUp, FrontLir, Balance;
    PromoteStep(d, k);
    PromoteBalance(d, k);
    var d1 := Promote(d, k);
    TakeUpBalance(d1, k);
    var f := TakeUp(d1, k).0;
    forall x
      ensures Balance(f, x) == 0
    {
      assert Balance(d, x) == 0;
      assert Balance(d1, x) == Balance(d, x) + (if x == k then 1 else 0);
    }
    forall x
      ensures EntryOf(d1, x).handles == EntryOf(d, x).handles
    {
      assert EntryOf(d1, x).handles == EntryOf(d, x).handles;
    }
  }

  lemma SplitHirInLirs(d: Dlirs, k: Key)
    ensures HirInLirs(d, k) == TakeUp(Promote(d, k), k)
  {
    hide Promote, ShedLirs, ShedResidents, PutBack;
  }

  /** What the rest of `dlirs_hir_in_lirs` needs from its first part. */
  lemma PromoteStep(d: Dlirs, k: Key)
    requires Inv(d) && k in d.lirs && !EntryOf(d, k).isLir
    ensures var f := Promote(d, k);
            var away := !EntryOf(d, k).inCache;
            && Core(f) && FrontLir(f) && f.size == d.size && Ready(f, k) && |f.lirs| == |d.lirs| - 1
            && Residents(f) == Residents(d) - (if away then 0 else 1) && Residents(f) >= 0
            && f.nonResident == d.nonResident - (if away then 1 else 0)
            && (away ==> Residents(d) == d.size)
            && (forall x :: ResidentKey(f, x) <==> ResidentKey(d, x) && x != k)
  {
    assert KeyOk(d, k);
    if !EntryOf(d, k).inCache {
      AwayCounted(d, k);
    }
    hide Promote, Core, FrontLir, ResidentKey, OnlyEntry;
    PromoteFields(d, k);
    PromoteCore(d, k);
    PromoteResidents(d, k);
    HirsPresent(Promote(d, k));
    LirPresent(Promote(d, k));
  }

  lemma ResidentsCompose(d: Dlirs, d1: Dlirs, f: Dlirs, k: Key, ev: Option<Key>)
    requires forall x :: ResidentKey(d1, x) <==> ResidentKey(d, x) && x != k
    requires ResidentsAfter(d1, f, k, ev) && (ev.Some? ==> ResidentKey(d1, ev.value))
    ensures ResidentsAfter(d, f, k, ev) && (ev.Some? ==> ResidentKey(d, ev.value))
  {
    forall x
      ensures ResidentKey(f, x) <==> (ResidentKey(d, x) && ev != Some(x)) || x == k
    {
      assert ResidentKey(d1, x) <==> ResidentKey(d, x) && x != k;
    }
  }

  lemma PromoteResidents(d: Dlirs, k: Key)
    requires Core(d) && k in d.lirs && !EntryOf(d, k).isLir
    ensures forall x :: ResidentKey(Promote(d, k), x) <==> ResidentKey(d, x) && x != k
  {
    PromoteFields(d, k);
    hide Promote, Select, Drop;
    DropMembers(d.lirs, k);
    DropMembers(d.res, k);
    var f := Promote(d, k);
    forall x
      ensures ResidentKey(f, x) <==> ResidentKey(d, x) && x != k
    {
      assert x != k ==> EntryOf(f, x) == EntryOf(d, x);
    }
  }

  lemma TakeUpResidents(d: Dlirs, d2: Dlirs, d3: Dlirs, k: Key, ev: Option<Key>)
    requires Evolves(d, d2) && Ready(d, k)
    requires ev == None ==> d3 == d2
    requires ev.Some? ==> Expels(d2, d3, ev.value)
    requires Ready(d3, k)
    ensures ResidentsAfter(d, d3.(lirs := PutBack(d3.lirs, k), lirsCount := d3.lirsCount + 1), k, ev)
    ensures ev.Some? ==> ResidentKey(d, ev.value)
  {
    var f := d3.(lirs := PutBack(d3.lirs, k), lirsCount := d3.lirsCount + 1);
    assert KeyEvolves(d, d2, k);
    if ev.Some? {
      assert KeyEvolves(d, d2, ev.value);
    }
    forall x
      ensures ResidentKey(f, x) <==> (ResidentKey(d, x) && ev != Some(x)) || x == k
    {
      assert KeyEvolves(d, d2, x);
      assert ResidentKey(d3, x) <==> ResidentKey(d2, x) && ev != Some(x);
      assert EntryOf(f, x) == EntryOf(d3, x);
      if x != k {
        DropOther(d3.lirs, k, x);
      }
    }
  }

  lemma {:induction false} DropOther(s: seq<Key>, k: Key, x: Key)
    requires x != k
    ensures x in Drop(s, k) <==> x in s
  {
    if s != [] && s[0] != k {
      DropOther(s[1..], k, x);
    }
  }

  // ----- hit on a resident HIR entry

  lemma UndemoteCore(d: Dlirs, k: Key)
    requires Core(d) && k in d.res
    ensures var f := Undemote(d, k);
            && Core(f) && !EntryOf(f, k).isDemoted && OnlyEntry(d, f, k)
            && EntryOf(f, k) == EntryOf(d, k).(isDemoted := false)
            && f == d.(hirsLimit := f.hirsLimit, lirsLimit := f.lirsLimit, demoted := f.demoted, entries := f.entries)
  {
    hide Select, Delta, Min;
    var f := Undemote(d, k);
    assert KeyOk(d, k);
    if EntryOf(d, k).isDemoted {
      DemotedCounted(d, k);
      ResizeLimits(d, false);
      CountGained(f, d, d.res, k, Demoted);
      UndemoteSelect(d, f, k, Hir);
      UndemoteSelect(d, f, k, Lir);
      UndemoteSelect(d, f, k, Away);
      forall x
        ensures KeyOk(f, x) && Counted(f, x)
      {
        assert KeyOk(d, x) && Counted(d, x);
      }
    }
  }

  lemma UndemoteSelect(d: Dlirs, f: Dlirs, k: Key, t: Trait)
    requires OnlyEntry(d, f, k) && EntryOf(f, k) == EntryOf(d, k).(isDemoted := false) && t != Demoted
    ensures Select(f, d.lirs, t) == Select(d, d.lirs, t)
  {
    forall x | x in d.lirs
      ensures Has(d, x, t) == Has(f, x, t)
    {
      assert x != k ==> EntryOf(f, x) == EntryOf(d, x);
    }
    SelectSame(d, f, d.lirs, t);
  }

  lemma DemotedCounted(d: Dlirs, k: Key)
    requires Core(d) && k in d.res && EntryOf(d, k).isDemoted
    ensures d.demoted >= 1
  {
    SelectMembers(d, d.res, Demoted);
    assert k in Select(d, d.res, Demoted);
  }

  lemma RestackFields(d: Dlirs, k: Key)
    requires Core(d) && k in d.res && k !in d.lirs
    ensures var f := Restack(d, k);
            && f == d.(res := PutBack(d.res, k), lirs := d.lirs + [k], nonRes := d.nonRes + [k], entries := f.entries)
            && OnlyReferences(d, f, k)
            && EntryOf(f, k).rc == EntryOf(d, k).rc + 1 && EntryOf(f, k).lost == EntryOf(d, k).lost + 1
  {
    hide Select;
    NonResMembers(d, k);
    DropAbsent(d.lirs, k);
    DropAbsent(d.nonRes, k);
  }

  lemma RestackCore(d: Dlirs, k: Key)
    requires Core(d) && FrontLir(d) && d.lirs != [] && k in d.res && k !in d.lirs && !EntryOf(d, k).isDemoted
    ensures var f := Restack(d, k); Core(f) && FrontLir(f) && f.lirs == d.lirs + [k]
  {
    var f := Restack(d, k);
    RestackFields(d, k);
    hide Restack, Select, Drop;
    assert KeyOk(d, k);
    RestackSelect(d, f, k, Hir);
    RestackSelect(d, f, k, Lir);
    RestackSelect(d, f, k, Away);
    RestackDemoted(d, f, k);
    PutBackMembers(d.res, k);
    assert d.lirs[0] in d.lirs;
    assert EntryOf(f, d.lirs[0]) == EntryOf(d, d.lirs[0]);
    forall x
      ensures KeyOk(f, x) && Counted(f, x)
    {
      RestackKey(d, k, x);
    }
  }

  lemma RestackKey(d: Dlirs, k: Key, x: Key)
    requires Core(d) && k in d.res && k !in d.lirs && !EntryOf(d, k).isDemoted
    ensures KeyOk(Restack(d, k), x) && Counted(Restack(d, k), x)
  {
    var f := Restack(d, k);
    RestackFields(d, k);
    hide Restack, Select, Drop;
    assert KeyOk(d, x) && Counted(d, x);
    NonResMembers(d, x);
    PutBackMembers(d.res, k);
    assert x != k ==> EntryOf(f, x) == EntryOf(d, x);
    assert x in f.nonRes <==> x in d.nonRes || x == k;
    assert x in f.lirs <==> x in d.lirs || x == k;
  }

  ghost predicate OnlyReferences(d: Dlirs, f: Dlirs, k: Key) {
    && OnlyEntry(d, f, k)
    && EntryOf(f, k) == EntryOf(d, k).(rc := EntryOf(f, k).rc, lost := EntryOf(f, k).lost)
  }

  lemma RestackSelect(d: Dlirs, f: Dlirs, k: Key, t: Trait)
    requires f.lirs == d.lirs + [k] && OnlyReferences(d, f, k)
    ensures Select(f, f.lirs, t) == Select(d, d.lirs, t) + (if Has(d, k, t) then [k] else [])
  {
    ReferencesSelect(d, f, k, f.lirs, t);
    SelectAppend(d, d.lirs, k, t);
  }

  lemma ReferencesSelect(d: Dlirs, f: Dlirs, k: Key, s: seq<Key>, t: Trait)
    requires OnlyReferences(d, f, k)
    ensures Select(f, s, t) == Select(d, s, t)
  {
    forall x | x in s
      ensures Has(d, x, t) == Has(f, x, t)
    {
      assert x != k ==> EntryOf(f, x) == EntryOf(d, x);
    }
    SelectSame(d, f, s, t);
  }

  lemma RestackDemoted(d: Dlirs, f: Dlirs, k: Key)
    requires NoDup(d.res) && f.res == PutBack(d.res, k) && OnlyReferences(d, f, k) && !EntryOf(d, k).isDemoted
    ensures |Select(f, f.res, Demoted)| == |Select(d, d.res, Demoted)|
  {
    ReferencesSelect(d, f, k, f.res, Demoted);
    SelectAppend(d, Drop(d.res, k), k, Demoted);
    CountDrop(d, d.res, k, Demoted);
  }

  /** A hit on a resident HIR entry evicts nothing and keeps every resident. */
  lemma HitResidentKeeps(d: Dlirs, k: Key)
    requires Inv(d) && k in d.res && k !in d.lirs
    ensures var f := HitResident(d, k);
            Inv(f) && f.size == d.size && ResidentsAfter(d, f, k, None) && Residents(f) == Residents(d)
            && HandsOut(d, f, None)
  {
    hide Core, FrontLir, LimitStack, Restack, Undemote, Settled, HandsOut, Evolves;
    var d1 := Undemote(d, k);
    UndemoteCore(d, k);
    UndemoteFront(d, d1, k);
    RestackCore(d1, k);
    RestackResidents(d, d1, k);
    var d2 := Restack(d1, k);
    LimitStackKeeps(d2);
    var f := LimitStack(d2);
    StackSize(f);
    EvolvesFields(d2, f);
    RestackSettles(d, k);
    SettledEvolves(d2, f);
    HandsOutEvolves(d, d2, f);
    forall x
      ensures ResidentKey(f, x) <==> ResidentKey(d, x) || x == k
    {
      EvolvesResident(d2, f, x);
    }
  }

  lemma EvolvesResident(d: Dlirs, f: Dlirs, x: Key)
    requires Evolves(d, f)
    ensures ResidentKey(f, x) <==> ResidentKey(d, x)
  {
    assert KeyEvolves(d, f, x);
  }

  lemma HandsOutEvolves(d: Dlirs, e: Dlirs, f: Dlirs)
    requires HandsOut(d, e, None) && Evolves(e, f)
    ensures HandsOut(d, f, None)
  {
    forall x
      ensures EntryOf(f, x).handles == EntryOf(d, x).handles
    {
      EvolvesAt(e, f, x);
      assert EntryOf(e, x).handles == EntryOf(d, x).handles;
    }
  }

  /** The insertions of a hit outside the stack leave every reference accounted for, one of them
      as lost. */
  lemma RestackSettles(d: Dlirs, k: Key)
    requires Core(d) && Settled(d) && k in d.res && k !in d.lirs
    ensures var f := Restack(Undemote(d, k), k); Settled(f) && HandsOut(d, f, None)
  {
    var d1 := Undemote(d, k);
    UndemoteCore(d, k);
    RestackFields(d1, k);
    var f := Restack(d1, k);
    UntouchedNonRes(d1, k);
    hide Undemote, Restack, Core, Select, Drop;
    RestackMembers(d1, k);
    forall x
      ensures Balance(f, x) == 0
      ensures EntryOf(f, x).handles == EntryOf(d, x).handles
    {
      assert Balance(d, x) == 0;
      assert x != k ==> EntryOf(d1, x) == EntryOf(d, x) && EntryOf(f, x) == EntryOf(d1, x);
      assert x in f.nonRes <==> x in d1.nonRes || x == k;
      assert x in f.lirs <==> x in d1.lirs || x == k;
    }
  }

  lemma UntouchedNonRes(d: Dlirs, k: Key)
    requires Core(d) && k !in d.lirs
    ensures k !in d.nonRes
  {
    NonResMembers(d, k);
  }

  lemma RestackMembers(d: Dlirs, k: Key)
    requires Core(d)
    ensures forall x :: x in PutBack(d.res, k) <==> x in d.res || x == k
  {
    PutBackMembers(d.res, k);
  }

  lemma UndemoteFront(d: Dlirs, f: Dlirs, k: Key)
    requires FrontLir(d) && f.lirs == d.lirs && k !in d.lirs && OnlyEntry(d, f, k)
    ensures FrontLir(f)
  {
    if d.lirs != [] {
      assert d.lirs[0] in d.lirs;
      assert EntryOf(f, d.lirs[0]) == EntryOf(d, d.lirs[0]);
    }
  }

  lemma RestackResidents(d: Dlirs, d1: Dlirs, k: Key)
    requires Core(d1) && d1.lirs == d.lirs && d1.res == d.res && k in d.res && k !in d.lirs
    requires OnlyEntry(d, d1, k)
    ensures var f := Restack(d1, k);
            && f.size == d1.size && Residents(f) == Residents(d1) && f.nonResident == d1.nonResident
            && (forall x :: ResidentKey(f, x) <==> ResidentKey(d, x) || x == k)
  {
    hide Select;
    var f := Restack(d1, k);
    PutBackMembers(d1.lirs, k);
    PutBackMembers(d1.res, k);
    hide Drop;
    forall x
      ensures ResidentKey(f, x) <==> ResidentKey(d, x) || x == k
    {
      assert x != k ==> EntryOf(d1, x) == EntryOf(d, x);
    }
  }
}
