/** The DLIRS operations keep the invariant, evict at most one entry, and only when they must. */
module DlirsOps {
  import opened Basics
  import opened Seqs
  import opened DlirsSpec
  import opened DlirsInvariant

  // ----- what evictions of LIR entries leave alone

  ghost predicate ResidentKey(d: Dlirs, x: Key) {
    (x in d.lirs && EntryOf(d, x).isLir) || x in d.res
  }

  ghost predicate Tracked(d: Dlirs, x: Key) {
    x in d.lirs || x in d.res
  }

  /** How one key may change while LIR entries are demoted and the stack is pruned. */
  ghost predicate KeyEvolves(d: Dlirs, f: Dlirs, x: Key) {
    && (ResidentKey(f, x) <==> ResidentKey(d, x))
    && (Tracked(f, x) ==> Tracked(d, x))
    && (!Tracked(d, x) ==> EntryOf(f, x) == EntryOf(d, x))
    && (x in f.lirs ==> x in d.lirs)
    && EntryOf(f, x).value == EntryOf(d, x).value && EntryOf(f, x).handles == EntryOf(d, x).handles
    && Balance(f, x) == Balance(d, x)
  }

  ghost predicate Evolves(d: Dlirs, f: Dlirs) {
    && f.size == d.size && f.hirsLimit == d.hirsLimit && f.lirsLimit == d.lirsLimit
    && Residents(f) == Residents(d) && f.nonResident <= d.nonResident && |f.lirs| <= |d.lirs|
    && f.strays == d.strays
    && (forall x {:trigger KeyEvolves(d, f, x)} :: KeyEvolves(d, f, x))
  }

  lemma EvolvesTrans(d: Dlirs, e: Dlirs, f: Dlirs)
    requires Evolves(d, e) && Evolves(e, f)
    ensures Evolves(d, f)
  {
    forall x
      ensures KeyEvolves(d, f, x)
    {
      assert KeyEvolves(d, e, x) && KeyEvolves(e, f, x);
    }
  }

  lemma EvolvesSelf(d: Dlirs)
    ensures Evolves(d, d)
  {
    forall x
      ensures KeyEvolves(d, d, x)
    {
    }
  }

  lemma SettledEvolves(d: Dlirs, f: Dlirs)
    requires Settled(d) && Evolves(d, f)
    ensures Settled(f)
  {
    forall x
      ensures Balance(f, x) == 0
    {
      assert KeyEvolves(d, f, x);
      assert Balance(d, x) == 0;
    }
  }

  lemma ForgetEvolves(d: Dlirs, k: Key)
    requires Core(d) && k in d.lirs && !EntryOf(d, k).isLir
    ensures Evolves(d, Forget(d, k))
  {
    ForgetFields(d, k);
    ForgetPrunes(d, k);
    hide Forget, Select, Drop, Core, SameFlags;
    forall x
      ensures KeyEvolves(d, Forget(d, k), x)
    {
      ForgetKeyEvolves(d, k, x);
    }
  }

  lemma ForgetKeyEvolves(d: Dlirs, k: Key, x: Key)
    requires Core(d) && k in d.lirs && !EntryOf(d, k).isLir
    ensures KeyEvolves(d, Forget(d, k), x)
  {
    var f := Forget(d, k);
    ForgetFields(d, k);
    NonResMembers(d, k);
    DropMembers(d.lirs, k);
    DropMembers(d.nonRes, k);
    hide Forget, Select, Drop, Core;
    assert EntryOf(f, x) == EntryOf(d, x).(rc := EntryOf(f, x).rc);
    assert x in f.lirs <==> x in d.lirs && x != k;
    assert x in f.nonRes <==> x in d.nonRes && x != k;
  }

  lemma {:induction false} PruneEvolves(d: Dlirs)
    requires Core(d)
    ensures Evolves(d, Prune(d))
    decreases |d.lirs|
  {
    hide Forget, Core, Select, Drop, Evolves;
    if d.lirs == [] || EntryOf(d, d.lirs[0]).isLir {
      EvolvesSelf(d);
    } else {
      var k := d.lirs[0];
      ForgetCore(d, k);
      ForgetEvolves(d, k);
      ForgetShorter(d, k);
      PruneEvolves(Forget(d, k));
      EvolvesTrans(d, Forget(d, k), Prune(d));
    }
  }

  lemma DemoteEvolves(d: Dlirs)
    requires Core(d) && d.lirs != [] && FrontLir(d)
    ensures Evolves(d, Demote(d, d.lirs[0]))
  {
    hide Drop, Select, PutBack;
    var k := d.lirs[0];
    var f := Demote(d, k);
    DemoteFields(d);
    DropMembers(d.lirs, k);
    PutBackMembers(d.res, k);
    forall x
      ensures KeyEvolves(d, f, x)
    {
      assert x != k ==> EntryOf(f, x) == EntryOf(d, x);
    }
  }

  lemma EvictLirKeeps(d: Dlirs)
    requires Core(d) && d.lirs != [] && FrontLir(d)
    ensures var f := EvictLir(d);
            Core(f) && FrontLir(f) && Evolves(d, f) && f.lirsCount == d.lirsCount - 1
  {
    hide Core, Prune, Evolves;
    var f := Demote(d, d.lirs[0]);
    DemoteCore(d);
    DemoteEvolves(d);
    PruneCore(f);
    PruneEvolves(f);
    EvolvesTrans(d, f, Prune(f));
  }

  /** LIR entries and the stack are empty together. */
  lemma LirPresent(d: Dlirs)
    requires Core(d) && FrontLir(d)
    ensures d.lirs == [] <==> d.lirsCount == 0
    ensures d.lirsCount >= 0
  {
    SelectMembers(d, d.lirs, Lir);
  }

  lemma {:induction false} ShedLirsKeeps(d: Dlirs, keep: int)
    requires Core(d) && FrontLir(d) && keep >= 0
    ensures var f := ShedLirs(d, keep);
            Core(f) && FrontLir(f) && Evolves(d, f) && f.lirsCount == Min(d.lirsCount, keep)
    decreases |d.lirs|
  {
    hide Core, EvictLir, Evolves, FrontLir;
    LirPresent(d);
    if d.lirsCount <= keep || d.lirs == [] {
      EvolvesSelf(d);
    } else {
      EvictLirKeeps(d);
      EvictLirShrinks(d);
      ShedLirsKeeps(EvictLir(d), keep);
      EvolvesTrans(d, EvictLir(d), ShedLirs(d, keep));
    }
  }

  // ----- evicting a resident entry

  /** `f` is `d` after evicting `k`: one resident less, and nothing else but flags of `k`. */
  ghost predicate Expels(d: Dlirs, f: Dlirs, k: Key) {
    && f.size == d.size && f.hirsLimit == d.hirsLimit && f.lirsLimit == d.lirsLimit
    && f.lirs == d.lirs && f.lirsCount == d.lirsCount && f.hirsCount == d.hirsCount - 1
    && ResidentKey(d, k) && !ResidentKey(f, k)
    && (forall x {:trigger ResidentKey(f, x)} :: x != k ==> (ResidentKey(f, x) <==> ResidentKey(d, x)))
    && (forall x {:trigger Tracked(f, x)} :: Tracked(f, x) ==> Tracked(d, x))
    && OnlyEntry(d, f, k) && EntryOf(f, k).value == EntryOf(d, k).value
    && EntryOf(f, k).handles == EntryOf(d, k).handles + 1
    && f.strays == d.strays && (forall x {:trigger Balance(f, x)} :: Balance(f, x) == Balance(d, x))
  }

  lemma EvictResidentKeeps(d: Dlirs)
    requires Core(d) && FrontLir(d) && d.res != []
    ensures var (f, ev) := EvictResident(d);
            Core(f) && FrontLir(f) && ev == Some(d.res[0]) && Expels(d, f, d.res[0])
  {
    hide Core, Drop, Select;
    var k := d.res[0];
    ExpelCore(d, k);
    ExpelFields(d, k);
    ExpelTables(d, k);
  }

  lemma ExpelTables(d: Dlirs, k: Key)
    requires Core(d) && FrontLir(d) && k in d.res
    ensures FrontLir(Expel(d, k)) && Expels(d, Expel(d, k), k)
  {
    hide Drop, Select;
    ExpelFields(d, k);
    DropMembers(d.res, k);
    var f := Expel(d, k);
    if d.lirs != [] {
      assert d.lirs[0] != k ==> EntryOf(f, d.lirs[0]) == EntryOf(d, d.lirs[0]);
    }
    forall x | x != k
      ensures ResidentKey(f, x) <==> ResidentKey(d, x)
    {
      assert EntryOf(f, x) == EntryOf(d, x);
    }
    forall x
      ensures Balance(f, x) == Balance(d, x)
    {
      assert x != k ==> EntryOf(f, x) == EntryOf(d, x);
    }
  }

  /** With room for LIR entries only, a full cache has a resident entry to give up, and one is
      enough. */
  lemma ShedResidentsOnce(d: Dlirs)
    requires Core(d) && FrontLir(d) && Residents(d) <= d.size && d.lirsCount < d.size
    ensures ShedResidents(d, None) == (if Residents(d) < d.size then (d, None) else EvictResident(d))
    ensures Residents(d) == d.size ==> d.res != []
  {
    if Residents(d) == d.size {
      hide Drop, Select, Core;
      HirsPresent(d);
      EvictResidentKeeps(d);
    }
  }

  lemma HirsPresent(d: Dlirs)
    requires Core(d)
    ensures d.hirsCount == |d.res|
  {
  }

  /** The state in which a request inserts its key. */
  ghost function Room(d: Dlirs): Dlirs {
    if d.lirsCount < d.lirsLimit && d.hirsCount == 0 then d else MakeRoom(d, None).0
  }

  /** `dlirs_request` makes room with one eviction, or none. */
  lemma MakeRoomOnce(d: Dlirs)
    requires Core(d) && FrontLir(d) && Residents(d) <= d.size
    ensures Residents(d) < d.size ==> MakeRoom(d, None) == (d, None)
    ensures Residents(d) == d.size ==>
              var d1 := ShedLirs(d, d.lirsLimit);
              && Core(d1) && FrontLir(d1) && Evolves(d, d1) && d1.lirsCount == Min(d.lirsCount, d.lirsLimit)
              && d1.res != []
              && MakeRoom(d, None) == EvictResident(d1)
  {
    if Residents(d) == d.size {
      LimitsHold(d);
      hide Drop, Select, Core, ShedLirs;
      ShedLirsKeeps(d, d.lirsLimit);
      var d1 := ShedLirs(d, d.lirsLimit);
      HirsPresent(d1);
      EvictResidentKeeps(d1);
    }
  }

  lemma LimitsHold(d: Dlirs)
    requires Core(d)
    ensures Limits(d)
  {
  }
}
