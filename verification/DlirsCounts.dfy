/** Where the reference counters of the DLIRS cache go wrong, and runs on which its promises
    fail. */
module DlirsCounts {
  import opened Basics
  import opened Seqs
  import opened DlirsSpec
  import opened DlirsInvariant
  import opened DlirsOps
  import opened DlirsTheorems
  import opened DlirsCarry
  import opened DlirsRuns
  import opened DlirsRecency

  // ----- exactly which runs keep the counters exact

  /** The counters are exact in every state of the run. */
  ghost predicate AlwaysExact(d: Dlirs, ops: seq<Op>)
    decreases |ops|
  {
    CountsExact(d) && (ops != [] ==> AlwaysExact(Step(d, ops[0]), ops[1..]))
  }

  /** From exact counters, they are exact in every state of a run if and only if no step is a hit
      on a resident entry outside the stack. */
  lemma {:induction false} RunExact(d: Dlirs, ops: seq<Op>, f: Dlirs)
    requires Inv(d) && CountsExact(d) && Runs(d, ops, f)
    ensures AlwaysExact(d, ops) <==> Gentle(d, ops)
    decreases |ops|
  {
    hide Core, FrontLir, Step, CountsExact, Overriding;
    if ops != [] {
      var e := Step(d, ops[0]);
      StepKeeps(d, ops[0]);
      if CountsExact(e) {
        RunExact(e, ops[1..], f);
      }
    }
  }

  /** Everything a cache made by `dlirs_create` with room for a LIR entry can reach is well formed
      and within its LIR budget. Its counters are exact, and its entries alive exactly while they
      are held, if no step inserts an entry over itself. A request is safe exactly for untracked
      keys and for the one leaving. */
  lemma Reachable(size: int, ratio: real, ops: seq<Op>, f: Dlirs)
    requires size >= 2 && InitialLimit(size, ratio) < size && Runs(Create(size, InitialLimit(size, ratio)), ops, f)
    ensures var d := Create(size, InitialLimit(size, ratio));
            && Inv(f) && InBudget(f) && (AlwaysExact(d, ops) <==> Gentle(d, ops))
            && (Gentle(d, ops) ==> CountsExact(f) && AliveWhileHeld(f))
    ensures forall k, v :: Inv(Request(f, k, v).0) <==> Requestable(f, k)
  {
    var d := Create(size, InitialLimit(size, ratio));
    hide Core, FrontLir, Create, InitialLimit, Request, Requestable, Settled, CountsExact, AliveWhileHeld;
    CreateExact(size, ratio);
    CreateCounts(size, InitialLimit(size, ratio));
    RunExact(d, ops, f);
    RunKeeps(d, ops, f);
    forall k, v
      ensures Inv(Request(f, k, v).0) <==> Requestable(f, k)
    {
      RequestExactBefore(f, k, v);
    }
  }

  // ----- what the caller is given

  /** The entry that a lookup reports as evicted is alive, and holds the value it had. */
  lemma GetEvictsAlive(d: Dlirs, k: Key)
    requires Inv(d) && CountsExact(d)
    ensures var (f, hit, ev) := Get(d, k);
            ev.Some? ==>
              var e := EntryOf(f, ev.value);
              e.rc >= 1 && e.handles == EntryOf(d, ev.value).handles + 1 && e.value == EntryOf(d, ev.value).value
  {
    GetKeeps(d, k);
    var (f, hit, ev) := Get(d, k);
    if ev.Some? {
      GetCarries(d, k, ev.value);
      MissEvicts(d, k);
      hide Get, Core, FrontLir, CountsExact, Settled;
      ExactAlive(f);
      assert Held(f, ev.value);
    }
  }

  /** Hits outside the stack evict nothing. */
  lemma MissEvicts(d: Dlirs, k: Key)
    ensures Get(d, k).2.Some? ==> !Overrides(d, k)
  {
  }

  /** So is the one that a request reports, which is a stray if it was the requested key's. */
  lemma RequestEvictsAlive(d: Dlirs, k: Key, v: Value)
    requires Inv(d) && CountsExact(d) && Requestable(d, k)
    ensures var (f, ev) := Request(d, k, v);
            ev.Some? && ev.value != k ==>
              var e := EntryOf(f, ev.value);
              e.rc >= 1 && e.handles == EntryOf(d, ev.value).handles + 1 && e.value == EntryOf(d, ev.value).value
    ensures var (f, ev) := Request(d, k, v);
            ev == Some(k) ==>
              var n := |d.strays|;
              |f.strays| == n + 1 && f.strays[n].rc == f.strays[n].handles == EntryOf(d, k).handles + 1
              && f.strays[n].value == EntryOf(d, k).value
  {
    RequestKeeps(d, k, v);
    RequestCounts(d, k, v);
    var (f, ev) := Request(d, k, v);
    RequestCarries(d, k, v, k);
    if ev.Some? {
      RequestCarries(d, k, v, ev.value);
    }
    hide Request, Core, FrontLir, Settled, Room;
    if ev.Some? && ev.value != k {
      assert EntryOf(f, ev.value).rc == Holders(f, ev.value) + EntryOf(f, ev.value).handles;
    }
  }

  // ----- what a hit on a resident entry outside the stack does

  lemma CountOf(d: Dlirs, k: Key)
    requires Settled(d)
    ensures EntryOf(d, k).rc == Holders(d, k) + EntryOf(d, k).handles - EntryOf(d, k).lost
  {
    assert Balance(d, k) == 0;
  }

  /** Afterwards the entry is an HIR entry of all three tables. */
  lemma OverriddenTables(d: Dlirs, k: Key)
    requires Inv(d) && Overrides(d, k)
    ensures var f := Get(d, k).0;
            Inv(f) && k in f.lirs && k in f.nonRes && k in f.res && !EntryOf(f, k).isLir && EntryOf(f, k).inCache
  {
    GetTouches(d, k);
    GetKeeps(d, k);
    var f := Get(d, k).0;
    OverriddenFlags(d, k);
    hide Get, Core, FrontLir, CountsExact;
    StackedHir(f, k);
  }

  lemma OverriddenFlags(d: Dlirs, k: Key)
    requires Inv(d) && Overrides(d, k)
    ensures !EntryOf(Get(d, k).0, k).isLir
  {
    InvKey(d, k);
    var r := Restack(Undemote(d, k), k);
    hide Core, ForgetOldest, Carried;
    ForgetOldestCarries(r, r.hirsCount + r.lirsCount + r.nonResident - 2 * r.size);
  }

  lemma StackedHir(f: Dlirs, k: Key)
    requires Inv(f) && k in f.lirs && !EntryOf(f, k).isLir && ResidentKey(f, k)
    ensures k in f.nonRes && k in f.res && EntryOf(f, k).inCache
  {
    NonResMembers(f, k);
    assert KeyOk(f, k);
  }

  /** The lookup of a resident HIR entry outside the stack leaves its entry in all three tables
      with one reference too few. */
  lemma ResidentHitLosesReference(d: Dlirs, k: Key)
    requires Inv(d) && CountsExact(d) && Overrides(d, k)
    ensures var f := Get(d, k).0;
            Inv(f) && Holders(f, k) == 3 && EntryOf(f, k).handles == EntryOf(d, k).handles
            && EntryOf(f, k).rc == Holders(f, k) + EntryOf(f, k).handles - 1
  {
    OverriddenTables(d, k);
    HitResidentCarries(d, k, k);
    GetCarries(d, k, k);
    var f := Get(d, k).0;
    assert f == HitResident(d, k);
    hide Get, HitResident, Core, FrontLir, CountsExact, Settled;
    ExactLossless(d);
    CountOf(f, k);
  }

  /** If no evicted handle keeps it alive, the next lookup of the key brings the counter to zero
      while the stack holds the entry: the program frees an entry and then inserts it. */
  lemma SecondHitFrees(d: Dlirs, k: Key)
    requires Inv(d) && CountsExact(d) && Overrides(d, k) && EntryOf(d, k).handles == 0
    ensures var g := Get(Get(d, k).0, k).0;
            Inv(g) && k in g.lirs && EntryOf(g, k).isLir && EntryOf(g, k).rc == 0
  {
    ResidentHitLosesReference(d, k);
    OverriddenTables(d, k);
    var f := Get(d, k).0;
    hide Get, Core, FrontLir, CountsExact;
    PromotedCount(f, k);
  }

  /** The counter of a key that a lookup promotes: one table holds it, whatever held it before. */
  lemma PromotedCount(d: Dlirs, k: Key)
    requires Inv(d) && k in d.lirs && k in d.nonRes && k in d.res && !EntryOf(d, k).isLir && EntryOf(d, k).inCache
    ensures var g := Get(d, k).0;
            Inv(g) && k in g.lirs && EntryOf(g, k).isLir && EntryOf(g, k).rc == EntryOf(d, k).rc - 2
  {
    HirInLirsKeeps(d, k);
    PromoteFields(d, k);
    PromoteStep(d, k);
    SplitHirInLirs(d, k);
    CountOf(d, k);
    hide Core, FrontLir, Promote, TakeUp, HirInLirs;
    TakenUpEntry(Promote(d, k), k);
  }

  /** Making room for a promoted key does not touch its entry. */
  lemma TakenUpEntry(d: Dlirs, k: Key)
    requires Core(d) && FrontLir(d) && Residents(d) <= d.size && Ready(d, k)
    ensures EntryOf(TakeUp(d, k).0, k) == EntryOf(d, k)
  {
    hide Core, FrontLir, ShedLirs, ShedResidents, EvictResident, PutBack;
    LimitsHold(d);
    var d2 := ShedLirs(d, d.lirsLimit - 1);
    ShedLirsKeeps(d, d.lirsLimit - 1);
    assert KeyEvolves(d, d2, k);
    ShedResidentsOnce(d2);
    if Residents(d2) == d2.size {
      EvictResidentKeeps(d2);
      assert EntryOf(EvictResident(d2).0, k) == EntryOf(d2, k);
    }
  }

  // ----- runs from a new cache of two entries

  /** One requested key: a LIR entry. */
  function One(a: Key, u: Value): Dlirs {
    Dlirs(2, 1, 1, 0, 1, 0, 0, [a], [], [], map[a := Entry(u, true, false, true, 1, 0, 0)], [])
  }

  /** Two requested keys: the second is a resident HIR entry. */
  function Two(a: Key, u: Value, b: Key, v: Value): Dlirs {
    Dlirs(2, 1, 1, 1, 1, 0, 0, [a, b], [b], [b],
          map[a := Entry(u, true, false, true, 1, 0, 0), b := Entry(v, false, false, true, 3, 0, 0)], [])
  }

  /** The second key looked up: it replaces the first as LIR entry, which leaves the stack. */
  function Swapped(a: Key, u: Value, b: Key, v: Value): Dlirs {
    Dlirs(2, 1, 1, 1, 1, 1, 0, [b], [], [a],
          map[a := Entry(u, false, true, true, 1, 0, 0), b := Entry(v, true, false, true, 1, 0, 0)], [])
  }

  /** Three requested keys: the second stays on the stack without being resident. */
  function Three(a: Key, u: Value, b: Key, v: Value, c: Key, w: Value): Dlirs {
    Dlirs(2, 1, 1, 1, 1, 0, 1, [a, b, c], [b, c], [c],
          map[a := Entry(u, true, false, true, 1, 0, 0), b := Entry(v, false, false, false, 3, 1, 0),
              c := Entry(w, false, false, true, 3, 0, 0)], [])
  }

  lemma ShortDrops(a: Key, b: Key)
    requires a != b
    ensures Drop([a], a) == [] && Drop([a], b) == [a] && Drop([a, b], b) == [a]
    ensures PutBack([], a) == [a] && PutBack([a], b) == [a, b]
  {
    assert [a][1..] == [] && [a, b][1..] == [b] && [b][1..] == [];
    assert Drop([b], b) == [];
    assert Drop([a, b], b) == [a] + Drop([b], b);
  }

  lemma PairDrop(a: Key, b: Key, c: Key)
    requires c != a && c != b
    ensures Drop([a, b], c) == [a, b] && PutBack([a, b], c) == [a, b, c]
  {
    DropAbsent([a, b], c);
  }

  lemma RequestOne(a: Key, u: Value)
    ensures Request(Create(2, 1), a, u) == (One(a, u), None)
  {
    assert PutBack([], a) == [a];
  }

  lemma RequestTwo(a: Key, u: Value, b: Key, v: Value)
    requires a != b
    ensures Request(One(a, u), b, v) == (Two(a, u, b, v), None)
  {
    var d := One(a, u);
    ShortDrops(a, b);
    ShortDrops(b, a);
    hide Drop;
    assert MakeRoom(d, None) == (d, None);
    assert AddHir(d, b, v) == Two(a, u, b, v);
  }

  /** The second key in hand, on its way to the stack. */
  function Lifted(a: Key, u: Value, b: Key, v: Value): Dlirs {
    Dlirs(2, 1, 1, 0, 1, 0, 0, [a], [], [],
          map[a := Entry(u, true, false, true, 1, 0, 0), b := Entry(v, true, false, true, 1, 0, 0)], [])
  }

  lemma PromoteSecond(a: Key, u: Value, b: Key, v: Value)
    requires a != b
    ensures Promote(Two(a, u, b, v), b) == Lifted(a, u, b, v)
  {
    ShortDrops(a, b);
    ShortDrops(b, a);
    hide Drop;
    assert Promote(Two(a, u, b, v), b).entries == Lifted(a, u, b, v).entries;
  }

  lemma TakeUpSecond(a: Key, u: Value, b: Key, v: Value)
    requires a != b
    ensures TakeUp(Lifted(a, u, b, v), b) == (Swapped(a, u, b, v), None)
  {
    var d := Lifted(a, u, b, v);
    ShortDrops(a, b);
    ShortDrops(b, a);
    hide Drop;
    var d1 := Swapped(a, u, b, v).(lirs := [], lirsCount := 0);
    assert d1.entries == d.entries[a := Entry(u, false, true, true, 1, 0, 0)];
    assert EvictLir(d) == d1;
    assert ShedLirs(d1, 0) == d1;
    assert ShedLirs(d, 0) == d1;
    assert ShedResidents(d1, None) == (d1, None);
  }

  lemma GetSecond(a: Key, u: Value, b: Key, v: Value)
    requires a != b
    ensures Get(Two(a, u, b, v), b) == (Swapped(a, u, b, v), true, None)
  {
    hide Promote, TakeUp, HirInLirs;
    SplitHirInLirs(Two(a, u, b, v), b);
    PromoteSecond(a, u, b, v);
    TakeUpSecond(a, u, b, v);
    assert [a, b][1] == b;
  }

  /** The second key evicted to make room for a third. */
  function Given(a: Key, u: Value, b: Key, v: Value): Dlirs {
    Dlirs(2, 1, 1, 0, 1, 0, 1, [a, b], [b], [],
          map[a := Entry(u, true, false, true, 1, 0, 0), b := Entry(v, false, false, false, 3, 1, 0)], [])
  }

  lemma ExpelSecond(a: Key, u: Value, b: Key, v: Value)
    requires a != b
    ensures EvictResident(Two(a, u, b, v)) == (Given(a, u, b, v), Some(b))
  {
    ShortDrops(b, a);
    hide Drop;
    assert [a, b][1] == b;
    assert EvictResident(Two(a, u, b, v)).0.entries == Given(a, u, b, v).entries;
  }

  lemma RoomForThird(a: Key, u: Value, b: Key, v: Value)
    requires a != b
    ensures MakeRoom(Two(a, u, b, v), None) == (Given(a, u, b, v), Some(b))
  {
    var d, d1 := Two(a, u, b, v), Given(a, u, b, v);
    assert ShedLirs(d, 1) == d;
    assert MakeRoom(d1, Some(b)) == (d1, Some(b));
    ExpelSecond(a, u, b, v);
    hide EvictResident;
  }

  lemma AddThird(a: Key, u: Value, b: Key, v: Value, c: Key, w: Value)
    requires a != b && b != c && a != c
    ensures AddHir(Given(a, u, b, v), c, w) == Three(a, u, b, v, c, w)
  {
    ShortDrops(b, c);
    PairDrop(a, b, c);
    ShortDrops(c, a);
    hide Drop;
    assert AddHir(Given(a, u, b, v), c, w).entries == Three(a, u, b, v, c, w).entries;
  }

  lemma RequestThree(a: Key, u: Value, b: Key, v: Value, c: Key, w: Value)
    requires a != b && b != c && a != c
    ensures Request(Two(a, u, b, v), c, w) == (Three(a, u, b, v, c, w), Some(b))
  {
    hide MakeRoom, AddHir;
    RoomForThird(a, u, b, v);
    AddThird(a, u, b, v, c, w);
  }

  /** What every state of these runs has. */
  ghost predicate Good(d: Dlirs) {
    Inv(d) && CountsExact(d) && InBudget(d)
  }

  lemma StepGood(d: Dlirs, op: Op)
    requires Good(d) && Legal(d, op) && !Overriding(d, op)
    ensures Good(Step(d, op))
  {
    hide Core, FrontLir, Step, CountsExact;
    StepKeeps(d, op);
  }

  lemma CreateGood()
    ensures Good(Create(2, 1))
  {
    hide Inv, CountsExact;
    CreateInv(2, 1);
    CreateCounts(2, 1);
  }

  /** A new cache has exact counters and an unspent budget. */
  lemma CreateCounts(size: int, hirsLimit: int)
    ensures CountsExact(Create(size, hirsLimit)) && (hirsLimit <= size ==> InBudget(Create(size, hirsLimit)))
  {
    var d := Create(size, hirsLimit);
    forall k
      ensures EntryOf(d, k).rc == Holders(d, k) + EntryOf(d, k).handles
    {
    }
  }

  lemma OneReached(a: Key, u: Value)
    ensures Legal(Create(2, 1), RequestOp(a, u)) && Step(Create(2, 1), RequestOp(a, u)) == One(a, u) && Good(One(a, u))
  {
    hide Good, Request, One;
    CreateGood();
    RequestOne(a, u);
    StepGood(Create(2, 1), RequestOp(a, u));
  }

  lemma TwoReached(a: Key, u: Value, b: Key, v: Value)
    requires a != b
    ensures Legal(One(a, u), RequestOp(b, v)) && Step(One(a, u), RequestOp(b, v)) == Two(a, u, b, v)
            && Good(Two(a, u, b, v))
  {
    hide Good, Request, Two;
    OneReached(a, u);
    RequestTwo(a, u, b, v);
    StepGood(One(a, u), RequestOp(b, v));
  }

  lemma SwappedReached(a: Key, u: Value, b: Key, v: Value)
    requires a != b
    ensures Step(Two(a, u, b, v), GetOp(b)) == Swapped(a, u, b, v) && Good(Swapped(a, u, b, v))
  {
    hide Good, Get, Swapped;
    TwoReached(a, u, b, v);
    GetSecond(a, u, b, v);
    StepGood(Two(a, u, b, v), GetOp(b));
  }

  lemma ThreeReached(a: Key, u: Value, b: Key, v: Value, c: Key, w: Value)
    requires a != b && b != c && a != c
    ensures Step(Two(a, u, b, v), RequestOp(c, w)) == Three(a, u, b, v, c, w) && Good(Three(a, u, b, v, c, w))
  {
    hide Good, Request, Three;
    TwoReached(a, u, b, v);
    RequestThree(a, u, b, v, c, w);
    StepGood(Two(a, u, b, v), RequestOp(c, w));
  }

  /** Five operations on a new cache of two entries bring the counter of a key on the stack to
      zero: request both keys, look up the second, and the first twice. */
  lemma FiveStepsFree(a: Key, u: Value, b: Key, v: Value)
    requires a != b
    ensures var ops := [RequestOp(a, u), RequestOp(b, v), GetOp(b), GetOp(a), GetOp(a)];
            var g := Get(Get(Swapped(a, u, b, v), a).0, a).0;
            Runs(Create(2, 1), ops, g) && Inv(g) && Tracked(g, a) && EntryOf(g, a).rc == 0
  {
    var d0, d1, d2, d3 := Create(2, 1), One(a, u), Two(a, u, b, v), Swapped(a, u, b, v);
    SwappedEntry(a, u, b, v);
    hide Inv, CountsExact, Get, Request, Create, One, Two, Swapped, Runs, Overrides;
    OneReached(a, u);
    TwoReached(a, u, b, v);
    SwappedReached(a, u, b, v);
    SecondHitFrees(d3, a);
    var f := Get(d3, a).0;
    RunFive(d0, d1, d2, d3, f, Get(f, a).0, RequestOp(a, u), RequestOp(b, v), GetOp(b), GetOp(a));
  }

  lemma SwappedEntry(a: Key, u: Value, b: Key, v: Value)
    requires a != b
    ensures Overrides(Swapped(a, u, b, v), a) && EntryOf(Swapped(a, u, b, v), a).handles == 0
  {
  }

  lemma RunFive(d0: Dlirs, d1: Dlirs, d2: Dlirs, d3: Dlirs, d4: Dlirs, d5: Dlirs, o0: Op, o1: Op, o2: Op, o3: Op)
    requires Legal(d0, o0) && d1 == Step(d0, o0) && Legal(d1, o1) && d2 == Step(d1, o1) && Legal(d2, o2)
             && d3 == Step(d2, o2)
    requires Legal(d3, o3) && d4 == Step(d3, o3) && Legal(d4, o3) && d5 == Step(d4, o3)
    ensures Runs(d0, [o0, o1, o2, o3, o3], d5)
  {
    hide Step, Legal;
    assert [o3][1..] == [] && [o3, o3][1..] == [o3] && [o2, o3, o3][1..] == [o3, o3];
    assert [o1, o2, o3, o3][1..] == [o2, o3, o3] && [o0, o1, o2, o3, o3][1..] == [o1, o2, o3, o3];
    assert Runs(d5, [], d5) && Runs(d4, [o3], d5) && Runs(d3, [o3, o3], d5);
    assert Runs(d2, [o2, o3, o3], d5) && Runs(d1, [o1, o2, o3, o3], d5);
  }

  /** Requesting the same key twice in a row breaks the invariant of a new cache. */
  lemma RequestTwiceBreaks(a: Key, u: Value, v: Value)
    ensures Request(Create(2, 1), a, u).0 == One(a, u) && Inv(One(a, u)) && !Inv(Request(One(a, u), a, v).0)
  {
    hide Inv, CountsExact, Request, Create;
    OneReached(a, u);
    RequestExactBefore(One(a, u), a, v);
  }

  /** The driver's pattern breaks it after three requests: the second key is on the stack without
      being resident, its lookup misses, and the request that follows finds it in the tables. */
  lemma DriverBreaks(a: Key, u: Value, b: Key, v: Value, c: Key, w: Value)
    requires a != b && b != c && a != c
    ensures var d := Three(a, u, b, v, c, w);
            && Request(Request(Request(Create(2, 1), a, u).0, b, v).0, c, w).0 == d
            && Inv(d) && !Get(d, b).1 && !Inv(Request(Get(d, b).0, b, v).0)
  {
    var d := Three(a, u, b, v, c, w);
    AwaySecond(a, u, b, v, c, w);
    hide Inv, CountsExact, Get, Request, Create, One, Two, Three, Legal;
    OneReached(a, u);
    TwoReached(a, u, b, v);
    ThreeReached(a, u, b, v, c, w);
    RequestAfterMissBreaks(d, b, v);
  }

  lemma AwaySecond(a: Key, u: Value, b: Key, v: Value, c: Key, w: Value)
    requires a != b && b != c && a != c
    ensures var d := Three(a, u, b, v, c, w); b in d.lirs && !EntryOf(d, b).inCache
  {
    assert [a, b, c][1] == b;
  }
}
