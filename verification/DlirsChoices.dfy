/** What each DLIRS operation does to the stack, to the LIR entries, to the resident table and to
    the limits, key by key and in order. */
module DlirsChoices {
  import opened Basics
  import opened Seqs
  import opened DlirsSpec
  import opened DlirsInvariant
  import opened DlirsOps
  import opened DlirsTheorems
  import opened DlirsCarry
  import opened DlirsRuns
  import opened DlirsRecency

  // ----- the LIR entries of the stack

  /** The LIR keys, least recently touched first. */
  function LirKeys(d: Dlirs): seq<Key> {
    Select(d, d.lirs, Lir)
  }

  /** The part of `s` that begins with its LIR entry number `cut`. */
  function Beyond(d: Dlirs, s: seq<Key>, cut: nat): seq<Key> {
    if s == [] then []
    else if !EntryOf(d, s[0]).isLir then Beyond(d, s[1..], cut)
    else if cut == 0 then s
    else Beyond(d, s[1..], cut - 1)
  }

  /** It is a suffix, begins with a LIR entry, and has all LIR entries but the first `cut`. */
  lemma {:induction false} BeyondFacts(d: Dlirs, s: seq<Key>, cut: nat)
    ensures var b := Beyond(d, s, cut);
            && |b| <= |s| && b == s[|s| - |b|..] && (b != [] ==> EntryOf(d, b[0]).isLir)
            && Select(d, b, Lir) == if cut <= |Select(d, s, Lir)| then Select(d, s, Lir)[cut..] else []
  {
    if s != [] {
      var more := Select(d, s[1..], Lir);
      if !EntryOf(d, s[0]).isLir {
        assert Select(d, s, Lir) == more;
        BeyondFacts(d, s[1..], cut);
      } else if cut > 0 {
        assert Select(d, s, Lir) == [s[0]] + more;
        assert cut <= |more| + 1 ==> ([s[0]] + more)[cut..] == more[cut - 1..];
        BeyondFacts(d, s[1..], cut - 1);
      }
    }
  }

  lemma {:induction false} BeyondSame(d: Dlirs, f: Dlirs, s: seq<Key>, cut: nat)
    requires forall x :: x in s ==> EntryOf(f, x).isLir == EntryOf(d, x).isLir
    ensures Beyond(f, s, cut) == Beyond(d, s, cut)
  {
    if s != [] {
      assert s[0] in s;
      BeyondSame(d, f, s[1..], cut);
      if cut > 0 {
        BeyondSame(d, f, s[1..], cut - 1);
      }
    }
  }

  lemma {:induction false} BeyondTwice(d: Dlirs, s: seq<Key>, cut: nat)
    ensures Beyond(d, Beyond(d, s, 0), cut) == Beyond(d, s, cut)
  {
    if s != [] && !EntryOf(d, s[0]).isLir {
      BeyondTwice(d, s[1..], cut);
    }
  }

  lemma {:induction false} PruneBeyond(d: Dlirs)
    ensures var f := Prune(d); f.lirs == Beyond(d, d.lirs, 0) && f.res == d.res && SameFlags(d, f)
    decreases |d.lirs|
  {
    if d.lirs != [] && !EntryOf(d, d.lirs[0]).isLir {
      var e := Forget(d, d.lirs[0]);
      ForgetFront(d);
      ForgetOnlyCounts(d, d.lirs[0]);
      assert e.res == d.res;
      hide Forget;
      PruneBeyond(e);
      BeyondSame(d, e, e.lirs, 0);
      FlagsTrans(d, e, Prune(e));
    }
  }

  // ----- demotions

  /** The keys in `cut` turn from LIR entries to demoted ones, and no other flag changes. */
  ghost predicate Demotes(d: Dlirs, f: Dlirs, cut: seq<Key>) {
    forall x {:trigger EntryOf(f, x)} ::
      && (EntryOf(f, x).isLir <==> EntryOf(d, x).isLir && x !in cut)
      && (EntryOf(f, x).isDemoted <==> EntryOf(d, x).isDemoted || x in cut)
      && EntryOf(f, x).inCache == EntryOf(d, x).inCache
  }

  /** The first `n` LIR entries are demoted: they leave the stack, with the HIR entries before the
      next one, and go to the back of the resident table in their order. */
  ghost predicate Sheds(d: Dlirs, f: Dlirs, n: nat) {
    && n <= |LirKeys(d)| && f.lirs == Beyond(d, d.lirs, n) && f.res == d.res + LirKeys(d)[..n]
    && LirKeys(f) == LirKeys(d)[n..] && Demotes(d, f, LirKeys(d)[..n])
  }

  lemma FrontOfLirs(d: Dlirs)
    requires Core(d) && FrontLir(d) && d.lirs != []
    ensures LirKeys(d) != [] && LirKeys(d)[0] == d.lirs[0] && LirKeys(d)[..1] == [d.lirs[0]]
    ensures d.lirs[0] !in d.lirs[1..] && d.lirs[0] !in d.res
  {
    assert KeyOk(d, d.lirs[0]);
  }

  /** `dlirs_evict_lir` demotes the first LIR entry. */
  lemma EvictLirSheds(d: Dlirs)
    requires Core(d) && FrontLir(d) && d.lirs != []
    ensures Sheds(d, EvictLir(d), 1)
  {
    var k := d.lirs[0];
    FrontOfLirs(d);
    DropAbsent(d.res, k);
    var e := Demote(d, k);
    assert e.lirs == d.lirs[1..] && e.res == d.res + [k];
    PruneBeyond(e);
    var f := Prune(e);
    BeyondSame(d, e, d.lirs[1..], 0);
    BeyondFacts(d, d.lirs, 1);
    hide Core, Prune, Demote, Drop;
    assert f.lirs == Beyond(d, d.lirs, 1);
    DemotedFlags(d, e, f, k);
    forall x | x in f.lirs
      ensures Has(f, x, Lir) == Has(d, x, Lir)
    {
      assert x in d.lirs[1..];
    }
    SelectSame(d, f, f.lirs, Lir);
  }

  lemma DemotedFlags(d: Dlirs, e: Dlirs, f: Dlirs, k: Key)
    requires EntryOf(e, k) == EntryOf(d, k).(isLir := false, isDemoted := true) && OnlyEntry(d, e, k) && SameFlags(e, f)
    ensures Demotes(d, f, [k])
  {
    forall x
      ensures EntryOf(f, x).isLir <==> EntryOf(d, x).isLir && x !in [k]
      ensures EntryOf(f, x).isDemoted <==> EntryOf(d, x).isDemoted || x in [k]
      ensures EntryOf(f, x).inCache == EntryOf(d, x).inCache
    {
      assert EntryOf(f, x) == EntryOf(e, x).(rc := EntryOf(f, x).rc);
      assert x != k ==> EntryOf(e, x) == EntryOf(d, x);
    }
  }

  lemma {:induction false} BeyondAgain(d: Dlirs, s: seq<Key>, cut: nat)
    ensures Beyond(d, Beyond(d, s, 1), cut) == Beyond(d, s, cut + 1)
  {
    if s != [] {
      if EntryOf(d, s[0]).isLir {
        BeyondTwice(d, s[1..], cut);
      } else {
        BeyondAgain(d, s[1..], cut);
      }
    }
  }

  lemma ShedsCompose(d: Dlirs, e: Dlirs, f: Dlirs, n: nat)
    requires Sheds(d, e, 1) && Sheds(e, f, n) && NoDup(LirKeys(d)) && NoDup(d.lirs)
    ensures Sheds(d, f, n + 1)
  {
    var all := LirKeys(d);
    var first, more := all[..1], all[1..][..n];
    assert all[..n + 1] == first + more && all[n + 1..] == all[1..][n..];
    BeyondFacts(d, d.lirs, 1);
    hide LirKeys, Demotes, EntryOf;
    forall x | x in e.lirs
      ensures EntryOf(e, x).isLir == EntryOf(d, x).isLir
    {
      StillLir(d, e, x);
    }
    BeyondSame(d, e, e.lirs, n);
    BeyondAgain(d, d.lirs, n);
    assert d.res + all[..n + 1] == (d.res + first) + more;
    DemotesCompose(d, e, f, first, more);
  }

  lemma DemotesCompose(d: Dlirs, e: Dlirs, f: Dlirs, first: seq<Key>, more: seq<Key>)
    requires Demotes(d, e, first) && Demotes(e, f, more)
    ensures Demotes(d, f, first + more)
  {
    hide EntryOf;
    forall x
      ensures EntryOf(f, x).isLir <==> EntryOf(d, x).isLir && x !in first + more
      ensures EntryOf(f, x).isDemoted <==> EntryOf(d, x).isDemoted || x in first + more
      ensures EntryOf(f, x).inCache == EntryOf(d, x).inCache
    {
      assert EntryOf(e, x).inCache == EntryOf(d, x).inCache;
    }
  }

  /** What is left of the stack has none of the demoted keys. */
  lemma StillLir(d: Dlirs, e: Dlirs, x: Key)
    requires Sheds(d, e, 1) && NoDup(d.lirs) && x in e.lirs
    ensures EntryOf(e, x).isLir == EntryOf(d, x).isLir
  {
    BeyondFacts(d, d.lirs, 1);
    SelectMembers(d, d.lirs, Lir);
    SelectMembers(d, e.lirs, Lir);
    var all := LirKeys(d);
    if EntryOf(d, x).isLir {
      assert x in all[1..];
      assert NoDup(all);
      assert all[0] != x;
      assert EntryOf(e, x).isLir <==> EntryOf(d, x).isLir && x !in all[..1];
    }
  }

  /** Shedding LIR entries down to `keep` demotes the oldest ones, as many as there are too many. */
  lemma {:induction false} ShedExact(d: Dlirs, keep: int)
    requires Core(d) && FrontLir(d) && keep >= 0
    ensures Sheds(d, ShedLirs(d, keep), if d.lirsCount > keep then d.lirsCount - keep else 0)
    decreases |d.lirs|
  {
    hide Core, FrontLir, EvictLir, Sheds, Evolves;
    LirPresent(d);
    if d.lirsCount <= keep || d.lirs == [] {
      ShedsNone(d);
    } else {
      EvictLirKeeps(d);
      EvictLirShrinks(d);
      EvictLirSheds(d);
      ShedExact(EvictLir(d), keep);
      StackDistinct(d);
      ShedsCompose(d, EvictLir(d), ShedLirs(d, keep), d.lirsCount - keep - 1);
    }
  }

  lemma StackDistinct(d: Dlirs)
    requires Core(d)
    ensures NoDup(d.lirs) && NoDup(LirKeys(d)) && |LirKeys(d)| == d.lirsCount
  {
    SelectMembers(d, d.lirs, Lir);
  }

  lemma ShedsNone(d: Dlirs)
    requires Core(d) && FrontLir(d)
    ensures Sheds(d, d, 0)
  {
  }

  // ----- a key of the stack becomes LIR

  /** The demoted entries of the resident table of `f` are those of `d` and the keys in `cut`. */
  ghost predicate DemotedThere(d: Dlirs, f: Dlirs, cut: seq<Key>) {
    forall x {:trigger EntryOf(f, x)} ::
      x in f.res ==> (EntryOf(f, x).isDemoted <==> EntryOf(d, x).isDemoted || x in cut)
  }

  /** `k` is the last LIR entry of `f`; the first `cut` LIR entries of `d` are demoted to the back
      of the resident table, from whose front `ev` is evicted. */
  ghost predicate TakesUp(d: Dlirs, f: Dlirs, k: Key, cut: nat, ev: Option<Key>) {
    && cut <= |LirKeys(d)|
    && LirKeys(f) == LirKeys(d)[cut..] + [k] && f.lirs == Beyond(d, Drop(d.lirs, k), cut) + [k]
    && var queue := Drop(d.res, k) + LirKeys(d)[..cut];
    && (ev == None ==> f.res == queue)
    && (ev.Some? ==> queue != [] && ev == Some(queue[0]) && f.res == queue[1..])
    && DemotedThere(d, f, LirKeys(d)[..cut])
  }

  lemma PromotedKeys(d: Dlirs, k: Key)
    requires Core(d) && k in d.lirs && !EntryOf(d, k).isLir
    ensures var f := Promote(d, k);
            && LirKeys(f) == LirKeys(d) && f.lirs == Drop(d.lirs, k) && f.res == Drop(d.res, k)
            && f.lirsCount == d.lirsCount && k !in f.lirs && k !in f.res && k !in LirKeys(d)
            && (forall cut :: Beyond(f, f.lirs, cut) == Beyond(d, f.lirs, cut))
            && (forall x :: EntryOf(f, x).isDemoted == EntryOf(d, x).isDemoted)
  {
    hide Promote, Drop, Core, Tables, Select, Beyond;
    PromoteFields(d, k);
    var f := Promote(d, k);
    CoreTables(d);
    DropMembers(d.lirs, k);
    SelectMembers(d, d.lirs, Lir);
    SelectOther(d, f, f.lirs, k, Lir);
    SelectDrop(d, d.lirs, k, Lir);
    DropAbsent(LirKeys(d), k);
    forall x
      ensures x != k ==> EntryOf(f, x) == EntryOf(d, x)
    {
    }
    forall cut
      ensures Beyond(f, f.lirs, cut) == Beyond(d, f.lirs, cut)
    {
      BeyondSame(d, f, f.lirs, cut);
    }
  }

  lemma CoreTables(d: Dlirs)
    requires Core(d)
    ensures NoDup(d.lirs) && NoDup(d.res)
  {
  }

  /** What evicting the first resident entry leaves. */
  lemma ExpelFront(d: Dlirs)
    requires Core(d) && FrontLir(d) && d.res != []
    ensures var f := EvictResident(d).0;
            && f.res == d.res[1..] && f.lirs == d.lirs && LirKeys(f) == LirKeys(d) && f.nonRes == d.nonRes
            && DemotedThere(d, f, []) && d.res[0] !in f.res
            && f.nonResident == d.nonResident + (if d.res[0] in d.lirs then 1 else 0)
  {
    var k := d.res[0];
    ExpelFields(d, k);
    ExpelSelect(d, k, Lir);
    var f := EvictResident(d).0;
    forall x | x in f.res
      ensures EntryOf(f, x).isDemoted == EntryOf(d, x).isDemoted
    {
      assert x != k;
    }
  }

  lemma TakeUpExact(d: Dlirs, k: Key)
    requires Core(d) && FrontLir(d) && Residents(d) <= d.size && Ready(d, k)
    ensures var (f, ev) := TakeUp(d, k);
            var cut := if d.lirsCount > d.lirsLimit - 1 then d.lirsCount - d.lirsLimit + 1 else 0;
            && f.lirsLimit == d.lirsLimit && f.hirsLimit == d.hirsLimit && f.lirsCount == d.lirsCount - cut + 1
            && TakesUp(d, f, k, cut, ev)
  {
    hide Core, FrontLir, ShedLirs, ShedResidents, EvictResident, Evolves, Expels, KeyEvolves, Beyond, Select, Sheds;
    LimitsHold(d);
    var cut := if d.lirsCount > d.lirsLimit - 1 then d.lirsCount - d.lirsLimit + 1 else 0;
    var d2 := ShedLirs(d, d.lirsLimit - 1);
    ShedLirsKeeps(d, d.lirsLimit - 1);
    ShedExact(d, d.lirsLimit - 1);
    EvolvesFields(d, d2);
    ReadyEvolves(d, d2, k);
    ShedResidentsOnce(d2);
    var (d3, ev) := ShedResidents(d2, None);
    if Residents(d2) == d2.size {
      EvictResidentKeeps(d2);
      ExpelFront(d2);
      ReadyExpels(d2, d3, d2.res[0], k);
      ExpelsLimits(d2, d3, d2.res[0]);
    }
    Pushed(d3, k);
    ShedsTaken(d, d2, d3, TakeUp(d, k).0, k, cut, ev);
  }

  lemma ExpelsLimits(d: Dlirs, f: Dlirs, k: Key)
    requires Expels(d, f, k)
    ensures f.lirsLimit == d.lirsLimit && f.hirsLimit == d.hirsLimit && f.lirsCount == d.lirsCount
  {
  }

  lemma Pushed(d: Dlirs, k: Key)
    requires Core(d) && FrontLir(d) && Ready(d, k)
    ensures var f := d.(lirs := PutBack(d.lirs, k), lirsCount := d.lirsCount + 1);
            f.lirs == d.lirs + [k] && LirKeys(f) == LirKeys(d) + [k]
  {
    DropAbsent(d.lirs, k);
    var f := d.(lirs := PutBack(d.lirs, k), lirsCount := d.lirsCount + 1);
    SelectAppend(d, d.lirs, k, Lir);
    SelectSame(d, f, f.lirs, Lir);
  }

  lemma ShedsTaken(d: Dlirs, d2: Dlirs, d3: Dlirs, f: Dlirs, k: Key, cut: nat, ev: Option<Key>)
    requires Sheds(d, d2, cut) && k !in d.lirs && k !in d.res
    requires ev == None ==> d3 == d2
    requires ev.Some? ==>
               && d2.res != [] && ev == Some(d2.res[0]) && d3.res == d2.res[1..] && d3.lirs == d2.lirs
               && LirKeys(d3) == LirKeys(d2) && DemotedThere(d2, d3, [])
    requires f.lirs == d3.lirs + [k] && LirKeys(f) == LirKeys(d3) + [k] && f.res == d3.res && f.entries == d3.entries
    ensures TakesUp(d, f, k, cut, ev)
  {
    hide Beyond, Select;
    DropAbsent(d.lirs, k);
    DropAbsent(d.res, k);
    forall x | x in f.res
      ensures EntryOf(f, x).isDemoted <==> EntryOf(d, x).isDemoted || x in LirKeys(d)[..cut]
    {
      assert EntryOf(f, x) == EntryOf(d3, x);
      assert EntryOf(d2, x).isDemoted <==> EntryOf(d, x).isDemoted || x in LirKeys(d)[..cut];
    }
  }

  /** Looking up an HIR entry of the stack makes it the last LIR entry. Exactly as many of the
      oldest LIR entries are demoted as the limit demands, and an eviction takes the first of the
      resident table. */
  lemma PromotionExact(d: Dlirs, k: Key)
    requires Inv(d) && k in d.lirs && !EntryOf(d, k).isLir
    ensures var (f, hit, ev) := Get(d, k);
            var cut := if d.lirsCount >= f.lirsLimit then d.lirsCount + 1 - f.lirsLimit else 0;
            f.lirsCount == Min(d.lirsCount + 1, f.lirsLimit) && TakesUp(d, f, k, cut, ev)
  {
    hide Core, FrontLir, Settled, Promote, TakeUp, HirInLirs, Beyond, Select, TakesUp, DemotedThere, Drop;
    var d1 := Promote(d, k);
    PromoteStep(d, k);
    SplitHirInLirs(d, k);
    PromotedKeys(d, k);
    LimitsHold(d1);
    TakeUpExact(d1, k);
    var (f, ev) := TakeUp(d1, k);
    TakesUpFrom(d, d1, f, k, if d.lirsCount >= f.lirsLimit then d.lirsCount + 1 - f.lirsLimit else 0, ev);
  }

  lemma TakesUpFrom(d: Dlirs, d1: Dlirs, f: Dlirs, k: Key, cut: nat, ev: Option<Key>)
    requires TakesUp(d1, f, k, cut, ev) && LirKeys(d1) == LirKeys(d)
    requires d1.lirs == Drop(d.lirs, k) && d1.res == Drop(d.res, k) && k !in d1.lirs && k !in d1.res
    requires Beyond(d1, d1.lirs, cut) == Beyond(d, d1.lirs, cut)
    requires forall x :: EntryOf(d1, x).isDemoted == EntryOf(d, x).isDemoted
    ensures TakesUp(d, f, k, cut, ev)
  {
    hide Beyond, Select;
    DropAbsent(d1.lirs, k);
    DropAbsent(d1.res, k);
  }

  // ----- how far the limits move

  /** `v` is an integer nearest to `x`, the even one of two. */
  ghost predicate Nearest(v: int, x: real) {
    x - 0.5 <= v as real <= x + 0.5 && (v as real == x - 0.5 || v as real == x + 0.5 ==> v % 2 == 0)
  }

  /** There is only one. */
  lemma NearestUnique(v: int, w: int, x: real)
    requires Nearest(v, x) && Nearest(w, x)
    ensures v == w
  {
  }

  /** `n` is `x` rounded, and at least 1. */
  ghost predicate Rounded(n: int, x: real) {
    exists v :: Nearest(v, x) && n == if v > 1 then v else 1
  }

  lemma RintRounds(x: real)
    ensures Nearest(Rint(x), x)
  {
    RintNearest(x);
  }

  /** The limit of a new cache is the share of its size, half rounded up. */
  lemma InitialRounds(size: int, ratio: real)
    ensures Rounded(InitialLimit(size, ratio), (size as real) * ratio + 0.5)
  {
    RintRounds((size as real) * ratio + 0.5);
  }

  /** A quotient and a half, which rounds the quotient up. */
  ghost function Above(a: int, b: int): real
    requires b != 0
  {
    (a as real) / (b as real) + 0.5
  }

  lemma DeltaRounds(a: int, b: int)
    requires b != 0
    ensures Rounded(Delta(a, b), Above(a, b))
  {
    RintRounds(Above(a, b));
  }

  /** One limit grows by the rounded quotient of two counters, but leaves 1 to the other. */
  ghost predicate Shifted(before: int, after: int, size: int, a: int, b: int) {
    b != 0 && exists delta :: Rounded(delta, Above(a, b)) && after == Min(size - 1, before + delta)
  }

  lemma ResizeShifts(d: Dlirs, hitNonResident: bool)
    requires if hitNonResident then d.nonResident != 0 else d.demoted != 0
    ensures var f := Resize(d, hitNonResident);
            if hitNonResident then Shifted(d.hirsLimit, f.hirsLimit, d.size, d.demoted, d.nonResident)
            else Shifted(d.lirsLimit, f.lirsLimit, d.size, d.nonResident, d.demoted)
  {
    hide Rounded, Above, Delta;
    if hitNonResident {
      DeltaRounds(d.demoted, d.nonResident);
    } else {
      DeltaRounds(d.nonResident, d.demoted);
    }
  }

  /** A lookup moves the limits exactly if it misses on a key of the stack, which favours HIR
      entries, or hits a demoted entry outside it, which favours LIR entries. */
  lemma GetShifts(d: Dlirs, k: Key)
    requires Inv(d)
    ensures var f := Get(d, k).0;
            if k in d.lirs && !EntryOf(d, k).inCache then
              Shifted(d.hirsLimit, f.hirsLimit, d.size, d.demoted, d.nonResident)
            else if Overrides(d, k) && EntryOf(d, k).isDemoted then
              Shifted(d.lirsLimit, f.lirsLimit, d.size, d.nonResident, d.demoted)
            else f.hirsLimit == d.hirsLimit && f.lirsLimit == d.lirsLimit
  {
    hide Core, FrontLir, Settled, Promote, TakeUp, HirInLirs, HitLir, Shifted, TakesUp, Undemote, ForgetOldest, Evolves;
    InvKey(d, k);
    if k in d.lirs && EntryOf(d, k).isLir {
      HitLirKeeps(d, k);
      EvolvesFields(d, HitLir(d, k));
    } else if k in d.lirs {
      PromoteStep(d, k);
      SplitHirInLirs(d, k);
      TakeUpExact(Promote(d, k), k);
      PromoteShifts(d, k);
    } else if k in d.res {
      UndemoteShifts(d, k);
      var r := Restack(Undemote(d, k), k);
      ForgetOldestLimits(r, r.hirsCount + r.lirsCount + r.nonResident - 2 * r.size);
    }
  }

  lemma PromoteShifts(d: Dlirs, k: Key)
    requires Core(d) && k in d.lirs && !EntryOf(d, k).isLir
    ensures var f := Promote(d, k);
            if EntryOf(d, k).inCache then f.hirsLimit == d.hirsLimit && f.lirsLimit == d.lirsLimit
            else Shifted(d.hirsLimit, f.hirsLimit, d.size, d.demoted, d.nonResident)
  {
    if !EntryOf(d, k).inCache {
      AwayCounted(d, k);
      hide Core, Drop, Shifted;
      var d1 := SetEntry(d.(lirs := Drop(d.lirs, k)), k, EntryOf(d, k).(isLir := true));
      var d2 := Unref(d1.(nonRes := Drop(d1.nonRes, k)), k, k in d1.nonRes);
      ResizeShifts(d2, true);
    }
  }

  lemma UndemoteShifts(d: Dlirs, k: Key)
    requires Core(d) && k in d.res
    ensures var f := Undemote(d, k);
            if EntryOf(d, k).isDemoted then Shifted(d.lirsLimit, f.lirsLimit, d.size, d.nonResident, d.demoted)
            else f.hirsLimit == d.hirsLimit && f.lirsLimit == d.lirsLimit
  {
    if EntryOf(d, k).isDemoted {
      DemotedCounted(d, k);
      hide Core, Shifted;
      ResizeShifts(d, false);
    }
  }

  lemma {:induction false} ForgetOldestLimits(d: Dlirs, n: int)
    ensures var f := ForgetOldest(d, n); f.hirsLimit == d.hirsLimit && f.lirsLimit == d.lirsLimit && f.res == d.res
    decreases n
  {
    if n > 0 && d.nonRes != [] {
      ForgetOldestLimits(Forget(d, d.nonRes[0]), n - 1);
    }
  }

  // ----- hits

  /** A hit on a LIR entry moves it to the back of the stack and drops the HIR entries that are
      then in front; it changes nothing else. */
  lemma HitLirExact(d: Dlirs, k: Key)
    requires Inv(d) && k in d.lirs && EntryOf(d, k).isLir
    ensures var f := Get(d, k).0;
            && f.lirs == Beyond(d, PutBack(d.lirs, k), 0) && LirKeys(f) == Drop(LirKeys(d), k) + [k]
            && f.res == d.res && SameFlags(d, f)
  {
    hide Core, FrontLir, Settled, HitLir, Beyond, Select, Drop, NoDup, SameFlags, EntryOf, PutBack;
    HitLirStack(d, k);
    CoreTables(d);
    var s, f := PutBack(d.lirs, k), HitLir(d, k);
    MovedKeys(d, k);
    BeyondFacts(d, s, 0);
    SameFlagsSelect(d, f, f.lirs, Lir);
  }

  lemma HitLirStack(d: Dlirs, k: Key)
    requires FrontLir(d) && k in d.lirs
    ensures var f := HitLir(d, k); f.lirs == Beyond(d, PutBack(d.lirs, k), 0) && f.res == d.res && SameFlags(d, f)
  {
    hide Prune, Beyond, Drop, PutBack;
    var d1 := d.(lirs := PutBack(d.lirs, k));
    if d.lirs[0] == k {
      PruneBeyond(d1);
      BeyondSame(d, d1, d1.lirs, 0);
      FlagsTrans(d, d1, Prune(d1));
    } else {
      BackMoved(d, k);
    }
  }

  lemma MovedKeys(d: Dlirs, k: Key)
    requires NoDup(d.lirs) && k in d.lirs && EntryOf(d, k).isLir
    ensures Select(d, PutBack(d.lirs, k), Lir) == Drop(LirKeys(d), k) + [k]
  {
    hide Select, Drop;
    SelectAppend(d, Drop(d.lirs, k), k, Lir);
    SelectDrop(d, d.lirs, k, Lir);
  }

  lemma BackMoved(d: Dlirs, k: Key)
    requires FrontLir(d) && d.lirs != [] && d.lirs[0] != k
    ensures Beyond(d, PutBack(d.lirs, k), 0) == PutBack(d.lirs, k)
  {
    assert Drop(d.lirs, k)[0] == d.lirs[0];
  }

  /** The keys of `s` that are not in `t`, in order. */
  function Minus(s: seq<Key>, t: seq<Key>): seq<Key> {
    if s == [] then [] else (if s[0] in t then [] else [s[0]]) + Minus(s[1..], t)
  }

  lemma {:induction false} MinusDrop(s: seq<Key>, k: Key, t: seq<Key>)
    requires NoDup(s)
    ensures Minus(Drop(s, k), t) == Minus(s, [k] + t)
  {
    if s != [] {
      assert NoDup(s[1..]) && s[0] !in s[1..];
      if s[0] == k {
        MinusSame(s[1..], k, t);
      } else {
        MinusDrop(s[1..], k, t);
        assert Drop(s, k)[1..] == Drop(s[1..], k);
      }
    }
  }

  lemma {:induction false} MinusSame(s: seq<Key>, k: Key, t: seq<Key>)
    requires k !in s
    ensures Minus(s, t) == Minus(s, [k] + t)
  {
    if s != [] {
      MinusSame(s[1..], k, t);
    }
  }

  lemma {:induction false} MinusNone(s: seq<Key>)
    ensures Minus(s, []) == s
  {
    if s != [] {
      MinusNone(s[1..]);
    }
  }

  /** `dlirs_limit_stack` forgets the first `n` keys of the HIR order and no other. */
  lemma {:induction false} ForgetExact(d: Dlirs, n: int)
    requires Core(d) && FrontLir(d) && 0 <= n <= |d.nonRes|
    ensures var f := ForgetOldest(d, n);
            && f.nonRes == d.nonRes[n..] && f.lirs == Minus(d.lirs, d.nonRes[..n]) && f.res == d.res
            && LirKeys(f) == LirKeys(d) && SameFlags(d, f)
    decreases n
  {
    hide Core, FrontLir, Forget, Select, Minus, Drop, SameFlags;
    if n == 0 {
      MinusNone(d.lirs);
      assert d.nonRes[..0] == [];
      FlagsSelf(d);
    } else {
      var k := d.nonRes[0];
      OldestHir(d);
      ForgetCore(d, k);
      ForgetStep(d, k);
      var e := Forget(d, k);
      ForgetExact(e, n - 1);
      CoreTables(d);
      MinusDrop(d.lirs, k, e.nonRes[..n - 1]);
      assert d.nonRes[..n] == [k] + e.nonRes[..n - 1];
      FlagsTrans(d, e, ForgetOldest(e, n - 1));
    }
  }

  lemma FlagsSelf(d: Dlirs)
    ensures SameFlags(d, d)
  {
  }

  lemma ForgetStep(d: Dlirs, k: Key)
    requires Core(d) && d.nonRes != [] && k == d.nonRes[0] && k in d.lirs && !EntryOf(d, k).isLir
    ensures var e := Forget(d, k);
            && e.lirs == Drop(d.lirs, k) && e.nonRes == d.nonRes[1..] && e.res == d.res
            && LirKeys(e) == LirKeys(d) && SameFlags(d, e)
  {
    ForgetFields(d, k);
    var e := Forget(d, k);
    SelectMembers(d, d.lirs, Lir);
    hide Forget;
    SelectDrop(d, d.lirs, k, Lir);
    DropAbsent(LirKeys(d), k);
    SameFlagsSelect(d, e, e.lirs, Lir);
  }

  /** How many keys limiting the stack forgets. */
  function Surplus(residents: int, away: int, size: int): nat {
    if residents + away > 2 * size then residents + away - 2 * size else 0
  }

  lemma LimitExact(d: Dlirs)
    requires Core(d) && FrontLir(d) && Residents(d) <= d.size
    ensures var f := LimitStack(d);
            var n := Surplus(Residents(d), d.nonResident, d.size);
            && n <= |d.nonRes| && f.lirs == Minus(d.lirs, d.nonRes[..n]) && f.res == d.res
            && LirKeys(f) == LirKeys(d) && SameFlags(d, f)
  {
    hide Core, FrontLir, ForgetOldest, Select, Minus, SameFlags;
    StackSize(d);
    var n := Surplus(Residents(d), d.nonResident, d.size);
    LimitStackKeeps(d);
    ForgetExact(d, n);
    if n == 0 {
      ForgetNone(d, Residents(d) + d.nonResident - 2 * d.size);
      ForgetNone(d, 0);
    }
  }

  /** A hit on a resident entry outside the stack puts it at the back of all tables, and the
      stack forgets the oldest HIR entries beyond twice the cache size. */
  lemma HitResidentExact(d: Dlirs, k: Key)
    requires Inv(d) && Overrides(d, k)
    ensures var f := Get(d, k).0;
            var n := Surplus(Residents(d), d.nonResident, d.size);
            && n <= |d.nonRes| && f.lirs == Minus(d.lirs + [k], d.nonRes[..n]) && f.res == PutBack(d.res, k)
            && LirKeys(f) == LirKeys(d)
            && (forall x {:trigger EntryOf(f, x)} :: EntryOf(f, x).isDemoted <==> EntryOf(d, x).isDemoted && x != k)
  {
    hide Core, FrontLir, Settled, LimitStack, Select, Minus, Undemote, Restack, Drop;
    StackSize(d);
    var d1 := Undemote(d, k);
    UndemoteCore(d, k);
    UndemoteFront(d, d1, k);
    RestackFields(d1, k);
    RestackCore(d1, k);
    var r := Restack(d1, k);
    LimitExact(r);
    RestackLirs(d, k);
    var n := Surplus(Residents(d), d.nonResident, d.size);
    assert (d.nonRes + [k])[..n] == d.nonRes[..n];
    forall x
      ensures EntryOf(LimitStack(r), x).isDemoted <==> EntryOf(d, x).isDemoted && x != k
    {
      assert EntryOf(LimitStack(r), x) == EntryOf(r, x).(rc := EntryOf(LimitStack(r), x).rc);
      assert x != k ==> EntryOf(d1, x) == EntryOf(d, x) && EntryOf(r, x) == EntryOf(d1, x);
    }
  }

  lemma RestackLirs(d: Dlirs, k: Key)
    requires Core(d) && Overrides(d, k)
    ensures LirKeys(Restack(Undemote(d, k), k)) == LirKeys(d)
  {
    var d1 := Undemote(d, k);
    UndemoteCore(d, k);
    RestackFields(d1, k);
    assert KeyOk(d, k);
    hide Core, Undemote, Restack, Select;
    RestackSelect(d1, Restack(d1, k), k, Lir);
    UndemoteSelect(d, d1, k, Lir);
  }

  // ----- requests

  /** The new entry is LIR if and only if the LIR budget is not used up and no HIR entry is
      resident. Otherwise it goes to the back of the resident table, whose first entry a full cache
      evicts, and the stack forgets the oldest HIR entries beyond twice the cache size. */
  lemma NewcomerExact(d: Dlirs, k: Key, v: Value)
    requires Inv(d) && InBudget(d) && Requestable(d, k)
    ensures var (f, ev) := Request(d, k, v);
            && f.hirsLimit == d.hirsLimit && f.lirsLimit == d.lirsLimit
            && if d.lirsCount < d.lirsLimit && d.res == [] then
                 EntryOf(f, k).isLir && ev == None && LirKeys(f) == LirKeys(d) + [k] && f.lirs == d.lirs + [k]
                 && f.res == []
               else
                 var full := Residents(d) == d.size;
                 && !EntryOf(f, k).isLir && LirKeys(f) == LirKeys(d) && (full ==> d.res != [])
                 && ev == (if full then Some(d.res[0]) else None) && f.res == (if full then d.res[1..] else d.res) + [k]
                 && var away := d.nonResident + (if full && d.res[0] in d.lirs then 1 else 0);
                 && var n := Surplus(Min(d.size, Residents(d) + 1), away, d.size);
                 && n <= |d.nonRes| && f.lirs == Minus(d.lirs + [k], d.nonRes[..n])
                 && (forall x {:trigger EntryOf(f, x)} ::
                       x in f.res ==> (EntryOf(f, x).isDemoted <==> EntryOf(d, x).isDemoted && x != k))
  {
    hide Core, FrontLir, Settled, MakeRoom, LimitStack, Select, Minus, AddHir, AddLir, Requestable, Tracked;
    HirsPresent(d);
    LimitsHold(d);
    RoomUntracked(d, k);
    if d.lirsCount < d.lirsLimit && d.hirsCount == 0 {
      AddLirExact(d, k, v);
    } else {
      RoomExact(d);
      LirPresent(d);
      var d1 := MakeRoom(d, None).0;
      AddHirExact(d1, k, v);
      var d2 := AddHir(d1, k, v);
      AddHirCore(d1, k, v);
      LimitExact(d2);
      ShortOfAll(d, d1);
      LimitedFlags(d, d1, d2, k);
      LimitStackFields(d2);
    }
  }

  lemma AddLirExact(d: Dlirs, k: Key, v: Value)
    requires Core(d) && !Tracked(d, k)
    ensures var f := AddLir(d, k, v);
            && EntryOf(f, k).isLir && LirKeys(f) == LirKeys(d) + [k] && f.lirs == d.lirs + [k] && f.res == d.res
            && f.hirsLimit == d.hirsLimit && f.lirsLimit == d.lirsLimit
  {
    DropAbsent(d.lirs, k);
    var f := AddLir(d, k, v);
    SelectAppend(f, d.lirs, k, Lir);
    SelectOther(d, f, d.lirs, k, Lir);
  }

  /** Making room in a cache within its budget evicts the first resident entry of a full cache. */
  lemma RoomExact(d: Dlirs)
    requires Inv(d) && InBudget(d)
    ensures var (f, ev) := MakeRoom(d, None);
            var full := Residents(d) == d.size;
            && Core(f) && FrontLir(f) && f.size == d.size && f.hirsLimit == d.hirsLimit && f.lirsLimit == d.lirsLimit
            && Residents(f) == Residents(d) - (if full then 1 else 0) && f.lirs == d.lirs && f.nonRes == d.nonRes
            && LirKeys(f) == LirKeys(d) && (full ==> d.res != []) && DemotedThere(d, f, [])
            && ev == (if full then Some(d.res[0]) else None) && f.res == (if full then d.res[1..] else d.res)
            && f.nonResident == d.nonResident + (if full && d.res[0] in d.lirs then 1 else 0)
  {
    hide Core, FrontLir, Settled, MakeRoom, EvictResident, Select;
    LimitsHold(d);
    HirsPresent(d);
    MakeRoomOnce(d);
    if Residents(d) == d.size {
      assert ShedLirs(d, d.lirsLimit) == d;
      EvictResidentKeeps(d);
      ExpelFront(d);
    }
  }

  lemma AddHirExact(d: Dlirs, k: Key, v: Value)
    requires Core(d) && !Tracked(d, k)
    ensures var f := AddHir(d, k, v);
            && !EntryOf(f, k).isLir && !EntryOf(f, k).isDemoted && OnlyEntry(d, f, k)
            && LirKeys(f) == LirKeys(d) && f.lirs == d.lirs + [k] && f.nonRes == d.nonRes + [k] && f.res == d.res + [k]
            && k !in d.res
            && f.hirsLimit == d.hirsLimit && f.lirsLimit == d.lirsLimit
  {
    UntrackedNonRes(d, k);
    DropAbsent(d.lirs, k);
    DropAbsent(d.nonRes, k);
    DropAbsent(d.res, k);
    var f := AddHir(d, k, v);
    SelectAppend(f, d.lirs, k, Lir);
    SelectOther(d, f, d.lirs, k, Lir);
  }

  /** The new key is never among those that limiting the stack forgets. */
  lemma ShortOfAll(d: Dlirs, f: Dlirs)
    requires Core(f) && f.size >= 1 && Residents(f) < f.size && f.nonRes == d.nonRes
    ensures Surplus(Residents(f) + 1, f.nonResident, f.size) <= |d.nonRes|
    ensures forall k: Key :: (d.nonRes + [k])[..Surplus(Residents(f) + 1, f.nonResident, f.size)]
                             == d.nonRes[..Surplus(Residents(f) + 1, f.nonResident, f.size)]
  {
    StackSize(f);
  }

  lemma LimitedFlags(d: Dlirs, d1: Dlirs, d2: Dlirs, k: Key)
    requires DemotedThere(d, d1, []) && OnlyEntry(d1, d2, k) && d2.res == d1.res + [k] && k !in d1.res
    requires !EntryOf(d2, k).isLir && !EntryOf(d2, k).isDemoted
    requires SameFlags(d2, LimitStack(d2)) && LimitStack(d2).res == d2.res
    ensures !EntryOf(LimitStack(d2), k).isLir
    ensures forall x {:trigger EntryOf(LimitStack(d2), x)} ::
              x in d2.res ==> (EntryOf(LimitStack(d2), x).isDemoted <==> EntryOf(d, x).isDemoted && x != k)
  {
    hide LimitStack;
    var f := LimitStack(d2);
    assert EntryOf(f, k) == EntryOf(d2, k).(rc := EntryOf(f, k).rc);
    forall x | x in d2.res
      ensures EntryOf(f, x).isDemoted <==> EntryOf(d, x).isDemoted && x != k
    {
      assert EntryOf(f, x) == EntryOf(d2, x).(rc := EntryOf(f, x).rc);
      if x != k {
        assert EntryOf(d2, x) == EntryOf(d1, x);
      }
    }
  }

  lemma LimitStackFields(d: Dlirs)
    ensures LimitStack(d).hirsLimit == d.hirsLimit && LimitStack(d).lirsLimit == d.lirsLimit
  {
    ForgetOldestLimits(d, d.hirsCount + d.lirsCount + d.nonResident - 2 * d.size);
  }

  // ----- the first requests

  /** Requests for the keys `ks`, one after the other. */
  ghost function Requested(d: Dlirs, ks: seq<Key>, vs: seq<Value>): Dlirs
    requires |vs| == |ks|
  {
    if ks == [] then d
    else
      var n := |ks| - 1;
      Request(Requested(d, ks[..n], vs[..n]), ks[n], vs[n]).0
  }

  /** The state after requests for `ks`, no more than the cache holds. */
  ghost predicate Warm(d: Dlirs, size: int, hirsLimit: int, ks: seq<Key>) {
    var m := Min(|ks|, size - hirsLimit);
    && Inv(d) && InBudget(d) && d.size == size && d.lirsLimit == size - hirsLimit && m >= 0
    && d.lirs == ks && LirKeys(d) == ks[..m] && d.res == ks[m..] && d.nonResident == 0
  }

  /** A new cache fills up with LIR entries first, as many as its limit allows, and then with HIR
      entries, in the order of the requests. */
  lemma {:induction false} WarmUp(size: int, hirsLimit: int, ks: seq<Key>, vs: seq<Value>)
    requires 1 <= hirsLimit < size && |vs| == |ks| <= size && NoDup(ks)
    ensures Warm(Requested(Create(size, hirsLimit), ks, vs), size, hirsLimit, ks)
    decreases |ks|
  {
    hide Warm, Create, Request;
    if ks == [] {
      WarmStart(size, hirsLimit);
    } else {
      var n := |ks| - 1;
      WarmUp(size, hirsLimit, ks[..n], vs[..n]);
      assert ks == ks[..n] + [ks[n]];
      WarmUpStep(size, hirsLimit, Requested(Create(size, hirsLimit), ks[..n], vs[..n]), ks[..n], ks[n], vs[n]);
    }
  }

  lemma WarmStart(size: int, hirsLimit: int)
    requires 1 <= hirsLimit < size
    ensures Warm(Create(size, hirsLimit), size, hirsLimit, [])
  {
    hide Core, FrontLir, Settled;
    CreateInv(size, hirsLimit);
  }

  lemma WarmCounts(d: Dlirs, size: int, hirsLimit: int, ks: seq<Key>, k: Key)
    requires Warm(d, size, hirsLimit, ks) && 1 <= hirsLimit < size && k !in ks
    ensures Requestable(d, k) && d.lirsCount == Min(|ks|, size - hirsLimit) && Residents(d) == |ks|
    ensures d.lirsCount < d.lirsLimit <==> |ks| < size - hirsLimit
    ensures d.res == [] <==> |ks| <= size - hirsLimit
  {
    hide Core, FrontLir, Settled, Select;
    StackDistinct(d);
    HirsPresent(d);
  }

  lemma WarmUpStep(size: int, hirsLimit: int, d: Dlirs, ks: seq<Key>, k: Key, v: Value)
    requires 1 <= hirsLimit < size && |ks| < size && k !in ks && Warm(d, size, hirsLimit, ks)
    ensures Warm(Request(d, k, v).0, size, hirsLimit, ks + [k])
  {
    hide Core, FrontLir, Settled, Select, Minus, Request, Handed, Requestable, NoDup;
    WarmCounts(d, size, hirsLimit, ks, k);
    var f := Request(d, k, v).0;
    RequestKeeps(d, k, v);
    RequestBudget(d, k, v);
    NewcomerExact(d, k, v);
    MinusNone(ks + [k]);
    var m := Min(|ks| + 1, size - hirsLimit);
    if |ks| < size - hirsLimit {
      assert ks[..|ks|] == ks && (ks + [k])[..m] == ks + [k] && (ks + [k])[m..] == [];
    } else {
      assert (ks + [k])[..m] == ks[..m] && (ks + [k])[m..] == ks[m..] + [k];
      assert d.nonRes[..0] == [];
    }
    AwayNone(f, m);
  }

  /** A cache whose stack is made of LIR and resident entries has no non-resident ones. */
  lemma AwayNone(d: Dlirs, m: nat)
    requires Inv(d) && m <= |d.lirs| && LirKeys(d) == d.lirs[..m] && d.res == d.lirs[m..]
    ensures d.nonResident == 0
  {
    SelectMembers(d, d.lirs, Away);
    SelectMembers(d, d.lirs, Lir);
    forall x | x in d.lirs
      ensures EntryOf(d, x).inCache
    {
      assert KeyOk(d, x);
      assert x in d.lirs[..m] || x in d.lirs[m..];
    }
    EmptyOrNot(Select(d, d.lirs, Away));
  }

  lemma EmptyOrNot(s: seq<Key>)
    ensures s == [] || exists x :: x in s
  {
    if s != [] {
      assert s[0] in s;
    }
  }

  /** The first request beyond the capacity evicts the first key that was not LIR. */
  lemma FirstEviction(size: int, hirsLimit: int, ks: seq<Key>, vs: seq<Value>, k: Key, v: Value)
    requires 1 <= hirsLimit < size && |vs| == |ks| == size && NoDup(ks) && k !in ks
    ensures Request(Requested(Create(size, hirsLimit), ks, vs), k, v).1 == Some(ks[size - hirsLimit])
  {
    hide Core, FrontLir, Settled, Select, Minus, Request;
    WarmUp(size, hirsLimit, ks, vs);
    var d := Requested(Create(size, hirsLimit), ks, vs);
    WarmCounts(d, size, hirsLimit, ks, k);
    NewcomerExact(d, k, v);
  }
}
