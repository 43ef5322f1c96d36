/** The invariant of the DLIRS policy and the steps that keep it. */
module DlirsInvariant {
  import opened Seqs
  import opened DlirsSpec

  // ----- selecting the keys with a trait, in order

  datatype Trait = Lir | Hir | Away | Demoted

  predicate Has(d: Dlirs, k: Key, t: Trait) {
    match t
    case Lir => EntryOf(d, k).isLir
    case Hir => !EntryOf(d, k).isLir
    case Away => !EntryOf(d, k).inCache
    case Demoted => EntryOf(d, k).isDemoted
  }

  function Select(d: Dlirs, s: seq<Key>, t: Trait): seq<Key> {
    if s == [] then [] else (if Has(d, s[0], t) then [s[0]] else []) + Select(d, s[1..], t)
  }

  lemma {:induction false} SelectMembers(d: Dlirs, s: seq<Key>, t: Trait)
    ensures forall k :: k in Select(d, s, t) <==> k in s && Has(d, k, t)
    ensures NoDup(s) ==> NoDup(Select(d, s, t))
    ensures |Select(d, s, t)| <= |s|
  {
    if s != [] {
      SelectMembers(d, s[1..], t);
      assert NoDup(s) ==> NoDup(s[1..]) && s[0] !in s[1..];
    }
  }

  lemma {:induction false} SelectSame(d: Dlirs, d': Dlirs, s: seq<Key>, t: Trait)
    requires forall k :: k in s ==> Has(d, k, t) == Has(d', k, t)
    ensures Select(d, s, t) == Select(d', s, t)
  {
    if s != [] {
      assert s[0] in s;
      SelectSame(d, d', s[1..], t);
    }
  }

  lemma {:induction false} SelectDrop(d: Dlirs, s: seq<Key>, k: Key, t: Trait)
    requires NoDup(s)
    ensures Select(d, Drop(s, k), t) == Drop(Select(d, s, t), k)
  {
    if s != [] {
      SelectMembers(d, s[1..], t);
      if s[0] == k {
        var r := Select(d, s[1..], t);
        DropAbsent(r, k);
        assert Select(d, s, t) == if Has(d, k, t) then [k] + r else r;
        assert ([k] + r)[1..] == r;
      } else {
        SelectDrop(d, s[1..], k, t);
        var r := Select(d, s[1..], t);
        assert Select(d, s, t) == if Has(d, s[0], t) then [s[0]] + r else r;
        assert ([s[0]] + r)[1..] == r;
        assert Drop(s, k)[0] == s[0] && Drop(s, k)[1..] == Drop(s[1..], k);
      }
    }
  }

  lemma {:induction false} SelectAppend(d: Dlirs, s: seq<Key>, k: Key, t: Trait)
    ensures Select(d, s + [k], t) == Select(d, s, t) + (if Has(d, k, t) then [k] else [])
  {
    if s == [] {
      assert s + [k] == [k];
      assert Select(d, [k][1..], t) == [];
    } else {
      assert (s + [k])[0] == s[0] && (s + [k])[1..] == s[1..] + [k];
      SelectAppend(d, s[1..], k, t);
    }
  }

  lemma CountDrop(d: Dlirs, s: seq<Key>, k: Key, t: Trait)
    requires NoDup(s)
    ensures |Select(d, Drop(s, k), t)| == |Select(d, s, t)| - (if k in s && Has(d, k, t) then 1 else 0)
  {
    SelectDrop(d, s, k, t);
    SelectMembers(d, s, t);
    DropMembers(Select(d, s, t), k);
  }

  lemma CountPut(d: Dlirs, s: seq<Key>, k: Key, t: Trait)
    requires NoDup(s) && k !in s
    ensures PutBack(s, k) == s + [k]
    ensures |Select(d, PutBack(s, k), t)| == |Select(d, s, t)| + (if Has(d, k, t) then 1 else 0)
  {
    DropAbsent(s, k);
    SelectAppend(d, s, k, t);
  }

  /** Changing the entry of a key outside the sequence changes no selection. */
  lemma SelectOther(d: Dlirs, f: Dlirs, s: seq<Key>, k: Key, t: Trait)
    requires k !in s && OnlyEntry(d, f, k)
    ensures Select(f, s, t) == Select(d, s, t)
  {
    forall x | x in s
      ensures Has(d, x, t) == Has(f, x, t)
    {
      assert EntryOf(f, x) == EntryOf(d, x);
    }
    SelectSame(d, f, s, t);
  }

  /** Only the entry of `k` may differ. */
  ghost predicate OnlyEntry(d: Dlirs, f: Dlirs, k: Key) {
    forall x {:trigger EntryOf(f, x)} :: x != k ==> EntryOf(f, x) == EntryOf(d, x)
  }

  /** A key that gains a trait adds one to the selection. */
  lemma {:induction false} CountGained(d: Dlirs, f: Dlirs, s: seq<Key>, k: Key, t: Trait)
    requires NoDup(s) && k in s && OnlyEntry(d, f, k) && !Has(d, k, t) && Has(f, k, t)
    ensures |Select(f, s, t)| == |Select(d, s, t)| + 1
  {
    if s[0] == k {
      assert k !in s[1..];
      SelectOther(d, f, s[1..], k, t);
    } else {
      assert EntryOf(f, s[0]) == EntryOf(d, s[0]);
      CountGained(d, f, s[1..], k, t);
    }
  }

  /** LIR and HIR entries share the stack between them. */
  lemma {:induction false} SelectSplit(d: Dlirs, s: seq<Key>)
    ensures |Select(d, s, Lir)| + |Select(d, s, Hir)| == |s|
  {
    if s != [] {
      SelectSplit(d, s[1..]);
    }
  }

  lemma PutBackMembers(s: seq<Key>, k: Key)
    requires NoDup(s)
    ensures NoDup(PutBack(s, k)) && |PutBack(s, k)| == |s| + (if k in s then 0 else 1)
    ensures forall x :: x in PutBack(s, k) <==> x in s || x == k
  {
    DropMembers(s, k);
  }

  // ----- the invariant

  ghost predicate KeyOk(d: Dlirs, k: Key) {
    var e := EntryOf(d, k);
    && (k in d.lirs && e.isLir ==> e.inCache && !e.isDemoted && k !in d.res)
    && (k in d.lirs && !e.isLir ==> !e.isDemoted && (e.inCache <==> k in d.res))
    && (k in d.res ==> !e.isLir && e.inCache)
  }

  /** The number of tables that hold the entry of `k`. */
  function Holders(d: Dlirs, k: Key): int {
    (if k in d.lirs then 1 else 0) + (if k in d.nonRes then 1 else 0) + (if k in d.res then 1 else 0)
  }

  /** What the reference counter of `k` has beyond its tables and its evicted handles, less the
      references lost by self-insertion. */
  function Balance(d: Dlirs, k: Key): int {
    var e := EntryOf(d, k);
    e.rc + e.lost - Holders(d, k) - e.handles
  }

  ghost predicate Counted(d: Dlirs, k: Key) {
    k in d.lirs || k in d.res ==> Balance(d, k) == 0
  }

  /** Between operations every reference is accounted for: also to entries that are in no table,
      and to entries whose key has a newer one. */
  ghost predicate Settled(d: Dlirs) {
    && (forall k {:trigger Balance(d, k)} :: Balance(d, k) == 0)
    && (forall i :: 0 <= i < |d.strays| ==> d.strays[i].rc == d.strays[i].handles - d.strays[i].lost)
  }

  /** Repetition-free tables; `nonRes` is the HIR part of the stack in stack order. */
  ghost predicate Tables(d: Dlirs) {
    NoDup(d.lirs) && NoDup(d.res) && d.nonRes == Select(d, d.lirs, Hir)
  }

  ghost predicate Counters(d: Dlirs) {
    && d.lirsCount == |Select(d, d.lirs, Lir)| && d.hirsCount == |d.res|
    && d.nonResident == |Select(d, d.lirs, Away)| && d.demoted == |Select(d, d.res, Demoted)|
  }

  ghost predicate Limits(d: Dlirs) {
    d.size >= 2 && d.hirsLimit >= 1 && d.lirsLimit >= 1 && d.hirsLimit + d.lirsLimit == d.size
  }

  /** What holds even inside an operation. */
  ghost predicate Core(d: Dlirs) {
    && Tables(d) && Counters(d) && Limits(d)
    && (forall k {:trigger KeyOk(d, k)} :: KeyOk(d, k))
    && (forall k {:trigger Counted(d, k)} :: Counted(d, k))
  }

  ghost predicate FrontLir(d: Dlirs) {
    d.lirs != [] ==> EntryOf(d, d.lirs[0]).isLir
  }

  /** Resident entries: LIR entries and resident HIR entries. */
  function Residents(d: Dlirs): int {
    d.hirsCount + d.lirsCount
  }

  /** The invariant between operations. */
  ghost predicate Inv(d: Dlirs) {
    && Core(d) && FrontLir(d) && Settled(d)
    && Residents(d) <= d.size
    && (Residents(d) < d.size ==> d.nonResident == 0)
    && (d.lirs == [] ==> d.res == [])
    && |d.lirs| <= 2 * d.size
  }

  lemma NonResMembers(d: Dlirs, k: Key)
    requires Tables(d)
    ensures k in d.nonRes <==> k in d.lirs && !EntryOf(d, k).isLir
    ensures NoDup(d.nonRes)
  {
    SelectMembers(d, d.lirs, Hir);
  }

  // ----- forgetting an HIR entry of the stack

  /** `f` differs from `d` in no flag of any entry. */
  ghost predicate SameFlags(d: Dlirs, f: Dlirs) {
    forall x {:trigger EntryOf(f, x)} :: EntryOf(f, x) == EntryOf(d, x).(rc := EntryOf(f, x).rc)
  }

  lemma SameFlagsSelect(d: Dlirs, f: Dlirs, s: seq<Key>, t: Trait)
    requires SameFlags(d, f)
    ensures Select(f, s, t) == Select(d, s, t)
  {
    forall k | k in s
      ensures Has(d, k, t) == Has(f, k, t)
    {
      assert EntryOf(f, k) == EntryOf(d, k).(rc := EntryOf(f, k).rc);
    }
    SelectSame(d, f, s, t);
  }

  /** What forgetting an HIR entry of the stack does, field by field. */
  lemma ForgetFields(d: Dlirs, k: Key)
    requires Tables(d) && k in d.lirs && !EntryOf(d, k).isLir
    ensures var f := Forget(d, k);
            && f == d.(lirs := Drop(d.lirs, k), nonRes := Drop(d.nonRes, k), entries := f.entries,
                       nonResident := d.nonResident - (if EntryOf(d, k).inCache then 0 else 1))
            && SameFlags(d, f)
            && EntryOf(f, k).rc == EntryOf(d, k).rc - 2
            && (forall x :: x != k ==> EntryOf(f, x) == EntryOf(d, x))
  {
    hide Select, Drop;
    NonResMembers(d, k);
  }

  lemma ForgetCore(d: Dlirs, k: Key)
    requires Core(d) && k in d.lirs && !EntryOf(d, k).isLir
    ensures Core(Forget(d, k))
  {
    var f := Forget(d, k);
    ForgetFields(d, k);
    hide Forget, Select, Drop;
    SelectDrop(d, d.lirs, k, Hir);
    SameFlagsSelect(d, f, f.lirs, Hir);
    SameFlagsSelect(d, f, f.lirs, Lir);
    SameFlagsSelect(d, f, f.lirs, Away);
    SameFlagsSelect(d, f, f.res, Demoted);
    CountDrop(d, d.lirs, k, Lir);
    CountDrop(d, d.lirs, k, Away);
    DropMembers(d.lirs, k);
    forall x
      ensures KeyOk(f, x) && Counted(f, x)
    {
      ForgetKey(d, k, x);
    }
  }

  lemma ForgetKey(d: Dlirs, k: Key, x: Key)
    requires Core(d) && k in d.lirs && !EntryOf(d, k).isLir
    ensures KeyOk(Forget(d, k), x) && Counted(Forget(d, k), x)
  {
    ForgetFields(d, k);
    hide Forget, Select, Drop;
    assert KeyOk(d, x) && Counted(d, x);
    NonResMembers(d, x);
    DropMembers(d.lirs, k);
    DropMembers(d.nonRes, k);
    assert EntryOf(Forget(d, k), x) == EntryOf(d, x).(rc := EntryOf(Forget(d, k), x).rc);
  }

  // ----- pruning

  /** Pruning removes nothing but HIR entries, up to the first LIR entry. */
  ghost predicate PrunedTo(d: Dlirs, f: Dlirs) {
    && f.size == d.size && f.hirsLimit == d.hirsLimit && f.lirsLimit == d.lirsLimit
    && f.lirsCount == d.lirsCount && f.hirsCount == d.hirsCount && f.demoted == d.demoted && f.res == d.res
    && f.nonResident <= d.nonResident && |f.lirs| <= |d.lirs|
    && SameFlags(d, f)
    && (forall x :: x in f.lirs ==> x in d.lirs)
    && (forall x :: x in d.lirs && EntryOf(d, x).isLir ==> x in f.lirs)
  }

  lemma ForgetPrunes(d: Dlirs, k: Key)
    requires Core(d) && k in d.lirs && !EntryOf(d, k).isLir
    ensures PrunedTo(d, Forget(d, k))
  {
    ForgetFields(d, k);
    hide Forget, Select, Drop;
    DropMembers(d.lirs, k);
  }

  lemma PrunedTrans(d: Dlirs, e: Dlirs, f: Dlirs)
    requires PrunedTo(d, e) && PrunedTo(e, f)
    ensures PrunedTo(d, f)
  {
    forall x
      ensures EntryOf(f, x) == EntryOf(d, x).(rc := EntryOf(f, x).rc)
    {
      assert EntryOf(e, x) == EntryOf(d, x).(rc := EntryOf(e, x).rc);
    }
    forall x | x in d.lirs && EntryOf(d, x).isLir
      ensures x in f.lirs
    {
      assert EntryOf(e, x) == EntryOf(d, x).(rc := EntryOf(e, x).rc);
    }
  }

  lemma {:induction false} PruneCore(d: Dlirs)
    requires Core(d)
    ensures Core(Prune(d)) && FrontLir(Prune(d)) && PrunedTo(d, Prune(d))
    decreases |d.lirs|
  {
    hide Forget, Core, Select, Drop, SameFlags;
    if d.lirs == [] || EntryOf(d, d.lirs[0]).isLir {
      PrunedSelf(d);
    } else {
      var k := d.lirs[0];
      ForgetCore(d, k);
      ForgetPrunes(d, k);
      ForgetShorter(d, k);
      PruneCore(Forget(d, k));
      PrunedTrans(d, Forget(d, k), Prune(d));
    }
  }

  lemma PrunedSelf(d: Dlirs)
    ensures PrunedTo(d, d)
  {
  }

  lemma ForgetShorter(d: Dlirs, k: Key)
    requires k in d.lirs
    ensures |Forget(d, k).lirs| < |d.lirs|
  {
    DropShrinks(d.lirs, k);
  }

  // ----- demoting the LIR entry at the front

  lemma DemoteFields(d: Dlirs)
    requires Core(d) && d.lirs != [] && FrontLir(d)
    ensures var k := d.lirs[0];
            var f := Demote(d, k);
            && k in d.lirs && EntryOf(d, k).isLir && k !in d.res && k !in d.nonRes
            && f.lirs == Drop(d.lirs, k) && f.res == PutBack(d.res, k) && OnlyEntry(d, f, k)
            && EntryOf(f, k) == EntryOf(d, k).(isLir := false, isDemoted := true)
  {
    hide Drop, Select;
    var k := d.lirs[0];
    assert KeyOk(d, k);
    NonResMembers(d, k);
  }

  lemma DemoteCore(d: Dlirs)
    requires Core(d) && d.lirs != [] && FrontLir(d)
    ensures Core(Demote(d, d.lirs[0]))
  {
    hide Drop, Select, PutBack;
    var k := d.lirs[0];
    var f := Demote(d, k);
    DemoteFields(d);
    assert KeyOk(d, k);
    DropMembers(d.lirs, k);
    PutBackMembers(d.res, k);
    SelectOther(d, f, f.lirs, k, Hir);
    SelectOther(d, f, f.lirs, k, Lir);
    SelectOther(d, f, f.lirs, k, Away);
    SelectOther(d, f, d.res, k, Demoted);
    SelectDrop(d, d.lirs, k, Hir);
    DropAbsent(d.nonRes, k);
    CountDrop(d, d.lirs, k, Lir);
    CountDrop(d, d.lirs, k, Away);
    CountPut(f, d.res, k, Demoted);
    forall x
      ensures KeyOk(f, x) && Counted(f, x)
    {
      assert KeyOk(d, x) && Counted(d, x);
      assert x != k ==> EntryOf(f, x) == EntryOf(d, x);
    }
  }

  // ----- evicting the resident entry at the front

  lemma ExpelFields(d: Dlirs, k: Key)
    requires Core(d) && k in d.res
    ensures var f := Expel(d, k);
            && f.lirs == d.lirs && f.nonRes == d.nonRes && f.res == Drop(d.res, k) && OnlyEntry(d, f, k)
            && EntryOf(f, k) == EntryOf(d, k).(inCache := EntryOf(f, k).inCache, isDemoted := false,
                handles := EntryOf(d, k).handles + 1)
            && EntryOf(f, k).inCache == (k !in d.lirs) && EntryOf(d, k).inCache && !EntryOf(d, k).isLir
            && f.nonResident == d.nonResident + (if k in d.lirs then 1 else 0)
            && f.demoted == d.demoted - (if EntryOf(d, k).isDemoted then 1 else 0)
  {
    hide Drop, Select;
    assert KeyOk(d, k);
  }

  lemma ExpelCore(d: Dlirs, k: Key)
    requires Core(d) && k in d.res
    ensures Core(Expel(d, k))
  {
    hide Drop, Select;
    var f := Expel(d, k);
    ExpelFields(d, k);
    DropMembers(d.res, k);
    ExpelSelect(d, k, Hir);
    ExpelSelect(d, k, Lir);
    if k in d.lirs {
      CountGained(d, f, d.lirs, k, Away);
    } else {
      SelectOther(d, f, d.lirs, k, Away);
    }
    SelectOther(d, f, f.res, k, Demoted);
    CountDrop(d, d.res, k, Demoted);
    forall x
      ensures KeyOk(f, x) && Counted(f, x)
    {
      assert KeyOk(d, x) && Counted(d, x);
      assert x != k ==> EntryOf(f, x) == EntryOf(d, x);
    }
  }

  lemma ExpelSelect(d: Dlirs, k: Key, t: Trait)
    requires Core(d) && k in d.res && (t == Hir || t == Lir)
    ensures Select(Expel(d, k), d.lirs, t) == Select(d, d.lirs, t)
  {
    ExpelFields(d, k);
    forall x | x in d.lirs
      ensures Has(d, x, t) == Has(Expel(d, k), x, t)
    {
      assert x != k ==> EntryOf(Expel(d, k), x) == EntryOf(d, x);
    }
    SelectSame(d, Expel(d, k), d.lirs, t);
  }
}
