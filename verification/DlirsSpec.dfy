/** The DLIRS replacement policy as functions on a value: three ordered tables of keys that
    share one entry per key, four counters and two adaptive limits. */
module DlirsSpec {
  import opened Basics
  import opened Seqs

  type Key = string

  /** Value pointers; 0 is null. */
  type Value = int

  /** A cache entry. `rc` is its reference counter; `handles` and `lost` are bookkeeping that
      the C struct does not have: evicted references the caller still holds, and counts dropped
      by re-inserting the entry over itself. */
  datatype Entry = Entry(value: Value, isLir: bool, isDemoted: bool, inCache: bool, rc: int, handles: nat, lost: nat)

  /** `strays` is bookkeeping too: the entries that evicted references alone hold and whose key
      has a newer entry. */
  datatype Dlirs = Dlirs(
    size: int, hirsLimit: int, lirsLimit: int,
    hirsCount: int, lirsCount: int, demoted: int, nonResident: int,
    lirs: seq<Key>, nonRes: seq<Key>, res: seq<Key>, entries: map<Key, Entry>, strays: seq<Entry>)

  /** Inserting into an ordered table: a key that is present moves to the back. */
  function PutBack(s: seq<Key>, k: Key): seq<Key> {
    Drop(s, k) + [k]
  }

  function EntryOf(d: Dlirs, k: Key): Entry {
    if k in d.entries then d.entries[k] else Entry(0, false, false, false, 0, 0, 0)
  }

  function SetEntry(d: Dlirs, k: Key, e: Entry): Dlirs {
    d.(entries := d.entries[k := e])
  }

  /** A table gives up one reference: `dlirs_entry_destroy` on what a removal returned. */
  function Unref(d: Dlirs, k: Key, held: bool): Dlirs {
    if held then SetEntry(d, k, EntryOf(d, k).(rc := EntryOf(d, k).rc - 1)) else d
  }

  // ----- limits

  /** `rint`: round to nearest, ties to even. */
  function Rint(x: real): int {
    var f := x.Floor;
    var r := x - f as real;
    if r < 0.5 then f else if r > 0.5 then f + 1 else if f % 2 == 0 then f else f + 1
  }

  /** `fmax(1, rint(a / b + 0.5))`. */
  function Delta(a: int, b: int): int
    requires b != 0
  {
    var r := Rint((a as real) / (b as real) + 0.5);
    if r > 1 then r else 1
  }

  /** `dlirs_resize`: a hit on a non-resident key grows the HIR share, a hit on a demoted one
      the LIR share. */
  function Resize(d: Dlirs, hitNonResident: bool): Dlirs
    requires if hitNonResident then d.nonResident != 0 else d.demoted != 0
  {
    if hitNonResident then
      var h := Min(d.size - 1, d.hirsLimit + Delta(d.demoted, d.nonResident));
      d.(hirsLimit := h, lirsLimit := d.size - h)
    else
      var l := Min(d.size - 1, d.lirsLimit + Delta(d.nonResident, d.demoted));
      d.(lirsLimit := l, hirsLimit := d.size - l)
  }

  // ----- stack pruning and evictions

  /** Remove the HIR entry `k` from the stack and from the HIR order. */
  function Forget(d: Dlirs, k: Key): Dlirs {
    var away := !EntryOf(d, k).inCache;
    var d1 := Unref(d.(lirs := Drop(d.lirs, k)), k, k in d.lirs);
    var d2 := Unref(d1.(nonRes := Drop(d1.nonRes, k)), k, k in d1.nonRes);
    d2.(nonResident := d2.nonResident - if away then 1 else 0)
  }

  /** `dlirs_prune`: drop HIR entries from the front of the stack. */
  function Prune(d: Dlirs): Dlirs
    decreases |d.lirs|
  {
    if d.lirs == [] || EntryOf(d, d.lirs[0]).isLir then d
    else Prune(Forget(d, d.lirs[0]))
  }

  /** `dlirs_evict_lir`: demote the LIR entry at the front of the stack to resident HIR. */
  function EvictLir(d: Dlirs): Dlirs {
    if d.lirs == [] then d
    else Prune(Demote(d, d.lirs[0]))
  }

  function Demote(d: Dlirs, k: Key): Dlirs {
    SetEntry(d, k, EntryOf(d, k).(isLir := false, isDemoted := true))
    .(lirs := Drop(d.lirs, k), res := PutBack(d.res, k),
      lirsCount := d.lirsCount - 1, hirsCount := d.hirsCount + 1, demoted := d.demoted + 1)
  }

  /** `dlirs_evict_resident_hir`: evict the front of the resident table to the caller. */
  function EvictResident(d: Dlirs): (Dlirs, Option<Key>) {
    if d.res == [] then (d, None)
    else (Expel(d, d.res[0]), Some(d.res[0]))
  }

  function Expel(d: Dlirs, k: Key): Dlirs {
    var e := EntryOf(d, k);
    SetEntry(d, k, e.(inCache := if k in d.lirs then false else e.inCache, isDemoted := false,
        handles := e.handles + 1))
    .(res := Drop(d.res, k), hirsCount := d.hirsCount - 1,
      nonResident := d.nonResident + (if k in d.lirs then 1 else 0),
      demoted := d.demoted - (if e.isDemoted then 1 else 0))
  }

  /** Demote LIR entries while there are more than `keep`. */
  function ShedLirs(d: Dlirs, keep: int): Dlirs
    decreases |d.lirs|
  {
    if d.lirsCount <= keep || d.lirs == [] then d
    else
      EvictLirShrinks(d);
      ShedLirs(EvictLir(d), keep)
  }

  /** Evict resident HIR entries while the cache is full; the last one is reported. */
  function ShedResidents(d: Dlirs, evicted: Option<Key>): (Dlirs, Option<Key>)
    decreases |d.res|
  {
    if d.hirsCount + d.lirsCount < d.size || d.res == [] then (d, evicted)
    else
      DropShrinks(d.res, d.res[0]);
      var (d1, ev) := EvictResident(d);
      ShedResidents(d1, ev)
  }

  /** The eviction loop of `dlirs_request`. */
  function MakeRoom(d: Dlirs, evicted: Option<Key>): (Dlirs, Option<Key>)
    decreases |d.lirs| + |d.res|
  {
    if d.hirsCount + d.lirsCount < d.size then (d, evicted)
    else
      var d1 := ShedLirs(d, d.lirsLimit);
      ShedLirsShrinks(d, d.lirsLimit);
      if d1.res == [] then (d1, None)
      else
        DropShrinks(d1.res, d1.res[0]);
        var (d2, ev) := EvictResident(d1);
        MakeRoom(d2, ev)
  }

  /** `dlirs_limit_stack`'s loop: forget the `n` oldest HIR entries of the stack. */
  function ForgetOldest(d: Dlirs, n: int): Dlirs
    decreases n
  {
    if n <= 0 || d.nonRes == [] then d else ForgetOldest(Forget(d, d.nonRes[0]), n - 1)
  }

  function LimitStack(d: Dlirs): Dlirs {
    ForgetOldest(d, d.hirsCount + d.lirsCount + d.nonResident - 2 * d.size)
  }

  // ----- requests

  /** `dlirs_hit_lir`. */
  function HitLir(d: Dlirs, k: Key): Dlirs {
    var d1 := d.(lirs := PutBack(d.lirs, k));
    if d.lirs != [] && d.lirs[0] == k then Prune(d1) else d1
  }

  /** The first part of `dlirs_hir_in_lirs`: take `k` out of every table and mark it LIR. */
  function Promote(d: Dlirs, k: Key): Dlirs {
    var e := EntryOf(d, k);
    var d1 := SetEntry(d.(lirs := Drop(d.lirs, k)), k, e.(isLir := true));
    var d2 := Unref(d1.(nonRes := Drop(d1.nonRes, k)), k, k in d1.nonRes);
    if e.inCache then
      Unref(d2.(res := Drop(d2.res, k), hirsCount := d2.hirsCount - 1), k, k in d2.res)
    else if d2.nonResident != 0 then
      var d3 := Resize(d2, true);
      SetEntry(d3, k, EntryOf(d3, k).(inCache := true)).(nonResident := d3.nonResident - 1)
    else d2
  }

  /** `dlirs_hir_in_lirs`: a key of the stack that is not LIR becomes LIR. */
  function HirInLirs(d: Dlirs, k: Key): (Dlirs, Option<Key>) {
    var d1 := Promote(d, k);
    var d2 := ShedLirs(d1, d1.lirsLimit - 1);
    var (d3, ev) := ShedResidents(d2, None);
    (d3.(lirs := PutBack(d3.lirs, k), lirsCount := d3.lirsCount + 1), ev)
  }

  /** The start of `dlirs_hit_hir_in_resident_hirs`: a demoted entry adapts the limits. */
  function Undemote(d: Dlirs, k: Key): Dlirs {
    if EntryOf(d, k).isDemoted && d.demoted != 0 then
      var d1 := Resize(d, false);
      SetEntry(d1, k, EntryOf(d1, k).(isDemoted := false)).(demoted := d1.demoted - 1)
    else d
  }

  /** The three insertions for a hit on a resident key. The entry is inserted over itself in
      the resident table, which drops a reference it still needs. */
  function Restack(d: Dlirs, k: Key): Dlirs {
    var e := EntryOf(d, k);
    SetEntry(d, k, e.(rc := e.rc + 2 - 1, lost := e.lost + 1))
    .(res := PutBack(d.res, k), lirs := PutBack(d.lirs, k), nonRes := PutBack(d.nonRes, k))
  }

  /** `dlirs_hit_hir_in_resident_hirs`. */
  function HitResident(d: Dlirs, k: Key): Dlirs {
    LimitStack(Restack(Undemote(d, k), k))
  }

  /** `dlirs_get`: the new state, whether it is a hit, and the key evicted. */
  function Get(d: Dlirs, k: Key): (Dlirs, bool, Option<Key>) {
    if k in d.lirs then
      if EntryOf(d, k).isLir then (HitLir(d, k), true, None)
      else
        var (d1, ev) := HirInLirs(d, k);
        (d1, EntryOf(d, k).inCache, ev)
    else if k in d.res then (HitResident(d, k), true, None)
    else (d, false, None)
  }

  /** The entry of `k` makes way for a new one. If the caller holds it, it becomes a stray. */
  function Displace(d: Dlirs, k: Key): Dlirs {
    if EntryOf(d, k).handles == 0 then d else d.(strays := d.strays + [EntryOf(d, k)])
  }

  /** Insert a new LIR entry. */
  function AddLir(d: Dlirs, k: Key, v: Value): Dlirs {
    SetEntry(Displace(d, k), k, Entry(v, true, false, true, 1, 0, 0))
    .(lirs := PutBack(d.lirs, k), lirsCount := d.lirsCount + 1)
  }

  /** Insert a new resident HIR entry in all three tables. */
  function AddHir(d: Dlirs, k: Key, v: Value): Dlirs {
    SetEntry(Displace(d, k), k, Entry(v, false, false, true, 3, 0, 0))
    .(lirs := PutBack(d.lirs, k), nonRes := PutBack(d.nonRes, k), res := PutBack(d.res, k),
        hirsCount := d.hirsCount + 1)
  }

  /** `dlirs_request`: the new state and the key evicted. */
  function Request(d: Dlirs, k: Key, v: Value): (Dlirs, Option<Key>) {
    if d.lirsCount < d.lirsLimit && d.hirsCount == 0 then (AddLir(d, k, v), None)
    else
      var (d1, ev) := MakeRoom(d, None);
      (LimitStack(AddHir(d1, k, v)), ev)
  }

  /** The caller destroys an evicted reference. */
  function Release(d: Dlirs, k: Key): Dlirs {
    var e := EntryOf(d, k);
    if e.handles == 0 then d else SetEntry(d, k, e.(rc := e.rc - 1, handles := e.handles - 1))
  }

  /** The same for a reference to a stray. */
  function ReleaseStray(d: Dlirs, i: nat): Dlirs {
    if i >= |d.strays| || d.strays[i].handles == 0 then d
    else
      var e := d.strays[i];
      d.(strays := d.strays[i := e.(rc := e.rc - 1, handles := e.handles - 1)])
  }

  /** The HIR limit that `dlirs_create` derives from the configured ratio. */
  function InitialLimit(size: int, ratio: real): int {
    var r := Rint((size as real) * ratio + 0.5);
    if r > 1 then r else 1
  }

  /** `dlirs_create`. */
  function Create(size: int, hirsLimit: int): Dlirs {
    Dlirs(size, hirsLimit, size - hirsLimit, 0, 0, 0, 0, [], [], [], map[], [])
  }

  // ----- the loops end

  lemma DropShrinks(s: seq<Key>, k: Key)
    requires k in s
    ensures |Drop(s, k)| == |s| - 1
  {
    if s[0] != k {
      DropShrinks(s[1..], k);
    }
  }

  lemma DropNoLonger(s: seq<Key>, k: Key)
    ensures |Drop(s, k)| <= |s|
  {
  }

  lemma EvictionShrinks(d: Dlirs)
    requires d.res != []
    ensures |EvictResident(d).0.res| == |d.res| - 1 && EvictResident(d).0.lirs == d.lirs
  {
    DropShrinks(d.res, d.res[0]);
  }

  lemma {:induction false} PruneShrinks(d: Dlirs)
    ensures |Prune(d).lirs| <= |d.lirs| && Prune(d).res == d.res
    decreases |d.lirs|
  {
    if d.lirs != [] && !EntryOf(d, d.lirs[0]).isLir {
      PruneShrinks(Forget(d, d.lirs[0]));
    }
  }

  lemma EvictLirShrinks(d: Dlirs)
    requires d.lirs != []
    ensures |EvictLir(d).lirs| < |d.lirs|
    ensures |EvictLir(d).lirs| + |EvictLir(d).res| <= |d.lirs| + |d.res|
  {
    PruneShrinks(Demote(d, d.lirs[0]));
    DropNoLonger(d.res, d.lirs[0]);
  }

  lemma {:induction false} ShedLirsShrinks(d: Dlirs, keep: int)
    ensures var d1 := ShedLirs(d, keep); |d1.lirs| + |d1.res| <= |d.lirs| + |d.res|
    decreases |d.lirs|
  {
    if !(d.lirsCount <= keep || d.lirs == []) {
      EvictLirShrinks(d);
      ShedLirsShrinks(EvictLir(d), keep);
    }
  }
}
