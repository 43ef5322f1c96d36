/** What the DLIRS operations leave alone on every state, well formed or not: values, lost
    references, and which keys are in the tables at all. */
module DlirsCarry {
  import opened Basics
  import opened Seqs
  import opened DlirsSpec
  import opened DlirsInvariant
  import opened DlirsOps

  /** `x` keeps its value and its lost references, and enters no table. */
  ghost predicate CarriedKey(d: Dlirs, f: Dlirs, x: Key) {
    && EntryOf(f, x).value == EntryOf(d, x).value && EntryOf(f, x).lost == EntryOf(d, x).lost
    && (Tracked(f, x) ==> Tracked(d, x))
  }

  ghost predicate Carried(d: Dlirs, f: Dlirs) {
    && f.strays == d.strays
    && forall x {:trigger CarriedKey(d, f, x)} :: CarriedKey(d, f, x)
  }

  lemma CarriedTrans(d: Dlirs, e: Dlirs, f: Dlirs)
    requires Carried(d, e) && Carried(e, f)
    ensures Carried(d, f)
  {
    forall x
      ensures CarriedKey(d, f, x)
    {
      assert CarriedKey(d, e, x) && CarriedKey(e, f, x);
    }
  }

  lemma CarriedSelf(d: Dlirs)
    ensures Carried(d, d)
  {
    forall x
      ensures CarriedKey(d, d, x)
    {
    }
  }

  lemma {:induction false} DropSubset(s: seq<Key>, k: Key, x: Key)
    requires x in Drop(s, k)
    ensures x in s
  {
    if s[0] != k && x != s[0] {
      DropSubset(s[1..], k, x);
    }
  }

  // ----- evictions

  lemma ForgetCarries(d: Dlirs, k: Key)
    ensures Carried(d, Forget(d, k)) && Forget(d, k).lirsCount == d.lirsCount && Forget(d, k).lirsLimit == d.lirsLimit
  {
    hide Drop;
    var f := Forget(d, k);
    forall x
      ensures CarriedKey(d, f, x)
    {
      if x in f.lirs {
        DropSubset(d.lirs, k, x);
      }
    }
  }

  lemma {:induction false} PruneCarries(d: Dlirs)
    ensures Carried(d, Prune(d)) && Prune(d).lirsCount == d.lirsCount && Prune(d).lirsLimit == d.lirsLimit
    decreases |d.lirs|
  {
    hide Forget, Carried;
    if d.lirs == [] || EntryOf(d, d.lirs[0]).isLir {
      CarriedSelf(d);
    } else {
      var e := Forget(d, d.lirs[0]);
      ForgetCarries(d, d.lirs[0]);
      ForgetShorter(d, d.lirs[0]);
      PruneCarries(e);
      CarriedTrans(d, e, Prune(e));
    }
  }

  lemma EvictLirCarries(d: Dlirs)
    ensures Carried(d, EvictLir(d))
  {
    hide Drop, Prune;
    if d.lirs == [] {
      CarriedSelf(d);
    } else {
      var k := d.lirs[0];
      var e := Demote(d, k);
      forall x
        ensures CarriedKey(d, e, x)
      {
        if x in e.lirs {
          DropSubset(d.lirs, k, x);
        }
        if x in Drop(d.res, k) {
          DropSubset(d.res, k, x);
        }
      }
      PruneCarries(e);
      CarriedTrans(d, e, Prune(e));
    }
  }

  lemma {:induction false} ShedLirsCarries(d: Dlirs, keep: int)
    ensures Carried(d, ShedLirs(d, keep))
    decreases |d.lirs|
  {
    hide EvictLir, Carried;
    if d.lirsCount <= keep || d.lirs == [] {
      CarriedSelf(d);
    } else {
      EvictLirShrinks(d);
      EvictLirCarries(d);
      ShedLirsCarries(EvictLir(d), keep);
      CarriedTrans(d, EvictLir(d), ShedLirs(d, keep));
    }
  }

  lemma EvictResidentCarries(d: Dlirs)
    ensures Carried(d, EvictResident(d).0)
  {
    hide Drop;
    var f := EvictResident(d).0;
    forall x
      ensures CarriedKey(d, f, x)
    {
      if d.res != [] && x in Drop(d.res, d.res[0]) {
        DropSubset(d.res, d.res[0], x);
      }
    }
  }

  lemma {:induction false} ShedResidentsCarries(d: Dlirs, evicted: Option<Key>)
    ensures Carried(d, ShedResidents(d, evicted).0)
    decreases |d.res|
  {
    hide EvictResident, Carried;
    if d.hirsCount + d.lirsCount < d.size || d.res == [] {
      CarriedSelf(d);
    } else {
      EvictionShrinks(d);
      EvictResidentCarries(d);
      var (e, ev) := EvictResident(d);
      ShedResidentsCarries(e, ev);
      CarriedTrans(d, e, ShedResidents(e, ev).0);
    }
  }

  lemma {:induction false} MakeRoomCarries(d: Dlirs, evicted: Option<Key>)
    ensures Carried(d, MakeRoom(d, evicted).0)
    decreases |d.lirs| + |d.res|
  {
    hide EvictResident, ShedLirs, Carried;
    if d.hirsCount + d.lirsCount < d.size {
      CarriedSelf(d);
    } else {
      var e := ShedLirs(d, d.lirsLimit);
      ShedLirsShrinks(d, d.lirsLimit);
      ShedLirsCarries(d, d.lirsLimit);
      if e.res != [] {
        EvictionShrinks(e);
        EvictResidentCarries(e);
        var (g, ev) := EvictResident(e);
        MakeRoomCarries(g, ev);
        CarriedTrans(d, e, g);
        CarriedTrans(d, g, MakeRoom(g, ev).0);
      }
    }
  }

  lemma {:induction false} ForgetOldestCarries(d: Dlirs, n: int)
    ensures var f := ForgetOldest(d, n);
            Carried(d, f) && SameFlags(d, f) && f.lirsCount == d.lirsCount && f.lirsLimit == d.lirsLimit
    decreases n
  {
    if n <= 0 || d.nonRes == [] {
      CarriedSelf(d);
    } else {
      var k := d.nonRes[0];
      var e := Forget(d, k);
      ForgetCarries(d, k);
      ForgetOnlyCounts(d, k);
      hide Forget, Carried;
      ForgetOldestCarries(e, n - 1);
      CarriedTrans(d, e, ForgetOldest(e, n - 1));
      FlagsTrans(d, e, ForgetOldest(e, n - 1));
    }
  }

  lemma ForgetOnlyCounts(d: Dlirs, k: Key)
    ensures SameFlags(d, Forget(d, k))
  {
    hide Drop;
  }

  lemma FlagsTrans(d: Dlirs, e: Dlirs, f: Dlirs)
    requires SameFlags(d, e) && SameFlags(e, f)
    ensures SameFlags(d, f)
  {
    forall x
      ensures EntryOf(f, x) == EntryOf(d, x).(rc := EntryOf(f, x).rc)
    {
      assert EntryOf(e, x) == EntryOf(d, x).(rc := EntryOf(e, x).rc);
    }
  }

  // ----- lookups and requests

  lemma PromoteTables(d: Dlirs, k: Key)
    ensures var f := Promote(d, k);
            f.lirs == Drop(d.lirs, k) && (f.res == d.res || f.res == Drop(d.res, k)) && f.strays == d.strays
  {
    hide Drop, Delta, Min, EntryOf;
  }

  lemma PromoteEntries(d: Dlirs, k: Key, x: Key)
    ensures EntryOf(Promote(d, k), x).value == EntryOf(d, x).value
            && EntryOf(Promote(d, k), x).lost == EntryOf(d, x).lost
  {
    hide Drop, Delta, Min;
  }

  lemma PromoteCarries(d: Dlirs, k: Key)
    ensures Carried(d, Promote(d, k))
  {
    hide Drop, Promote;
    var f := Promote(d, k);
    PromoteTables(d, k);
    forall x
      ensures CarriedKey(d, f, x)
    {
      PromoteEntries(d, k, x);
      if x in f.lirs {
        DropSubset(d.lirs, k, x);
      }
      if x in f.res && x !in d.res {
        DropSubset(d.res, k, x);
      }
    }
  }

  lemma HirInLirsCarries(d: Dlirs, k: Key)
    requires k in d.lirs
    ensures Carried(d, HirInLirs(d, k).0)
  {
    hide Promote, ShedLirs, ShedResidents, Drop;
    var d1 := Promote(d, k);
    PromoteCarries(d, k);
    var d2 := ShedLirs(d1, d1.lirsLimit - 1);
    ShedLirsCarries(d1, d1.lirsLimit - 1);
    ShedResidentsCarries(d2, None);
    var d3 := ShedResidents(d2, None).0;
    CarriedTrans(d, d1, d2);
    CarriedTrans(d, d2, d3);
    var f := HirInLirs(d, k).0;
    forall x
      ensures CarriedKey(d, f, x)
    {
      assert CarriedKey(d, d3, x);
      if x in f.lirs && x != k {
        DropSubset(d3.lirs, k, x);
      }
    }
  }

  lemma HitLirCarries(d: Dlirs, k: Key)
    requires k in d.lirs
    ensures var f := HitLir(d, k); Carried(d, f) && f.lirsCount == d.lirsCount && f.lirsLimit == d.lirsLimit
  {
    hide Drop, Prune;
    var d1 := d.(lirs := PutBack(d.lirs, k));
    forall x
      ensures CarriedKey(d, d1, x)
    {
      if x in d1.lirs && x != k {
        DropSubset(d.lirs, k, x);
      }
    }
    PruneCarries(d1);
    CarriedTrans(d, d1, Prune(d1));
  }

  /** A hit on a resident HIR entry outside the stack, which inserts the entry over itself. */
  ghost predicate Overrides(d: Dlirs, k: Key) {
    k in d.res && k !in d.lirs
  }

  /** How one key may change in a lookup of `k`. */
  ghost predicate LookedUp(d: Dlirs, f: Dlirs, k: Key, x: Key) {
    && EntryOf(f, x).value == EntryOf(d, x).value
    && EntryOf(f, x).lost == EntryOf(d, x).lost + (if x == k && Overrides(d, k) then 1 else 0)
    && (Tracked(f, x) ==> Tracked(d, x))
    && f.strays == d.strays
  }

  lemma HitResidentCarries(d: Dlirs, k: Key, x: Key)
    requires Overrides(d, k)
    ensures LookedUp(d, HitResident(d, k), k, x)
    ensures EntryOf(HitResident(d, k), x).handles == EntryOf(d, x).handles
  {
    hide Drop, Delta, Min, ForgetOldest, Carried;
    var d1 := Restack(Undemote(d, k), k);
    var n := d1.hirsCount + d1.lirsCount + d1.nonResident - 2 * d1.size;
    ForgetOldestCarries(d1, n);
    CarriedAt(d1, ForgetOldest(d1, n), x);
    assert EntryOf(ForgetOldest(d1, n), x).handles == EntryOf(d1, x).handles;
    if x in d1.lirs && x != k {
      DropSubset(d.lirs, k, x);
    }
    if x in d1.res && x != k {
      DropSubset(d.res, k, x);
    }
  }

  lemma CarriedAt(d: Dlirs, f: Dlirs, x: Key)
    requires Carried(d, f)
    ensures CarriedKey(d, f, x) && f.strays == d.strays
  {
    assert CarriedKey(d, f, x);
  }

  /** A lookup changes no value, loses a reference exactly by overriding, and brings no new key
      into the tables. */
  lemma GetCarries(d: Dlirs, k: Key, x: Key)
    ensures LookedUp(d, Get(d, k).0, k, x)
  {
    hide HirInLirs, HitLir, HitResident, Carried;
    if k in d.lirs {
      if EntryOf(d, k).isLir {
        HitLirCarries(d, k);
        CarriedAt(d, HitLir(d, k), x);
      } else {
        HirInLirsCarries(d, k);
        CarriedAt(d, HirInLirs(d, k).0, x);
      }
    } else if k in d.res {
      HitResidentCarries(d, k, x);
    }
  }

  /** A request stores its value under a new entry and leaves the other keys alone. The old entry
      of the key becomes a stray if the caller holds it once room is made. */
  lemma RequestCarries(d: Dlirs, k: Key, v: Value, x: Key)
    ensures var f := Request(d, k, v).0;
            && (x == k ==> EntryOf(f, x).value == v && EntryOf(f, x).lost == 0)
            && (x != k ==> CarriedKey(d, f, x))
            && f.strays == Displace(Room(d), k).strays && Room(d).strays == d.strays
            && CarriedKey(d, Room(d), k)
  {
    hide MakeRoom, ForgetOldest, Drop, Carried;
    if d.lirsCount < d.lirsLimit && d.hirsCount == 0 {
      CarriedSelf(d);
      CarriedAt(d, d, k);
      if x != k && x in PutBack(d.lirs, k) {
        DropSubset(d.lirs, k, x);
      }
    } else {
      var d1 := MakeRoom(d, None).0;
      MakeRoomCarries(d, None);
      CarriedAt(d, d1, x);
      CarriedAt(d, d1, k);
      var d2 := AddHir(d1, k, v);
      var n := d2.hirsCount + d2.lirsCount + d2.nonResident - 2 * d2.size;
      ForgetOldestCarries(d2, n);
      CarriedAt(d2, ForgetOldest(d2, n), x);
      if x != k && x in d2.lirs {
        DropSubset(d1.lirs, k, x);
      }
      if x != k && x in d2.res {
        DropSubset(d1.res, k, x);
      }
    }
  }

  // ----- exact reference counters

  /** Every counter is the number of tables and evicted handles that hold its entry, whether or
      not the entry is in a table. */
  ghost predicate CountsExact(d: Dlirs) {
    && (forall k {:trigger Holders(d, k)} :: EntryOf(d, k).rc == Holders(d, k) + EntryOf(d, k).handles)
    && (forall i :: 0 <= i < |d.strays| ==> d.strays[i].rc == d.strays[i].handles)
  }

  /** A table or the caller holds the entry of `k`. */
  ghost predicate Held(d: Dlirs, k: Key) {
    Tracked(d, k) || EntryOf(d, k).handles > 0
  }

  /** An entry is alive exactly while a table or the caller holds it: its counter is positive
      then, and zero otherwise. */
  ghost predicate AliveWhileHeld(d: Dlirs) {
    && (forall k {:trigger Held(d, k)} :: EntryOf(d, k).rc >= 0 && (EntryOf(d, k).rc > 0 <==> Held(d, k)))
    && (forall i :: 0 <= i < |d.strays| ==> d.strays[i].rc >= 0 && (d.strays[i].rc > 0 <==> d.strays[i].handles > 0))
  }

  lemma ExactAlive(d: Dlirs)
    requires Inv(d) && CountsExact(d)
    ensures AliveWhileHeld(d)
  {
    forall k
      ensures EntryOf(d, k).rc >= 0 && (EntryOf(d, k).rc > 0 <==> Held(d, k))
    {
      NonResMembers(d, k);
      assert EntryOf(d, k).rc == Holders(d, k) + EntryOf(d, k).handles;
    }
  }

  /** No reference of any entry is lost. */
  ghost predicate Lossless(d: Dlirs) {
    && (forall k {:trigger EntryOf(d, k)} :: EntryOf(d, k).lost == 0)
    && (forall i :: 0 <= i < |d.strays| ==> d.strays[i].lost == 0)
  }

  lemma ExactLossless(d: Dlirs)
    requires Settled(d)
    ensures CountsExact(d) <==> Lossless(d)
  {
    forall k
      ensures EntryOf(d, k).rc == Holders(d, k) + EntryOf(d, k).handles - EntryOf(d, k).lost
    {
      assert Balance(d, k) == 0;
    }
    if CountsExact(d) {
      forall k
        ensures EntryOf(d, k).lost == 0
      {
        assert EntryOf(d, k).rc == Holders(d, k) + EntryOf(d, k).handles;
      }
    }
  }
}
