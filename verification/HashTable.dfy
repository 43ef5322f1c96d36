/** The open-addressing hash table: insertion, growth, lookup and deletion in place. */
module HashTables {
  import opened Probing

  class HashTable {
    const hash: Key -> nat
    var count: nat
    var items: array<Entry?>

    /** Everything but the uniqueness of keys: at most half of the slots are taken, each entry
        knows its slot, and no entry has a null value. */
    ghost predicate Sound()
      reads this, items, items[..]
    {
      && items.Length >= 1 && count == Occupied(items[..]) && count <= items.Length / 2
      && (forall i :: 0 <= i < items.Length && items[i] != null ==> items[i].index == i && items[i].ptr != 0)
    }

    ghost predicate Valid()
      reads this, items, items[..]
    {
      Sound() && Distinct(items[..])
    }

    /** `ht_create`. */
    constructor (size: nat, hashFunction: Key -> nat)
      requires size >= 1
      ensures Valid() && fresh(items) && items.Length == size && count == 0 && hash == hashFunction
              && HoleFree(items[..], hash)
      ensures forall i :: 0 <= i < size ==> items[i] == null
    {
      hash, count := hashFunction, 0;
      items := new Entry?[size](_ => null);
      new;
      OccupiedNone(items[..]);
    }

    /** `ht_get`: exact, since the probe visits every slot. */
    method Get(k: Key) returns (e: Entry?)
      requires Valid()
      ensures e == null <==> Absent(items[..], k)
      ensures e != null ==> e.key == k && 0 <= e.index < items.Length && items[e.index] == e
    {
      var n := items.Length;
      var index := Home(hash(k), n);
      ghost var home := index;
      ghost var slots := items[..];
      hide Home, Step, Occupied, Distinct;
      for i := 0 to n
        invariant 0 <= index < n
        invariant i < n ==> Away(home, index, n) == i
        invariant forall j :: 0 <= j < n && Away(home, j, n) < i ==> !Holds(slots, k, j)
      {
        assert slots[index] == items[index];
        if items[index] != null && items[index].key == k {
          return items[index];
        }
        forall j | 0 <= j < n && Away(home, j, n) < i + 1
          ensures !Holds(slots, k, j)
        {
          AwayFacts(home, index, j, n);
        }
        AwayFacts(home, index, index, n);
        index := Step(index, n);
      }
      forall j | 0 <= j < n
        ensures slots[j] == null || slots[j].key != k
      {
        assert Away(home, j, n) < n && !Holds(slots, k, j);
      }
      return null;
    }

    /** The loop of `ht_insert`: stop at the first slot that is free or holds the key. */
    method Probe(k: Key) returns (index: nat)
      requires Sound()
      ensures index < items.Length && Path(items[..], Home(hash(k), items.Length), k, index)
      ensures items[index] == null || items[index].key == k
    {
      var n := items.Length;
      ghost var home := Home(hash(k), n);
      OccupiedBound(items[..]);
      var hole :| 0 <= hole < n && items[hole] == null;
      index := Home(hash(k), n);
      var i := 0;
      while i < n && items[index] != null
        invariant 0 <= i <= n && 0 <= index < n
        invariant if i < n then Away(home, index, n) == i else index == home
        invariant forall j :: 0 <= j < n && Away(home, j, n) < i ==> items[j] != null && items[j].key != k
        decreases n - i
      {
        if items[index].key == k {
          return;
        }
        forall j | 0 <= j < n && Away(home, j, n) < i + 1
          ensures items[j] != null && items[j].key != k
        {
          AwayFacts(home, index, j, n);
        }
        AwayFacts(home, index, home, n);
        index := Step(index, n);
        i := i + 1;
      }
      assert Away(home, hole, n) >= i;
    }

    /** `ht_resize_insert` on an array under construction: the entry goes to the first hole of
        its probe path, or the insertion fails on an equal key. */
    static method ResizeInsert(slots: array<Entry?>, e: Entry, home: nat) returns (rc: int)
      requires home < slots.Length && Occupied(slots[..]) < slots.Length
      modifies slots, e`index
      ensures rc == 0 || rc == -1
      ensures rc == -1 ==> slots[..] == old(slots[..]) && e.index == old(e.index) && !Absent(slots[..], e.key)
      ensures rc == 0 ==> 0 <= e.index < slots.Length && old(slots[..])[e.index] == null
      ensures rc == 0 ==> slots[..] == old(slots[..])[e.index := e] && Path(old(slots[..]), home, e.key, e.index)
    {
      var n := slots.Length;
      ghost var s := slots[..];
      OccupiedBound(s);
      ghost var hole :| 0 <= hole < n && s[hole] == null;
      hide Step, Occupied;
      var index := home;
      ghost var i := 0;
      while slots[index] != null
        invariant 0 <= i < n && 0 <= index < n && Away(home, index, n) == i <= Away(home, hole, n)
        invariant forall j :: 0 <= j < n && Away(home, j, n) < i ==> s[j] != null && s[j].key != e.key
        decreases n - i
        modifies {}
      {
        assert s[index] == slots[index];
        if slots[index].key == e.key {
          assert Holds(s, e.key, index);
          return -1;
        }
        forall j | 0 <= j < n && Away(home, j, n) < i + 1
          ensures s[j] != null && s[j].key != e.key
        {
          AwayFacts(home, index, j, n);
        }
        AwayFacts(home, index, hole, n);
        index := Step(index, n);
        i := i + 1;
      }
      assert s[index] == null && Path(s, home, e.key, index);
      slots[index] := e;
      e.index := index;
      assert slots[..] == s[index := e];
      return 0;
    }

    /** `ht_resize`: twice the slots, the same entries, and every probe path free of holes. */
    method Resize() returns (rc: int)
      requires Valid()
      modifies `items, items[..]`index
      ensures rc == 0 && Valid() && fresh(items) && items.Length == 2 * old(items.Length)
      ensures HoleFree(items[..], hash) && SameEntries(items[..], old(items[..]))
    {
      hide Home, Path, HoleFree, SameEntries, Occupied, Distinct;
      var newSize := items.Length * 2;
      var newItems := new Entry?[newSize](_ => null);
      ghost var was := items[..];
      EmptySlots(newItems[..], was, hash);
      for i := 0 to items.Length
        invariant items[..] == was && fresh(newItems) && newItems.Length == newSize
        invariant Occupied(newItems[..]) == Occupied(was[..i])
        invariant HoleFree(newItems[..], hash) && SameEntries(newItems[..], was[..i])
        invariant forall j :: 0 <= j < newSize && newItems[j] != null ==> newItems[j].index == j
      {
        OccupiedNext(was, i);
        if items[i] != null {
          var e := items[i];
          ghost var before := newItems[..];
          NotYetMoved(was, before, i);
          OccupiedBound(was[..i]);
          rc := ResizeInsert(newItems, e, Home(hash(e.key), newSize));
          if rc != 0 {
            return -1;
          }
          OccupiedUpdate(before, e.index, e);
          FillKeepsHoleFree(before, hash, e.index, e);
          MovedOne(was, before, i, e.index);
        } else {
          MovedNone(was, newItems[..], i);
        }
      }
      assert was[..items.Length] == was;
      HoleFreeDistinct(newItems[..], hash);
      forall j | 0 <= j < newSize && newItems[j] != null
        ensures newItems[j].ptr != 0
      {
        FromOld(newItems[..], was, j);
      }
      items := newItems;
      return 0;
    }

    /** The growth step of `ht_insert`: afterwards one more entry fits, and an insertion finds
        the entry of a key exactly as predicted before. */
    method Grow(ghost k: Key)
      requires Valid()
      modifies `items, items[..]`index
      ensures Valid() && count < items.Length / 2 && SameEntries(items[..], old(items[..]))
      ensures items == old(items) || fresh(items)
      ensures if old(count >= items.Length / 2) then items.Length == 2 * old(items.Length) else items == old(items)
      ensures old(Found(items[..], count, hash, k)) <==> exists j :: Reached(items[..], hash, k, j)
      ensures old(HoleFree(items[..], hash)) ==> HoleFree(items[..], hash)
    {
      hide Distinct, Occupied, Home, Path, Sound;
      ghost var was := items[..];
      Bounds();
      if count >= items.Length / 2 {
        var rc := Resize();
        Bounds();
        FoundAfterResize(was, items[..], hash, k);
      } else {
        SameSelf(was);
      }
    }

    lemma Bounds()
      requires Sound()
      ensures items.Length >= 1 && count <= items.Length / 2
    {
    }

    /** `ht_insert`: 1 if the probe found the key, whose value is replaced; 0 for a new entry,
        also when the key is in the table beyond a hole; -1 for a null value. */
    method Insert(k: Key, v: int) returns (rc: int, entry: Entry?, overridden: int)
      requires Valid()
      modifies this, items, items[..]`index, items[..]`ptr
      ensures v == 0 ==>
                rc == -1 && items == old(items) && items[..] == old(items[..]) && count == old(count) && Valid()
      ensures v == 0 ==> forall e :: e in items[..] && e != null ==> e.ptr == old(e.ptr)
      ensures v != 0 ==> Sound() && (items == old(items) || fresh(items))
      ensures v != 0 && old(count >= items.Length / 2) ==> items.Length == 2 * old(items.Length)
      ensures v != 0 && old(count < items.Length / 2) ==> items == old(items)
      ensures v != 0 ==> rc == if old(Found(items[..], count, hash, k)) then 1 else 0
      ensures v != 0 ==> entry != null && entry.key == k && entry.ptr == v && entry in items[..]
      ensures v != 0 ==> forall e :: e in old(items[..]) && e != null && e != entry ==> e.ptr == old(e.ptr)
      ensures rc == 1 ==> count == old(count) && Valid() && SameEntries(items[..], old(items[..]))
      ensures rc == 1 ==> entry in old(items[..]) && overridden == old(entry.ptr)
      ensures rc == 0 ==> fresh(entry) && entry.prev == null && entry.next == null && overridden == 0
      ensures rc == 0 ==> count == old(count) + 1 && SameEntries(items[..], old(items[..]) + [entry])
      ensures rc == 0 ==> (Valid() <==> old(Absent(items[..], k)))
      ensures rc == 0 && !old(Absent(items[..], k)) ==> Doubled(items[..], k)
      ensures old(HoleFree(items[..], hash)) ==> HoleFree(items[..], hash)
    {
      hide Distinct, Occupied, Home, Path, SameEntries, Found, Reached, Absent, HoleFree, Doubled;
      if v == 0 {
        return -1, null, 0;
      }
      ghost var was := items[..];
      Grow(k);
      var index := Probe(k);
      ghost var mid := items[..];
      StopDecides(mid, hash, k, index);
      if items[index] != null {
        EntryFromOld(mid, was, index);
        entry := items[index];
        overridden := Replace(entry, v);
        return 1, entry, overridden;
      }
      entry := Place(k, v, index);
      Placed(was, mid, index, entry);
      if HoleFree(mid, hash) {
        HoleFreeFinds(mid, hash, k);
        FillKeepsHoleFree(mid, hash, index, entry);
      }
      assert items[..][index] == entry;
      return 0, entry, 0;
    }

    /** Replace the value of an entry. */
    method Replace(entry: Entry, v: int) returns (overridden: int)
      requires Valid() && entry in items[..] && v != 0
      modifies entry`ptr
      ensures Valid() && entry.ptr == v && overridden == old(entry.ptr)
    {
      overridden := entry.ptr;
      entry.ptr := v;
    }

    /** `ht_delete_entry`: the value of the entry in the slot, or null if the slot is free. The
        slot becomes a hole. */
    method DeleteEntry(index: nat) returns (value: int)
      requires Valid() && index < items.Length
      modifies `count, items
      ensures Valid() && items[..] == old(items[..])[index := null]
      ensures value == if old(items[index]) == null then 0 else old(items[index].ptr)
      ensures count == old(count) - if old(items[index]) == null then 0 else 1
    {
      hide Occupied, Distinct;
      ghost var was := items[..];
      if items[index] == null {
        return 0;
      }
      Emptied(was, index);
      OccupiedUpdate(was, index, null);
      value := items[index].ptr;
      count := count - 1;
      items[index] := null;
      assert items[..] == was[index := null];
    }

    /** `ht_delete`: the value of the key, which is then absent, or null if it is absent. */
    method Delete(k: Key) returns (value: int)
      requires Valid()
      modifies `count, items
      ensures Valid() && (value == 0 <==> old(Absent(items[..], k))) && Absent(items[..], k)
      ensures forall i :: 0 <= i < items.Length ==>
                items[i] == if old(Holds(items[..], k, i)) then null else old(items[i])
      ensures forall i :: 0 <= i < items.Length && old(Holds(items[..], k, i)) ==> value == old(items[i].ptr)
    {
      hide Occupied, Absent;
      var e := Get(k);
      if e == null {
        StillThere(items[..], k);
        return 0;
      }
      ghost var was := items[..];
      OnlyHolder(was, k, e.index);
      value := DeleteEntry(e.index);
    }

    /** Put a new entry into the free slot at `index`. */
    method Place(k: Key, v: int, index: nat) returns (entry: Entry)
      requires Sound() && count < items.Length / 2 && index < items.Length && items[index] == null && v != 0
      modifies `count, items
      ensures Sound() && items[..] == old(items[..])[index := entry] && count == old(count) + 1
      ensures fresh(entry) && entry.key == k && entry.ptr == v && entry.index == index && entry.prev == null
              && entry.next == null
    {
      hide Occupied;
      ghost var was := items[..];
      entry := new Entry(k, v);
      items[index] := entry;
      entry.index := index;
      count := count + 1;
      OccupiedUpdate(was, index, entry);
      assert items[..] == was[index := entry];
    }
  }

  /** Emptying a slot removes its entry and nothing else. */
  lemma Emptied(s: seq<Entry?>, p: nat)
    requires p < |s| && Distinct(s)
    ensures Distinct(s[p := null])
    ensures forall i :: 0 <= i < |s| && i != p && s[i] != null ==> s[i] in s[p := null]
    ensures s[p] != null ==> Absent(s[p := null], s[p].key) && s[p] !in s[p := null]
  {
    var t := s[p := null];
    forall i | 0 <= i < |s| && i != p && s[i] != null
      ensures s[i] in t
    {
      assert t[i] == s[i];
    }
  }

  lemma StillThere(s: seq<Entry?>, k: Key)
    requires Absent(s, k)
    ensures forall i :: !Holds(s, k, i)
  {
  }

  lemma OnlyHolder(s: seq<Entry?>, k: Key, p: nat)
    requires Distinct(s) && Holds(s, k, p)
    ensures (forall i :: Holds(s, k, i) <==> i == p) && Absent(s[p := null], k)
  {
  }

  lemma EntryFromOld(s: seq<Entry?>, was: seq<Entry?>, j: nat)
    requires SameEntries(s, was) && j < |s| && s[j] != null
    ensures s[j] in was
  {
  }

  /** Where the probe stops decides whether the key is found. */
  lemma StopDecides(slots: seq<Entry?>, hash: Key -> nat, k: Key, p: nat)
    requires p < |slots| && Path(slots, Home(hash(k), |slots|), k, p) && (slots[p] == null || slots[p].key == k)
    ensures slots[p] != null <==> exists j :: Reached(slots, hash, k, j)
  {
    if slots[p] != null {
      assert Reached(slots, hash, k, p);
    }
    forall j | Reached(slots, hash, k, j)
      ensures slots[p] != null
    {
      StopUnique(slots, Home(hash(k), |slots|), k, p, j);
    }
  }

  /** Without holes, the probe finds every key of the table. */
  lemma HoleFreeFinds(slots: seq<Entry?>, hash: Key -> nat, k: Key)
    requires |slots| >= 1 && HoleFree(slots, hash)
    ensures !Absent(slots, k) <==> exists j :: Reached(slots, hash, k, j)
  {
    SameSelf(slots);
    FoundAfterResize(slots, slots, hash, k);
  }

  lemma FoundAfterResize(was: seq<Entry?>, slots: seq<Entry?>, hash: Key -> nat, k: Key)
    requires |slots| >= 1 && HoleFree(slots, hash) && SameEntries(slots, was)
    ensures !Absent(was, k) <==> exists j :: Reached(slots, hash, k, j)
  {
    AbsentBoth(slots, was, k);
    forall j | 0 <= j < |slots| && slots[j] != null && slots[j].key == k
      ensures Reached(slots, hash, k, j)
    {
      assert Holds(slots, k, j);
    }
    forall j | Reached(slots, hash, k, j)
      ensures !Absent(slots, k)
    {
      assert Holds(slots, k, j);
    }
  }

  lemma AbsentBoth(s: seq<Entry?>, t: seq<Entry?>, k: Key)
    requires SameEntries(s, t)
    ensures Absent(s, k) <==> Absent(t, k)
  {
  }

  /** A new entry in a free slot is added to the entries, and shares a key exactly if the key was
      there before. */
  lemma Placed(was: seq<Entry?>, mid: seq<Entry?>, p: nat, e: Entry)
    requires p < |mid| && mid[p] == null && SameEntries(mid, was) && Distinct(mid)
    ensures SameEntries(mid[p := e], was + [e])
    ensures Distinct(mid[p := e]) <==> Absent(was, e.key)
    ensures !Absent(was, e.key) ==> Doubled(mid[p := e], e.key)
  {
    var s, t := mid[p := e], was + [e];
    AbsentBoth(mid, was, e.key);
    if !Absent(was, e.key) {
      var q :| 0 <= q < |mid| && mid[q] != null && mid[q].key == e.key;
      assert Holds(s, e.key, p) && Holds(s, e.key, q);
    }
    assert s[p] == e && t[|was|] == e;
    forall i | 0 <= i < |mid| && mid[i] != null
      ensures s[i] == mid[i] && mid[i] in t
    {
      assert mid[i] in was;
    }
    forall i | 0 <= i < |t| && t[i] != null
      ensures t[i] in s
    {
      if i < |was| {
        assert was[i] in mid;
        var q :| 0 <= q < |mid| && mid[q] == was[i];
        assert s[q] == was[i];
      }
    }
  }

  lemma SameSelf(s: seq<Entry?>)
    ensures SameEntries(s, s)
  {
  }

  lemma EmptySlots(s: seq<Entry?>, was: seq<Entry?>, hash: Key -> nat)
    requires |s| >= 1 && forall i :: 0 <= i < |s| ==> s[i] == null
    ensures Occupied(s) == Occupied(was[..0]) && HoleFree(s, hash) && SameEntries(s, was[..0])
  {
    OccupiedNone(s);
  }

  lemma FromOld(s: seq<Entry?>, was: seq<Entry?>, j: nat)
    requires SameEntries(s, was) && j < |s| && s[j] != null
    ensures exists i :: 0 <= i < |was| && was[i] == s[j]
  {
  }

  /** The same entries, wherever they are. */
  ghost predicate SameEntries(s: seq<Entry?>, t: seq<Entry?>) {
    && (forall i :: 0 <= i < |s| && s[i] != null ==> s[i] in t)
    && (forall i :: 0 <= i < |t| && t[i] != null ==> t[i] in s)
  }

  lemma NotYetMoved(was: seq<Entry?>, moved: seq<Entry?>, i: nat)
    requires i < |was| && Distinct(was) && was[i] != null && SameEntries(moved, was[..i])
    ensures Absent(moved, was[i].key) && was[i] !in moved
  {
    forall j | 0 <= j < |moved| && moved[j] != null
      ensures moved[j].key != was[i].key
    {
      assert moved[j] in was[..i];
    }
  }

  lemma MovedOne(was: seq<Entry?>, moved: seq<Entry?>, i: nat, p: nat)
    requires i < |was| && p < |moved| && moved[p] == null && was[i] != null && SameEntries(moved, was[..i])
    ensures SameEntries(moved[p := was[i]], was[..i + 1])
  {
    var s, t := moved[p := was[i]], was[..i + 1];
    assert t == was[..i] + [was[i]];
    assert s[p] == was[i] && t[i] == was[i];
    forall j | 0 <= j < |t| && t[j] != null
      ensures t[j] in s
    {
      if j < i {
        assert was[..i][j] in moved;
        var q :| 0 <= q < |moved| && moved[q] == was[j];
        assert s[q] == was[j];
      }
    }
    forall j | 0 <= j < |s| && s[j] != null
      ensures s[j] in t
    {
      assert j != p ==> moved[j] in was[..i];
    }
  }

  lemma MovedNone(was: seq<Entry?>, moved: seq<Entry?>, i: nat)
    requires i < |was| && was[i] == null && SameEntries(moved, was[..i])
    ensures SameEntries(moved, was[..i + 1])
  {
    var t := was[..i + 1];
    assert t == was[..i] + [was[i]];
    forall j | 0 <= j < |t| && t[j] != null
      ensures t[j] in moved
    {
      assert was[..i][j] in moved;
    }
  }
}
