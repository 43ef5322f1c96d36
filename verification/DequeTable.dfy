/** The hash table whose entries also form a doubly linked list from `head` to `tail`. */
module DequeTables {
  import opened Seqs
  import opened Probing
  import opened HashTables
  import opened OrderedMaps

  /** `list` is the doubly linked list from `head` to `tail`, `prev` mirroring `next`. */
  ghost predicate Chain(list: seq<Entry>, head: Entry?, tail: Entry?)
    reads list
  {
    && (forall i :: 0 <= i < |list| ==> Linked(list, i))
    && head == (if list == [] then null else list[0])
    && tail == (if list == [] then null else list[|list| - 1])
  }

  ghost predicate Linked(list: seq<Entry>, i: int)
    requires 0 <= i < |list|
    reads list
  {
    && list[i].prev == (if i == 0 then null else list[i - 1])
    && list[i].next == (if i == |list| - 1 then null else list[i + 1])
  }

  /** The list has each entry of the table once. */
  ghost predicate Lists(list: seq<Entry>, slots: seq<Entry?>) {
    && NoDup(list)
    && (forall i :: 0 <= i < |list| ==> list[i] in slots)
    && (forall i :: 0 <= i < |slots| && slots[i] != null ==> slots[i] in list)
  }

  class DequeTable {
    const ht: HashTable
    var head: Entry?
    var tail: Entry?
    ghost var list: seq<Entry>

    ghost predicate Valid()
      reads this, ht, ht.items, ht.items[..], list
    {
      && ht.Valid() && |list| == ht.count && Lists(list, ht.items[..])
      && Chain(list, head, tail)
    }

    /** The pairs from head to tail. */
    ghost function Contents(): (m: seq<Pair>)
      reads this, list
      ensures |m| == |list|
    {
      seq(|list|, i requires 0 <= i < |list| reads this, list => (list[i].key, list[i].ptr))
    }

    /** `dqht_create`. */
    constructor (size: nat, hash: Key -> nat)
      requires size >= 1
      ensures Valid() && fresh(ht) && fresh(ht.items) && list == [] && Contents() == [] && ht.hash == hash
              && HoleFree(ht.items[..], hash)
    {
      ht := new HashTable(size, hash);
      head, tail, list := null, null, [];
    }

    /** Keys of the ordered map are distinct, and no value is null. */
    lemma ContentsUnique()
      requires Valid()
      ensures Unique(Contents()) && forall i :: 0 <= i < |list| ==> list[i].ptr != 0
    {
      forall i, j | 0 <= i < j < |list|
        ensures list[i].key != list[j].key
      {
        assert list[i] in ht.items[..] && list[j] in ht.items[..] && list[i] != list[j];
      }
      forall i | 0 <= i < |list|
        ensures list[i].ptr != 0
      {
        assert list[i] in ht.items[..];
      }
    }

    lemma ContentsHas(k: Key)
      requires Valid()
      ensures Has(Contents(), k) <==> !Absent(ht.items[..], k)
    {
      var s := ht.items[..];
      if !Absent(s, k) {
        var j :| 0 <= j < |s| && s[j] != null && s[j].key == k;
        assert s[j] in list;
        var i :| 0 <= i < |list| && list[i] == s[j];
        assert Contents()[i].0 == k;
      }
      if Has(Contents(), k) {
        var i :| 0 <= i < |list| && Contents()[i].0 == k;
        assert list[i] in s;
      }
    }

    /** `dqht_get`: the value of the key, null exactly if it is absent. */
    method Get(k: Key) returns (value: int)
      requires Valid()
      ensures value == Find(Contents(), k) && (value == 0 <==> !Has(Contents(), k))
    {
      hide Absent, Distinct, Occupied;
      ContentsHas(k);
      ContentsUnique();
      var entry := ht.Get(k);
      if entry == null {
        WithoutAbsent(Contents(), k);
        return 0;
      }
      assert entry in ht.items[..];
      ghost var p :| 0 <= p < |list| && list[p] == entry;
      WithoutAt(Contents(), p);
      return entry.ptr;
    }

    /** `dqht_get_front`. */
    method GetFront() returns (value: int)
      requires Valid()
      ensures value == if Contents() == [] then 0 else Contents()[0].1
    {
      return if head == null then 0 else head.ptr;
    }

    /** `dqht_get_last`. */
    method GetLast() returns (value: int)
      requires Valid()
      ensures value == if Contents() == [] then 0 else Contents()[|Contents()| - 1].1
    {
      return if tail == null then 0 else tail.ptr;
    }

    /** `dqht_unlink`: the neighbours of the entry become neighbours. Its own links stay. */
    method Unlink(entry: Entry, ghost p: nat)
      requires NoDup(list) && Chain(list, head, tail) && p < |list| && list[p] == entry
      modifies `head, `tail, `list, list`prev, list`next
      ensures list == old(list[..p] + list[p + 1..]) && Chain(list, head, tail)
      ensures entry.prev == old(entry.prev) && entry.next == old(entry.next)
    {
      assert Linked(list, p);
      var before, after := entry.prev, entry.next;
      assert p > 0 ==> Linked(list, p - 1);
      assert p + 1 < |list| ==> Linked(list, p + 1);
      if before != null {
        before.next := after;
      } else {
        head := after;
      }
      if after != null {
        after.prev := before;
      } else {
        tail := before;
      }
      ghost var was := list;
      list := list[..p] + list[p + 1..];
      forall i | 0 <= i < |list|
        ensures Linked(list, i)
      {
        var j := if i < p then i else i + 1;
        assert old(Linked(was, j)) && list[i] == was[j];
        assert j != p - 1 && p > 0 ==> was[j] != was[p - 1];
        assert j != p + 1 && p + 1 < |was| ==> was[j] != was[p + 1];
      }
    }

    /** The end of `dqht_insert`: link an entry behind the tail. Its `next` is left as it is. */
    method LinkLast(entry: Entry)
      requires NoDup(list) && Chain(list, head, tail) && entry !in list
      modifies `head, `tail, `list, list`next, entry`prev
      ensures tail == entry && entry.next == old(entry.next) && list == old(list) + [entry]
      ensures old(entry.next) == null && (old(list) == [] ==> old(entry.prev) == null) ==> Chain(list, head, tail)
    {
      if tail != null {
        tail.next := entry;
        entry.prev := tail;
      } else {
        head := entry;
      }
      tail := entry;
      ghost var was := list;
      list := list + [entry];
      if entry.next == null && (was == [] ==> entry.prev == null) {
        forall i | 0 <= i < |list|
          ensures Linked(list, i)
        {
          assert i < |was| ==> old(Linked(was, i));
        }
      }
    }

    /** The end of `dqht_push_front`: link an entry before the head. Its `prev` is left as it is. */
    method LinkFirst(entry: Entry)
      requires NoDup(list) && Chain(list, head, tail) && entry !in list
      modifies `head, `tail, `list, list`prev, entry`next
      ensures head == entry && entry.prev == old(entry.prev) && list == [entry] + old(list)
      ensures old(entry.prev) == null && (old(list) == [] ==> old(entry.next) == null) ==> Chain(list, head, tail)
    {
      if head != null {
        head.prev := entry;
        entry.next := head;
      } else {
        tail := entry;
      }
      head := entry;
      ghost var was := list;
      list := [entry] + list;
      if entry.prev == null && (was == [] ==> entry.next == null) {
        forall i | 0 <= i < |list|
          ensures Linked(list, i)
        {
          assert i > 0 ==> old(Linked(was, i - 1));
        }
      }
    }

    /** Take out the entry at position `p`: unlink it and empty its slot. */
    method TakeOut(entry: Entry, ghost p: nat) returns (value: int)
      requires Valid() && p < |list| && list[p] == entry
      modifies this, ht`count, ht.items, list`prev, list`next
      ensures Valid() && list == old(list[..p] + list[p + 1..]) && value == old(entry.ptr) != 0
      ensures Contents() == old(Contents()[..p] + Contents()[p + 1..])
      ensures ht.items[..] == old(ht.items[..])[old(entry.index) := null]
    {
      hide Occupied, Distinct, Lists, Chain;
      AtItsSlot(p);
      ListsRemoved(list, ht.items[..], p, entry.index);
      Unlink(entry, p);
      value := ht.DeleteEntry(entry.index);
    }

    lemma AtItsSlot(p: nat)
      requires Valid() && p < |list|
      ensures 0 <= list[p].index < ht.items.Length && ht.items[list[p].index] == list[p] && list[p].ptr != 0
      ensures NoDup(list) && Distinct(ht.items[..])
    {
      assert list[p] in ht.items[..];
    }

    /** `dqht_remove`: 0 and the removed value, or 1 if the key is absent. */
    method Remove(k: Key) returns (rc: int, removed: int)
      requires Valid()
      modifies this, ht`count, ht.items, list`prev, list`next
      ensures Valid() && rc == (if Has(old(Contents()), k) then 0 else 1)
      ensures Contents() == Without(old(Contents()), k) && removed == Find(old(Contents()), k)
      ensures removed == 0 <==> !Has(old(Contents()), k)
      ensures forall i :: 0 <= i < |list| ==> list[i] in old(list)
      ensures forall i :: 0 <= i < ht.items.Length ==>
                            ht.items[i] == if old(Holds(ht.items[..], k, i)) then null else old(ht.items[i])
    {
      hide Absent, Distinct, Occupied, Lists, Chain;
      ContentsHas(k);
      ContentsUnique();
      var entry := ht.Get(k);
      if entry == null {
        WithoutAbsent(Contents(), k);
        StillThere(ht.items[..], k);
        return 1, 0;
      }
      ghost var p := Position(list, ht.items[..], entry);
      WithoutAt(Contents(), p);
      AtItsSlot(p);
      OnlyHolder(ht.items[..], k, entry.index);
      removed := TakeOut(entry, p);
      return 0, removed;
    }

    /** `dqht_pop_front`. */
    method PopFront() returns (value: int)
      requires Valid()
      modifies this, ht`count, ht.items, list`prev, list`next
      ensures Valid() && forall i :: 0 <= i < |list| ==> list[i] in old(list)
      ensures old(list) == [] ==> value == 0 && list == []
      ensures old(list) != [] ==> value == old(list[0].ptr) != 0 && list == old(list[1..])
      ensures old(list) != [] ==> Contents() == old(Contents())[1..]
      ensures old(list) != [] ==> ht.items[..] == old(ht.items[..])[old(list[0].index) := null]
    {
      hide Distinct, Lists, Chain, HashTable.Sound;
      Ends();
      if head == null {
        return 0;
      }
      ghost var was, m := list, Contents();
      RemoveFirst(was);
      RemoveFirst(m);
      AtItsSlot(0);
      value := TakeOut(head, 0);
      assert list == was[1..] && Contents() == m[1..];
    }

    /** `dqht_pop_last`. */
    method PopLast() returns (value: int)
      requires Valid()
      modifies this, ht`count, ht.items, list`prev, list`next
      ensures Valid() && forall i :: 0 <= i < |list| ==> list[i] in old(list)
      ensures old(list) == [] ==> value == 0 && list == []
      ensures old(list) != [] ==> value == old(list[|list| - 1].ptr) != 0 && list == old(list[..|list| - 1])
      ensures old(list) != [] ==> Contents() == old(Contents()[..|list| - 1])
    {
      hide Distinct, Lists, Chain, HashTable.Sound;
      Ends();
      if tail == null {
        return 0;
      }
      ghost var p := |list| - 1;
      RemoveLast(list);
      RemoveLast(Contents());
      value := TakeOut(tail, p);
    }

    /** What `ht_insert` means for the list. */
    method TableInsert(k: Key, v: int) returns (result: int, entry: Entry?, overridden: int, ghost p: nat)
      requires Valid()
      modifies ht, ht.items, list`index, list`ptr
      ensures Chain(list, head, tail) && ht.items.Length >= 1 && (ht.items == old(ht.items) || fresh(ht.items))
      ensures result == if v == 0 then -1 else if old(Found(ht.items[..], ht.count, ht.hash, k)) then 1 else 0
      ensures result == -1 ==> Valid() && AllBut(list, old(Contents()), |list|)
      ensures result != -1 ==> entry != null && entry.key == k && entry.ptr == v && AllBut(list, old(Contents()), p)
      ensures result == 1 ==> ht.Valid() && |list| == ht.count && Lists(list, ht.items[..])
      ensures result == 1 ==> p < |list| && list[p] == entry
      ensures result == 1 ==> overridden == old(Contents())[p].1
      ensures result == 0 ==> fresh(entry) && entry.prev == null && entry.next == null && overridden == 0 && p == |list|
      ensures result == 0 ==> ht.Sound() && |list| + 1 == ht.count && Added(list, entry, ht.items[..])
      ensures result == 0 ==> (ht.Valid() <==> !Has(old(Contents()), k))
      ensures result == 0 && Has(old(Contents()), k) ==> Doubled(ht.items[..], k)
      ensures old(HoleFree(ht.items[..], ht.hash)) ==> HoleFree(ht.items[..], ht.hash)
    {
      hide Absent, Distinct, Occupied, Lists, Found, SameEntries, Added, HoleFree, Doubled;
      ghost var was := ht.items[..];
      SlotsListed(list, was);
      ContentsHas(k);
      p := |list|;
      result, entry, overridden := ht.Insert(k, v);
      forall i | 0 <= i < |list|
        ensures Linked(list, i)
      {
        assert old(Linked(list, i));
      }
      if result == 1 {
        ListsSame(list, was, ht.items[..]);
        p := Position(list, ht.items[..], entry);
      } else if result == 0 {
        ListsAdded(list, was, ht.items[..], entry);
      }
    }

    /** Inserting `k` gives a well-formed table with `k` at the back: `k` is absent, or it is at
        the back already and the probe finds it. */
    ghost predicate Accepts(k: Key)
      requires ht.items.Length >= 1
      reads this, ht, ht.items, list
    {
      AcceptsLast(Contents(), ht.items[..], ht.count, ht.hash, k)
    }

    /** `dqht_insert`: an insertion into the ordered map exactly if the table accepts the key.
        Otherwise the tail gets a successor, if the probe found the key, or the table a second
        entry for it. A table that never had a hole keeps having none. */
    method Insert(k: Key, v: int) returns (rc: int, destroyed: int)
      requires Valid()
      modifies this, ht, ht.items, list
      ensures v == 0 ==> rc == -1 && Valid() && list == old(list) && Contents() == old(Contents())
      ensures v != 0 ==> rc == 0 && (Valid() <==> old(Accepts(k)))
      ensures v != 0 && old(Accepts(k)) ==>
                Contents() == PutLast(old(Contents()), k, v) && destroyed == Find(old(Contents()), k)
      ensures v != 0 && !old(Accepts(k)) ==>
                if old(Found(ht.items[..], ht.count, ht.hash, k)) then tail != null && tail.next != null
                else ht.Sound() && Doubled(ht.items[..], k)
      ensures ht.items.Length >= 1 && (ht.items == old(ht.items) || fresh(ht.items))
      ensures old(HoleFree(ht.items[..], ht.hash)) ==> HoleFree(ht.items[..], ht.hash)
      ensures forall i :: 0 <= i < |list| ==> list[i] in old(list) || fresh(list[i])
      ensures v != 0 ==> tail != null && (tail in old(list) || fresh(tail))
    {
      hide Distinct, Occupied, Lists, Found, Without, Chain, Added, AllBut, Unique, Has, Find, HashTable.Sound,
           HoleFree, Doubled;
      ghost var m := Contents();
      ContentsUnique();
      FoundHas(k);
      ghost var p;
      var result, entry, overridden;
      result, entry, overridden, p := TableInsert(k, v);
      if result == -1 {
        SameContents(m);
        return -1, 0;
      }
      if result == 1 {
        EndKeys(list, head, tail, m, p);
        WithoutAt(m, p);
        FinishFound(entry, p, m);
      } else {
        AbsentUnchanged(m, k);
        FinishNew(entry, m);
      }
      return 0, overridden;
    }

    lemma SameContents(m: seq<Pair>)
      requires AllBut(list, m, |list|)
      ensures Contents() == m
    {
    }

    lemma Ends()
      requires Valid()
      ensures (head == null <==> list == []) && (tail == null <==> list == [])
      ensures list != [] ==> head == list[0] && tail == list[|list| - 1]
    {
    }

    /** Without holes, an insertion finds every key of the table. */
    lemma FoundWithoutHoles(k: Key)
      requires Valid() && HoleFree(ht.items[..], ht.hash)
      ensures Found(ht.items[..], ht.count, ht.hash, k) <==> Has(Contents(), k)
    {
      HoleFreeFinds(ht.items[..], ht.hash, k);
      ContentsHas(k);
    }

    /** The home slot of two colliding keys that a table without holes has alone. */
    lemma TakenByEither(a: Key, b: Key, v: int)
      requires Valid() && HoleFree(ht.items[..], ht.hash) && Contents() == [(a, v), (b, v)]
      ensures ht.items.Length >= 4
      ensures var e := ht.items[Home(ht.hash(a), ht.items.Length)]; e != null && (e.key == a || e.key == b)
    {
      var slots, home := ht.items[..], Home(ht.hash(a), ht.items.Length);
      assert Contents()[0].0 == a;
      ContentsHas(a);
      HomeTaken(slots, ht.hash, a);
      assert Holds(slots, slots[home].key, home);
      ContentsHas(slots[home].key);
    }

    /** One key left, whose home slot is a hole: the table does not accept it. */
    lemma OneLeft(k: Key, v: int)
      requires Valid() && Contents() == [(k, v)] && ht.items.Length >= 4
      requires ht.items[Home(ht.hash(k), ht.items.Length)] == null
      ensures !Accepts(k) && !Found(ht.items[..], ht.count, ht.hash, k)
    {
      assert Contents()[0].0 == k;
      HoleHides(ht.items[..], ht.count, ht.hash, k);
    }

    lemma FoundHas(k: Key)
      requires Valid()
      ensures Found(ht.items[..], ht.count, ht.hash, k) ==> Has(Contents(), k)
    {
      FoundPresent(ht.items[..], ht.count, ht.hash, k);
      ContentsHas(k);
    }

    /** The end of `dqht_insert` for an entry that the probe found at position `p`. */
    method FinishFound(entry: Entry, ghost p: nat, ghost m: seq<Pair>)
      requires ht.Valid() && |list| == ht.count && Lists(list, ht.items[..]) && Chain(list, head, tail)
      requires p < |list| && list[p] == entry && AllBut(list, m, p)
      modifies `head, `tail, `list, list`prev, list`next
      ensures Valid() <==> p == |m| - 1
      ensures p == |m| - 1 ==> Contents() == m[..p] + [(entry.key, entry.ptr)]
      ensures p < |m| - 1 ==> tail != null && tail.next != null
      ensures forall i :: 0 <= i < |list| ==> list[i] in old(list)
      ensures tail == entry
    {
      hide Lists, Chain, Occupied, Distinct;
      SlotsListed(list, ht.items[..]);
      Relink(entry, p);
      if Chain(list, head, tail) {
        EndsOpen(list, head, tail);
      }
    }

    /** The end of `dqht_insert` for a new entry. */
    method FinishNew(entry: Entry, ghost m: seq<Pair>)
      requires ht.Sound() && |list| + 1 == ht.count && Added(list, entry, ht.items[..]) && Chain(list, head, tail)
      requires entry.prev == null && entry.next == null && AllBut(list, m, |m|)
      modifies `head, `tail, `list, list`next, entry`prev
      ensures (Valid() <==> old(ht.Valid())) && ht.Sound()
      ensures list == old(list) + [entry] && Contents() == m + [(entry.key, entry.ptr)]
      ensures tail == entry
    {
      hide Lists, Chain, Occupied, Distinct;
      LastIsNew(list, entry, ht.items[..]);
      LinkLast(entry);
    }

    /** Pushing `k` gives a well-formed table with `k` at the front: `k` is absent, or it is at the
        front already and the probe finds it. */
    ghost predicate AcceptsFirst(k: Key)
      requires ht.items.Length >= 1
      reads this, ht, ht.items, list
    {
      || !Has(Contents(), k)
      || (Found(ht.items[..], ht.count, ht.hash, k) && head != null && head.key == k)
    }

    /** `dqht_push_front`: an insertion at the front of the ordered map exactly if the table
        accepts the key there. Otherwise the head gets a predecessor or the table a second entry. */
    method PushFront(k: Key, v: int) returns (rc: int, destroyed: int)
      requires Valid()
      modifies this, ht, ht.items, list
      ensures v == 0 ==> rc == -1 && Valid() && list == old(list) && Contents() == old(Contents())
      ensures v != 0 ==> rc == 0 && (Valid() <==> old(AcceptsFirst(k)))
      ensures v != 0 && old(AcceptsFirst(k)) ==>
                Contents() == PutFirst(old(Contents()), k, v) && destroyed == Find(old(Contents()), k)
      ensures v != 0 && !old(AcceptsFirst(k)) ==>
                if old(Found(ht.items[..], ht.count, ht.hash, k)) then head != null && head.prev != null
                else ht.Sound() && Doubled(ht.items[..], k)
      ensures ht.items == old(ht.items) || fresh(ht.items)
      ensures forall i :: 0 <= i < |list| ==> list[i] in old(list) || fresh(list[i])
    {
      hide Distinct, Occupied, Lists, Found, Without, Chain, Added, AllBut, Unique, Has, Find, HashTable.Sound,
           HoleFree, Doubled;
      ghost var m := Contents();
      ContentsUnique();
      FoundHas(k);
      ghost var p;
      var result, entry, overridden;
      result, entry, overridden, p := TableInsert(k, v);
      if result == -1 {
        SameContents(m);
        return -1, 0;
      }
      if result == 1 {
        EndKeys(list, head, tail, m, p);
        WithoutAt(m, p);
        FinishFoundFirst(entry, p, m);
      } else {
        AbsentUnchanged(m, k);
        FinishNewFirst(entry, m);
      }
      return 0, overridden;
    }

    /** The end of `dqht_push_front` for an entry that the probe found at position `p`. */
    method FinishFoundFirst(entry: Entry, ghost p: nat, ghost m: seq<Pair>)
      requires ht.Valid() && |list| == ht.count && Lists(list, ht.items[..]) && Chain(list, head, tail)
      requires p < |list| && list[p] == entry && AllBut(list, m, p)
      modifies `head, `tail, `list, list`prev, list`next
      ensures Valid() <==> p == 0
      ensures p == 0 ==> Contents() == [(entry.key, entry.ptr)] + (m[..p] + m[p + 1..])
      ensures p > 0 ==> head != null && head.prev != null
      ensures forall i :: 0 <= i < |list| ==> list[i] in old(list)
    {
      hide Lists, Chain, Occupied, Distinct;
      SlotsListed(list, ht.items[..]);
      RelinkFirst(entry, p);
      if Chain(list, head, tail) {
        EndsOpen(list, head, tail);
      }
    }

    /** The end of `dqht_push_front` for a new entry. */
    method FinishNewFirst(entry: Entry, ghost m: seq<Pair>)
      requires ht.Sound() && |list| + 1 == ht.count && Added(list, entry, ht.items[..]) && Chain(list, head, tail)
      requires entry.prev == null && entry.next == null && AllBut(list, m, |m|)
      modifies `head, `tail, `list, list`prev, entry`next
      ensures (Valid() <==> old(ht.Valid())) && ht.Sound()
      ensures list == [entry] + old(list) && Contents() == [(entry.key, entry.ptr)] + m
    {
      hide Lists, Chain, Occupied, Distinct;
      LastIsNew(list, entry, ht.items[..]);
      LinkFirst(entry);
    }

    /** Relinking an entry before the head works only for the head itself. */
    method RelinkFirst(entry: Entry, ghost p: nat)
      requires NoDup(list) && Chain(list, head, tail) && p < |list| && list[p] == entry
      modifies `head, `tail, `list, list`prev, list`next
      ensures p == 0 ==> list == old(list) && Chain(list, head, tail)
      ensures p > 0 ==> head == entry && entry.prev != null
      ensures forall i :: 0 <= i < |list| ==> list[i] in old(list)
    {
      assert Linked(list, p);
      Unlink(entry, p);
      LinkFirst(entry);
    }

    /** Relinking an entry behind the tail works only for the tail itself. */
    method Relink(entry: Entry, ghost p: nat)
      requires NoDup(list) && Chain(list, head, tail) && p < |list| && list[p] == entry
      modifies `head, `tail, `list, list`prev, list`next
      ensures p == old(|list|) - 1 ==> list == old(list) && Chain(list, head, tail)
      ensures p < old(|list|) - 1 ==> tail == entry && entry.next != null
      ensures forall i :: 0 <= i < |list| ==> list[i] in old(list)
    {
      assert Linked(list, p);
      Unlink(entry, p);
      LinkLast(entry);
    }
  }

  /** The list with `e` at either end has each entry of the table once. */
  ghost predicate Added(list: seq<Entry>, e: Entry, slots: seq<Entry?>) {
    Lists(list + [e], slots) && Lists([e] + list, slots)
  }

  /** `m` lists the keys and values of `list`, except for the value at `p`. */
  ghost predicate AllBut(list: seq<Entry>, m: seq<Pair>, p: nat)
    reads list
  {
    |m| == |list| && forall i :: 0 <= i < |m| ==> m[i].0 == list[i].key && (i != p ==> m[i].1 == list[i].ptr)
  }

  lemma LastIsNew(list: seq<Entry>, e: Entry, slots: seq<Entry?>)
    requires Added(list, e, slots)
    ensures e !in list && NoDup(list)
  {
    var l := list + [e];
    assert forall i :: 0 <= i < |list| ==> l[i] == list[i] && l[i] != l[|list|];
  }

  lemma Position(list: seq<Entry>, slots: seq<Entry?>, e: Entry) returns (p: nat)
    requires Lists(list, slots) && e in slots
    ensures p < |list| && list[p] == e
  {
    p :| 0 <= p < |list| && list[p] == e;
  }

  lemma SlotsListed(list: seq<Entry>, slots: seq<Entry?>)
    requires Lists(list, slots)
    ensures forall i :: 0 <= i < |slots| && slots[i] != null ==> slots[i] in list
    ensures NoDup(list)
  {
  }

  /** `k` is absent, or it is at the back and an insertion finds it. */
  ghost predicate AcceptsLast(m: seq<Pair>, slots: seq<Entry?>, count: nat, hash: Key -> nat, k: Key)
    requires |slots| >= 1
  {
    !Has(m, k) || (Found(slots, count, hash, k) && m != [] && m[|m| - 1].0 == k)
  }

  lemma FoundPresent(slots: seq<Entry?>, count: nat, hash: Key -> nat, k: Key)
    requires |slots| >= 1
    ensures Found(slots, count, hash, k) ==> !Absent(slots, k)
  {
    if Found(slots, count, hash, k) && count < |slots| / 2 {
      var j :| Reached(slots, hash, k, j);
      assert Holds(slots, k, j);
    }
  }

  lemma ListsSame(list: seq<Entry>, was: seq<Entry?>, now: seq<Entry?>)
    requires Lists(list, was) && SameEntries(now, was)
    ensures Lists(list, now)
  {
    forall i | 0 <= i < |list|
      ensures list[i] in now
    {
      assert list[i] in was;
    }
  }

  lemma ListsAdded(list: seq<Entry>, was: seq<Entry?>, now: seq<Entry?>, e: Entry)
    requires Lists(list, was) && SameEntries(now, was + [e]) && e !in list
    ensures Added(list, e, now)
  {
    assert (was + [e])[|was|] == e;
    forall i | 0 <= i < |list|
      ensures list[i] in now
    {
      var j :| 0 <= j < |was| && was[j] == list[i];
      assert (was + [e])[j] == list[i];
    }
    forall i | 0 <= i < |now| && now[i] != null
      ensures now[i] == e || now[i] in list
    {
      assert now[i] in was + [e];
    }
  }

  lemma EndKeys(list: seq<Entry>, head: Entry?, tail: Entry?, m: seq<Pair>, p: nat)
    requires Chain(list, head, tail) && p < |list| && Unique(m) && AllBut(list, m, p)
    ensures |m| == |list| && m[p].0 == list[p].key && (m[|m| - 1].0 == list[p].key <==> p == |list| - 1)
    ensures head != null && (head.key == list[p].key <==> p == 0)
  {
    assert m[0].0 == head.key;
  }

  /** Whatever list is meant, its tail has no successor and its head no predecessor. */
  lemma EndsOpen(list: seq<Entry>, head: Entry?, tail: Entry?)
    requires Chain(list, head, tail)
    ensures tail != null ==> tail.next == null
    ensures head != null ==> head.prev == null
  {
    if list != [] {
      assert Linked(list, |list| - 1) && Linked(list, 0);
    }
  }

  lemma AbsentUnchanged(m: seq<Pair>, k: Key)
    ensures !Has(m, k) ==> Without(m, k) == m && Find(m, k) == 0
  {
    if !Has(m, k) {
      WithoutAbsent(m, k);
    }
  }

  /** Two keys are enough to break the list, for every hash function: inserting the older one
      again leaves the tail with a successor. */
  method RefreshBreaks(size: nat, hash: Key -> nat, a: Key, b: Key, v: int) returns (table: DequeTable)
    requires size >= 1 && a != b && v != 0
    ensures table.tail != null && table.tail.next != null
  {
    hide Lists, Chain, Found, HashTable.Sound, Distinct, Without, Find, HoleFree;
    table := new DequeTable(size, hash);
    AbsentUnchanged(table.Contents(), a);
    var rc, destroyed := table.Insert(a, v);
    assert table.Contents() == [(a, v)];
    AbsentUnchanged(table.Contents(), b);
    rc, destroyed := table.Insert(b, v);
    assert table.Contents() == [(a, v), (b, v)] && table.Contents()[0].0 == a;
    table.FoundWithoutHoles(a);
    rc, destroyed := table.Insert(a, v);
  }

  /** Without holes, the home slot of a key in the table is taken. */
  lemma HomeTaken(slots: seq<Entry?>, hash: Key -> nat, k: Key)
    requires |slots| >= 1 && HoleFree(slots, hash) && !Absent(slots, k)
    ensures slots[Home(hash(k), |slots|)] != null
  {
    var home := Home(hash(k), |slots|);
    var j :| 0 <= j < |slots| && slots[j] != null && slots[j].key == k;
    assert Path(slots, home, k, j);
    AwayFacts(home, home, j, |slots|);
  }

  /** A key whose home slot is a hole is not found. */
  lemma HoleHides(slots: seq<Entry?>, count: nat, hash: Key -> nat, k: Key)
    requires |slots| >= 1 && count < |slots| / 2 && slots[Home(hash(k), |slots|)] == null
    ensures !Found(slots, count, hash, k)
  {
    var home := Home(hash(k), |slots|);
    forall j
      ensures !Reached(slots, hash, k, j)
    {
      if Holds(slots, k, j) {
        AwayFacts(home, home, j, |slots|);
      }
    }
  }

  /** Two colliding keys are enough to get a key twice into the table: remove the one in their
      common home slot and insert the other again. */
  method HoleBreaks(size: nat, hash: Key -> nat, a: Key, b: Key, v: int) returns (table: DequeTable, k: Key)
    requires size >= 1 && a != b && hash(a) == hash(b) && v != 0
    ensures (k == a || k == b) && table.ht.Sound() && Doubled(table.ht.items[..], k)
  {
    hide Lists, Chain, Found, HashTable.Sound, Distinct, Without, Find, HoleFree, Doubled, Absent;
    table := new DequeTable(size, hash);
    AbsentUnchanged(table.Contents(), a);
    var rc, destroyed := table.Insert(a, v);
    assert table.Contents() == [(a, v)];
    AbsentUnchanged(table.Contents(), b);
    rc, destroyed := table.Insert(b, v);
    assert table.Contents() == [(a, v), (b, v)];
    var home := Home(hash(a), table.ht.items.Length);
    table.TakenByEither(a, b, v);
    var gone;
    gone, k := if table.ht.items[home].key == a then a else b, if table.ht.items[home].key == a then b else a;
    RestOfPair(a, b, v, gone, k);
    rc, destroyed := table.Remove(gone);
    table.OneLeft(k, v);
    rc, destroyed := table.Insert(k, v);
  }

  lemma RestOfPair(a: Key, b: Key, v: int, gone: Key, k: Key)
    requires a != b && ((gone == a && k == b) || (gone == b && k == a))
    ensures Without([(a, v), (b, v)], gone) == [(k, v)]
  {
    WithoutAt([(a, v), (b, v)], if gone == a then 0 else 1);
  }

  lemma ListsRemoved(list: seq<Entry>, slots: seq<Entry?>, p: nat, i: nat)
    requires Lists(list, slots) && p < |list| && i < |slots| && slots[i] == list[p] && Distinct(slots)
    ensures Lists(list[..p] + list[p + 1..], slots[i := null])
  {
    var r, s := list[..p] + list[p + 1..], slots[i := null];
    assert forall j :: 0 <= j < |r| ==> r[j] == list[if j < p then j else j + 1];
    forall j | 0 <= j < |r|
      ensures r[j] in s
    {
      assert r[j] in slots && r[j] != list[p];
      var q :| 0 <= q < |slots| && slots[q] == r[j];
      assert s[q] == r[j];
    }
    forall j | 0 <= j < |s| && s[j] != null
      ensures s[j] in r
    {
      assert slots[j] in list && slots[j] != list[p];
      var q :| 0 <= q < |list| && list[q] == slots[j];
      assert r[if q < p then q else q - 1] == slots[j];
    }
  }
}
