/** A deque hash table seen as an ordered table of keys, each with the address of its entry. It
    is one as long as every insertion is of an absent key. */
module KeyTables {
  import opened Basics
  import opened Seqs
  import opened Probing
  import opened HashTables
  import opened OrderedMaps
  import opened DequeTables

  ghost function Pairs(s: seq<Key>, address: Key -> int): (m: seq<Pair>)
    ensures |m| == |s| && forall i :: 0 <= i < |s| ==> m[i] == (s[i], address(s[i]))
  {
    if s == [] then [] else [(s[0], address(s[0]))] + Pairs(s[1..], address)
  }

  lemma {:induction false} PairsWithout(s: seq<Key>, address: Key -> int, k: Key)
    ensures Without(Pairs(s, address), k) == Pairs(Drop(s, k), address)
  {
    if s != [] {
      var m := Pairs(s, address);
      assert m[1..] == Pairs(s[1..], address);
      PairsWithout(s[1..], address, k);
    }
  }

  lemma PairsHave(s: seq<Key>, address: Key -> int, k: Key)
    ensures Has(Pairs(s, address), k) <==> k in s
  {
    var m := Pairs(s, address);
    if k in s {
      var i :| 0 <= i < |s| && s[i] == k;
      assert m[i].0 == k;
    }
  }

  lemma PairsEnds(s: seq<Key>, address: Key -> int, k: Key)
    ensures Pairs(s + [k], address) == Pairs(s, address) + [(k, address(k))]
    ensures s != [] ==> Pairs(s, address)[1..] == Pairs(s[1..], address)
  {
  }

  class KeyTable {
    const table: DequeTable
    const address: Key -> int
    const keyAt: int -> Key
    ghost var keys: seq<Key>
    ghost var Repr: set<object>

    /** The memory of the table is in `Repr`. */
    ghost predicate Enclosed()
      reads this, Repr
    {
      && this in Repr && table in Repr && table.ht in Repr && table.ht.items in Repr
      && (forall i :: 0 <= i < |table.list| ==> table.list[i] in Repr)
      && (forall i :: 0 <= i < table.ht.items.Length && table.ht.items[i] != null ==> table.ht.items[i] in Repr)
    }

    /** From head to tail the table has `keys`, with addresses that are not null and lead back to
        the key. */
    ghost predicate Valid()
      reads this, Repr
    {
      && Enclosed() && table.Valid() && table.Contents() == Pairs(keys, address)
      && (forall k {:trigger address(k)} :: address(k) != 0 && keyAt(address(k)) == k)
    }

    constructor (size: nat, hash: Key -> nat, addressOf: Key -> int, keyOf: int -> Key)
      requires size >= 1 && forall k {:trigger addressOf(k)} :: addressOf(k) != 0 && keyOf(addressOf(k)) == k
      ensures Valid() && this in Repr && fresh(Repr) && keys == []
    {
      hide DequeTable.Valid, HoleFree;
      var t := new DequeTable(size, hash);
      table, address, keyAt, keys := t, addressOf, keyOf, [];
      Repr := {this, t, t.ht, t.ht.items};
      new;
      SlotsListed();
    }

    /** Every entry of a slot is on the list. */
    lemma SlotsListed()
      requires table.Valid()
      ensures forall i :: 0 <= i < table.ht.items.Length && table.ht.items[i] != null ==>
                table.ht.items[i] in table.list
    {
    }

    /** `dqht_insert` of an absent key. */
    method Insert(k: Key)
      requires Valid() && k !in keys
      modifies Repr
      ensures Valid() && this in Repr && fresh(Repr - old(Repr)) && keys == old(keys) + [k]
    {
      hide DequeTable.Valid, DequeTable.Contents, Without, Has, Find, Found, HashTable.Sound, Doubled, HoleFree, Pairs;
      PairsHave(keys, address, k);
      PairsEnds(keys, address, k);
      AbsentUnchanged(table.Contents(), k);
      var rc, _ := table.Insert(k, address(k));
      SlotsListed();
      keys := keys + [k];
      Repr := Repr + {table.ht.items} + set e | e in table.list;
    }

    /** Inserting `k` keeps the table well formed: `k` is absent, or at the back and found. */
    ghost predicate Takes(k: Key)
      requires Valid()
      reads this, Repr
    {
      table.Accepts(k)
    }

    /** The tail has a successor, or two slots hold `k`. */
    ghost predicate Broken(k: Key)
      reads this, Repr
    {
      && table in Repr && table.ht in Repr && table.ht.items in Repr
      && table.tail != null && table.tail in Repr
      && (table.tail.next != null || Doubled(table.ht.items[..], k))
    }

    /** `dqht_insert` of any key. */
    method Refresh(k: Key)
      requires Valid()
      modifies Repr
      ensures this in Repr && fresh(Repr - old(Repr)) && keys == Drop(old(keys), k) + [k]
      ensures (Valid() <==> old(Takes(k))) && (Broken(k) <==> !old(Takes(k)))
    {
      hide DequeTable.Valid, DequeTable.Contents, Without, Has, Find, Found, HashTable.Sound, HoleFree, Pairs, Drop;
      hide Doubled;
      PairsWithout(keys, address, k);
      PairsEnds(Drop(keys, k), address, k);
      var rc, _ := table.Insert(k, address(k));
      if table.Valid() {
        SlotsListed();
        NotBroken(k);
      }
      keys := Drop(keys, k) + [k];
      Repr := Repr + {table.ht.items, table.tail} + set e | e in table.list;
    }

    lemma NotBroken(k: Key)
      requires table.Valid()
      ensures (table.tail != null ==> table.tail.next == null) && !Doubled(table.ht.items[..], k)
    {
      EndsOpen(table.list, table.head, table.tail);
    }

    /** `dqht_remove`. */
    method Remove(k: Key) returns (found: bool)
      requires Valid()
      modifies Repr
      ensures Valid() && Repr == old(Repr) && keys == Drop(old(keys), k) && (found <==> k in old(keys))
    {
      hide DequeTable.Valid, DequeTable.Contents, Without, Has, Find, HashTable.Sound, Drop, Pairs;
      PairsHave(keys, address, k);
      PairsWithout(keys, address, k);
      var rc, _ := table.Remove(k);
      SlotsListed();
      keys := Drop(keys, k);
      found := rc == 0;
    }

    /** `dqht_pop_front` of a table that is not empty: the key of the entry. */
    method PopFront() returns (front: Key)
      requires Valid() && keys != []
      modifies Repr
      ensures Valid() && Repr == old(Repr) && front == old(keys[0]) && keys == old(keys[1..])
    {
      hide DequeTable.Valid, Without, Has, Find, HashTable.Sound;
      PairsEnds(keys, address, keys[0]);
      var value := table.PopFront();
      SlotsListed();
      keys := keys[1..];
      front := keyAt(value);
    }

    /** `dqht_get`, for whether the key is there. */
    method Contains(k: Key) returns (found: bool)
      requires Valid()
      ensures found <==> k in keys
    {
      hide DequeTable.Valid, DequeTable.Contents, Pairs, Has, Find;
      PairsHave(keys, address, k);
      var value := table.Get(k);
      found := value != 0;
    }

    /** `dqht_get_front`. */
    method Front() returns (front: Option<Key>)
      requires Valid()
      ensures front == if keys == [] then None else Some(keys[0])
    {
      hide DequeTable.Valid, DequeTable.Contents;
      var value := table.GetFront();
      front := if value == 0 then None else Some(keyAt(value));
    }
  }
}
