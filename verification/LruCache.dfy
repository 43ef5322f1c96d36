/** The LRU cache on the deque hash table. */
module LruCaches {
  import opened Probing
  import opened HashTables
  import opened OrderedMaps
  import opened DequeTables
  import LruSpec

  class LruCache {
    const cacheSize: nat
    const dqht: DequeTable

    /** `lru_create`. */
    constructor (tableSize: nat, capacity: nat, hash: Key -> nat)
      requires tableSize >= 1
      ensures dqht.Valid() && fresh(dqht) && fresh(dqht.ht) && fresh(dqht.ht.items) && dqht.Contents() == []
              && cacheSize == capacity
    {
      cacheSize := capacity;
      dqht := new DequeTable(tableSize, hash);
    }

    /** `lru_contains`. */
    method Contains(k: Key) returns (found: bool)
      requires dqht.Valid()
      ensures found <==> Has(dqht.Contents(), k)
    {
      var value := dqht.Get(k);
      found := value != 0;
    }

    /** `lru_is_full`. */
    method IsFull() returns (full: bool)
      requires dqht.Valid()
      ensures full <==> |dqht.Contents()| >= cacheSize
    {
      full := dqht.ht.count >= cacheSize;
    }

    /** A request leaves a well-formed cache: nothing is inserted, or the table accepts the key
        once room is made. Making room may open a hole on the key's probe path. */
    ghost predicate Takes(k: Key, v: int)
      requires dqht.Valid()
      reads dqht, dqht.ht, dqht.ht.items, dqht.ht.items[..], dqht.list
    {
      var m, slots := dqht.Contents(), dqht.ht.items[..];
      || v == 0
      || (if |m| < cacheSize then AcceptsLast(m, slots, dqht.ht.count, dqht.ht.hash, k)
          else m == [] || AcceptsLast(m[1..], FrontEmptied(), dqht.ht.count - 1, dqht.ht.hash, k))
    }

    /** The slots without the entry at the front. */
    ghost function FrontEmptied(): (slots: seq<Entry?>)
      requires dqht.Valid() && dqht.list != []
      reads dqht, dqht.ht, dqht.ht.items, dqht.ht.items[..], dqht.list
      ensures |slots| == dqht.ht.items.Length
    {
      dqht.AtItsSlot(0);
      dqht.ht.items[..][dqht.list[0].index := null]
    }

    /** A request that the policy allows is taken. */
    lemma LegalTakes(k: Key, v: int)
      requires dqht.Valid() && LruSpec.Legal(dqht.Contents(), cacheSize, LruSpec.RequestOp(k, v))
      ensures Takes(k, v)
    {
    }

    /** `lru_request`: follows the policy exactly if the table takes the key. Otherwise the table
        has two entries for the key or its tail a successor. */
    method Request(k: Key, v: int) returns (rc: int, evicted: int)
      requires dqht.Valid()
      modifies dqht, dqht.ht, dqht.ht.items, dqht.list
      ensures dqht.Valid() <==> old(Takes(k, v))
      ensures var (m, code, out) := LruSpec.Request(old(dqht.Contents()), cacheSize, k, v);
              rc == code && evicted == out && (old(Takes(k, v)) ==> dqht.Contents() == m)
      ensures !old(Takes(k, v)) ==>
                || (dqht.ht.Sound() && Doubled(dqht.ht.items[..], k))
                || (dqht.tail != null && dqht.tail.next != null)
      ensures dqht.ht.items == old(dqht.ht.items) || fresh(dqht.ht.items)
      ensures forall i :: 0 <= i < |dqht.list| ==> dqht.list[i] in old(dqht.list) || fresh(dqht.list[i])
    {
      hide HashTable.Sound, Distinct, Lists, Chain, Found, Without, AcceptsLast, Doubled;
      evicted := 0;
      var code := 0;
      if dqht.ht.count >= cacheSize {
        evicted := dqht.PopFront();
        if evicted == 0 {
          return -1, 0;
        }
        code := 1;
      }
      var inserted, _ := dqht.Insert(k, v);
      rc := if inserted == 0 then code else -1;
    }

    /** `lru_get`: the value of the key, which becomes the most recently used. */
    method Get(k: Key) returns (value: int)
      requires dqht.Valid()
      modifies dqht, dqht.ht, dqht.ht.items, dqht.list
      ensures dqht.Valid() && (dqht.Contents(), value) == LruSpec.Get(old(dqht.Contents()), k)
      ensures value == Find(old(dqht.Contents()), k) && (value == 0 <==> !Has(old(dqht.Contents()), k))
      ensures dqht.ht.items == old(dqht.ht.items) || fresh(dqht.ht.items)
      ensures forall i :: 0 <= i < |dqht.list| ==> dqht.list[i] in old(dqht.list) || fresh(dqht.list[i])
    {
      hide HashTable.Sound, Distinct, Lists, Chain, Found, Without, Find, Has, Unique;
      ghost var m := dqht.Contents();
      dqht.ContentsUnique();
      WithoutUnique(m, k);
      AbsentUnchanged(m, k);
      var rc, entry := dqht.Remove(k);
      if rc != 0 {
        return 0;
      }
      AbsentUnchanged(Without(m, k), k);
      var inserted, _ := dqht.Insert(k, entry);
      return if inserted == 0 then entry else 0;
    }

    /** `lru_evict`. */
    method Evict() returns (rc: int, evicted: int)
      requires dqht.Valid()
      modifies dqht, dqht.ht, dqht.ht.items, dqht.list
      ensures dqht.Valid() && (dqht.Contents(), rc, evicted) == LruSpec.Evict(old(dqht.Contents()))
      ensures dqht.ht.items == old(dqht.ht.items) || fresh(dqht.ht.items)
      ensures forall i :: 0 <= i < |dqht.list| ==> dqht.list[i] in old(dqht.list) || fresh(dqht.list[i])
    {
      hide HashTable.Sound, Distinct, Lists, Chain;
      evicted := dqht.PopFront();
      rc := if evicted != 0 then 0 else -1;
    }
  }
}
