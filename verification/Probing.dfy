/** Linear probing over the slots of the hash table. Keys of entries never change, so all of it
    is about the sequence of slots. */
module Probing {

  type Key = string

  /** `DQHTEntry`. The value 0 is the null pointer. */
  class Entry {
    const key: Key
    var ptr: int
    var index: int
    var prev: Entry?
    var next: Entry?

    constructor (k: Key, p: int)
      ensures key == k && ptr == p && index == 0 && prev == null && next == null
    {
      key, ptr, index, prev, next := k, p, 0, null, null;
    }
  }

  /** `hash % size`. */
  function Home(h: nat, n: nat): (r: nat)
    requires n >= 1
    ensures r < n
  {
    h % n
  }

  /** `(index + 1) % size`. */
  function Step(i: nat, n: nat): (r: nat)
    requires i < n
    ensures r == (if i + 1 == n then 0 else i + 1)
  {
    StepWraps(i, n);
    (i + 1) % n
  }

  lemma StepWraps(i: nat, n: nat)
    requires i < n
    ensures (i + 1) % n == if i + 1 == n then 0 else i + 1
  {
  }

  /** How many probe steps lead from `home` to slot `i`. */
  function Away(home: nat, i: nat, n: nat): (d: nat)
    requires home < n && i < n
    ensures d < n
  {
    if i >= home then i - home else i - home + n
  }

  /** The probe reaches every slot, each at its own distance, one step at a time. */
  lemma AwayFacts(home: nat, i: nat, j: nat, n: nat)
    requires home < n && i < n && j < n
    ensures Away(home, i, n) == Away(home, j, n) <==> i == j
    ensures Away(home, home, n) == 0
    ensures Away(home, Step(i, n), n) == if Away(home, i, n) + 1 == n then 0 else Away(home, i, n) + 1
  {
  }

  ghost predicate Holds(slots: seq<Entry?>, k: Key, i: int) {
    0 <= i < |slots| && slots[i] != null && slots[i].key == k
  }

  ghost predicate Absent(slots: seq<Entry?>, k: Key) {
    forall i :: 0 <= i < |slots| && slots[i] != null ==> slots[i].key != k
  }

  ghost predicate Distinct(slots: seq<Entry?>) {
    forall i, j :: 0 <= i < j < |slots| && slots[i] != null && slots[j] != null ==> slots[i].key != slots[j].key
  }

  /** Two slots hold `k`. */
  ghost predicate Doubled(slots: seq<Entry?>, k: Key) {
    exists i, j :: Holds(slots, k, i) && Holds(slots, k, j) && i < j
  }

  /** Every slot the probe visits before slot `j` is taken by another key. */
  ghost predicate Path(slots: seq<Entry?>, home: nat, k: Key, j: nat)
    requires home < |slots| && j < |slots|
  {
    forall i :: 0 <= i < |slots| && Away(home, i, |slots|) < Away(home, j, |slots|) ==>
                  slots[i] != null && slots[i].key != k
  }

  /** No probe path is interrupted: what a table without deletions looks like. */
  ghost predicate HoleFree(slots: seq<Entry?>, hash: Key -> nat)
    requires |slots| >= 1
  {
    forall j :: 0 <= j < |slots| && slots[j] != null ==>
                  Path(slots, Home(hash(slots[j].key), |slots|), slots[j].key, j)
  }

  lemma HoleFreeDistinct(slots: seq<Entry?>, hash: Key -> nat)
    requires |slots| >= 1 && HoleFree(slots, hash)
    ensures Distinct(slots)
  {
    forall i, j | 0 <= i < j < |slots| && slots[i] != null && slots[j] != null
      ensures slots[i].key != slots[j].key
    {
      AwayFacts(Home(hash(slots[i].key), |slots|), i, j, |slots|);
    }
  }

  /** Filling the first hole of the new key's path interrupts no path. */
  lemma FillKeepsHoleFree(slots: seq<Entry?>, hash: Key -> nat, p: nat, e: Entry)
    requires p < |slots| && HoleFree(slots, hash) && slots[p] == null
    requires Path(slots, Home(hash(e.key), |slots|), e.key, p) && Absent(slots, e.key)
    ensures HoleFree(slots[p := e], hash)
  {
    var s := slots[p := e];
    forall j | 0 <= j < |s| && s[j] != null
      ensures Path(s, Home(hash(s[j].key), |s|), s[j].key, j)
    {
      var home := Home(hash(s[j].key), |s|);
      if j != p {
        assert Path(slots, home, slots[j].key, j);
      }
      forall i | 0 <= i < |s| && Away(home, i, |s|) < Away(home, j, |s|)
        ensures s[i] != null && s[i].key != s[j].key
      {
        assert slots[i] != null || i == p;
      }
    }
  }

  // ----- how many slots are taken

  function Occupied(slots: seq<Entry?>): nat {
    if slots == [] then 0
    else Occupied(slots[..|slots| - 1]) + if slots[|slots| - 1] != null then 1 else 0
  }

  lemma {:induction false} OccupiedBound(slots: seq<Entry?>)
    ensures Occupied(slots) <= |slots|
    ensures Occupied(slots) < |slots| ==> exists i :: 0 <= i < |slots| && slots[i] == null
  {
    if slots != [] {
      OccupiedBound(slots[..|slots| - 1]);
    }
  }

  lemma {:induction false} OccupiedUpdate(slots: seq<Entry?>, p: nat, e: Entry?)
    requires p < |slots|
    ensures Occupied(slots[p := e]) ==
            Occupied(slots) + (if e != null then 1 else 0) - (if slots[p] != null then 1 else 0)
  {
    var n := |slots| - 1;
    var init := slots[..n];
    if p == n {
      assert slots[p := e][..n] == init;
    } else {
      OccupiedUpdate(init, p, e);
      assert slots[p := e][..n] == init[p := e];
    }
  }

  lemma OccupiedNext(slots: seq<Entry?>, i: nat)
    requires i < |slots|
    ensures Occupied(slots[..i + 1]) == Occupied(slots[..i]) + if slots[i] != null then 1 else 0
  {
    assert slots[..i + 1][..i] == slots[..i];
  }

  lemma {:induction false} OccupiedNone(slots: seq<Entry?>)
    requires forall i :: 0 <= i < |slots| ==> slots[i] == null
    ensures Occupied(slots) == 0
  {
    if slots != [] {
      OccupiedNone(slots[..|slots| - 1]);
    }
  }

  // ----- where an insertion stops

  /** An insertion finds the entry of `k`: the table is about to be rebuilt, or no hole precedes
      the entry on its probe path. */
  ghost predicate Found(slots: seq<Entry?>, count: nat, hash: Key -> nat, k: Key)
    requires |slots| >= 1
  {
    if count >= |slots| / 2 then !Absent(slots, k) else exists j :: Reached(slots, hash, k, j)
  }

  ghost predicate Reached(slots: seq<Entry?>, hash: Key -> nat, k: Key, j: int)
    requires |slots| >= 1
  {
    Holds(slots, k, j) && Path(slots, Home(hash(k), |slots|), k, j)
  }

  /** The first slot of the probe that is free or holds `k` is unique. */
  lemma StopUnique(slots: seq<Entry?>, home: nat, k: Key, i: nat, j: nat)
    requires home < |slots| && i < |slots| && j < |slots| && Path(slots, home, k, i) && Path(slots, home, k, j)
    requires slots[i] == null || slots[i].key == k
    requires slots[j] == null || slots[j].key == k
    ensures i == j
  {
    AwayFacts(home, i, j, |slots|);
  }
}
