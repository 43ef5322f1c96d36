/** Ordered maps: what the deque hash table is meant to be. A sequence of key-value pairs with
    distinct keys, oldest first. */
module OrderedMaps {
  import opened Probing

  type Pair = (Key, int)

  ghost predicate Unique(m: seq<Pair>) {
    forall i, j :: 0 <= i < j < |m| ==> m[i].0 != m[j].0
  }

  predicate Has(m: seq<Pair>, k: Key) {
    exists i :: 0 <= i < |m| && m[i].0 == k
  }

  /** The value of `k`, or the null pointer. */
  function Find(m: seq<Pair>, k: Key): int {
    if m == [] then 0 else if m[0].0 == k then m[0].1 else Find(m[1..], k)
  }

  function Without(m: seq<Pair>, k: Key): seq<Pair> {
    if m == [] then [] else if m[0].0 == k then m[1..] else [m[0]] + Without(m[1..], k)
  }

  /** Insertion replaces the value and moves the key to the back. */
  function PutLast(m: seq<Pair>, k: Key, v: int): seq<Pair> {
    Without(m, k) + [(k, v)]
  }

  function PutFirst(m: seq<Pair>, k: Key, v: int): seq<Pair> {
    [(k, v)] + Without(m, k)
  }

  lemma {:induction false} WithoutAbsent(m: seq<Pair>, k: Key)
    requires !Has(m, k)
    ensures Without(m, k) == m && Find(m, k) == 0
  {
    if m != [] {
      assert m[0].0 != k;
      assert !Has(m[1..], k) by {
        assert forall i :: 0 <= i < |m[1..]| ==> m[1..][i] == m[i + 1];
      }
      WithoutAbsent(m[1..], k);
    }
  }

  lemma {:induction false} WithoutAt(m: seq<Pair>, p: nat)
    requires Unique(m) && p < |m|
    ensures Without(m, m[p].0) == m[..p] + m[p + 1..] && Find(m, m[p].0) == m[p].1
  {
    if p > 0 {
      var t := m[1..];
      assert forall i :: 0 <= i < |t| ==> t[i] == m[i + 1];
      assert m[0].0 != m[p].0;
      WithoutAt(t, p - 1);
      assert m[..p] + m[p + 1..] == [m[0]] + (t[..p - 1] + t[p..]);
    }
  }

  lemma RemovedAt(m: seq<Pair>, p: nat)
    requires Unique(m) && p < |m|
    ensures var r := m[..p] + m[p + 1..];
            Unique(r) && !Has(r, m[p].0) && forall x :: x in r <==> x in m && x.0 != m[p].0
  {
    var r := m[..p] + m[p + 1..];
    assert forall i :: 0 <= i < |r| ==> r[i] == m[if i < p then i else i + 1];
    forall x | x in m && x.0 != m[p].0
      ensures x in r
    {
      var i :| 0 <= i < |m| && m[i] == x;
      assert r[if i < p then i else i - 1] == x;
    }
  }

  lemma WithoutUnique(m: seq<Pair>, k: Key)
    requires Unique(m)
    ensures Unique(Without(m, k)) && !Has(Without(m, k), k)
    ensures forall x :: x in Without(m, k) <==> x in m && x.0 != k
    ensures |Without(m, k)| == |m| - if Has(m, k) then 1 else 0
  {
    if Has(m, k) {
      var p :| 0 <= p < |m| && m[p].0 == k;
      WithoutAt(m, p);
      RemovedAt(m, p);
    } else {
      WithoutAbsent(m, k);
    }
  }
}
