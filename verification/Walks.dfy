/** Walking a heap from header to header, for both allocators. */
module Walks {

  /** `next` leads from each block to the next one, upwards to the sentinel at `end`, and no block
      begins inside another. */
  ghost predicate Ladder(next: map<int, int>, end: int) {
    && (forall a :: a in next ==> a < next[a] <= end && (next[a] == end || next[a] in next))
    && (forall a, b :: a in next && b in next && a < b ==> next[a] <= b)
  }

  /** The blocks visited from `a` up to the sentinel. */
  ghost function Walk(next: map<int, int>, end: int, a: int): seq<int>
    requires Ladder(next, end) && (a == end || a in next)
    decreases end - a
  {
    if a == end then [] else [a] + Walk(next, end, next[a])
  }

  /** The bytes from each block's header to the next one's, added up. */
  ghost function Bytes(next: map<int, int>, s: seq<int>): int
    requires forall i :: 0 <= i < |s| ==> s[i] in next
  {
    if s == [] then 0 else next[s[0]] - s[0] + Bytes(next, s[1..])
  }

  /** The walk meets every block once, in address order, and covers every byte. */
  lemma {:induction false} WalkTiles(next: map<int, int>, end: int, a: int)
    requires Ladder(next, end) && (a == end || a in next)
    ensures forall x :: x in Walk(next, end, a) <==> x in next && a <= x
    ensures forall i, j :: 0 <= i < j < |Walk(next, end, a)| ==> Walk(next, end, a)[i] < Walk(next, end, a)[j]
    ensures Bytes(next, Walk(next, end, a)) == end - a
    decreases end - a
  {
    if a != end {
      WalkTiles(next, end, next[a]);
      WalkStep(next, end, a);
    }
  }

  lemma WalkStep(next: map<int, int>, end: int, a: int)
    requires Ladder(next, end) && a in next && a != end
    requires forall x :: x in Walk(next, end, next[a]) <==> x in next && next[a] <= x
    requires forall i, j :: 0 <= i < j < |Walk(next, end, next[a])| ==>
               Walk(next, end, next[a])[i] < Walk(next, end, next[a])[j]
    ensures Walk(next, end, a) == [a] + Walk(next, end, next[a])
    ensures forall x :: x in Walk(next, end, a) <==> x in next && a <= x
    ensures forall i, j :: 0 <= i < j < |Walk(next, end, a)| ==> Walk(next, end, a)[i] < Walk(next, end, a)[j]
  {
    var t := Walk(next, end, next[a]);
    hide Walk;
    Prepended(a, t);
  }

  lemma Prepended(a: int, t: seq<int>)
    requires forall x :: x in t ==> a < x
    requires forall i, j :: 0 <= i < j < |t| ==> t[i] < t[j]
    ensures forall x :: x in [a] + t <==> x == a || x in t
    ensures forall i, j :: 0 <= i < j < |[a] + t| ==> ([a] + t)[i] < ([a] + t)[j]
  {
    var w := [a] + t;
    forall i, j | 0 <= i < j < |w|
      ensures w[i] < w[j]
    {
      assert w[j] == t[j - 1] && t[j - 1] in t;
      assert i > 0 ==> w[i] == t[i - 1];
    }
  }
}
