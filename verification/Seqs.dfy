/** Facts about sequences without repetitions, shared by the free lists and the cache tables. */
module Seqs {

  ghost predicate NoDup<T>(s: seq<T>) {
    forall i, j :: 0 <= i < j < |s| ==> s[i] != s[j]
  }

  /** The sequence without the first occurrence of `x`. */
  function Drop<T(==)>(s: seq<T>, x: T): seq<T> {
    if s == [] then [] else if s[0] == x then s[1..] else [s[0]] + Drop(s[1..], x)
  }

  lemma {:induction false} DropAbsent<T>(s: seq<T>, x: T)
    requires x !in s
    ensures Drop(s, x) == s
  {
    if s != [] {
      DropAbsent(s[1..], x);
    }
  }

  /** Dropping the element at index `i` closes the gap and moves nothing else. */
  lemma {:induction false} DropAt<T>(s: seq<T>, i: nat)
    requires NoDup(s) && i < |s|
    ensures Drop(s, s[i]) == s[..i] + s[i + 1..]
  {
    if i > 0 {
      var t := s[1..];
      assert forall j, k :: 0 <= j < k < |t| ==> t[j] == s[j + 1] && t[k] == s[k + 1];
      DropAt(t, i - 1);
      assert s[..i] + s[i + 1..] == [s[0]] + (t[..i - 1] + t[i..]);
    }
  }

  lemma DropMembers<T>(s: seq<T>, x: T)
    requires NoDup(s)
    ensures NoDup(Drop(s, x))
    ensures forall y :: y in Drop(s, x) <==> y in s && y != x
    ensures |Drop(s, x)| == if x in s then |s| - 1 else |s|
  {
    if x in s {
      var i :| 0 <= i < |s| && s[i] == x;
      DropAt(s, i);
      hide Drop;
      GapMembers(s, i);
    } else {
      DropAbsent(s, x);
    }
  }

  lemma GapMembers<T>(s: seq<T>, i: nat)
    requires NoDup(s) && i < |s|
    ensures var r := s[..i] + s[i + 1..];
            NoDup(r) && forall y :: y in r <==> y in s && y != s[i]
  {
    var r := s[..i] + s[i + 1..];
    assert forall j :: 0 <= j < |r| ==> r[j] == s[if j < i then j else j + 1];
    forall y | y in s && y != s[i]
      ensures y in r
    {
      var j :| 0 <= j < |s| && s[j] == y;
      assert r[if j < i then j else j - 1] == y;
    }
  }

  lemma RemoveFirst<T>(s: seq<T>)
    requires s != []
    ensures s[..0] + s[1..] == s[1..]
  {
  }

  lemma RemoveLast<T>(s: seq<T>)
    requires s != []
    ensures s[..|s| - 1] + s[|s| - 1 + 1..] == s[..|s| - 1]
  {
  }

  lemma FirstTwoDiffer<T>(s: seq<T>)
    requires NoDup(s) && |s| >= 2
    ensures s[0] != s[1]
  {
  }

  lemma SingletonSeq<T>(s: seq<T>, x: T)
    requires NoDup(s) && x in s && forall i :: 0 <= i < |s| ==> s[i] == x
    ensures s == [x]
  {
    if |s| >= 2 {
      FirstTwoDiffer(s);
      assert false;
    }
  }
}
