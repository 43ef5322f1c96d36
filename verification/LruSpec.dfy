/** The LRU policy on ordered maps, and what whole runs of it keep: the contents are the most
    recently touched keys. */
module LruSpec {
  import opened Basics
  import opened Probing
  import opened OrderedMaps

  // ----- the operations

  /** What is left of a full cache when it makes room. */
  function Room(m: seq<Pair>, cap: nat): seq<Pair> {
    if |m| >= cap && m != [] then m[1..] else m
  }

  /** `lru_request`: contents, return code and evicted value. */
  function Request(m: seq<Pair>, cap: nat, k: Key, v: int): (seq<Pair>, int, int) {
    if |m| >= cap && m == [] then (m, -1, 0)
    else
      var evicted := if |m| >= cap then m[0].1 else 0;
      if v == 0 then (Room(m, cap), -1, evicted)
      else (PutLast(Room(m, cap), k, v), if |m| >= cap then 1 else 0, evicted)
  }

  /** `lru_get`: contents and value. */
  function Get(m: seq<Pair>, k: Key): (seq<Pair>, int) {
    if Has(m, k) then (PutLast(m, k, Find(m, k)), Find(m, k)) else (m, 0)
  }

  /** `lru_evict`: contents, return code and evicted value. */
  function Evict(m: seq<Pair>): (seq<Pair>, int, int) {
    if m == [] then (m, -1, 0) else (m[1..], 0, m[0].1)
  }

  // ----- recency

  /** The distinct keys of a history of touches, least recently touched first, each with the
      value of its last touch. */
  function Recency(touched: seq<Pair>): seq<Pair> {
    if touched == [] then []
    else
      var (k, v) := touched[|touched| - 1];
      PutLast(Recency(touched[..|touched| - 1]), k, v)
  }

  /** The last touch of `k`, or -1. */
  function LastTouch(touched: seq<Pair>, k: Key): (i: int)
    ensures -1 <= i < |touched|
  {
    if touched == [] then -1
    else if touched[|touched| - 1].0 == k then |touched| - 1
    else LastTouch(touched[..|touched| - 1], k)
  }

  lemma {:induction false} LastTouchBound(touched: seq<Pair>, k: Key)
    ensures LastTouch(touched, k) >= 0 ==> touched[LastTouch(touched, k)].0 == k
    ensures forall i :: LastTouch(touched, k) < i < |touched| ==> touched[i].0 != k
  {
    if touched != [] {
      LastTouchBound(touched[..|touched| - 1], k);
    }
  }

  /** `x` is the last touch of its key. */
  ghost predicate Latest(touched: seq<Pair>, x: Pair) {
    LastTouch(touched, x.0) >= 0 && touched[LastTouch(touched, x.0)] == x
  }

  ghost predicate Before(touched: seq<Pair>, x: Pair, y: Pair) {
    LastTouch(touched, x.0) < LastTouch(touched, y.0)
  }

  /** `r` lists every key touched in the history once, with its last value, in the order of last
      touches. */
  ghost predicate Ordered(touched: seq<Pair>, r: seq<Pair>) {
    Sorted(touched, r) && forall k :: LastTouch(touched, k) >= 0 ==> Has(r, k)
  }

  ghost predicate Sorted(touched: seq<Pair>, r: seq<Pair>) {
    && (forall i :: 0 <= i < |r| ==> Latest(touched, r[i]))
    && (forall i, j :: 0 <= i < j < |r| ==> Before(touched, r[i], r[j]))
  }

  lemma {:induction false} RecencyOrder(touched: seq<Pair>)
    ensures Unique(Recency(touched)) && Ordered(touched, Recency(touched))
  {
    if touched != [] {
      var n := |touched| - 1;
      RecencyOrder(touched[..n]);
      TouchKeepsOrder(touched[..n], Recency(touched[..n]), touched[n].0, touched[n].1);
      assert touched[..n] + [touched[n]] == touched;
    }
  }

  lemma TouchKeepsOrder(h: seq<Pair>, r: seq<Pair>, k: Key, v: int)
    requires Unique(r) && Ordered(h, r)
    ensures Unique(PutLast(r, k, v)) && Ordered(h + [(k, v)], PutLast(r, k, v))
  {
    var w, t := Without(r, k), h + [(k, v)];
    var u := PutLast(r, k, v);
    WithoutUnique(r, k);
    WithoutKeepsOrder(h, r, k);
    hide Without, LastTouch, Latest, Before;
    TouchLast(h, k, v);
    forall i | 0 <= i < |w|
      ensures w[i].0 != k && Latest(t, w[i]) && Before(t, w[i], (k, v))
    {
      assert w[i] in w;
      TouchOther(h, k, v, w[i]);
    }
    forall i, j | 0 <= i < j < |w|
      ensures Before(t, w[i], w[j])
    {
      TouchOther(h, k, v, w[i]);
      TouchOther(h, k, v, w[j]);
      StillBefore(h, k, v, w[i], w[j]);
    }
    forall x | LastTouch(t, x) >= 0
      ensures Has(u, x)
    {
      TouchedListed(h, r, k, v, x);
    }
  }

  lemma TouchLast(h: seq<Pair>, k: Key, v: int)
    ensures Latest(h + [(k, v)], (k, v))
  {
  }

  lemma TouchOther(h: seq<Pair>, k: Key, v: int, x: Pair)
    requires x.0 != k && Latest(h, x)
    ensures Latest(h + [(k, v)], x) && Before(h + [(k, v)], x, (k, v))
  {
    assert (h + [(k, v)])[..|h|] == h;
  }

  lemma StillBefore(h: seq<Pair>, k: Key, v: int, x: Pair, y: Pair)
    requires x.0 != k && y.0 != k && Before(h, x, y)
    ensures Before(h + [(k, v)], x, y)
  {
    assert (h + [(k, v)])[..|h|] == h;
  }

  lemma TouchedListed(h: seq<Pair>, r: seq<Pair>, k: Key, v: int, x: Key)
    requires Unique(r) && Ordered(h, r) && LastTouch(h + [(k, v)], x) >= 0
    ensures Has(PutLast(r, k, v), x)
  {
    var w, u := Without(r, k), PutLast(r, k, v);
    assert (h + [(k, v)])[..|h|] == h;
    WithoutUnique(r, k);
    hide Without;
    assert u[|w|].0 == k;
    if x != k {
      assert LastTouch(h, x) >= 0;
      var i :| 0 <= i < |r| && r[i].0 == x;
      assert r[i] in w;
      var j :| 0 <= j < |w| && w[j] == r[i];
      assert u[j].0 == x;
    }
  }

  /** Removing a key keeps the others in order. */
  lemma WithoutKeepsOrder(h: seq<Pair>, r: seq<Pair>, k: Key)
    requires Unique(r) && Ordered(h, r)
    ensures Sorted(h, Without(r, k))
  {
    hide Without, Sorted;
    if Has(r, k) {
      var p :| 0 <= p < |r| && r[p].0 == k;
      WithoutAt(r, p);
      SortedRemoved(h, r, p);
    } else {
      WithoutAbsent(r, k);
    }
  }

  lemma SortedRemoved(h: seq<Pair>, r: seq<Pair>, p: nat)
    requires Sorted(h, r) && p < |r|
    ensures Sorted(h, r[..p] + r[p + 1..])
  {
    hide Latest, Before;
    var w := r[..p] + r[p + 1..];
    assert forall i :: 0 <= i < |w| ==> w[i] == r[if i < p then i else i + 1];
  }

  // ----- whole runs

  datatype Op = RequestOp(key: Key, value: int) | GetOp(key: Key) | EvictOp

  /** The contents of the cache, and the touches so far: requests and hits. */
  datatype Run = Run(m: seq<Pair>, touched: seq<Pair>)

  /** Requests bring a value and are for keys that are absent once room is made. */
  ghost predicate Legal(m: seq<Pair>, cap: nat, op: Op) {
    op.RequestOp? ==> op.value != 0 && !Has(Room(m, cap), op.key)
  }

  ghost function Step(r: Run, cap: nat, op: Op): Run {
    match op
    case RequestOp(k, v) => Run(Request(r.m, cap, k, v).0, r.touched + [(k, v)])
    case GetOp(k) => if Has(r.m, k) then Run(Get(r.m, k).0, r.touched + [(k, Find(r.m, k))]) else r
    case EvictOp => Run(Evict(r.m).0, r.touched)
  }

  ghost predicate Runs(r: Run, cap: nat, ops: seq<Op>, s: Run)
    decreases |ops|
  {
    if ops == [] then s == r else Legal(r.m, cap, ops[0]) && Runs(Step(r, cap, ops[0]), cap, ops[1..], s)
  }

  /** The last `n` elements. */
  function Last(s: seq<Pair>, n: nat): seq<Pair>
    requires n <= |s|
  {
    s[|s| - n..]
  }

  /** The contents are the most recently touched keys, at most `cap` of them. */
  ghost predicate Inv(r: Run, cap: nat) {
    |r.m| <= cap && |r.m| <= |Recency(r.touched)| && r.m == Last(Recency(r.touched), |r.m|)
  }

  /** Removing a key from a concatenation removes it from the first part that has it. */
  lemma {:induction false} WithoutSplit(a: seq<Pair>, b: seq<Pair>, k: Key)
    ensures Without(a + b, k) == if Has(a, k) then Without(a, k) + b else a + Without(b, k)
  {
    if a == [] {
      assert a + b == b;
    } else {
      var rest := a[1..];
      assert (a + b)[0] == a[0] && (a + b)[1..] == rest + b;
      if a[0].0 == k {
        assert Has(a, k);
      } else {
        WithoutSplit(rest, b, k);
        HasRest(a, k);
        assert [a[0]] + (Without(rest, k) + b) == ([a[0]] + Without(rest, k)) + b;
        assert [a[0]] + (rest + Without(b, k)) == a + Without(b, k);
      }
    }
  }

  lemma HasRest(a: seq<Pair>, k: Key)
    requires a != [] && a[0].0 != k
    ensures Has(a, k) <==> Has(a[1..], k)
  {
    if Has(a, k) {
      var i :| 0 <= i < |a| && a[i].0 == k;
      assert a[1..][i - 1].0 == k;
    }
  }

  lemma SuffixUnique(a: seq<Pair>, b: seq<Pair>, k: Key)
    requires Unique(a + b) && Has(b, k)
    ensures !Has(a, k)
  {
    var j :| 0 <= j < |b| && b[j].0 == k;
    assert (a + b)[|a| + j].0 == k;
    forall i | 0 <= i < |a|
      ensures a[i].0 != k
    {
      assert (a + b)[i] == a[i];
    }
  }

  /** Touching a key that is not among the last `n` adds it to them. */
  lemma TouchOutside(rec: seq<Pair>, n: nat, k: Key, v: int)
    requires n <= |rec| && !Has(Last(rec, n), k)
    ensures n + 1 <= |PutLast(rec, k, v)| && Last(PutLast(rec, k, v), n + 1) == Last(rec, n) + [(k, v)]
  {
    var a, b := rec[..|rec| - n], Last(rec, n);
    assert rec == a + b;
    WithoutSplit(a, b, k);
    WithoutAbsent(b, k);
    var front := if Has(a, k) then Without(a, k) else a;
    assert PutLast(rec, k, v) == front + (b + [(k, v)]);
  }

  /** Touching a key that is among the last `n` moves it to their end. */
  lemma TouchInside(rec: seq<Pair>, n: nat, k: Key, v: int)
    requires n <= |rec| && Unique(rec) && Has(Last(rec, n), k)
    ensures n <= |PutLast(rec, k, v)| && Last(PutLast(rec, k, v), n) == PutLast(Last(rec, n), k, v)
    ensures |PutLast(rec, k, v)| == |rec|
  {
    var a, b := rec[..|rec| - n], Last(rec, n);
    assert rec == a + b;
    SuffixUnique(a, b, k);
    WithoutSplit(a, b, k);
    SuffixIsUnique(rec, n);
    WithoutUnique(b, k);
    assert PutLast(rec, k, v) == a + PutLast(b, k, v);
  }

  lemma SuffixIsUnique(rec: seq<Pair>, n: nat)
    requires n <= |rec| && Unique(rec)
    ensures Unique(Last(rec, n))
  {
  }

  /** Every step keeps the contents equal to the most recently touched keys. */
  lemma StepKeeps(r: Run, cap: nat, op: Op)
    requires cap >= 1 && Inv(r, cap) && Legal(r.m, cap, op)
    ensures Inv(Step(r, cap, op), cap)
    ensures !op.EvictOp? && |r.m| == Min(cap, |Recency(r.touched)|) ==>
              |Step(r, cap, op).m| == Min(cap, |Recency(Step(r, cap, op).touched)|)
  {
    match op {
      case RequestOp(k, v) => RequestKeeps(r, cap, k, v);
      case GetOp(k) => GetKeeps(r, cap, k);
      case EvictOp =>
    }
  }

  /** A request leaves a well-formed cache with the requested key touched last; it evicts one
      entry exactly if the cache is full. */
  lemma RequestKeeps(r: Run, cap: nat, k: Key, v: int)
    requires cap >= 1 && Inv(r, cap) && v != 0 && !Has(Room(r.m, cap), k)
    ensures var s := Step(r, cap, RequestOp(k, v));
            Inv(s, cap) && |s.m| == Min(cap, |r.m| + 1)
            && (|r.m| == Min(cap, |Recency(r.touched)|) ==> |s.m| == Min(cap, |Recency(s.touched)|))
  {
    var rec, left := Recency(r.touched), Room(r.m, cap);
    RecencyOrder(r.touched);
    RecencyTouched(r.touched, k, v);
    hide Recency, Without, Has, Unique, Ordered;
    assert left == Last(rec, |left|);
    TouchOutside(rec, |left|, k, v);
    WithoutAbsent(left, k);
    WithoutUnique(rec, k);
    assert Request(r.m, cap, k, v).0 == left + [(k, v)];
    if |rec| < cap {
      assert |r.m| == |rec| ==> left == rec;
    }
  }

  lemma GetKeeps(r: Run, cap: nat, k: Key)
    requires Inv(r, cap)
    ensures var s := Step(r, cap, GetOp(k));
            Inv(s, cap) && |s.m| == |r.m| && |Recency(s.touched)| == |Recency(r.touched)|
  {
    hide Recency, Without, Has, Unique, Ordered, Find;
    var rec := Recency(r.touched);
    RecencyOrder(r.touched);
    if Has(r.m, k) {
      RecencyTouched(r.touched, k, Find(r.m, k));
      TouchInside(rec, |r.m|, k, Find(r.m, k));
      SuffixIsUnique(rec, |r.m|);
      WithoutUnique(r.m, k);
    }
  }

  lemma RecencyTouched(touched: seq<Pair>, k: Key, v: int)
    ensures Recency(touched + [(k, v)]) == PutLast(Recency(touched), k, v)
  {
    assert (touched + [(k, v)])[..|touched|] == touched;
  }

  /** Over every run from an empty cache, the contents are the most recently touched keys, at
      most `cap` of them; without explicit evictions, as many as there are touched keys. */
  lemma {:induction false} RunKeeps(r: Run, cap: nat, ops: seq<Op>, s: Run)
    requires cap >= 1 && Inv(r, cap) && Runs(r, cap, ops, s)
    ensures Inv(s, cap)
    ensures EvictOp !in ops && |r.m| == Min(cap, |Recency(r.touched)|) ==> |s.m| == Min(cap, |Recency(s.touched)|)
    decreases |ops|
  {
    hide Step, Recency, Legal, Inv;
    if ops != [] {
      StepKeeps(r, cap, ops[0]);
      RunKeeps(Step(r, cap, ops[0]), cap, ops[1..], s);
    }
  }

  /** The theorem in terms of touches: a cached key was touched later than every touched key that
      is not cached, and its value is that of its last touch. */
  lemma CachedAreLatest(s: Run, cap: nat, k: Key, other: Key)
    requires Inv(s, cap) && Has(s.m, k) && !Has(s.m, other)
    ensures LastTouch(s.touched, other) < LastTouch(s.touched, k) && s.touched[LastTouch(s.touched, k)] in s.m
  {
    var rec := Recency(s.touched);
    RecencyOrder(s.touched);
    var i :| 0 <= i < |s.m| && s.m[i].0 == k;
    assert Latest(s.touched, rec[|rec| - |s.m| + i]);
    if LastTouch(s.touched, other) >= 0 {
      var j :| 0 <= j < |rec| && rec[j].0 == other;
      hide Recency, Has, Unique, LastTouch;
      Earlier(rec, s.m, i, j);
      assert Before(s.touched, rec[j], rec[|rec| - |s.m| + i]);
    }
  }

  /** A position of `rec` whose key is not among its last ones comes before them. */
  lemma Earlier(rec: seq<Pair>, m: seq<Pair>, i: nat, j: nat)
    requires |m| <= |rec| && m == Last(rec, |m|) && i < |m| && j < |rec| && !Has(m, rec[j].0)
    ensures j < |rec| - |m| + i && rec[|rec| - |m| + i] == m[i]
  {
    var b := |rec| - |m|;
    assert forall q :: 0 <= q < |m| ==> m[q] == rec[b + q];
  }

  /** The entry that a full cache evicts is the least recently touched one. */
  lemma EvictedIsOldest(s: Run, cap: nat, k: Key)
    requires Inv(s, cap) && s.m != [] && Has(s.m, k) && k != s.m[0].0
    ensures LastTouch(s.touched, s.m[0].0) < LastTouch(s.touched, k)
    ensures Latest(s.touched, s.m[0])
  {
    var rec := Recency(s.touched);
    RecencyOrder(s.touched);
    hide Recency;
    var i :| 0 <= i < |s.m| && s.m[i].0 == k;
    var b := |rec| - |s.m|;
    assert s.m[0] == rec[b] && s.m[i] == rec[b + i];
    assert Before(s.touched, rec[b], rec[b + i]);
  }

  // ----- what the operations return

  /** A cached pair is what `Find` gives for its key. */
  lemma Cached(m: seq<Pair>, i: nat)
    requires Unique(m) && i < |m|
    ensures Has(m, m[i].0) && Find(m, m[i].0) == m[i].1
  {
    WithoutAt(m, i);
  }

  lemma ContentsUnique(r: Run, cap: nat)
    requires Inv(r, cap)
    ensures Unique(r.m) && forall i :: 0 <= i < |r.m| ==> Latest(r.touched, r.m[i])
  {
    var rec := Recency(r.touched);
    RecencyOrder(r.touched);
    hide Recency;
    forall i | 0 <= i < |r.m|
      ensures Latest(r.touched, r.m[i])
    {
      assert r.m[i] == rec[|rec| - |r.m| + i];
    }
  }

  /** A lookup returns the value of the last touch of a cached key, and null for any other. */
  lemma GetServes(r: Run, cap: nat, k: Key)
    requires Inv(r, cap)
    ensures var value := Get(r.m, k).1;
            if Has(r.m, k) then Latest(r.touched, (k, value)) else value == 0
  {
    ContentsUnique(r, cap);
    if Has(r.m, k) {
      var i :| 0 <= i < |r.m| && r.m[i].0 == k;
      Cached(r.m, i);
    }
  }

  /** `x` is the cached pair that was touched before all others. */
  ghost predicate Oldest(r: Run, x: Pair) {
    && Has(r.m, x.0) && Latest(r.touched, x)
    && forall k :: Has(r.m, k) && k != x.0 ==> LastTouch(r.touched, x.0) < LastTouch(r.touched, k)
  }

  /** The value that an eviction hands out is that of the least recently touched key, which is
      the one that goes; an empty cache reports failure. */
  lemma EvictReports(r: Run, cap: nat)
    requires Inv(r, cap)
    ensures var (m, code, value) := Evict(r.m);
            if r.m == [] then m == [] && code == -1 && value == 0
            else code == 0 && |m| == |r.m| - 1 && exists k :: Oldest(r, (k, value)) && !Has(m, k)
  {
    if r.m != [] {
      FrontIsOldest(r, cap);
      assert Oldest(r, (r.m[0].0, Evict(r.m).2));
    }
  }

  lemma FrontIsOldest(r: Run, cap: nat)
    requires Inv(r, cap) && r.m != []
    ensures Oldest(r, r.m[0]) && !Has(r.m[1..], r.m[0].0)
  {
    ContentsUnique(r, cap);
    assert r.m[0] == (r.m[0].0, r.m[0].1);
    assert Has(r.m, r.m[0].0);
    forall k | Has(r.m, k) && k != r.m[0].0
      ensures LastTouch(r.touched, r.m[0].0) < LastTouch(r.touched, k)
    {
      EvictedIsOldest(r, cap, k);
    }
  }

  /** A request reports 1 and the value of the least recently touched key if the cache is full, 0
      and nothing if it is not, and failure if it brings no value or there is no capacity. */
  lemma RequestReports(r: Run, cap: nat, k: Key, v: int)
    requires Inv(r, cap)
    ensures var (m, code, value) := Request(r.m, cap, k, v);
            && code == (if v == 0 || cap == 0 then -1 else if |r.m| == cap then 1 else 0)
            && (|r.m| == cap && cap > 0 ==> exists x :: Oldest(r, (x, value)) && (x == k || !Has(m, x)))
            && (|r.m| < cap || cap == 0 ==> value == 0)
            && (v == 0 ==> |m| == |r.m| - (if |r.m| == cap && cap > 0 then 1 else 0))
            && (v == 0 ==> forall x :: Has(m, x) ==> Has(r.m, x) && Find(m, x) == Find(r.m, x))
  {
    if |r.m| == cap && cap > 0 {
      FrontIsOldest(r, cap);
      ContentsUnique(r, cap);
      var value := Request(r.m, cap, k, v).2;
      assert Oldest(r, (r.m[0].0, value));
      AfterRoom(r.m, k, v);
    }
  }

  lemma AfterRoom(m: seq<Pair>, k: Key, v: int)
    requires m != [] && Unique(m)
    ensures m[0].0 == k || !Has(PutLast(m[1..], k, v), m[0].0)
    ensures forall x :: Has(m[1..], x) ==> Has(m, x) && Find(m[1..], x) == Find(m, x)
  {
    var rest := m[1..];
    WithoutUnique(rest, k);
    hide Without;
    forall x | Has(rest, x)
      ensures Has(m, x) && Find(rest, x) == Find(m, x)
    {
      var i :| 0 <= i < |rest| && rest[i].0 == x;
      assert m[i + 1].0 == x;
    }
  }

  // ----- the values that runs serve

  /** The requests of a run, in order. */
  function Requests(ops: seq<Op>): seq<Pair> {
    if ops == [] then []
    else (if ops[0].RequestOp? then [(ops[0].key, ops[0].value)] else []) + Requests(ops[1..])
  }

  /** Every cached pair is the last request for its key. */
  ghost predicate Requested(m: seq<Pair>, reqs: seq<Pair>) {
    forall i :: 0 <= i < |m| ==> Latest(reqs, m[i])
  }

  lemma NewRequested(m: seq<Pair>, k: Key, v: int, reqs: seq<Pair>)
    requires Requested(m, reqs) && !Has(m, k)
    ensures Requested(PutLast(m, k, v), reqs + [(k, v)])
  {
    hide Latest, Without;
    WithoutAbsent(m, k);
    TouchLast(reqs, k, v);
    forall i | 0 <= i < |m|
      ensures Latest(reqs + [(k, v)], m[i])
    {
      TouchOther(reqs, k, v, m[i]);
    }
  }

  lemma MovedRequested(m: seq<Pair>, k: Key, reqs: seq<Pair>)
    requires Requested(m, reqs) && Unique(m) && Has(m, k)
    ensures Requested(PutLast(m, k, Find(m, k)), reqs)
  {
    hide Latest, Without, Find;
    var i :| 0 <= i < |m| && m[i].0 == k;
    WithoutAt(m, i);
  }

  lemma StepRequested(r: Run, cap: nat, op: Op, reqs: seq<Pair>)
    requires cap >= 1 && Inv(r, cap) && Legal(r.m, cap, op) && Requested(r.m, reqs)
    ensures Requested(Step(r, cap, op).m, reqs + Requests([op]))
  {
    hide Latest, PutLast, Find, Has, Unique, Recency;
    ContentsUnique(r, cap);
    assert [op][1..] == [];
    assert Requests([op]) == if op.RequestOp? then [(op.key, op.value)] else [];
    assert reqs + [] == reqs;
    match op {
      case RequestOp(k, v) => NewRequested(Room(r.m, cap), k, v, reqs);
      case GetOp(k) =>
        if Has(r.m, k) {
          MovedRequested(r.m, k, reqs);
        }
      case EvictOp =>
    }
  }

  lemma {:induction false} RunRequested(r: Run, cap: nat, ops: seq<Op>, s: Run, reqs: seq<Pair>)
    requires cap >= 1 && Inv(r, cap) && Runs(r, cap, ops, s) && Requested(r.m, reqs)
    ensures Inv(s, cap) && Requested(s.m, reqs + Requests(ops))
    decreases |ops|
  {
    hide Step, Legal, Inv, Requested;
    if ops == [] {
      assert reqs + Requests(ops) == reqs;
    } else {
      StepKeeps(r, cap, ops[0]);
      StepRequested(r, cap, ops[0], reqs);
      RunRequested(Step(r, cap, ops[0]), cap, ops[1..], s, reqs + Requests([ops[0]]));
      RequestsSplit(ops);
      assert reqs + Requests([ops[0]]) + Requests(ops[1..]) == reqs + Requests(ops);
    }
  }

  lemma RequestsSplit(ops: seq<Op>)
    requires ops != []
    ensures Requests(ops) == Requests([ops[0]]) + Requests(ops[1..])
  {
    assert [ops[0]][1..] == [];
  }

  /** After any run from an empty cache, a lookup of a cached key returns the value of the last
      request for it, and null exactly if the key is not cached. */
  lemma RunServes(cap: nat, ops: seq<Op>, s: Run, k: Key)
    requires cap >= 1 && Runs(Run([], []), cap, ops, s)
    ensures var value := Get(s.m, k).1;
            if Has(s.m, k) then Latest(Requests(ops), (k, value)) else value == 0
  {
    assert Recency([]) == [];
    RunRequested(Run([], []), cap, ops, s, []);
    assert [] + Requests(ops) == Requests(ops);
    ContentsUnique(s, cap);
    if Has(s.m, k) {
      var i :| 0 <= i < |s.m| && s.m[i].0 == k;
      Cached(s.m, i);
    }
  }
}
