/** What the DLIRS operations do to the order of the stack, and how far the limits move. */
module DlirsRecency {
  import opened Basics
  import opened Seqs
  import opened DlirsSpec
  import opened DlirsInvariant
  import opened DlirsOps
  import opened DlirsRuns
  import opened DlirsCarry
  import opened DlirsCache

  // ----- limits

  /** `rint` rounds to a nearest integer, and to the even one of two. */
  lemma RintNearest(x: real)
    ensures x - 0.5 <= Rint(x) as real <= x + 0.5
    ensures x - 0.5 == Rint(x) as real || x + 0.5 == Rint(x) as real ==> Rint(x) % 2 == 0
  {
    var f := x.Floor;
    assert f as real <= x < f as real + 1.0;
  }

  /** A resize moves the favoured limit by at least one, by at least the ratio of the two
      counters, and, beyond one, by at most one more than the ratio. */
  lemma DeltaBounds(a: nat, b: nat)
    requires b > 0
    ensures var ratio := (a as real) / (b as real);
            Delta(a, b) >= 1 && ratio <= Delta(a, b) as real && (Delta(a, b) > 1 ==> Delta(a, b) as real <= ratio + 1.0)
  {
    RintNearest((a as real) / (b as real) + 0.5);
  }

  // ----- pruning

  /** Pruning drops exactly the HIR entries in front of the first LIR entry of the stack. */
  lemma {:induction false} PruneIsSuffix(d: Dlirs)
    ensures var f := Prune(d);
            var n := |d.lirs| - |f.lirs|;
            && n >= 0 && f.lirs == d.lirs[n..]
            && (forall i :: 0 <= i < n ==> !EntryOf(d, d.lirs[i]).isLir)
            && (f.lirs != [] ==> EntryOf(d, f.lirs[0]).isLir)
    decreases |d.lirs|
  {
    if d.lirs != [] && !EntryOf(d, d.lirs[0]).isLir {
      var e := Forget(d, d.lirs[0]);
      ForgetFront(d);
      PruneIsSuffix(e);
      hide Forget, Prune;
      assert Prune(d) == Prune(e);
      var n := |e.lirs| - |Prune(e).lirs|;
      assert e.lirs[n..] == d.lirs[n + 1..];
      forall i | 0 <= i < n + 1
        ensures !EntryOf(d, d.lirs[i]).isLir
      {
        assert i > 0 ==> d.lirs[i] == e.lirs[i - 1];
      }
    }
  }

  lemma ForgetFront(d: Dlirs)
    requires d.lirs != []
    ensures var e := Forget(d, d.lirs[0]);
            e.lirs == d.lirs[1..] && forall k :: EntryOf(e, k).isLir == EntryOf(d, k).isLir
  {
  }

  // ----- the touched key goes to the back of the stack

  ghost predicate AtBack(s: seq<Key>, k: Key) {
    s != [] && s[|s| - 1] == k
  }

  lemma {:induction false} DropKeepsBack(s: seq<Key>, x: Key, k: Key)
    requires AtBack(s, k) && x != k
    ensures AtBack(Drop(s, x), k)
  {
    if s[0] != x {
      assert |s| == 1 ==> Drop(s[1..], x) == [];
      if |s| > 1 {
        DropKeepsBack(s[1..], x, k);
      }
    }
  }

  lemma {:induction false} ForgetOldestKeepsBack(d: Dlirs, n: int, k: Key)
    requires NoDup(d.nonRes) && n < |d.nonRes| && AtBack(d.nonRes, k) && AtBack(d.lirs, k)
    ensures AtBack(ForgetOldest(d, n).lirs, k)
    decreases n
  {
    if n > 0 {
      var x := d.nonRes[0];
      assert x != k;
      DropKeepsBack(d.nonRes, x, k);
      DropKeepsBack(d.lirs, x, k);
      DropMembers(d.nonRes, x);
      ForgetOldestKeepsBack(Forget(d, x), n - 1, k);
    }
  }

  lemma LimitStackKeepsBack(d: Dlirs, k: Key)
    requires ListsHirs(d) && Excess(d) < |d.nonRes| && AtBack(d.nonRes, k) && AtBack(d.lirs, k)
    ensures AtBack(LimitStack(d).lirs, k)
  {
    ForgetOldestKeepsBack(d, Excess(d), k);
  }

  lemma HitLirTouches(d: Dlirs, k: Key)
    requires Inv(d) && k in d.lirs && EntryOf(d, k).isLir
    ensures AtBack(HitLir(d, k).lirs, k)
  {
    var d1 := d.(lirs := PutBack(d.lirs, k));
    PruneIsSuffix(d1);
    assert EntryOf(d1, d1.lirs[|d1.lirs| - 1]).isLir;
  }

  /** Every tracked key that is looked up ends up at the back of the stack. */
  lemma GetTouches(d: Dlirs, k: Key)
    requires Inv(d) && Tracked(d, k)
    ensures AtBack(Get(d, k).0.lirs, k)
  {
    if k in d.lirs && EntryOf(d, k).isLir {
      HitLirTouches(d, k);
    } else if k in d.lirs {
      hide Promote, ShedLirs, ShedResidents, Core;
    } else {
      RestackReady(d, k);
      var r := Restack(Undemote(d, k), k);
      hide Core, LimitStack, Undemote, ListsHirs, Excess;
      LimitStackKeepsBack(r, k);
    }
  }

  /** So does every key that is requested, tracked or not. */
  lemma RequestTouches(d: Dlirs, k: Key, v: Value)
    requires Inv(d)
    ensures AtBack(Request(d, k, v).0.lirs, k)
  {
    hide Core, LimitStack, MakeRoom, ListsHirs, Excess;
    if !(d.lirsCount < d.lirsLimit && d.hirsCount == 0) {
      RoomForHir(d, k, v);
      LimitStackKeepsBack(AddHir(MakeRoom(d, None).0, k, v), k);
    }
  }

  // ----- values

  /** The value that the last request of a run for `k` brought, or `start` if there was none. */
  function LastRequested(ops: seq<Op>, k: Key, start: Value): Value {
    if ops == [] then start
    else LastRequested(ops[1..], k, if ops[0].RequestOp? && ops[0].key == k then ops[0].value else start)
  }

  /** After a run on which no step inserts an entry over itself, every key in a table was there
      from the start or was requested, and its entry is alive and holds the value of its last
      request, however often it was promoted, demoted, evicted to the stack and brought back. */
  lemma RunServes(d: Dlirs, ops: seq<Op>, f: Dlirs, k: Key)
    requires Inv(d) && CountsExact(d) && Runs(d, ops, f) && Gentle(d, ops) && Tracked(f, k)
    ensures Tracked(d, k) || Requested(ops, k)
    ensures EntryOf(f, k).rc >= 1 && EntryOf(f, k).value == LastRequested(ops, k, EntryOf(d, k).value)
  {
    assert Held(f, k);
    hide Core, FrontLir, CountsExact;
    RunKeeps(d, ops, f);
    RunValues(d, ops, f, k);
  }

  ghost predicate Requested(ops: seq<Op>, k: Key) {
    exists i :: 0 <= i < |ops| && ops[i].RequestOp? && ops[i].key == k
  }

  lemma {:induction false} RunValues(d: Dlirs, ops: seq<Op>, f: Dlirs, k: Key)
    requires Runs(d, ops, f)
    ensures EntryOf(f, k).value == LastRequested(ops, k, EntryOf(d, k).value)
    ensures Tracked(f, k) ==> Tracked(d, k) || Requested(ops, k)
    decreases |ops|
  {
    hide Request, Get, Legal;
    if ops != [] {
      var e := Step(d, ops[0]);
      match ops[0] {
        case RequestOp(x, v) => RequestCarries(d, x, v, k);
        case GetOp(x) => GetCarries(d, x, k);
        case ReleaseOp(x) =>
        case ReleaseStrayOp(_) =>
      }
      RunValues(e, ops[1..], f, k);
      RequestedLater(ops, k);
    }
  }

  lemma RequestedLater(ops: seq<Op>, k: Key)
    requires ops != []
    ensures Requested(ops[1..], k) || (ops[0].RequestOp? && ops[0].key == k) ==> Requested(ops, k)
  {
    if i :| 0 <= i < |ops[1..]| && ops[1..][i].RequestOp? && ops[1..][i].key == k {
      assert ops[i + 1] == ops[1..][i];
    }
  }
}
