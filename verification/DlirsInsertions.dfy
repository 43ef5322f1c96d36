/** Which insertions into its tables the DLIRS cache makes for keys that the table already has.
    The deque hash table takes insertions of absent keys only, so this says which runs it can
    carry. */
module DlirsInsertions {
  import opened Basics
  import opened Seqs
  import opened DlirsSpec
  import opened DlirsInvariant
  import opened DlirsOps
  import opened DlirsTheorems
  import opened DlirsCarry
  import opened DlirsRuns

  // ----- every insertion is of an absent key

  /** The insertions of demoted entries into the resident table. */
  ghost predicate ShedAbsent(d: Dlirs, keep: int)
    decreases |d.lirs|
  {
    if d.lirsCount <= keep || d.lirs == [] then true
    else
      EvictLirShrinks(d);
      d.lirs[0] !in d.res && ShedAbsent(EvictLir(d), keep)
  }

  /** Those of the eviction loop of a request. */
  ghost predicate RoomAbsent(d: Dlirs)
    decreases |d.lirs| + |d.res|
  {
    if d.hirsCount + d.lirsCount < d.size then true
    else
      var d1 := ShedLirs(d, d.lirsLimit);
      ShedLirsShrinks(d, d.lirsLimit);
      && ShedAbsent(d, d.lirsLimit)
      && (d1.res != [] ==> (EvictionShrinks(d1); RoomAbsent(EvictResident(d1).0)))
  }

  /** The insertions of a lookup. */
  ghost predicate GetAbsent(d: Dlirs, k: Key) {
    if k in d.lirs then
      if EntryOf(d, k).isLir then k !in Drop(d.lirs, k)
      else
        var d1 := Promote(d, k);
        ShedAbsent(d1, d1.lirsLimit - 1) && k !in ShedResidents(ShedLirs(d1, d1.lirsLimit - 1), None).0.lirs
    else if k in d.res then
      var d1 := Undemote(d, k);
      k !in d1.res && k !in d1.lirs && k !in d1.nonRes
    else true
  }

  /** The insertions of a request. */
  ghost predicate RequestAbsent(d: Dlirs, k: Key) {
    if d.lirsCount < d.lirsLimit && d.hirsCount == 0 then k !in d.lirs
    else
      var d1 := MakeRoom(d, None).0;
      RoomAbsent(d) && k !in d1.lirs && k !in d1.nonRes && k !in d1.res
  }

  // ----- when they are

  lemma {:induction false} ShedsAbsent(d: Dlirs, keep: int)
    requires Core(d) && FrontLir(d) && keep >= 0
    ensures ShedAbsent(d, keep)
    decreases |d.lirs|
  {
    if !(d.lirsCount <= keep || d.lirs == []) {
      DemoteFields(d);
      EvictLirKeeps(d);
      EvictLirShrinks(d);
      hide Core, FrontLir, EvictLir, Demote;
      ShedsAbsent(EvictLir(d), keep);
    }
  }

  lemma RoomsAbsent(d: Dlirs)
    requires Inv(d)
    ensures RoomAbsent(d)
  {
    if Residents(d) == d.size {
      hide Core, FrontLir, ShedLirs, ShedAbsent, EvictResident, MakeRoom;
      LimitsHold(d);
      ShedsAbsent(d, d.lirsLimit);
      MakeRoomOnce(d);
      var d1 := ShedLirs(d, d.lirsLimit);
      EvictResidentKeeps(d1);
      assert RoomAbsent(EvictResident(d1).0);
    }
  }

  /** A lookup inserts absent keys only if and only if it is not a hit on a resident entry outside
      the stack. */
  lemma GetInsertsAbsent(d: Dlirs, k: Key)
    requires Inv(d)
    ensures GetAbsent(d, k) <==> !Overrides(d, k)
  {
    hide Core, FrontLir, Promote, ShedLirs, ShedResidents, ShedAbsent, Drop, Undemote;
    if k in d.lirs && EntryOf(d, k).isLir {
      RemovedFromStack(d, k);
    } else if k in d.lirs {
      PromoteStep(d, k);
      TakesUpAbsent(Promote(d, k), k);
    } else if k in d.res {
      UndemoteCore(d, k);
    }
  }

  lemma RemovedFromStack(d: Dlirs, k: Key)
    requires Core(d)
    ensures k !in Drop(d.lirs, k)
  {
    DropMembers(d.lirs, k);
  }

  lemma TakesUpAbsent(d: Dlirs, k: Key)
    requires Core(d) && FrontLir(d) && Residents(d) <= d.size && Ready(d, k)
    ensures ShedAbsent(d, d.lirsLimit - 1) && k !in ShedResidents(ShedLirs(d, d.lirsLimit - 1), None).0.lirs
  {
    hide Core, FrontLir, ShedLirs, ShedResidents, EvictResident, ShedAbsent;
    LimitsHold(d);
    ShedsAbsent(d, d.lirsLimit - 1);
    ShedLirsKeeps(d, d.lirsLimit - 1);
    var d2 := ShedLirs(d, d.lirsLimit - 1);
    assert KeyEvolves(d, d2, k);
    ShedResidentsOnce(d2);
    if Residents(d2) == d2.size {
      EvictResidentKeeps(d2);
    }
  }

  /** A request for a requestable key inserts absent keys only. */
  lemma RequestInsertsAbsent(d: Dlirs, k: Key)
    requires Inv(d) && Requestable(d, k)
    ensures RequestAbsent(d, k)
  {
    hide Core, FrontLir, MakeRoom, RoomAbsent;
    RoomsAbsent(d);
    RoomUntracked(d, k);
    RoomCore(d);
    if !(d.lirsCount < d.lirsLimit && d.hirsCount == 0) {
      UntrackedNonRes(MakeRoom(d, None).0, k);
    }
  }

  // ----- whole runs

  ghost predicate StepAbsent(d: Dlirs, op: Op) {
    match op
    case RequestOp(k, _) => RequestAbsent(d, k)
    case GetOp(k) => GetAbsent(d, k)
    case ReleaseOp(_) => true
    case ReleaseStrayOp(_) => true
  }

  ghost predicate AlwaysAbsent(d: Dlirs, ops: seq<Op>)
    decreases |ops|
  {
    ops == [] || (StepAbsent(d, ops[0]) && AlwaysAbsent(Step(d, ops[0]), ops[1..]))
  }

  /** A run inserts absent keys only if and only if none of its steps is a hit on a resident entry
      outside the stack. */
  lemma {:induction false} RunInsertsAbsent(d: Dlirs, ops: seq<Op>, f: Dlirs)
    requires Inv(d) && Runs(d, ops, f)
    ensures AlwaysAbsent(d, ops) <==> Gentle(d, ops)
    decreases |ops|
  {
    hide Core, FrontLir, Step, GetAbsent, RequestAbsent, Overrides, CountsExact;
    if ops != [] {
      match ops[0] {
        case RequestOp(k, _) => RequestInsertsAbsent(d, k);
        case GetOp(k) => GetInsertsAbsent(d, k);
        case ReleaseOp(_) =>
        case ReleaseStrayOp(_) =>
      }
      StepKeeps(d, ops[0]);
      RunInsertsAbsent(Step(d, ops[0]), ops[1..], f);
    }
  }
}
