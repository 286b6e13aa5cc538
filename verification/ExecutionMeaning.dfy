/** data-platform-observability-service: what an execution's rollup says, in terms of the stage
    runs it was derived from. */
module ExecutionMeaning {
  import opened Options
  import opened StableSort
  import opened Rollup

  // ------------------------------------------------------------ the latest attempt

  /** The run at `k` is its stage's latest attempt: none has a higher number, and none with the
      same number was delivered after it. */
  predicate IsLatestAt(runs: seq<StageRun>, k: nat) {
    k < |runs|
    && forall j :: 0 <= j < |runs| && runs[j].stage == runs[k].stage ==>
         runs[j].attempt < runs[k].attempt || (runs[j].attempt == runs[k].attempt && j <= k)
  }

  lemma {:induction false} LatestOfAt(runs: seq<StageRun>, stage: Stage) returns (k: nat)
    requires LatestOf(runs, stage).Some?
    ensures IsLatestAt(runs, k) && runs[k].stage == stage && LatestOf(runs, stage) == Some(runs[k])
  {
    var n := |runs| - 1;
    var before, run := runs[..n], runs[n];
    if run.stage == stage && (LatestOf(before, stage).None? || run.attempt >= LatestOf(before, stage).value.attempt) {
      k := n;
      LatestOfIs(before, stage);
      forall j | 0 <= j < n && runs[j].stage == stage ensures runs[j].attempt <= run.attempt {
        assert before[j] in before && LatestOf(before, stage).Some?;
      }
    } else {
      k := LatestOfAt(before, stage);
      forall j | 0 <= j < n && runs[j].stage == stage
        ensures runs[j].attempt < runs[k].attempt || (runs[j].attempt == runs[k].attempt && j <= k)
      {
        assert before[j] == runs[j];
      }
    }
  }

  /** That is what is kept of each stage, exactly. */
  lemma LatestOfIff(runs: seq<StageRun>, k: nat)
    requires k < |runs|
    ensures IsLatestAt(runs, k) ==> LatestOf(runs, runs[k].stage) == Some(runs[k])
    ensures exists j: nat :: IsLatestAt(runs, j) && runs[j].stage == runs[k].stage
                        && LatestOf(runs, runs[k].stage) == Some(runs[j])
  {
    LatestOfIs(runs, runs[k].stage);
    assert runs[k] in runs;
    var j := LatestOfAt(runs, runs[k].stage);
    if IsLatestAt(runs, k) {
      assert j == k;
    }
  }

  /** Where the first run of a stage was delivered; the length if there is none. */
  function FirstRun(runs: seq<StageRun>, stage: Stage): (k: nat)
    ensures k <= |runs|
  {
    if runs == [] then 0
    else
      var k := FirstRun(runs[..|runs| - 1], stage);
      if k < |runs| - 1 || runs[|runs| - 1].stage == stage then k else |runs|
  }

  /** The kept attempts stand in the order in which their stages were first delivered. */
  ghost predicate InOrder(kept: seq<StageRun>, runs: seq<StageRun>) {
    (forall i, j :: 0 <= i < j < |kept| ==> FirstRun(runs, kept[i].stage) < FirstRun(runs, kept[j].stage))
    && (forall i :: 0 <= i < |kept| ==> FirstRun(runs, kept[i].stage) < |runs|)
  }

  lemma {:induction false} KeptInOrder(runs: seq<StageRun>)
    ensures InOrder(Latest(runs), runs)
    ensures forall stage :: Position(Latest(runs), stage) == |Latest(runs)| ==> FirstRun(runs, stage) == |runs|
  {
    if runs != [] {
      var before, run := runs[..|runs| - 1], runs[|runs| - 1];
      KeptInOrder(before);
      PutInOrder(Latest(before), runs);
    }
  }

  lemma PutInOrder(kept: seq<StageRun>, runs: seq<StageRun>)
    requires runs != [] && InOrder(kept, runs[..|runs| - 1])
    requires forall stage :: Position(kept, stage) == |kept| ==>
                               FirstRun(runs[..|runs| - 1], stage) == |runs| - 1
    ensures var now := Put(kept, runs[|runs| - 1]);
            InOrder(now, runs) && forall stage :: Position(now, stage) == |now| ==> FirstRun(runs, stage) == |runs|
  {
    var run := runs[|runs| - 1];
    var now := Put(kept, run);
    SameStages(kept, run);
    hide FirstRun, Position, Put;
    forall stage {
      FirstStands(runs, stage);
    }
  }

  lemma SameStages(kept: seq<StageRun>, run: StageRun)
    ensures var now := Put(kept, run);
            && |now| == (if Position(kept, run.stage) == |kept| then |kept| + 1 else |kept|)
            && (forall j :: 0 <= j < |now| ==> now[j].stage == if j < |kept| then kept[j].stage else run.stage)
            && (forall stage :: Position(now, stage) == |now| ==> stage != run.stage && Position(kept, stage) == |kept|)
  {
    var now := Put(kept, run);
    assert forall stage :: Position(now, stage) == |now| ==> forall j :: 0 <= j < |now| ==> now[j].stage != stage;
    assert forall j :: 0 <= j < |kept| ==> now[j].stage == kept[j].stage;
    assert Position(kept, run.stage) == |kept| ==> now[|kept|].stage == run.stage;
    assert Position(kept, run.stage) < |kept| ==> now[Position(kept, run.stage)].stage == run.stage;
  }

  lemma FirstStands(runs: seq<StageRun>, stage: Stage)
    requires runs != []
    ensures var before := runs[..|runs| - 1];
            && (FirstRun(before, stage) < |before| ==> FirstRun(runs, stage) == FirstRun(before, stage))
            && (runs[|runs| - 1].stage == stage ==> FirstRun(runs, stage) == FirstRun(before, stage))
            && (FirstRun(before, stage) == |before| && runs[|runs| - 1].stage != stage ==>
                  FirstRun(runs, stage) == |runs|)
  {
  }

  // ------------------------------------------------------------ the rollup

  /** The first stage in pipeline order whose latest attempt has the status. */
  predicate FirstWith(runs: seq<StageRun>, status: Status, stage: Stage) {
    LatestHas(runs, stage, status)
    && forall other :: LatestHas(runs, other, status) ==> StageIndex(stage) <= StageIndex(other)
  }

  /** Of the stages being retried the one first heard of. */
  predicate FirstRetrying(runs: seq<StageRun>, stage: Stage) {
    LatestHas(runs, stage, RETRYING)
    && forall other :: LatestHas(runs, other, RETRYING) ==> FirstRun(runs, stage) <= FirstRun(runs, other)
  }

  predicate NoneHas(runs: seq<StageRun>, status: Status) { forall stage :: !LatestHas(runs, stage, status) }

  /** The furthest stage with any run. */
  predicate IsFurthest(runs: seq<StageRun>, stage: Stage) {
    LatestOf(runs, stage).Some? && forall r :: r in runs ==> StageIndex(r.stage) <= StageIndex(stage)
  }

  lemma FirstOfStatus(runs: seq<StageRun>, status: Status)
    ensures var some := Sort(WithStatus(Latest(runs), status), Earlier);
            && (some == [] <==> NoneHas(runs, status))
            && (some != [] ==> FirstWith(runs, status, some[0].stage)
                               && LatestOf(runs, some[0].stage) == Some(some[0]))
  {
    hide Sort, StageIndex, Latest;
    LatestHolds(runs);
    StatusEmpty(runs, status);
    FilterMembers(Latest(runs), (r: StageRun) => r.status == status);
    EarlierOrders();
    var kept := WithStatus(Latest(runs), status);
    HeadIsLeast(kept, Earlier);
    if kept != [] {
      var head := Sort(kept, Earlier)[0];
      assert head in kept;
      forall other | LatestHas(runs, other, status) ensures StageIndex(head.stage) <= StageIndex(other) {
        LatestOfIs(runs, other);
        assert LatestOf(runs, other).value in kept;
      }
    }
  }

  /** FAILED before CANCELLED before RETRYING, each at its first stage or, retrying, at
      the one first heard of; otherwise what the furthest stage says: SUCCEEDED at a delivery stage is
      SUCCEEDED and elsewhere RUNNING, PENDING and UNKNOWN are PENDING, and RUNNING, BLOCKED
      and LATE are themselves. Only the first two and SUCCEEDED have a completion, that of the
      stage named; no runs at all is PENDING without a stage. */
  lemma RollupSays(runs: seq<StageRun>)
    ensures var e := DeriveExecutionState(runs);
            if runs == [] then e == Execution(None, PENDING, None, None)
            else
              && e.currentStage.Some? && LatestOf(runs, e.currentStage.value).Some?
              && var stage, run := e.currentStage.value, LatestOf(runs, e.currentStage.value).value;
                 if !NoneHas(runs, FAILED)
                 then e.overallStatus == FAILED && FirstWith(runs, FAILED, stage) && e.completedAt == run.completedAt
                 else if !NoneHas(runs, CANCELLED)
                 then e.overallStatus == CANCELLED && FirstWith(runs, CANCELLED, stage)
                      && e.completedAt == run.completedAt
                 else if !NoneHas(runs, RETRYING)
                 then e.overallStatus == RETRYING && FirstRetrying(runs, stage) && e.completedAt == None
                 else
                   && IsFurthest(runs, stage)
                   && e.overallStatus == FromFurthest(stage, run.status)
                   && e.completedAt == if e.overallStatus == SUCCEEDED then run.completedAt else None
  {
    hide Sort, Latest, LatestOf, StageIndex, EarliestStartedAt;
    FirstOfStatus(runs, FAILED);
    FirstOfStatus(runs, CANCELLED);
    Furthest(runs);
    if runs == [] {
      assert Latest([]) == [] by { LatestEmpty(); }
    } else {
      HeadIsLast(Latest(runs));
      RetryingHead(runs);
      if NoneHas(runs, FAILED) && NoneHas(runs, CANCELLED) && NoneHas(runs, RETRYING) {
        EndingSays(runs);
      }
    }
  }

  function FromFurthest(stage: Stage, status: Status): Status {
    match status
    case SUCCEEDED =>
      if stage == OUTBOUND_EXCHANGE || stage == FILE_DELIVERY || stage == API_DELIVERY then SUCCEEDED else RUNNING
    case UNKNOWN => PENDING
    case _ => status
  }

  lemma RetryingHead(runs: seq<StageRun>)
    ensures var retrying := WithStatus(Latest(runs), RETRYING);
            && (retrying == [] <==> NoneHas(runs, RETRYING))
            && (retrying != [] ==> FirstRetrying(runs, retrying[0].stage))
  {
    hide Sort, Latest, StageIndex;
    LatestHolds(runs);
    StatusEmpty(runs, RETRYING);
    FilterMembers(Latest(runs), (r: StageRun) => r.status == RETRYING);
    var retrying := WithStatus(Latest(runs), RETRYING);
    KeptInOrder(runs);
    var rank := (r: StageRun) => FirstRun(runs, r.stage);
    FilterIncreasing(Latest(runs), (r: StageRun) => r.status == RETRYING, rank);
    assert Increasing(retrying, rank);
    if retrying != [] {
      assert retrying[0] in retrying;
      forall other | LatestHas(runs, other, RETRYING)
        ensures FirstRun(runs, retrying[0].stage) <= FirstRun(runs, other)
      {
        LatestOfIs(runs, other);
        var r := LatestOf(runs, other).value;
        assert r in retrying;
        var j :| 0 <= j < |retrying| && retrying[j] == r;
        assert rank(retrying[0]) <= rank(retrying[j]);
      }
    }
  }

  lemma EndingSays(runs: seq<StageRun>)
    requires runs != [] && NoneHas(runs, FAILED) && NoneHas(runs, CANCELLED) && NoneHas(runs, RETRYING)
    ensures var last := Sort(Latest(runs), Later)[0];
            var e := Ending(Sort(Latest(runs), Later), EarliestStartedAt(Latest(runs)));
            && Sort(Latest(runs), Later) != [] && e.currentStage == Some(last.stage)
            && LatestOf(runs, last.stage) == Some(last) && IsFurthest(runs, last.stage)
            && e.overallStatus == FromFurthest(last.stage, last.status)
            && e.completedAt == if e.overallStatus == SUCCEEDED then last.completedAt else None
  {
    hide Sort, Latest, LatestOf, StageIndex, EarliestStartedAt;
    Furthest(runs);
    HeadIsLast(Latest(runs));
    var last := Sort(Latest(runs), Later)[0];
    assert !LatestHas(runs, last.stage, FAILED) && !LatestHas(runs, last.stage, CANCELLED)
        && !LatestHas(runs, last.stage, RETRYING);
  }

  lemma StartOf(current: seq<StageRun>)
    ensures var start := EarliestStartedAt(current);
            && (start.None? <==> forall r :: r in current ==> r.startedAt.None?)
            && (start.Some? ==>
                  && (exists r :: r in current && r.startedAt == start)
                  && forall r :: r in current && r.startedAt.Some? ==> start.value <= r.startedAt.value)
  {
    StartTimesOf(current);
    hide StartTimes;
    var times := StartTimes(current);
    if times != [] {
      LeastIs(times);
    }
    forall r | r in current && r.startedAt.Some? ensures r.startedAt.value in times {
      var t := r.startedAt.value;
      assert r in current && r.startedAt == Some(t);
    }
  }

  lemma Kept(runs: seq<StageRun>, stage: Stage)
    requires LatestOf(runs, stage).Some?
    ensures LatestOf(runs, stage).value in Latest(runs)
  {
    hide Latest, LatestOf;
    LatestHolds(runs);
    LatestOfIs(runs, stage);
    assert LatestOf(runs, LatestOf(runs, stage).value.stage) == LatestOf(runs, stage);
  }

  lemma StartedAtKept(runs: seq<StageRun>)
    ensures runs != [] ==> DeriveExecutionState(runs).startedAt == EarliestStartedAt(Latest(runs))
  {
    hide Latest, Sort, EarliestStartedAt, Filter;
    Furthest(runs);
    HeadIsLast(Latest(runs));
  }

  /** It started when the first of the latest attempts with a start did. */
  lemma StartSays(runs: seq<StageRun>)
    requires runs != []
    ensures var start := DeriveExecutionState(runs).startedAt;
            && (start.None? <==> forall s :: LatestOf(runs, s).Some? ==> LatestOf(runs, s).value.startedAt.None?)
            && (start.Some? ==>
                  && (exists s :: LatestOf(runs, s).Some? && LatestOf(runs, s).value.startedAt == start)
                  && forall s :: LatestOf(runs, s).Some? && LatestOf(runs, s).value.startedAt.Some? ==>
                       start.value <= LatestOf(runs, s).value.startedAt.value)
  {
    hide Latest, LatestOf, DeriveExecutionState, EarliestStartedAt;
    LatestHolds(runs);
    StartOf(Latest(runs));
    StartedAtKept(runs);
    forall s | LatestOf(runs, s).Some? ensures LatestOf(runs, s).value in Latest(runs) {
      Kept(runs, s);
    }
    var start := EarliestStartedAt(Latest(runs));
    if start.Some? {
      var r :| r in Latest(runs) && r.startedAt == start;
      assert LatestOf(runs, r.stage).value.startedAt == start;
    }
    forall r | r in Latest(runs) ensures LatestOf(runs, r.stage).Some? && LatestOf(runs, r.stage).value == r {
    }
  }
}
