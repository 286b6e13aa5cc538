/** data-platform-observability-service/src/domain: an execution's rollup, derived from its
    stage runs in whatever order they were delivered, and the separate failure detector. */
module Rollup {
  import opened Options
  import opened StableSort

  datatype Stage =
    | EXCHANGE_RECEIVED | EXCHANGE_VALIDATION | BRONZE_INGESTION | SILVER_TRANSFORMATION | GOLD_PRODUCT_BUILD
    | QUALITY_VALIDATION | PUBLICATION | OUTBOUND_EXCHANGE | FILE_DELIVERY | API_DELIVERY

  datatype Status = PENDING | RUNNING | SUCCEEDED | FAILED | RETRYING | BLOCKED | LATE | CANCELLED | UNKNOWN

  const STAGE_ORDER: seq<Stage> := [
    EXCHANGE_RECEIVED, EXCHANGE_VALIDATION, BRONZE_INGESTION, SILVER_TRANSFORMATION, GOLD_PRODUCT_BUILD,
    QUALITY_VALIDATION, PUBLICATION, OUTBOUND_EXCHANGE, FILE_DELIVERY, API_DELIVERY]

  /** STAGE_ORDER.indexOf. */
  function StageIndex(stage: Stage): (i: nat)
    ensures i < |STAGE_ORDER| && STAGE_ORDER[i] == stage
  {
    match stage
    case EXCHANGE_RECEIVED => 0
    case EXCHANGE_VALIDATION => 1
    case BRONZE_INGESTION => 2
    case SILVER_TRANSFORMATION => 3
    case GOLD_PRODUCT_BUILD => 4
    case QUALITY_VALIDATION => 5
    case PUBLICATION => 6
    case OUTBOUND_EXCHANGE => 7
    case FILE_DELIVERY => 8
    case API_DELIVERY => 9
  }

  datatype StageRun = StageRun(stage: Stage, status: Status, attempt: int, startedAt: Option<int>,
                               completedAt: Option<int>)

  datatype Execution = Execution(currentStage: Option<Stage>, overallStatus: Status, startedAt: Option<int>,
                                 completedAt: Option<int>)

  // ------------------------------------------------------------ the latest attempt of each stage

  /** Map.get: where a stage's entry stands in insertion order; the size when there is none. */
  function Position(current: seq<StageRun>, stage: Stage): (i: nat)
    ensures i <= |current|
    ensures (i < |current| ==> current[i].stage == stage) && forall j :: 0 <= j < i ==> current[j].stage != stage
  {
    if current == [] || current[0].stage == stage then 0 else 1 + Position(current[1..], stage)
  }

  /** Map.set by the loop's condition: in place for a known stage, at the end for a new one. */
  function Put(current: seq<StageRun>, run: StageRun): seq<StageRun> {
    var i := Position(current, run.stage);
    if i == |current| then current + [run]
    else if run.attempt >= current[i].attempt then current[i := run]
    else current
  }

  function Latest(runs: seq<StageRun>): seq<StageRun> {
    if runs == [] then [] else Put(Latest(runs[..|runs| - 1]), runs[|runs| - 1])
  }

  /** One stage's latest attempt: the highest attempt number, the later delivered on a tie. */
  function LatestOf(runs: seq<StageRun>, stage: Stage): Option<StageRun> {
    if runs == [] then None
    else
      var before, run := LatestOf(runs[..|runs| - 1], stage), runs[|runs| - 1];
      if run.stage == stage && (before.None? || run.attempt >= before.value.attempt) then Some(run) else before
  }

  method LatestAttemptPerStage(runs: seq<StageRun>) returns (current: seq<StageRun>)
    ensures current == Latest(runs)
    ensures StagesDistinct(current) && forall r :: r in current <==> LatestOf(runs, r.stage) == Some(r)
  {
    current := [];
    for n := 0 to |runs|
      invariant current == Latest(runs[..n])
    {
      var run := runs[n];
      var i := Position(current, run.stage);
      assert runs[..n + 1][..n] == runs[..n];
      if i == |current| {
        current := current + [run];
      } else if run.attempt >= current[i].attempt {
        current := current[i := run];
      }
    }
    assert runs[..|runs|] == runs;
    LatestHolds(runs);
  }

  predicate StagesDistinct(current: seq<StageRun>) {
    forall i, j :: 0 <= i < j < |current| ==> current[i].stage != current[j].stage
  }

  lemma PutHolds(current: seq<StageRun>, run: StageRun, r: StageRun)
    requires StagesDistinct(current)
    ensures StagesDistinct(Put(current, run))
    ensures r in Put(current, run) <==>
            if r.stage != run.stage then r in current
            else if exists q :: q in current && q.stage == run.stage && q.attempt > run.attempt then r in current
            else r == run
  {
    var i := Position(current, run.stage);
    var new_ := Put(current, run);
    if i < |current| {
      assert current[i] in current;
      assert forall j :: 0 <= j < |current| && j != i ==> current[j].stage != run.stage;
      if r in current && r.stage != run.stage {
        var j :| 0 <= j < |current| && current[j] == r;
        assert new_[j] == r;
      }
      assert run.attempt >= current[i].attempt ==> new_[i] == run;
    } else {
      assert new_[|current|] == run;
      if r in current {
        var j :| 0 <= j < |current| && current[j] == r;
        assert new_[j] == r;
      }
    }
  }

  /** What the loop keeps, for every list: one entry a stage, that stage's latest attempt. */
  lemma {:induction false} LatestHolds(runs: seq<StageRun>)
    ensures StagesDistinct(Latest(runs))
    ensures forall r :: r in Latest(runs) <==> LatestOf(runs, r.stage) == Some(r)
  {
    if runs != [] {
      var before, run := runs[..|runs| - 1], runs[|runs| - 1];
      LatestHolds(before);
      LatestOfIs(before, run.stage);
      forall r ensures r in Latest(runs) <==> LatestOf(runs, r.stage) == Some(r) {
        PutHolds(Latest(before), run, r);
        var prior := LatestOf(before, run.stage);
        assert prior.Some? ==> prior.value in Latest(before);
        assert forall q :: q in Latest(before) && q.stage == run.stage ==> prior == Some(q);
      }
      PutHolds(Latest(before), run, run);
    }
  }

  lemma {:induction false} LatestOfIs(runs: seq<StageRun>, stage: Stage)
    ensures LatestOf(runs, stage).None? <==> forall r :: r in runs ==> r.stage != stage
    ensures forall r :: LatestOf(runs, stage) == Some(r) ==>
              r in runs && r.stage == stage && forall q :: q in runs && q.stage == stage ==> q.attempt <= r.attempt
  {
    if runs != [] {
      LatestOfIs(runs[..|runs| - 1], stage);
      assert runs == runs[..|runs| - 1] + [runs[|runs| - 1]];
    }
  }

  /** No two runs share a stage and an attempt number. */
  predicate AttemptsDistinct(runs: seq<StageRun>) {
    forall i, j :: 0 <= i < j < |runs| ==> runs[i].stage != runs[j].stage || runs[i].attempt != runs[j].attempt
  }

  /** Then the order of delivery does not matter to which attempts are the latest. */
  lemma LatestOfAgrees(p: seq<StageRun>, q: seq<StageRun>, stage: Stage)
    requires AttemptsDistinct(p) && multiset(p) == multiset(q)
    ensures LatestOf(p, stage) == LatestOf(q, stage)
  {
    SameElements(p, q);
    LatestOfIs(p, stage);
    LatestOfIs(q, stage);
  }

  lemma LatestAgrees(p: seq<StageRun>, q: seq<StageRun>)
    requires AttemptsDistinct(p) && multiset(p) == multiset(q)
    ensures forall r :: r in Latest(p) <==> r in Latest(q)
  {
    LatestHolds(p);
    LatestHolds(q);
    forall r ensures r in Latest(p) <==> r in Latest(q) {
      LatestOfAgrees(p, q, r.stage);
    }
  }

  // ------------------------------------------------------------ the rollup

  predicate Earlier(a: StageRun, b: StageRun) { StageIndex(a.stage) <= StageIndex(b.stage) }

  predicate Later(a: StageRun, b: StageRun) { StageIndex(b.stage) <= StageIndex(a.stage) }

  function StartTimes(runs: seq<StageRun>): seq<int> {
    if runs == [] then []
    else (if runs[0].startedAt.Some? then [runs[0].startedAt.value] else []) + StartTimes(runs[1..])
  }

  /** reduce to the smaller, left to right. */
  function Least(times: seq<int>): int
    requires times != []
  {
    if |times| == 1 then times[0]
    else var least := Least(times[..|times| - 1]); if times[|times| - 1] < least then times[|times| - 1] else least
  }

  function EarliestStartedAt(runs: seq<StageRun>): Option<int> {
    if StartTimes(runs) == [] then None else Some(Least(StartTimes(runs)))
  }

  function WithStatus(runs: seq<StageRun>, status: Status): seq<StageRun> {
    Filter(runs, (r: StageRun) => r.status == status)
  }

  predicate DeliveryTerminal(stage: Stage) { stage in {OUTBOUND_EXCHANGE, FILE_DELIVERY, API_DELIVERY} }

  function DeriveExecutionState(runs: seq<StageRun>): Execution {
    Derive(Latest(runs))
  }

  function Derive(current: seq<StageRun>): Execution {
    if current == [] then Execution(None, PENDING, None, None)
    else
      var startedAt := EarliestStartedAt(current);
      var failed := Sort(WithStatus(current, FAILED), Earlier);
      if failed != [] then Execution(Some(failed[0].stage), FAILED, startedAt, failed[0].completedAt)
      else
        var cancelled := Sort(WithStatus(current, CANCELLED), Earlier);
        if cancelled != [] then Execution(Some(cancelled[0].stage), CANCELLED, startedAt, cancelled[0].completedAt)
        else
          var retrying := WithStatus(current, RETRYING);
          if retrying != [] then Execution(Some(retrying[0].stage), RETRYING, startedAt, None)
          else Ending(Sort(current, Later), startedAt)
  }

  function Ending(sorted: seq<StageRun>, startedAt: Option<int>): Execution {
    if sorted == [] then Execution(None, PENDING, None, None)
    else
      var last := sorted[0];
      if last.status == SUCCEEDED && DeliveryTerminal(last.stage)
      then Execution(Some(last.stage), SUCCEEDED, startedAt, last.completedAt)
      else if last.status == SUCCEEDED then Execution(Some(last.stage), RUNNING, startedAt, None)
      else if last.status == PENDING || last.status == UNKNOWN
      then Execution(Some(last.stage), PENDING, startedAt, None)
      else Execution(Some(last.stage), last.status, startedAt, None)
  }

  // ------------------------------------------------------------ order of delivery

  ghost predicate SameMembers(p: seq<StageRun>, q: seq<StageRun>) { forall r :: r in p <==> r in q }

  lemma EarlierOrders()
    ensures TotalPreorder(Earlier) && TotalPreorder(Later)
  {
  }

  lemma SameRun(current: seq<StageRun>, a: StageRun, b: StageRun)
    requires StagesDistinct(current) && a in current && b in current && StageIndex(a.stage) == StageIndex(b.stage)
    ensures a == b
  {
    assert STAGE_ORDER[StageIndex(a.stage)] == a.stage && STAGE_ORDER[StageIndex(b.stage)] == b.stage;
  }

  /** Among distinct stages the first in pipeline order does not depend on how they are listed. */
  lemma FirstAgrees(p: seq<StageRun>, q: seq<StageRun>, status: Status)
    requires StagesDistinct(p) && SameMembers(p, q)
    ensures var a, b := Sort(WithStatus(p, status), Earlier), Sort(WithStatus(q, status), Earlier);
            (a == [] <==> b == []) && (a != [] ==> a[0] == b[0])
  {
    hide StageIndex, Sort;
    var keep := (r: StageRun) => r.status == status;
    FilterMembers(p, keep);
    FilterMembers(q, keep);
    EarlierOrders();
    HeadIsLeast(WithStatus(p, status), Earlier);
    HeadIsLeast(WithStatus(q, status), Earlier);
    var a, b := Sort(WithStatus(p, status), Earlier), Sort(WithStatus(q, status), Earlier);
    assert WithStatus(p, status) != [] ==> WithStatus(p, status)[0] in WithStatus(q, status);
    assert WithStatus(q, status) != [] ==> WithStatus(q, status)[0] in WithStatus(p, status);
    if a != [] {
      SameRun(p, a[0], b[0]);
    }
  }

  lemma LastAgrees(p: seq<StageRun>, q: seq<StageRun>)
    requires StagesDistinct(p) && SameMembers(p, q) && p != []
    ensures var a, b := Sort(p, Later), Sort(q, Later);
            a != [] && b != [] && a[0] == b[0]
  {
    hide StageIndex, Sort;
    EarlierOrders();
    HeadIsLeast(p, Later);
    HeadIsLeast(q, Later);
    assert p[0] in q;
    SameRun(p, Sort(p, Later)[0], Sort(q, Later)[0]);
  }

  lemma {:induction false} StartTimesOf(runs: seq<StageRun>)
    ensures forall t :: t in StartTimes(runs) <==> exists r :: r in runs && r.startedAt == Some(t)
  {
    if runs != [] {
      StartTimesOf(runs[1..]);
      assert runs == [runs[0]] + runs[1..];
    }
  }

  lemma {:induction false} LeastIs(times: seq<int>)
    requires times != []
    ensures Least(times) in times && forall t :: t in times ==> Least(times) <= t
  {
    if |times| > 1 {
      LeastIs(times[..|times| - 1]);
      assert times == times[..|times| - 1] + [times[|times| - 1]];
    }
  }

  lemma StartAgrees(p: seq<StageRun>, q: seq<StageRun>)
    requires SameMembers(p, q)
    ensures EarliestStartedAt(p) == EarliestStartedAt(q)
  {
    StartTimesOf(p);
    StartTimesOf(q);
    var a, b := StartTimes(p), StartTimes(q);
    assert forall t :: t in a <==> t in b;
    if a != [] { LeastIs(a); assert a[0] in b; }
    if b != [] { LeastIs(b); assert b[0] in a; }
  }

  /** When no two runs share a stage and an attempt, any order of delivery gives the same
      status, start and completion, and, unless RETRYING, the same current stage. */
  lemma OrderIrrelevant(p: seq<StageRun>, q: seq<StageRun>)
    requires AttemptsDistinct(p) && multiset(p) == multiset(q)
    ensures var a, b := DeriveExecutionState(p), DeriveExecutionState(q);
            && a.overallStatus == b.overallStatus && a.startedAt == b.startedAt && a.completedAt == b.completedAt
            && (a.overallStatus != RETRYING ==> a == b)
  {
    hide Sort, Earlier, Later, Latest, EarliestStartedAt;
    LatestAgrees(p, q);
    LatestHolds(p);
    var c, d := Latest(p), Latest(q);
    assert (d != [] ==> d[0] in c) && (c != [] ==> c[0] in d);
    if c != [] {
      StartAgrees(c, d);
      FirstAgrees(c, d, FAILED);
      FirstAgrees(c, d, CANCELLED);
      FirstAgrees(c, d, RETRYING);
      HeadIsLeast(WithStatus(c, RETRYING), Earlier) by { EarlierOrders(); }
      HeadIsLeast(WithStatus(d, RETRYING), Earlier) by { EarlierOrders(); }
      LastAgrees(c, d);
    }
  }

  // ------------------------------------------------------------ RETRYING

  predicate Retries(runs: seq<StageRun>, stage: Stage) {
    LatestOf(runs, stage).Some? && LatestOf(runs, stage).value.status == RETRYING
  }

  /** The stage delivered first comes first. */
  lemma {:induction false} FirstDelivered(runs: seq<StageRun>)
    requires runs != []
    ensures Latest(runs) != [] && Latest(runs)[0].stage == runs[0].stage
  {
    if |runs| > 1 {
      FirstDelivered(runs[..|runs| - 1]);
    }
  }

  lemma RetryingMembers(runs: seq<StageRun>)
    ensures forall r :: r in WithStatus(Latest(runs), RETRYING) <==>
                        LatestOf(runs, r.stage) == Some(r) && r.status == RETRYING
  {
    LatestHolds(runs);
    FilterMembers(Latest(runs), (r: StageRun) => r.status == RETRYING);
  }

  /** Deliver a retrying stage's latest attempt first, and that stage becomes the current one. */
  lemma RetryingFirst(p: seq<StageRun>, q: seq<StageRun>, stage: Stage)
    requires AttemptsDistinct(p) && multiset(p) == multiset(q)
    requires DeriveExecutionState(p).overallStatus == RETRYING && Retries(p, stage)
    requires q != [] && Some(q[0]) == LatestOf(p, stage)
    ensures DeriveExecutionState(q).currentStage == Some(stage)
  {
    hide Sort, Latest, Derive, EarliestStartedAt;
    OrderIrrelevant(p, q);
    LatestOfAgrees(p, q, stage);
    LatestOfIs(p, stage);
    FirstDelivered(q);
    LatestHolds(q);
    var head := Latest(q)[0];
    assert head in Latest(q);
    RetryingCurrent(Latest(q), head);
  }

  lemma RetryingCurrent(current: seq<StageRun>, head: StageRun)
    requires current != [] && current[0] == head && head.status == RETRYING && Derive(current).overallStatus == RETRYING
    ensures Derive(current).currentStage == Some(head.stage)
  {
    hide Sort, EarliestStartedAt;
    assert WithStatus(current, RETRYING)[0] == head;
    assert Ending(Sort(current, Later), EarliestStartedAt(current)).overallStatus == RETRYING
           ==> WithStatus(current, RETRYING) != [];
  }

  function Fronted(runs: seq<StageRun>, r: StageRun): (q: seq<StageRun>)
    requires r in runs
    ensures q != [] && q[0] == r && multiset(q) == multiset(runs)
  {
    if runs[0] == r then runs
    else
      var rest := Fronted(runs[1..], r);
      assert runs == [runs[0]] + runs[1..];
      assert rest == [r] + rest[1..];
      [r, runs[0]] + rest[1..]
  }

  /** The current stage depends on the order of delivery exactly when the execution is
      RETRYING at two stages. */
  lemma CurrentStageDependsIff(p: seq<StageRun>)
    requires AttemptsDistinct(p)
    ensures (forall q :: multiset(q) == multiset(p) ==>
               DeriveExecutionState(q).currentStage == DeriveExecutionState(p).currentStage)
            <==> !(DeriveExecutionState(p).overallStatus == RETRYING
                   && exists a, b :: a != b && Retries(p, a) && Retries(p, b))
  {
    hide Derive, Latest, Filter, AttemptsDistinct;
    if DeriveExecutionState(p).overallStatus == RETRYING {
      if a, b :| a != b && Retries(p, a) && Retries(p, b) {
        LatestOfIs(p, a);
        LatestOfIs(p, b);
        var q, r := Fronted(p, LatestOf(p, a).value), Fronted(p, LatestOf(p, b).value);
        RetryingFirst(p, q, a);
        RetryingFirst(p, r, b);
        assert DeriveExecutionState(q).currentStage != DeriveExecutionState(r).currentStage;
      } else {
        forall q | multiset(q) == multiset(p)
          ensures DeriveExecutionState(q).currentStage == DeriveExecutionState(p).currentStage
        {
          OnlyRetrying(p, q);
        }
      }
    } else {
      forall q | multiset(q) == multiset(p)
        ensures DeriveExecutionState(q).currentStage == DeriveExecutionState(p).currentStage
      {
        OrderIrrelevant(p, q);
      }
    }
  }

  lemma RetryingIsOne(p: seq<StageRun>)
    requires DeriveExecutionState(p).overallStatus == RETRYING
    ensures var current := DeriveExecutionState(p).currentStage; current.Some? && Retries(p, current.value)
  {
    hide Sort, EarliestStartedAt;
    RetryingMembers(p);
    HeadIsLast(Latest(p));
    LatestHolds(p);
    var retrying := WithStatus(Latest(p), RETRYING);
    assert retrying != [] ==> retrying[0] in retrying;
  }

  lemma HeadIsLast(current: seq<StageRun>)
    ensures Sort(current, Later) == [] <==> current == []
    ensures current != [] ==>
              && Sort(current, Later)[0] in current
              && forall r :: r in current ==> StageIndex(r.stage) <= StageIndex(Sort(current, Later)[0].stage)
  {
    hide Sort, StageIndex;
    EarlierOrders();
    HeadIsLeast(current, Later);
  }

  lemma OnlyRetrying(p: seq<StageRun>, q: seq<StageRun>)
    requires AttemptsDistinct(p) && multiset(p) == multiset(q) && DeriveExecutionState(p).overallStatus == RETRYING
    requires forall a, b :: Retries(p, a) && Retries(p, b) ==> a == b
    ensures DeriveExecutionState(q).currentStage == DeriveExecutionState(p).currentStage
  {
    hide Derive, Latest, AttemptsDistinct;
    OrderIrrelevant(p, q);
    RetryingIsOne(p);
    RetryingIsOne(q);
    LatestOfAgrees(p, q, DeriveExecutionState(q).currentStage.value);
    assert Retries(p, DeriveExecutionState(q).currentStage.value);
  }

  // ------------------------------------------------------------ the failure detector

  datatype FailedStage = FailedStage(failedStage: Option<Stage>, downstreamBlocked: bool,
                                     neverStartedStages: seq<Stage>)

  function Unreached(byStage: seq<StageRun>, root: nat): Stage -> bool {
    (stage: Stage) => StageIndex(stage) > root && Position(byStage, stage) == |byStage|
  }

  function DetectFailedStage(runs: seq<StageRun>): FailedStage {
    var byStage := Latest(runs);
    var failed := Sort(WithStatus(byStage, FAILED), Earlier);
    if failed == [] then FailedStage(None, false, [])
    else
      var root := StageIndex(failed[0].stage);
      FailedStage(Some(failed[0].stage), root < |STAGE_ORDER| - 1,
                  Filter(STAGE_ORDER, Unreached(byStage, root)))
  }

  predicate Fails(runs: seq<StageRun>, stage: Stage) {
    LatestOf(runs, stage).Some? && LatestOf(runs, stage).value.status == FAILED
  }

  lemma FailedHead(runs: seq<StageRun>)
    ensures var failed := Sort(WithStatus(Latest(runs), FAILED), Earlier);
            && (failed == [] <==> forall stage :: !Fails(runs, stage))
            && (failed != [] ==>
                  && Latest(runs) != [] && LatestOf(runs, failed[0].stage) == Some(failed[0])
                    && Fails(runs, failed[0].stage)
                  && forall stage :: Fails(runs, stage) ==> StageIndex(failed[0].stage) <= StageIndex(stage))
  {
    hide Sort, StageIndex, Latest;
    LatestHolds(runs);
    FilterMembers(Latest(runs), (r: StageRun) => r.status == FAILED);
    EarlierOrders();
    var failed := WithStatus(Latest(runs), FAILED);
    HeadIsLeast(failed, Earlier);
    forall stage | Fails(runs, stage)
      ensures failed != [] && StageIndex(Sort(failed, Earlier)[0].stage) <= StageIndex(stage)
    {
      LatestOfIs(runs, stage);
      assert LatestOf(runs, stage).value in failed;
    }
    if failed != [] {
      assert Fails(runs, Sort(failed, Earlier)[0].stage);
    }
  }

  /** Rollup and detector agree on every list of runs: FAILED exactly when a stage's latest
      attempt failed; the stage named is the current one and the earliest such stage, and the
      never-started list is exactly the later stages with no run at all, in pipeline order. */
  lemma DetectorAgrees(runs: seq<StageRun>)
    ensures var e, d := DeriveExecutionState(runs), DetectFailedStage(runs);
            && (d.failedStage.Some? <==> exists stage :: Fails(runs, stage))
            && (e.overallStatus == FAILED <==> d.failedStage.Some?)
            && (d.failedStage.Some? ==>
                  var stage := d.failedStage.value;
                  && e.currentStage == Some(stage) && Fails(runs, stage)
                  && e.completedAt == LatestOf(runs, stage).value.completedAt
                  && (forall other :: Fails(runs, other) ==> StageIndex(stage) <= StageIndex(other))
                  && (d.downstreamBlocked <==> stage != API_DELIVERY)
                  && Increasing(d.neverStartedStages, StageIndex)
                  && forall other :: other in d.neverStartedStages <==>
                       StageIndex(other) > StageIndex(stage) && forall r :: r in runs ==> r.stage != other)
            && (d.failedStage.None? ==> !d.downstreamBlocked && d.neverStartedStages == [])
  {
    hide Sort, Latest, EarliestStartedAt, LatestOf, Filter, StageIndex;
    FailedHead(runs);
    FailedOnlySo(runs);
    NeverStarted(runs);
    LastStage();
  }

  lemma LastStage()
    ensures forall stage :: StageIndex(stage) < |STAGE_ORDER| - 1 <==> stage != API_DELIVERY
  {
  }

  lemma StagesIncrease()
    ensures Increasing(STAGE_ORDER, StageIndex)
  {
    forall i | 0 <= i < |STAGE_ORDER| ensures StageIndex(STAGE_ORDER[i]) == i {
      assert i in {0, 1, 2, 3, 4, 5, 6, 7, 8, 9};
    }
  }

  lemma NeverStarted(runs: seq<StageRun>)
    ensures var failed := Sort(WithStatus(Latest(runs), FAILED), Earlier);
            failed != [] ==>
              && Increasing(DetectFailedStage(runs).neverStartedStages, StageIndex)
              && forall other :: other in DetectFailedStage(runs).neverStartedStages <==>
                   StageIndex(other) > StageIndex(failed[0].stage) && forall r :: r in runs ==> r.stage != other
  {
    hide Sort, Latest, LatestOf, StageIndex, WithStatus;
    var byStage := Latest(runs);
    var failed := Sort(WithStatus(byStage, FAILED), Earlier);
    if failed != [] {
      var root := StageIndex(failed[0].stage);
      FilterMembers(STAGE_ORDER, Unreached(byStage, root));
      StagesIncrease();
      FilterIncreasing(STAGE_ORDER, Unreached(byStage, root), StageIndex);
      forall other ensures other in DetectFailedStage(runs).neverStartedStages <==>
                           StageIndex(other) > root && forall r :: r in runs ==> r.stage != other
      {
        assert STAGE_ORDER[StageIndex(other)] in STAGE_ORDER;
        Recorded(runs, other);
      }
    }
  }

  lemma Recorded(runs: seq<StageRun>, stage: Stage)
    ensures Position(Latest(runs), stage) < |Latest(runs)| <==> exists r :: r in runs && r.stage == stage
  {
    hide Latest;
    LatestHolds(runs);
    LatestOfIs(runs, stage);
    var current := Latest(runs);
    var p := Position(current, stage);
    assert p < |current| ==> current[p] in current;
    assert LatestOf(runs, stage).Some? ==> LatestOf(runs, stage).value in current;
  }

  /** Without a failed stage no execution is FAILED. */
  lemma FailedOnlySo(runs: seq<StageRun>)
    ensures var failed := Sort(WithStatus(Latest(runs), FAILED), Earlier);
            failed == [] ==> DeriveExecutionState(runs).overallStatus != FAILED
  {
    hide Sort, Latest, EarliestStartedAt;
    var current := Latest(runs);
    FilterMembers(current, (r: StageRun) => r.status == FAILED);
    EarlierOrders();
    HeadIsLeast(WithStatus(current, FAILED), Earlier);
    HeadIsLast(current);
    assert current != [] ==> Sort(current, Later)[0] in current;
  }

  // ------------------------------------------------------------ success

  predicate LatestHas(runs: seq<StageRun>, stage: Stage, status: Status) {
    LatestOf(runs, stage).Some? && LatestOf(runs, stage).value.status == status
  }

  /** SUCCEEDED means: some delivery stage succeeded on its latest attempt, nothing beyond it
      was recorded, and no stage's latest attempt failed, was cancelled or is being retried. */
  lemma SucceededIff(runs: seq<StageRun>)
    ensures DeriveExecutionState(runs).overallStatus == SUCCEEDED <==>
            && (forall stage, status :: status in {FAILED, CANCELLED, RETRYING} ==> !LatestHas(runs, stage, status))
            && exists stage :: DeliveryTerminal(stage) && LatestHas(runs, stage, SUCCEEDED)
                               && forall r :: r in runs ==> StageIndex(r.stage) <= StageIndex(stage)
  {
    hide Sort, Latest, EarliestStartedAt, LatestOf, StageIndex;
    var current := Latest(runs);
    StatusEmpty(runs, FAILED);
    StatusEmpty(runs, CANCELLED);
    StatusEmpty(runs, RETRYING);
    StatusEmpty(runs, SUCCEEDED);
    HeadIsLast(current);
    Furthest(runs);
    if current != [] {
      var last := Sort(current, Later)[0];
      assert LatestHas(runs, last.stage, last.status);
    }
  }

  lemma StatusEmpty(runs: seq<StageRun>, status: Status)
    ensures (WithStatus(Latest(runs), status) == [] <==> forall stage :: !LatestHas(runs, stage, status))
    ensures Sort(WithStatus(Latest(runs), status), Earlier) == [] <==> WithStatus(Latest(runs), status) == []
  {
    hide Sort, Latest, StageIndex;
    LatestHolds(runs);
    var some := WithStatus(Latest(runs), status);
    FilterMembers(Latest(runs), (r: StageRun) => r.status == status);
    EarlierOrders();
    HeadIsLeast(some, Earlier);
    forall stage | LatestHas(runs, stage, status) ensures some != [] {
      LatestOfIs(runs, stage);
      assert LatestOf(runs, stage).value in some;
    }
    if some != [] {
      assert some[0] in some;
      assert LatestHas(runs, some[0].stage, status);
    }
  }

  /** The last stage of the latest attempts is the furthest stage with any run. */
  lemma Furthest(runs: seq<StageRun>)
    ensures Latest(runs) == [] <==> runs == []
    ensures runs != [] ==>
              var last := Sort(Latest(runs), Later)[0];
              && LatestOf(runs, last.stage) == Some(last)
              && (forall r :: r in runs ==> StageIndex(r.stage) <= StageIndex(last.stage))
              && forall stage ::
                   LatestOf(runs, stage).Some?
                   && (forall r :: r in runs ==> StageIndex(r.stage) <= StageIndex(stage))
                   ==> stage == last.stage
  {
    hide Sort, Latest;
    LatestHolds(runs);
    HeadIsLast(Latest(runs));
    if runs != [] {
      FirstDelivered(runs);
      var last := Sort(Latest(runs), Later)[0];
      LatestOfIs(runs, last.stage);
      forall r | r in runs ensures StageIndex(r.stage) <= StageIndex(last.stage) {
        LatestOfIs(runs, r.stage);
        assert LatestOf(runs, r.stage).value in Latest(runs);
      }
      forall stage | LatestOf(runs, stage).Some? && (forall r :: r in runs ==> StageIndex(r.stage) <= StageIndex(stage))
        ensures stage == last.stage
      {
        LatestOfIs(runs, stage);
        assert STAGE_ORDER[StageIndex(stage)] == stage && STAGE_ORDER[StageIndex(last.stage)] == last.stage;
      }
    } else {
      assert Latest([]) == [] by { LatestEmpty(); }
    }
  }

  lemma LatestEmpty()
    ensures Latest([]) == []
  {
  }
}
