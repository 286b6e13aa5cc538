/** data-exchange-service/src/pipeline-worker: the ingest-to-publish chain run for one
    claimed job, and the poll loop and admin runs that claim jobs concurrently. */
module PipelineWorker {
  import opened Options

  datatype Stage = INGEST | BRONZE_TO_SILVER | SILVER_TO_GOLD | PUBLISH

  datatype CallStatus = COMPLETED | SKIPPED_DUPLICATE | READY | OTHER(name: string)

  /** What awaiting a downstream call comes to: an exception, an empty result list,
      or an outcome with a status and an id (empty when there is none). */
  datatype Reply = Threw | NoRun | Done(status: CallStatus, id: string)

  /** The stage as the downstream services see it: called with an id. */
  datatype Call = Call(stage: Stage, input: string, reply: Reply)

  datatype JobStatus = PENDING | RUNNING | SUCCEEDED(outboundId: string) | FAILED(at: Stage, internalError: bool)

  datatype JobRow = JobRow(status: JobStatus, stage: Option<Stage>, source: string, createdAt: nat)

  // ------------------------------------------------------------ one reply

  predicate Succeeded(stage: Stage, reply: Reply) {
    && reply.Done?
    && if stage == PUBLISH then (reply.status == READY || reply.status == SKIPPED_DUPLICATE) && reply.id != ""
       else reply.status == COMPLETED || reply.status == SKIPPED_DUPLICATE
  }

  datatype Next = Continue(stage: Stage, input: string) | Ended(status: JobStatus)

  /** Where a run goes when the call at `stage` comes back. */
  function After(stage: Stage, reply: Reply): Next {
    if !Succeeded(stage, reply) then Ended(FAILED(stage, reply.Threw?))
    else match stage
      case INGEST => Continue(BRONZE_TO_SILVER, reply.id)
      case BRONZE_TO_SILVER => Continue(SILVER_TO_GOLD, reply.id)
      case SILVER_TO_GOLD => Continue(PUBLISH, reply.id)
      case PUBLISH => Ended(SUCCEEDED(reply.id))
  }

  function Rank(stage: Stage): nat {
    match stage case INGEST => 0 case BRONZE_TO_SILVER => 1 case SILVER_TO_GOLD => 2 case PUBLISH => 3
  }

  // ------------------------------------------------------------ what a run owes

  /** The calls of a run so far: the stages in order, every call but possibly the last
      a success, each fed the id its predecessor returned, the first the source. */
  predicate Chained(calls: seq<Call>, source: string) {
    && |calls| <= 4
    && (forall i :: 0 <= i < |calls| ==> Rank(calls[i].stage) == i)
    && (calls != [] ==> calls[0].input == source)
    && (forall i :: 0 <= i < |calls| ==> Fed(calls, i))
  }

  predicate Fed(calls: seq<Call>, i: nat)
    requires i < |calls|
  {
    i > 0 ==> Succeeded(calls[i - 1].stage, calls[i - 1].reply) && calls[i].input == calls[i - 1].reply.id
  }

  /** A job row tells the truth about the calls of its last run: SUCCEEDED after all four
      stages succeeded, with the id the last returned; FAILED at the first that failed. */
  predicate Truthful(status: JobStatus, calls: seq<Call>, source: string) {
    && Chained(calls, source)
    && match status
       case SUCCEEDED(out) =>
         |calls| == 4 && Succeeded(calls[3].stage, calls[3].reply) && out == calls[3].reply.id && out != ""
       case FAILED(at, internal) =>
         calls != []
         && var last := calls[|calls| - 1];
            last.stage == at && !Succeeded(at, last.reply) && (internal <==> last.reply.Threw?)
       case _ => true
  }

  /** A run waiting for its call at `stage` to come back. */
  predicate InProgress(calls: seq<Call>, source: string, stage: Stage, input: string) {
    && Chained(calls, source) && |calls| == Rank(stage)
    && (calls == [] ==> input == source)
    && (calls != [] ==> var last := calls[|calls| - 1]; Succeeded(last.stage, last.reply) && input == last.reply.id)
  }

  /** A reply keeps a run in order, or ends it truthfully. */
  lemma ReplyKeepsOrder(calls: seq<Call>, source: string, stage: Stage, input: string, reply: Reply)
    requires InProgress(calls, source, stage, input)
    ensures match After(stage, reply)
            case Continue(next, id) => InProgress(calls + [Call(stage, input, reply)], source, next, id)
            case Ended(status) => Truthful(status, calls + [Call(stage, input, reply)], source)
                                  && (status.SUCCEEDED? || status.FAILED?)
  {
    var all := calls + [Call(stage, input, reply)];
    forall i | 0 <= i < |all| ensures Fed(all, i) {
      assert i < |calls| ==> Fed(calls, i);
    }
  }

  // ------------------------------------------------------------ one job, start to end

  /** The downstream services during one run. */
  datatype Services = Services(
    ingest: string -> Reply,
    bronzeToSilver: string -> Reply,
    silverToGold: string -> Reply,
    publish: string -> Reply)

  function Ask(svc: Services, stage: Stage, input: string): Reply {
    match stage
    case INGEST => svc.ingest(input)
    case BRONZE_TO_SILVER => svc.bronzeToSilver(input)
    case SILVER_TO_GOLD => svc.silverToGold(input)
    case PUBLISH => svc.publish(input)
  }

  /** The calls and the end of a run from `stage` on. */
  function RunFrom(svc: Services, stage: Stage, input: string, calls: seq<Call>): (seq<Call>, JobStatus)
    decreases 4 - Rank(stage)
  {
    var reply := Ask(svc, stage, input);
    var all := calls + [Call(stage, input, reply)];
    match After(stage, reply)
    case Continue(next, id) => RunFrom(svc, next, id, all)
    case Ended(status) => (all, status)
  }

  lemma {:induction false} RunIsTruthful(svc: Services, source: string, stage: Stage, input: string, calls: seq<Call>)
    requires InProgress(calls, source, stage, input)
    ensures var (all, status) := RunFrom(svc, stage, input, calls);
            Truthful(status, all, source) && (status.SUCCEEDED? || status.FAILED?)
    decreases 4 - Rank(stage)
  {
    var reply := Ask(svc, stage, input);
    ReplyKeepsOrder(calls, source, stage, input, reply);
    match After(stage, reply)
    case Continue(next, id) => RunIsTruthful(svc, source, next, id, calls + [Call(stage, input, reply)]);
    case Ended(_) =>
  }

  /** A row once its run is over: a failed row keeps the stage it failed at. */
  function Closed(row: JobRow, status: JobStatus): JobRow {
    row.(status := status, stage := if status.FAILED? then Some(status.at) else None)
  }

  /** Nothing changed but the row of `jobId`. */
  ghost predicate OnlyRow(now: map<string, JobRow>, before: map<string, JobRow>, jobId: string) {
    jobId in now && now.Keys == before.Keys && forall j :: j in before && j != jobId ==> now[j] == before[j]
  }

  lemma StageIgnored(row: JobRow)
    ensures forall stage, status :: Closed(row.(stage := stage), status) == Closed(row, status)
  {
  }

  class JobTable {
    var jobs: map<string, JobRow>
    ghost var calls: seq<Call>

    constructor (jobs: map<string, JobRow>)
      ensures this.jobs == jobs && calls == []
    {
      this.jobs, calls := jobs, [];
    }

    method UpdateStage(jobId: string, stage: Stage)
      requires jobId in jobs
      modifies this`jobs
      ensures OnlyRow(jobs, old(jobs), jobId) && jobs[jobId] == old(jobs)[jobId].(stage := Some(stage))
    {
      jobs := jobs[jobId := jobs[jobId].(stage := Some(stage))];
    }

    method MarkFailed(jobId: string, stage: Stage, internal: bool)
      requires jobId in jobs
      modifies this`jobs
      ensures OnlyRow(jobs, old(jobs), jobId) && jobs[jobId] == Closed(old(jobs)[jobId], FAILED(stage, internal))
    {
      jobs := jobs[jobId := jobs[jobId].(stage := Some(stage), status := FAILED(stage, internal))];
    }

    method MarkSucceeded(jobId: string, outboundId: string)
      requires jobId in jobs
      modifies this`jobs
      ensures OnlyRow(jobs, old(jobs), jobId) && jobs[jobId] == Closed(old(jobs)[jobId], SUCCEEDED(outboundId))
    {
      jobs := jobs[jobId := jobs[jobId].(stage := None, status := SUCCEEDED(outboundId))];
    }

    /** One claimed job through the chain; an exception lands in the same branch as a
        status that is no success, marked as an internal error. */
    method RunClaimedJob(jobId: string, svc: Services)
      requires jobId in jobs && jobs[jobId].status == RUNNING
      modifies this
      ensures var (made, status) := RunFrom(svc, INGEST, old(jobs)[jobId].source, []);
              calls == old(calls) + made
              && OnlyRow(jobs, old(jobs), jobId) && jobs[jobId] == Closed(old(jobs)[jobId], status)
    {
      hide RunFrom, Succeeded, After, Ask, Closed;
      var stage := INGEST;
      ghost var before, row := jobs, jobs[jobId];
      ghost var made: seq<Call> := [];
      StageIgnored(row);

      UpdateStage(jobId, stage);
      assert OnlyRow(jobs, before, jobId);
      var ingestion := svc.ingest(jobs[jobId].source);
      RunStep(svc, stage, row.source, ingestion, made);
      made := made + [Call(stage, row.source, ingestion)];
      if !Succeeded(stage, ingestion) {
        MarkFailed(jobId, stage, ingestion.Threw?);
        calls := calls + made;
        return;
      }

      stage := BRONZE_TO_SILVER;
      UpdateStage(jobId, stage);
      assert OnlyRow(jobs, before, jobId);
      var silver := svc.bronzeToSilver(ingestion.id);
      RunStep(svc, stage, ingestion.id, silver, made);
      made := made + [Call(stage, ingestion.id, silver)];
      if !Succeeded(stage, silver) {
        MarkFailed(jobId, stage, silver.Threw?);
        calls := calls + made;
        return;
      }

      stage := SILVER_TO_GOLD;
      UpdateStage(jobId, stage);
      assert OnlyRow(jobs, before, jobId);
      var gold := svc.silverToGold(silver.id);
      RunStep(svc, stage, silver.id, gold, made);
      made := made + [Call(stage, silver.id, gold)];
      if !Succeeded(stage, gold) {
        MarkFailed(jobId, stage, gold.Threw?);
        calls := calls + made;
        return;
      }

      stage := PUBLISH;
      UpdateStage(jobId, stage);
      assert OnlyRow(jobs, before, jobId);
      var publication := svc.publish(gold.id);
      RunStep(svc, stage, gold.id, publication, made);
      made := made + [Call(stage, gold.id, publication)];
      calls := calls + made;
      if !Succeeded(stage, publication) {
        MarkFailed(jobId, stage, publication.Threw?);
        return;
      }
      MarkSucceeded(jobId, publication.id);
    }
  }

  /** One call unfolded: a failure ends the run there, a success goes on. */
  lemma RunStep(svc: Services, stage: Stage, input: string, reply: Reply, calls: seq<Call>)
    requires reply == match stage
                      case INGEST => svc.ingest(input)
                      case BRONZE_TO_SILVER => svc.bronzeToSilver(input)
                      case SILVER_TO_GOLD => svc.silverToGold(input)
                      case PUBLISH => svc.publish(input)
    ensures var all := calls + [Call(stage, input, reply)];
            && (!Succeeded(stage, reply) ==>
                  RunFrom(svc, stage, input, calls) == (all, FAILED(stage, reply.Threw?)))
            && (Succeeded(stage, reply) ==>
                  reply.Done? &&
                  RunFrom(svc, stage, input, calls)
                  == match stage
                     case INGEST => RunFrom(svc, BRONZE_TO_SILVER, reply.id, all)
                     case BRONZE_TO_SILVER => RunFrom(svc, SILVER_TO_GOLD, reply.id, all)
                     case SILVER_TO_GOLD => RunFrom(svc, PUBLISH, reply.id, all)
                     case PUBLISH => (all, SUCCEEDED(reply.id)))
  {
  }

  // ------------------------------------------------------------ everything at once

  /** Someone running a claimed job, waiting for the call at `stage`. */
  datatype Runner = Runner(jobId: string, fromPoll: bool, stage: Stage, input: string)

  /** The poll loop: `inFlight` is set by a tick and cleared when its job is done. */
  datatype Poll = Idle | Claiming | Busy(runner: nat)

  datatype System = System(
    jobs: map<string, JobRow>,
    calls: map<string, seq<Call>>,
    runners: map<nat, Runner>,
    poll: Poll,
    nextRunner: nat)

  datatype Step =
    | Enqueue(jobId: string, source: string)
    | Tick
    | PollClaim(choice: string)
    | AdminRun(jobId: string)
    | Reply(runner: nat, reply: Reply)

  predicate Pending(s: System, jobId: string) { jobId in s.jobs && s.jobs[jobId].status == PENDING }

  /** An oldest pending job. */
  ghost predicate MayClaim(s: System, jobId: string) {
    Pending(s, jobId) && forall j :: Pending(s, j) ==> s.jobs[jobId].createdAt <= s.jobs[j].createdAt
  }

  /** A job flipped to RUNNING in one statement, with someone to run it. */
  function Claim(s: System, jobId: string, fromPoll: bool, poll: Poll): System
    requires jobId in s.jobs
  {
    var row := s.jobs[jobId].(status := RUNNING, stage := Some(INGEST));
    System(s.jobs[jobId := row], s.calls[jobId := []],
           s.runners[s.nextRunner := Runner(jobId, fromPoll, INGEST, row.source)],
           poll, s.nextRunner + 1)
  }

  function Finish(s: System, r: nat, status: JobStatus): System
    requires r in s.runners && s.runners[r].jobId in s.jobs
  {
    var jobId := s.runners[r].jobId;
    s.(jobs := s.jobs[jobId := Closed(s.jobs[jobId], status)],
       runners := s.runners - {r},
       poll := if s.runners[r].fromPoll then Idle else s.poll)
  }

  function Receive(s: System, r: nat, reply: Reply): System
    requires r in s.runners && s.runners[r].jobId in s.jobs && s.runners[r].jobId in s.calls
  {
    var runner := s.runners[r];
    var t := s.(calls := s.calls[runner.jobId := s.calls[runner.jobId] + [Call(runner.stage, runner.input, reply)]]);
    match After(runner.stage, reply)
    case Continue(next, id) =>
      t.(jobs := s.jobs[runner.jobId := s.jobs[runner.jobId].(stage := Some(next))],
         runners := s.runners[r := runner.(stage := next, input := id)])
    case Ended(status) => Finish(t, r, status)
  }

  /** One runner served to its end. */
  function Serve(s: System, r: nat, svc: Services): System
    requires r in s.runners && s.runners[r].jobId in s.jobs && s.runners[r].jobId in s.calls
    decreases 4 - Rank(s.runners[r].stage)
  {
    var runner := s.runners[r];
    var reply := Ask(svc, runner.stage, runner.input);
    var t := Receive(s, r, reply);
    if After(runner.stage, reply).Continue? then Serve(t, r, svc) else t
  }

  /** In the running system a job goes through exactly the run of `RunClaimedJob`. */
  lemma {:induction false} ServeIsRun(s: System, r: nat, svc: Services)
    requires r in s.runners && s.runners[r].jobId in s.jobs && s.runners[r].jobId in s.calls
    ensures var runner := s.runners[r];
            var (all, status) := RunFrom(svc, runner.stage, runner.input, s.calls[runner.jobId]);
            var t := Serve(s, r, svc);
            && runner.jobId in t.calls && t.calls[runner.jobId] == all
            && OnlyRow(t.jobs, s.jobs, runner.jobId) && t.jobs[runner.jobId] == Closed(s.jobs[runner.jobId], status)
            && t.runners == s.runners - {r}
    decreases 4 - Rank(s.runners[r].stage)
  {
    var runner := s.runners[r];
    var reply := Ask(svc, runner.stage, runner.input);
    var t := Receive(s, r, reply);
    if After(runner.stage, reply).Continue? {
      hide Ask, Succeeded;
      ServeIsRun(t, r, svc);
      StageIgnored(s.jobs[runner.jobId]);
      assert t.runners - {r} == s.runners - {r};
    }
  }

  /** What each step may do; steps that find nothing to do leave the system alone. */
  ghost predicate Takes(s: System, step: Step, t: System) {
    match step
    case Enqueue(jobId, source) =>
      if jobId in s.jobs then t == s
      else t == s.(jobs := s.jobs[jobId := JobRow(PENDING, None, source, |s.jobs|)], calls := s.calls[jobId := []])
    case Tick => t == if s.poll.Idle? then s.(poll := Claiming) else s
    case PollClaim(choice) =>
      if !s.poll.Claiming? then t == s
      else if exists j :: Pending(s, j) then MayClaim(s, choice) && t == Claim(s, choice, true, Busy(s.nextRunner))
      else t == s.(poll := Idle)
    case AdminRun(jobId) =>
      if jobId in s.jobs && s.jobs[jobId].status != RUNNING then t == Claim(s, jobId, false, s.poll) else t == s
    case Reply(r, reply) =>
      if r in s.runners then s.runners[r].jobId in s.jobs && s.runners[r].jobId in s.calls && t == Receive(s, r, reply)
      else t == s
  }

  /** RUNNING jobs and runners correspond one to one, the poll loop runs at most one job,
      and every row tells the truth about the calls made for it. */
  ghost predicate Inv(s: System) {
    s.jobs.Keys == s.calls.Keys && RunnersOk(s) && OneJobEach(s) && AllServed(s) && PollOk(s) && RowsTruthful(s)
  }

  ghost predicate RunnersOk(s: System) {
    forall r :: r in s.runners ==> r < s.nextRunner && RunnerOk(s, s.runners[r])
  }

  ghost predicate OneJobEach(s: System) {
    forall q, r :: q in s.runners && r in s.runners && q != r ==> s.runners[q].jobId != s.runners[r].jobId
  }

  ghost predicate AllServed(s: System) {
    forall j :: j in s.jobs && s.jobs[j].status == RUNNING ==> exists r :: r in s.runners && s.runners[r].jobId == j
  }

  ghost predicate PollOk(s: System) {
    && (forall r :: r in s.runners && s.runners[r].fromPoll ==> s.poll == Busy(r))
    && (s.poll.Busy? ==> s.poll.runner in s.runners && s.runners[s.poll.runner].fromPoll)
  }

  ghost predicate RowsTruthful(s: System) {
    forall j :: j in s.jobs && j in s.calls ==> Truthful(s.jobs[j].status, s.calls[j], s.jobs[j].source)
  }

  ghost predicate RunnerOk(s: System, r: Runner) {
    && r.jobId in s.jobs && r.jobId in s.calls
    && s.jobs[r.jobId].status == RUNNING && s.jobs[r.jobId].stage == Some(r.stage)
    && InProgress(s.calls[r.jobId], s.jobs[r.jobId].source, r.stage, r.input)
  }

  // ------------------------------------------------------------ safety

  lemma FreshRun(source: string)
    ensures InProgress([], source, INGEST, source) && Truthful(RUNNING, [], source) && Truthful(PENDING, [], source)
  {
  }

  lemma StillTruthful(calls: seq<Call>, source: string, stage: Stage, input: string)
    requires InProgress(calls, source, stage, input)
    ensures Truthful(RUNNING, calls, source)
  {
  }

  /** Runners untouched by a change to one job they do not run stay in order. */
  lemma OthersKeep(s: System, t: System, jobId: string)
    requires RunnersOk(s) && s.nextRunner <= t.nextRunner
    requires forall j :: j in s.jobs && j in s.calls && j != jobId ==>
               j in t.jobs && j in t.calls && t.jobs[j] == s.jobs[j] && t.calls[j] == s.calls[j]
    ensures forall q :: q in s.runners && q in t.runners && t.runners[q] == s.runners[q]
                        && s.runners[q].jobId != jobId ==>
              q < t.nextRunner && RunnerOk(t, t.runners[q])
  {
    hide Truthful, InProgress;
    forall q | q in s.runners && q in t.runners && t.runners[q] == s.runners[q] && s.runners[q].jobId != jobId
      ensures q < t.nextRunner && RunnerOk(t, t.runners[q])
    {
      assert RunnerOk(s, s.runners[q]);
    }
  }

  /** Rows untouched by a change to one job stay truthful. */
  lemma RowsKeep(s: System, t: System, jobId: string)
    requires RowsTruthful(s) && jobId in t.jobs && jobId in t.calls
    requires Truthful(t.jobs[jobId].status, t.calls[jobId], t.jobs[jobId].source)
    requires forall j :: j in t.jobs && j in t.calls && j != jobId ==>
               j in s.jobs && j in s.calls && t.jobs[j] == s.jobs[j] && t.calls[j] == s.calls[j]
    ensures RowsTruthful(t)
  {
    hide Truthful;
  }

  /** The pairing of runners and RUNNING jobs depends on little else. */
  lemma PairingKeeps(s: System, t: System)
    requires OneJobEach(s) && AllServed(s) && PollOk(s) && t.poll == s.poll
    requires t.runners.Keys == s.runners.Keys
    requires forall q :: q in s.runners ==>
               t.runners[q].jobId == s.runners[q].jobId && t.runners[q].fromPoll == s.runners[q].fromPoll
    requires forall j :: j in t.jobs && t.jobs[j].status == RUNNING ==> j in s.jobs && s.jobs[j].status == RUNNING
    ensures OneJobEach(t) && AllServed(t) && PollOk(t)
  {
    forall j | j in t.jobs && t.jobs[j].status == RUNNING
      ensures exists q :: q in t.runners && t.runners[q].jobId == j
    {
      var q :| q in s.runners && s.runners[q].jobId == j;
      assert t.runners[q].jobId == j;
    }
  }

  lemma ClaimPairs(s: System, jobId: string, fromPoll: bool, poll: Poll)
    requires Inv(s) && jobId in s.jobs && s.jobs[jobId].status != RUNNING
    requires if fromPoll then s.poll == Claiming && poll == Busy(s.nextRunner) else poll == s.poll
    ensures var t := Claim(s, jobId, fromPoll, poll); OneJobEach(t) && AllServed(t) && PollOk(t)
  {
    hide RowsTruthful, Truthful, InProgress;
    var t := Claim(s, jobId, fromPoll, poll);
    forall r | r in s.runners ensures r != s.nextRunner && s.runners[r].jobId != jobId {
      assert RunnerOk(s, s.runners[r]);
    }
    forall j | j in t.jobs && t.jobs[j].status == RUNNING
      ensures exists r :: r in t.runners && t.runners[r].jobId == j
    {
      if j == jobId {
        assert t.runners[s.nextRunner].jobId == j;
      } else {
        var r :| r in s.runners && s.runners[r].jobId == j;
        assert t.runners[r].jobId == j;
      }
    }
  }

  lemma ClaimKeeps(s: System, jobId: string, fromPoll: bool, poll: Poll)
    requires Inv(s) && jobId in s.jobs && s.jobs[jobId].status != RUNNING
    requires if fromPoll then s.poll == Claiming && poll == Busy(s.nextRunner) else poll == s.poll
    ensures Inv(Claim(s, jobId, fromPoll, poll))
  {
    hide Truthful, InProgress, OneJobEach, AllServed, PollOk, RowsTruthful;
    var t := Claim(s, jobId, fromPoll, poll);
    FreshRun(s.jobs[jobId].source);
    ClaimPairs(s, jobId, fromPoll, poll);
    RowsKeep(s, t, jobId);
    OthersKeep(s, t, jobId);
    forall r | r in s.runners ensures r != s.nextRunner && s.runners[r].jobId != jobId {
      assert RunnerOk(s, s.runners[r]);
    }
  }

  /** A runner that goes on to its next stage. */
  lemma AdvanceKeeps(s: System, r: nat, calls: seq<Call>, stage: Stage, input: string)
    requires Inv(s) && r in s.runners && s.runners[r].jobId in s.jobs
    requires InProgress(calls, s.jobs[s.runners[r].jobId].source, stage, input)
    ensures var runner := s.runners[r];
            Inv(s.(calls := s.calls[runner.jobId := calls],
                   jobs := s.jobs[runner.jobId := s.jobs[runner.jobId].(stage := Some(stage))],
                   runners := s.runners[r := runner.(stage := stage, input := input)]))
  {
    hide Truthful, InProgress, AllServed, PollOk, RowsTruthful;
    var runner := s.runners[r];
    var t := s.(calls := s.calls[runner.jobId := calls],
                jobs := s.jobs[runner.jobId := s.jobs[runner.jobId].(stage := Some(stage))],
                runners := s.runners[r := runner.(stage := stage, input := input)]);
    assert RunnerOk(s, runner);
    StillTruthful(calls, s.jobs[runner.jobId].source, stage, input);
    RowsKeep(s, t, runner.jobId);
    OthersKeep(s, t, runner.jobId);
    PairingKeeps(s, t);
  }

  lemma FinishPairs(s: System, r: nat, status: JobStatus)
    requires Inv(s) && r in s.runners && s.runners[r].jobId in s.jobs && status != RUNNING
    ensures var t := Finish(s, r, status); OneJobEach(t) && AllServed(t) && PollOk(t)
  {
    hide RowsTruthful, RunnersOk;
    var t := Finish(s, r, status);
    forall j | j in t.jobs && t.jobs[j].status == RUNNING
      ensures exists q :: q in t.runners && t.runners[q].jobId == j
    {
      var q :| q in s.runners && s.runners[q].jobId == j;
      assert q in t.runners;
    }
  }

  /** A runner that is done. */
  lemma FinishKeeps(s: System, r: nat, calls: seq<Call>, status: JobStatus)
    requires Inv(s) && r in s.runners && s.runners[r].jobId in s.jobs
    requires Truthful(status, calls, s.jobs[s.runners[r].jobId].source) && status != RUNNING
    ensures Inv(Finish(s.(calls := s.calls[s.runners[r].jobId := calls]), r, status))
  {
    hide Truthful, InProgress, AllServed, PollOk, RowsTruthful;
    var t := Finish(s.(calls := s.calls[s.runners[r].jobId := calls]), r, status);
    FinishPairs(s, r, status);
    SamePairing(Finish(s, r, status), t);
    RowsKeep(s, t, s.runners[r].jobId);
    OthersKeep(s, t, s.runners[r].jobId);
  }

  lemma SamePairing(s: System, t: System)
    requires OneJobEach(s) && AllServed(s) && PollOk(s) && t == s.(calls := t.calls)
    ensures OneJobEach(t) && AllServed(t) && PollOk(t)
  {
  }

  lemma ReceiveKeeps(s: System, r: nat, reply: Reply)
    requires Inv(s) && r in s.runners && s.runners[r].jobId in s.jobs && s.runners[r].jobId in s.calls
    ensures Inv(Receive(s, r, reply))
  {
    hide Truthful, InProgress, After, OneJobEach, AllServed, PollOk, RowsTruthful, Finish;
    var runner := s.runners[r];
    var calls := s.calls[runner.jobId];
    var all := calls + [Call(runner.stage, runner.input, reply)];
    assert RunnerOk(s, runner);
    ReplyKeepsOrder(calls, s.jobs[runner.jobId].source, runner.stage, runner.input, reply);
    match After(runner.stage, reply)
    case Continue(next, id) => AdvanceKeeps(s, r, all, next, id);
    case Ended(status) => FinishKeeps(s, r, all, status);
  }

  lemma EnqueueKeeps(s: System, jobId: string, source: string)
    requires Inv(s) && jobId !in s.jobs
    ensures Inv(s.(jobs := s.jobs[jobId := JobRow(PENDING, None, source, |s.jobs|)], calls := s.calls[jobId := []]))
  {
    hide Truthful, InProgress, OneJobEach, AllServed, PollOk, RowsTruthful;
    FreshRun(source);
    var t := s.(jobs := s.jobs[jobId := JobRow(PENDING, None, source, |s.jobs|)], calls := s.calls[jobId := []]);
    RowsKeep(s, t, jobId);
    OthersKeep(s, t, jobId);
    PairingKeeps(s, t);
    forall r | r in t.runners ensures RunnerOk(t, t.runners[r]) {
      assert RunnerOk(s, s.runners[r]);
    }
  }

  /** Whatever step is taken, by whomever, the invariant survives. */
  lemma StepKeeps(s: System, step: Step, t: System)
    requires Inv(s) && Takes(s, step, t)
    ensures Inv(t)
  {
    hide Truthful, RunnerOk, Receive, Claim;
    match step
    case Enqueue(jobId, source) =>
      if jobId !in s.jobs {
        EnqueueKeeps(s, jobId, source);
      }
    case Tick => PollMoves(s, t);
    case PollClaim(choice) =>
      if s.poll.Claiming? && exists j :: Pending(s, j) {
        ClaimKeeps(s, choice, true, Busy(s.nextRunner));
      } else {
        PollMoves(s, t);
      }
    case AdminRun(jobId) =>
      if jobId in s.jobs && s.jobs[jobId].status != RUNNING {
        ClaimKeeps(s, jobId, false, s.poll);
      }
    case Reply(r, reply) =>
      if r in s.runners {
        ReceiveKeeps(s, r, reply);
      }
  }

  lemma PollMoves(s: System, t: System)
    requires Inv(s) && (t == s || (!s.poll.Busy? && t == s.(poll := t.poll) && !t.poll.Busy?))
    ensures Inv(t)
  {
    forall r | r in t.runners ensures RunnerOk(t, t.runners[r]) {
      assert RunnerOk(s, s.runners[r]);
    }
  }

  ghost predicate Behaviour(states: seq<System>, steps: seq<Step>) {
    && |states| == |steps| + 1
    && states[0] == System(map[], map[], map[], Idle, 0)
    && forall i :: 0 <= i < |steps| ==> Takes(states[i], steps[i], states[i + 1])
  }

  lemma {:induction false} AlwaysInv(states: seq<System>, steps: seq<Step>, i: nat)
    requires Behaviour(states, steps) && i < |states|
    ensures Inv(states[i])
  {
    if i > 0 {
      AlwaysInv(states, steps, i - 1);
      StepKeeps(states[i - 1], steps[i - 1], states[i]);
    }
  }

  /** In every reachable state of every interleaving: a RUNNING job has exactly one runner
      and a runner's job is RUNNING, the poll loop has at most one, and a finished job is
      SUCCEEDED only after the four stages succeeded in order, else FAILED where it broke. */
  lemma WorkerSafety(states: seq<System>, steps: seq<Step>, i: nat)
    requires Behaviour(states, steps) && i < |states|
    ensures var s := states[i];
            && (forall j :: j in s.jobs ==> j in s.calls && Truthful(s.jobs[j].status, s.calls[j], s.jobs[j].source))
            && (forall j :: j in s.jobs && s.jobs[j].status == RUNNING ==>
                  exists r :: r in s.runners && s.runners[r].jobId == j)
            && (forall r :: r in s.runners ==>
                  s.runners[r].jobId in s.jobs && s.jobs[s.runners[r].jobId].status == RUNNING)
            && (forall q, r :: q in s.runners && r in s.runners && s.runners[q].jobId == s.runners[r].jobId ==> q == r)
            && (forall q, r :: q in s.runners && r in s.runners && s.runners[q].fromPoll && s.runners[r].fromPoll ==>
                q == r)
  {
    hide Truthful, Takes;
    AlwaysInv(states, steps, i);
    var s := states[i];
    forall r | r in s.runners ensures s.runners[r].jobId in s.jobs && s.jobs[s.runners[r].jobId].status == RUNNING {
      assert RunnerOk(s, s.runners[r]);
    }
  }

  // ------------------------------------------------------------ what the rows say, spelled out

  const ORDER := [INGEST, BRONZE_TO_SILVER, SILVER_TO_GOLD, PUBLISH]

  /** A call came back as its stage wants it. */
  predicate WentWell(c: Call) {
    c.reply.Done?
    && if c.stage == PUBLISH then c.reply.status in {READY, SKIPPED_DUPLICATE} && |c.reply.id| > 0
       else c.reply.status in {COMPLETED, SKIPPED_DUPLICATE}
  }

  /** The first call gets the source, each other the id the one before returned. */
  predicate FedBy(calls: seq<Call>, k: nat, source: string)
    requires k < |calls|
  {
    if k == 0 then calls[0].input == source
    else calls[k - 1].reply.Done? && calls[k].input == calls[k - 1].reply.id
  }

  lemma ChainedMeans(calls: seq<Call>, source: string)
    requires Chained(calls, source)
    ensures |calls| <= 4 && forall i :: 0 <= i < |calls| ==> calls[i].stage == ORDER[i]
    ensures forall i :: 0 <= i < |calls| - 1 ==> WentWell(calls[i])
    ensures forall i :: 0 <= i < |calls| ==> FedBy(calls, i, source)
  {
    forall i | 0 <= i < |calls| - 1 ensures WentWell(calls[i]) {
      assert Fed(calls, i + 1);
    }
    forall i | 0 <= i < |calls| ensures FedBy(calls, i, source) {
      assert Fed(calls, i);
    }
  }

  /** In every reachable state a SUCCEEDED job went through the four stages in order, each fed
      the id before: the first three came back COMPLETED or SKIPPED_DUPLICATE, the last READY
      or SKIPPED_DUPLICATE with the id it stands for. */
  lemma SucceededJob(states: seq<System>, steps: seq<Step>, i: nat, j: string)
    requires Behaviour(states, steps) && i < |states| && j in states[i].jobs && states[i].jobs[j].status.SUCCEEDED?
    ensures j in states[i].calls
    ensures var calls, row := states[i].calls[j], states[i].jobs[j];
            && |calls| == 4 && (forall k :: 0 <= k < 4 ==> calls[k].stage == ORDER[k] && calls[k].reply.Done?)
            && (forall k :: 0 <= k < 3 ==> calls[k].reply.status in {COMPLETED, SKIPPED_DUPLICATE})
            && calls[3].reply.status in {READY, SKIPPED_DUPLICATE}
            && (forall k :: 0 <= k < 4 ==> FedBy(calls, k, row.source))
            && row.status.outboundId == calls[3].reply.id && row.status.outboundId != ""
  {
    hide Takes, Chained;
    AlwaysInv(states, steps, i);
    var calls := states[i].calls[j];
    ChainedMeans(calls, states[i].jobs[j].source);
    assert WentWell(calls[0]) && WentWell(calls[1]) && WentWell(calls[2]) && WentWell(calls[3]);
  }

  /** And a FAILED job stopped at its first call that threw, came back empty, had a status
      outside its stage's two, or published without an id; an internal error is one that threw. */
  lemma FailedJob(states: seq<System>, steps: seq<Step>, i: nat, j: string)
    requires Behaviour(states, steps) && i < |states| && j in states[i].jobs && states[i].jobs[j].status.FAILED?
    ensures j in states[i].calls
    ensures var calls, row := states[i].calls[j], states[i].jobs[j];
            && 1 <= |calls| <= 4 && (forall k :: 0 <= k < |calls| ==> calls[k].stage == ORDER[k])
            && (forall k :: 0 <= k < |calls| - 1 ==>
                  calls[k].reply.Done? && calls[k].reply.status in {COMPLETED, SKIPPED_DUPLICATE})
            && (forall k :: 0 <= k < |calls| ==> FedBy(calls, k, row.source))
            && var last := calls[|calls| - 1].reply;
               && row.status.at == ORDER[|calls| - 1] && (row.status.internalError <==> last.Threw?)
               && (last.Done? ==>
                     if |calls| == 4 then last.status !in {READY, SKIPPED_DUPLICATE} || last.id == ""
                     else last.status !in {COMPLETED, SKIPPED_DUPLICATE})
  {
    hide Takes, Chained;
    AlwaysInv(states, steps, i);
    ChainedMeans(states[i].calls[j], states[i].jobs[j].source);
    var calls := states[i].calls[j];
    assert forall k :: 0 <= k < |calls| - 1 ==> WentWell(calls[k]);
  }

  /** A run from its first call on: to the end, or to the first reply its stage does not want. */
  lemma RunDoes(svc: Services, source: string)
    ensures var a := svc.ingest(source);
            var first := [Call(INGEST, source, a)];
            if !WentWell(first[0]) then RunFrom(svc, INGEST, source, []) == (first, FAILED(INGEST, a == Threw))
            else
              var b := svc.bronzeToSilver(a.id);
              var second := first + [Call(BRONZE_TO_SILVER, a.id, b)];
              if !WentWell(second[1])
              then RunFrom(svc, INGEST, source, []) == (second, FAILED(BRONZE_TO_SILVER, b == Threw))
              else
                var c := svc.silverToGold(b.id);
                var third := second + [Call(SILVER_TO_GOLD, b.id, c)];
                if !WentWell(third[2])
                then RunFrom(svc, INGEST, source, []) == (third, FAILED(SILVER_TO_GOLD, c == Threw))
                else
                  var d := svc.publish(c.id);
                  var fourth := third + [Call(PUBLISH, c.id, d)];
                  RunFrom(svc, INGEST, source, [])
                  == (fourth, if WentWell(fourth[3]) then SUCCEEDED(d.id) else FAILED(PUBLISH, d == Threw))
  {
    hide RunFrom;
    var a := svc.ingest(source);
    var first := [Call(INGEST, source, a)];
    RunStep(svc, INGEST, source, a, []);
    assert [] + first == first;
    if WentWell(first[0]) {
      var b := svc.bronzeToSilver(a.id);
      var second := first + [Call(BRONZE_TO_SILVER, a.id, b)];
      RunStep(svc, BRONZE_TO_SILVER, a.id, b, first);
      if WentWell(second[1]) {
        var c := svc.silverToGold(b.id);
        RunStep(svc, SILVER_TO_GOLD, b.id, c, second);
        var third := second + [Call(SILVER_TO_GOLD, b.id, c)];
        if WentWell(third[2]) {
          RunStep(svc, PUBLISH, c.id, svc.publish(c.id), third);
        }
      }
    }
  }

  // ------------------------------------------------------------ what each step does, spelled out

  /** A claimed job is RUNNING at INGEST with its calls forgotten and a new runner about to
      ingest its source; every other job and runner is as it was. */
  predicate Claimed(s: System, t: System, jobId: string, fromPoll: bool) {
    && jobId in s.jobs && t.jobs == s.jobs[jobId := JobRow(RUNNING, Some(INGEST), s.jobs[jobId].source,
                                                           s.jobs[jobId].createdAt)]
    && t.calls == s.calls[jobId := []] && t.nextRunner == s.nextRunner + 1
    && t.runners == s.runners[s.nextRunner := Runner(jobId, fromPoll, INGEST, s.jobs[jobId].source)]
  }

  lemma {:induction false} Oldest(s: System, ids: set<string>) returns (j: string)
    requires ids != {} && ids <= s.jobs.Keys
    ensures j in ids && forall k :: k in ids ==> s.jobs[j].createdAt <= s.jobs[k].createdAt
    decreases |ids|
  {
    var k :| k in ids;
    j := k;
    if ids != {k} {
      assert ids - {k} != {};
      var rest := Oldest(s, ids - {k});
      j := if s.jobs[rest].createdAt < s.jobs[k].createdAt then rest else k;
    }
  }

  /** While a job is PENDING there is one the poll loop may claim. */
  lemma SomeClaim(s: System, pending: string) returns (choice: string)
    requires pending in s.jobs && s.jobs[pending].status == PENDING
    ensures MayClaim(s, choice)
  {
    var ids := set j | j in s.jobs && s.jobs[j].status == PENDING;
    assert pending in ids;
    choice := Oldest(s, ids);
  }

  /** A tick while idle claims an oldest PENDING job, if there is one, and nothing while busy;
      an admin run claims any job that is not RUNNING; neither does anything else. */
  lemma ClaimsDo(s: System, choice: string, jobId: string, t: System, u: System, v: System)
    requires Takes(s, Tick, t) && Takes(t, PollClaim(choice), u) && Takes(s, AdminRun(jobId), v)
    ensures s.poll.Busy? ==> t == s && u == s
    ensures s.poll.Idle? && (forall j :: j in s.jobs ==> s.jobs[j].status != PENDING) ==> u == s
    ensures s.poll.Idle? && (exists j :: j in s.jobs && s.jobs[j].status == PENDING) ==>
              && Claimed(s, u, choice, true) && u.poll == Busy(s.nextRunner) && s.jobs[choice].status == PENDING
              && forall j :: j in s.jobs && s.jobs[j].status == PENDING ==>
                   s.jobs[choice].createdAt <= s.jobs[j].createdAt
    ensures if jobId in s.jobs && s.jobs[jobId].status != RUNNING
            then Claimed(s, v, jobId, false) && v.poll == s.poll
            else v == s
  {
    if s.poll.Idle? && exists j :: j in s.jobs && s.jobs[j].status == PENDING {
      var j :| j in s.jobs && s.jobs[j].status == PENDING;
      assert Pending(t, j);
      forall k | k in s.jobs && s.jobs[k].status == PENDING ensures s.jobs[choice].createdAt <= s.jobs[k].createdAt {
        assert Pending(t, k);
      }
    }
  }

  /** A new job is PENDING with no stage and no calls; a known id changes nothing. */
  lemma EnqueueDoes(s: System, jobId: string, source: string, t: System)
    requires Takes(s, Enqueue(jobId, source), t)
    ensures if jobId in s.jobs then t == s
            else
              && t.jobs.Keys == s.jobs.Keys + {jobId} && (forall j :: j in s.jobs ==> t.jobs[j] == s.jobs[j])
              && t.jobs[jobId].status == PENDING && t.jobs[jobId].stage == None && t.jobs[jobId].source == source
              && t.calls == s.calls[jobId := []] && t.runners == s.runners && t.poll == s.poll
  {
  }

  /** A reply its stage wants takes job and runner to the next stage with the id it returned;
      the last such, or any other reply, ends the run and frees the poll loop that ran it. */
  lemma ReplyDoes(s: System, r: nat, reply: Reply, t: System)
    requires Takes(s, Reply(r, reply), t)
    ensures r !in s.runners ==> t == s
    ensures r in s.runners ==>
              var a := s.runners[r];
              var c := Call(a.stage, a.input, reply);
              && a.jobId in s.jobs && a.jobId in s.calls && t.calls == s.calls[a.jobId := s.calls[a.jobId] + [c]]
              && OnlyRow(t.jobs, s.jobs, a.jobId) && t.nextRunner == s.nextRunner
              && var row, was := t.jobs[a.jobId], s.jobs[a.jobId];
                 && row.source == was.source && row.createdAt == was.createdAt
                 && if WentWell(c) && a.stage != PUBLISH
                    then var next := if a.stage == INGEST then BRONZE_TO_SILVER
                                     else if a.stage == BRONZE_TO_SILVER then SILVER_TO_GOLD else PUBLISH;
                         && row.status == was.status && row.stage == Some(next) && t.poll == s.poll
                         && t.runners == s.runners[r := Runner(a.jobId, a.fromPoll, next, reply.id)]
                    else
                      && row.status == (if WentWell(c) then SUCCEEDED(reply.id) else FAILED(a.stage, reply == Threw))
                      && row.stage == (if WentWell(c) then None else Some(a.stage))
                      && t.runners == s.runners - {r} && t.poll == if a.fromPoll then Idle else s.poll
  {
  }
}
