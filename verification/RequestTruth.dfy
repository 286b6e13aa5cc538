/** data-exchange-service: what the status of a deletion request says about the exchange,
    whatever else runs meanwhile. */
module RequestTruth {
  import opened Deletion
  import opened ExchangeLifecycle
  import opened DeletionLog
  import opened DeletionLasts
  import opened StrayObjects
  import LegalHold

  // ------------------------------------------------------------ a request that FAILED

  predicate Eligible(s: System, id: string) {
    id in s.data.exchanges && s.data.exchanges[id].direction == OUTBOUND && s.data.exchanges[id].status == EXPIRED
  }

  /** The last step of a deletion of the exchange. */
  predicate Finishes(s: System, op: Op, id: string) {
    Moves(s, op) && var c := s.calls[op.call]; c.id == id && c.Deleting? && c.next == |c.files|
  }

  /** An exchange stops being EXPIRED exactly when its publication is failed, when a call that
      had begun to complete it sets its status, or when a deletion of it finishes. */
  lemma ExpiredIsLeft(s: System, event: Event, id: string)
    requires Inv(s) && Eligible(s, id)
    ensures !Eligible(Step(s, event), id)
            <==> event.op == Fail(id) || Sets(s, event.op, id) || Finishes(s, event.op, id)
  {
    hide Apply, FilesOwned, IdsPlain, CallsOk, CallOk, Owned;
    ExchangeView(s, event.op, event.now, id);
    if Moves(s, event.op) {
      BecomesOk(s, event.op.call);
    }
  }

  /** A request of the exchange that was COMPLETED. */
  predicate Done(s: System, id: string, r: nat) { Ended(s, r, Completed) && s.data.requests[r].exchangeId == id }

  ghost predicate NoMoreDone(s: System, t: System, id: string) { forall r :: Done(t, id, r) ==> Done(s, id, r) }

  predicate EligibleThroughout(s: System, events: seq<Event>, id: string)
    decreases |events|
  {
    Eligible(s, id) && (events != [] ==> EligibleThroughout(Step(s, events[0]), events[1..], id))
  }

  /** A deletion finishes exactly when a request of the exchange becomes COMPLETED. */
  lemma FinishesIff(s: System, event: Event, id: string)
    requires Inv(s) && LogInv(s)
    ensures NoMoreDone(s, Step(s, event), id) <==> !Finishes(s, event.op, id)
    ensures forall r :: Done(s, id, r) ==> Done(Step(s, event), id, r)
  {
    hide Apply, Accounted, AuditBounded, RowsRead, CallEvents, FilesOwned, IdsPlain, ExpiryPassed, CallsOk,
         CallRequests;
    var op, t := event.op, Step(s, event);
    LogView(s, op, event.now);
    if Moves(s, op) {
      var c := s.calls[op.call];
      MoveRequests(s, op);
      if Finishes(s, op, id) {
        assert OpenFor(s, c);
        assert Done(t, id, c.request) && !Done(s, id, c.request);
      }
    }
  }

  lemma MoveRequests(s: System, op: Op)
    requires Moves(s, op) && LogInv(s)
    ensures var c, q := s.calls[op.call], CallRequests(s.data, s.calls[op.call], op.reply);
            && |q| == |s.data.requests|
            && (c.Writing? ==> q == s.data.requests)
            && (!c.Writing? ==>
                  c.request < |q|
                  && s.data.requests[c.request] == Request(c.id, if c.Asked? then Requested else InProgress)
                  && q[c.request].exchangeId == c.id
                  && (q[c.request].status == Completed <==> c.Deleting? && c.next == |c.files|)
                  && forall r :: 0 <= r < |q| && r != c.request ==> q[r] == s.data.requests[r])
  {
    hide Accounted, AuditBounded, RowsRead, Ineligible;
    assert OpenFor(s, s.calls[op.call]);
  }

  lemma DoneStays(s: System, events: seq<Event>, id: string, r: nat)
    requires Inv(s) && LogInv(s) && Runs(s, events) && Done(s, id, r)
    ensures Done(Run(s, events), id, r)
  {
    hide Inv, LogInv, Runs, Run;
    ClosedForGood(s, events, r);
  }

  /** At some step of the run a call that had begun to complete the exchange sets its status. */
  predicate SetSomewhere(s: System, events: seq<Event>, id: string)
    decreases |events|
  {
    events != [] && (Sets(s, events[0].op, id) || SetSomewhere(Step(s, events[0]), events[1..], id))
  }

  /** So an EXPIRED exchange stays that over a run exactly when no request of it becomes
      COMPLETED, its publication is not failed and no completion sets its status: a request
      that FAILED meanwhile has left it eligible exactly then. */
  lemma {:induction false} EligibleStaysIff(s: System, events: seq<Event>, id: string)
    requires Inv(s) && LogInv(s) && Runs(s, events) && Eligible(s, id)
    ensures EligibleThroughout(s, events, id) <==>
            && NoMoreDone(s, Run(s, events), id) && !SetSomewhere(s, events, id)
            && forall i :: 0 <= i < |events| ==> events[i].op != Fail(id)
    decreases |events|
  {
    hide Inv, LogInv, Step, Legit, Eligible, Done, Finishes, Sets;
    if events != [] {
      var t, end := Step(s, events[0]), Run(s, events);
      ExpiredIsLeft(s, events[0], id);
      FinishesIff(s, events[0], id);
      StepKeeps(s, events[0]);
      StepAccounts(s, events[0]);
      forall r | Done(t, id, r) ensures Done(end, id, r) {
        DoneStays(t, events[1..], id, r);
      }
      if Eligible(t, id) {
        EligibleStaysIff(t, events[1..], id);
        assert forall i :: 0 < i < |events| ==> events[i] == events[1..][i - 1];
        assert forall i :: 0 <= i < |events| - 1 ==> events[1..][i] == events[i + 1];
      }
    }
  }

  /** The last cannot happen where no completion is under way. */
  lemma {:induction false} NeverSet(s: System, events: seq<Event>, id: string)
    requires Inv(s) && Runs(s, events) && Settled(s, id)
    ensures !SetSomewhere(s, events, id)
    decreases |events|
  {
    hide Inv, Step, Legit, Settled, Sets;
    if events != [] {
      NotSet(s, events[0].op, id);
      StepKeeps(s, events[0]);
      SettledStays(s, events[0], id);
      NeverSet(Step(s, events[0]), events[1..], id);
    }
  }

  lemma NotSet(s: System, op: Op, id: string)
    requires Settled(s, id)
    ensures !Sets(s, op, id)
  {
  }

  // ------------------------------------------------------------ a request that COMPLETED

  /** The deletion has read the rows of a settled exchange and is at the first. */
  predicate AtFirst(s: System, id: string, k: nat, r: nat) {
    && Settled(s, id) && k in s.calls && s.calls[k].Deleting? && s.calls[k].id == id && s.calls[k].request == r
    && r < |s.data.requests| && s.calls[k].files == FilesOf(s.data.files, id) && s.calls[k].next == 0
  }

  /** That is where an eligible deletion gets to in its first step. */
  lemma AskedIsAtFirst(s: System, id: string, k: nat, reply: StorageReply, now: int)
    requires Inv(s) && LogInv(s) && Settled(s, id) && k in s.calls && s.calls[k].Asked? && s.calls[k].id == id
    requires Ineligible(s.calls[k].seen).None?
    ensures AtFirst(Step(s, Event(now, Advance(k, reply))), id, k, s.calls[k].request)
  {
    hide Accounted, AuditBounded, RowsRead, FilesOwned, IdsPlain, ExpiryPassed, CallsOk, Ineligible, Apply;
    var event := Event(now, Advance(k, reply));
    assert OpenFor(s, s.calls[k]);
    assert Moves(s, event.op);
    SettledStays(s, event, id);
    CallsView(s, event.op, now);
    FilesView(s, event.op, now, id);
    LogView(s, event.op, now);
  }

  lemma AtFirstClears(s: System, id: string, k: nat, r: nat)
    requires AtFirst(s, id, k, r) && Lapsed(s, id) && HasData(s.data, id)
    ensures Clearing(s, id, k, r)
  {
  }

  /** Every storage call coming back, the deletion ends COMPLETED, and URLs stay as they were. */
  lemma {:induction false} DeletionCompletes(s: System, k: nat) returns (events: seq<Event>)
    requires k in s.calls && s.calls[k].Deleting? && Sane(s.data, s.calls[k])
    ensures Runs(s, events)
    ensures var t := Run(s, events);
            && Ended(t, s.calls[k].request, Completed) && t.urls == s.urls && t.data.clock == s.data.clock
            && t.data.files == s.data.files && t.data.exchanges.Keys == s.data.exchanges.Keys
    decreases |s.calls[k].files| - s.calls[k].next
  {
    var c, e := s.calls[k], Event(s.data.clock, Advance(k, Gone));
    var t := Step(s, e);
    if c.next == |c.files| {
      LastStep(s, k);
      events := [e];
      assert events[1..] == [] && Run(s, events) == Run(t, []);
    } else {
      OneStep(s, k);
      hide Step;
      var rest := DeletionCompletes(t, k);
      events := [e] + rest;
      assert events[1..] == rest;
    }
  }

  lemma LastStep(s: System, k: nat)
    requires k in s.calls && s.calls[k].Deleting? && Sane(s.data, s.calls[k])
    requires s.calls[k].next == |s.calls[k].files|
    ensures var t := Step(s, Event(s.data.clock, Advance(k, Gone)));
            && Ended(t, s.calls[k].request, Completed) && t.urls == s.urls && t.data.clock == s.data.clock
            && t.data.files == s.data.files && t.data.exchanges.Keys == s.data.exchanges.Keys
  {
  }

  lemma OneStep(s: System, k: nat)
    requires k in s.calls && s.calls[k].Deleting? && Sane(s.data, s.calls[k])
    requires s.calls[k].next < |s.calls[k].files|
    ensures var c, t := s.calls[k], Step(s, Event(s.data.clock, Advance(k, Gone)));
            && k in t.calls && t.calls[k] == c.(next := c.next + 1) && Sane(t.data, t.calls[k])
            && t.urls == s.urls && t.data.clock == s.data.clock
            && t.data.files == s.data.files && t.data.exchanges.Keys == s.data.exchanges.Keys
  {
  }

  /** The data file may still be put through a signed URL. */
  predicate Returnable(s: System, id: string) { HasData(s.data, id) && !Lapsed(s, id) }

  /** Then somebody may put it back after the deletion. */
  lemma PutAfter(s: System, id: string, k: nat, r: nat) returns (events: seq<Event>)
    requires Inv(s) && AtFirst(s, id, k, r) && Returnable(s, id)
    ensures Runs(s, events) && Ended(Run(s, events), r, Completed) && !Empty(Run(s, events), id)
  {
    hide Step, Inv, Settled;
    assert Sane(s.data, s.calls[k]);
    var first := DeletionCompletes(s, k);
    var t, put := Run(s, first), Event(s.data.clock, Put(id));
    events := first + [put];
    RunJoin(s, first, [put]);
    RunsJoin(s, first, put);
    assert [put][1..] == [] && Run(t, [put]) == Run(Step(t, put), []);
    PutBack(t, id, r, put);
  }

  lemma PutBack(t: System, id: string, r: nat, put: Event)
    requires put == Event(t.data.clock, Put(id)) && HasData(t.data, id) && id in t.urls && t.data.clock <= t.urls[id]
    requires Ended(t, r, Completed)
    ensures Ended(Step(t, put), r, Completed) && !Empty(Step(t, put), id)
  {
    assert DataOf(t.data, id) in FilesOf(t.data.files, id);
  }

  lemma {:induction false} RunsJoin(s: System, p: seq<Event>, e: Event)
    requires Runs(s, p) && Run(s, p).data.clock <= e.now && Legit(e.op)
    ensures Runs(s, p + [e])
    decreases |p|
  {
    hide Step, Legit;
    if p == [] {
      assert p + [e] == [e] && [e][1..] == [];
    } else {
      assert (p + [e])[0] == p[0] && (p + [e])[1..] == p[1..] + [e];
      RunsJoin(Step(s, p[0]), p[1..], e);
    }
  }

  lemma CompletedMeansGone(s: System, events: seq<Event>, id: string, k: nat, r: nat)
    requires Inv(s) && LogInv(s) && AtFirst(s, id, k, r) && !Returnable(s, id)
    requires Runs(s, events) && Ended(Run(s, events), r, Completed)
    ensures Empty(Run(s, events), id)
  {
    hide Inv, LogInv, AtFirst, Runs, Run, Ended, Settled, Lapsed;
    FirstIsSettled(s, id, k, r);
    if HasData(s.data, id) {
      AtFirstClears(s, id, k, r);
      CompletedMeansEmpty(s, events, id, k, r);
    } else {
      NoStrayRun(s, events, id);
      assert id in s.data.exchanges by { SettledIsThere(s, id); }
    }
  }

  lemma SettledIsThere(s: System, id: string)
    requires Settled(s, id)
    ensures id in s.data.exchanges
  {
  }

  /** In every run COMPLETED means that the exchange's files are gone, exactly if its data file
      could no longer be put when the deletion read them. */
  lemma CompletedEmptyIff(s: System, id: string, k: nat, r: nat)
    requires Inv(s) && LogInv(s) && AtFirst(s, id, k, r)
    ensures (forall events :: Runs(s, events) && Ended(Run(s, events), r, Completed) ==> Empty(Run(s, events), id))
            <==> !Returnable(s, id)
  {
    hide Inv, LogInv, AtFirst, Returnable, Runs, Run, Empty, Ended;
    if Returnable(s, id) {
      var events := PutAfter(s, id, k, r);
    } else {
      forall events | Runs(s, events) && Ended(Run(s, events), r, Completed) ensures Empty(Run(s, events), id) {
        CompletedMeansGone(s, events, id, k, r);
      }
    }
  }

  lemma FirstIsSettled(s: System, id: string, k: nat, r: nat)
    requires Inv(s) && AtFirst(s, id, k, r)
    ensures Settled(s, id) && id in s.data.files
  {
  }

  /** In every run COMPLETED means that nothing of the exchange is left in storage, exactly if
      its data file could no longer be put and no object of it was without a row. */
  lemma CompletedBareIff(s: System, id: string, k: nat, r: nat)
    requires Inv(s) && LogInv(s) && AtFirst(s, id, k, r)
    ensures (forall events :: Runs(s, events) && Ended(Run(s, events), r, Completed) ==> Bare(Run(s, events), id))
            <==> !Returnable(s, id) && NoStray(s, id)
  {
    hide Inv, LogInv, AtFirst, Returnable, Runs, Run, Empty, Ended, Bare, NoStray, Settled;
    CompletedEmptyIff(s, id, k, r);
    FirstIsSettled(s, id, k, r);
    forall events | Runs(s, events)
      ensures Bare(Run(s, events), id) <==> Empty(Run(s, events), id) && NoStray(s, id)
    {
      NoStrayRun(s, events, id);
      assert id in Run(s, events).data.files by { SettledHasRows(Run(s, events), id); }
      BareIff(Run(s, events), id);
    }
    if !NoStray(s, id) {
      var events := CompletesFrom(s, id, k, r);
      assert !Bare(Run(s, events), id);
    }
  }

  lemma CompletesFrom(s: System, id: string, k: nat, r: nat) returns (events: seq<Event>)
    requires Inv(s) && AtFirst(s, id, k, r)
    ensures Runs(s, events) && Ended(Run(s, events), r, Completed)
  {
    hide Inv, Runs, Run, Settled;
    assert Sane(s.data, s.calls[k]) by { LegalHold.CallSane(s, k); }
    events := DeletionCompletes(s, k);
  }
}
