/** data-exchange-service: the audit evidence of deletion requests, over every interleaving. */
module DeletionLog {
  import opened Options
  import opened Deletion
  import opened ExchangeLifecycle
  import StableSort

  predicate Concerns(a: Audit, request: nat) { !a.HoldChanged? && a.request == request }

  /** The audit events of one request, in order. */
  function Of(audit: seq<Audit>, r: nat): seq<Audit> { StableSort.Filter(audit, (a: Audit) => Concerns(a, r)) }

  /** The number a completed deletion reports: the file rows it read. */
  function Counted(rows: map<nat, nat>, r: nat): nat { if r in rows then rows[r] else 0 }

  /** A request has exactly the audit events its status calls for. */
  predicate Accounted(s: System, r: nat)
    requires r < |s.data.requests|
  {
    var q := s.data.requests[r];
    Of(s.data.audit, r) == Evidence(r, q.exchangeId, q.status, Counted(s.rows, r))
  }

  /** A call in flight holds a request of its own, still open. */
  predicate Holds(s: System, k: nat, r: nat) {
    k in s.calls && !s.calls[k].Writing? && s.calls[k].request == r
  }

  predicate OpenFor(s: System, c: Call) {
    !c.Writing? ==>
      && c.request < |s.data.requests|
      && s.data.requests[c.request] == Request(c.id, if c.Asked? then Requested else InProgress)
      && (c.Deleting? ==> c.request in s.rows && s.rows[c.request] == |c.files|)
      && (c.Asked? ==> c.request !in s.rows)
  }

  ghost predicate AuditBounded(s: System) {
    forall i :: 0 <= i < |s.data.audit| ==> s.data.audit[i].HoldChanged? || s.data.audit[i].request < |s.data.requests|
  }

  ghost predicate LogInv(s: System) {
    && (forall r :: 0 <= r < |s.data.requests| ==> Accounted(s, r))
    && AuditBounded(s) && CallsOpen(s) && RowsRead(s)
  }

  /** A count is at most the number of file rows there are: rows are only ever added. */
  ghost predicate RowsRead(s: System) {
    forall r :: r in s.rows ==>
      && r < |s.data.requests| && s.data.requests[r].exchangeId in s.data.exchanges
      && s.rows[r] <= |FilesOf(s.data.files, s.data.requests[r].exchangeId)|
  }

  /** Open requests and deletions in flight correspond one to one. */
  ghost predicate CallsOpen(s: System) {
    && (forall k :: k in s.calls ==> k < s.nextCall && OpenFor(s, s.calls[k]))
    && (forall k, l, r :: Holds(s, k, r) && Holds(s, l, r) ==> k == l)
    && (forall r :: 0 <= r < |s.data.requests| && s.data.requests[r].status in {Requested, InProgress} ==>
          exists k :: Holds(s, k, r))
  }

  // ------------------------------------------------------------ sequences

  lemma OfAppend(a: seq<Audit>, b: seq<Audit>, r: nat)
    ensures Of(a + b, r) == Of(a, r) + Of(b, r)
  {
    StableSort.FilterAppend(a, b, (x: Audit) => Concerns(x, r));
  }

  lemma OfNone(a: seq<Audit>, r: nat)
    requires forall x :: x in a ==> !Concerns(x, r)
    ensures Of(a, r) == []
  {
    StableSort.FilterNone(a, (x: Audit) => Concerns(x, r));
  }

  lemma OfAll(a: seq<Audit>, r: nat)
    requires forall x :: x in a ==> Concerns(x, r)
    ensures Of(a, r) == a
  {
    StableSort.FilterAll(a, (x: Audit) => Concerns(x, r));
  }

  /** What a step of a deletion adds completes the evidence of its request. */
  lemma EventsComplete(c: Call, reply: StorageReply)
    requires !c.Writing?
    ensures forall x :: x in CallEvents(c, reply) ==> Concerns(x, c.request)
    ensures var n := if c.Deleting? then |c.files| else 0;
            var before := Evidence(c.request, c.id, if c.Asked? then Requested else InProgress, n);
            match CallStatus(c, reply)
            case Some(status) => forall m: nat :: (status.Completed? ==> m == n) ==>
                                   before + CallEvents(c, reply) == Evidence(c.request, c.id, status, m)
            case None => CallEvents(c, reply) == []
  {
    hide Ineligible;
  }

  // ------------------------------------------------------------ a step of a call

  lemma MoveAccounts(s: System, op: Op, now: int, r: nat)
    requires LogInv(s) && Moves(s, op) && r < |s.data.requests|
    ensures r < |Apply(s, op, now).data.requests| && Accounted(Apply(s, op, now), r)
  {
    hide Apply, Evidence, CallStatus, CallEvents, Of, Sane;
    var c, t := s.calls[op.call], Apply(s, op, now);
    LogView(s, op, now);
    assert Accounted(s, r);
    OfAppend(s.data.audit, CallEvents(c, op.reply), r);
    if c.Writing? {
      WritingIsSilent(s, c, op.reply);
      OfNone([], r);
    } else {
      EventsComplete(c, op.reply);
      RequestsAfter(s, c, op.reply);
      if r == c.request {
        OfAll(CallEvents(c, op.reply), r);
        EarlyCount(r, c.id, Counted(s.rows, r));
        RowsAfter(s, c);
      } else {
        OfNone(CallEvents(c, op.reply), r);
      }
      assert Of(s.data.audit, r) + [] == Of(s.data.audit, r);
    }
  }

  lemma WritingIsSilent(s: System, c: Call, reply: StorageReply)
    requires c.Writing? && Sane(s.data, c)
    ensures CallEvents(c, reply) == [] && CallRequests(s.data, c, reply) == s.data.requests && CallRows(s, c) == s.rows
  {
  }

  lemma RequestsAfter(s: System, c: Call, reply: StorageReply)
    requires Sane(s.data, c) && !c.Writing? && OpenFor(s, c)
    ensures var q := CallRequests(s.data, c, reply);
            && |q| == |s.data.requests|
            && q[c.request] == Request(c.id, match CallStatus(c, reply)
                                             case Some(status) => status
                                             case None => s.data.requests[c.request].status)
            && forall r :: 0 <= r < |q| && r != c.request ==> q[r] == s.data.requests[r]
  {
    hide CallStatus;
  }

  lemma RowsAfter(s: System, c: Call)
    requires !c.Writing? && OpenFor(s, c)
    ensures c.Deleting? ==> CallRows(s, c) == s.rows && Counted(s.rows, c.request) == |c.files|
    ensures forall r :: r != c.request ==> Counted(CallRows(s, c), r) == Counted(s.rows, r)
    ensures c.Asked? ==> forall reply :: CallStatus(c, reply).Some? && !CallStatus(c, reply).value.Completed?
  {
    hide Ineligible;
  }

  /** Until it is completed a request's evidence has no count in it. */
  lemma EarlyCount(r: nat, id: string, n: nat)
    ensures forall status: RequestStatus, m: nat :: !status.Completed? ==>
              Evidence(r, id, status, m) == Evidence(r, id, status, n)
  {
  }

  lemma MoveKeepsCalls(s: System, op: Op, now: int)
    requires LogInv(s) && Moves(s, op)
    ensures CallsOpen(Apply(s, op, now))
  {
    hide Apply, Evidence, CallStatus, CallEvents, Of, Accounted, CallRequests, CallRows, RowsRead;
    var t, k, c := Apply(s, op, now), op.call, s.calls[op.call];
    LogView(s, op, now);
    CallsView(s, op, now);
    MoveOpens(s, op, now);
    if c.Writing? {
      WritingIsSilent(s, c, op.reply);
    } else {
      RequestsAfter(s, c, op.reply);
      RowsAfter(s, c);
      AskedOthers(s, c);
    }
    forall l | l in t.calls && l != k ensures l < t.nextCall && t.calls[l] == s.calls[l] && OpenFor(t, t.calls[l]) {
      assert OpenFor(s, s.calls[l]);
      if !s.calls[l].Writing? && !c.Writing? {
        assert Holds(s, l, s.calls[l].request) && Holds(s, k, c.request);
      }
    }
    forall l, m, r | Holds(t, l, r) && Holds(t, m, r) ensures l == m {
      assert Holds(s, l, r) && Holds(s, m, r);
    }
    forall r | 0 <= r < |t.data.requests| && t.data.requests[r].status in {Requested, InProgress}
      ensures exists l :: Holds(t, l, r)
    {
      OpenStays(s, op, now, r);
    }
  }

  /** What a moving call goes on to still holds its request, or has closed it. */
  lemma MoveOpens(s: System, op: Op, now: int)
    requires LogInv(s) && Moves(s, op)
    ensures var c, t := s.calls[op.call], Apply(s, op, now);
            var next := NextOf(s.data, c, op.reply, now, op.found);
            && (next.Some? ==> OpenFor(t, next.value) && next.value.Writing? == c.Writing?
                               && (!c.Writing? ==> next.value.request == c.request))
            && (next.None? && !c.Writing? ==> t.data.requests[c.request].status !in {Requested, InProgress})
  {
    hide Apply, Evidence, CallEvents, Of, Accounted, Output, RowsRead;
    LogView(s, op, now);
    assert OpenFor(s, s.calls[op.call]);
  }

  lemma AskedOthers(s: System, c: Call)
    requires !c.Writing? && OpenFor(s, c)
    ensures forall r :: r != c.request ==> (r in CallRows(s, c) <==> r in s.rows)
    ensures forall r :: r != c.request && r in s.rows ==> CallRows(s, c)[r] == s.rows[r]
  {
  }

  lemma OpenStays(s: System, op: Op, now: int, r: nat)
    requires LogInv(s) && Moves(s, op) && r < |Apply(s, op, now).data.requests|
    requires Apply(s, op, now).data.requests[r].status in {Requested, InProgress}
    ensures exists l :: Holds(Apply(s, op, now), l, r)
  {
    hide Apply, Evidence, CallStatus, CallEvents, Of, Accounted, CallRequests, CallRows, RowsRead, NextOf;
    var t, k, c := Apply(s, op, now), op.call, s.calls[op.call];
    LogView(s, op, now);
    CallsView(s, op, now);
    MoveOpens(s, op, now);
    if c.Writing? {
      WritingIsSilent(s, c, op.reply);
    } else {
      RequestsAfter(s, c, op.reply);
    }
    if !c.Writing? && r == c.request {
      assert Holds(t, k, r);
    } else {
      var l :| Holds(s, l, r);
      assert l != k;
      assert Holds(t, l, r);
    }
  }

  lemma MoveKeepsRows(s: System, op: Op, now: int)
    requires LogInv(s) && Inv(s) && Moves(s, op)
    ensures RowsRead(Apply(s, op, now)) && AuditBounded(Apply(s, op, now))
  {
    hide Apply, Evidence, CallStatus, CallEvents, Of, Accounted, CallRequests, FilesOwned, IdsPlain, ExpiryPassed,
      CallOk,
         FilesOf, Ineligible;
    var t, c := Apply(s, op, now), s.calls[op.call];
    LogView(s, op, now);
    assert CallOk(s.data, c);
    CallHasId(s.data, c);
    if c.Writing? {
      WritingIsSilent(s, c, op.reply);
    } else {
      RequestsAfter(s, c, op.reply);
      EventsComplete(c, op.reply);
    }
    forall i | 0 <= i < |t.data.audit|
      ensures t.data.audit[i].HoldChanged? || t.data.audit[i].request < |t.data.requests|
    {
      if i < |s.data.audit| {
        assert t.data.audit[i] == s.data.audit[i];
      } else {
        assert t.data.audit[i] in CallEvents(c, op.reply);
      }
    }
    forall r | r in t.rows
      ensures r < |t.data.requests| && t.data.requests[r].exchangeId in t.data.exchanges
              && t.rows[r] <= |FilesOf(t.data.files, t.data.requests[r].exchangeId)|
    {
      var id := t.data.requests[r].exchangeId;
      DomainView(s, op, now);
      FilesGrow(s, op, now, id);
    }
  }

  // ------------------------------------------------------------ every other step

  lemma OtherKeepsLog(s: System, op: Op, now: int)
    requires LogInv(s) && !Moves(s, op)
    ensures var t := Apply(s, op, now);
            (forall r :: 0 <= r < |t.data.requests| ==> Accounted(t, r)) && AuditBounded(t)
  {
    hide Apply, Evidence, Of, CallsOpen, Sane;
    var t, d := Apply(s, op, now), s.data;
    LogView(s, op, now);
    var added := if op.Remove? && op.id in d.exchanges then [DeletionRequested(|d.requests|, op.id)]
                 else if op.Hold? && op.id in d.exchanges then [HoldChanged(op.id, op.legalHold)]
                 else [];
    assert t.data.audit == d.audit + added;
    forall r | 0 <= r < |t.data.requests| ensures Accounted(t, r) {
      OfAppend(d.audit, added, r);
      if r < |d.requests| {
        assert Accounted(s, r);
        OfNone(added, r);
        assert Of(d.audit, r) + [] == Of(d.audit, r);
      } else {
        NewRequest(s, op.id, Counted(t.rows, r));
      }
    }
  }

  lemma NewRequest(s: System, id: string, n: nat)
    requires LogInv(s)
    ensures var r := |s.data.requests|;
            Of(s.data.audit, r) + Of([DeletionRequested(r, id)], r) == Evidence(r, id, Requested, n)
  {
    hide Of, CallsOpen, RowsRead, Accounted;
    var r := |s.data.requests|;
    forall x | x in s.data.audit ensures !Concerns(x, r) {
      var i :| 0 <= i < |s.data.audit| && s.data.audit[i] == x;
    }
    OfNone(s.data.audit, r);
    OfAll([DeletionRequested(r, id)], r);
    assert [] + [DeletionRequested(r, id)] == [DeletionRequested(r, id)];
  }

  lemma OtherKeepsCalls(s: System, op: Op, now: int)
    requires LogInv(s) && !Moves(s, op)
    ensures CallsOpen(Apply(s, op, now))
  {
    hide Apply, Evidence, Of, Accounted, Sane, RowsRead, MayPublish, MayReceive, DataOf;
    var t := Apply(s, op, now);
    LogView(s, op, now);
    CallsView(s, op, now);
    assert RowsRead(s);
    NewRowFree(s);
    forall k | k in t.calls ensures k < t.nextCall && OpenFor(t, t.calls[k]) {
      if k in s.calls && t.calls[k] == s.calls[k] {
        assert OpenFor(s, s.calls[k]);
      }
    }
    forall k: nat, l: nat, r: nat | Holds(t, k, r) && Holds(t, l, r) ensures k == l {
      HoldsBefore(s, op, now, k, r);
      HoldsBefore(s, op, now, l, r);
    }
    forall r | 0 <= r < |t.data.requests| && t.data.requests[r].status in {Requested, InProgress}
      ensures exists k :: Holds(t, k, r)
    {
      if r < |s.data.requests| {
        var k: nat :| Holds(s, k, r);
        assert k < s.nextCall;
        assert Holds(t, k, r);
      } else {
        assert Holds(t, s.nextCall, r);
      }
    }
  }

  lemma NewRowFree(s: System)
    requires RowsRead(s)
    ensures |s.data.requests| !in s.rows
  {
    hide FilesOf;
  }

  lemma HoldsBefore(s: System, op: Op, now: int, k: nat, r: nat)
    requires LogInv(s) && !Moves(s, op) && Holds(Apply(s, op, now), k, r)
    ensures if r < |s.data.requests| then Holds(s, k, r) else k == s.nextCall
  {
    hide Apply, Evidence, Of, Accounted, Sane, RowsRead, MayPublish, MayReceive, DataOf;
    CallsView(s, op, now);
    if k in s.calls && Apply(s, op, now).calls[k] == s.calls[k] {
      assert OpenFor(s, s.calls[k]);
    }
  }

  lemma OtherKeepsRows(s: System, op: Op, now: int)
    requires LogInv(s) && Inv(s) && !Moves(s, op)
    ensures RowsRead(Apply(s, op, now))
  {
    hide Apply, Evidence, Of, Accounted, Sane, FilesOwned, IdsPlain, ExpiryPassed, CallsOk, FilesOf, CallsOpen;
    var t := Apply(s, op, now);
    LogView(s, op, now);
    forall r | r in t.rows
      ensures r < |t.data.requests| && t.data.requests[r].exchangeId in t.data.exchanges
              && t.rows[r] <= |FilesOf(t.data.files, t.data.requests[r].exchangeId)|
    {
      DomainView(s, op, now);
      FilesGrow(s, op, now, t.data.requests[r].exchangeId);
    }
  }

  lemma StepAccounts(s: System, event: Event)
    requires Inv(s) && LogInv(s)
    ensures LogInv(Step(s, event))
  {
    hide Apply, Inv, CallsOpen, RowsRead, Accounted, Moves;
    var op, now := event.op, event.now;
    if Moves(s, op) {
      LogView(s, op, now);
      forall r | 0 <= r < |Apply(s, op, now).data.requests| ensures Accounted(Apply(s, op, now), r) {
        MoveLength(s, op, now);
        MoveAccounts(s, op, now, r);
      }
      MoveKeepsCalls(s, op, now);
      MoveKeepsRows(s, op, now);
    } else {
      OtherKeepsLog(s, op, now);
      OtherKeepsCalls(s, op, now);
      OtherKeepsRows(s, op, now);
    }
    TickKeepsLog(Apply(s, op, now), now);
  }

  lemma MoveLength(s: System, op: Op, now: int)
    requires Moves(s, op)
    ensures |Apply(s, op, now).data.requests| == |s.data.requests|
  {
    hide Apply;
    LogView(s, op, now);
    RequestsGrow(s, op);
  }

  lemma TickKeepsLog(s: System, now: int)
    requires forall r :: 0 <= r < |s.data.requests| ==> Accounted(s, r)
    requires AuditBounded(s) && CallsOpen(s) && RowsRead(s)
    ensures LogInv(Tick(s, now))
  {
    hide Of, Evidence;
    var t := Tick(s, now);
    forall r | 0 <= r < |t.data.requests| ensures Accounted(t, r) {
      assert Accounted(s, r);
    }
    forall k | k in t.calls ensures k < t.nextCall && OpenFor(t, t.calls[k]) {
      assert OpenFor(s, s.calls[k]);
    }
    forall k, l, r | Holds(t, k, r) && Holds(t, l, r) ensures k == l {
      assert Holds(s, k, r) && Holds(s, l, r);
    }
    forall r | 0 <= r < |t.data.requests| && t.data.requests[r].status in {Requested, InProgress}
      ensures exists k :: Holds(t, k, r)
    {
      var k :| Holds(s, k, r);
      assert Holds(t, k, r);
    }
  }

  /** In every reachable state of every interleaving: a request is open exactly while one call
      in flight works on it, and the log holds exactly the evidence its status calls for, a
      completed one's with the number of file rows read. */
  lemma {:induction false} RunAccounts(s: System, events: seq<Event>)
    requires Inv(s) && LogInv(s) && Runs(s, events)
    ensures Inv(Run(s, events)) && LogInv(Run(s, events))
    decreases |events|
  {
    hide Inv, LogInv, Step, Legit;
    if events != [] {
      StepKeeps(s, events[0]);
      StepAccounts(s, events[0]);
      RunAccounts(Step(s, events[0]), events[1..]);
    }
  }

  /** From an empty service every run keeps both invariants. */
  lemma Reachable(events: seq<Event>)
    requires Runs(START, events)
    ensures Inv(Run(START, events)) && LogInv(Run(START, events))
  {
    hide Inv, LogInv, Runs, Run;
    StartKeeps();
    assert LogInv(START) by { StartAccounts(); }
    RunAccounts(START, events);
  }

  lemma StartAccounts()
    ensures LogInv(START)
  {
  }

  /** The count a deletion read stands for good. */
  lemma CountStands(s: System, event: Event, r: nat)
    requires Inv(s) && LogInv(s) && r in s.rows
    ensures r in Step(s, event).rows && Step(s, event).rows[r] == s.rows[r]
  {
    hide Apply, Accounted, Of, Evidence, FilesOf, CallRequests, CallEvents;
    LogView(s, event.op, event.now);
    if Moves(s, event.op) {
      assert OpenFor(s, s.calls[event.op.call]);
    }
  }

  predicate Closed(s: System, r: nat) {
    r < |s.data.requests| && s.data.requests[r].status !in {Requested, InProgress}
  }

  /** A request that ended stays as it ended. */
  lemma ClosedStays(s: System, event: Event, r: nat)
    requires LogInv(s) && Closed(s, r)
    ensures Closed(Step(s, event), r) && Step(s, event).data.requests[r] == s.data.requests[r]
  {
    hide Apply, Accounted, Of, Evidence, RowsRead, CallEvents, CallStatus;
    LogView(s, event.op, event.now);
    if Moves(s, event.op) {
      var c := s.calls[event.op.call];
      assert OpenFor(s, c);
      if c.Writing? {
        WritingIsSilent(s, c, event.op.reply);
      } else {
        RequestsAfter(s, c, event.op.reply);
      }
    }
  }

  lemma {:induction false} ClosedForGood(s: System, events: seq<Event>, r: nat)
    requires Inv(s) && LogInv(s) && Runs(s, events) && Closed(s, r)
    ensures Closed(Run(s, events), r) && Run(s, events).data.requests[r] == s.data.requests[r]
    decreases |events|
  {
    hide Inv, LogInv, Step, Legit;
    if events != [] {
      ClosedStays(s, events[0], r);
      StepKeeps(s, events[0]);
      StepAccounts(s, events[0]);
      ClosedForGood(Step(s, events[0]), events[1..], r);
    }
  }
}
