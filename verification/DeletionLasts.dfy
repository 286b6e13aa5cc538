/** data-exchange-service: whether what was deleted stays deleted. */
module DeletionLasts {
  import opened Options
  import opened Deletion
  import opened ExchangeLifecycle
  import opened DeletionLog

  // ------------------------------------------------------------ the status DELETED

  predicate Deleted(s: System, id: string) { id in s.data.exchanges && s.data.exchanges[id].status == DELETED }

  /** A call that goes on to set the exchange's status. */
  predicate Sets(s: System, op: Op, id: string) {
    Moves(s, op) && var c := s.calls[op.call]; c.id == id && c.Writing? && c.effects[0].Become?
  }

  /** DELETED is documented as terminal. It is left exactly when the owning tenant asks for a
      download, when the publication is failed, or when a call that had begun to complete it
      before sets its status. */
  lemma DeletedIsLeft(s: System, event: Event, id: string)
    requires Inv(s) && s.data.clock <= event.now && Deleted(s, id)
    ensures var e := s.data.exchanges[id];
            && (!Deleted(Step(s, event), id) <==>
                  event.op == Fail(id) || event.op == Download(id, e.organizationId, e.tenantId)
                    || Sets(s, event.op, id))
            && (event.op.Download? && !Deleted(Step(s, event), id) ==>
                  Step(s, event).data.exchanges[id].status == EXPIRED)
  {
    hide Apply, FilesOwned, IdsPlain, CallsOk, CallOk, Owned;
    ExchangeView(s, event.op, event.now, id);
    if Moves(s, event.op) {
      BecomesOk(s, event.op.call);
    }
  }

  /** No call in flight will write to the exchange, and none can begin to. */
  predicate Settled(s: System, id: string) {
    && id in s.data.exchanges && s.data.exchanges[id].direction == OUTBOUND && s.data.exchanges[id].status != PREPARING
    && forall k :: k in s.calls && s.calls[k].id == id ==> !s.calls[k].Writing?
  }

  lemma SettledStays(s: System, event: Event, id: string)
    requires Inv(s) && Settled(s, id)
    ensures Settled(Step(s, event), id)
  {
    hide Apply, Inv, NextOf, Begun, Sane;
    ExchangeView(s, event.op, event.now, id);
    ExchangeStays(s, event.op, event.now, id);
    NotPreparing(s, event.op, event.now, id);
    CallsView(s, event.op, event.now);
    var t := Step(s, event);
    forall k | k in t.calls && t.calls[k].id == id ensures !t.calls[k].Writing? {
      if k in s.calls && t.calls[k] == s.calls[k] {
      } else if Moves(s, event.op) {
        NextKind(s.data, s.calls[k], event.op.reply, event.now, event.op.found);
      } else {
        BegunElsewhere(s, event.op, id);
      }
    }
  }

  lemma NotPreparing(s: System, op: Op, now: int, id: string)
    requires Inv(s) && Settled(s, id)
    ensures ExchangeAfter(s, op, now, id).status != PREPARING
  {
    hide ValidTransition, ExpiredFor, Sane, Inv;
  }

  lemma NextKind(d: State, c: Call, reply: StorageReply, now: int, found: Finding)
    requires NextOf(d, c, reply, now, found).Some?
    ensures var n := NextOf(d, c, reply, now, found).value; n.id == c.id && n.Writing? == c.Writing?
  {
    hide Output;
  }

  lemma BegunElsewhere(s: System, op: Op, id: string)
    requires Settled(s, id) && Begun(s, op).Some? && Begun(s, op).value.id == id
    ensures !Begun(s, op).value.Writing?
  {
    hide DataOf, PublicationEffects, UploadEffects;
  }

  predicate Reopens(e: Exchange, id: string, op: Op) {
    op == Fail(id) || op == Download(id, e.organizationId, e.tenantId)
  }

  predicate DeletedThroughout(s: System, events: seq<Event>, id: string)
    decreases |events|
  {
    Deleted(s, id) && (events != [] ==> DeletedThroughout(Step(s, events[0]), events[1..], id))
  }

  /** Over a run a settled exchange stays DELETED exactly when neither call occurs. */
  lemma {:induction false} DeletedStaysIff(s: System, events: seq<Event>, id: string)
    requires Inv(s) && Runs(s, events) && Deleted(s, id) && Settled(s, id)
    ensures DeletedThroughout(s, events, id) <==>
            forall i :: 0 <= i < |events| ==> !Reopens(s.data.exchanges[id], id, events[i].op)
    decreases |events|
  {
    hide Inv, Step, Legit;
    if events != [] {
      var t := Step(s, events[0]);
      DeletedIsLeft(s, events[0], id);
      if Deleted(t, id) {
        StepKeeps(s, events[0]);
        SettledStays(s, events[0], id);
        SameOwner(s, events[0], id);
        DeletedStaysIff(t, events[1..], id);
        assert forall i :: 0 < i < |events| ==> events[i] == events[1..][i - 1];
        assert forall i :: 0 <= i < |events| - 1 ==> events[1..][i] == events[i + 1];
      }
    }
  }

  lemma SameOwner(s: System, event: Event, id: string)
    requires id in s.data.exchanges
    ensures id in Step(s, event).data.exchanges && SameExchange(s.data.exchanges[id], Step(s, event).data.exchanges[id])
  {
    hide Apply;
    ExchangeView(s, event.op, event.now, id);
    ExchangeStays(s, event.op, event.now, id);
  }

  // ------------------------------------------------------------ the objects

  /** An object appears only through the client's signed URL, as the exchange's data file, or
      in a step of a call that completes or simulates the exchange. */
  lemma StepAdds(s: System, event: Event, f: Object)
    requires Inv(s) && f !in s.data.objects && f in Step(s, event).data.objects
    ensures if Puts(s, event.op, event.now) then f == DataOf(s.data, event.op.id)
            else Moves(s, event.op) && Happens(event.op.reply) && s.calls[event.op.call].Writing?
                 && Output(s.data, s.calls[event.op.call], event.now) == Some(f)
    ensures Owned(f, if Puts(s, event.op, event.now) then event.op.id else s.calls[event.op.call].id)
  {
    hide Apply, Owned, FilesOwned, IdsPlain, ExpiryPassed, CallsOk, Inv, Sane, OriginOf;
    ObjectsView(s, event.op, event.now);
    if Puts(s, event.op, event.now) {
      DataOwned(s, event.op.id);
    } else {
      OutputOwned(s, event.op.call, event.now);
    }
  }

  lemma DataOwned(s: System, id: string)
    requires Inv(s) && HasData(s.data, id)
    ensures Owned(DataOf(s.data, id), id)
  {
    hide Owned, IdsPlain, ExpiryPassed, CallsOk;
    assert AllOwned(s.data.files[id], id);
    assert DataOf(s.data, id) in s.data.files[id];
  }

  lemma OutputOwned(s: System, k: nat, now: int)
    requires Inv(s) && k in s.calls && Output(s.data, s.calls[k], now).Some?
    ensures Owned(Output(s.data, s.calls[k], now).value, s.calls[k].id)
  {
    hide Owned, OriginOf, FilesOwned, ExpiryPassed, CallsOk;
    var c := s.calls[k];
    var w := c.effects[0];
    BuiltIsOwned(w.bucket, s.data.exchanges[c.id], c.id, w.kind, w.filename, now);
  }

  /** None of the exchange's files is in storage. */
  predicate Empty(s: System, id: string) { forall f :: f in FilesOf(s.data.files, id) ==> f !in s.data.objects }

  predicate Returns(s: System, event: Event, id: string) { event.op == Put(id) && Puts(s, event.op, event.now) }

  /** The file rows of a settled exchange are final, and an object of it appears only through
      a PUT of its data file. */
  lemma SettledFiles(s: System, event: Event, id: string)
    requires Inv(s) && Settled(s, id)
    ensures id in Step(s, event).data.files && Step(s, event).data.files[id] == s.data.files[id]
    ensures forall f :: f in s.data.files[id] && f !in s.data.objects ==>
              (f in Step(s, event).data.objects <==> Returns(s, event, id) && f == DataOf(s.data, id))
  {
    hide Apply, Owned, FilesOwned, IdsPlain, ExpiryPassed, CallsOk, CallOk, OriginOf, HasData, DataOf, Output,
      CallObjects;
    var t := Step(s, event);
    DomainView(s, event.op, event.now);
    FilesView(s, event.op, event.now, id);
    SettledRows(s, event.op, id);
    ObjectsView(s, event.op, event.now);
    forall f | f in s.data.files[id] && f !in s.data.objects
      ensures f in t.data.objects <==> Returns(s, event, id) && f == DataOf(s.data, id)
    {
      if f in t.data.objects {
        StepAdds(s, event, f);
        FileOwned(s, id, f);
        OneOwner(f, id, if Puts(s, event.op, event.now) then event.op.id else s.calls[event.op.call].id);
      }
    }
  }

  lemma SettledRows(s: System, op: Op, id: string)
    requires Inv(s) && Settled(s, id)
    ensures Moves(s, op) ==> FilesOf(CallFiles(s.data, s.calls[op.call]), id) == FilesOf(s.data.files, id)
  {
    hide Inv;
  }

  lemma EmptyStep(s: System, event: Event, id: string)
    requires Inv(s) && Settled(s, id) && Empty(s, id) && HasData(s.data, id)
    ensures Empty(Step(s, event), id) <==> !Returns(s, event, id)
    ensures HasData(Step(s, event).data, id)
  {
    hide Step, Inv, Settled, Returns;
    assert id in s.data.files && id in s.data.exchanges;
    SettledFiles(s, event, id);
    SameOwner(s, event, id);
    assert DataOf(s.data, id) in s.data.files[id];
  }

  predicate EmptyThroughout(s: System, events: seq<Event>, id: string)
    decreases |events|
  {
    Empty(s, id) && (events != [] ==> EmptyThroughout(Step(s, events[0]), events[1..], id))
  }

  /** The signed URLs of an OUTBOUND exchange are never renewed. */
  lemma UrlStays(s: System, event: Event, id: string)
    requires id in s.data.exchanges && s.data.exchanges[id].direction == OUTBOUND
    ensures (id in Step(s, event).urls <==> id in s.urls) && (id in s.urls ==> Step(s, event).urls[id] == s.urls[id])
  {
    hide ValidTransition, ExpiredFor, OriginOf, HasData, DataOf, PublicationEffects, UploadEffects, Sane, AdvanceCall,
         NewExchange, Begin, BeginDeletion, MayPublish, MayReceive, SetStatus;
  }

  predicate PutInTime(s: System, event: Event, id: string) {
    event.op == Put(id) && id in s.urls && event.now <= s.urls[id]
  }

  /** Once emptied, an exchange stays empty exactly until someone uses an upload URL that has
      not lapsed. */
  lemma {:induction false} StaysEmptyIff(s: System, events: seq<Event>, id: string)
    requires Inv(s) && Runs(s, events) && Settled(s, id) && Empty(s, id) && HasData(s.data, id)
    ensures EmptyThroughout(s, events, id) <==> forall i :: 0 <= i < |events| ==> !PutInTime(s, events[i], id)
    decreases |events|
  {
    hide Inv, Step, Legit, Empty, HasData;
    if events != [] {
      var t := Step(s, events[0]);
      EmptyStep(s, events[0], id);
      if Empty(t, id) {
        StepKeeps(s, events[0]);
        SettledStays(s, events[0], id);
        UrlStays(s, events[0], id);
        StaysEmptyIff(t, events[1..], id);
        assert forall i :: 0 < i < |events| ==> events[i] == events[1..][i - 1];
        assert forall i :: 0 <= i < |events| - 1 ==> events[1..][i] == events[i + 1];
      }
    }
  }

  predicate Lapsed(s: System, id: string) { id in s.urls ==> s.urls[id] < s.data.clock }

  /** After its upload URL has lapsed no later run brings an object of it back. */
  lemma {:induction false} GoneForGood(s: System, events: seq<Event>, id: string)
    requires Inv(s) && Runs(s, events) && Settled(s, id) && Empty(s, id) && HasData(s.data, id) && Lapsed(s, id)
    ensures Empty(Run(s, events), id) && Settled(Run(s, events), id)
    decreases |events|
  {
    hide Inv, Step, Legit, Empty, Settled, HasData;
    if events != [] {
      EmptyStep(s, events[0], id);
      StepKeeps(s, events[0]);
      SettledStays(s, events[0], id);
      LapsedStays(s, events[0], id);
      GoneForGood(Step(s, events[0]), events[1..], id);
    }
  }

  lemma LapsedStays(s: System, event: Event, id: string)
    requires Settled(s, id) && Lapsed(s, id) && s.data.clock <= event.now
    ensures Lapsed(Step(s, event), id)
  {
    hide Apply;
    UrlStays(s, event, id);
  }

  /** Where the upload URL lapses no later than the exchange expires, a DELETED or EXPIRED
      exchange's has. */
  lemma ExpiredHasLapsed(s: System, id: string)
    requires Inv(s) && id in s.data.exchanges && s.data.exchanges[id].direction == OUTBOUND
    requires s.data.exchanges[id].status in {EXPIRED, DELETED}
    requires id in s.urls ==> s.data.exchanges[id].expiresAt.Some? && s.urls[id] <= s.data.exchanges[id].expiresAt.value
    ensures Lapsed(s, id)
  {
    hide Owned, FilesOwned, IdsPlain, CallsOk;
  }

  // ------------------------------------------------------------ a deletion among others

  /** A deletion of a settled exchange that has emptied it as far as it got. */
  predicate Clearing(s: System, id: string, k: nat, r: nat) {
    && Settled(s, id) && Lapsed(s, id) && HasData(s.data, id) && k in s.calls
    && match s.calls[k]
       case Deleting(i, q, _, files, next) =>
         i == id && q == r && r < |s.data.requests| && files == FilesOf(s.data.files, id) && next <= |files|
         && forall j :: 0 <= j < next ==> files[j] !in s.data.objects
       case _ => false
  }

  /** Whatever else runs meanwhile, the deletion keeps clearing; when it leaves, the exchange
      is empty and the request COMPLETED, or the request FAILED. */
  lemma ClearingStep(s: System, event: Event, id: string, k: nat, r: nat)
    requires Inv(s) && Clearing(s, id, k, r) && s.data.clock <= event.now
    ensures var t := Step(s, event);
            || Clearing(t, id, k, r)
            || (k !in t.calls && r < |t.data.requests| && t.data.requests[r].status == Completed && Empty(t, id)
                && Deleted(t, id))
            || (k !in t.calls && r < |t.data.requests| && t.data.requests[r].status == Failed)
  {
    hide Apply, Inv, Settled, Lapsed, FilesOwned, Begun;
    var t, op, now := Step(s, event), event.op, event.now;
    assert id in s.data.files && id in s.data.exchanges;
    SettledStays(s, event, id);
    LapsedStays(s, event, id);
    SettledFiles(s, event, id);
    SameOwner(s, event, id);
    CallsView(s, op, now);
    LogView(s, op, now);
    RequestsGrow(s, op);
    if Moves(s, op) && op.call == k {
      ClearingMoves(s, event, id, k, r);
    } else {
      KeptElsewhere(s, op, now, k);
      forall j | 0 <= j < s.calls[k].next ensures s.calls[k].files[j] !in t.data.objects {
        NotReturned(s, event, id);
      }
    }
  }

  lemma KeptElsewhere(s: System, op: Op, now: int, k: nat)
    requires Inv(s) && k in s.calls && !(Moves(s, op) && op.call == k)
    ensures k in Apply(s, op, now).calls && Apply(s, op, now).calls[k] == s.calls[k]
  {
    hide Apply, FilesOwned, IdsPlain, ExpiryPassed, CallOk, NextOf, Begun, Sane;
    CallsView(s, op, now);
  }

  lemma NotReturned(s: System, event: Event, id: string)
    requires Lapsed(s, id) && s.data.clock <= event.now
    ensures !Returns(s, event, id)
  {
  }

  lemma ClearingMoves(s: System, event: Event, id: string, k: nat, r: nat)
    requires Inv(s) && Clearing(s, id, k, r) && s.data.clock <= event.now && Moves(s, event.op) && event.op.call == k
    requires var t := Step(s, event);
             FilesOf(t.data.files, id) == FilesOf(s.data.files, id) && Settled(t, id) && Lapsed(t, id)
               && HasData(t.data, id)
    ensures var t := Step(s, event);
            || Clearing(t, id, k, r)
            || (k !in t.calls && r < |t.data.requests| && t.data.requests[r].status == Completed && Empty(t, id)
                && Deleted(t, id))
            || (k !in t.calls && r < |t.data.requests| && t.data.requests[r].status == Failed)
  {
    hide Inv, Settled, Lapsed;
  }

  predicate Ended(s: System, r: nat, status: RequestStatus) {
    r < |s.data.requests| && s.data.requests[r].status == status
  }

  /** So in any interleaving, when such a deletion is COMPLETED, the exchange is empty and
      stays so. */
  lemma {:induction false} CompletedMeansEmpty(s: System, events: seq<Event>, id: string, k: nat, r: nat)
    requires Inv(s) && LogInv(s) && Runs(s, events) && Clearing(s, id, k, r)
    ensures Ended(Run(s, events), r, Completed) ==> Empty(Run(s, events), id)
    decreases |events|
  {
    hide Inv, LogInv, Step, Legit, Empty, Clearing;
    if events == [] {
      StillOpen(s, id, k, r);
    } else {
      var t := Step(s, events[0]);
      ClearingStep(s, events[0], id, k, r);
      StepKeeps(s, events[0]);
      StepAccounts(s, events[0]);
      if Clearing(t, id, k, r) {
        CompletedMeansEmpty(t, events[1..], id, k, r);
      } else if Empty(t, id) {
        ClearingIs(s, id, k, r);
        SettledStays(s, events[0], id);
        LapsedStays(s, events[0], id);
        EntryKept(s, events[0], id);
        GoneForGood(t, events[1..], id);
      } else {
        ClosedForGood(t, events[1..], r);
      }
    }
  }

  lemma StillOpen(s: System, id: string, k: nat, r: nat)
    requires LogInv(s) && Clearing(s, id, k, r)
    ensures !Ended(s, r, Completed)
  {
    hide Settled, Empty, Accounted, RowsRead;
    assert OpenFor(s, s.calls[k]);
  }

  lemma EntryKept(s: System, event: Event, id: string)
    requires Inv(s) && Settled(s, id) && HasData(s.data, id)
    ensures HasData(Step(s, event).data, id)
  {
    hide Step, Inv, Settled, Returns;
    assert id in s.data.files && id in s.data.exchanges;
    SettledFiles(s, event, id);
    SameOwner(s, event, id);
  }

  lemma ClearingIs(s: System, id: string, k: nat, r: nat)
    requires Clearing(s, id, k, r)
    ensures Settled(s, id) && Lapsed(s, id) && HasData(s.data, id)
  {
  }
}
