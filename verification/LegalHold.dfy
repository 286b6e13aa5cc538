/** data-exchange-service: how an object can leave storage, and what a legal hold prevents. */
module LegalHold {
  import opened Options
  import opened Deletion
  import opened ExchangeLifecycle
  import StorageKeys

  // ------------------------------------------------------------ losing an object

  /** The step is one of call `k` that deletes `f`. */
  predicate Deletes(s: System, op: Op, k: nat, f: Object) {
    op.Advance? && op.call == k && k in s.calls && Happens(op.reply) && Target(s.calls[k]) == Some(f)
  }

  /** An object disappears in one of two ways only, and only if it belongs to the exchange: a
      deletion that read that exchange as OUTBOUND, EXPIRED and not held, or the completion of
      its INBOUND upload, found oversized. */
  lemma StepLoses(s: System, event: Event, f: Object)
    requires Inv(s) && f in s.data.objects && f !in Step(s, event).data.objects
    ensures event.op.Advance? && Deletes(s, event.op, event.op.call, f)
    ensures var c := s.calls[event.op.call];
            && c.id in s.data.exchanges && Owned(f, c.id)
            && (if c.Deleting?
                then Ineligible(c.seen).None? && f in FilesOf(s.data.files, c.id)
                else c.Writing? && c.effects[0] == Discard(f) && s.data.exchanges[c.id].direction == INBOUND)
  {
    hide Apply, Owned, FilesOwned, IdsPlain, ExpiryPassed, CallsOk, HasData, DataOf, Output;
    ObjectsView(s, event.op, event.now);
    TargetOwned(s, event.op.call);
  }

  lemma TargetOwned(s: System, k: nat)
    requires Inv(s) && k in s.calls && Target(s.calls[k]).Some?
    ensures var c, f := s.calls[k], Target(s.calls[k]).value;
            && c.id in s.data.exchanges && Owned(f, c.id)
            && (if c.Deleting?
                then Ineligible(c.seen).None? && f in FilesOf(s.data.files, c.id)
                else c.Writing? && c.effects[0] == Discard(f) && s.data.exchanges[c.id].direction == INBOUND)
  {
    hide Owned, IdsPlain, ExpiryPassed, Ineligible;
    var c := s.calls[k];
    assert CallOk(s.data, c);
    assert AllOwned(s.data.files[c.id], c.id);
    if c.Deleting? {
      assert c.files[c.next] == s.data.files[c.id][c.next];
    } else {
      assert EffectOk(s.data.exchanges[c.id], c.id, c.effects[0]);
    }
  }

  /** No step on one exchange ever removes an object of another. */
  lemma OthersUntouched(s: System, event: Event, other: string, f: Object)
    requires Inv(s) && other in s.data.files && f in s.data.files[other] && f in s.data.objects
    requires event.op.Advance? && event.op.call in s.calls && s.calls[event.op.call].id != other
    ensures f in Step(s, event).data.objects
  {
    hide Step, Owned, IdsPlain, ExpiryPassed, CallsOk, Target;
    if f !in Step(s, event).data.objects {
      StepLoses(s, event, f);
      assert AllOwned(s.data.files[other], other);
      OneOwner(f, s.calls[event.op.call].id, other);
    }
  }

  // ------------------------------------------------------------ under a hold

  predicate Releases(op: Op, id: string) { op == Hold(id, false) }

  /** Held, and every deletion of the exchange from call `n` on has read it as held. */
  predicate HeldSince(s: System, id: string, n: nat) {
    && id in s.data.exchanges && s.data.exchanges[id].legalHold && n <= s.nextCall
    && forall k :: k in s.calls && k >= n && s.calls[k].id == id ==> ReadHeld(s.calls[k])
  }

  predicate ReadHeld(c: Call) { !c.Deleting? && (c.Asked? ==> c.seen.legalHold) }

  lemma StaysHeld(s: System, event: Event, id: string, n: nat)
    requires Inv(s) && HeldSince(s, id, n) && !Releases(event.op, id)
    ensures HeldSince(Step(s, event), id, n)
  {
    hide Apply, Inv, NextOf, Begun, Sane;
    var t := Step(s, event);
    ExchangeView(s, event.op, event.now, id);
    HoldStays(s, event.op, event.now, id);
    CallsView(s, event.op, event.now);
    forall k | k in t.calls && k >= n && t.calls[k].id == id ensures ReadHeld(t.calls[k]) {
      if k in s.calls && t.calls[k] == s.calls[k] {
      } else if Moves(s, event.op) {
        NextReadHeld(s.data, s.calls[k], event.op.reply, event.now, event.op.found);
      } else {
        BegunReadHeld(s, event.op);
      }
    }
  }

  lemma HoldStays(s: System, op: Op, now: int, id: string)
    requires id in s.data.exchanges && s.data.exchanges[id].legalHold && !Releases(op, id)
    ensures ExchangeAfter(s, op, now, id).legalHold
  {
    hide ValidTransition, ExpiredFor, Sane;
  }

  lemma NextReadHeld(d: State, c: Call, reply: StorageReply, now: int, found: Finding)
    requires NextOf(d, c, reply, now, found).Some?
    ensures NextOf(d, c, reply, now, found).value.id == c.id
    ensures ReadHeld(c) ==> ReadHeld(NextOf(d, c, reply, now, found).value)
  {
    hide Output;
  }

  lemma BegunReadHeld(s: System, op: Op)
    requires Begun(s, op).Some?
    ensures var c := Begun(s, op).value;
            c.id in s.data.exchanges && s.data.exchanges[c.id].legalHold ==> ReadHeld(c)
  {
    hide MayPublish, MayReceive, DataOf, Examined;
  }

  /** At some point of the run the object is there and then it is not. */
  predicate Loses(s: System, events: seq<Event>, f: Object)
    decreases |events|
  {
    events != []
    && ((f in s.data.objects && f !in Step(s, events[0]).data.objects) || Loses(Step(s, events[0]), events[1..], f))
  }

  /** A deletion begun before call `n`, or the completion of an oversized upload, deletes `f`. */
  predicate SlipsThrough(s: System, op: Op, n: nat, f: Object) {
    op.Advance? && Deletes(s, op, op.call, f) && (s.calls[op.call].Deleting? ==> op.call < n)
  }

  predicate SomeSlip(s: System, events: seq<Event>, n: nat, f: Object)
    decreases |events|
  {
    events != []
    && ((f in s.data.objects && SlipsThrough(s, events[0].op, n, f)) || SomeSlip(Step(s, events[0]), events[1..], n, f))
  }

  lemma HeldStep(s: System, event: Event, id: string, n: nat, f: Object)
    requires Inv(s) && HeldSince(s, id, n) && f in s.data.files[id] && f in s.data.objects
    ensures f !in Step(s, event).data.objects <==> SlipsThrough(s, event.op, n, f)
  {
    hide Apply, Owned, IdsPlain, ExpiryPassed, CallsOk, Target, HasData, DataOf, Output;
    if f !in Step(s, event).data.objects {
      StepLoses(s, event, f);
      assert AllOwned(s.data.files[id], id);
      OneOwner(f, s.calls[event.op.call].id, id);
    }
    if SlipsThrough(s, event.op, n, f) {
      ObjectsView(s, event.op, event.now);
      MovesIfTarget(s, event.op.call);
    }
  }

  lemma MovesIfTarget(s: System, k: nat)
    requires Inv(s) && k in s.calls
    ensures Sane(s.data, s.calls[k])
  {
    hide Owned, FilesOwned, IdsPlain, ExpiryPassed;
    assert CallOk(s.data, s.calls[k]);
  }

  /** While the hold is in force an object of the exchange goes exactly when a deletion that
      had read the exchange before the hold deletes it, or when its oversized upload is
      completed. */
  lemma {:induction false} HeldLosesIff(s: System, events: seq<Event>, id: string, n: nat, f: Object)
    requires Inv(s) && Runs(s, events) && HeldSince(s, id, n) && f in s.data.files[id]
    requires forall i :: 0 <= i < |events| ==> !Releases(events[i].op, id)
    ensures Loses(s, events, f) <==> SomeSlip(s, events, n, f)
    decreases |events|
  {
    hide Step, HeldSince, SlipsThrough, FilesOwned, IdsPlain, ExpiryPassed, CallsOk;
    if events != [] {
      assert id in s.data.exchanges by { HeldKnown(s, id, n); }
      StepKeeps(s, events[0]);
      StaysHeld(s, events[0], id, n);
      RowStays(s, events[0], id, f);
      if f in s.data.objects {
        HeldStep(s, events[0], id, n, f);
      }
      HeldLosesIff(Step(s, events[0]), events[1..], id, n, f);
    }
  }

  lemma HeldKnown(s: System, id: string, n: nat)
    requires HeldSince(s, id, n)
    ensures id in s.data.exchanges
  {
  }

  lemma RowStays(s: System, event: Event, id: string, f: Object)
    requires Inv(s) && id in s.data.exchanges && f in s.data.files[id]
    ensures id in Step(s, event).data.files && f in Step(s, event).data.files[id]
  {
    hide Apply, Owned, IdsPlain, ExpiryPassed, CallsOk;
    DomainView(s, event.op, event.now);
    FilesGrow(s, event.op, event.now, id);
    var i :| 0 <= i < |s.data.files[id]| && s.data.files[id][i] == f;
    assert FilesOf(Apply(s, event.op, event.now).data.files, id)[i] == f;
  }

  /** A hold set on any exchange is in force from that step on. */
  lemma HoldTakesForce(s: System, id: string, now: int)
    requires Inv(s) && id in s.data.exchanges
    ensures HeldSince(Step(s, Event(now, Hold(id, true))), id, s.nextCall)
  {
    hide Owned, FilesOwned, IdsPlain, ExpiryPassed;
  }

  // ------------------------------------------------------------ when a hold protects

  /** What the call has still to do may delete `f`; `upload` when `f` is an upload's data. */
  predicate Threatens(c: Call, f: Object, upload: bool) {
    match c
    case Writing(_, effects) => effects != [] && (effects[0] == Discard(f) || (effects[0].Examine? && upload))
    case Asked(_, _, seen) => Ineligible(seen).None?
    case Deleting(_, _, _, files, next) => next <= |files| && f in files[next..]
  }

  predicate IsUpload(d: State, id: string, f: Object) {
    HasData(d, id) && d.exchanges[id].direction == INBOUND && f == DataOf(d, id)
  }

  predicate Awaited(d: State, id: string) {
    id in d.exchanges && d.exchanges[id].direction == INBOUND && d.exchanges[id].status in {PENDING_UPLOAD, UPLOADING}
  }

  /** What could take `f` from its exchange: a call begun before, or an upload not completed. */
  ghost predicate Exposed(s: System, id: string, f: Object) {
    || (Awaited(s.data, id) && IsUpload(s.data, id, f))
    || exists k :: k in s.calls && s.calls[k].id == id && Threatens(s.calls[k], f, IsUpload(s.data, id, f))
  }

  ghost predicate Sheltered(s: System, id: string, f: Object) {
    && id in s.data.exchanges && s.data.exchanges[id].legalHold
    && id in s.data.files && f in s.data.files[id] && !Exposed(s, id, f)
  }

  lemma TargetExposes(s: System, k: nat, f: Object)
    requires Inv(s) && k in s.calls && Target(s.calls[k]) == Some(f)
    ensures Exposed(s, s.calls[k].id, f)
  {
    hide Inv, Ineligible;
    var c := s.calls[k];
    CallSane(s, k);
    if c.Deleting? {
      assert c.files[c.next..][0] == f;
    }
    assert Threatens(c, f, IsUpload(s.data, c.id, f));
  }

  lemma ShelteredStep(s: System, event: Event, id: string, f: Object)
    requires Inv(s) && Sheltered(s, id, f) && f in s.data.objects
    ensures f in Step(s, event).data.objects
  {
    hide Step, Owned, IdsPlain, ExpiryPassed, CallsOk, Exposed, Target;
    if f !in Step(s, event).data.objects {
      StepLoses(s, event, f);
      assert AllOwned(s.data.files[id], id);
      OneOwner(f, s.calls[event.op.call].id, id);
      TargetExposes(s, event.op.call, f);
    }
  }

  lemma CallSane(s: System, k: nat)
    requires Inv(s) && k in s.calls
    ensures Sane(s.data, s.calls[k])
    ensures s.calls[k].Writing? ==>
              forall i :: 0 < i < |s.calls[k].effects| ==>
                !s.calls[k].effects[i].Discard? && !s.calls[k].effects[i].Examine?
  {
    hide Owned, FilesOwned, IdsPlain, ExpiryPassed, EffectOk;
    assert CallOk(s.data, s.calls[k]);
  }

  lemma ShelteredStays(s: System, event: Event, id: string, f: Object)
    requires Inv(s) && Sheltered(s, id, f) && !Releases(event.op, id)
    ensures Sheltered(Step(s, event), id, f)
  {
    hide Apply, Inv, NextOf, Begun, Sane, Threatens, IsUpload, Awaited;
    var t := Step(s, event);
    ExchangeView(s, event.op, event.now, id);
    HoldStays(s, event.op, event.now, id);
    RowStays(s, event, id, f);
    UploadStays(s, event, id, f);
    StillAwaited(s, event, id);
    CallsView(s, event.op, event.now);
    var upload := IsUpload(s.data, id, f);
    forall k | k in t.calls && t.calls[k].id == id ensures !Threatens(t.calls[k], f, upload) {
      if k in s.calls && t.calls[k] == s.calls[k] {
      } else if Moves(s, event.op) {
        CallSane(s, k);
        NextReadHeld(s.data, s.calls[k], event.op.reply, event.now, event.op.found);
        NextHarmless(s.data, s.calls[k], event.op.reply, event.now, event.op.found, f);
      } else {
        BegunHarmless(s, event.op, id, f);
      }
    }
  }

  lemma NextHarmless(d: State, c: Call, reply: StorageReply, now: int, found: Finding, f: Object)
    requires Sane(d, c) && NextOf(d, c, reply, now, found).Some? && !Threatens(c, f, IsUpload(d, c.id, f))
    requires c.Writing? ==> forall i :: 0 < i < |c.effects| ==> !c.effects[i].Discard? && !c.effects[i].Examine?
    ensures NextOf(d, c, reply, now, found).value.id == c.id
    ensures !Threatens(NextOf(d, c, reply, now, found).value, f, IsUpload(d, c.id, f))
  {
    hide Output, Ineligible;
  }

  lemma BegunHarmless(s: System, op: Op, id: string, f: Object)
    requires id in s.data.exchanges && s.data.exchanges[id].legalHold && !Exposed(s, id, f)
    requires Begun(s, op).Some? && Begun(s, op).value.id == id
    ensures !Threatens(Begun(s, op).value, f, IsUpload(s.data, id, f))
  {
    hide HasData, DataOf;
  }

  /** What is an upload's data stays that. */
  lemma UploadStays(s: System, event: Event, id: string, f: Object)
    requires Inv(s) && id in s.data.exchanges && f in s.data.files[id]
    ensures IsUpload(Step(s, event).data, id, f) <==> IsUpload(s.data, id, f)
  {
    hide Apply, FilesOwned, IdsPlain, ExpiryPassed, CallsOk;
    var d := Step(s, event).data;
    ExchangeView(s, event.op, event.now, id);
    ExchangeStays(s, event.op, event.now, id);
    FilesGrow(s, event.op, event.now, id);
    assert s.data.files[id] != [] && FilesOf(d.files, id)[0] == s.data.files[id][0];
  }

  /** Nothing goes back to waiting for its upload. */
  lemma StillAwaited(s: System, event: Event, id: string)
    requires Inv(s) && id in s.data.exchanges
    ensures Awaited(Step(s, event).data, id) ==> Awaited(s.data, id)
  {
    hide Apply, Owned, FilesOwned, IdsPlain, ExpiryPassed, CallsOk, ValidTransition, ExpiredFor, Sane;
    ExchangeView(s, event.op, event.now, id);
    ExchangeStays(s, event.op, event.now, id);
    if Moves(s, event.op) {
      BecomesOk(s, event.op.call);
    }
  }

  /** No operation of the run releases the hold. */
  predicate NoRelease(events: seq<Event>, id: string) {
    forall i :: 0 <= i < |events| ==> !Releases(events[i].op, id)
  }

  lemma {:induction false} ShelteredRun(s: System, events: seq<Event>, id: string, f: Object)
    requires Inv(s) && Runs(s, events) && NoRelease(events, id) && Sheltered(s, id, f)
    ensures !Loses(s, events, f)
    decreases |events|
  {
    hide Inv, Step, Sheltered, Legit;
    if events != [] {
      if f in s.data.objects {
        ShelteredStep(s, events[0], id, f);
      }
      StepKeeps(s, events[0]);
      ShelteredStays(s, events[0], id, f);
      ShelteredRun(Step(s, events[0]), events[1..], id, f);
    }
  }

  /** A deletion on its way gets to `f` if every storage call comes back. */
  lemma {:induction false} DeletionLoses(s: System, k: nat, f: Object) returns (events: seq<Event>)
    requires k in s.calls && s.calls[k].Deleting? && Sane(s.data, s.calls[k])
    requires Threatens(s.calls[k], f, false) && f in s.data.objects
    ensures Runs(s, events) && Loses(s, events, f) && forall i :: 0 <= i < |events| ==> events[i].op == Advance(k, Gone)
    decreases |s.calls[k].files| - s.calls[k].next
  {
    var c, e := s.calls[k], Event(s.data.clock, Advance(k, Gone));
    GoneNext(s, k);
    var t := Step(s, e);
    if c.files[c.next] == f {
      events := [e];
    } else {
      assert f in t.calls[k].files[t.calls[k].next..] by {
        var i :| c.next <= i < |c.files| && c.files[i] == f;
        assert c.files[c.next + 1..][i - c.next - 1] == f;
      }
      hide Step;
      var rest := DeletionLoses(t, k, f);
      events := [e] + rest;
      assert events[1..] == rest;
    }
  }

  lemma GoneNext(s: System, k: nat)
    requires k in s.calls && s.calls[k].Deleting? && Sane(s.data, s.calls[k]) && s.calls[k].next < |s.calls[k].files|
    ensures var c, t := s.calls[k], Step(s, Event(s.data.clock, Advance(k, Gone)));
            && t.data.objects == s.data.objects - {c.files[c.next]} && t.data.clock == s.data.clock
            && k in t.calls && t.calls[k] == c.(next := c.next + 1) && Sane(t.data, t.calls[k])
  {
  }

  lemma AskedLoses(s: System, k: nat, f: Object) returns (events: seq<Event>)
    requires k in s.calls && s.calls[k].Asked? && Sane(s.data, s.calls[k])
    requires Threatens(s.calls[k], f, false) && f in FilesOf(s.data.files, s.calls[k].id) && f in s.data.objects
    ensures Runs(s, events) && Loses(s, events, f) && forall i :: 0 <= i < |events| ==> events[i].op == Advance(k, Gone)
  {
    var c, e := s.calls[k], Event(s.data.clock, Advance(k, Gone));
    var t := Step(s, e);
    hide Ineligible;
    assert t.calls[k] == Deleting(c.id, c.request, c.seen, FilesOf(s.data.files, c.id), 0);
    assert t.data.objects == s.data.objects;
    hide Step;
    var rest := DeletionLoses(t, k, f);
    events := [e] + rest;
    assert events[1..] == rest;
  }

  lemma DiscardLoses(s: System, k: nat, f: Object) returns (events: seq<Event>)
    requires k in s.calls && s.calls[k].Writing? && Sane(s.data, s.calls[k])
    requires s.calls[k].effects[0] == Discard(f) && f in s.data.objects
    ensures Runs(s, events) && Loses(s, events, f)
    ensures forall i :: 0 <= i < |events| ==> events[i].op.Advance?
  {
    var e := Event(s.data.clock, Advance(k, Gone));
    assert f !in Step(s, e).data.objects;
    events := [e];
  }

  /** An upload under examination goes if it is found oversized. */
  lemma ExaminationLoses(s: System, k: nat, f: Object) returns (events: seq<Event>)
    requires k in s.calls && s.calls[k].Writing? && Sane(s.data, s.calls[k]) && s.calls[k].effects[0].Examine?
    requires IsUpload(s.data, s.calls[k].id, f) && f in s.data.objects
    ensures Runs(s, events) && Loses(s, events, f)
    ensures forall i :: 0 <= i < |events| ==> events[i].op.Advance?
  {
    var c, e := s.calls[k], Event(s.data.clock, Advance(k, Gone, Oversized));
    var t := Step(s, e);
    assert t.calls[k] == Writing(c.id, [Discard(f), Become(FAILED)] + c.effects[1..]);
    assert t.data.objects == s.data.objects && Sane(t.data, t.calls[k]);
    hide Step;
    var rest := DiscardLoses(t, k, f);
    events := [e] + rest;
    assert events[1..] == rest;
  }

  lemma UploadLoses(s: System, id: string, f: Object) returns (events: seq<Event>)
    requires Awaited(s.data, id) && IsUpload(s.data, id, f) && f in s.data.objects
    ensures Runs(s, events) && Loses(s, events, f) && NoRelease(events, id)
  {
    var a := Event(s.data.clock, CompleteUpload(id));
    var t, k := Step(s, a), s.nextCall;
    assert t.calls[k] == Writing(id, [Examine]) && t.data.objects == s.data.objects;
    assert Sane(t.data, t.calls[k]) && IsUpload(t.data, id, f);
    hide Step;
    var rest := ExaminationLoses(t, k, f);
    events := [a] + rest;
    assert events[1..] == rest;
  }

  lemma ExposedLoses(s: System, id: string, f: Object) returns (events: seq<Event>)
    requires Inv(s) && id in s.data.files && f in s.data.files[id] && f in s.data.objects && Exposed(s, id, f)
    ensures Runs(s, events) && Loses(s, events, f) && NoRelease(events, id)
  {
    if Awaited(s.data, id) && IsUpload(s.data, id, f) {
      events := UploadLoses(s, id, f);
    } else {
      var k :| k in s.calls && s.calls[k].id == id && Threatens(s.calls[k], f, IsUpload(s.data, id, f));
      CallSane(s, k);
      hide Inv, Sane, IsUpload, Awaited, Loses, Runs;
      match s.calls[k]
      case Writing(_, effects) =>
        if effects[0].Examine? {
          events := ExaminationLoses(s, k, f);
        } else {
          events := DiscardLoses(s, k, f);
        }
      case Asked(_, _, _) => events := AskedLoses(s, k, f);
      case Deleting(_, _, _, _, _) => events := DeletionLoses(s, k, f);
    }
  }

  /** The hold on an exchange protects an object of it, whatever happens next short of its
      release, if and only if no call under way may still delete the object and it is not the
      data of an upload yet to be completed or examined. */
  lemma HoldProtectsIff(s: System, id: string, f: Object)
    requires Inv(s) && id in s.data.exchanges && s.data.exchanges[id].legalHold
    requires id in s.data.files && f in s.data.files[id] && f in s.data.objects
    ensures (forall events :: Runs(s, events) && NoRelease(events, id) ==> !Loses(s, events, f))
            <==> !Exposed(s, id, f)
  {
    hide Inv, Exposed, Runs, Loses, NoRelease;
    if Exposed(s, id, f) {
      var events := ExposedLoses(s, id, f);
      assert Runs(s, events) && NoRelease(events, id) && Loses(s, events, f);
    } else {
      forall events | Runs(s, events) && NoRelease(events, id) ensures !Loses(s, events, f) {
        ShelteredRun(s, events, id, f);
      }
    }
  }

  // ------------------------------------------------------------ both ways happen

  lemma RunFour(s: System, a: Event, b: Event, c: Event, d: Event)
    ensures Run(s, [a, b, c, d]) == Step(Step(Step(Step(s, a), b), c), d)
  {
    hide Step;
    assert [a, b, c, d][1..] == [b, c, d] && [b, c, d][1..] == [c, d] && [c, d][1..] == [d] && [d][1..] == [];
    assert Run(s, [a, b, c, d]) == Run(Step(s, a), [b, c, d]) == Run(Step(Step(s, a), b), [c, d]);
    assert Run(Step(Step(s, a), b), [c, d]) == Run(Step(Step(Step(s, a), b), c), [d]);
    assert Run(Step(Step(Step(Step(s, a), b), c), d), []) == Step(Step(Step(Step(s, a), b), c), d);
  }

  lemma RunFive(s: System, a: Event, b: Event, c: Event, d: Event, e: Event)
    ensures Run(s, [a, b, c, d, e]) == Step(Step(Step(Step(Step(s, a), b), c), d), e)
  {
    hide Step;
    assert [a, b, c, d, e][1..] == [b, c, d, e];
    RunFour(Step(s, a), b, c, d, e);
  }

  /** An upload is initiated, its object put, the exchange held, and the upload completed and
      found to have more bytes than allowed: the held exchange has lost its object. */
  lemma OversizedIgnoresHold(s: System, id: string, now: int)
    requires Inv(s) && MayReceive(s.data, id) && DataOf(s.data, id) in s.data.objects
    ensures var k, f := s.nextCall, DataOf(s.data, id);
            var t := Run(s, [Event(now, Hold(id, true)), Event(now, CompleteUpload(id)),
                             Event(now, Advance(k, Gone, Oversized)),
                             Event(now, Advance(k, Gone)), Event(now, Advance(k, Gone))]);
            && f !in t.data.objects
            && id in t.data.exchanges && t.data.exchanges[id].legalHold && t.data.exchanges[id].status == FAILED
  {
    var k := s.nextCall;
    var a, b := Event(now, Hold(id, true)), Event(now, CompleteUpload(id));
    var c, d := Event(now, Advance(k, Gone, Oversized)), Event(now, Advance(k, Gone));
    hide Inv;
    RunFive(s, a, b, c, d, d);
    OversizedBegins(s, id, now);
    OversizedFound(Step(Step(s, a), b), k, id, now);
    DiscardRuns(Step(Step(Step(s, a), b), c), k, id, DataOf(s.data, id), now);
  }

  lemma OversizedBegins(s: System, id: string, now: int)
    requires MayReceive(s.data, id) && DataOf(s.data, id) in s.data.objects
    ensures var f := DataOf(s.data, id);
            var u := Step(Step(s, Event(now, Hold(id, true))), Event(now, CompleteUpload(id)));
            && s.nextCall in u.calls && u.calls[s.nextCall] == Writing(id, [Examine])
            && MayReceive(u.data, id) && DataOf(u.data, id) == f && f in u.data.objects
            && u.data.exchanges[id].legalHold
  {
  }

  lemma OversizedFound(u: System, k: nat, id: string, now: int)
    requires k in u.calls && u.calls[k] == Writing(id, [Examine]) && MayReceive(u.data, id)
    requires DataOf(u.data, id) in u.data.objects && u.data.exchanges[id].legalHold
    ensures var v := Step(u, Event(now, Advance(k, Gone, Oversized)));
            && k in v.calls && v.calls[k] == Writing(id, [Discard(DataOf(u.data, id)), Become(FAILED)])
            && id in v.data.exchanges && v.data.exchanges[id].legalHold
  {
    assert [Examine][1..] == [] && [Discard(DataOf(u.data, id)), Become(FAILED)] + []
                                   == [Discard(DataOf(u.data, id)), Become(FAILED)];
  }

  lemma DiscardRuns(u: System, k: nat, id: string, f: Object, now: int)
    requires k in u.calls && u.calls[k] == Writing(id, [Discard(f), Become(FAILED)])
    requires id in u.data.exchanges && u.data.exchanges[id].legalHold
    ensures var e := Event(now, Advance(k, Gone));
            var t := Step(Step(u, e), e);
            f !in t.data.objects && id in t.data.exchanges
            && t.data.exchanges[id] == u.data.exchanges[id].(status := FAILED)
  {
    var e := Event(now, Advance(k, Gone));
    var v := Step(u, e);
    assert [Discard(f), Become(FAILED)][1..] == [Become(FAILED)];
    assert v.calls[k] == Writing(id, [Become(FAILED)]) && v.data.objects == u.data.objects - {f};
    assert [Become(FAILED)][1..] == [];
  }

  /** A hold set after a deletion has read the exchange and before it gets to the first file
      does not stop it. */
  lemma HoldComesLate(s: System, id: string, now: int)
    requires HasData(s.data, id) && Ineligible(s.data.exchanges[id]).None?
    ensures var k, f := s.nextCall, DataOf(s.data, id);
            var t := Run(s, [Event(now, Remove(id)), Event(now, Hold(id, true)),
                             Event(now, Advance(k, Gone)), Event(now, Advance(k, Gone))]);
            id in t.data.exchanges && t.data.exchanges[id].legalHold && f !in t.data.objects
  {
    var k, f := s.nextCall, DataOf(s.data, id);
    var a, b, c := Event(now, Remove(id)), Event(now, Hold(id, true)), Event(now, Advance(k, Gone));
    RunFour(s, a, b, c, c);
    LateBegins(s, id, now);
    LateRuns(Step(Step(s, a), b), k, id, |s.data.requests|, s.data.exchanges[id], f, now);
  }

  lemma LateBegins(s: System, id: string, now: int)
    requires HasData(s.data, id)
    ensures var u := Step(Step(s, Event(now, Remove(id))), Event(now, Hold(id, true)));
            && s.nextCall in u.calls && u.calls[s.nextCall] == Asked(id, |s.data.requests|, s.data.exchanges[id])
            && |u.data.requests| == |s.data.requests| + 1
            && HasData(u.data, id) && DataOf(u.data, id) == DataOf(s.data, id)
            && u.data.exchanges[id].legalHold
  {
  }

  lemma LateRuns(u: System, k: nat, id: string, r: nat, seen: Exchange, f: Object, now: int)
    requires k in u.calls && u.calls[k] == Asked(id, r, seen) && r < |u.data.requests| && Ineligible(seen).None?
    requires HasData(u.data, id) && DataOf(u.data, id) == f && u.data.exchanges[id].legalHold
    ensures var c := Event(now, Advance(k, Gone));
            var t := Step(Step(u, c), c);
            id in t.data.exchanges && t.data.exchanges[id].legalHold && f !in t.data.objects
  {
    var c := Event(now, Advance(k, Gone));
    var v := Step(u, c);
    hide Ineligible;
    assert v.calls[k] == Deleting(id, r, seen, FilesOf(u.data.files, id), 0);
  }

  /** Such an upload is two calls away from an empty service. */
  lemma UploadWaits(id: string, organizationId: string, tenantId: string, bucket: string, filename: string, now: int,
                    lapses: int)
    requires 0 <= now <= lapses
    ensures var create := Create(id, organizationId, tenantId, INBOUND, bucket, filename, None, lapses);
            var t := Step(Step(START, Event(now, create)), Event(now, Put(id)));
            MayReceive(t.data, id) && DataOf(t.data, id) in t.data.objects
  {
    hide StorageKeys.Key;
  }
}
