/** data-exchange-service: objects that no file row names, and what remains in storage when
    every row's object is gone. */
module StrayObjects {
  import opened Options
  import opened Deletion
  import opened ExchangeLifecycle
  import opened DeletionLasts
  import LegalHold
  import StorageKeys

  /** Nothing in storage belongs to the exchange. */
  ghost predicate Bare(s: System, id: string) { forall f :: f in s.data.objects ==> !Owned(f, id) }

  /** An object of the exchange without a file row. */
  ghost predicate Stray(s: System, id: string, f: Object) {
    f in s.data.objects && Owned(f, id) && f !in FilesOf(s.data.files, id)
  }

  ghost predicate NoStray(s: System, id: string) { forall f :: !Stray(s, id, f) }

  lemma BareIff(s: System, id: string)
    requires Inv(s) && id in s.data.files
    ensures Bare(s, id) <==> Empty(s, id) && NoStray(s, id)
  {
    hide Owned, IdsPlain, ExpiryPassed, CallsOk;
    assert AllOwned(s.data.files[id], id);
    if Empty(s, id) && NoStray(s, id) {
      forall f | f in s.data.objects ensures !Owned(f, id) {
        assert !Stray(s, id, f);
      }
    }
  }

  // ------------------------------------------------------------ where strays come from

  /** A call is about to record the object. */
  predicate Pending(s: System, f: Object) {
    exists k :: k in s.calls && s.calls[k].Writing? && s.calls[k].effects != [] && s.calls[k].effects[0] == Row(f)
  }

  /** A stray no call is going to record. */
  ghost predicate Unrecorded(s: System, id: string, f: Object) { Stray(s, id, f) && !Pending(s, f) }

  /** A put of `f` takes effect, and throws. */
  predicate ThrowsAfterPut(s: System, event: Event, f: Object) {
    Moves(s, event.op) && event.op.reply == Threw(true)
    && s.calls[event.op.call].Writing? && Output(s.data, s.calls[event.op.call], event.now) == Some(f)
  }

  /** An object comes to be without a row for good exactly when its put throws after it took
      effect, it has no row yet and no other call is about to record it. */
  lemma UnrecordedIff(s: System, event: Event, id: string, f: Object)
    requires Inv(s) && Legit(event.op) && s.data.clock <= event.now
    requires id in s.data.exchanges && Owned(f, id) && !Unrecorded(s, id, f)
    ensures Unrecorded(Step(s, event), id, f)
            <==> ThrowsAfterPut(s, event, f) && f !in FilesOf(s.data.files, id) && !Pending(s, f)
  {
    hide Apply, Owned, FilesOwned, IdsPlain, ExpiryPassed, CallsOk, Sane, Pending, OriginOf;
    var op, t := event.op, Step(s, event);
    FilesView(s, op, event.now, id);
    ObjectsView(s, op, event.now);
    if ThrowsAfterPut(s, event, f) {
      ThrowEnds(s, event, f);
    } else if f in t.data.objects && f !in FilesOf(t.data.files, id) {
      StillPending(s, event, id, f);
    }
  }

  lemma ThrowEnds(s: System, event: Event, f: Object)
    requires Inv(s) && ThrowsAfterPut(s, event, f)
    ensures f in Step(s, event).data.objects
    ensures CallFiles(s.data, s.calls[event.op.call]) == s.data.files
    ensures Pending(Step(s, event), f) <==> Pending(s, f)
  {
    hide Apply, Owned, FilesOwned, IdsPlain, ExpiryPassed, CallsOk, OriginOf;
    var k, t := event.op.call, Step(s, event);
    ObjectsView(s, event.op, event.now);
    CallsView(s, event.op, event.now);
    assert t.calls == s.calls - {k};
    if Pending(s, f) {
      var j :| j in s.calls && s.calls[j].Writing? && s.calls[j].effects != [] && s.calls[j].effects[0] == Row(f);
      assert t.calls[j] == s.calls[j];
    }
  }

  /** Otherwise what is in storage without a row is about to be recorded. */
  lemma StillPending(s: System, event: Event, id: string, f: Object)
    requires Inv(s) && id in s.data.exchanges && Owned(f, id) && !Unrecorded(s, id, f)
    requires !ThrowsAfterPut(s, event, f)
    requires f in Step(s, event).data.objects && f !in FilesOf(Step(s, event).data.files, id)
    ensures Pending(Step(s, event), f)
  {
    hide Apply, Owned, FilesOwned, IdsPlain, ExpiryPassed, CallsOk, OriginOf, HasData, DataOf, Inv;
    var op, t := event.op, Step(s, event);
    FilesView(s, op, event.now, id);
    FilesGrow(s, op, event.now, id);
    RowsKept(FilesOf(s.data.files, id), FilesOf(t.data.files, id), f);
    CallsView(s, op, event.now);
    if f in s.data.objects {
      var k :| k in s.calls && s.calls[k].Writing? && s.calls[k].effects != [] && s.calls[k].effects[0] == Row(f);
      if Moves(s, op) && op.call == k {
        RowRecorded(s, k, id, f);
      } else {
        KeptElsewhere(s, op, event.now, k);
        assert t.calls[k] == s.calls[k];
      }
    } else {
      StepAdds(s, event, f);
      if Puts(s, op, event.now) {
        PutHasRow(s, event, id, f);
      } else {
        var k := op.call;
        assert op.reply == Gone;
        assert t.calls[k].effects[0] == Row(f);
      }
    }
  }

  lemma RowsKept(rows: seq<Object>, after: seq<Object>, f: Object)
    requires rows <= after
    ensures f in rows ==> f in after
  {
    if f in rows {
      var i :| 0 <= i < |rows| && rows[i] == f;
      assert after[i] == f;
    }
  }

  lemma RowRecorded(s: System, k: nat, id: string, f: Object)
    requires Inv(s) && k in s.calls && s.calls[k].Writing? && s.calls[k].effects != []
    requires s.calls[k].effects[0] == Row(f) && Owned(f, id)
    ensures f in FilesOf(CallFiles(s.data, s.calls[k]), id)
  {
    hide Owned, FilesOwned, IdsPlain, ExpiryPassed;
    var c := s.calls[k];
    assert CallOk(s.data, c);
    assert EffectOk(s.data.exchanges[c.id], c.id, c.effects[0]);
    OneOwner(f, c.id, id);
  }

  lemma PutHasRow(s: System, event: Event, id: string, f: Object)
    requires Inv(s) && Puts(s, event.op, event.now) && f == DataOf(s.data, event.op.id) && Owned(f, id)
    ensures f in FilesOf(s.data.files, id)
  {
    hide Inv, Owned;
    DataOwned(s, event.op.id);
    OneOwner(f, event.op.id, id);
  }

  // ------------------------------------------------------------ once an exchange is settled

  /** The strays of a settled exchange stay as they are: nothing records or deletes them. */
  lemma StraysStay(s: System, event: Event, id: string, f: Object)
    requires Inv(s) && Settled(s, id)
    ensures Stray(Step(s, event), id, f) <==> Stray(s, id, f)
  {
    hide Step, Inv, Owned, Output, Settled;
    assert id in s.data.files by { SettledHasRows(s, id); }
    SettledFiles(s, event, id);
    if Owned(f, id) && f !in s.data.files[id] {
      if f in Step(s, event).data.objects && f !in s.data.objects {
        StepAdds(s, event, f);
        if Puts(s, event.op, event.now) {
          PutHasRow(s, event, id, f);
        } else {
          OneOwner(f, s.calls[event.op.call].id, id);
          NotWriting(s, id, event.op.call);
        }
      }
      if f in s.data.objects && f !in Step(s, event).data.objects {
        LegalHold.StepLoses(s, event, f);
        OneOwner(f, s.calls[event.op.call].id, id);
        NotWriting(s, id, event.op.call);
      }
    }
  }

  lemma SettledHasRows(s: System, id: string)
    requires Inv(s) && Settled(s, id)
    ensures id in s.data.files
  {
  }

  lemma NotWriting(s: System, id: string, k: nat)
    requires Settled(s, id) && k in s.calls && s.calls[k].id == id
    ensures !s.calls[k].Writing?
  {
  }

  lemma NoStrayStays(s: System, event: Event, id: string)
    requires Inv(s) && Settled(s, id)
    ensures NoStray(Step(s, event), id) <==> NoStray(s, id)
  {
    hide Step, Inv, Settled, Stray;
    forall f ensures Stray(Step(s, event), id, f) <==> Stray(s, id, f) {
      StraysStay(s, event, id, f);
    }
  }

  ghost predicate BareThroughout(s: System, events: seq<Event>, id: string)
    decreases |events|
  {
    Bare(s, id) && (events != [] ==> BareThroughout(Step(s, events[0]), events[1..], id))
  }

  lemma {:induction false} ThroughoutIff(s: System, events: seq<Event>, id: string)
    requires Inv(s) && Runs(s, events) && Settled(s, id)
    ensures BareThroughout(s, events, id) <==> EmptyThroughout(s, events, id) && NoStray(s, id)
    decreases |events|
  {
    hide Inv, Step, Legit, Settled, NoStray, Bare, Empty;
    assert id in s.data.files by { SettledHasRows(s, id); }
    BareIff(s, id);
    if events != [] {
      StepKeeps(s, events[0]);
      SettledStays(s, events[0], id);
      NoStrayStays(s, events[0], id);
      ThroughoutIff(Step(s, events[0]), events[1..], id);
    }
  }

  /** Once nothing of a settled exchange is in storage, that stays so over a run exactly until
      somebody uses an upload URL that has not lapsed. */
  lemma StaysBareIff(s: System, events: seq<Event>, id: string)
    requires Inv(s) && Runs(s, events) && Settled(s, id) && Bare(s, id) && HasData(s.data, id)
    ensures BareThroughout(s, events, id) <==> forall i :: 0 <= i < |events| ==> !PutInTime(s, events[i], id)
  {
    hide Inv, Runs, Settled, Bare, NoStray, Empty, HasData, BareThroughout, EmptyThroughout, PutInTime;
    assert id in s.data.files by { SettledHasRows(s, id); }
    BareIff(s, id);
    ThroughoutIff(s, events, id);
    StaysEmptyIff(s, events, id);
  }

  lemma {:induction false} NoStrayRun(s: System, events: seq<Event>, id: string)
    requires Inv(s) && Runs(s, events) && Settled(s, id)
    ensures Inv(Run(s, events)) && Settled(Run(s, events), id)
    ensures NoStray(Run(s, events), id) <==> NoStray(s, id)
    ensures FilesOf(Run(s, events).data.files, id) == FilesOf(s.data.files, id)
    decreases |events|
  {
    hide Inv, Step, Legit, Settled, NoStray;
    if events != [] {
      assert id in s.data.files by { SettledHasRows(s, id); }
      StepKeeps(s, events[0]);
      SettledFiles(s, events[0], id);
      SettledStays(s, events[0], id);
      NoStrayStays(s, events[0], id);
      NoStrayRun(Step(s, events[0]), events[1..], id);
    }
  }

  /** And for good once that URL has lapsed. */
  lemma BareForGood(s: System, events: seq<Event>, id: string)
    requires Inv(s) && Runs(s, events) && Settled(s, id) && Bare(s, id) && HasData(s.data, id) && Lapsed(s, id)
    ensures Bare(Run(s, events), id)
  {
    hide Inv, Runs, Run, Settled, Bare, NoStray, Empty, HasData, Lapsed;
    assert id in s.data.files by { SettledHasRows(s, id); }
    BareIff(s, id);
    GoneForGood(s, events, id);
    NoStrayRun(s, events, id);
    assert id in Run(s, events).data.files by { SettledHasRows(Run(s, events), id); }
    BareIff(Run(s, events), id);
  }

  // ------------------------------------------------------------ it happens

  /** A simulated publication's first put takes effect and throws, the owner asks for a
      download after expiry, and a deletion is requested: it is COMPLETED, and the object
      is still in storage. */
  lemma StrayOutlivesDeletion(id: string, organizationId: string, tenantId: string, bucket: string, filename: string)
    ensures var t := Run(START, [Event(0, Simulate(id, organizationId, tenantId, bucket, filename, 0)),
                                 Event(0, Advance(0, Threw(true))), Event(1, Download(id, organizationId, tenantId)),
                                 Event(1, Remove(id)), Event(1, Advance(1, Gone)), Event(1, Advance(1, Gone))]);
            && t.data.requests == [Request(id, Completed)] && t.calls == map[]
            && id in t.data.exchanges && t.data.exchanges[id].status == DELETED && t.data.objects != {}
  {
    var a := Event(0, Simulate(id, organizationId, tenantId, bucket, filename, 0));
    var b := Event(0, Advance(0, Threw(true)));
    var c, d, e := Event(1, Download(id, organizationId, tenantId)), Event(1, Remove(id)), Event(1, Advance(1, Gone));
    RunJoin(START, [a, b], [c, d, e, e]);
    assert [a, b] + [c, d, e, e] == [a, b, c, d, e, e];
    ThrownPut(id, organizationId, tenantId, bucket, filename);
    var u := Run(START, [a, b]);
    LegalHold.RunFour(u, c, d, e, e);
    DeletedAnyway(u, id, organizationId, tenantId);
  }

  lemma {:induction false} RunJoin(s: System, p: seq<Event>, q: seq<Event>)
    ensures Run(s, p + q) == Run(Run(s, p), q)
    decreases |p|
  {
    hide Step;
    if p == [] {
      assert p + q == q;
    } else {
      assert (p + q)[0] == p[0] && (p + q)[1..] == p[1..] + q;
      RunJoin(Step(s, p[0]), p[1..], q);
    }
  }

  lemma ThrownPut(id: string, organizationId: string, tenantId: string, bucket: string, filename: string)
    ensures var u := Run(START, [Event(0, Simulate(id, organizationId, tenantId, bucket, filename, 0)),
                                 Event(0, Advance(0, Threw(true)))]);
            && id in u.data.exchanges && u.data.exchanges[id]
                                         == Exchange(organizationId, tenantId, OUTBOUND, PREPARING, false, Some(0))
            && u.data.files == map[id := []] && u.data.objects != {} && u.data.requests == [] && u.data.audit == []
            && u.data.clock == 0 && u.calls == map[] && u.nextCall == 1
  {
    hide StorageKeys.Key, OriginOf;
    var a := Event(0, Simulate(id, organizationId, tenantId, bucket, filename, 0));
    var b := Event(0, Advance(0, Threw(true)));
    var s := Step(START, a);
    assert s.calls == map[0 := Writing(id, SimulationEffects(bucket, filename))];
    var f := Object(bucket, StorageKeys.Key(OriginOf(s.data.exchanges[id], id, StorageKeys.DATA, filename, 0)));
    var u := Step(s, b);
    assert f in u.data.objects;
    assert [a, b][1..] == [b] && [b][1..] == [];
    assert Run(START, [a, b]) == Run(s, [b]) == Run(u, []);
  }

  lemma DeletedAnyway(u: System, id: string, organizationId: string, tenantId: string)
    requires id in u.data.exchanges
    requires u.data.exchanges[id] == Exchange(organizationId, tenantId, OUTBOUND, PREPARING, false, Some(0))
    requires u.data.files == map[id := []] && u.data.requests == [] && u.calls == map[] && u.nextCall == 1
    ensures var c, d := Event(1, Download(id, organizationId, tenantId)), Event(1, Remove(id));
            var e := Event(1, Advance(1, Gone));
            var t := Step(Step(Step(Step(u, c), d), e), e);
            && t.data.requests == [Request(id, Completed)] && t.calls == map[] && t.data.objects == u.data.objects
            && id in t.data.exchanges && t.data.exchanges[id].status == DELETED
  {
    var v := Step(u, Event(1, Download(id, organizationId, tenantId)));
    var e := Exchange(organizationId, tenantId, OUTBOUND, EXPIRED, false, Some(0));
    assert v.data.exchanges[id] == e;
    hide Step;
    NoRowsToDelete(v, id, e);
  }

  /** A deletion of an eligible exchange without rows completes without a storage call. */
  lemma NoRowsToDelete(v: System, id: string, e: Exchange)
    requires id in v.data.exchanges && v.data.exchanges[id] == e && Ineligible(e).None?
    requires v.data.files == map[id := []] && v.data.requests == [] && v.calls == map[] && v.nextCall == 1
    ensures var next := Event(1, Advance(1, Gone));
            var t := Step(Step(Step(v, Event(1, Remove(id))), next), next);
            && t.data.requests == [Request(id, Completed)] && t.calls == map[] && t.data.objects == v.data.objects
            && id in t.data.exchanges && t.data.exchanges[id].status == DELETED
  {
    hide Ineligible;
    var w := Step(v, Event(1, Remove(id)));
    assert w.calls == map[1 := Asked(id, 0, e)] && w.data.requests == [Request(id, Requested)];
    var x := Step(w, Event(1, Advance(1, Gone)));
    assert x.calls == map[1 := Deleting(id, 0, e, [], 0)] && x.data.requests == [Request(id, InProgress)];
    assert x.data.objects == v.data.objects && id in x.data.exchanges;
    hide Step;
    NothingToDelete(x, id, e);
  }

  lemma NothingToDelete(x: System, id: string, e: Exchange)
    requires x.calls == map[1 := Deleting(id, 0, e, [], 0)] && x.data.requests == [Request(id, InProgress)]
    requires id in x.data.exchanges
    ensures var t := Step(x, Event(1, Advance(1, Gone)));
            && t.data.requests == [Request(id, Completed)] && t.calls == map[] && t.data.objects == x.data.objects
            && id in t.data.exchanges && t.data.exchanges[id].status == DELETED
  {
  }
}
