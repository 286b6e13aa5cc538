/** data-exchange-service: what completing an upload or a publication comes to, by what is found
    in storage. */
module SerialCompletion {
  import opened Options
  import opened Deletion
  import opened ExchangeLifecycle
  import StorageKeys

  function Cost(effect: Effect): nat { if effect.Examine? then 9 else if effect.Write? then 2 else 1 }

  /** At most how many steps the effects take. */
  function Weight(effects: seq<Effect>): nat {
    if effects == [] then 0 else Cost(effects[0]) + Weight(effects[1..])
  }

  predicate Completing(s: System, k: nat) { k in s.calls && s.calls[k].Writing? && Sane(s.data, s.calls[k]) }

  /** A completing call taken to its end, every storage call coming back. */
  function Complete(s: System, k: nat, found: Finding, now: int): System
    requires Completing(s, k)
    decreases Weight(s.calls[k].effects)
  {
    StepShrinks(s, k, found, now);
    var t := AdvanceCall(s, k, Gone, now, found);
    if k in t.calls then Complete(t, k, found, now) else t
  }

  lemma {:induction false} WeightJoin(a: seq<Effect>, b: seq<Effect>)
    ensures Weight(a + b) == Weight(a) + Weight(b)
  {
    if a == [] {
      assert a + b == b;
    } else {
      assert (a + b)[1..] == a[1..] + b;
      WeightJoin(a[1..], b);
    }
  }

  lemma WeightTwo(a: Effect, b: Effect)
    ensures Weight([a]) == Cost(a) && Weight([a, b]) == Cost(a) + Cost(b)
  {
    assert [a][1..] == [] && [b][1..] == [] && [a, b][1..] == [b];
  }

  lemma WeightFour(a: Effect, b: Effect, c: Effect, d: Effect)
    ensures Weight([a, b, c, d]) == Cost(a) + Cost(b) + Cost(c) + Cost(d)
  {
    WeightTwo(a, b);
    WeightTwo(c, d);
    WeightJoin([a, b], [c, d]);
    assert [a, b] + [c, d] == [a, b, c, d];
  }

  lemma ExaminedWeight(d: State, id: string, found: Finding)
    ensures Weight(Examined(d, id, found)) <= 6
  {
    hide Weight;
    if HasData(d, id) && DataOf(d, id) in d.objects {
      var data := DataOf(d, id);
      var manifest := Write(data.bucket, StorageKeys.METADATA, "manifest.json");
      var sidecar := Write(data.bucket, StorageKeys.METADATA, "validation.json");
      WeightFour(Become(RECEIVED), manifest, sidecar, Become(if found == Intact then VALIDATED else VALIDATION_FAILED));
      WeightTwo(Discard(data), Become(FAILED));
      WeightTwo(Become(READY), manifest);
      WeightTwo(Become(FAILED), manifest);
    } else {
      assert Weight([]) == 0 by { WeightNone(); }
    }
  }

  lemma WeightNone()
    ensures Weight([]) == 0
  {
  }

  lemma StepShrinks(s: System, k: nat, found: Finding, now: int)
    requires Completing(s, k)
    ensures var t := AdvanceCall(s, k, Gone, now, found);
            k in t.calls ==> Completing(t, k) && Weight(t.calls[k].effects) < Weight(s.calls[k].effects)
  {
    var c := s.calls[k];
    var f := Output(s.data, c, now);
    ExaminedWeight(s.data, c.id, found);
    WeightJoin(Following(s.data, c, now, found), c.effects[1..]);
    WeightNone();
    if f.Some? {
      WeightTwo(Row(f.value), Row(f.value));
    }
    assert Weight(c.effects) == Cost(c.effects[0]) + Weight(c.effects[1..]);
    hide Examined, Weight;
  }

  // ------------------------------------------------------------ the effects in one go

  /** The state after one effect, a put with its row. */
  function Then(d: State, id: string, effect: Effect, now: int): (t: State)
    requires id in d.exchanges
    ensures id in t.exchanges
  {
    match effect
    case Examine => d
    case Become(status) => SetStatus(d, id, status)
    case Write(bucket, kind, filename) =>
      var f := Object(bucket, StorageKeys.Key(OriginOf(d.exchanges[id], id, kind, filename, now)));
      d.(objects := d.objects + {f}, files := AddRow(d.files, id, f))
    case Row(f) => d.(files := AddRow(d.files, id, f))
    case Discard(f) => d.(objects := d.objects - {f})
  }

  function After(d: State, id: string, effects: seq<Effect>, now: int): State
    requires id in d.exchanges
    decreases |effects|
  {
    if effects == [] then d else After(Then(d, id, effects[0], now), id, effects[1..], now)
  }

  predicate NoExamination(effects: seq<Effect>) { forall i :: 0 <= i < |effects| ==> !effects[i].Examine? }

  /** One step of a call that has nothing to examine. */
  lemma PlainStep(s: System, k: nat, found: Finding, now: int)
    requires Completing(s, k) && !s.calls[k].effects[0].Examine?
    ensures var c, t := s.calls[k], AdvanceCall(s, k, Gone, now, found);
            var first, rest := c.effects[0], c.effects[1..];
            && (first.Become? ==> t.data == SetStatus(s.data, c.id, first.status))
            && (first.Discard? ==> t.data == s.data.(objects := s.data.objects - {first.target}))
            && (first.Row? ==> t.data == s.data.(files := AddRow(s.data.files, c.id, first.target)))
            && (first.Write? ==>
                  var f := Output(s.data, c, now).value;
                  && t.data == s.data.(objects := s.data.objects + {f})
                  && t.calls == s.calls[k := Writing(c.id, [Row(f)] + rest)])
            && (!first.Write? ==>
                  t.calls == if rest == [] then s.calls - {k} else s.calls[k := Writing(c.id, rest)])
  {
    hide StorageKeys.Key, OriginOf, AddRow;
    var c, d := s.calls[k], s.data;
    assert d.exchanges[c.id := d.exchanges[c.id]] == d.exchanges && d.audit + [] == d.audit;
    assert [] + c.effects[1..] == c.effects[1..];
  }

  lemma {:induction false} CompleteIs(s: System, k: nat, found: Finding, now: int)
    requires Completing(s, k) && NoExamination(s.calls[k].effects)
    ensures var c, t := s.calls[k], Complete(s, k, found, now);
            t.data == After(s.data, c.id, c.effects, now) && t.calls == s.calls - {k}
    decreases Weight(s.calls[k].effects)
  {
    hide AdvanceCall, StorageKeys.Key, OriginOf, AddRow, Weight;
    var c := s.calls[k];
    var t := AdvanceCall(s, k, Gone, now, found);
    PlainStep(s, k, found, now);
    StepShrinks(s, k, found, now);
    if c.effects[0].Write? {
      var f := Output(s.data, c, now).value;
      var rest := c.effects[1..];
      assert ([Row(f)] + rest)[1..] == rest;
      CompleteIs(t, k, found, now);
      assert t.calls - {k} == s.calls - {k};
    } else if c.effects[1..] != [] {
      CompleteIs(t, k, found, now);
      assert t.calls - {k} == s.calls - {k};
    }
  }

  // ------------------------------------------------------------ by what is found

  /** A document the service writes beside an exchange's data. */
  function Document(d: State, id: string, filename: string, now: int): Object
    requires HasData(d, id)
  {
    var e := d.exchanges[id];
    Object(DataOf(d, id).bucket,
           if e.direction == OUTBOUND
           then StorageKeys.BuildOutboundMetadataKey(e.organizationId, e.tenantId, id, filename, now)
           else StorageKeys.BuildInboundMetadataKey(e.organizationId, e.tenantId, id, filename, now))
  }

  /** Only the status differs. */
  predicate OnlyStatus(t: State, d: State, id: string, status: Status)
    requires id in d.exchanges
  {
    t.exchanges == d.exchanges[id := d.exchanges[id].(status := status)]
    && t.requests == d.requests && t.audit == d.audit && t.clock == d.clock
  }

  /** `t` has these objects and rows more than `d`. */
  ghost predicate Stored(t: State, d: State, id: string, added: seq<Object>) {
    t.objects == d.objects + (set f | f in added) && id in t.files && t.files.Keys == d.files.Keys + {id}
    && (forall i :: i in d.files && i != id ==> t.files[i] == d.files[i])
    && (forall f :: f in t.files[id] <==> f in FilesOf(d.files, id) || f in added)
  }

  lemma TwoAfter(d: State, id: string, a: Effect, b: Effect, now: int)
    requires id in d.exchanges
    ensures After(d, id, [a], now) == Then(d, id, a, now)
    ensures After(d, id, [a, b], now) == Then(Then(d, id, a, now), id, b, now)
  {
    hide Then;
    var one := Then(d, id, a, now);
    assert [a, b][1..] == [b] && [a][1..] == [] && [b][1..] == [];
    assert After(one, id, [], now) == one;
    assert After(d, id, [a, b], now) == After(one, id, [b], now) == After(Then(one, id, b, now), id, [], now);
  }

  lemma FourAfter(d: State, id: string, a: Effect, b: Effect, c: Effect, e: Effect, now: int)
    requires id in d.exchanges
    ensures After(d, id, [a, b, c, e], now)
            == Then(Then(Then(Then(d, id, a, now), id, b, now), id, c, now), id, e, now)
  {
    hide Then;
    assert [a, b, c, e][1..] == [b, c, e] && [b, c, e][1..] == [c, e];
    var one := Then(d, id, a, now);
    assert After(d, id, [a, b, c, e], now) == After(one, id, [b, c, e], now);
    TwoAfter(Then(one, id, b, now), id, c, e, now);
  }

  /** A document written beside the data, whatever the status is by then. */
  lemma ThenDocument(d: State, t: State, id: string, filename: string, now: int)
    requires HasData(d, id) && id in t.exchanges
    requires t.exchanges[id] == d.exchanges[id].(status := t.exchanges[id].status)
    ensures var f := Document(d, id, filename, now);
            Then(t, id, Write(DataOf(d, id).bucket, StorageKeys.METADATA, filename), now)
            == t.(objects := t.objects + {f}, files := AddRow(t.files, id, f))
  {
    hide AddRow;
  }

  lemma AddedRow(files: map<string, seq<Object>>, id: string, f: Object)
    ensures var after := AddRow(files, id, f);
            && id in after && after.Keys == files.Keys + {id}
            && (forall i :: i in files && i != id ==> i in after && after[i] == files[i])
            && (forall g :: g in FilesOf(after, id) <==> g in FilesOf(files, id) || g == f)
  {
  }

  lemma Examination(s: System, k: nat, id: string, found: Finding, now: int)
    requires Completing(s, k) && s.calls[k] == Writing(id, [Examine])
    ensures var t, effects := AdvanceCall(s, k, Gone, now, found), Examined(s.data, id, found);
            && t.data == s.data
            && t.calls == if effects == [] then s.calls - {k} else s.calls[k := Writing(id, effects)]
  {
    hide Examined;
    var d := s.data;
    assert [Examine][1..] == [];
    assert Examined(d, id, found) + [] == Examined(d, id, found);
    assert d.exchanges[id := d.exchanges[id]] == d.exchanges && d.audit + [] == d.audit;
  }

  lemma ExaminedPlain(d: State, id: string, found: Finding)
    ensures NoExamination(Examined(d, id, found))
  {
  }

  /** An examination and what follows it. */
  lemma CompletesAs(s: System, k: nat, id: string, found: Finding, now: int)
    requires Completing(s, k) && s.calls[k] == Writing(id, [Examine])
    ensures id in s.data.exchanges
    ensures Complete(s, k, found, now).data == After(s.data, id, Examined(s.data, id, found), now)
  {
    hide AdvanceCall, Examined, NoExamination, Weight;
    Examination(s, k, id, found, now);
    StepShrinks(s, k, found, now);
    ExaminedPlain(s.data, id, found);
    var t := AdvanceCall(s, k, Gone, now, found);
    if k in t.calls {
      CompleteIs(t, k, found, now);
    }
  }

  /** The status alone, and a document written once the status is set. */
  lemma ThenStatus(d: State, id: string, status: Status, now: int)
    requires id in d.exchanges
    ensures var t := Then(d, id, Become(status), now);
            OnlyStatus(t, d, id, status) && t.objects == d.objects && t.files == d.files
            && t.exchanges[id] == d.exchanges[id].(status := status)
  {
  }

  lemma ThenStored(d: State, t: State, id: string, filename: string, added: seq<Object>, now: int)
    requires HasData(d, id) && id in t.exchanges
    requires OnlyStatus(t, d, id, t.exchanges[id].status)
    requires if added == [] then t.objects == d.objects && t.files == d.files else Stored(t, d, id, added)
    ensures var f := Document(d, id, filename, now);
            var u := Then(t, id, Write(DataOf(d, id).bucket, StorageKeys.METADATA, filename), now);
            OnlyStatus(u, d, id, t.exchanges[id].status) && Stored(u, d, id, added + [f])
            && id in u.exchanges && u.exchanges[id] == t.exchanges[id]
  {
    hide AddRow, Document, Then;
    assert t.exchanges[id] == d.exchanges[id].(status := t.exchanges[id].status);
    ThenDocument(d, t, id, filename, now);
    var f := Document(d, id, filename, now);
    AddedRow(t.files, id, f);
    var u := t.(objects := t.objects + {f}, files := AddRow(t.files, id, f));
    assert (set g | g in added + [f]) == (set g | g in added) + {f};
    assert added == [] ==> (set g | g in added) == {};
    assert t.objects == d.objects + (set g | g in added);
    assert t.files.Keys + {id} == d.files.Keys + {id};
    assert u.objects == d.objects + (set g | g in added + [f]);
    assert Then(t, id, Write(DataOf(d, id).bucket, StorageKeys.METADATA, filename), now) == u;
    assert OnlyStatus(u, d, id, t.exchanges[id].status);
    assert forall i :: i in d.files && i != id ==> u.files[i] == d.files[i];
    assert FilesOf(u.files, id) == u.files[id];
    forall g ensures g in u.files[id] <==> g in FilesOf(d.files, id) || g in added + [f] {
      assert g in FilesOf(t.files, id) <==> g in FilesOf(d.files, id) || g in added;
      assert g in added + [f] <==> g in added || g == f;
    }
    assert Stored(u, d, id, added + [f]);
    assert id in u.exchanges && u.exchanges[id] == t.exchanges[id];
  }

  /** A publication whose data is in storage ends READY with its manifest written and recorded,
      or FAILED with nothing written when the checksum differs. */
  lemma PublicationEnds(s: System, k: nat, id: string, found: Finding, now: int)
    requires Completing(s, k) && s.calls[k] == Writing(id, [Examine])
    requires HasData(s.data, id) && DataOf(s.data, id) in s.data.objects && s.data.exchanges[id].direction == OUTBOUND
    ensures var t := Complete(s, k, found, now).data;
            if found == Rejected
            then OnlyStatus(t, s.data, id, FAILED) && t.objects == s.data.objects && t.files == s.data.files
            else OnlyStatus(t, s.data, id, READY)
                 && Stored(t, s.data, id, [Document(s.data, id, "manifest.json", now)])
  {
    CompletesAs(s, k, id, found, now);
    var d := s.data;
    var manifest := Write(DataOf(d, id).bucket, StorageKeys.METADATA, "manifest.json");
    assert Examined(d, id, found) == if found == Rejected then [Become(FAILED)] else [Become(READY), manifest];
    hide *;
    TwoAfter(d, id, Become(FAILED), manifest, now);
    TwoAfter(d, id, Become(READY), manifest, now);
    ThenStatus(d, id, FAILED, now);
    ThenStatus(d, id, READY, now);
    assert HasData(d, id);
    var ready := Then(d, id, Become(READY), now);
    ThenStored(d, ready, id, "manifest.json", [], now);
    assert [] + [Document(d, id, "manifest.json", now)] == [Document(d, id, "manifest.json", now)];
  }

  /** An upload whose data is in storage ends VALIDATED or VALIDATION_FAILED by its validation,
      manifest and validation result written and recorded; or, oversized, FAILED without its data. */
  lemma UploadEnds(s: System, k: nat, id: string, found: Finding, now: int)
    requires Completing(s, k) && s.calls[k] == Writing(id, [Examine])
    requires HasData(s.data, id) && DataOf(s.data, id) in s.data.objects && s.data.exchanges[id].direction == INBOUND
    ensures var t := Complete(s, k, found, now).data;
            if found == Oversized
            then OnlyStatus(t, s.data, id, FAILED) && t.objects == s.data.objects - {DataOf(s.data, id)}
                 && t.files == s.data.files
            else OnlyStatus(t, s.data, id, if found == Intact then VALIDATED else VALIDATION_FAILED)
                 && Stored(t, s.data, id, [Document(s.data, id, "manifest.json", now),
                                           Document(s.data, id, "validation.json", now)])
  {
    hide AdvanceCall, AddRow, Complete, After, Document, HasData, DataOf;
    CompletesAs(s, k, id, found, now);
    var d, data := s.data, DataOf(s.data, id);
    if found == Oversized {
      TwoAfter(d, id, Discard(data), Become(FAILED), now);
    } else {
      ValidationEnds(d, id, data.bucket, found, now);
    }
  }

  lemma ValidationEnds(d: State, id: string, bucket: string, found: Finding, now: int)
    requires HasData(d, id) && bucket == DataOf(d, id).bucket && d.exchanges[id].direction == INBOUND
    ensures var last := if found == Intact then VALIDATED else VALIDATION_FAILED;
            var t := After(d, id, [Become(RECEIVED), Write(bucket, StorageKeys.METADATA, "manifest.json"),
                                   Write(bucket, StorageKeys.METADATA, "validation.json"), Become(last)], now);
            && OnlyStatus(t, d, id, last)
            && Stored(t, d, id, [Document(d, id, "manifest.json", now), Document(d, id, "validation.json", now)])
  {
    var status := if found == Intact then VALIDATED else VALIDATION_FAILED;
    assert id in d.exchanges;
    hide *;
    var a, b := Document(d, id, "manifest.json", now), Document(d, id, "validation.json", now);
    var manifest := Write(bucket, StorageKeys.METADATA, "manifest.json");
    var sidecar := Write(bucket, StorageKeys.METADATA, "validation.json");
    FourAfter(d, id, Become(RECEIVED), manifest, sidecar, Become(status), now);
    ThenStatus(d, id, RECEIVED, now);
    var received := Then(d, id, Become(RECEIVED), now);
    ThenStored(d, received, id, "manifest.json", [], now);
    assert [] + [a] == [a] && [a] + [b] == [a, b];
    var one := Then(received, id, manifest, now);
    ThenStored(d, one, id, "validation.json", [a], now);
    var two := Then(one, id, sidecar, now);
    ThenStatus(two, id, status, now);
    LastStatus(d, two, Then(two, id, Become(status), now), id, status, [a, b]);
  }

  lemma LastStatus(d: State, t: State, u: State, id: string, status: Status, added: seq<Object>)
    requires id in d.exchanges && id in t.exchanges
    requires OnlyStatus(t, d, id, t.exchanges[id].status) && Stored(t, d, id, added)
    requires OnlyStatus(u, t, id, status) && u.objects == t.objects && u.files == t.files
    ensures OnlyStatus(u, d, id, status) && Stored(u, d, id, added)
  {
  }

  /** Without the data in storage the call changes nothing. */
  lemma NothingToComplete(s: System, k: nat, id: string, found: Finding, now: int)
    requires Completing(s, k) && s.calls[k] == Writing(id, [Examine])
    requires !HasData(s.data, id) || DataOf(s.data, id) !in s.data.objects
    ensures Complete(s, k, found, now).data == s.data
  {
    hide AdvanceCall, Complete;
    CompletesAs(s, k, id, found, now);
  }
}
