/** data-exchange-service: what each call on an exchange does to the tables, the signed URLs and
    the calls in flight, row by row. */
module LifecycleMeaning {
  import opened Options
  import opened Deletion
  import opened ExchangeLifecycle
  import Civil
  import Decimal
  import StorageKeys

  /** The key of an exchange's object, segment by segment. */
  function KeyText(e: Exchange, id: string, kind: string, filename: string, now: int): string {
    var d := Civil.DateOf(now / 86_400_000);
    StorageKeys.Join(["organizations", e.organizationId, "tenants", e.tenantId,
                      if e.direction == OUTBOUND then "downloads" else "uploads",
                      Decimal.Text(d.year), Decimal.Padded(d.month), Decimal.Padded(d.day), id, kind], filename)
  }

  lemma KeyOfExchange(e: Exchange, id: string, filename: string, now: int)
    ensures StorageKeys.Key(OriginOf(e, id, StorageKeys.DATA, filename, now)) == KeyText(e, id, "data", filename, now)
    ensures StorageKeys.Key(OriginOf(e, id, StorageKeys.METADATA, filename, now))
            == KeyText(e, id, "metadata", filename, now)
  {
    hide StorageKeys.Key, StorageKeys.Join, Civil.DateOf, Decimal.Text, Decimal.Padded;
    StorageKeys.KeyIsJoin(OriginOf(e, id, StorageKeys.DATA, filename, now));
    StorageKeys.KeyIsJoin(OriginOf(e, id, StorageKeys.METADATA, filename, now));
  }

  /** Only the row of one exchange is another. */
  predicate RowBecomes(t: System, s: System, id: string, e: Exchange) {
    t == s.(data := s.data.(exchanges := s.data.exchanges[id := e]))
  }

  /** Only a call has begun. */
  predicate Called(t: System, s: System, call: Call) {
    t == s.(calls := s.calls[s.nextCall := call], nextCall := s.nextCall + 1)
  }

  /** The URL of one exchange stands until this instant, or for as long as one before it did. */
  predicate Signed(t: map<string, int>, s: map<string, int>, id: string, lapses: int) {
    && id in t && t.Keys == s.Keys + {id} && (forall i :: i in s && i != id ==> t[i] == s[i])
    && t[id] >= lapses && (if id in s then t[id] >= s[id] && t[id] in {lapses, s[id]} else t[id] == lapses)
  }

  /** An upload or a publication: its row, without a hold, and the row of its data file under
      the key above; a known id changes nothing. */
  lemma CreateDoes(s: System, op: Op, now: int)
    requires op.Create?
    ensures var t, d, id := Apply(s, op, now), s.data, op.id;
            if id in d.exchanges then t == s
            else
              var e := Exchange(op.organizationId, op.tenantId, op.direction,
                                if op.direction == OUTBOUND then PREPARING else PENDING_UPLOAD, false, op.expiresAt);
              && Signed(t.urls, s.urls, id, op.urlLapses)
              && t == s.(urls := t.urls, data := d.(
                           exchanges := d.exchanges[id := e],
                           files := d.files[id := [Object(op.bucket, KeyText(e, id, "data", op.filename, now))]]))
  {
    hide StorageKeys.Key, KeyText;
    var e := Exchange(op.organizationId, op.tenantId, op.direction,
                      if op.direction == OUTBOUND then PREPARING else PENDING_UPLOAD, false, op.expiresAt);
    KeyOfExchange(e, op.id, op.filename, now);
  }

  /** A simulated publication: a row that expires, and a call that writes the data and its
      manifest and makes the exchange READY. */
  lemma SimulateDoes(s: System, op: Op, now: int)
    requires op.Simulate?
    ensures var t, d, id := Apply(s, op, now), s.data, op.id;
            if id in d.exchanges then t == s
            else
              var e := Exchange(op.organizationId, op.tenantId, OUTBOUND, PREPARING, false, Some(op.lapsesAt));
              Called(t, s.(data := d.(exchanges := d.exchanges[id := e], files := d.files[id := []])),
                     Writing(id, [Write(op.bucket, StorageKeys.DATA, op.filename),
                                  Write(op.bucket, StorageKeys.METADATA, "manifest.json"), Become(READY)]))
  {
  }

  /** The exchange has a data file row, the first. */
  predicate Filed(d: State, id: string) { id in d.exchanges && id in d.files && d.files[id] != [] }

  /** What the other calls begin with or do at once: exactly when, and to what. */
  lemma CallsDo(s: System, op: Op, now: int)
    ensures var t, d := Apply(s, op, now), s.data;
            match op
            case Renew(id, lapses) =>
              if Filed(d, id) && d.exchanges[id].direction == INBOUND
              then t == s.(urls := t.urls) && Signed(t.urls, s.urls, id, lapses) else t == s
            case Put(id) =>
              if Filed(d, id) && id in s.urls && now <= s.urls[id]
              then t == s.(data := d.(objects := d.objects + {d.files[id][0]})) else t == s
            case CompletePublication(id) =>
              if Filed(d, id) && d.exchanges[id].direction == OUTBOUND && d.exchanges[id].status == PREPARING
              then Called(t, s, Writing(id, [Examine])) else t == s
            case CompleteUpload(id) =>
              if Filed(d, id) && d.exchanges[id].direction == INBOUND
                && (d.exchanges[id].status == PENDING_UPLOAD || d.exchanges[id].status == UPLOADING)
              then Called(t, s, Writing(id, [Examine])) else t == s
            case Fail(id) =>
              if id in d.exchanges then RowBecomes(t, s, id, d.exchanges[id].(status := FAILED)) else t == s
            case Download(id, organizationId, tenantId) =>
              if id in d.exchanges && d.exchanges[id].organizationId == organizationId
                && d.exchanges[id].tenantId == tenantId && d.exchanges[id].direction == OUTBOUND
                && d.exchanges[id].expiresAt.Some? && d.exchanges[id].expiresAt.value < now
              then RowBecomes(t, s, id, d.exchanges[id].(status := EXPIRED)) else t == s
            case Reconcile(id) =>
              if id in d.exchanges && d.exchanges[id].direction == INBOUND
                && (d.exchanges[id].status == PENDING_UPLOAD || d.exchanges[id].status == UPLOADING)
              then RowBecomes(t, s, id, d.exchanges[id].(status := EXPIRED)) else t == s
            case Remove(id) =>
              if id in d.exchanges
              then Called(t, s.(data := d.(requests := d.requests + [Request(id, Requested)],
                                           audit := d.audit + [DeletionRequested(|d.requests|, id)])),
                          Asked(id, |d.requests|, d.exchanges[id]))
              else t == s
            case Hold(id, legalHold) =>
              if id in d.exchanges
              then RowBecomes(t, s.(data := d.(audit := d.audit + [HoldChanged(id, legalHold)])), id,
                       d.exchanges[id].(legalHold := legalHold))
              else t == s
            case _ => true
  {
    hide AdvanceCall, NewExchange, OriginOf, SimulationEffects;
  }

  // ------------------------------------------------------------ steps of a completion

  /** The call has this left to do; with nothing left it is over. */
  predicate Leaves(t: System, s: System, k: nat, id: string, rest: seq<Effect>) {
    t.calls == if rest == [] then s.calls - {k} else s.calls[k := Writing(id, rest)]
  }

  /** The folder an object lies in. */
  function KindText(kind: StorageKeys.Kind): string { if kind == StorageKeys.DATA then "data" else "metadata" }

  lemma RowAdded(files: map<string, seq<Object>>, id: string, f: Object)
    ensures var after := AddRow(files, id, f);
            && (forall i :: i in files && i != id ==> i in after && after[i] == files[i])
            && (forall i :: i in after && i != id ==> i in files)
            && FilesOf(after, id) == FilesOf(files, id) + if f in FilesOf(files, id) then [] else [f]
  {
    assert FilesOf(files, id) + [] == FilesOf(files, id);
  }

  /** A step in the tables: a status is set whatever it was, a row is added unless it is there. */
  lemma TableStepDoes(s: System, k: nat, id: string, effects: seq<Effect>, reply: StorageReply, now: int,
                      found: Finding)
    requires k in s.calls && s.calls[k] == Writing(id, effects) && effects != [] && id in s.data.exchanges
    requires effects[0].Become? || effects[0].Row?
    ensures var t, d, e := AdvanceCall(s, k, reply, now, found), s.data, s.data.exchanges[id];
            && Leaves(t, s, k, id, effects[1..])
            && match effects[0]
               case Become(status) => t.data == d.(exchanges := d.exchanges[id := e.(status := status)])
               case Row(f) =>
                 && t.data == d.(files := t.data.files)
                 && (forall i :: i in d.files && i != id ==> i in t.data.files && t.data.files[i] == d.files[i])
                 && (forall i :: i in t.data.files && i != id ==> i in d.files)
                 && FilesOf(t.data.files, id) == FilesOf(d.files, id) + if f in FilesOf(d.files, id) then [] else [f]
               case _ => true
  {
    hide StorageKeys.Key, Examined, AddRow, FilesOf;
    var e := s.data.exchanges[id];
    assert s.data.exchanges[id := e] == s.data.exchanges;
    assert s.data.audit + [] == s.data.audit;
    if effects[0].Row? {
      RowAdded(s.data.files, id, effects[0].target);
    }
    assert [] + effects[1..] == effects[1..];
  }

  /** A step in storage: a put is followed by its row, and an exception ends the call, its
      effect done or not. */
  lemma StorageStepDoes(s: System, k: nat, id: string, effects: seq<Effect>, reply: StorageReply, now: int,
                        found: Finding)
    requires k in s.calls && s.calls[k] == Writing(id, effects) && effects != [] && id in s.data.exchanges
    requires !effects[0].Become? && !effects[0].Row?
    ensures var t, d, e := AdvanceCall(s, k, reply, now, found), s.data, s.data.exchanges[id];
            && (reply != Gone ==> t.calls == s.calls - {k})
            && match effects[0]
               case Examine => t.data == d
               case Write(bucket, kind, filename) =>
                 var f := Object(bucket, KeyText(e, id, KindText(kind), filename, now));
                 && t.data == (if reply == Threw(false) then d else d.(objects := d.objects + {f}))
                 && (reply == Gone ==> t.calls == s.calls[k := Writing(id, [Row(f)] + effects[1..])])
               case Discard(f) =>
                 && t.data == (if reply == Threw(false) then d else d.(objects := d.objects - {f}))
                 && (reply == Gone ==> Leaves(t, s, k, id, effects[1..]))
               case _ => true
  {
    hide StorageKeys.Key, KeyText, Examined, AddRow, FilesOf;
    var e := s.data.exchanges[id];
    assert s.data.exchanges[id := e] == s.data.exchanges;
    assert s.data.audit + [] == s.data.audit;
    if effects[0].Write? {
      KeyOfExchange(e, id, effects[0].filename, now);
    }
    assert [] + effects[1..] == effects[1..];
  }
}
