/** What becomes of exchanges and their objects over whole runs of data-exchange-service:
    publication, upload, download, failure, legal hold and deletion, their calls interleaved
    at every await. */
module ExchangeLifecycle {
  import opened Options
  import opened Deletion
  import StorageKeys

  /** What a completion finds in storage: the data as it should be; more bytes than an upload
      may have; a failed validation or another checksum. */
  datatype Finding = Intact | Oversized | Rejected

  /** What a call still has to do to its exchange, one awaited step each. What follows an
      examination depends on the finding; a put is followed by the row of the object it wrote. */
  datatype Effect =
    | Examine
    | Become(status: Status)
    | Write(bucket: string, kind: StorageKeys.Kind, filename: string)
    | Row(target: Object)
    | Discard(target: Object)

  /** A call in flight: completing or simulating a publication or completing an upload; a
      deletion that has read its exchange; a deletion found eligible, at its next file. */
  datatype Call =
    | Writing(id: string, effects: seq<Effect>)
    | Asked(id: string, request: nat, seen: Exchange)
    | Deleting(id: string, request: nat, seen: Exchange, files: seq<Object>, next: nat)

  /** Tables, storage and clock; when the last signed upload URL of an exchange lapses; the
      calls in flight; and, as history, how many file rows each deletion read. */
  datatype System = System(
    data: State, urls: map<string, int>, calls: map<nat, Call>, nextCall: nat, rows: map<nat, nat>)

  datatype Op =
    /** createOutboundPublication and initiateUpload: the exchange, its data file row, a URL. */
    | Create(id: string, organizationId: string, tenantId: string, direction: Direction,
             bucket: string, filename: string, expiresAt: Option<int>, urlLapses: int)
    /** createPublication: the same, but the service writes the objects itself. */
    | Simulate(id: string, organizationId: string, tenantId: string, bucket: string, filename: string, lapsesAt: int)
    /** initiateUpload again under the same idempotency key. */
    | Renew(id: string, urlLapses: int)
    /** The client's PUT of the data file through a signed URL. */
    | Put(id: string)
    /** completeOutboundPublication: reads the exchange. */
    | CompletePublication(id: string)
    /** completeUpload: reads the exchange. */
    | CompleteUpload(id: string)
    /** failOutboundPublication. */
    | Fail(id: string)
    /** requestDownloadUrl by someone acting for a tenant. */
    | Download(id: string, organizationId: string, tenantId: string)
    /** reconcileOrphanExchanges reaching one exchange. */
    | Reconcile(id: string)
    /** requestDeletion. */
    | Remove(id: string)
    /** setLegalHold. */
    | Hold(id: string, legalHold: bool)
    /** A call in flight takes its next step; storage may throw, its effect done or not. An
        examination that comes back has its finding. */
    | Advance(call: nat, reply: StorageReply, found: Finding := Intact)

  /** An operation at the time the service's clock shows. */
  datatype Event = Event(now: int, op: Op)

  // ------------------------------------------------------------ steps

  function SetStatus(d: State, id: string, status: Status): State
    requires id in d.exchanges
  {
    d.(exchanges := d.exchanges[id := d.exchanges[id].(status := status)])
  }

  function OriginOf(e: Exchange, id: string, kind: StorageKeys.Kind, filename: string, now: int): StorageKeys.Origin {
    StorageKeys.Origin(if e.direction == OUTBOUND then StorageKeys.DOWNLOADS else StorageKeys.UPLOADS, kind,
                       e.organizationId, e.tenantId, id, filename, now)
  }

  /** The row of the data file, the first an exchange gets. */
  predicate HasData(d: State, id: string) { id in d.exchanges && FilesOf(d.files, id) != [] }

  function DataOf(d: State, id: string): Object
    requires HasData(d, id)
  {
    FilesOf(d.files, id)[0]
  }

  /** createExchangeFile: a second row for the same object only updates the first. */
  function AddRow(files: map<string, seq<Object>>, id: string, f: Object): map<string, seq<Object>> {
    if f in FilesOf(files, id) then files else files[id := FilesOf(files, id) + [f]]
  }

  function Begin(s: System, call: Call): (t: System)
    ensures t.data == s.data && t.urls == s.urls
  {
    s.(calls := s.calls[s.nextCall := call], nextCall := s.nextCall + 1)
  }

  /** Whether a storage call had its effect, and whether the caller goes on. */
  predicate Happens(reply: StorageReply) { reply == Gone || reply == Threw(true) }

  function NewExchange(s: System, id: string, e: Exchange, files: seq<Object>): (t: System)
    ensures t.urls == s.urls
  {
    s.(data := s.data.(exchanges := s.data.exchanges[id := e], files := s.data.files[id := files]))
  }

  function Sign(s: System, id: string, lapses: int): (t: System)
    ensures t.data == s.data
  {
    s.(urls := s.urls[id := if id in s.urls && s.urls[id] > lapses then s.urls[id] else lapses])
  }

  // ------------------------------------------------------------ one step of a call

  predicate Sane(d: State, c: Call) {
    c.id in d.exchanges
    && match c
       case Writing(_, effects) => effects != []
       case Asked(_, r, _) => r < |d.requests|
       case Deleting(_, r, _, files, next) => r < |d.requests| && next <= |files|
  }

  /** The object a call's next step deletes, if it deletes one. */
  function Target(c: Call): Option<Object> {
    match c
    case Writing(_, effects) => if effects != [] && effects[0].Discard? then Some(effects[0].target) else None
    case Deleting(_, _, _, files, next) => if next < |files| then Some(files[next]) else None
    case Asked(_, _, _) => None
  }

  /** The object a call's next step puts, if it puts one. */
  function Output(d: State, c: Call, now: int): Option<Object> {
    if c.Writing? && c.effects != [] && c.effects[0].Write? && c.id in d.exchanges then
      var w := c.effects[0];
      Some(Object(w.bucket, StorageKeys.Key(OriginOf(d.exchanges[c.id], c.id, w.kind, w.filename, now))))
    else None
  }

  function CallObjects(d: State, c: Call, reply: StorageReply, now: int): set<Object> {
    if !Happens(reply) then d.objects
    else match (Target(c), Output(d, c, now))
      case (Some(f), _) => d.objects - {f}
      case (None, Some(f)) => d.objects + {f}
      case (None, None) => d.objects
  }

  /** Status updates are unconditional. */
  function CallExchange(c: Call, e: Exchange): Exchange {
    match c
    case Writing(_, effects) => if effects != [] && effects[0].Become? then e.(status := effects[0].status) else e
    case Deleting(_, _, _, files, next) => if next == |files| then e.(status := DELETED) else e
    case Asked(_, _, _) => e
  }

  function CallFiles(d: State, c: Call): map<string, seq<Object>> {
    if c.Writing? && c.effects != [] && c.effects[0].Row? then AddRow(d.files, c.id, c.effects[0].target) else d.files
  }

  /** A deletion's request after its next step. The verdict is on what was read, not on what
      the exchange has become since. */
  function CallStatus(c: Call, reply: StorageReply): Option<RequestStatus> {
    match c
    case Writing(_, _) => None
    case Asked(_, _, seen) => if Ineligible(seen).Some? then Some(Blocked(Ineligible(seen).value)) else Some(InProgress)
    case Deleting(_, _, _, files, next) =>
      if next == |files| then Some(Completed) else if reply == Gone then None else Some(Failed)
  }

  function CallRequests(d: State, c: Call, reply: StorageReply): seq<Request>
    requires Sane(d, c)
  {
    match CallStatus(c, reply)
    case Some(status) => d.requests[c.request := d.requests[c.request].(status := status)]
    case None => d.requests
  }

  function CallEvents(c: Call, reply: StorageReply): seq<Audit> {
    match CallStatus(c, reply)
    case Some(Blocked(reason)) => [DeletionBlocked(c.request, c.id, reason)]
    case Some(Completed) => [RetentionExecuted(c.request, c.id, |c.files|), DeletionCompleted(c.request, c.id)]
    case Some(Failed) => [DeletionFailed(c.request, c.id)]
    case _ => []
  }

  function PublicationEffects(data: Object, found: Finding): seq<Effect> {
    if found != Rejected then [Become(READY), Write(data.bucket, StorageKeys.METADATA, "manifest.json")]
    else [Become(FAILED)]
  }

  function UploadEffects(data: Object, found: Finding): seq<Effect> {
    if found == Oversized then [Discard(data), Become(FAILED)]
    else [Become(RECEIVED), Write(data.bucket, StorageKeys.METADATA, "manifest.json"),
          Write(data.bucket, StorageKeys.METADATA, "validation.json"),
          Become(if found == Intact then VALIDATED else VALIDATION_FAILED)]
  }

  /** What an examination leads to: nothing if the data file is not in storage. */
  function Examined(d: State, id: string, found: Finding): seq<Effect> {
    if !HasData(d, id) || DataOf(d, id) !in d.objects then []
    else if d.exchanges[id].direction == OUTBOUND then PublicationEffects(DataOf(d, id), found)
    else UploadEffects(DataOf(d, id), found)
  }

  /** What the first step of a completing call adds to the rest. */
  function Following(d: State, c: Call, now: int, found: Finding): seq<Effect> {
    if c.Writing? && c.effects != [] && c.effects[0].Examine? then Examined(d, c.id, found)
    else match Output(d, c, now) case Some(f) => [Row(f)] case None => []
  }

  /** What a call still has to do after its next step; an exception ends it. */
  function NextOf(d: State, c: Call, reply: StorageReply, now: int, found: Finding): Option<Call> {
    match c
    case Writing(id, effects) =>
      if effects == [] || (!effects[0].Become? && !effects[0].Row? && reply != Gone) then None
      else
        var rest := Following(d, c, now, found) + effects[1..];
        if rest == [] then None else Some(Writing(id, rest))
    case Asked(id, r, seen) =>
      if Ineligible(seen).Some? then None else Some(Deleting(id, r, seen, FilesOf(d.files, id), 0))
    case Deleting(id, r, seen, files, next) =>
      if next < |files| && reply == Gone then Some(Deleting(id, r, seen, files, next + 1)) else None
  }

  function AdvanceCall(s: System, k: nat, reply: StorageReply, now: int, found: Finding): (t: System)
    requires k in s.calls && Sane(s.data, s.calls[k])
    ensures t.urls == s.urls
  {
    var c, d := s.calls[k], s.data;
    System(State(d.exchanges[c.id := CallExchange(c, d.exchanges[c.id])], CallFiles(d, c),
                 CallObjects(d, c, reply, now),
                 CallRequests(d, c, reply), d.audit + CallEvents(c, reply), d.clock),
           s.urls,
           match NextOf(d, c, reply, now, found) case Some(n) => s.calls[k := n] case None => s.calls - {k},
           s.nextCall, CallRows(s, c))
  }

  /** How many file rows a deletion reads when it is found eligible. */
  function CallRows(s: System, c: Call): map<nat, nat> {
    if c.Asked? && Ineligible(c.seen).None? then s.rows[c.request := |FilesOf(s.data.files, c.id)|] else s.rows
  }

  // ------------------------------------------------------------ one operation

  /** Past its expiry, for a download by its own tenant. */
  predicate ExpiredFor(e: Exchange, organizationId: string, tenantId: string, now: int) {
    && e.organizationId == organizationId && e.tenantId == tenantId && e.direction == OUTBOUND
    && e.expiresAt.Some? && e.expiresAt.value < now
  }

  function SimulationEffects(bucket: string, filename: string): seq<Effect> {
    [Write(bucket, StorageKeys.DATA, filename), Write(bucket, StorageKeys.METADATA, "manifest.json"), Become(READY)]
  }

  predicate MayPublish(d: State, id: string) {
    HasData(d, id) && d.exchanges[id].direction == OUTBOUND && d.exchanges[id].status == PREPARING
  }

  predicate MayReceive(d: State, id: string) {
    HasData(d, id) && d.exchanges[id].direction == INBOUND && d.exchanges[id].status in {PENDING_UPLOAD, UPLOADING}
  }

  /** Reads the exchange, files the request and audits it; the verdict comes later. */
  function BeginDeletion(s: System, id: string): (t: System)
    requires id in s.data.exchanges
    ensures t.urls == s.urls
  {
    var r := |s.data.requests|;
    Begin(s.(data := s.data.(requests := s.data.requests + [Request(id, Requested)],
                             audit := s.data.audit + [DeletionRequested(r, id)])),
          Asked(id, r, s.data.exchanges[id]))
  }

  function Apply(s: System, op: Op, now: int): System {
    var d := s.data;
    match op
    case Create(id, organizationId, tenantId, direction, bucket, filename, expiresAt, urlLapses) =>
      if id in d.exchanges then s
      else
        var status := if direction == OUTBOUND then PREPARING else PENDING_UPLOAD;
        var e := Exchange(organizationId, tenantId, direction, status, false, expiresAt);
        var data := Object(bucket, StorageKeys.Key(OriginOf(e, id, StorageKeys.DATA, filename, now)));
        Sign(NewExchange(s, id, e, [data]), id, urlLapses)
    case Simulate(id, organizationId, tenantId, bucket, filename, lapsesAt) =>
      if id in d.exchanges then s
      else
        Begin(NewExchange(s, id, Exchange(organizationId, tenantId, OUTBOUND, PREPARING, false, Some(lapsesAt)), []),
              Writing(id, SimulationEffects(bucket, filename)))
    case Renew(id, urlLapses) =>
      if HasData(d, id) && d.exchanges[id].direction == INBOUND then Sign(s, id, urlLapses) else s
    case Put(id) =>
      if HasData(d, id) && id in s.urls && now <= s.urls[id] then
        s.(data := d.(objects := d.objects + {DataOf(d, id)}))
      else s
    case CompletePublication(id) => if MayPublish(d, id) then Begin(s, Writing(id, [Examine])) else s
    case CompleteUpload(id) => if MayReceive(d, id) then Begin(s, Writing(id, [Examine])) else s
    case Fail(id) =>
      if id in d.exchanges && ValidTransition(OUTBOUND, d.exchanges[id].status, FAILED)
      then s.(data := SetStatus(d, id, FAILED))
      else s
    case Download(id, organizationId, tenantId) =>
      if id in d.exchanges && ExpiredFor(d.exchanges[id], organizationId, tenantId, now)
      then s.(data := SetStatus(d, id, EXPIRED))
      else s
    case Reconcile(id) =>
      if id in d.exchanges && d.exchanges[id].direction == INBOUND
        && d.exchanges[id].status in {PENDING_UPLOAD, UPLOADING}
      then s.(data := SetStatus(d, id, EXPIRED))
      else s
    case Remove(id) => if id in d.exchanges then BeginDeletion(s, id) else s
    case Hold(id, legalHold) =>
      if id in d.exchanges then
        s.(data := d.(exchanges := d.exchanges[id := d.exchanges[id].(legalHold := legalHold)],
                      audit := d.audit + [HoldChanged(id, legalHold)]))
      else s
    case Advance(k, reply, found) =>
      if k in s.calls && Sane(d, s.calls[k]) then AdvanceCall(s, k, reply, now, found) else s
  }

  function Tick(s: System, now: int): System { s.(data := s.data.(clock := now)) }

  function Step(s: System, event: Event): System { Tick(Apply(s, event.op, event.now), event.now) }

  /** The ids in object keys are the service's own and hold no slash; filenames may. */
  predicate Legit(op: Op) {
    op.Create? || op.Simulate? ==>
      StorageKeys.SlashFree(op.organizationId) && StorageKeys.SlashFree(op.tenantId) && StorageKeys.SlashFree(op.id)
  }

  /** A run whose clock never goes back. */
  predicate Runs(s: System, events: seq<Event>)
    decreases |events|
  {
    events != [] ==> s.data.clock <= events[0].now && Legit(events[0].op) && Runs(Step(s, events[0]), events[1..])
  }

  function Run(s: System, events: seq<Event>): System
    decreases |events|
  {
    if events == [] then s else Run(Step(s, events[0]), events[1..])
  }

  const START := System(State(map[], map[], {}, [], [], 0), map[], map[], 0, map[])

  // ------------------------------------------------------------ who owns an object

  /** An object whose key was built for an exchange. */
  ghost predicate Owned(f: Object, id: string) {
    exists o: StorageKeys.Origin :: StorageKeys.Plain(o) && o.exchangeId == id && f.key == StorageKeys.Key(o)
  }

  /** No object belongs to two exchanges. */
  lemma OneOwner(f: Object, a: string, b: string)
    requires Owned(f, a) && Owned(f, b)
    ensures a == b
  {
    hide StorageKeys.Key;
    var o: StorageKeys.Origin :| StorageKeys.Plain(o) && o.exchangeId == a && f.key == StorageKeys.Key(o);
    var p: StorageKeys.Origin :| StorageKeys.Plain(p) && p.exchangeId == b && f.key == StorageKeys.Key(p);
    StorageKeys.KeysIdentify(o, p);
  }

  predicate PlainIds(e: Exchange, id: string) {
    StorageKeys.SlashFree(id) && StorageKeys.SlashFree(e.organizationId) && StorageKeys.SlashFree(e.tenantId)
  }

  lemma BuiltIsOwned(bucket: string, e: Exchange, id: string, kind: StorageKeys.Kind, filename: string, now: int)
    requires PlainIds(e, id)
    ensures Owned(Object(bucket, StorageKeys.Key(OriginOf(e, id, kind, filename, now))), id)
  {
    hide StorageKeys.Key;
    var o := OriginOf(e, id, kind, filename, now);
    assert StorageKeys.Plain(o) && o.exchangeId == id;
  }

  // ------------------------------------------------------------ the invariant

  ghost predicate AllOwned(files: seq<Object>, id: string) { forall f :: f in files ==> Owned(f, id) }

  ghost predicate FilesOwned(d: State) { forall id :: id in d.files ==> AllOwned(d.files[id], id) }

  ghost predicate IdsPlain(d: State) { forall id :: id in d.exchanges ==> PlainIds(d.exchanges[id], id) }

  predicate Expired(e: Exchange, clock: int) {
    e.direction == OUTBOUND && e.expiresAt.Some? && e.expiresAt.value < clock
  }

  /** An OUTBOUND exchange is EXPIRED only past its expiry; only such a one is DELETED. */
  ghost predicate ExpiryPassed(d: State) {
    forall id :: id in d.exchanges ==>
      && (d.exchanges[id].status == EXPIRED && d.exchanges[id].direction == OUTBOUND ==>
          Expired(d.exchanges[id], d.clock))
      && (d.exchanges[id].status == DELETED ==> Expired(d.exchanges[id], d.clock))
  }

  ghost predicate EffectOk(e: Exchange, id: string, effect: Effect) {
    match effect
    case Examine => true
    case Become(status) => status in {READY, RECEIVED, VALIDATED, VALIDATION_FAILED, FAILED}
    case Write(_, _, _) => true
    case Row(f) => Owned(f, id)
    case Discard(f) => Owned(f, id) && e.direction == INBOUND
  }

  /** Only the next step of a call examines or deletes, never a later one. */
  ghost predicate EffectsOk(e: Exchange, id: string, effects: seq<Effect>) {
    && (forall effect :: effect in effects ==> EffectOk(e, id, effect))
    && forall i :: 0 < i < |effects| ==> !effects[i].Discard? && !effects[i].Examine?
  }

  ghost predicate CallOk(d: State, c: Call) {
    && c.id in d.exchanges && c.id in d.files
    && var e := d.exchanges[c.id];
       match c
       case Writing(id, effects) => effects != [] && EffectsOk(e, id, effects)
       case Asked(_, r, seen) =>
         r < |d.requests| && seen.direction == e.direction && seen.expiresAt == e.expiresAt
         && (seen.status == EXPIRED && seen.direction == OUTBOUND ==> Expired(seen, d.clock))
       case Deleting(id, r, seen, files, next) =>
         r < |d.requests| && next <= |files| && files <= d.files[id] && Expired(e, d.clock) && Ineligible(seen).None?
  }

  ghost predicate CallsOk(s: System) {
    forall k :: k in s.calls ==> k < s.nextCall && CallOk(s.data, s.calls[k])
  }

  ghost predicate Inv(s: System) {
    s.data.files.Keys == s.data.exchanges.Keys && FilesOwned(s.data) && IdsPlain(s.data) && ExpiryPassed(s.data)
      && CallsOk(s)
  }

  // ------------------------------------------------------------ what one step does to each table

  /** The step is one of a call in flight. */
  predicate Moves(s: System, op: Op) { op.Advance? && op.call in s.calls && Sane(s.data, s.calls[op.call]) }

  predicate Puts(s: System, op: Op, now: int) {
    op.Put? && HasData(s.data, op.id) && op.id in s.urls && now <= s.urls[op.id]
  }

  lemma ObjectsView(s: System, op: Op, now: int)
    ensures Apply(s, op, now).data.objects
            == if Puts(s, op, now) then s.data.objects + {DataOf(s.data, op.id)}
               else if Moves(s, op) then CallObjects(s.data, s.calls[op.call], op.reply, now)
               else s.data.objects
  {
    hide ValidTransition, ExpiredFor, StorageKeys.Key, OriginOf, CallObjects, CallExchange, CallFiles, CallRequests,
         CallEvents, NextOf, HasData, DataOf, Sane;
  }

  /** What becomes of an exchange that is there. */
  function ExchangeAfter(s: System, op: Op, now: int, id: string): Exchange
    requires id in s.data.exchanges
  {
    var e := s.data.exchanges[id];
    match op
    case Fail(i) => if i == id && ValidTransition(OUTBOUND, e.status, FAILED) then e.(status := FAILED) else e
    case Download(i, organizationId, tenantId) =>
      if i == id && ExpiredFor(e, organizationId, tenantId, now) then e.(status := EXPIRED) else e
    case Reconcile(i) =>
      if i == id && e.direction == INBOUND && e.status in {PENDING_UPLOAD, UPLOADING} then e.(status := EXPIRED) else e
    case Hold(i, legalHold) => if i == id then e.(legalHold := legalHold) else e
    case Advance(k, _, _) => if Moves(s, op) && s.calls[k].id == id then CallExchange(s.calls[k], e) else e
    case _ => e
  }

  lemma ExchangeView(s: System, op: Op, now: int, id: string)
    requires id in s.data.exchanges
    ensures var t := Apply(s, op, now).data;
            id in t.exchanges && t.exchanges[id] == ExchangeAfter(s, op, now, id)
  {
    hide ValidTransition, ExpiredFor, StorageKeys.Key, OriginOf, CallObjects, CallExchange, CallFiles, CallRequests,
         CallEvents, NextOf, HasData, DataOf, Sane;
  }

  lemma FilesView(s: System, op: Op, now: int, id: string)
    requires id in s.data.exchanges
    ensures FilesOf(Apply(s, op, now).data.files, id)
            == FilesOf(if Moves(s, op) then CallFiles(s.data, s.calls[op.call]) else s.data.files, id)
  {
    hide ValidTransition, ExpiredFor, StorageKeys.Key, OriginOf, CallObjects, CallExchange, CallFiles, CallRequests,
         CallEvents, NextOf, HasData, DataOf, Sane;
  }

  /** The call an operation begins. */
  function Begun(s: System, op: Op): Option<Call> {
    var d := s.data;
    match op
    case Simulate(id, _, _, bucket, filename, _) =>
      if id in d.exchanges then None else Some(Writing(id, SimulationEffects(bucket, filename)))
    case CompletePublication(id) => if MayPublish(d, id) then Some(Writing(id, [Examine])) else None
    case CompleteUpload(id) => if MayReceive(d, id) then Some(Writing(id, [Examine])) else None
    case Remove(id) => if id in d.exchanges then Some(Asked(id, |d.requests|, d.exchanges[id])) else None
    case _ => None
  }

  lemma CallsView(s: System, op: Op, now: int)
    ensures var t := Apply(s, op, now);
            && t.calls == (if Moves(s, op) then
                             match NextOf(s.data, s.calls[op.call], op.reply, now, op.found)
                             case Some(n) => s.calls[op.call := n]
                             case None => s.calls - {op.call}
                           else match Begun(s, op)
                             case Some(c) => s.calls[s.nextCall := c]
                             case None => s.calls)
            && t.nextCall == s.nextCall + if Begun(s, op).Some? then 1 else 0
  {
    hide ValidTransition, ExpiredFor, StorageKeys.Key, OriginOf, CallObjects, CallExchange, CallFiles, CallRequests,
         CallEvents, NextOf, HasData, DataOf, Sane;
  }

  /** The exchange an operation brings in, with its file rows. */
  predicate Enters(s: System, op: Op, id: string) {
    (op.Create? || op.Simulate?) && op.id == id && id !in s.data.exchanges
  }

  function NewFiles(op: Op, e: Exchange, now: int): seq<Object>
    requires op.Create? || op.Simulate?
  {
    if op.Create? then [Object(op.bucket, StorageKeys.Key(OriginOf(e, op.id, StorageKeys.DATA, op.filename, now)))]
    else []
  }

  lemma DomainView(s: System, op: Op, now: int)
    requires s.data.files.Keys == s.data.exchanges.Keys
    ensures var t := Apply(s, op, now).data;
            && t.files.Keys == t.exchanges.Keys
            && forall id :: id in t.exchanges <==> id in s.data.exchanges || Enters(s, op, id)
  {
    hide ValidTransition, ExpiredFor, StorageKeys.Key, OriginOf, CallObjects, CallExchange, CallFiles, CallRequests,
         CallEvents, NextOf, HasData, DataOf, Sane;
    if Moves(s, op) {
      SaneId(s.data, s.calls[op.call]);
      CallDomain(s.data, s.calls[op.call]);
    }
  }

  lemma SaneId(d: State, c: Call)
    requires Sane(d, c)
    ensures c.id in d.exchanges
  {
  }

  lemma CallDomain(d: State, c: Call)
    requires c.id in d.exchanges && d.files.Keys == d.exchanges.Keys
    ensures CallFiles(d, c).Keys == d.files.Keys
  {
  }

  lemma EntryView(s: System, op: Op, now: int, id: string)
    requires Enters(s, op, id)
    ensures var t := Apply(s, op, now).data;
            && id in t.exchanges && id in t.files
            && var e := t.exchanges[id];
               && e.organizationId == op.organizationId && e.tenantId == op.tenantId && !e.legalHold
               && e.status in {PREPARING, PENDING_UPLOAD} && t.files[id] == NewFiles(op, e, now)
  {
    hide ValidTransition, ExpiredFor, StorageKeys.Key, OriginOf, CallObjects, CallExchange, CallFiles, CallRequests,
         CallEvents, NextOf, HasData, DataOf, Sane;
  }

  lemma LogView(s: System, op: Op, now: int)
    ensures var t, d := Apply(s, op, now), s.data;
            && t.data.requests == (if Moves(s, op) then CallRequests(d, s.calls[op.call], op.reply)
                                   else if op.Remove? && op.id in d.exchanges
                                     then d.requests + [Request(op.id, Requested)]
                                   else d.requests)
            && t.data.audit == d.audit + (if Moves(s, op) then CallEvents(s.calls[op.call], op.reply)
                                          else if op.Remove? && op.id in d.exchanges
                                            then [DeletionRequested(|d.requests|, op.id)]
                                          else if op.Hold? && op.id in d.exchanges
                                            then [HoldChanged(op.id, op.legalHold)]
                                          else [])
            && t.rows == (if Moves(s, op) then CallRows(s, s.calls[op.call]) else s.rows)
            && t.data.clock == d.clock
  {
    hide ValidTransition, ExpiredFor, StorageKeys.Key, OriginOf, CallObjects, CallExchange, CallFiles, CallRequests,
         CallEvents, NextOf, HasData, DataOf, Sane, CallRows;
  }

  // ------------------------------------------------------------ every step keeps the invariant

  /** What no step ever changes about an exchange. */
  predicate SameExchange(e: Exchange, f: Exchange) {
    e.organizationId == f.organizationId && e.tenantId == f.tenantId && e.direction == f.direction
    && e.expiresAt == f.expiresAt
  }

  lemma ExchangeStays(s: System, op: Op, now: int, id: string)
    requires id in s.data.exchanges
    ensures SameExchange(s.data.exchanges[id], ExchangeAfter(s, op, now, id))
  {
    hide ValidTransition, ExpiredFor, Sane;
  }

  /** File rows are only added. */
  lemma FilesGrow(s: System, op: Op, now: int, id: string)
    requires id in s.data.exchanges
    ensures FilesOf(s.data.files, id) <= FilesOf(Apply(s, op, now).data.files, id)
  {
    hide Apply, Sane;
    FilesView(s, op, now, id);
  }

  lemma ApplyKeepsFiles(s: System, op: Op, now: int)
    requires Inv(s) && Legit(op)
    ensures FilesOwned(Apply(s, op, now).data) && IdsPlain(Apply(s, op, now).data)
  {
    hide Apply, Owned, StorageKeys.SlashFree, StorageKeys.Key, OriginOf, ExpiryPassed, ExchangeAfter;
    var t := Apply(s, op, now).data;
    DomainView(s, op, now);
    forall id | id in t.exchanges ensures AllOwned(t.files[id], id) && PlainIds(t.exchanges[id], id) {
      if id in s.data.exchanges {
        FilesView(s, op, now, id);
        ExchangeView(s, op, now, id);
        ExchangeStays(s, op, now, id);
        if Moves(s, op) {
          RowOwned(s, op.call, id);
        }
      } else {
        EntryView(s, op, now, id);
        if op.Create? {
          BuiltIsOwned(op.bucket, t.exchanges[id], id, StorageKeys.DATA, op.filename, now);
        }
      }
    }
  }

  lemma FileOwned(s: System, id: string, f: Object)
    requires Inv(s) && id in s.data.files && f in s.data.files[id]
    ensures Owned(f, id)
  {
    hide Owned, IdsPlain, ExpiryPassed, CallsOk;
    assert AllOwned(s.data.files[id], id);
  }

  lemma RowOwned(s: System, k: nat, id: string)
    requires Inv(s) && k in s.calls && id in s.data.files
    ensures AllOwned(FilesOf(CallFiles(s.data, s.calls[k]), id), id)
  {
    hide Owned, ExpiryPassed, IdsPlain;
    var c := s.calls[k];
    assert CallOk(s.data, c);
    assert AllOwned(s.data.files[id], id);
    if c.Writing? && c.effects[0].Row? {
      assert EffectOk(s.data.exchanges[c.id], c.id, c.effects[0]);
    }
  }

  lemma ApplyKeepsExpiry(s: System, op: Op, now: int)
    requires Inv(s) && s.data.clock <= now
    ensures ExpiryPassed(Tick(Apply(s, op, now), now).data)
  {
    hide Apply, Owned, FilesOwned, IdsPlain, ValidTransition;
    var t := Apply(s, op, now).data;
    DomainView(s, op, now);
    forall id | id in t.exchanges
      ensures var e := t.exchanges[id];
              (e.status == EXPIRED && e.direction == OUTBOUND ==> Expired(e, now))
                && (e.status == DELETED ==> Expired(e, now))
    {
      if id in s.data.exchanges {
        ExchangeView(s, op, now, id);
        if Moves(s, op) {
          BecomesOk(s, op.call);
        }
      } else {
        EntryView(s, op, now, id);
      }
    }
  }

  lemma BecomesOk(s: System, k: nat)
    requires Inv(s) && k in s.calls
    ensures var c := s.calls[k];
            && c.id in s.data.exchanges
            && (c.Writing? && c.effects[0].Become? ==>
                  c.effects[0].status in {READY, RECEIVED, VALIDATED, VALIDATION_FAILED, FAILED})
            && (c.Deleting? ==> Expired(s.data.exchanges[c.id], s.data.clock))
            && (c.Writing? ==> c.effects != [])
  {
    hide Owned;
    var c := s.calls[k];
    assert CallOk(s.data, c);
    if c.Writing? {
      assert EffectOk(s.data.exchanges[c.id], c.id, c.effects[0]);
    }
  }

  /** A call's standing does not depend on what other steps change. */
  lemma CallStays(s: System, op: Op, now: int, c: Call)
    requires Inv(s) && Legit(op) && s.data.clock <= now && CallOk(s.data, c)
    ensures CallOk(Tick(Apply(s, op, now), now).data, c)
  {
    hide Apply, Owned, FilesOwned, IdsPlain, ExpiryPassed, CallsOk, ExchangeAfter, Sane;
    var t := Tick(Apply(s, op, now), now).data;
    DomainView(s, op, now);
    ExchangeView(s, op, now, c.id);
    ExchangeStays(s, op, now, c.id);
    FilesGrow(s, op, now, c.id);
    LogView(s, op, now);
    RequestsGrow(s, op);
    if c.Writing? {
      forall effect | effect in c.effects ensures EffectOk(t.exchanges[c.id], c.id, effect) {
        assert EffectOk(s.data.exchanges[c.id], c.id, effect);
      }
    }
  }

  lemma RequestsGrow(s: System, op: Op)
    ensures Moves(s, op) ==> |CallRequests(s.data, s.calls[op.call], op.reply)| == |s.data.requests|
  {
  }

  lemma ExaminedOk(d: State, id: string, found: Finding)
    requires FilesOwned(d) && id in d.exchanges
    ensures EffectsOk(d.exchanges[id], id, Examined(d, id, found))
  {
    hide Owned;
    if HasData(d, id) {
      assert AllOwned(d.files[id], id) && DataOf(d, id) in d.files[id];
    }
  }

  lemma OutputOk(d: State, c: Call, now: int)
    requires c.id in d.exchanges && PlainIds(d.exchanges[c.id], c.id) && Output(d, c, now).Some?
    ensures Owned(Output(d, c, now).value, c.id)
  {
    hide Owned, StorageKeys.Key, OriginOf, StorageKeys.SlashFree;
    BuiltIsOwned(c.effects[0].bucket, d.exchanges[c.id], c.id, c.effects[0].kind, c.effects[0].filename, now);
  }

  /** What a call goes on to is in order if it was. */
  lemma NextOk(d: State, c: Call, reply: StorageReply, now: int, found: Finding)
    requires CallOk(d, c) && FilesOwned(d) && PlainIds(d.exchanges[c.id], c.id)
    requires NextOf(d, c, reply, now, found).Some?
    ensures CallOk(d, NextOf(d, c, reply, now, found).value)
  {
    hide Owned, FilesOwned, PlainIds, Output, Examined;
    if c.Writing? {
      var e, rest, first := d.exchanges[c.id], c.effects[1..], Following(d, c, now, found);
      ExaminedOk(d, c.id, found);
      if Output(d, c, now).Some? {
        OutputOk(d, c, now);
      }
      forall effect | effect in first + rest ensures EffectOk(e, c.id, effect) {
        assert effect in first || effect in c.effects;
      }
      forall i | 0 < i < |first + rest| ensures !(first + rest)[i].Discard? && !(first + rest)[i].Examine? {
        if i >= |first| {
          assert (first + rest)[i] == c.effects[i - |first| + 1];
        }
      }
    }
  }

  lemma BegunOk(s: System, op: Op)
    requires Inv(s) && Begun(s, op).Some? && !op.Simulate? && !op.Remove?
    ensures CallOk(s.data, Begun(s, op).value)
  {
    hide Owned, IdsPlain, ExpiryPassed, CallsOk;
    assert AllOwned(s.data.files[op.id], op.id);
    assert DataOf(s.data, op.id) in s.data.files[op.id];
  }

  lemma RemovalOk(s: System, op: Op, now: int)
    requires Inv(s) && op.Remove? && op.id in s.data.exchanges && s.data.clock <= now
    ensures CallOk(Tick(Apply(s, op, now), now).data, Asked(op.id, |s.data.requests|, s.data.exchanges[op.id]))
  {
    hide Owned, FilesOwned, IdsPlain, CallsOk;
  }

  lemma SimulationOk(s: System, op: Op, now: int)
    requires Inv(s) && op.Simulate? && op.id !in s.data.exchanges
    ensures CallOk(Tick(Apply(s, op, now), now).data, Writing(op.id, SimulationEffects(op.bucket, op.filename)))
  {
    hide Owned, FilesOwned, IdsPlain, CallsOk, ExpiryPassed;
  }

  lemma ApplyKeepsCalls(s: System, op: Op, now: int)
    requires Inv(s) && Legit(op) && s.data.clock <= now
    ensures CallsOk(Tick(Apply(s, op, now), now))
  {
    hide Apply, Owned, FilesOwned, IdsPlain, ExpiryPassed, CallOk, NextOf, Begun, Sane;
    var t := Tick(Apply(s, op, now), now);
    CallsView(s, op, now);
    forall k | k in t.calls ensures k < t.nextCall && CallOk(t.data, t.calls[k]) {
      if k in s.calls && t.calls[k] == s.calls[k] {
        CallStays(s, op, now, s.calls[k]);
      } else if Moves(s, op) {
        CallMoves(s, op, now, k);
      } else {
        CallBegins(s, op, now);
      }
    }
  }

  lemma CallMoves(s: System, op: Op, now: int, k: nat)
    requires Inv(s) && Legit(op) && s.data.clock <= now && Moves(s, op) && k == op.call
    requires NextOf(s.data, s.calls[k], op.reply, now, op.found).Some?
    ensures CallOk(Tick(Apply(s, op, now), now).data, NextOf(s.data, s.calls[k], op.reply, now, op.found).value)
  {
    hide Apply, Owned, FilesOwned, ExpiryPassed, NextOf, Sane, CallOk;
    var c := s.calls[k];
    assert CallOk(s.data, c);
    assert c.id in s.data.exchanges by { CallHasId(s.data, c); }
    NextOk(s.data, c, op.reply, now, op.found);
    CallStays(s, op, now, NextOf(s.data, c, op.reply, now, op.found).value);
  }

  lemma CallHasId(d: State, c: Call)
    requires CallOk(d, c)
    ensures c.id in d.exchanges
  {
  }

  lemma CallBegins(s: System, op: Op, now: int)
    requires Inv(s) && Legit(op) && s.data.clock <= now && Begun(s, op).Some?
    ensures CallOk(Tick(Apply(s, op, now), now).data, Begun(s, op).value)
  {
    hide Apply, Owned, FilesOwned, ExpiryPassed, IdsPlain, CallOk;
    if op.Remove? {
      RemovalOk(s, op, now);
    } else if op.Simulate? {
      SimulationOk(s, op, now);
    } else {
      BegunOk(s, op);
      CallStays(s, op, now, Begun(s, op).value);
    }
  }

  lemma StepKeeps(s: System, event: Event)
    requires Inv(s) && Legit(event.op) && s.data.clock <= event.now
    ensures Inv(Step(s, event))
  {
    hide Apply, FilesOwned, IdsPlain, ExpiryPassed, CallsOk, Legit;
    var t := Apply(s, event.op, event.now);
    DomainView(s, event.op, event.now);
    ApplyKeepsFiles(s, event.op, event.now);
    ApplyKeepsExpiry(s, event.op, event.now);
    ApplyKeepsCalls(s, event.op, event.now);
    TickKeepsFiles(t, event.now);
  }

  lemma TickKeepsFiles(s: System, now: int)
    requires FilesOwned(s.data) && IdsPlain(s.data)
    ensures FilesOwned(Tick(s, now).data) && IdsPlain(Tick(s, now).data)
  {
    hide Owned, PlainIds;
  }

  lemma {:induction false} RunKeeps(s: System, events: seq<Event>)
    requires Inv(s) && Runs(s, events)
    ensures Inv(Run(s, events))
    decreases |events|
  {
    hide Inv, Step, Legit;
    if events != [] {
      StepKeeps(s, events[0]);
      RunKeeps(Step(s, events[0]), events[1..]);
    }
  }

  lemma StartKeeps()
    ensures Inv(START)
  {
  }

  // ------------------------------------------------------------ one row an object

  predicate Distinct(files: seq<Object>) { forall i, j :: 0 <= i < j < |files| ==> files[i] != files[j] }

  predicate RowsDistinct(d: State) { forall id :: id in d.files ==> Distinct(d.files[id]) }

  /** Completing a publication records its data file again: no second row comes of it. */
  lemma AddRowDistinct(files: map<string, seq<Object>>, id: string, f: Object)
    requires Distinct(FilesOf(files, id))
    ensures Distinct(FilesOf(AddRow(files, id, f), id))
    ensures f in FilesOf(files, id) ==> AddRow(files, id, f) == files
  {
  }

  lemma StepKeepsDistinct(s: System, event: Event)
    requires Inv(s) && RowsDistinct(s.data)
    ensures RowsDistinct(Step(s, event).data)
  {
    hide Apply, AddRow, Distinct, FilesOwned, IdsPlain, ExpiryPassed, CallsOk;
    var op, t := event.op, Apply(s, event.op, event.now).data;
    DomainView(s, op, event.now);
    forall id | id in t.files ensures Distinct(t.files[id]) {
      if id in s.data.exchanges {
        FilesView(s, op, event.now, id);
        if Moves(s, op) {
          CallDistinct(s.data, s.calls[op.call], id);
        }
      } else {
        EntryView(s, op, event.now, id);
        NewDistinct(op, t.exchanges[id], event.now);
      }
    }
  }

  lemma CallDistinct(d: State, c: Call, id: string)
    requires Distinct(FilesOf(d.files, id))
    ensures Distinct(FilesOf(CallFiles(d, c), id))
  {
    if c.Writing? && c.effects != [] && c.effects[0].Row? && c.id == id {
      AddRowDistinct(d.files, id, c.effects[0].target);
    }
  }

  lemma NewDistinct(op: Op, e: Exchange, now: int)
    requires op.Create? || op.Simulate?
    ensures Distinct(NewFiles(op, e, now))
  {
    hide StorageKeys.Key, OriginOf;
  }

  lemma {:induction false} RunKeepsDistinct(s: System, events: seq<Event>)
    requires Inv(s) && Runs(s, events) && RowsDistinct(s.data)
    ensures Inv(Run(s, events)) && RowsDistinct(Run(s, events).data)
    decreases |events|
  {
    hide Inv, Step, Legit, RowsDistinct;
    if events != [] {
      StepKeeps(s, events[0]);
      StepKeepsDistinct(s, events[0]);
      RunKeepsDistinct(Step(s, events[0]), events[1..]);
    }
  }

  /** Over every run an object has one file row at most, in all exchanges together. */
  lemma OneRowEach(events: seq<Event>, a: string, i: nat, b: string, j: nat)
    requires Runs(START, events)
    requires var files := Run(START, events).data.files;
             a in files && i < |files[a]| && b in files && j < |files[b]| && files[a][i] == files[b][j]
    ensures a == b && i == j
  {
    hide Run, Runs, Inv, Owned;
    StartKeeps();
    assert RowsDistinct(START.data);
    RunKeepsDistinct(START, events);
    var t := Run(START, events);
    FileOwned(t, a, t.data.files[a][i]);
    FileOwned(t, b, t.data.files[b][j]);
    OneOwner(t.data.files[a][i], a, b);
  }
}
