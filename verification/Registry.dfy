/** data-product-catalog-service/src/registration/registration.service.ts: one
    registration after another against the version history of each product. */
module Registry {
  import opened Options
  import opened VersionText
  import opened ContractValidator
  import Json
  import CanonicalJson

  datatype Level = NON_BREAKING | BREAKING | METADATA_ONLY

  /** A parsed contract document: its identity, the parts the checks read, and the
      whole of it as the data that is hashed and stored. */
  datatype Contract = Contract(
    productId: string,
    structure: Structure,
    domainId: string,
    ownerId: string,
    body: Json.Json)
  {
    function Version(): string { structure.version }
  }

  /** A hex digest. */
  type Digest = Json.Text

  datatype ContractRow = ContractRow(contractId: nat, contract: Contract, hash: Digest)

  /** A version and the contract registered with it. */
  datatype VersionRow = VersionRow(
    versionId: nat,
    version: string,
    level: Level,
    predecessor: Option<string>,
    registered: ContractRow)

  datatype EventType =
    | PRODUCT_CREATED
    | VERSION_CREATED
    | CONTRACT_REGISTERED
    | COMPATIBILITY_CHECK_PASSED
    | COMPATIBILITY_EVALUATED
    | CONTRACT_DUPLICATE_DETECTED

  datatype Event = Event(kind: EventType, productId: string, version: Option<string>)

  datatype Error =
    | CONTRACT_INVALID
    | DOMAIN_NOT_FOUND
    | OWNER_NOT_FOUND
    | VERSION_ALREADY_EXISTS
    | BREAKING_CHANGE_REQUIRES_MAJOR_VERSION
    | VERSION_BUMP_MISMATCH

  datatype Outcome =
    | Success(versionId: nat, contractId: nat, level: Level)
    | Duplicate(versionId: nat, contractId: nat, level: Level)
    | Rejected(error: Error)

  datatype State = State(
    products: map<string, seq<VersionRow>>,
    events: seq<Event>,
    nextId: nat)

  /** What stays fixed over a run: the hash, the compatibility engine, the known
      domains and owners. */
  datatype World = World(
    hash: Json.Text -> Digest,
    assess: (Option<VersionRow>, Contract) -> Level,
    domains: set<string>,
    owners: set<string>)

  // ------------------------------------------------------------ queries

  function History(s: State, productId: string): seq<VersionRow> {
    if productId in s.products then s.products[productId] else []
  }

  /** The row with exactly this version text. */
  function FindVersion(rows: seq<VersionRow>, version: string): Option<VersionRow> {
    if rows == [] then None
    else if rows[0].version == version then Some(rows[0])
    else FindVersion(rows[1..], version)
  }

  /** The row the database sorts first; of rows that tie, the oldest. */
  function FindLatest(rows: seq<VersionRow>): (r: VersionRow)
    requires rows != []
    ensures r in rows
  {
    if |rows| == 1 then rows[0]
    else
      var rest := FindLatest(rows[1..]);
      if Ahead(KeyOf(rest.version), KeyOf(rows[0].version)) then rest else rows[0]
  }

  function Previous(rows: seq<VersionRow>): Option<VersionRow> {
    if rows == [] then None else Some(FindLatest(rows))
  }

  /** The version rules against the previous version. */
  function Gate(previous: Option<VersionRow>, next: SemVer, level: Level): Option<Error> {
    if previous.None? || ParseSemVer(previous.value.version).None? then None
    else
      var prev := ParseSemVer(previous.value.version).value;
      if !IsAnyBump(prev, next) then Some(VERSION_ALREADY_EXISTS)
      else if level == BREAKING && !IsMajorBump(prev, next) then Some(BREAKING_CHANGE_REQUIRES_MAJOR_VERSION)
      else if level == NON_BREAKING && !IsMinorOrHigherBump(prev, next) then Some(VERSION_BUMP_MISMATCH)
      else None
  }

  // ------------------------------------------------------------ one step

  function NewEvents(c: Contract, isNew: bool): seq<Event> {
    (if isNew then [Event(PRODUCT_CREATED, c.productId, None)] else [])
    + [Event(VERSION_CREATED, c.productId, Some(c.Version())),
       Event(CONTRACT_REGISTERED, c.productId, Some(c.Version())),
       Event(COMPATIBILITY_CHECK_PASSED, c.productId, Some(c.Version())),
       Event(COMPATIBILITY_EVALUATED, c.productId, Some(c.Version()))]
  }

  /** Nothing, when the request did not parse as a contract document. */
  function Register(w: World, s: State, request: Option<Contract>): (State, Outcome) {
    if request.None? || !ValidStructure(request.value.structure) then (s, Rejected(CONTRACT_INVALID))
    else
      var c := request.value;
      if c.domainId !in w.domains then (s, Rejected(DOMAIN_NOT_FOUND))
      else if c.ownerId !in w.owners then (s, Rejected(OWNER_NOT_FOUND))
      else
        var hash := CanonicalJson.ComputeContractHash(c.body, w.hash);
        var rows := History(s, c.productId);
        match FindVersion(rows, c.Version())
        case Some(row) =>
          if row.registered.hash == hash
          then (s.(events := s.events + [Event(CONTRACT_DUPLICATE_DETECTED, c.productId, Some(c.Version()))]),
                Duplicate(row.versionId, row.registered.contractId,
                          if row.level == BREAKING then BREAKING else NON_BREAKING))
          else (s, Rejected(VERSION_ALREADY_EXISTS))
        case None =>
          var previous := Previous(rows);
          var level := w.assess(previous, c);
          match Gate(previous, ParseSemVer(c.Version()).value, level)
          case Some(error) => (s, Rejected(error))
          case None => (Append(s, c, level, previous, hash), Success(s.nextId, s.nextId + 1, level))
  }

  function Append(s: State, c: Contract, level: Level, previous: Option<VersionRow>, hash: Digest): State {
    State(s.products[c.productId := History(s, c.productId) + [NewRow(s, c, level, previous, hash)]],
          s.events + NewEvents(c, c.productId !in s.products),
          s.nextId + 2)
  }

  function NewRow(s: State, c: Contract, level: Level, previous: Option<VersionRow>, hash: Digest): VersionRow {
    VersionRow(s.nextId, c.Version(), level,
               if previous.None? then None else Some(previous.value.version),
               ContractRow(s.nextId + 1, c, hash))
  }

  lemma ValidVersion(doc: Structure)
    requires ValidStructure(doc)
    ensures ParseSemVer(doc.version).Some?
  {
  }

  /** The service: rows appended one after another inside the transaction. */
  class Service {
    const world: World
    var products: map<string, seq<VersionRow>>
    var events: seq<Event>
    var nextId: nat

    constructor (world: World)
      ensures this.world == world && Current() == State(map[], [], 0)
    {
      this.world := world;
      products, events, nextId := map[], [], 0;
    }

    function Current(): State
      reads this
    {
      State(products, events, nextId)
    }

    method RecordEvent(kind: EventType, productId: string, version: Option<string>)
      modifies this`events
      ensures events == old(events) + [Event(kind, productId, version)]
    {
      events := events + [Event(kind, productId, version)];
    }

    method RegisterContract(request: Option<Contract>) returns (r: Outcome)
      modifies this
      ensures (Current(), r) == Register(world, old(Current()), request)
    {
      hide ValidStructure, FindVersion, Gate, ParseSemVer, Previous, Append, CanonicalJson.ComputeContractHash;
      if request.None? {
        return Rejected(CONTRACT_INVALID);
      }
      var c := request.value;
      var valid := ValidateContractStructure(c.structure);
      if !valid {
        return Rejected(CONTRACT_INVALID);
      }
      ValidVersion(c.structure);
      if c.domainId !in world.domains {
        return Rejected(DOMAIN_NOT_FOUND);
      }
      if c.ownerId !in world.owners {
        return Rejected(OWNER_NOT_FOUND);
      }
      var contractHash := CanonicalJson.ComputeContractHash(c.body, world.hash);
      var existingProduct := c.productId in products;
      var rows := if existingProduct then products[c.productId] else [];
      var existing := FindVersion(rows, c.Version());
      if existing.Some? {
        if existing.value.registered.hash == contractHash {
          RecordEvent(CONTRACT_DUPLICATE_DETECTED, c.productId, Some(c.Version()));
          return Duplicate(existing.value.versionId, existing.value.registered.contractId,
                           if existing.value.level == BREAKING then BREAKING else NON_BREAKING);
        }
        return Rejected(VERSION_ALREADY_EXISTS);
      }
      var previous := Previous(rows);
      var level := world.assess(previous, c);
      var refused := Gate(previous, ParseSemVer(c.Version()).value, level);
      if refused.Some? {
        return Rejected(refused.value);
      }
      var versionId, contractId := InsertVersion(c, level, previous, contractHash);
      return Success(versionId, contractId, level);
    }

    /** The transaction: product if new, version, contract, and an event for each. */
    method InsertVersion(c: Contract, level: Level, previous: Option<VersionRow>, contractHash: Digest)
      returns (versionId: nat, contractId: nat)
      modifies this
      ensures Current() == Append(old(Current()), c, level, previous, contractHash)
      ensures versionId == old(nextId) && contractId == old(nextId) + 1
    {
      var existingProduct := c.productId in products;
      if !existingProduct {
        products := products[c.productId := []];
        RecordEvent(PRODUCT_CREATED, c.productId, None);
      }
      versionId, contractId := nextId, nextId + 1;
      var row := VersionRow(versionId, c.Version(), level,
                            if previous.None? then None else Some(previous.value.version),
                            ContractRow(contractId, c, contractHash));
      products := products[c.productId := products[c.productId] + [row]];
      nextId := nextId + 2;
      RecordEvent(VERSION_CREATED, c.productId, Some(c.Version()));
      RecordEvent(CONTRACT_REGISTERED, c.productId, Some(c.Version()));
      RecordEvent(COMPATIBILITY_CHECK_PASSED, c.productId, Some(c.Version()));
      RecordEvent(COMPATIBILITY_EVALUATED, c.productId, Some(c.Version()));
      assert events == old(events) + NewEvents(c, !existingProduct);
      assert products == Append(old(Current()), c, level, previous, contractHash).products;
    }
  }

  // ------------------------------------------------------------ runs

  function Run(w: World, s: State, requests: seq<Option<Contract>>): State
    decreases |requests|
  {
    if requests == [] then s
    else Run(w, Register(w, s, requests[0]).0, requests[1..])
  }

  /** Every stored row is a valid contract under its own version and hash, and no
      version text is stored twice. */
  ghost predicate Sound(w: World, s: State) {
    && (forall p, i :: p in s.products && 0 <= i < |s.products[p]| ==> SoundRow(w, p, s.products[p][i]))
    && (forall p :: p in s.products ==> UniqueVersions(s.products[p]))
  }

  predicate UniqueVersions(rows: seq<VersionRow>) {
    forall i, j :: 0 <= i < j < |rows| ==> rows[i].version != rows[j].version
  }

  /** Requests as JavaScript can hold them. */
  predicate IsData(request: Option<Contract>) {
    request.Some? ==> CanonicalJson.Data(request.value.body)
  }

  ghost predicate SoundRow(w: World, p: string, row: VersionRow) {
    var c := row.registered.contract;
    && ValidStructure(c.structure) && CanonicalJson.Data(c.body)
    && c.productId == p && c.Version() == row.version
    && c.domainId in w.domains && c.ownerId in w.owners
    && row.registered.hash == CanonicalJson.ComputeContractHash(c.body, w.hash)
  }

  /** Rows and events are only ever added. */
  ghost predicate Extends(s: State, t: State) {
    && s.events <= t.events
    && (forall p :: p in s.products ==> p in t.products && s.products[p] <= t.products[p])
  }

  lemma {:induction false} FindVersionIn(rows: seq<VersionRow>, version: string)
    ensures match FindVersion(rows, version)
            case Some(row) => row in rows && row.version == version
            case None => forall row :: row in rows ==> row.version != version
  {
    if rows != [] && rows[0].version != version {
      assert rows == [rows[0]] + rows[1..];
      FindVersionIn(rows[1..], version);
    }
  }

  lemma AppendKeeps(w: World, s: State, c: Contract, level: Level, previous: Option<VersionRow>, hash: Digest)
    requires Sound(w, s) && SoundRow(w, c.productId, NewRow(s, c, level, previous, hash))
    requires forall row :: row in History(s, c.productId) ==> row.version != c.Version()
    ensures Sound(w, Append(s, c, level, previous, hash)) && Extends(s, Append(s, c, level, previous, hash))
  {
    hide SoundRow, NewEvents;
    var t := Append(s, c, level, previous, hash);
    var row := NewRow(s, c, level, previous, hash);
    assert UniqueVersions(t.products[c.productId]) by {
      assert forall row' :: row' in History(s, c.productId) ==> row'.version != row.version;
    }
    forall p, i | p in t.products && 0 <= i < |t.products[p]| ensures SoundRow(w, p, t.products[p][i]) {
      if p == c.productId && i == |History(s, p)| {
        assert t.products[p][i] == row;
      } else {
        assert p in s.products && t.products[p][i] == s.products[p][i];
      }
    }
  }

  lemma StepKeeps(w: World, s: State, request: Option<Contract>)
    requires Sound(w, s) && IsData(request)
    ensures Sound(w, Register(w, s, request).0)
    ensures Extends(s, Register(w, s, request).0)
  {
    hide ValidStructure, Sound, Append, FindVersion, Gate, ParseSemVer, Previous;
    if Register(w, s, request).1.Success? {
      var c := request.value;
      var hash := CanonicalJson.ComputeContractHash(c.body, w.hash);
      var previous := Previous(History(s, c.productId));
      FindVersionIn(History(s, c.productId), c.Version());
      AppendKeeps(w, s, c, w.assess(previous, c), previous, hash);
    } else {
      SameRows(w, s, Register(w, s, request).0);
    }
  }

  lemma SameRows(w: World, s: State, t: State)
    requires Sound(w, s) && t.products == s.products && s.events <= t.events
    ensures Sound(w, t) && Extends(s, t)
  {
  }

  /** Over every run a registered version keeps its content, ids and hash for good,
      and every stored contract is valid. */
  lemma {:induction false} RunKeeps(w: World, s: State, requests: seq<Option<Contract>>)
    requires Sound(w, s) && forall r :: r in requests ==> IsData(r)
    ensures Sound(w, Run(w, s, requests)) && Extends(s, Run(w, s, requests))
    decreases |requests|
  {
    hide Register, Sound, IsData;
    if requests != [] {
      assert requests[0] in requests;
      StepKeeps(w, s, requests[0]);
      RunKeeps(w, Register(w, s, requests[0]).0, requests[1..]);
    }
  }

  /** What a request under a taken version text comes to. */
  ghost predicate Replay(s: State, c: Contract, row: VersionRow, t: State, r: Outcome) {
    if CanonicalJson.Strip(Json.Denote(c.body)) == CanonicalJson.Strip(Json.Denote(row.registered.contract.body))
    then r.Duplicate? && r.versionId == row.versionId && r.contractId == row.registered.contractId
         && (r.level == BREAKING <==> row.level == BREAKING) && r.level in {BREAKING, NON_BREAKING}
         && t == s.(events := s.events + [Event(CONTRACT_DUPLICATE_DETECTED, c.productId, Some(c.Version()))])
    else r == Rejected(VERSION_ALREADY_EXISTS) && t == s
  }

  /** Under a version text that is taken, an equivalent contract is answered with the
      original ids, as BREAKING or not, and adds one event; any other contract is refused and adds nothing. */
  lemma ReplayIsDuplicate(w: World, s: State, c: Contract, i: nat)
    requires Sound(w, s) && CanonicalJson.CollisionFree(w.hash) && CanonicalJson.Data(c.body)
    requires ValidStructure(c.structure) && c.domainId in w.domains && c.ownerId in w.owners
    requires i < |History(s, c.productId)| && History(s, c.productId)[i].version == c.Version()
    ensures Replay(s, c, History(s, c.productId)[i], Register(w, s, Some(c)).0, Register(w, s, Some(c)).1)
  {
    hide ValidStructure, CanonicalJson.Data, CanonicalJson.ComputeContractHash, CanonicalJson.CollisionFree,
         FindVersion, Gate;
    var rows := History(s, c.productId);
    var row := rows[i];
    assert SoundRow(w, c.productId, row);
    FindVersionIn(rows, c.Version());
    assert row in rows;
    var found := FindVersion(rows, c.Version());
    assert found.Some?;
    var k :| 0 <= k < |rows| && rows[k] == found.value;
    assert UniqueVersions(rows);
    assert k == i;
    CanonicalJson.HashIdentifies(c.body, row.registered.contract.body, w.hash);
  }

  /** A contract once registered is the one its version text stands for after any
      number of later requests. */
  lemma RegisteredForGood(w: World, s: State, c: Contract, later: seq<Option<Contract>>, again: Contract)
    requires Sound(w, s) && CanonicalJson.CollisionFree(w.hash)
    requires CanonicalJson.Data(c.body) && Register(w, s, Some(c)).1.Success?
    requires forall r :: r in later ==> IsData(r)
    requires CanonicalJson.Data(again.body)
    requires ValidStructure(again.structure) && again.domainId in w.domains && again.ownerId in w.owners
    requires again.productId == c.productId && again.Version() == c.Version()
    ensures var t := Run(w, Register(w, s, Some(c)).0, later);
            var (u, r) := Register(w, t, Some(again));
            if CanonicalJson.Strip(Json.Denote(again.body)) == CanonicalJson.Strip(Json.Denote(c.body))
            then r.Duplicate? && r.versionId == Register(w, s, Some(c)).1.versionId
                 && r.contractId == Register(w, s, Some(c)).1.contractId && u.products == t.products
            else r == Rejected(VERSION_ALREADY_EXISTS) && u == t
  {
    StepKeeps(w, s, Some(c));
    var first := Register(w, s, Some(c)).0;
    var i := |History(s, c.productId)|;
    assert History(first, c.productId)[i].registered.contract == c by { NewestRow(w, s, c); }
    NewestRow(w, s, c);
    hide Register, Sound, ValidStructure, CanonicalJson.Data, IsData;
    RunKeeps(w, first, later);
    var t := Run(w, first, later);
    assert History(t, c.productId)[i] == History(first, c.productId)[i];
    ReplayIsDuplicate(w, t, again, i);
  }

  lemma NewestRow(w: World, s: State, c: Contract)
    requires Register(w, s, Some(c)).1.Success?
    ensures var (t, r) := Register(w, s, Some(c));
            var i := |History(s, c.productId)|;
            && c.productId in t.products && |History(t, c.productId)| == i + 1
            && var row := History(t, c.productId)[i];
               row.registered.contract == c && row.version == c.Version()
               && row.versionId == r.versionId && row.registered.contractId == r.contractId
  {
    hide ValidStructure, FindVersion, Gate, ParseSemVer, Previous;
  }

  // ------------------------------------------------------------ order of versions

  function SemOf(row: VersionRow): SemVer {
    var v := ParseSemVer(row.version);
    if v.Some? then v.value else SemVer(0, 0, 0)
  }

  predicate Increasing(rows: seq<VersionRow>) {
    forall i, j :: 0 <= i < j < |rows| ==> Less(SemOf(rows[i]), SemOf(rows[j]))
  }

  /** A breaking version opens a major line of its own at x.0.0; an additive one
      raises at least the minor number. */
  predicate BumpsMatch(rows: seq<VersionRow>) {
    forall i, j :: 0 <= i < j < |rows| ==>
      && (rows[j].level == BREAKING ==> IsMajorBump(SemOf(rows[i]), SemOf(rows[j])))
      && (rows[j].level == NON_BREAKING ==> IsMinorOrHigherBump(SemOf(rows[i]), SemOf(rows[j])))
  }

  predicate StartsBlank(version: string) { version != [] && IsSpace(version[0]) }

  /** Rows the service can have stored. */
  predicate Parsed(rows: seq<VersionRow>) {
    forall i :: 0 <= i < |rows| ==> ParseSemVer(rows[i].version).Some?
  }

  /** Among increasing versions without leading blanks the database's first is the last. */
  lemma {:induction false} LatestIsLast(rows: seq<VersionRow>)
    requires rows != [] && Parsed(rows) && Increasing(rows)
    requires forall i :: 0 <= i < |rows| - 1 ==> !StartsBlank(rows[i].version)
    ensures FindLatest(rows) == rows[|rows| - 1]
  {
    if |rows| > 1 {
      LatestIsLast(rows[1..]);
      var last := rows[|rows| - 1];
      KeyOfParsed(rows[0].version);
      KeyOfParsed(last.version);
    }
  }

  lemma BlankKey(version: string)
    requires ParseSemVer(version).Some?
    ensures StartsBlank(version) <==> KeyOf(version).major.None?
  {
    KeyOfParsed(version);
  }

  /** A row with a leading blank hides all the others. */
  lemma {:induction false} BlankIsLatest(rows: seq<VersionRow>, i: nat)
    requires Parsed(rows) && i < |rows| && StartsBlank(rows[i].version)
    ensures exists k :: 0 <= k <= i && FindLatest(rows) == rows[k] && StartsBlank(rows[k].version)
  {
    hide ParseSemVer, KeyOf, StartsBlank;
    BlankKey(rows[0].version);
    if |rows| > 1 {
      var rest := FindLatest(rows[1..]);
      var k :| 0 <= k < |rows[1..]| && rows[1..][k] == rest;
      BlankKey(rows[1 + k].version);
      if i > 0 {
        BlankIsLatest(rows[1..], i - 1);
        var q :| 0 <= q <= i - 1 && rest == rows[1..][q] && StartsBlank(rows[1..][q].version);
        assert rows[1 + q] == rest;
      }
    }
  }

  lemma GateFacts(previous: VersionRow, row: VersionRow)
    requires ParseSemVer(previous.version).Some?
    ensures var prev, next := SemOf(previous), SemOf(row);
            Gate(Some(previous), next, row.level).None? <==>
              && Less(prev, next)
              && (row.level == BREAKING ==> IsMajorBump(prev, next))
              && (row.level == NON_BREAKING ==> IsMinorOrHigherBump(prev, next))
  {
  }

  /** The gate lets a version onto an increasing history whose last row the database
      finds, and the history stays increasing with bumps that match. */
  lemma GateKeepsOrder(rows: seq<VersionRow>, row: VersionRow)
    requires Parsed(rows) && Increasing(rows) && BumpsMatch(rows) && ParseSemVer(row.version).Some?
    requires rows != [] ==> FindLatest(rows) == rows[|rows| - 1]
    requires Gate(Previous(rows), SemOf(row), row.level).None?
    ensures Increasing(rows + [row]) && BumpsMatch(rows + [row])
  {
    hide ParseSemVer, FindLatest, SemOf, Gate;
    if rows != [] {
      var last := rows[|rows| - 1];
      assert ParseSemVer(last.version).Some?;
      GateFacts(last, row);
      forall i | 0 <= i < |rows| ensures Fits(rows[i], row) {
        if i < |rows| - 1 {
          PairInOrder(rows, i, |rows| - 1);
        }
      }
    }
    AppendFits(rows, row);
  }

  /** The later of two rows is greater by a bump that matches its level. */
  predicate Fits(a: VersionRow, b: VersionRow) {
    && Less(SemOf(a), SemOf(b))
    && (b.level == BREAKING ==> IsMajorBump(SemOf(a), SemOf(b)))
    && (b.level == NON_BREAKING ==> IsMinorOrHigherBump(SemOf(a), SemOf(b)))
  }

  lemma AppendFits(rows: seq<VersionRow>, row: VersionRow)
    requires Increasing(rows) && BumpsMatch(rows) && forall i :: 0 <= i < |rows| ==> Fits(rows[i], row)
    ensures Increasing(rows + [row]) && BumpsMatch(rows + [row])
  {
    hide SemOf;
    var all := rows + [row];
    forall i, j | 0 <= i < j < |all| ensures Fits(all[i], all[j]) {
      if j < |rows| {
        assert all[i] == rows[i] && all[j] == rows[j];
        PairInOrder(rows, i, j);
      }
    }
  }

  ghost predicate GoodOrder(s: State) {
    forall p :: p in s.products ==>
      Parsed(s.products[p]) && Increasing(s.products[p]) && BumpsMatch(s.products[p])
      && forall i :: 0 <= i < |s.products[p]| ==> !StartsBlank(s.products[p][i].version)
  }

  lemma StepKeepsOrder(w: World, s: State, request: Option<Contract>)
    requires GoodOrder(s) && (request.Some? ==> !StartsBlank(request.value.Version()))
    ensures GoodOrder(Register(w, s, request).0)
  {
    hide ParseSemVer, ValidStructure, FindVersion, Gate, StartsBlank, Increasing, BumpsMatch;
    if Register(w, s, request).1.Success? {
      var c := request.value;
      ValidVersion(c.structure);
      var rows := History(s, c.productId);
      var hash := CanonicalJson.ComputeContractHash(c.body, w.hash);
      var level := w.assess(Previous(rows), c);
      var row := NewRow(s, c, level, Previous(rows), hash);
      EmptyOrder();
      if rows != [] {
        LatestIsLast(rows);
      }
      GateKeepsOrder(rows, row);
    }
  }

  lemma EmptyOrder()
    ensures Increasing([]) && BumpsMatch([]) && Parsed([])
  {
  }

  /** Over every run whose version texts start without a blank, each product's versions
      strictly increase in the order registered, so the newest is the greatest and none
      repeats, and every breaking version opens a major line above all before it. */
  lemma {:induction false} RunKeepsOrder(w: World, s: State, requests: seq<Option<Contract>>)
    requires GoodOrder(s)
    requires forall r :: r in requests && r.Some? ==> !StartsBlank(r.value.Version())
    ensures GoodOrder(Run(w, s, requests))
    decreases |requests|
  {
    hide Register, GoodOrder, StartsBlank;
    if requests != [] {
      assert requests[0] in requests;
      StepKeepsOrder(w, s, requests[0]);
      RunKeepsOrder(w, Register(w, s, requests[0]).0, requests[1..]);
    }
  }

  // ------------------------------------------------- the blank that breaks it

  /** Some version text, new to the history, passes the gate without being greater
      than all before it. */
  ghost predicate OrderCanBreak(rows: seq<VersionRow>) {
    exists row :: BreaksOrder(rows, row)
  }

  ghost predicate BreaksOrder(rows: seq<VersionRow>, row: VersionRow) {
    && ParseSemVer(row.version).Some? && FindVersion(rows, row.version).None?
    && Gate(Previous(rows), SemOf(row), row.level).None?
    && !Increasing(rows + [row])
  }

  lemma AgainNotIncreasing(rows: seq<VersionRow>, row: VersionRow)
    requires rows != [] && SemOf(row) == SemOf(rows[|rows| - 1])
    ensures !Increasing(rows + [row])
  {
    hide ParseSemVer, SemOf;
    var all := rows + [row];
    assert all[|rows| - 1] == rows[|rows| - 1] && all[|rows|] == row;
    assert !Less(SemOf(all[|rows| - 1]), SemOf(all[|rows|]));
  }

  lemma AgainIsFresh(rows: seq<VersionRow>, row: VersionRow)
    requires rows != [] && Increasing(rows)
    requires SemOf(row) == SemOf(rows[|rows| - 1]) && row.version != rows[|rows| - 1].version
    ensures FindVersion(rows, row.version).None?
  {
    hide ParseSemVer;
    FindVersionIn(rows, row.version);
    forall j | 0 <= j < |rows| ensures rows[j].version != row.version {
      assert j < |rows| - 1 ==> Less(SemOf(rows[j]), SemOf(rows[|rows| - 1]));
    }
  }

  /** The newest version again with a space after it: new text, same numbers, and
      compared with the blank one only. */
  lemma BlankBreaks(rows: seq<VersionRow>, i: nat)
    requires Parsed(rows) && Increasing(rows) && i < |rows| - 1 && StartsBlank(rows[i].version)
    ensures OrderCanBreak(rows)
  {
    BlankIsLatest(rows, i);
    hide ParseSemVer, FindLatest, StartsBlank, FindVersion, Increasing, Parsed, SemOf, Gate;
    var k :| 0 <= k <= i && FindLatest(rows) == rows[k];
    var last := rows[|rows| - 1];
    var row := Again(rows);
    AgainSame(rows);
    AgainIsFresh(rows, row);
    AgainNotIncreasing(rows, row);
    AgainPasses(rows, k);
    AgainBreaks(rows, row);
  }

  function Again(rows: seq<VersionRow>): VersionRow
    requires rows != []
  {
    var last := rows[|rows| - 1];
    VersionRow(0, last.version + [' '], METADATA_ONLY, None, last.registered)
  }

  lemma AgainSame(rows: seq<VersionRow>)
    requires rows != [] && Parsed(rows)
    ensures SemOf(Again(rows)) == SemOf(rows[|rows| - 1]) && ParseSemVer(Again(rows).version).Some?
    ensures Again(rows).version != rows[|rows| - 1].version
  {
    hide ParseSemVer;
    assert ParseSemVer(rows[|rows| - 1].version).Some?;
    TrailingSpace(rows[|rows| - 1].version);
  }

  lemma AgainPasses(rows: seq<VersionRow>, k: int)
    requires Parsed(rows) && Increasing(rows) && 0 <= k < |rows| - 1 && FindLatest(rows) == rows[k]
    ensures Gate(Previous(rows), SemOf(Again(rows)), METADATA_ONLY).None?
  {
    hide ParseSemVer, FindLatest, SemOf, Gate, Increasing;
    AgainSame(rows);
    PairInOrder(rows, k, |rows| - 1);
    assert ParseSemVer(rows[k].version).Some?;
    GateFacts(rows[k], Again(rows));
  }

  lemma AgainBreaks(rows: seq<VersionRow>, row: VersionRow)
    requires BreaksOrder(rows, row)
    ensures OrderCanBreak(rows)
  {
  }

  lemma PairInOrder(rows: seq<VersionRow>, i: int, j: int)
    requires Increasing(rows) && 0 <= i < j < |rows|
    ensures Less(SemOf(rows[i]), SemOf(rows[j]))
  {
  }

  /** An increasing history can be broken by the next registration exactly when some
      version before the newest starts with a blank. */
  lemma OrderBreaksIffBlank(rows: seq<VersionRow>)
    requires rows != [] && Parsed(rows) && Increasing(rows) && BumpsMatch(rows)
    ensures OrderCanBreak(rows) <==> exists i :: 0 <= i < |rows| - 1 && StartsBlank(rows[i].version)
  {
    if i :| 0 <= i < |rows| - 1 && StartsBlank(rows[i].version) {
      BlankBreaks(rows, i);
    } else {
      LatestIsLast(rows);
      forall row ensures !BreaksOrder(rows, row) {
        if Gate(Previous(rows), SemOf(row), row.level).None? && ParseSemVer(row.version).Some? {
          GateKeepsOrder(rows, row);
        }
      }
    }
  }

  // ------------------------------------------------------------ the break, from nothing

  function At(c: Contract, version: string): Contract { c.(structure := c.structure.(version := version)) }

  /** One digit, a dot and a nought. */
  lemma PlainParts(v: string)
    requires |v| == 3 && IsDigit(v[0]) && v[1..] == ".0"
    ensures Leading(v) == Some((v[0] as int - '0' as int, ".0")) && Dotted(".0") == Some((0, ""))
  {
    assert ".0"[1..] == "0" && "0"[1..] == "" && "0"[..1] == "0" && !IsDigit('.');
    assert DigitRun(".0") == 0 && DigitRun("") == 0;
    assert DigitRun("0") == 1 && DigitRun(v) == 1;
    assert v[..1] == [v[0]] && [v[0]][..0] == [] && "0"[..0] == "";
    assert Number([]) == 0 && Number([v[0]]) == v[0] as int - '0' as int && Number("0") == 0;
    assert Leading("0") == Some((0, ""));
  }

  lemma PlainTrim(v: string)
    requires |v| == 3 && IsDigit(v[0]) && v[1..] == ".0"
    ensures TrimStart(v) == v && Trim(v) == v
  {
    assert v[2] == v[1..][1] == '0';
  }

  lemma PlainVersions()
    ensures ParseSemVer("1.0") == Some(SemVer(1, 0, 0)) && ParseSemVer("2.0") == Some(SemVer(2, 0, 0))
    ensures TrimStart(" 1.0") == "1.0" && Trim("1.0") == "1.0" && Trim("2.0") == "2.0"
  {
    assert "1.0"[1..] == ".0" && "2.0"[1..] == ".0" && " 1.0"[1..] == "1.0";
    PlainParts("1.0");
    PlainParts("2.0");
    PlainTrim("1.0");
    PlainTrim("2.0");
    assert TrimStart(" 1.0") == TrimStart("1.0");
    hide Trim, Leading, Dotted;
  }

  lemma SpacedVersions()
    ensures ParseSemVer(" 1.0") == Some(SemVer(1, 0, 0)) && ParseSemVer("2.0 ") == Some(SemVer(2, 0, 0))
    ensures StartsBlank(" 1.0") && !StartsBlank("2.0") && KeyOf(" 1.0").major.None?
  {
    PlainVersions();
    assert Trim(" 1.0") == Trim("1.0");
    TrailingSpace("2.0");
    assert "2.0" + [' '] == "2.0 ";
    assert DigitRun(" 1.0") == 0;
  }

  /** What no rule rejects at any level is appended. */
  lemma Appends(w: World, s: State, c: Contract)
    requires ValidStructure(c.structure) && c.domainId in w.domains && c.ownerId in w.owners
    requires FindVersion(History(s, c.productId), c.Version()).None?
    requires forall level :: Gate(Previous(History(s, c.productId)), ParseSemVer(c.Version()).value, level).None?
    ensures var rows, after := History(s, c.productId), History(Register(w, s, Some(c)).0, c.productId);
            |after| == |rows| + 1 && after[..|rows|] == rows && after[|rows|].version == c.Version()
  {
    hide ParseSemVer, Gate, Previous, CanonicalJson.ComputeContractHash;
  }

  lemma BlankComesFirst(rows: seq<VersionRow>)
    requires |rows| == 2 && rows[0].version == " 1.0"
    ensures Previous(rows) == Some(rows[0])
  {
    SpacedVersions();
    hide KeyOf;
    assert rows[1..] == [rows[1]];
    assert FindLatest(rows[1..]) == rows[1];
  }

  lemma FirstVersions(rows: seq<VersionRow>)
    requires |rows| == 1 && rows[0].version == " 1.0"
    ensures Previous(rows) == Some(rows[0]) && FindVersion(rows, "2.0").None?
    ensures forall level :: Gate(Previous(rows), SemVer(2, 0, 0), level).None?
  {
    SpacedVersions();
    hide ParseSemVer;
    assert rows[1..] == [];
  }

  lemma LastVersions(rows: seq<VersionRow>)
    requires |rows| == 2 && rows[0].version == " 1.0" && rows[1].version == "2.0"
    ensures FindVersion(rows, "2.0 ").None?
    ensures forall level :: Gate(Previous(rows), SemVer(2, 0, 0), level).None?
  {
    SpacedVersions();
    BlankComesFirst(rows);
    hide ParseSemVer, Previous;
    assert rows[1..] == [rows[1]] && rows[1..][1..] == [];
    assert FindVersion(rows[1..], "2.0 ").None?;
  }

  /** Any valid contract, whatever the compatibility engine says: registered as " 1.0", as "2.0"
      and as "2.0 " it is accepted three times, and the third version is not above the second. */
  lemma BlankBreaksFromNothing(w: World, c: Contract)
    requires ValidStructure(c.structure) && c.domainId in w.domains && c.ownerId in w.owners
    ensures var requests := [Some(At(c, " 1.0")), Some(At(c, "2.0")), Some(At(c, "2.0 "))];
            var rows := History(Run(w, State(map[], [], 0), requests), c.productId);
            && |rows| == 3 && rows[0].version == " 1.0" && rows[1].version == "2.0" && rows[2].version == "2.0 "
            && Increasing(rows[..2]) && !Increasing(rows)
  {
    PlainVersions();
    SpacedVersions();
    var a, b, d := At(c, " 1.0"), At(c, "2.0"), At(c, "2.0 ");
    hide ParseSemVer, ValidStructure, KeyOf, TrimStart, TrimEnd;
    AtIsValid(c, " 1.0");
    AtIsValid(c, "2.0");
    AtIsValid(c, "2.0 ");
    hide Register, FindVersion, FindLatest;
    var s0 := State(map[], [], 0);
    assert FindVersion(History(s0, c.productId), " 1.0").None? by { NoVersion(" 1.0"); }
    Appends(w, s0, a);
    var s1 := Register(w, s0, Some(a)).0;
    FirstVersions(History(s1, c.productId));
    Appends(w, s1, b);
    var s2 := Register(w, s1, Some(b)).0;
    var two := History(s2, c.productId);
    assert two[0] == two[..1][0];
    LastVersions(two);
    Appends(w, s2, d);
    var s3 := Register(w, s2, Some(d)).0;
    var rows := History(s3, c.productId);
    assert rows[0] == rows[..2][0] && rows[1] == rows[..2][1];
    assert !Less(SemOf(rows[1]), SemOf(rows[2]));
    RunThree(w, s0, Some(a), Some(b), Some(d));
  }

  lemma AtIsValid(c: Contract, version: string)
    requires ValidStructure(c.structure) && ParseSemVer(version).Some?
    ensures ValidStructure(At(c, version).structure)
  {
    hide ParseSemVer;
  }

  lemma NoVersion(version: string)
    ensures FindVersion([], version).None?
  {
  }

  lemma RunThree(w: World, s: State, a: Option<Contract>, b: Option<Contract>, c: Option<Contract>)
    ensures Run(w, s, [a, b, c]) == Register(w, Register(w, Register(w, s, a).0, b).0, c).0
  {
    hide Register;
    assert [a, b, c][1..] == [b, c] && [b, c][1..] == [c] && [c][1..] == [];
    var t := Register(w, s, a).0;
    assert Run(w, s, [a, b, c]) == Run(w, t, [b, c]) == Run(w, Register(w, t, b).0, [c]);
    assert Run(w, Register(w, Register(w, t, b).0, c).0, []) == Register(w, Register(w, t, b).0, c).0;
  }

  // ------------------------------------------------------------ what a registration does, spelled out

  /** The row the latest-version query finds; nothing sorts before it. */
  lemma {:induction false} FindLatestIs(rows: seq<VersionRow>)
    requires rows != []
    ensures forall row :: row in rows ==> !Ahead(KeyOf(row.version), KeyOf(FindLatest(rows).version))
  {
    hide KeyOf;
    if |rows| > 1 {
      FindLatestIs(rows[1..]);
      assert rows == [rows[0]] + rows[1..];
    }
  }

  /** Which bump the numbers make: a major line of its own, a higher minor number, any step up. */
  predicate MajorUp(p: SemVer, n: SemVer) { p.major < n.major && n.minor == 0 && n.patch == 0 }

  predicate MinorUp(p: SemVer, n: SemVer) { p.major < n.major || (p.major == n.major && p.minor < n.minor) }

  predicate Up(p: SemVer, n: SemVer) {
    MinorUp(p, n) || (p.major == n.major && p.minor == n.minor && p.patch < n.patch)
  }

  /** The version rules, error by error. */
  lemma GateSays(row: VersionRow, n: SemVer, level: Level)
    ensures ParseSemVer(row.version).None? ==> Gate(Some(row), n, level).None?
    ensures ParseSemVer(row.version).Some? ==>
              var p, e := ParseSemVer(row.version).value, Gate(Some(row), n, level);
              && (e == Some(VERSION_ALREADY_EXISTS) <==> !Up(p, n))
              && (e == Some(BREAKING_CHANGE_REQUIRES_MAJOR_VERSION) <==>
                    Up(p, n) && level == BREAKING && !MajorUp(p, n))
              && (e == Some(VERSION_BUMP_MISMATCH) <==> Up(p, n) && level == NON_BREAKING && !MinorUp(p, n))
              && (e.None? <==> Up(p, n) && (level == BREAKING ==> MajorUp(p, n))
                               && (level == NON_BREAKING ==> MinorUp(p, n)))
  {
    hide ParseSemVer;
  }

  /** The errors before the version rules, in the order they are found; none changes anything. */
  lemma RejectsFirst(w: World, s: State, request: Option<Contract>)
    ensures var (t, outcome) := Register(w, s, request);
            && (outcome.Rejected? ==> t == s)
            && (outcome == Rejected(CONTRACT_INVALID) <==> request.None? || !ValidStructure(request.value.structure))
            && (request.Some? && ValidStructure(request.value.structure) ==>
                  var c := request.value;
                  && (outcome == Rejected(DOMAIN_NOT_FOUND) <==> c.domainId !in w.domains)
                  && (outcome == Rejected(OWNER_NOT_FOUND) <==> c.domainId in w.domains && c.ownerId !in w.owners))
  {
    hide ValidStructure, ParseSemVer, FindVersion, FindLatest, CanonicalJson.ComputeContractHash;
  }

  /** The version rules decide about a version text that is new to the product: against the
      version the latest-version query finds and the level the engine gives. */
  lemma NewVersionIs(w: World, s: State, c: Contract)
    requires ValidStructure(c.structure) && c.domainId in w.domains && c.ownerId in w.owners
    requires forall row :: row in History(s, c.productId) ==> row.version != c.Version()
    ensures var rows, outcome := History(s, c.productId), Register(w, s, Some(c)).1;
            if rows == [] then outcome.Success?
            else
              var latest := FindLatest(rows);
              match Gate(Some(latest), ParseSemVer(c.Version()).value, w.assess(Some(latest), c))
              case Some(error) => outcome == Rejected(error)
              case None => outcome.Success?
  {
    FindVersionIn(History(s, c.productId), c.Version());
    hide ValidStructure, ParseSemVer, FindVersion, FindLatest, CanonicalJson.ComputeContractHash;
  }

  /** What is accepted appends one row with fresh ids, the contract and its hash, the level the
      engine gave it against the version found before it, and the events; nothing else moves. */
  lemma SuccessDoes(w: World, s: State, c: Contract)
    requires Register(w, s, Some(c)).1.Success?
    ensures var (t, outcome) := Register(w, s, Some(c));
            var rows := History(s, c.productId);
            var before := if rows == [] then None else Some(FindLatest(rows));
            var level := w.assess(before, c);
            && outcome == Success(s.nextId, s.nextId + 1, level)
            && t.nextId == s.nextId + 2 && t.products.Keys == s.products.Keys + {c.productId}
            && (forall p :: p in s.products && p != c.productId ==> t.products[p] == s.products[p])
            && t.products[c.productId]
               == rows + [VersionRow(s.nextId, c.structure.version, level,
                                     if before.None? then None else Some(before.value.version),
                                     ContractRow(s.nextId + 1, c, CanonicalJson.ComputeContractHash(c.body, w.hash)))]
            && t.events == s.events
                           + (if c.productId in s.products then [] else [Event(PRODUCT_CREATED, c.productId, None)])
                           + [Event(VERSION_CREATED, c.productId, Some(c.structure.version)),
                              Event(CONTRACT_REGISTERED, c.productId, Some(c.structure.version)),
                              Event(COMPATIBILITY_CHECK_PASSED, c.productId, Some(c.structure.version)),
                              Event(COMPATIBILITY_EVALUATED, c.productId, Some(c.structure.version))]
  {
    hide ValidStructure, ParseSemVer, FindVersion, FindLatest, Gate, CanonicalJson.ComputeContractHash;
    var created := if c.productId in s.products then [] else [Event(PRODUCT_CREATED, c.productId, None)];
    var rest := [Event(VERSION_CREATED, c.productId, Some(c.structure.version)),
                 Event(CONTRACT_REGISTERED, c.productId, Some(c.structure.version)),
                 Event(COMPATIBILITY_CHECK_PASSED, c.productId, Some(c.structure.version)),
                 Event(COMPATIBILITY_EVALUATED, c.productId, Some(c.structure.version))];
    assert s.events + (created + rest) == s.events + created + rest;
  }
}
