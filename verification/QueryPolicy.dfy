/** data-product-api-service/src/domain/contract-policy.ts: which raw query strings become
    queries, with which sort, and when a cursor belongs to the request. */
module QueryPolicy {
  import opened Options
  import opened Json
  import opened Encoding
  import opened Cursor
  import CanonicalJson
  import StrictDate

  const CURSOR: Text := [99, 117, 114, 115, 111, 114]
  const PAGE_SIZE: Text := [112, 97, 103, 101, 95, 115, 105, 122, 101]
  const FIELDS: Text := [102, 105, 101, 108, 100, 115]
  const EVENT_ID: Text := [101, 118, 101, 110, 116, 95, 105, 100]
  const VENUE_ID: Text := [118, 101, 110, 117, 101, 95, 105, 100]
  const EVENT_DATE_FROM: Text := [101, 118, 101, 110, 116, 95, 100, 97, 116, 101, 95, 102, 114, 111, 109]
  const EVENT_DATE_TO: Text := [101, 118, 101, 110, 116, 95, 100, 97, 116, 101, 95, 116, 111]
  const UPDATED_SINCE: Text := [117, 112, 100, 97, 116, 101, 100, 95, 115, 105, 110, 99, 101]

  datatype Error =
    INVALID_REQUEST | INVALID_FILTER | INVALID_SORT | INVALID_PAGE_SIZE | INVALID_FIELD_SELECTION | INVALID_CURSOR

  datatype Result<T> = Ok(value: T) | Err(error: Error)

  /** A query parameter given once, or several times. */
  datatype Raw = Once(text: Text) | Repeated

  datatype Parameter = Parameter(name: Text, raw: Raw)

  datatype Contract = Contract(
    dataProductId: Text, version: Text, filters: seq<Text>, sorts: seq<Text>, defaultSort: seq<Text>,
    publishedFields: seq<Text>, defaultPageSize: int, maxPageSize: int)

  datatype Tenant = Tenant(organizationId: Text, tenantId: Text)

  datatype Filters = Filters(
    eventId: Option<Text>, venueId: Option<Text>, eventDateFrom: Option<Text>, eventDateTo: Option<Text>,
    updatedSince: Option<Text>)

  datatype Query = Query(
    tenant: Tenant, filters: Filters, sort: seq<Text>, pageSize: int, cursor: Option<Decoded>,
    selectedFields: Option<seq<Text>>)

  /** What the language and the secret supply: the timestamp check, Number on text that reads
      as an integer, SHA-256, HMAC-SHA-256 and Buffer. */
  datatype Platform = Platform(
    timestamp: Text -> bool, integer: Text -> Option<int>, hash: Text -> Text, mac: Text -> Bytes, buffer: Buffer)

  function Lookup(raw: seq<Parameter>, name: Text): Option<Raw> {
    if raw == [] then None else if raw[0].name == name then Some(raw[0].raw) else Lookup(raw[1..], name)
  }

  /** asString: the text, absent, or a repetition that is refused. */
  function AsString(raw: seq<Parameter>, name: Text): Result<Option<Text>> {
    match Lookup(raw, name)
    case None => Ok(None)
    case Some(Once(text)) => Ok(Some(text))
    case Some(Repeated) => Err(INVALID_REQUEST)
  }

  /** A string that is there and not empty. */
  predicate Truthy(t: Option<Text>) { t.Some? && t.value != [] }

  // ------------------------------------------------------------ lists in a parameter

  function SplitComma(t: Text): (parts: seq<Text>)
    ensures parts != []
  {
    if t == [] then [[]]
    else if t[0] == 44 then [[]] + SplitComma(t[1..])
    else var rest := SplitComma(t[1..]); [[t[0]] + rest[0]] + rest[1..]
  }

  /** White space and line terminators (section 22.1.3.32.1 of ECMA-262). */
  predicate Space(c: Unit) {
    9 <= c <= 13 || c == 32 || c == 0xA0 || c == 0x1680 || 0x2000 <= c <= 0x200A
    || c == 0x2028 || c == 0x2029 || c == 0x202F || c == 0x205F || c == 0x3000 || c == 0xFEFF
  }

  function Trim(t: Text): Text
    decreases |t|
  {
    if t == [] then []
    else if Space(t[0]) then Trim(t[1..])
    else if Space(t[|t| - 1]) then Trim(t[..|t| - 1])
    else t
  }

  function TrimAll(ts: seq<Text>): (r: seq<Text>)
    ensures |r| == |ts| && forall i :: 0 <= i < |ts| ==> r[i] == Trim(ts[i])
  {
    if ts == [] then [] else [Trim(ts[0])] + TrimAll(ts[1..])
  }

  /** The parts again, a comma between each two. */
  function JoinComma(parts: seq<Text>): Text {
    if parts == [] then [] else if |parts| == 1 then parts[0] else parts[0] + [44] + JoinComma(parts[1..])
  }

  lemma JoinFirst(first: Text, rest: seq<Text>)
    requires rest != []
    ensures JoinComma([first] + rest) == first + [44] + JoinComma(rest)
  {
    assert ([first] + rest)[1..] == rest;
  }

  /** A unit before the first part. */
  lemma JoinUnit(c: Unit, parts: seq<Text>)
    requires parts != []
    ensures JoinComma([[c] + parts[0]] + parts[1..]) == [c] + JoinComma(parts)
  {
    var longer := [[c] + parts[0]] + parts[1..];
    assert longer[1..] == parts[1..];
    if |parts| > 1 {
      assert [c] + (parts[0] + [44] + JoinComma(parts[1..])) == [c] + parts[0] + [44] + JoinComma(parts[1..]);
    }
  }

  /** The parts hold no comma, and with commas between they are the text. */
  lemma {:induction false} SplitIs(t: Text)
    ensures JoinComma(SplitComma(t)) == t
    ensures forall i :: 0 <= i < |SplitComma(t)| ==> 44 !in SplitComma(t)[i]
  {
    hide JoinComma;
    if t == [] {
      JoinOne([]);
    } else {
      var rest := SplitComma(t[1..]);
      SplitIs(t[1..]);
      assert t == [t[0]] + t[1..];
      if t[0] == 44 {
        JoinFirst([], rest);
      } else {
        JoinUnit(t[0], rest);
      }
    }
  }

  lemma JoinOne(part: Text)
    ensures JoinComma([part]) == part
  {
  }

  predicate AllSpace(t: Text) { forall i :: 0 <= i < |t| ==> Space(t[i]) }

  /** One unit more around three parts. */
  lemma Around(c: Unit, a: Text, m: Text, b: Text)
    requires Space(c) && AllSpace(a) && AllSpace(b)
    ensures AllSpace([c] + a) && [c] + (a + m + b) == [c] + a + m + b
    ensures AllSpace(b + [c]) && (a + m + b) + [c] == a + m + (b + [c])
  {
    hide Space;
  }

  lemma TrimStep(t: Text)
    ensures AllSpace([]) && Trim([]) == []
    ensures t != [] ==> Trim(t) == if Space(t[0]) then Trim(t[1..])
                                   else if Space(t[|t| - 1]) then Trim(t[..|t| - 1]) else t
  {
    hide Space;
  }

  /** What is cut off is white space, and neither end of the rest is. */
  lemma {:induction false} TrimIs(t: Text) returns (a: Text, b: Text)
    ensures t == a + Trim(t) + b && AllSpace(a) && AllSpace(b)
    ensures Trim(t) != [] ==> !Space(Trim(t)[0]) && !Space(Trim(t)[|Trim(t)| - 1])
    decreases |t|
  {
    hide Trim, Space, AllSpace;
    TrimStep(t);
    a, b := [], [];
    if t != [] && Space(t[0]) {
      a, b := TrimIs(t[1..]);
      Around(t[0], a, Trim(t), b);
      a := [t[0]] + a;
      assert t == [t[0]] + t[1..];
    } else if t != [] && Space(t[|t| - 1]) {
      a, b := TrimIs(t[..|t| - 1]);
      Around(t[|t| - 1], a, Trim(t), b);
      b := b + [t[|t| - 1]];
      assert t == t[..|t| - 1] + [t[|t| - 1]];
    }
  }

  lemma SpacesAre(c: Unit)
    ensures Space(c) <==>
            c in {0x9, 0xA, 0xB, 0xC, 0xD, 0x20, 0xA0, 0x1680, 0x2000, 0x2001, 0x2002, 0x2003, 0x2004, 0x2005, 0x2006,
                  0x2007, 0x2008, 0x2009, 0x200A, 0x2028, 0x2029, 0x202F, 0x205F, 0x3000, 0xFEFF}
  {
  }

  predicate AllIn(xs: seq<Text>, allowed: seq<Text>) { forall x :: x in xs ==> x in allowed }

  // ------------------------------------------------------------ the sort

  /** The requested sort, then each default field not there yet. */
  function Complete(sort: seq<Text>, defaults: seq<Text>): seq<Text>
    decreases |defaults|
  {
    if defaults == [] then sort
    else Complete(if defaults[0] in sort then sort else sort + [defaults[0]], defaults[1..])
  }

  method CompleteSort(requested: seq<Text>, defaults: seq<Text>) returns (sort: seq<Text>)
    ensures sort == Complete(requested, defaults)
    ensures requested <= sort && AllIn(defaults, sort) && AllIn(sort, requested + defaults)
  {
    sort := requested;
    for i := 0 to |defaults|
      invariant Complete(sort, defaults[i..]) == Complete(requested, defaults)
      invariant requested <= sort && AllIn(sort, requested + defaults)
      invariant forall k :: 0 <= k < i ==> defaults[k] in sort
    {
      assert defaults[i..][0] == defaults[i] && defaults[i..][1..] == defaults[i + 1..];
      if defaults[i] !in sort {
        sort := sort + [defaults[i]];
      }
    }
  }

  lemma {:induction false} CompleteHolds(sort: seq<Text>, defaults: seq<Text>)
    ensures var full := Complete(sort, defaults);
            && sort <= full && AllIn(defaults, full) && AllIn(full, sort + defaults)
            && forall i, j :: 0 <= i < j < |full| && |sort| <= j ==> full[i] != full[j]
    decreases |defaults|
  {
    if defaults != [] {
      var next := if defaults[0] in sort then sort else sort + [defaults[0]];
      CompleteHolds(next, defaults[1..]);
      var full := Complete(sort, defaults);
      assert defaults == [defaults[0]] + defaults[1..];
      assert defaults[0] in next && forall x :: x in next ==> x in full;
      forall x | x in full ensures x in sort + defaults {
        assert x in next + defaults[1..];
      }
    }
  }

  /** Completing adds no field twice and never displaces a requested one, and completing
      again changes nothing. */
  lemma CompleteTwice(sort: seq<Text>, defaults: seq<Text>)
    ensures Complete(Complete(sort, defaults), defaults) == Complete(sort, defaults)
  {
    CompleteHolds(sort, defaults);
    NothingMissing(Complete(sort, defaults), defaults);
  }

  lemma {:induction false} NothingMissing(sort: seq<Text>, defaults: seq<Text>)
    requires AllIn(defaults, sort)
    ensures Complete(sort, defaults) == sort
    decreases |defaults|
  {
    if defaults != [] {
      NothingMissing(sort, defaults[1..]);
    }
  }

  /** Rows that tie under a completed sort agree on every default field. */
  lemma TiesAgreeOnDefaults<V>(sort: seq<Text>, defaults: seq<Text>, a: Text -> V, b: Text -> V)
    requires forall f :: f in Complete(sort, defaults) ==> a(f) == b(f)
    ensures forall f :: f in defaults ==> a(f) == b(f)
  {
    CompleteHolds(sort, defaults);
  }

  // ------------------------------------------------------------ the cursor's request

  const EVENT_DATE_FROM_KEY: Text := [101, 118, 101, 110, 116, 68, 97, 116, 101, 70, 114, 111, 109]
  const EVENT_DATE_TO_KEY: Text := [101, 118, 101, 110, 116, 68, 97, 116, 101, 84, 111]
  const EVENT_ID_KEY: Text := [101, 118, 101, 110, 116, 73, 100]
  const UPDATED_SINCE_KEY: Text := [117, 112, 100, 97, 116, 101, 100, 83, 105, 110, 99, 101]
  const VENUE_ID_KEY: Text := [118, 101, 110, 117, 101, 73, 100]

  function Entry(key: Text, value: Option<Text>): seq<LastValue> {
    if value.Some? then [LastValue(key, value.value)] else []
  }

  /** The defined filters by name. */
  function SortedEntries(f: Filters): seq<LastValue> {
    Entry(EVENT_DATE_FROM_KEY, f.eventDateFrom) + (Entry(EVENT_DATE_TO_KEY, f.eventDateTo)
      + (Entry(EVENT_ID_KEY, f.eventId) + (Entry(UPDATED_SINCE_KEY, f.updatedSince) + Entry(VENUE_ID_KEY, f.venueId))))
  }

  /** Object.entries: [name, value] pairs. */
  function EntriesJson(entries: seq<LastValue>): (js: seq<Json>)
    ensures |js| == |entries|
    ensures forall i :: 0 <= i < |js| ==> js[i] == Arr([Str(entries[i].field), Str(entries[i].value)])
  {
    if entries == [] then [] else [Arr([Str(entries[0].field), Str(entries[0].value)])] + EntriesJson(entries[1..])
  }

  function FilterFingerprint(f: Filters, hash: Text -> Text): Text {
    hash(Stringify(Arr(EntriesJson(SortedEntries(f)))))
  }

  /** JSON.stringify of a parsed array prints `text`. */
  ghost predicate Reprints(values: seq<Value>, text: Text) {
    exists j: Json :: WellFormed(j) && Denote(j) == VArr(values) && Stringify(j) == text
  }

  /** The cursor was made for this tenant, product, version, filter set and sort. */
  ghost predicate Belongs(c: Decoded, contract: Contract, tenant: Tenant, filters: Filters, sort: seq<Text>,
                          hash: Text -> Text) {
    && c.organizationId == tenant.organizationId && c.tenantId == tenant.tenantId
    && c.productId == contract.dataProductId && c.productVersion == contract.version
    && c.filterFingerprint == FilterFingerprint(filters, hash)
    && Reprints(c.sort, Stringify(Arr(Strs(sort))))
  }

  lemma StrsWellFormed(ts: seq<Text>)
    ensures WellFormed(Arr(Strs(ts)))
  {
  }

  lemma ReprintsIff(values: seq<Value>, sort: seq<Text>)
    ensures Reprints(values, Stringify(Arr(Strs(sort)))) <==> values == Values(sort)
  {
    hide Stringify;
    var printed := Arr(Strs(sort));
    StrsWellFormed(sort);
    StrsMean(sort);
    ParseStringify(printed);
    if j: Json :| WellFormed(j) && Denote(j) == VArr(values) && Stringify(j) == Stringify(printed) {
      ParseStringify(j);
    }
    assert Denote(printed) == VArr(Values(sort));
  }

  lemma EntriesWellFormed(entries: seq<LastValue>)
    ensures WellFormed(Arr(EntriesJson(entries)))
  {
  }

  function EntryJson(e: LastValue): Json { Arr([Str(e.field), Str(e.value)]) }

  lemma EntryMeans(e: LastValue)
    ensures Denote(EntryJson(e)) == VArr([VStr(e.field), VStr(e.value)])
  {
    var texts := [e.field, e.value];
    StrsMean(texts);
    assert Strs(texts) == [Str(e.field), Str(e.value)] && Values(texts) == [VStr(e.field), VStr(e.value)];
  }

  lemma EntryIdentified(a: LastValue, b: LastValue)
    requires Denote(EntryJson(a)) == Denote(EntryJson(b))
    ensures a == b
  {
    EntryMeans(a);
    EntryMeans(b);
    var p, q := [VStr(a.field), VStr(a.value)], [VStr(b.field), VStr(b.value)];
    assert p == q;
    assert p[0] == q[0] && p[1] == q[1];
  }

  lemma {:induction false} EntriesMean(a: seq<LastValue>, b: seq<LastValue>)
    requires DenoteAll(EntriesJson(a)) == DenoteAll(EntriesJson(b))
    ensures a == b
  {
    var p, q := EntriesJson(a), EntriesJson(b);
    assert |a| == |DenoteAll(p)| == |DenoteAll(q)| == |b|;
    if a != [] {
      assert p[1..] == EntriesJson(a[1..]) && q[1..] == EntriesJson(b[1..]);
      assert DenoteAll(p)[0] == Denote(p[0]) && DenoteAll(p)[1..] == DenoteAll(p[1..]);
      assert DenoteAll(q)[0] == Denote(q[0]) && DenoteAll(q)[1..] == DenoteAll(q[1..]);
      EntriesMean(a[1..], b[1..]);
      assert p[0] == EntryJson(a[0]) && q[0] == EntryJson(b[0]);
      EntryIdentified(a[0], b[0]);
      assert a == [a[0]] + a[1..] && b == [b[0]] + b[1..];
    }
  }

  function Get(entries: seq<LastValue>, key: Text): Option<Text> {
    if entries == [] then None else if entries[0].field == key then Some(entries[0].value) else Get(entries[1..], key)
  }

  lemma GetEntry(key: Text, value: Option<Text>, rest: seq<LastValue>, sought: Text)
    ensures Get(Entry(key, value) + rest, sought)
            == if key == sought && value.Some? then value else Get(rest, sought)
  {
    if value.Some? {
      assert (Entry(key, value) + rest)[1..] == rest;
    } else {
      assert Entry(key, value) + rest == rest;
    }
  }

  predicate KeysApart(a: Text, b: Text, c: Text, d: Text, e: Text) {
    a != b && a != c && a != d && a != e && b != c && b != d && b != e && c != d && c != e && d != e
  }

  lemma FilterKeysApart()
    ensures KeysApart(EVENT_DATE_FROM_KEY, EVENT_DATE_TO_KEY, EVENT_ID_KEY, UPDATED_SINCE_KEY, VENUE_ID_KEY)
  {
    assert |EVENT_DATE_FROM_KEY| == 13 && |EVENT_DATE_TO_KEY| == 11 && |EVENT_ID_KEY| == 7;
    assert |UPDATED_SINCE_KEY| == 12 && |VENUE_ID_KEY| == 7;
    assert EVENT_ID_KEY[0] != VENUE_ID_KEY[0];
  }

  /** Five optional entries under five keys give back the five values. */
  lemma FiveEntries(a: Text, va: Option<Text>, b: Text, vb: Option<Text>, c: Text, vc: Option<Text>,
                    d: Text, vd: Option<Text>, e: Text, ve: Option<Text>)
    requires KeysApart(a, b, c, d, e)
    ensures var all := Entry(a, va) + (Entry(b, vb) + (Entry(c, vc) + (Entry(d, vd) + Entry(e, ve))));
            Get(all, a) == va && Get(all, b) == vb && Get(all, c) == vc && Get(all, d) == vd && Get(all, e) == ve
  {
    hide Get, Entry;
    forall key | key in {a, b, c, d, e}
      ensures Get(Entry(a, va) + (Entry(b, vb) + (Entry(c, vc) + (Entry(d, vd) + Entry(e, ve)))), key)
              == if key == a && va.Some? then va
                 else if key == b && vb.Some? then vb
                 else if key == c && vc.Some? then vc
                 else if key == d && vd.Some? then vd else if key == e && ve.Some? then ve else None
    {
      assert Entry(e, ve) + [] == Entry(e, ve);
      GetEntry(e, ve, [], key);
      GetNothing(key);
      GetEntry(d, vd, Entry(e, ve), key);
      GetEntry(c, vc, Entry(d, vd) + Entry(e, ve), key);
      GetEntry(b, vb, Entry(c, vc) + (Entry(d, vd) + Entry(e, ve)), key);
      GetEntry(a, va, Entry(b, vb) + (Entry(c, vc) + (Entry(d, vd) + Entry(e, ve))), key);
    }
  }

  lemma GetNothing(key: Text)
    ensures Get([], key) == None
  {
  }

  /** A fingerprint is the filter set: absent and empty filters differ. */
  lemma FingerprintIdentifies(f: Filters, g: Filters, hash: Text -> Text)
    requires CanonicalJson.CollisionFree(hash)
    ensures FilterFingerprint(f, hash) == FilterFingerprint(g, hash) <==> f == g
  {
    hide Stringify, Get, Entry, EntriesJson;
    if FilterFingerprint(f, hash) == FilterFingerprint(g, hash) {
      var a, b := SortedEntries(f), SortedEntries(g);
      EntriesWellFormed(a);
      EntriesWellFormed(b);
      ParseStringify(Arr(EntriesJson(a)));
      ParseStringify(Arr(EntriesJson(b)));
      EntriesMean(a, b);
      FilterKeysApart();
      FiveEntries(EVENT_DATE_FROM_KEY, f.eventDateFrom, EVENT_DATE_TO_KEY, f.eventDateTo, EVENT_ID_KEY, f.eventId,
                  UPDATED_SINCE_KEY, f.updatedSince, VENUE_ID_KEY, f.venueId);
      FiveEntries(EVENT_DATE_FROM_KEY, g.eventDateFrom, EVENT_DATE_TO_KEY, g.eventDateTo, EVENT_ID_KEY, g.eventId,
                  UPDATED_SINCE_KEY, g.updatedSince, VENUE_ID_KEY, g.venueId);
    }
  }

  /** The payload a response to a query carries on. */
  function Minted(contract: Contract, tenant: Tenant, filters: Filters, sort: seq<Text>, lastValues: seq<LastValue>,
                  hash: Text -> Text): Payload {
    Payload(tenant.organizationId, tenant.tenantId, contract.dataProductId, contract.version, sort,
            FilterFingerprint(filters, hash), lastValues)
  }

  lemma {:induction false} ValuesIdentify(s: seq<Text>, t: seq<Text>)
    requires Values(s) == Values(t)
    ensures s == t
  {
    assert |s| == |t|;
    forall i | 0 <= i < |s| ensures s[i] == t[i] {
      assert Values(s)[i] == VStr(s[i]) && Values(t)[i] == VStr(t[i]);
    }
  }

  /** A cursor handed out for one request is taken back by another exactly when that has the
      same tenant, product, version, filters and sort; whatever the last values. */
  lemma CursorTakenBackIff(c: Contract, tenant: Tenant, filters: Filters, sort: seq<Text>, lastValues: seq<LastValue>,
                           d: Contract, tenant': Tenant, filters': Filters, sort': seq<Text>, platform: Platform)
    requires CanonicalJson.CollisionFree(platform.hash)
    ensures var raw := EncodeCursor(Minted(c, tenant, filters, sort, lastValues, platform.hash), platform.mac);
            var decoded := DecodeCursor(raw, platform.mac, platform.buffer);
            && decoded.Some?
            && (Belongs(decoded.value, d, tenant', filters', sort', platform.hash) <==>
                  tenant == tenant' && c.dataProductId == d.dataProductId && c.version == d.version
                  && filters == filters' && sort == sort')
  {
    hide EncodeCursor, DecodeCursor, FilterFingerprint, Reprints, Stringify;
    var p := Minted(c, tenant, filters, sort, lastValues, platform.hash);
    DecodeInvertsEncode(p, platform.mac, platform.mac, platform.buffer);
    FingerprintIdentifies(filters, filters', platform.hash);
    ReprintsIff(Values(sort), sort');
    if Values(sort) == Values(sort') {
      ValuesIdentify(sort, sort');
    }
  }

  // ------------------------------------------------------------ the whole check, stage by stage

  predicate Reserved(name: Text) { name == SORT || name == CURSOR || name == PAGE_SIZE || name == FIELDS }

  predicate KeysAllowed(contract: Contract, raw: seq<Parameter>) {
    forall i :: 0 <= i < |raw| ==> Reserved(raw[i].name) || raw[i].name in contract.filters
  }

  predicate Single(raw: seq<Parameter>, name: Text) { AsString(raw, name).Ok? }

  /** The text of a parameter that is not repeated. */
  function Given(raw: seq<Parameter>, name: Text): Option<Text> {
    match AsString(raw, name) case Ok(text) => text case Err(_) => None
  }

  function FiltersOf(raw: seq<Parameter>): Filters {
    Filters(Given(raw, EVENT_ID), Given(raw, VENUE_ID), Given(raw, EVENT_DATE_FROM), Given(raw, EVENT_DATE_TO),
            Given(raw, UPDATED_SINCE))
  }

  predicate DateOk(date: Option<Text>) { Truthy(date) ==> StrictDate.AssertStrictDate(date.value) }

  predicate RangeOk(f: Filters) {
    Truthy(f.eventDateFrom) && Truthy(f.eventDateTo) ==> !CanonicalJson.Less(f.eventDateTo.value, f.eventDateFrom.value)
  }

  /** The first thing wrong with the filters. */
  function FilterProblem(raw: seq<Parameter>, platform: Platform): Option<Error> {
    var f := FiltersOf(raw);
    if !(Single(raw, EVENT_ID) && Single(raw, VENUE_ID) && Single(raw, EVENT_DATE_FROM)
         && Single(raw, EVENT_DATE_TO) && Single(raw, UPDATED_SINCE))
    then Some(INVALID_REQUEST)
    else if !DateOk(f.eventDateFrom) || !DateOk(f.eventDateTo) then Some(INVALID_FILTER)
    else if !RangeOk(f) then Some(INVALID_REQUEST)
    else if Truthy(f.updatedSince) && !platform.timestamp(f.updatedSince.value) then Some(INVALID_FILTER)
    else None
  }

  /** An accepted date range is one in the calendar. */
  lemma RangeIsCalendar(raw: seq<Parameter>, platform: Platform)
    requires FilterProblem(raw, platform).None?
    ensures var f := FiltersOf(raw);
            Truthy(f.eventDateFrom) && Truthy(f.eventDateTo) ==>
              StrictDate.Civil.DayNumber(StrictDate.Written(f.eventDateFrom.value))
              <= StrictDate.Civil.DayNumber(StrictDate.Written(f.eventDateTo.value))
  {
    var f := FiltersOf(raw);
    if Truthy(f.eventDateFrom) && Truthy(f.eventDateTo) {
      StrictDate.StringOrderIsCalendarOrder(f.eventDateTo.value, f.eventDateFrom.value);
    }
  }

  /** The sort asked for, or the contract's. */
  function RequestedSort(contract: Contract, raw: seq<Parameter>): seq<Text> {
    if Truthy(Given(raw, SORT)) then TrimAll(SplitComma(Given(raw, SORT).value)) else contract.defaultSort
  }

  function SortProblem(contract: Contract, raw: seq<Parameter>): Option<Error> {
    if !Single(raw, SORT) then Some(INVALID_REQUEST)
    else if Truthy(Given(raw, SORT)) && !AllIn(RequestedSort(contract, raw), contract.sorts) then Some(INVALID_SORT)
    else None
  }

  function PageSizeProblem(contract: Contract, raw: seq<Parameter>, platform: Platform): Option<Error> {
    if !Single(raw, PAGE_SIZE) then Some(INVALID_REQUEST)
    else match Given(raw, PAGE_SIZE)
      case None => None
      case Some(text) =>
        match platform.integer(text)
        case Some(n) => if 0 < n <= contract.maxPageSize then None else Some(INVALID_PAGE_SIZE)
        case None => Some(INVALID_PAGE_SIZE)
  }

  function FieldsProblem(contract: Contract, raw: seq<Parameter>): Option<Error> {
    if !Single(raw, FIELDS) then Some(INVALID_REQUEST)
    else if FieldsOf(raw).Some? && !AllIn(FieldsOf(raw).value, contract.publishedFields)
    then Some(INVALID_FIELD_SELECTION)
    else None
  }

  function PageSizeOf(contract: Contract, raw: seq<Parameter>, platform: Platform): int {
    match Given(raw, PAGE_SIZE)
    case None => contract.defaultPageSize
    case Some(text) => match platform.integer(text) case Some(n) => n case None => contract.defaultPageSize
  }

  function FieldsOf(raw: seq<Parameter>): Option<seq<Text>> {
    if Truthy(Given(raw, FIELDS)) then Some(TrimAll(SplitComma(Given(raw, FIELDS).value))) else None
  }

  function CursorOf(raw: seq<Parameter>, platform: Platform): Option<Decoded> {
    if Truthy(Given(raw, CURSOR)) then DecodeCursor(Given(raw, CURSOR).value, platform.mac, platform.buffer) else None
  }

  ghost function CursorProblem(contract: Contract, tenant: Tenant, raw: seq<Parameter>,
                               platform: Platform): Option<Error> {
    var sort := Complete(RequestedSort(contract, raw), contract.defaultSort);
    if !Single(raw, CURSOR) then Some(INVALID_REQUEST)
    else if !Truthy(Given(raw, CURSOR)) then None
    else match CursorOf(raw, platform)
      case None => Some(INVALID_CURSOR)
      case Some(c) =>
        if Belongs(c, contract, tenant, FiltersOf(raw), sort, platform.hash) then None else Some(INVALID_CURSOR)
  }

  /** The first thing wrong with a request, in the order the checks are made. */
  ghost function Problem(contract: Contract, tenant: Tenant, raw: seq<Parameter>, platform: Platform): Option<Error> {
    if !KeysAllowed(contract, raw) then Some(INVALID_FILTER)
    else if FilterProblem(raw, platform).Some? then FilterProblem(raw, platform)
    else if SortProblem(contract, raw).Some? then SortProblem(contract, raw)
    else if PageSizeProblem(contract, raw, platform).Some? then PageSizeProblem(contract, raw, platform)
    else if FieldsProblem(contract, raw).Some? then FieldsProblem(contract, raw)
    else CursorProblem(contract, tenant, raw, platform)
  }

  method CheckAllowed(fields: seq<Text>, allowed: seq<Text>) returns (ok: bool)
    ensures ok <==> AllIn(fields, allowed)
  {
    for i := 0 to |fields|
      invariant forall k :: 0 <= k < i ==> fields[k] in allowed
    {
      if fields[i] !in allowed {
        return false;
      }
    }
    ok := true;
  }

  method CheckFilters(raw: seq<Parameter>, platform: Platform) returns (r: Result<Filters>)
    ensures FilterProblem(raw, platform) == match r case Ok(_) => None case Err(e) => Some(e)
    ensures r.Ok? ==> r.value == FiltersOf(raw)
  {
    hide StrictDate.AssertStrictDate, Lookup, CanonicalJson.Less;
    var eventId, venueId := AsString(raw, EVENT_ID), AsString(raw, VENUE_ID);
    var from, to := AsString(raw, EVENT_DATE_FROM), AsString(raw, EVENT_DATE_TO);
    var updatedSince := AsString(raw, UPDATED_SINCE);
    if eventId.Err? || venueId.Err? || from.Err? || to.Err? || updatedSince.Err? {
      return Err(INVALID_REQUEST);
    }
    if Truthy(from.value) && !StrictDate.AssertStrictDate(from.value.value) {
      return Err(INVALID_FILTER);
    }
    if Truthy(to.value) && !StrictDate.AssertStrictDate(to.value.value) {
      return Err(INVALID_FILTER);
    }
    if Truthy(from.value) && Truthy(to.value) && CanonicalJson.Less(to.value.value, from.value.value) {
      return Err(INVALID_REQUEST);
    }
    if Truthy(updatedSince.value) && !platform.timestamp(updatedSince.value.value) {
      return Err(INVALID_FILTER);
    }
    r := Ok(Filters(eventId.value, venueId.value, from.value, to.value, updatedSince.value));
  }

  /** Accepts exactly the requests with nothing wrong, fails with the first thing wrong, and
      what it returns carries the completed sort. */
  method ParseAndValidateQuery(contract: Contract, tenant: Tenant, raw: seq<Parameter>,
                               platform: Platform) returns (r: Result<Query>)
    ensures Problem(contract, tenant, raw, platform) == match r case Ok(_) => None case Err(e) => Some(e)
    ensures r.Ok? ==>
              var q := r.value;
              && q.tenant == tenant && q.filters == FiltersOf(raw)
              && q.sort == Complete(RequestedSort(contract, raw), contract.defaultSort)
              && AllIn(contract.defaultSort, q.sort) && AllIn(q.sort, contract.sorts + contract.defaultSort)
              && q.pageSize == PageSizeOf(contract, raw, platform) && q.selectedFields == FieldsOf(raw)
              && q.cursor == CursorOf(raw, platform)
              && (q.selectedFields.Some? ==> AllIn(q.selectedFields.value, contract.publishedFields))
              && (q.cursor.Some? ==> Belongs(q.cursor.value, contract, tenant, q.filters, q.sort, platform.hash))
  {
    hide FilterProblem, StrictDate.AssertStrictDate, Belongs, DecodeCursor, FilterFingerprint, Reserved;
    for i := 0 to |raw|
      invariant forall k :: 0 <= k < i ==> Reserved(raw[k].name) || raw[k].name in contract.filters
    {
      if !Reserved(raw[i].name) && raw[i].name !in contract.filters {
        return Err(INVALID_FILTER);
      }
    }
    var filters := CheckFilters(raw, platform);
    if filters.Err? {
      return Err(filters.error);
    }

    var rawSort := AsString(raw, SORT);
    if rawSort.Err? {
      return Err(INVALID_REQUEST);
    }
    var sort := contract.defaultSort;
    if Truthy(rawSort.value) {
      sort := TrimAll(SplitComma(rawSort.value.value));
      var allowed := CheckAllowed(sort, contract.sorts);
      if !allowed {
        return Err(INVALID_SORT);
      }
    }
    sort := CompleteSort(sort, contract.defaultSort);

    var rawPageSize := AsString(raw, PAGE_SIZE);
    if rawPageSize.Err? {
      return Err(INVALID_REQUEST);
    }
    var pageSize := contract.defaultPageSize;
    if rawPageSize.value.Some? {
      var parsed := platform.integer(rawPageSize.value.value);
      if parsed.None? || parsed.value <= 0 || parsed.value > contract.maxPageSize {
        return Err(INVALID_PAGE_SIZE);
      }
      pageSize := parsed.value;
    }

    var rawFields := AsString(raw, FIELDS);
    if rawFields.Err? {
      return Err(INVALID_REQUEST);
    }
    var selectedFields := None;
    if Truthy(rawFields.value) {
      var fields := TrimAll(SplitComma(rawFields.value.value));
      var published := CheckAllowed(fields, contract.publishedFields);
      if !published {
        return Err(INVALID_FIELD_SELECTION);
      }
      selectedFields := Some(fields);
    }

    var rawCursor := AsString(raw, CURSOR);
    if rawCursor.Err? {
      return Err(INVALID_REQUEST);
    }
    var cursor := None;
    if Truthy(rawCursor.value) {
      cursor := DecodeCursor(rawCursor.value.value, platform.mac, platform.buffer);
      if cursor.None? {
        return Err(INVALID_CURSOR);
      }
      var belongs := CheckBelongs(cursor.value, contract, tenant, filters.value, sort, platform);
      if !belongs {
        return Err(INVALID_CURSOR);
      }
    }
    r := Ok(Query(tenant, filters.value, sort, pageSize, cursor, selectedFields));
  }

  method CheckBelongs(c: Decoded, contract: Contract, tenant: Tenant, filters: Filters, sort: seq<Text>,
                      platform: Platform) returns (ok: bool)
    ensures ok <==> Belongs(c, contract, tenant, filters, sort, platform.hash)
  {
    ReprintsIff(c.sort, sort);
    ok := c.organizationId == tenant.organizationId && c.tenantId == tenant.tenantId
          && c.productId == contract.dataProductId && c.productVersion == contract.version
          && c.filterFingerprint == FilterFingerprint(filters, platform.hash) && c.sort == Values(sort);
  }
}
