/** data-product-api-service: what a request must look like, said of its parameters, and what
    a cursor must look like, said of its text. */
module QueryMeaning {
  import opened Options
  import opened Json
  import opened Encoding
  import opened Cursor
  import opened QueryPolicy
  import CanonicalJson
  import StrictDate

  // ------------------------------------------------------------ the names

  /** The parameters as they are spelled in a query string. */
  lemma NamesAre()
    ensures SORT == Units("sort") && CURSOR == Units("cursor") && PAGE_SIZE == Units("page_size")
            && FIELDS == Units("fields")
    ensures EVENT_ID == Units("event_id") && VENUE_ID == Units("venue_id")
            && EVENT_DATE_FROM == Units("event_date_from") && EVENT_DATE_TO == Units("event_date_to")
            && UPDATED_SINCE == Units("updated_since")
  {
  }

  /** The members of a cursor's payload. */
  lemma KeysAre()
    ensures ORGANIZATION_ID == Units("organizationId") && TENANT_ID == Units("tenantId")
            && PRODUCT_ID == Units("productId") && PRODUCT_VERSION == Units("productVersion")
            && FILTER_FINGERPRINT == Units("filterFingerprint") && LAST_VALUES == Units("lastValues")
  {
  }

  /** The filters as a fingerprint names them. */
  lemma FilterKeysAre()
    ensures EVENT_DATE_FROM_KEY == Units("eventDateFrom") && EVENT_DATE_TO_KEY == Units("eventDateTo")
            && EVENT_ID_KEY == Units("eventId") && UPDATED_SINCE_KEY == Units("updatedSince")
            && VENUE_ID_KEY == Units("venueId")
  {
  }

  // ------------------------------------------------------------ the parameters

  /** The parameter is given, first of its name, as this. */
  ghost predicate Gives(raw: seq<Parameter>, name: Text, value: Raw) {
    exists i :: 0 <= i < |raw| && raw[i] == Parameter(name, value) && forall j :: 0 <= j < i ==> raw[j].name != name
  }

  predicate Absent(raw: seq<Parameter>, name: Text) { forall i :: 0 <= i < |raw| ==> raw[i].name != name }

  lemma {:induction false} LookupAt(raw: seq<Parameter>, name: Text) returns (i: nat)
    ensures i <= |raw| && forall j :: 0 <= j < i ==> raw[j].name != name
    ensures if i < |raw| then raw[i].name == name && Lookup(raw, name) == Some(raw[i].raw)
            else Lookup(raw, name) == None
  {
    if raw == [] || raw[0].name == name {
      i := 0;
    } else {
      var k := LookupAt(raw[1..], name);
      i := k + 1;
      assert forall j :: 0 < j < i ==> raw[j] == raw[1..][j - 1];
    }
  }

  lemma LookupIs(raw: seq<Parameter>, name: Text)
    ensures Lookup(raw, name).None? <==> Absent(raw, name)
    ensures Lookup(raw, name).Some? ==> Gives(raw, name, Lookup(raw, name).value)
    ensures forall value :: Gives(raw, name, value) ==> Lookup(raw, name) == Some(value)
  {
    var i := LookupAt(raw, name);
    hide Lookup;
    if i < |raw| {
      assert raw[i] == Parameter(name, raw[i].raw);
    }
  }

  /** A text that is given, and not an empty one. */
  ghost predicate GivesText(raw: seq<Parameter>, name: Text, text: Text) {
    Gives(raw, name, Once(text)) && text != []
  }

  ghost predicate NotRepeated(raw: seq<Parameter>, name: Text) { !Gives(raw, name, Repeated) }

  lemma GivenIs(raw: seq<Parameter>, name: Text)
    ensures Single(raw, name) <==> NotRepeated(raw, name)
    ensures forall text :: Given(raw, name) == Some(text) <==> Gives(raw, name, Once(text))
    ensures Truthy(Given(raw, name)) <==>
            GivesText(raw, name, if Given(raw, name).Some? then Given(raw, name).value else [])
    ensures forall text :: GivesText(raw, name, text) ==> Given(raw, name) == Some(text)
  {
    hide Lookup, Gives;
    LookupIs(raw, name);
  }

  // ------------------------------------------------------------ lists

  predicate Plain(parts: seq<Text>) { parts != [] && forall i :: 0 <= i < |parts| ==> 44 !in parts[i] }

  /** There is one way to cut a text at its commas. */
  lemma {:induction false} OneCut(p: seq<Text>, q: seq<Text>)
    requires Plain(p) && Plain(q) && JoinComma(p) == JoinComma(q)
    ensures p == q
  {
    var t := JoinComma(p);
    FirstPart(p);
    FirstPart(q);
    var m, n := |p[0]|, |q[0]|;
    assert forall j :: 0 <= j < m ==> t[j] == t[..m][j];
    assert forall j :: 0 <= j < n ==> t[j] == t[..n][j];
    assert m == n;
    assert p[0] == t[..m] == q[0];
    if |p| > 1 {
      assert |q| > 1;
      assert t[m + 1..] == JoinComma(p[1..]) == JoinComma(q[1..]);
      OneCut(p[1..], q[1..]);
    }
    assert p == [p[0]] + p[1..] && q == [q[0]] + q[1..];
  }

  /** The text up to its first comma, which is there exactly when there are more parts. */
  lemma FirstPart(p: seq<Text>)
    requires Plain(p)
    ensures var t, n := JoinComma(p), |p[0]|;
            && n <= |t| && t[..n] == p[0] && (|p| > 1 <==> n < |t|)
            && (n < |t| ==> t[n] == 44 && t[n + 1..] == JoinComma(p[1..]))
  {
  }

  /** What is left of a text between white space. */
  ghost predicate Trimmed(s: Text, t: Text) {
    (exists a, b :: s == a + t + b && AllSpace(a) && AllSpace(b))
    && (t != [] ==> !Space(t[0]) && !Space(t[|t| - 1]))
  }

  lemma TrimmedIs(s: Text, t: Text)
    ensures Trimmed(s, t) <==> t == Trim(s)
  {
    hide Space, Trim;
    var a, b := TrimIs(s);
    assert Trimmed(s, Trim(s));
    if Trimmed(s, t) {
      var c, d :| s == c + t + d && AllSpace(c) && AllSpace(d);
      OneTrim(a, Trim(s), b, c, t, d);
    }
  }

  lemma OneTrim(a: Text, s: Text, b: Text, c: Text, t: Text, d: Text)
    requires a + s + b == c + t + d && AllSpace(a) && AllSpace(b) && AllSpace(c) && AllSpace(d)
    requires s != [] ==> !Space(s[0]) && !Space(s[|s| - 1])
    requires t != [] ==> !Space(t[0]) && !Space(t[|t| - 1])
    ensures s == t
  {
    var all := a + s + b;
    if s != [] {
      NotCut(c, t, d, |a|, s[0]);
      NotCut(c, t, d, |a| + |s| - 1, s[|s| - 1]);
    }
    if t != [] {
      NotCut(a, s, b, |c|, t[0]);
      NotCut(a, s, b, |c| + |t| - 1, t[|t| - 1]);
    }
    if s != [] && t != [] {
      assert |a| == |c| && |s| == |t|;
      assert s == all[|a|..|a| + |s|] == t;
    }
  }

  /** What is no white space is not cut off. */
  lemma NotCut(a: Text, s: Text, b: Text, i: nat, c: Unit)
    requires AllSpace(a) && AllSpace(b) && !Space(c) && i < |a + s + b| && (a + s + b)[i] == c
    ensures |a| <= i < |a| + |s|
  {
    var t := a + s + b;
    assert forall j :: 0 <= j < |a| ==> t[j] == a[j];
    assert forall j :: |a| + |s| <= j < |t| ==> t[j] == b[j - |a| - |s|];
  }

  /** The fields a list names: its parts between commas, without the white space around them. */
  ghost predicate Lists(text: Text, fields: seq<Text>) {
    exists parts :: Plain(parts) && JoinComma(parts) == text && |parts| == |fields|
                    && forall i :: 0 <= i < |parts| ==> Trimmed(parts[i], fields[i])
  }

  lemma ListsIs(text: Text, fields: seq<Text>)
    ensures Lists(text, fields) <==> fields == TrimAll(SplitComma(text))
  {
    hide Trim, SplitComma, Trimmed, JoinComma;
    SplitIs(text);
    var split := SplitComma(text);
    forall i | 0 <= i < |split| ensures forall t :: Trimmed(split[i], t) <==> t == Trim(split[i]) {
      forall t {
        TrimmedIs(split[i], t);
      }
    }
    assert Plain(split);
    if Lists(text, fields) {
      var parts :| Plain(parts) && JoinComma(parts) == text && |parts| == |fields|
                   && forall i :: 0 <= i < |parts| ==> Trimmed(parts[i], fields[i]);
      OneCut(parts, split);
      assert forall i :: 0 <= i < |fields| ==> fields[i] == TrimAll(split)[i];
    }
  }

  // ------------------------------------------------------------ the sort

  /** Where a field first stands in a list; its length if it does not. */
  function IndexIn(field: Text, fields: seq<Text>): (i: nat)
    ensures i <= |fields| && (i < |fields| <==> field in fields)
  {
    if fields == [] then 0
    else if fields[0] == field then 0
    else 1 + IndexIn(field, fields[1..])
  }

  /** The defaults appended stand in their own order. */
  lemma {:induction false} AppendedInOrder(sort: seq<Text>, defaults: seq<Text>)
    ensures var full := Complete(sort, defaults);
            forall i, j :: |sort| <= i < j < |full| ==> IndexIn(full[i], defaults) < IndexIn(full[j], defaults)
    decreases |defaults|
  {
    if defaults != [] {
      var next := if defaults[0] in sort then sort else sort + [defaults[0]];
      var full := Complete(sort, defaults);
      AppendedInOrder(next, defaults[1..]);
      CompleteHolds(next, defaults[1..]);
      assert full[..|next|] == next;
      forall i | |next| <= i < |full| ensures IndexIn(full[i], defaults) == 1 + IndexIn(full[i], defaults[1..]) {
        assert defaults[0] in next;
        var k :| 0 <= k < |next| && next[k] == defaults[0];
        assert full[k] != full[i];
      }
      assert |next| > |sort| ==> full[|sort|] == defaults[0];
    }
  }

  // ------------------------------------------------------------ the request

  predicate Named(contract: Contract, raw: seq<Parameter>) {
    forall p :: p in raw ==> p.name in [SORT, CURSOR, PAGE_SIZE, FIELDS]
                             || p.name in contract.filters
  }

  ghost predicate IsDate(raw: seq<Parameter>, name: Text) {
    forall text :: GivesText(raw, name, text) ==>
      exists d: StrictDate.Civil.Date ::
        StrictDate.Civil.ValidDate(d) && 100 <= d.year <= 9999 && StrictDate.IsTextOf(text, d)
  }

  ghost predicate InRange(raw: seq<Parameter>) {
    forall s, t, d, e ::
      (GivesText(raw, EVENT_DATE_FROM, s) && GivesText(raw, EVENT_DATE_TO, t)
       && StrictDate.IsTextOf(s, d) && StrictDate.IsTextOf(t, e)) ==> !StrictDate.Civil.Before(e, d)
  }

  ghost predicate IsTimestamp(raw: seq<Parameter>, platform: Platform) {
    forall text :: GivesText(raw, UPDATED_SINCE, text) ==> platform.timestamp(text)
  }

  ghost predicate Among(raw: seq<Parameter>, name: Text, allowed: seq<Text>) {
    forall text, fields :: GivesText(raw, name, text) && Lists(text, fields) ==> AllIn(fields, allowed)
  }

  ghost predicate IsSize(raw: seq<Parameter>, contract: Contract, platform: Platform) {
    forall text :: Gives(raw, PAGE_SIZE, Once(text)) ==>
      platform.integer(text).Some? && 1 <= platform.integer(text).value <= contract.maxPageSize
  }

  /** The sort asked for, or the contract's, completed. */
  ghost predicate IsSort(raw: seq<Parameter>, contract: Contract, sort: seq<Text>) {
    exists asked :: sort == Complete(asked, contract.defaultSort)
      && if exists text :: GivesText(raw, SORT, text)
         then exists text :: GivesText(raw, SORT, text) && Lists(text, asked)
         else asked == contract.defaultSort
  }

  ghost predicate IsCursor(raw: seq<Parameter>, contract: Contract, tenant: Tenant, platform: Platform) {
    forall text :: GivesText(raw, CURSOR, text) ==>
      exists c :: DecodeCursor(text, platform.mac, platform.buffer) == Some(c)
        && c.organizationId == tenant.organizationId && c.tenantId == tenant.tenantId
        && c.productId == contract.dataProductId && c.productVersion == contract.version
        && c.filterFingerprint == FilterFingerprint(FiltersOf(raw), platform.hash)
        && exists sort :: IsSort(raw, contract, sort) && c.sort == Values(sort)
  }

  /** Each thing asked of a request, in the order it is asked. */
  ghost function FirstMissed(contract: Contract, tenant: Tenant, raw: seq<Parameter>,
                             platform: Platform): Option<Error> {
    if !Named(contract, raw) then Some(INVALID_FILTER)
    else if !NotRepeated(raw, EVENT_ID) || !NotRepeated(raw, VENUE_ID) || !NotRepeated(raw, EVENT_DATE_FROM)
            || !NotRepeated(raw, EVENT_DATE_TO) || !NotRepeated(raw, UPDATED_SINCE) then Some(INVALID_REQUEST)
    else if !IsDate(raw, EVENT_DATE_FROM) || !IsDate(raw, EVENT_DATE_TO) then Some(INVALID_FILTER)
    else if !InRange(raw) then Some(INVALID_REQUEST)
    else if !IsTimestamp(raw, platform) then Some(INVALID_FILTER)
    else if !NotRepeated(raw, SORT) then Some(INVALID_REQUEST)
    else if !Among(raw, SORT, contract.sorts) then Some(INVALID_SORT)
    else if !NotRepeated(raw, PAGE_SIZE) then Some(INVALID_REQUEST)
    else if !IsSize(raw, contract, platform) then Some(INVALID_PAGE_SIZE)
    else if !NotRepeated(raw, FIELDS) then Some(INVALID_REQUEST)
    else if !Among(raw, FIELDS, contract.publishedFields) then Some(INVALID_FIELD_SELECTION)
    else if !NotRepeated(raw, CURSOR) then Some(INVALID_REQUEST)
    else if !IsCursor(raw, contract, tenant, platform) then Some(INVALID_CURSOR)
    else None
  }

  lemma NamedIs(contract: Contract, raw: seq<Parameter>)
    ensures KeysAllowed(contract, raw) <==> Named(contract, raw)
  {
    assert forall i :: 0 <= i < |raw| ==> raw[i] in raw;
  }

  lemma DateIs(raw: seq<Parameter>, name: Text)
    ensures DateOk(Given(raw, name)) <==> IsDate(raw, name)
  {
    hide Given, GivesText, StrictDate.AssertStrictDate, StrictDate.IsTextOf, StrictDate.Civil.ValidDate;
    GivenIs(raw, name);
    forall text ensures StrictDate.AssertStrictDate(text) <==>
                        exists d: StrictDate.Civil.Date ::
                          StrictDate.Civil.ValidDate(d) && 100 <= d.year <= 9999 && StrictDate.IsTextOf(text, d)
    {
      StrictDate.AcceptedAreDates(text);
    }
    if Truthy(Given(raw, name)) {
      assert GivesText(raw, name, Given(raw, name).value);
    }
  }

  lemma RangeIs(raw: seq<Parameter>)
    requires IsDate(raw, EVENT_DATE_FROM) && IsDate(raw, EVENT_DATE_TO)
    ensures RangeOk(FiltersOf(raw)) <==> InRange(raw)
  {
    hide Given, GivesText, StrictDate.AssertStrictDate, StrictDate.IsTextOf, StrictDate.Civil.ValidDate,
         CanonicalJson.Less;
    GivenIs(raw, EVENT_DATE_FROM);
    GivenIs(raw, EVENT_DATE_TO);
    DateIs(raw, EVENT_DATE_FROM);
    DateIs(raw, EVENT_DATE_TO);
    var f := FiltersOf(raw);
    if Truthy(f.eventDateFrom) && Truthy(f.eventDateTo) {
      var s, t := f.eventDateFrom.value, f.eventDateTo.value;
      assert GivesText(raw, EVENT_DATE_FROM, s) && GivesText(raw, EVENT_DATE_TO, t);
      StrictDate.StringOrderIsCalendarOrder(t, s);
      TextsOf(s);
      TextsOf(t);
    }
  }

  /** An accepted text is the text of the date written in it, and of no other. */
  lemma TextsOf(s: Text)
    requires StrictDate.AssertStrictDate(s)
    ensures StrictDate.DateShape(s)
    ensures forall d :: StrictDate.IsTextOf(s, d) <==> d == StrictDate.Written(s)
  {
    StrictDate.AcceptedIff(s);
    hide StrictDate.AssertStrictDate, StrictDate.DateText, StrictDate.DateShape, StrictDate.Written;
    forall d ensures StrictDate.IsTextOf(s, d) <==> d == StrictDate.Written(s) {
      if 0 <= d.year <= 9999 && 0 <= d.month <= 99 && 0 <= d.day <= 99 {
        StrictDate.TextOfDate(s, d);
      }
    }
  }

  lemma AmongIs(raw: seq<Parameter>, name: Text, allowed: seq<Text>)
    ensures Among(raw, name, allowed) <==>
            (Truthy(Given(raw, name)) ==> AllIn(TrimAll(SplitComma(Given(raw, name).value)), allowed))
  {
    hide Given, GivesText, Lists, TrimAll, SplitComma, AllIn;
    GivenIs(raw, name);
    if Truthy(Given(raw, name)) {
      var text := Given(raw, name).value;
      assert GivesText(raw, name, text);
      forall fields {
        ListsIs(text, fields);
      }
      assert Lists(text, TrimAll(SplitComma(text)));
    }
  }

  lemma SizeIs(raw: seq<Parameter>, contract: Contract, platform: Platform)
    requires Single(raw, PAGE_SIZE)
    ensures PageSizeProblem(contract, raw, platform)
            == if IsSize(raw, contract, platform) then None else Some(INVALID_PAGE_SIZE)
  {
    hide Given, Gives;
    GivenIs(raw, PAGE_SIZE);
    if Given(raw, PAGE_SIZE).Some? {
      assert Gives(raw, PAGE_SIZE, Once(Given(raw, PAGE_SIZE).value));
    }
  }

  lemma SortIs(raw: seq<Parameter>, contract: Contract, sort: seq<Text>)
    ensures IsSort(raw, contract, sort) <==> sort == Complete(RequestedSort(contract, raw), contract.defaultSort)
  {
    hide Given, GivesText, Lists, TrimAll, SplitComma, Complete;
    GivenIs(raw, SORT);
    if Truthy(Given(raw, SORT)) {
      var text := Given(raw, SORT).value;
      assert GivesText(raw, SORT, text);
      forall fields {
        ListsIs(text, fields);
      }
    }
  }

  lemma CursorIs(raw: seq<Parameter>, contract: Contract, tenant: Tenant, platform: Platform)
    requires Single(raw, CURSOR)
    ensures CursorProblem(contract, tenant, raw, platform)
            == if IsCursor(raw, contract, tenant, platform) then None else Some(INVALID_CURSOR)
  {
    hide Given, GivesText, IsSort, RequestedSort, Complete, DecodeCursor, FilterFingerprint, FiltersOf, Reprints;
    GivenIs(raw, CURSOR);
    if Truthy(Given(raw, CURSOR)) {
      var text := Given(raw, CURSOR).value;
      assert GivesText(raw, CURSOR, text);
      forall sort {
        SortIs(raw, contract, sort);
      }
      var sort := Complete(RequestedSort(contract, raw), contract.defaultSort);
      forall c: Decoded {
        ReprintsIff(c.sort, sort);
      }
    }
  }

  lemma FiltersMissed(raw: seq<Parameter>, platform: Platform)
    ensures FilterProblem(raw, platform)
            == if !NotRepeated(raw, EVENT_ID) || !NotRepeated(raw, VENUE_ID) || !NotRepeated(raw, EVENT_DATE_FROM)
                  || !NotRepeated(raw, EVENT_DATE_TO) || !NotRepeated(raw, UPDATED_SINCE) then Some(INVALID_REQUEST)
               else if !IsDate(raw, EVENT_DATE_FROM) || !IsDate(raw, EVENT_DATE_TO) then Some(INVALID_FILTER)
               else if !InRange(raw) then Some(INVALID_REQUEST)
               else if !IsTimestamp(raw, platform) then Some(INVALID_FILTER)
               else None
  {
    hide Given, GivesText, NotRepeated, Single, IsDate, InRange, DateOk, RangeOk;
    GivenIs(raw, EVENT_ID);
    GivenIs(raw, VENUE_ID);
    GivenIs(raw, EVENT_DATE_FROM);
    GivenIs(raw, EVENT_DATE_TO);
    GivenIs(raw, UPDATED_SINCE);
    DateIs(raw, EVENT_DATE_FROM);
    DateIs(raw, EVENT_DATE_TO);
    if IsDate(raw, EVENT_DATE_FROM) && IsDate(raw, EVENT_DATE_TO) {
      RangeIs(raw);
    }
  }

  /** A request is refused for the first of these it misses, and for nothing else. */
  lemma RefusedFor(contract: Contract, tenant: Tenant, raw: seq<Parameter>, platform: Platform)
    ensures Problem(contract, tenant, raw, platform) == FirstMissed(contract, tenant, raw, platform)
  {
    hide Given, GivesText, NotRepeated, Single, IsDate, InRange, IsTimestamp, FilterProblem, Named, KeysAllowed, Among,
         IsSize, IsCursor, CursorProblem, TrimAll, SplitComma, AllIn, Complete;
    NamedIs(contract, raw);
    FiltersMissed(raw, platform);
    GivenIs(raw, SORT);
    GivenIs(raw, PAGE_SIZE);
    GivenIs(raw, FIELDS);
    GivenIs(raw, CURSOR);
    AmongIs(raw, SORT, contract.sorts);
    AmongIs(raw, FIELDS, contract.publishedFields);
    if Single(raw, PAGE_SIZE) {
      SizeIs(raw, contract, platform);
    }
    if Single(raw, CURSOR) {
      CursorIs(raw, contract, tenant, platform);
    } else {
      RepeatedCursor(contract, tenant, raw, platform);
    }
  }

  lemma RepeatedCursor(contract: Contract, tenant: Tenant, raw: seq<Parameter>, platform: Platform)
    requires !Single(raw, CURSOR)
    ensures CursorProblem(contract, tenant, raw, platform) == Some(INVALID_REQUEST)
  {
  }

  /** What an accepted request asks for. */
  lemma QuerySays(contract: Contract, raw: seq<Parameter>, platform: Platform)
    requires Single(raw, PAGE_SIZE) && Single(raw, FIELDS) && Single(raw, CURSOR)
    requires PageSizeProblem(contract, raw, platform).None?
    ensures var f := FiltersOf(raw);
            forall text :: (f.eventId == Some(text) <==> Gives(raw, EVENT_ID, Once(text)))
                        && (f.venueId == Some(text) <==> Gives(raw, VENUE_ID, Once(text)))
                        && (f.eventDateFrom == Some(text) <==> Gives(raw, EVENT_DATE_FROM, Once(text)))
                        && (f.eventDateTo == Some(text) <==> Gives(raw, EVENT_DATE_TO, Once(text)))
                        && (f.updatedSince == Some(text) <==> Gives(raw, UPDATED_SINCE, Once(text)))
    ensures if Absent(raw, PAGE_SIZE) then PageSizeOf(contract, raw, platform) == contract.defaultPageSize
            else exists text :: Gives(raw, PAGE_SIZE, Once(text))
                                && platform.integer(text) == Some(PageSizeOf(contract, raw, platform))
    ensures forall fields :: QueryPolicy.FieldsOf(raw) == Some(fields) <==>
                             exists text :: GivesText(raw, FIELDS, text) && Lists(text, fields)
    ensures forall c :: CursorOf(raw, platform) == Some(c) <==>
                        exists text :: GivesText(raw, CURSOR, text)
                                       && DecodeCursor(text, platform.mac, platform.buffer) == Some(c)
  {
    hide Given, Gives, GivesText, Lists, TrimAll, SplitComma, DecodeCursor;
    GivenIs(raw, EVENT_ID);
    GivenIs(raw, VENUE_ID);
    GivenIs(raw, EVENT_DATE_FROM);
    GivenIs(raw, EVENT_DATE_TO);
    GivenIs(raw, UPDATED_SINCE);
    GivenIs(raw, PAGE_SIZE);
    GivenIs(raw, FIELDS);
    GivenIs(raw, CURSOR);
    GivenOrAbsent(raw, PAGE_SIZE);
    if Truthy(Given(raw, FIELDS)) {
      forall fields {
        ListsIs(Given(raw, FIELDS).value, fields);
      }
    }
  }

  lemma GivenOrAbsent(raw: seq<Parameter>, name: Text)
    requires Single(raw, name)
    ensures Absent(raw, name) <==> Given(raw, name).None?
  {
    hide Lookup, Gives, Absent;
    LookupIs(raw, name);
  }

  // ------------------------------------------------------------ the fingerprint and the cursor

  ghost predicate IsEntry(f: Filters, e: LastValue) {
    || (e.field == EVENT_DATE_FROM_KEY && f.eventDateFrom == Some(e.value))
    || (e.field == EVENT_DATE_TO_KEY && f.eventDateTo == Some(e.value))
    || (e.field == EVENT_ID_KEY && f.eventId == Some(e.value))
    || (e.field == UPDATED_SINCE_KEY && f.updatedSince == Some(e.value))
    || (e.field == VENUE_ID_KEY && f.venueId == Some(e.value))
  }

  /** A fingerprint is taken of the given filters, as pairs of texts. */
  lemma FingerprintOf(f: Filters, hash: Text -> Text)
    ensures var entries := SortedEntries(f);
            && FilterFingerprint(f, hash) == hash(Stringify(Arr(EntriesJson(entries))))
            && forall e :: e in entries <==> IsEntry(f, e)
  {
    hide Stringify, EntriesJson;
  }

  /** In the order of their names. */
  lemma EntriesInOrder(f: Filters)
    ensures var entries := SortedEntries(f);
            forall i, j :: 0 <= i < j < |entries| ==> CanonicalJson.Less(entries[i].field, entries[j].field)
  {
    hide CanonicalJson.Less;
    KeysOrder();
  }

  /** The first difference decides. */
  lemma {:induction false} LessFrom(s: Text, t: Text, i: nat)
    requires i < |s| && i < |t| && s[..i] == t[..i] && s[i] < t[i]
    ensures CanonicalJson.Less(s, t)
  {
    if i > 0 {
      assert s[0] == s[..i][0] && t[0] == t[..i][0];
      assert s[1..][..i - 1] == s[..i][1..] && t[1..][..i - 1] == t[..i][1..];
      LessFrom(s[1..], t[1..], i - 1);
    }
  }

  lemma KeysOrder()
    ensures CanonicalJson.Less(EVENT_DATE_FROM_KEY, EVENT_DATE_TO_KEY)
    ensures CanonicalJson.Less(EVENT_DATE_FROM_KEY, EVENT_ID_KEY) && CanonicalJson.Less(EVENT_DATE_TO_KEY, EVENT_ID_KEY)
    ensures forall k :: k in {EVENT_DATE_FROM_KEY, EVENT_DATE_TO_KEY, EVENT_ID_KEY} ==>
                          CanonicalJson.Less(k, UPDATED_SINCE_KEY) && CanonicalJson.Less(k, VENUE_ID_KEY)
    ensures CanonicalJson.Less(UPDATED_SINCE_KEY, VENUE_ID_KEY)
  {
    hide CanonicalJson.Less;
    LessFrom(EVENT_DATE_FROM_KEY, EVENT_DATE_TO_KEY, 9);
    LessFrom(EVENT_DATE_FROM_KEY, EVENT_ID_KEY, 5);
    LessFrom(EVENT_DATE_TO_KEY, EVENT_ID_KEY, 5);
    LessFrom(UPDATED_SINCE_KEY, VENUE_ID_KEY, 0);
    forall k | k in {EVENT_DATE_FROM_KEY, EVENT_DATE_TO_KEY, EVENT_ID_KEY}
      ensures CanonicalJson.Less(k, UPDATED_SINCE_KEY) && CanonicalJson.Less(k, VENUE_ID_KEY)
    {
      LessFrom(k, UPDATED_SINCE_KEY, 0);
      LessFrom(k, VENUE_ID_KEY, 0);
    }
  }

  lemma {:induction false} SplitsAt(t: Text)
    ensures match SplitDot(t)
            case Some((a, b)) => t == a + [46] + b && 46 !in a && 46 !in b
            case None => forall a, b :: 46 !in a && 46 !in b ==> t != a + [46] + b
  {
    if t != [] {
      SplitsAt(t[1..]);
      if t[0] == 46 {
        forall a, b | 46 !in a && 46 !in b && t == a + [46] + b ensures t[1..] == b {
          assert a == [] by {
            assert t[0] == (a + [46] + b)[0];
          }
        }
      } else if SplitDot(t[1..]).Some? {
        var (a, b) := SplitDot(t[1..]).value;
        assert [t[0]] + a + [46] + b == t;
      } else {
        forall a, b | 46 !in a && 46 !in b ensures t != a + [46] + b {
          if a != [] {
            assert (a + [46] + b)[1..] == a[1..] + [46] + b;
          } else {
            assert (a + [46] + b)[0] == 46;
          }
        }
      }
    }
  }

  ghost predicate Carries(v: Value, d: Decoded) {
    v.VObj?
    && var m := v.fields;
       && Has(m, ORGANIZATION_ID, VStr(d.organizationId)) && Has(m, TENANT_ID, VStr(d.tenantId))
       && Has(m, PRODUCT_ID, VStr(d.productId)) && Has(m, PRODUCT_VERSION, VStr(d.productVersion))
       && Has(m, SORT, VArr(d.sort)) && Has(m, FILTER_FINGERPRINT, VStr(d.filterFingerprint))
       && Has(m, LAST_VALUES, d.lastValues) && !d.lastValues.VStr? && !d.lastValues.VNum? && !d.lastValues.VBool?
  }

  lemma PayloadSays(v: Value, d: Decoded)
    ensures ReadPayload(v) == Some(d) <==> Carries(v, d)
  {
  }

  ghost predicate SignedBy(raw: Text, a: Text, b: Text, mac: Text -> Bytes, buffer: Buffer) {
    raw == a + [46] + b && 46 !in a && 46 !in b && Utf8(b) == Utf8(Base64Url(mac(PayloadText(a, buffer))))
  }

  /** A cursor is taken for what it says exactly when it is two parts at one dot, the second
      signs the text in the first, and that is JSON with all seven members of their kinds. */
  lemma DecodeSays(raw: Text, mac: Text -> Bytes, buffer: Buffer, d: Decoded)
    ensures DecodeCursor(raw, mac, buffer) == Some(d) <==>
            exists a, b :: SignedBy(raw, a, b, mac, buffer) && Parse(PayloadText(a, buffer)).Some?
                           && Carries(Parse(PayloadText(a, buffer)).value, d)
  {
    hide Utf8, Base64Url, PayloadText, Parse, ReadPayload, Carries, SplitDot;
    SplitsAt(raw);
    forall v {
      PayloadSays(v, d);
    }
    forall a, b | SignedBy(raw, a, b, mac, buffer) ensures SplitDot(raw) == Some((a, b)) {
      SplitOnce(a, b);
    }
    if DecodeCursor(raw, mac, buffer) == Some(d) {
      var (a, b) := SplitDot(raw).value;
      assert SignedBy(raw, a, b, mac, buffer);
    }
  }
}
