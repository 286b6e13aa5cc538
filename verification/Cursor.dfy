/** data-product-api-service/src/domain/cursor.ts: the signed pagination cursor, and when a
    request accepts one (contract-policy.ts:119-138). */
module Cursor {
  import opened Options
  import opened Json
  import opened Encoding

  datatype LastValue = LastValue(field: Text, value: Text)

  datatype Payload = Payload(
    organizationId: Text, tenantId: Text, productId: Text, productVersion: Text,
    sort: seq<Text>, filterFingerprint: Text, lastValues: seq<LastValue>)

  /** A payload as JSON.parse returns it and the shape check lets it through. */
  datatype Decoded = Decoded(
    organizationId: Text, tenantId: Text, productId: Text, productVersion: Text,
    sort: seq<Value>, filterFingerprint: Text, lastValues: Value)

  const ORGANIZATION_ID: Text := [111, 114, 103, 97, 110, 105, 122, 97, 116, 105, 111, 110, 73, 100]
  const TENANT_ID: Text := [116, 101, 110, 97, 110, 116, 73, 100]
  const PRODUCT_ID: Text := [112, 114, 111, 100, 117, 99, 116, 73, 100]
  const PRODUCT_VERSION: Text := [112, 114, 111, 100, 117, 99, 116, 86, 101, 114, 115, 105, 111, 110]
  const SORT: Text := [115, 111, 114, 116]
  const FILTER_FINGERPRINT: Text := [102, 105, 108, 116, 101, 114, 70, 105, 110, 103, 101, 114, 112, 114, 105, 110, 116]
  const LAST_VALUES: Text := [108, 97, 115, 116, 86, 97, 108, 117, 101, 115]

  function Strs(ts: seq<Text>): (js: seq<Json>)
    ensures |js| == |ts| && forall i :: 0 <= i < |ts| ==> js[i] == Str(ts[i])
  {
    if ts == [] then [] else [Str(ts[0])] + Strs(ts[1..])
  }

  function Values(ts: seq<Text>): (vs: seq<Value>)
    ensures |vs| == |ts| && forall i :: 0 <= i < |ts| ==> vs[i] == VStr(ts[i])
  {
    if ts == [] then [] else [VStr(ts[0])] + Values(ts[1..])
  }

  function LastMembers(lasts: seq<LastValue>): (ms: seq<Member>)
    ensures |ms| == |lasts| && forall i :: 0 <= i < |ms| ==> ms[i].value.Str?
  {
    if lasts == [] then [] else [Member(lasts[0].field, Str(lasts[0].value))] + LastMembers(lasts[1..])
  }

  function ToJson(p: Payload): Json {
    Obj([Member(ORGANIZATION_ID, Str(p.organizationId)), Member(TENANT_ID, Str(p.tenantId)),
         Member(PRODUCT_ID, Str(p.productId)), Member(PRODUCT_VERSION, Str(p.productVersion)),
         Member(SORT, Arr(Strs(p.sort))), Member(FILTER_FINGERPRINT, Str(p.filterFingerprint)),
         Member(LAST_VALUES, Obj(LastMembers(p.lastValues)))])
  }

  function Text_(m: map<Text, Value>, key: Text): Option<Text> {
    if key in m && m[key].VStr? then Some(m[key].s) else None
  }

  /** The shape check: null and arrays are objects too, elements are not looked at. */
  function ReadPayload(v: Value): Option<Decoded> {
    if !v.VObj? then None
    else
      var m := v.fields;
      var organizationId, tenantId, productId := Text_(m, ORGANIZATION_ID), Text_(m, TENANT_ID), Text_(m, PRODUCT_ID);
      var productVersion, fingerprint := Text_(m, PRODUCT_VERSION), Text_(m, FILTER_FINGERPRINT);
      if organizationId.Some? && tenantId.Some? && productId.Some? && productVersion.Some? && fingerprint.Some?
         && SORT in m && m[SORT].VArr?
         && LAST_VALUES in m && (m[LAST_VALUES].VObj? || m[LAST_VALUES].VArr? || m[LAST_VALUES].VNull?)
      then Some(Decoded(organizationId.value, tenantId.value, productId.value, productVersion.value,
                        m[SORT].elements, fingerprint.value, m[LAST_VALUES]))
      else None
  }

  function Meant(p: Payload): Decoded {
    Decoded(p.organizationId, p.tenantId, p.productId, p.productVersion, Values(p.sort), p.filterFingerprint,
            Denote(Obj(LastMembers(p.lastValues))))
  }

  // ------------------------------------------------------------ encode and decode

  /** HMAC-SHA-256 under one secret is the parameter `mac`. */
  function Sign(payloadJson: Text, mac: Text -> Bytes): Text { Base64Url(mac(payloadJson)) }

  function EncodeCursor(p: Payload, mac: Text -> Bytes): Text {
    var payloadJson := Stringify(ToJson(p));
    Base64Url(Utf8(payloadJson)) + [46] + Sign(payloadJson, mac)
  }

  /** What Buffer does outside the alphabet and outside valid UTF-8. */
  datatype Buffer = Buffer(lenient: Text -> Bytes, lossy: Bytes -> Text)

  /** split(".") into exactly two parts. */
  function SplitDot(t: Text): Option<(Text, Text)> {
    if t == [] then None
    else if t[0] == 46 then if 46 in t[1..] then None else Some(([], t[1..]))
    else match SplitDot(t[1..])
      case Some((a, b)) => Some(([t[0]] + a, b))
      case None => None
  }

  function PayloadText(payloadB64: Text, buffer: Buffer): Text {
    var bytes := match FromBase64Url(payloadB64) case Some(b) => b case None => buffer.lenient(payloadB64);
    match FromUtf8(bytes) case Some(t) => t case None => buffer.lossy(bytes)
  }

  function DecodeCursor(raw: Text, mac: Text -> Bytes, buffer: Buffer): Option<Decoded> {
    match SplitDot(raw)
    case None => None
    case Some((payloadB64, signature)) =>
      var payloadJson := PayloadText(payloadB64, buffer);
      if Utf8(signature) != Utf8(Sign(payloadJson, mac)) then None
      else match Parse(payloadJson)
        case Some(v) => ReadPayload(v)
        case None => None
  }

  // ------------------------------------------------------------ round trip

  lemma {:induction false} PairedAppend(a: Text, b: Text)
    requires Paired(a) && Paired(b)
    ensures Paired(a + b)
  {
    if a == [] {
      assert a + b == b;
    } else if |a| >= 2 && IsHigh(a[0]) && IsLow(a[1]) && Paired(a[2..]) {
      PairedAppend(a[2..], b);
      assert (a + b)[2..] == a[2..] + b;
    } else {
      PairedAppend(a[1..], b);
      assert (a + b)[1..] == a[1..] + b;
    }
  }

  lemma {:induction false} AsciiPaired(t: Text)
    requires Ascii(t)
    ensures Paired(t)
  {
    if t != [] {
      AsciiPaired(t[1..]);
    }
  }

  lemma EscapePaired(c: Unit)
    ensures Paired(QuoteUnit(c))
  {
    hide Paired;
    if c < 32 || IsHigh(c) || IsLow(c) || c == 34 || c == 92 {
      assert Ascii(QuoteUnit(c));
      AsciiPaired(QuoteUnit(c));
    } else {
      OnePaired(c);
    }
  }

  lemma OnePaired(c: Unit)
    requires !IsHigh(c) && !IsLow(c)
    ensures Paired([c])
  {
    assert Paired([c][1..]);
  }

  /** JSON.stringify escapes lone surrogates, so its text has none. */
  lemma {:induction false} QuotePaired(s: Text)
    ensures Paired(QuoteUnits(s))
    decreases |s|
  {
    hide QuoteUnit;
    if s == [] {
    } else if |s| >= 2 && IsHigh(s[0]) && IsLow(s[1]) {
      QuotePaired(s[2..]);
      assert Paired(s[..2]) by { assert s[..2][2..] == []; }
      PairedAppend(s[..2], QuoteUnits(s[2..]));
    } else {
      QuotePaired(s[1..]);
      EscapePaired(s[0]);
      PairedAppend(QuoteUnit(s[0]), QuoteUnits(s[1..]));
    }
  }

  lemma QuotedPaired(s: Text)
    ensures Paired(Quote(s))
  {
    hide QuoteUnits;
    QuotePaired(s);
    AsciiPaired([34]);
    PairedAppend(QuoteUnits(s), [34]);
    PairedAppend([34], QuoteUnits(s) + [34]);
  }

  lemma {:induction false} StringifyPaired(j: Json)
    requires WellFormed(j)
    ensures Paired(Stringify(j))
    decreases j, 1
  {
    hide Paired, Quote, Elements, Members;
    match j
    case Str(s) => QuotedPaired(s);
    case Arr(xs) =>
      ElementsPaired(xs, true);
      AsciiPaired([91]);
      AsciiPaired([93]);
      PairedAppend(Elements(xs, true), [93]);
      PairedAppend([91], Elements(xs, true) + [93]);
    case Obj(ms) =>
      MembersPaired(ms, true);
      AsciiPaired([123]);
      AsciiPaired([125]);
      PairedAppend(Members(ms, true), [125]);
      PairedAppend([123], Members(ms, true) + [125]);
    case _ => AsciiPaired(Stringify(j));
  }

  lemma {:induction false} ElementsPaired(xs: seq<Json>, first: bool)
    requires forall i :: 0 <= i < |xs| ==> WellFormed(xs[i])
    ensures Paired(Elements(xs, first))
    decreases xs, 0
  {
    hide Paired, Stringify;
    AsciiPaired([]);
    if xs != [] {
      StringifyPaired(xs[0]);
      ElementsPaired(xs[1..], false);
      PairedAppend(Stringify(xs[0]), Elements(xs[1..], false));
      AsciiPaired(if first then [] else [44]);
      PairedAppend(if first then [] else [44], Stringify(xs[0]) + Elements(xs[1..], false));
    }
  }

  lemma {:induction false} MembersPaired(ms: seq<Member>, first: bool)
    requires forall i :: 0 <= i < |ms| ==> WellFormed(ms[i].value)
    ensures Paired(Members(ms, first))
    decreases ms, 0
  {
    hide Paired, Stringify, Quote;
    AsciiPaired([]);
    if ms != [] && ms[0].value.Undefined? {
      MembersPaired(ms[1..], first);
    } else if ms != [] {
      StringifyPaired(ms[0].value);
      MembersPaired(ms[1..], false);
      QuotedPaired(ms[0].key);
      AsciiPaired([58]);
      var sep := if first then [] else [44];
      var value := Stringify(ms[0].value) + Members(ms[1..], false);
      PairedAppend(Stringify(ms[0].value), Members(ms[1..], false));
      PairedAppend([58], value);
      PairedAppend(Quote(ms[0].key), [58] + value);
      AsciiPaired(sep);
      PairedAppend(sep, Quote(ms[0].key) + ([58] + value));
    }
  }

  lemma {:induction false} SplitOnce(a: Text, b: Text)
    requires 46 !in a && 46 !in b
    ensures SplitDot(a + [46] + b) == Some((a, b))
  {
    var t := a + [46] + b;
    if a == [] {
      assert t[1..] == b;
    } else {
      assert t[1..] == a[1..] + [46] + b;
      SplitOnce(a[1..], b);
      assert a == [a[0]] + a[1..];
    }
  }

  lemma {:induction false} StrsMean(ts: seq<Text>)
    ensures DenoteAll(Strs(ts)) == Values(ts)
  {
    if ts != [] {
      StrsMean(ts[1..]);
      assert Strs(ts)[1..] == Strs(ts[1..]);
    }
  }

  lemma ToJsonWellFormed(p: Payload)
    ensures WellFormed(ToJson(p))
  {
  }

  predicate Distinct(keys: seq<Text>) { forall i, j :: 0 <= i < j < |keys| ==> keys[i] != keys[j] }

  lemma KeysDistinct()
    ensures Distinct([ORGANIZATION_ID, TENANT_ID, PRODUCT_ID, PRODUCT_VERSION, SORT, FILTER_FINGERPRINT, LAST_VALUES])
  {
    assert |ORGANIZATION_ID| == 14 && |TENANT_ID| == 8 && |PRODUCT_ID| == 9 && |PRODUCT_VERSION| == 14
           && |SORT| == 4 && |FILTER_FINGERPRINT| == 17 && |LAST_VALUES| == 10;
    assert ORGANIZATION_ID[0] != PRODUCT_VERSION[0];
  }

  /** Members under distinct keys keep their values. */
  lemma {:induction false} FieldsOf(ms: seq<Member>, i: nat)
    requires i < |ms| && (forall k :: 0 <= k < |ms| ==> !ms[k].value.Undefined?)
    requires forall k, l :: 0 <= k < l < |ms| ==> ms[k].key != ms[l].key
    ensures ms[i].key in DenoteMembers(ms) && DenoteMembers(ms)[ms[i].key] == Denote(ms[i].value)
    ensures forall key :: key in DenoteMembers(ms) ==> exists k :: 0 <= k < |ms| && ms[k].key == key
  {
    if |ms| > 1 {
      FieldsOf(ms[1..], if i == 0 then 0 else i - 1);
    }
    assert ms[0].key !in DenoteMembers(ms[1..]);
  }

  lemma PayloadFields(p: Payload, i: nat)
    requires i < |ToJson(p).members|
    ensures var m, member := DenoteMembers(ToJson(p).members), ToJson(p).members[i];
            member.key in m && m[member.key] == Denote(member.value)
  {
    hide DenoteMembers, Denote;
    var ms := ToJson(p).members;
    KeysDistinct();
    var keys := [ORGANIZATION_ID, TENANT_ID, PRODUCT_ID, PRODUCT_VERSION, SORT, FILTER_FINGERPRINT, LAST_VALUES];
    assert forall k :: 0 <= k < |ms| ==> ms[k].key == keys[k];
    FieldsOf(ms, i);
  }

  predicate Has(m: map<Text, Value>, key: Text, value: Value) { key in m && m[key] == value }

  lemma ReadsBack(m: map<Text, Value>, d: Decoded)
    requires Has(m, ORGANIZATION_ID, VStr(d.organizationId)) && Has(m, TENANT_ID, VStr(d.tenantId))
    requires Has(m, PRODUCT_ID, VStr(d.productId)) && Has(m, PRODUCT_VERSION, VStr(d.productVersion))
    requires Has(m, SORT, VArr(d.sort)) && Has(m, FILTER_FINGERPRINT, VStr(d.filterFingerprint))
    requires Has(m, LAST_VALUES, d.lastValues) && d.lastValues.VObj?
    ensures ReadPayload(VObj(m)) == Some(d)
  {
  }

  /** The payload read off the parsed object is the one that was written. */
  lemma ShapePasses(p: Payload)
    ensures ReadPayload(Denote(ToJson(p))) == Some(Meant(p))
  {
    hide DenoteMembers, Distinct, ReadPayload;
    StrsMean(p.sort);
    var m := DenoteMembers(ToJson(p).members);
    PayloadFields(p, 0);
    PayloadFields(p, 1);
    PayloadFields(p, 2);
    PayloadFields(p, 3);
    PayloadFields(p, 4);
    PayloadFields(p, 5);
    PayloadFields(p, 6);
    ReadsBack(m, Meant(p));
  }

  /** The text inside an encoded cursor. */
  lemma CursorText(p: Payload, mac: Text -> Bytes, buffer: Buffer)
    ensures var payloadJson := Stringify(ToJson(p));
            && SplitDot(EncodeCursor(p, mac)) == Some((Base64Url(Utf8(payloadJson)), Sign(payloadJson, mac)))
            && PayloadText(Base64Url(Utf8(payloadJson)), buffer) == payloadJson
  {
    hide Stringify, ToJson, Base64Url, Utf8, FromUtf8, FromBase64Url, Paired;
    var payloadJson := Stringify(ToJson(p));
    ToJsonWellFormed(p);
    StringifyPaired(ToJson(p));
    Utf8RoundTrip(payloadJson);
    Base64UrlRoundTrip(Utf8(payloadJson));
    Base64UrlRoundTrip(mac(payloadJson));
    SplitOnce(Base64Url(Utf8(payloadJson)), Sign(payloadJson, mac));
  }

  /** Decoding under a secret accepts a cursor exactly when that secret signs its payload the
      same, and then gives back what was encoded: always so for the secret that signed it. */
  lemma DecodeInvertsEncode(p: Payload, mac: Text -> Bytes, other: Text -> Bytes, buffer: Buffer)
    ensures DecodeCursor(EncodeCursor(p, mac), mac, buffer) == Some(Meant(p))
    ensures DecodeCursor(EncodeCursor(p, mac), other, buffer)
            == if mac(Stringify(ToJson(p))) == other(Stringify(ToJson(p))) then Some(Meant(p)) else None
  {
    hide Stringify, ToJson, Base64Url, Utf8, FromUtf8, FromBase64Url, SplitDot, EncodeCursor, PayloadText, Parse,
         ReadPayload, Meant;
    var payloadJson := Stringify(ToJson(p));
    CursorText(p, mac, buffer);
    ToJsonWellFormed(p);
    ParseStringify(ToJson(p));
    ShapePasses(p);
    Base64UrlRoundTrip(mac(payloadJson));
    Base64UrlRoundTrip(other(payloadJson));
    if Utf8(Sign(payloadJson, mac)) == Utf8(Sign(payloadJson, other)) {
      AsciiExact(Sign(payloadJson, mac), Sign(payloadJson, other));
    }
  }
}
