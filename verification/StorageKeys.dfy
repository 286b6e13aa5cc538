/** data-exchange-service/src/storage/storage-path-builder.ts: the object keys, and why
    two of them are never the same by accident. */
module StorageKeys {
  import Civil
  import Decimal

  predicate SlashFree(s: string) { '/' !in s }

  /** yyyy/mm/dd of the UTC date of an instant. */
  function DatePath(date: int): string {
    var d := Civil.DatePart(Civil.UtcToWall(date));
    Decimal.Text(d.year) + "/" + Decimal.Padded(d.month) + "/" + Decimal.Padded(d.day)
  }

  function BuildInboundDataKey(organizationId: string, tenantId: string, exchangeId: string, filename: string,
                               date: int): string {
    "organizations/" + organizationId + "/tenants/" + tenantId + "/uploads/" + DatePath(date) + "/" + exchangeId
    + "/data/" + filename
  }

  function BuildInboundMetadataKey(organizationId: string, tenantId: string, exchangeId: string, filename: string,
                                   date: int): string {
    "organizations/" + organizationId + "/tenants/" + tenantId + "/uploads/" + DatePath(date) + "/" + exchangeId
    + "/metadata/" + filename
  }

  function BuildOutboundDataKey(organizationId: string, tenantId: string, exchangeId: string, filename: string,
                                date: int): string {
    "organizations/" + organizationId + "/tenants/" + tenantId + "/downloads/" + DatePath(date) + "/" + exchangeId
    + "/data/" + filename
  }

  function BuildOutboundMetadataKey(organizationId: string, tenantId: string, exchangeId: string, filename: string,
                                    date: int): string {
    "organizations/" + organizationId + "/tenants/" + tenantId + "/downloads/" + DatePath(date) + "/" + exchangeId
    + "/metadata/" + filename
  }

  datatype Side = UPLOADS | DOWNLOADS

  datatype Kind = DATA | METADATA

  /** What a key is made from. */
  datatype Origin = Origin(side: Side, kind: Kind, organizationId: string, tenantId: string, exchangeId: string,
                           filename: string, date: int)

  function Key(o: Origin): string {
    match (o.side, o.kind)
    case (UPLOADS, DATA) => BuildInboundDataKey(o.organizationId, o.tenantId, o.exchangeId, o.filename, o.date)
    case (UPLOADS, METADATA) => BuildInboundMetadataKey(o.organizationId, o.tenantId, o.exchangeId, o.filename, o.date)
    case (DOWNLOADS, DATA) => BuildOutboundDataKey(o.organizationId, o.tenantId, o.exchangeId, o.filename, o.date)
    case (DOWNLOADS, METADATA) =>
      BuildOutboundMetadataKey(o.organizationId, o.tenantId, o.exchangeId, o.filename, o.date)
  }

  predicate Plain(o: Origin) { SlashFree(o.organizationId) && SlashFree(o.tenantId) && SlashFree(o.exchangeId) }

  // ------------------------------------------------------------ segments

  function Join(segments: seq<string>, last: string): string {
    if segments == [] then last else segments[0] + "/" + Join(segments[1..], last)
  }

  /** The first slash ends the first segment. */
  lemma FirstSegment(a: string, b: string, s: string, t: string)
    requires SlashFree(a) && SlashFree(b) && a + "/" + s == b + "/" + t
    ensures a == b && s == t
  {
    var u, v := a + "/" + s, b + "/" + t;
    assert u[|a|] == '/' && v[|b|] == '/';
    assert forall i :: 0 <= i < |a| ==> u[i] == a[i];
    assert forall i :: 0 <= i < |b| ==> v[i] == b[i];
    assert |a| == |b|;
    assert u[..|a|] == a && v[..|b|] == b;
    assert u[|a| + 1..] == s && v[|b| + 1..] == t;
  }

  lemma {:induction false} JoinIdentifies(p: seq<string>, q: seq<string>, s: string, t: string)
    requires |p| == |q| && Join(p, s) == Join(q, t)
    requires (forall i :: 0 <= i < |p| ==> SlashFree(p[i])) && forall i :: 0 <= i < |q| ==> SlashFree(q[i])
    ensures p == q && s == t
  {
    if p != [] {
      FirstSegment(p[0], q[0], Join(p[1..], s), Join(q[1..], t));
      JoinIdentifies(p[1..], q[1..], s, t);
      assert p == [p[0]] + p[1..] && q == [q[0]] + q[1..];
    }
  }

  function SideName(side: Side): string { if side.UPLOADS? then "uploads" else "downloads" }

  function KindName(kind: Kind): string { if kind.DATA? then "data" else "metadata" }

  function Segments(o: Origin): seq<string> {
    var d := Civil.DatePart(Civil.UtcToWall(o.date));
    ["organizations", o.organizationId, "tenants", o.tenantId, SideName(o.side),
     Decimal.Text(d.year), Decimal.Padded(d.month), Decimal.Padded(d.day), o.exchangeId, KindName(o.kind)]
  }

  /** A slash-delimited literal spelled out, and a date path. */
  lemma Literal(p: string, name: string)
    ensures p + ("/" + name + "/") == p + "/" + name + "/"
  {
  }

  lemma Dated(p: string, y: string, m: string, d: string)
    ensures p + (y + "/" + m + "/" + d) == p + y + "/" + m + "/" + d
  {
  }

  lemma JoinTen(s0: string, s1: string, s2: string, s3: string, s4: string,
                s5: string, s6: string, s7: string, s8: string, s9: string, last: string)
    ensures Join([s0, s1, s2, s3, s4, s5, s6, s7, s8, s9], last)
            == s0 + "/" + s1 + "/" + s2 + "/" + s3 + "/" + s4 + "/" + s5 + "/" + s6 + "/" + s7 + "/" + s8 + "/" + s9
               + "/" + last
  {
    JoinFive(s5, s6, s7, s8, s9, last);
    JoinFive(s0, s1, s2, s3, s4, Join([s5, s6, s7, s8, s9], last));
    JoinAppend([s0, s1, s2, s3, s4], [s5, s6, s7, s8, s9], last);
    assert [s0, s1, s2, s3, s4] + [s5, s6, s7, s8, s9] == [s0, s1, s2, s3, s4, s5, s6, s7, s8, s9];
  }

  lemma {:induction false} JoinAppend(p: seq<string>, q: seq<string>, last: string)
    ensures Join(p + q, last) == Join(p, Join(q, last))
  {
    if p == [] {
      assert p + q == q;
    } else {
      JoinAppend(p[1..], q, last);
      assert (p + q)[1..] == p[1..] + q;
    }
  }

  lemma JoinFive(s0: string, s1: string, s2: string, s3: string, s4: string, last: string)
    ensures Join([s0, s1, s2, s3, s4], last) == s0 + "/" + s1 + "/" + s2 + "/" + s3 + "/" + s4 + "/" + last
  {
    var all := [s0, s1, s2, s3, s4];
    assert all[1..] == [s1, s2, s3, s4] && all[1..][1..] == [s2, s3, s4] && all[1..][1..][1..] == [s3, s4]
           && all[1..][1..][1..][1..] == [s4] && all[1..][1..][1..][1..][1..] == [];
    assert Join([s4], last) == s4 + "/" + last;
    assert Join([s3, s4], last) == s3 + "/" + (s4 + "/" + last);
    assert Join([s2, s3, s4], last) == s2 + "/" + (s3 + "/" + (s4 + "/" + last));
  }

  lemma SegmentsSlashFree(o: Origin)
    requires Plain(o)
    ensures forall i :: 0 <= i < |Segments(o)| ==> SlashFree(Segments(o)[i])
  {
    hide Civil.UtcToWall, Decimal.Digits;
  }

  lemma Spelled(o: Origin, side: string, kind: string)
    requires side == "/" + SideName(o.side) + "/" && kind == "/" + KindName(o.kind) + "/"
    ensures "organizations/" + o.organizationId + "/tenants/" + o.tenantId + side + DatePath(o.date) + "/"
            + o.exchangeId + kind + o.filename
            == Join(Segments(o), o.filename)
  {
    hide Civil.UtcToWall, Decimal.Text, Decimal.Padded, Join, SideName, KindName;
    var d := Civil.DatePart(Civil.UtcToWall(o.date));
    var y, m, n := Decimal.Text(d.year), Decimal.Padded(d.month), Decimal.Padded(d.day);
    assert "organizations/" == "organizations" + "/" && "/tenants/" == "/" + "tenants" + "/";
    var p1 := "organizations/" + o.organizationId;
    Literal(p1, "tenants");
    var p2 := p1 + "/tenants/" + o.tenantId;
    Literal(p2, SideName(o.side));
    Dated(p2 + side, y, m, n);
    var p3 := p2 + side + DatePath(o.date) + "/" + o.exchangeId;
    Literal(p3, KindName(o.kind));
    JoinTen("organizations", o.organizationId, "tenants", o.tenantId, SideName(o.side), y, m, n,
            o.exchangeId, KindName(o.kind), o.filename);
  }

  /** A key is its ten segments and the filename, joined. */
  lemma KeyIsJoin(o: Origin)
    ensures Key(o) == Join(Segments(o), o.filename)
  {
    hide DatePath, Join, Segments;
    var side := if o.side.UPLOADS? then "/uploads/" else "/downloads/";
    var kind := if o.kind.DATA? then "/data/" else "/metadata/";
    assert side == "/" + SideName(o.side) + "/";
    assert kind == "/" + KindName(o.kind) + "/";
    Spelled(o, side, kind);
  }

  /** Two keys are equal exactly when everything in them is, the dates up to the UTC day:
      the four builders are injective and never produce the same key. */
  lemma KeysIdentify(a: Origin, b: Origin)
    requires Plain(a) && Plain(b)
    ensures Key(a) == Key(b) <==> a.(date := b.date) == b && a.date / Civil.DAY == b.date / Civil.DAY
  {
    hide Key, Civil.UtcToWall, Join, Decimal.Text, Decimal.Padded;
    KeyIsJoin(a);
    KeyIsJoin(b);
    var d, e := Civil.DatePart(Civil.UtcToWall(a.date)), Civil.DatePart(Civil.UtcToWall(b.date));
    if Key(a) == Key(b) {
      SegmentsSlashFree(a);
      SegmentsSlashFree(b);
      JoinIdentifies(Segments(a), Segments(b), a.filename, b.filename);
      var p, q := Segments(a), Segments(b);
      assert p[1] == q[1] && p[3] == q[3] && p[4] == q[4] && p[8] == q[8] && p[9] == q[9];
      assert p[5] == q[5] && p[6] == q[6] && p[7] == q[7];
      Decimal.TextIdentifies(d.year, e.year);
      Decimal.PaddedIdentifies(d.month, e.month);
      Decimal.PaddedIdentifies(d.day, e.day);
      NamesDiffer();
    }
    if a.date / Civil.DAY == b.date / Civil.DAY {
      SameDay(a.date, b.date);
    }
  }

  lemma NamesDiffer()
    ensures SideName(UPLOADS) != SideName(DOWNLOADS) && KindName(DATA) != KindName(METADATA)
  {
    assert |SideName(UPLOADS)| != |SideName(DOWNLOADS)| && |KindName(DATA)| != |KindName(METADATA)|;
  }

  lemma SameDay(s: int, t: int)
    requires s / Civil.DAY == t / Civil.DAY
    ensures Civil.DatePart(Civil.UtcToWall(s)) == Civil.DatePart(Civil.UtcToWall(t))
  {
  }
}
