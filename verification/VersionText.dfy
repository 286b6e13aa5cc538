/** Version strings as the catalog reads them: data-product-catalog-service's
    semver.ts, and the ORDER BY of findLatestVersion over the stored text. */
module VersionText {
  import opened Options
  import Decimal

  datatype SemVer = SemVer(major: nat, minor: nat, patch: nat)

  /** White space as String.prototype.trim drops it. */
  predicate IsSpace(c: char) {
    c in {' ', '\t', '\n', '\r', '\U{000b}', '\U{000c}', '\U{00a0}', '\U{1680}', '\U{2028}', '\U{2029}',
          '\U{202f}', '\U{205f}', '\U{3000}', '\U{feff}'}
    || '\U{2000}' <= c <= '\U{200a}'
  }

  function TrimStart(s: string): string {
    if s != [] && IsSpace(s[0]) then TrimStart(s[1..]) else s
  }

  function TrimEnd(s: string): string {
    if s != [] && IsSpace(s[|s| - 1]) then TrimEnd(s[..|s| - 1]) else s
  }

  function Trim(s: string): string { TrimEnd(TrimStart(s)) }

  predicate IsDigit(c: char) { '0' <= c <= '9' }

  /** How many digits `s` starts with. */
  function DigitRun(s: string): (n: nat)
    ensures n <= |s|
  {
    if s != [] && IsDigit(s[0]) then 1 + DigitRun(s[1..]) else 0
  }

  function Number(s: string): nat
    requires forall i :: 0 <= i < |s| ==> IsDigit(s[i])
  {
    if s == [] then 0
    else
      assert IsDigit(s[|s| - 1]);
      Number(s[..|s| - 1]) * 10 + (s[|s| - 1] as int - '0' as int)
  }

  lemma {:induction false} RunIsDigits(s: string)
    ensures forall i :: 0 <= i < DigitRun(s) ==> IsDigit(s[i])
  {
    if s != [] && IsDigit(s[0]) {
      RunIsDigits(s[1..]);
    }
  }

  /** The number `s` starts with, and what follows it. */
  function Leading(s: string): Option<(nat, string)> {
    var n := DigitRun(s);
    RunIsDigits(s);
    if n == 0 then None else Some((Number(s[..n]), s[n..]))
  }

  /** The number after a dot that `s` starts with, and what follows it. */
  function Dotted(s: string): Option<(nat, string)> {
    if s == [] || s[0] != '.' then None else Leading(s[1..])
  }

  /** MAJOR.MINOR or MAJOR.MINOR.PATCH, white space around it ignored. */
  function ParseSemVer(input: string): Option<SemVer> {
    match Leading(Trim(input))
    case None => None
    case Some((major, rest)) =>
      match Dotted(rest)
      case None => None
      case Some((minor, rest')) =>
        if rest' == [] then Some(SemVer(major, minor, 0))
        else
          match Dotted(rest')
          case None => None
          case Some((patch, rest'')) => if rest'' == [] then Some(SemVer(major, minor, patch)) else None
  }

  predicate Less(a: SemVer, b: SemVer) {
    a.major < b.major
    || (a.major == b.major && (a.minor < b.minor || (a.minor == b.minor && a.patch < b.patch)))
  }

  predicate IsAnyBump(prev: SemVer, next: SemVer) { Less(prev, next) }

  predicate IsMajorBump(prev: SemVer, next: SemVer) {
    next.major > prev.major && next.minor == 0 && next.patch == 0
  }

  predicate IsMinorOrHigherBump(prev: SemVer, next: SemVer) {
    next.major > prev.major || (next.major == prev.major && next.minor > prev.minor)
  }

  /** What the database sorts by: the numbers the raw text starts with. No leading
      number sorts as NULL, which DESC puts first; missing parts count as 0. */
  datatype SortKey = SortKey(major: Option<nat>, minor: nat, patch: nat)

  function KeyOf(version: string): SortKey {
    match Leading(version)
    case None => SortKey(None, 0, 0)
    case Some((major, rest)) =>
      match Dotted(rest)
      case None => SortKey(Some(major), 0, 0)
      case Some((minor, rest')) =>
        match Dotted(rest')
        case None => SortKey(Some(major), minor, 0)
        case Some((patch, _)) => SortKey(Some(major), minor, patch)
  }

  /** `a` comes strictly before `b` in the descending order. */
  predicate Ahead(a: SortKey, b: SortKey) {
    if a.major.None? || b.major.None? then a.major.None? && b.major.Some?
    else Less(SemVer(b.major.value, b.minor, b.patch), SemVer(a.major.value, a.minor, a.patch))
  }

  // ------------------------------------------------------------ text lemmas

  lemma {:induction false} TrimEndSplit(s: string)
    ensures TrimEnd(s) <= s && forall i :: |TrimEnd(s)| <= i < |s| ==> IsSpace(s[i])
  {
    if s != [] && IsSpace(s[|s| - 1]) {
      TrimEndSplit(s[..|s| - 1]);
    }
  }

  lemma {:induction false} RunAppend(s: string, tail: string)
    requires tail != [] ==> !IsDigit(tail[0])
    ensures DigitRun(s + tail) == DigitRun(s)
  {
    if s == [] {
      assert s + tail == tail;
    } else {
      assert (s + tail)[1..] == s[1..] + tail;
      RunAppend(s[1..], tail);
    }
  }

  lemma LeadingAppend(s: string, tail: string)
    requires tail != [] ==> IsSpace(tail[0])
    ensures Leading(s + tail)
            == match Leading(s) case None => None case Some((n, rest)) => Some((n, rest + tail))
  {
    RunAppend(s, tail);
    var n := DigitRun(s);
    assert (s + tail)[..n] == s[..n] && (s + tail)[n..] == s[n..] + tail;
  }

  lemma DottedAppend(s: string, tail: string)
    requires tail != [] ==> IsSpace(tail[0])
    ensures Dotted(s).Some? ==> Dotted(s + tail) == Some((Dotted(s).value.0, Dotted(s).value.1 + tail))
    ensures s == [] ==> Dotted(s + tail).None?
  {
    if s == [] {
      assert s + tail == tail;
    } else {
      assert (s + tail)[1..] == s[1..] + tail;
      LeadingAppend(s[1..], tail);
    }
  }

  /** On an accepted version the database sees the parsed numbers, unless the text
      starts with white space: then it sees none. */
  lemma KeyOfParsed(version: string)
    requires ParseSemVer(version).Some?
    ensures var v := ParseSemVer(version).value;
            KeyOf(version) == if IsSpace(version[0]) then SortKey(None, 0, 0)
                              else SortKey(Some(v.major), v.minor, v.patch)
    ensures version != []
  {
    var t := Trim(version);
    assert version != [];
    if IsSpace(version[0]) {
      assert DigitRun(version) == 0;
    } else {
      assert TrimStart(version) == version;
      TrimEndSplit(version);
      var tail := version[|t|..];
      assert version == t + tail;
      LeadingAppend(t, tail);
      var rest := Leading(t).value.1;
      DottedAppend(rest, tail);
      DottedAppend(Dotted(rest).value.1, tail);
    }
  }

  /** A trailing space changes the text but not the version. */
  lemma TrailingSpace(version: string)
    requires ParseSemVer(version).Some?
    ensures ParseSemVer(version + [' ']) == ParseSemVer(version)
  {
    StartAppend(version);
    var s := TrimStart(version);
    assert (s + [' '])[..|s|] == s;
  }

  lemma {:induction false} StartAppend(s: string)
    ensures TrimStart(s) != [] ==> TrimStart(s + [' ']) == TrimStart(s) + [' ']
  {
    if s != [] && IsSpace(s[0]) {
      assert (s + [' '])[1..] == s[1..] + [' '];
      StartAppend(s[1..]);
    }
  }

  lemma LessOrder(a: SemVer, b: SemVer, c: SemVer)
    ensures Less(a, b) && Less(b, c) ==> Less(a, c)
    ensures !(Less(a, b) && Less(b, a)) && (a == b || Less(a, b) || Less(b, a))
  {
  }

  // ------------------------------------------------------------ what the texts mean

  /** Exactly the characters ECMA-262 counts as white space or line ends. */
  lemma SpacesAre(c: char)
    ensures IsSpace(c) <==>
            c as int in {0x9, 0xA, 0xB, 0xC, 0xD, 0x20, 0xA0, 0x1680, 0x2028, 0x2029, 0x202F, 0x205F, 0x3000, 0xFEFF}
            || 0x2000 <= c as int <= 0x200A
  {
  }

  predicate AllDigits(s: string) { s != [] && forall i :: 0 <= i < |s| ==> '0' <= s[i] <= '9' }

  predicate Blank(s: string) { forall i :: 0 <= i < |s| ==> IsSpace(s[i]) }

  /** A run of digits is read as the decimal number it is. */
  lemma {:induction false} NumberReads(n: nat)
    ensures AllDigits(Decimal.Text(n)) && Number(Decimal.Text(n)) == n
  {
    var t := Decimal.Digits(n);
    if n >= 10 {
      NumberReads(n / 10);
      assert t[..|t| - 1] == Decimal.Digits(n / 10);
    } else {
      assert t[..0] == [];
    }
  }

  lemma {:induction false} LeadingZero(s: string)
    requires AllDigits(s)
    ensures AllDigits("0" + s) && Number("0" + s) == Number(s)
    decreases |s|
  {
    var t := s[..|s| - 1];
    assert ("0" + s)[..|s|] == "0" + t;
    if |s| > 1 {
      LeadingZero(t);
    } else {
      assert "0" + t == "0" && "0"[..0] == [];
    }
  }

  lemma {:induction false} AllRun(s: string, tail: string)
    requires AllDigits(s) && (tail != [] ==> !IsDigit(tail[0]))
    ensures DigitRun(s + tail) == |s|
    decreases |s|
  {
    assert (s + tail)[1..] == s[1..] + tail;
    if |s| > 1 {
      AllRun(s[1..], tail);
    } else {
      assert s[1..] + tail == tail;
    }
  }

  lemma LeadingReads(s: string, tail: string)
    requires AllDigits(s) && (tail != [] ==> !IsDigit(tail[0]))
    ensures Leading(s + tail) == Some((Number(s), tail))
  {
    AllRun(s, tail);
    assert (s + tail)[..|s|] == s && (s + tail)[|s|..] == tail;
  }

  lemma DottedReads(s: string, tail: string)
    requires AllDigits(s) && (tail != [] ==> !IsDigit(tail[0]))
    ensures Dotted("." + s + tail) == Some((Number(s), tail))
  {
    assert ("." + s + tail)[1..] == s + tail;
    LeadingReads(s, tail);
  }

  lemma {:induction false} TrimStartBlank(a: string, t: string)
    requires Blank(a) && (t != [] ==> !IsSpace(t[0]))
    ensures TrimStart(a + t) == t
    decreases |a|
  {
    if a == [] {
      assert a + t == t;
    } else {
      assert (a + t)[1..] == a[1..] + t;
      TrimStartBlank(a[1..], t);
    }
  }

  lemma {:induction false} TrimEndBlank(t: string, b: string)
    requires Blank(b) && (t != [] ==> !IsSpace(t[|t| - 1]))
    ensures TrimEnd(t + b) == t
    decreases |b|
  {
    if b == [] {
      assert t + b == t;
    } else {
      assert (t + b)[..|t + b| - 1] == t + b[..|b| - 1];
      TrimEndBlank(t, b[..|b| - 1]);
    }
  }

  lemma TrimOuter(a: string, t: string, b: string)
    requires Blank(a) && Blank(b) && t != [] && !IsSpace(t[0]) && !IsSpace(t[|t| - 1])
    ensures Trim(a + t + b) == t
  {
    assert a + t + b == a + (t + b);
    TrimStartBlank(a, t + b);
    TrimEndBlank(t, b);
  }

  lemma ThreeParsed(input: string, p: string, q: string, r: string)
    requires AllDigits(p) && AllDigits(q) && AllDigits(r) && Trim(input) == p + ("." + q + ("." + r))
    ensures ParseSemVer(input) == Some(SemVer(Number(p), Number(q), Number(r)))
  {
    hide Number, Leading, Trim, Dotted;
    LeadingReads(p, "." + q + ("." + r));
    DottedReads(q, "." + r);
    DottedReads(r, []);
    assert "." + r == "." + r + [];
  }

  /** Blanks around it aside, MAJOR.MINOR.PATCH is read as the three numbers. */
  lemma ThreeParts(a: string, p: string, q: string, r: string, b: string)
    requires Blank(a) && Blank(b) && AllDigits(p) && AllDigits(q) && AllDigits(r)
    ensures ParseSemVer(a + (p + "." + q + "." + r) + b) == Some(SemVer(Number(p), Number(q), Number(r)))
  {
    var t := p + "." + q + "." + r;
    assert t[0] == p[0] && t[|t| - 1] == r[|r| - 1];
    hide Trim, AllDigits, Blank, ParseSemVer;
    TrimOuter(a, t, b);
    assert t == p + ("." + q + ("." + r));
    ThreeParsed(a + t + b, p, q, r);
  }

  /** MAJOR.MINOR has patch 0. */
  lemma TwoParts(a: string, p: string, q: string, b: string)
    requires Blank(a) && Blank(b) && AllDigits(p) && AllDigits(q)
    ensures ParseSemVer(a + (p + "." + q) + b) == Some(SemVer(Number(p), Number(q), 0))
  {
    var t := p + "." + q;
    assert t == p + ("." + q) && t[0] == p[0] && t[|t| - 1] == q[|q| - 1];
    hide Number, Leading, Trim, AllDigits, Blank;
    TrimOuter(a, t, b);
    LeadingReads(p, "." + q);
    DottedReads(q, []);
    assert "." + q == "." + q + [];
  }

  /** So every version's own decimal text is read as that version, and its database key too. */
  lemma TextIsRead(v: SemVer)
    ensures var t := Decimal.Text(v.major) + "." + Decimal.Text(v.minor) + "." + Decimal.Text(v.patch);
            ParseSemVer(t) == Some(v) && KeyOf(t) == SortKey(Some(v.major), v.minor, v.patch)
  {
    hide Number, Decimal.Text, ParseSemVer, KeyOf;
    NumberReads(v.major);
    NumberReads(v.minor);
    NumberReads(v.patch);
    var p, q, r := Decimal.Text(v.major), Decimal.Text(v.minor), Decimal.Text(v.patch);
    ThreeParts([], p, q, r, []);
    var t := p + "." + q + "." + r;
    assert [] + t + [] == t;
    assert t[0] == p[0] && !IsSpace(t[0]);
    KeyOfParsed(t);
  }

  ghost predicate Shaped(t: string) {
    (exists p, q, r :: AllDigits(p) && AllDigits(q) && AllDigits(r) && t == p + "." + q + "." + r)
    || (exists p, q :: AllDigits(p) && AllDigits(q) && t == p + "." + q)
  }

  lemma LeadingSplit(s: string) returns (p: string)
    requires Leading(s).Some?
    ensures AllDigits(p) && s == p + Leading(s).value.1
  {
    p := s[..DigitRun(s)];
    RunIsDigits(s);
  }

  lemma DottedSplit(s: string) returns (p: string)
    requires Dotted(s).Some?
    ensures AllDigits(p) && s == "." + p + Dotted(s).value.1
  {
    hide Leading;
    p := LeadingSplit(s[1..]);
    assert s == "." + s[1..];
  }

  /** Nothing else is a version: what is accepted, trimmed, is two or three runs of digits
      with dots between. */
  lemma AcceptedIsShaped(input: string)
    requires ParseSemVer(input).Some?
    ensures Shaped(Trim(input))
  {
    hide Trim, Shaped, Leading, Dotted, AllDigits;
    var t := Trim(input);
    var p := LeadingSplit(t);
    var rest := Leading(t).value.1;
    var q := DottedSplit(rest);
    var rest' := Dotted(rest).value.1;
    if rest' == [] {
      TwoShaped(p, q);
      assert t == p + "." + q;
    } else {
      var r := DottedSplit(rest');
      ThreeShaped(p, q, r);
      assert t == p + "." + q + "." + r;
    }
  }

  lemma TwoShaped(p: string, q: string)
    requires AllDigits(p) && AllDigits(q)
    ensures Shaped(p + "." + q)
  {
  }

  lemma ThreeShaped(p: string, q: string, r: string)
    requires AllDigits(p) && AllDigits(q) && AllDigits(r)
    ensures Shaped(p + "." + q + "." + r)
  {
  }
}
