/** JSON data as the services hold it, JSON.stringify on it (section 25.5.2 of
    ECMA-262) and JSON.parse on what that prints. Text is UTF-16 code units. */
module Json {
  import opened Options

  type Unit = c: int | 0 <= c < 0x1_0000

  type Text = seq<Unit>

  /** The units of a literal. */
  function Units(s: string): Text
    requires forall i :: 0 <= i < |s| ==> s[i] < 128 as char
  {
    seq(|s|, i requires 0 <= i < |s| => s[i] as int)
  }

  /** A value before printing. A number is given by its decimal notation
      (Number::toString), object members in enumeration order. */
  datatype Json =
    | Undefined
    | Null
    | Bool(b: bool)
    | Num(notation: Text)
    | Str(s: Text)
    | Arr(elements: seq<Json>)
    | Obj(members: seq<Member>)

  datatype Member = Member(key: Text, value: Json)

  /** What a JSON text means: objects are unordered. */
  datatype Value =
    | VNull
    | VBool(b: bool)
    | VNum(notation: Text)
    | VStr(s: Text)
    | VArr(elements: seq<Value>)
    | VObj(fields: map<Text, Value>)

  // ------------------------------------------------------------ numbers

  predicate NumberUnit(c: Unit) {
    48 <= c <= 57 || c == 43 || c == 45 || c == 46 || c == 101
  }

  predicate Notation(t: Text) {
    t != [] && (t[0] == 45 || 48 <= t[0] <= 57) && forall i :: 0 <= i < |t| ==> NumberUnit(t[i])
  }

  predicate WellFormed(j: Json) {
    match j
    case Num(n) => Notation(n)
    case Arr(xs) => forall i :: 0 <= i < |xs| ==> WellFormed(xs[i])
    case Obj(ms) => forall i :: 0 <= i < |ms| ==> WellFormed(ms[i].value)
    case _ => true
  }

  // ------------------------------------------------------------ printing

  predicate IsHigh(c: Unit) { 0xD800 <= c <= 0xDBFF }

  predicate IsLow(c: Unit) { 0xDC00 <= c <= 0xDFFF }

  function HexDigit(d: int): Unit
    requires 0 <= d < 16
  {
    if d < 10 then 48 + d else 87 + d
  }

  function UnicodeEscape(c: Unit): Text {
    [92, 117, HexDigit(c / 16 / 16 / 16), HexDigit(c / 16 / 16 % 16), HexDigit(c / 16 % 16), HexDigit(c % 16)]
  }

  function QuoteUnit(c: Unit): Text {
    if c == 8 then [92, 98]
    else if c == 9 then [92, 116]
    else if c == 10 then [92, 110]
    else if c == 12 then [92, 102]
    else if c == 13 then [92, 114]
    else if c == 34 then [92, 34]
    else if c == 92 then [92, 92]
    else if c < 32 || IsHigh(c) || IsLow(c) then UnicodeEscape(c)
    else [c]
  }

  /** Surrogate pairs stay as they are, lone surrogates are escaped. */
  function QuoteUnits(s: Text): Text {
    if s == [] then []
    else if |s| >= 2 && IsHigh(s[0]) && IsLow(s[1]) then s[..2] + QuoteUnits(s[2..])
    else QuoteUnit(s[0]) + QuoteUnits(s[1..])
  }

  function Quote(s: Text): Text { [34] + (QuoteUnits(s) + [34]) }

  /** Inside an array undefined prints as null. */
  function Stringify(j: Json): Text {
    match j
    case Undefined => [110, 117, 108, 108]
    case Null => [110, 117, 108, 108]
    case Bool(b) => if b then [116, 114, 117, 101] else [102, 97, 108, 115, 101]
    case Num(n) => n
    case Str(s) => Quote(s)
    case Arr(xs) => [91] + (Elements(xs, true) + [93])
    case Obj(ms) => [123] + (Members(ms, true) + [125])
  }

  function Elements(xs: seq<Json>, first: bool): Text {
    if xs == [] then []
    else (if first then [] else [44]) + (Stringify(xs[0]) + Elements(xs[1..], false))
  }

  /** Undefined members are not printed. */
  function Members(ms: seq<Member>, first: bool): Text {
    if ms == [] then []
    else if ms[0].value.Undefined? then Members(ms[1..], first)
    else (if first then [] else [44])
         + (Quote(ms[0].key) + ([58] + (Stringify(ms[0].value) + Members(ms[1..], false))))
  }

  // ------------------------------------------------------------ meaning

  function Denote(j: Json): Value {
    match j
    case Undefined => VNull
    case Null => VNull
    case Bool(b) => VBool(b)
    case Num(n) => VNum(n)
    case Str(s) => VStr(s)
    case Arr(xs) => VArr(DenoteAll(xs))
    case Obj(ms) => VObj(DenoteMembers(ms))
  }

  function DenoteAll(xs: seq<Json>): (vs: seq<Value>)
    ensures |vs| == |xs|
  {
    if xs == [] then [] else [Denote(xs[0])] + DenoteAll(xs[1..])
  }

  function DenoteMembers(ms: seq<Member>): map<Text, Value> {
    if ms == [] then map[]
    else if ms[0].value.Undefined? then DenoteMembers(ms[1..])
    else map[ms[0].key := Denote(ms[0].value)] + DenoteMembers(ms[1..])
  }

  // ------------------------------------------------------------ reading

  function HexValue(c: Unit): Option<int> {
    if 48 <= c <= 57 then Some(c - 48)
    else if 97 <= c <= 102 then Some(c - 87)
    else if 65 <= c <= 70 then Some(c - 55)
    else None
  }

  /** Sixteen digits, the last six in either case. */
  lemma HexIff(c: Unit, v: int)
    ensures HexValue(c) == Some(v) <==>
            0 <= v < 16 && (c == Units("0123456789abcdef")[v] || c == Units("0123456789ABCDEF")[v])
  {
  }

  /** One unit of a string literal: itself or an escape. */
  function ReadUnit(t: Text): (r: Option<(Unit, Text)>)
    requires t != []
    ensures r.Some? ==> |r.value.1| < |t|
  {
    if t[0] < 32 then None
    else if t[0] != 92 then Some((t[0], t[1..]))
    else if |t| < 2 then None
    else if t[1] == 98 then Some((8, t[2..]))
    else if t[1] == 116 then Some((9, t[2..]))
    else if t[1] == 110 then Some((10, t[2..]))
    else if t[1] == 102 then Some((12, t[2..]))
    else if t[1] == 114 then Some((13, t[2..]))
    else if t[1] == 34 || t[1] == 92 || t[1] == 47 then Some((t[1], t[2..]))
    else if t[1] == 117 && |t| >= 6 then ReadHex(t)
    else None
  }

  function ReadHex(t: Text): (r: Option<(Unit, Text)>)
    requires |t| >= 6
    ensures r.Some? ==> |r.value.1| < |t|
  {
    var a, b, c, d := HexValue(t[2]), HexValue(t[3]), HexValue(t[4]), HexValue(t[5]);
    if a.Some? && b.Some? && c.Some? && d.Some?
    then Some((a.value * 4096 + b.value * 256 + c.value * 16 + d.value, t[6..]))
    else None
  }

  function ReadString(t: Text): (r: Option<(Text, Text)>)
    ensures r.Some? ==> |r.value.1| < |t|
    decreases |t|
  {
    if t == [] then None
    else if t[0] == 34 then Some(([], t[1..]))
    else
      match ReadUnit(t)
      case None => None
      case Some((c, rest)) =>
        match ReadString(rest)
        case None => None
        case Some((s, rest')) => Some(([c] + s, rest'))
  }

  /** How many number units `t` starts with. */
  function NumberLength(t: Text): (n: nat)
    ensures n <= |t|
  {
    if t == [] || !NumberUnit(t[0]) then 0 else 1 + NumberLength(t[1..])
  }

  function ReadValue(t: Text): (r: Option<(Value, Text)>)
    ensures r.Some? ==> |r.value.1| < |t|
    decreases |t|, 0
  {
    if t == [] then None
    else if [110, 117, 108, 108] <= t then Some((VNull, t[4..]))
    else if [116, 114, 117, 101] <= t then Some((VBool(true), t[4..]))
    else if [102, 97, 108, 115, 101] <= t then Some((VBool(false), t[5..]))
    else if t[0] == 34 then
      match ReadString(t[1..])
      case None => None
      case Some((s, rest)) => Some((VStr(s), rest))
    else if t[0] == 91 then
      match ReadElements(t[1..], true)
      case None => None
      case Some((vs, rest)) => Some((VArr(vs), rest))
    else if t[0] == 123 then
      match ReadMembers(t[1..], true)
      case None => None
      case Some((m, rest)) => Some((VObj(m), rest))
    else
      var n := NumberLength(t);
      if Notation(t[..n]) then Some((VNum(t[..n]), t[n..])) else None
  }

  function ReadElements(t: Text, first: bool): (r: Option<(seq<Value>, Text)>)
    ensures r.Some? ==> |r.value.1| < |t|
    decreases |t|, 1
  {
    if t == [] then None
    else if t[0] == 93 then Some(([], t[1..]))
    else if !first && t[0] != 44 then None
    else
      match ReadValue(if first then t else t[1..])
      case None => None
      case Some((v, rest)) =>
        match ReadElements(rest, false)
        case None => None
        case Some((vs, rest')) => Some(([v] + vs, rest'))
  }

  /** A later member of the same name replaces an earlier one. */
  function ReadMembers(t: Text, first: bool): (r: Option<(map<Text, Value>, Text)>)
    ensures r.Some? ==> |r.value.1| < |t|
    decreases |t|, 1
  {
    if t == [] then None
    else if t[0] == 125 then Some((map[], t[1..]))
    else if !first && t[0] != 44 then None
    else
      var u := if first then t else t[1..];
      if u == [] || u[0] != 34 then None
      else
        match ReadString(u[1..])
        case None => None
        case Some((k, rest)) =>
          if rest == [] || rest[0] != 58 then None
          else
            match ReadValue(rest[1..])
            case None => None
            case Some((v, rest')) =>
              match ReadMembers(rest', false)
              case None => None
              case Some((m, rest'')) => Some((map[k := v] + m, rest''))
  }

  function Parse(t: Text): Option<Value> {
    match ReadValue(t)
    case Some((v, rest)) => if rest == [] then Some(v) else None
    case None => None
  }

  // ------------------------------------------------------------ round trip

  lemma HexRoundTrip(d: int)
    requires 0 <= d < 16
    ensures HexValue(HexDigit(d)) == Some(d)
  {
  }

  lemma HexSplit(c: Unit)
    ensures c == c / 16 / 16 / 16 * 4096 + c / 16 / 16 % 16 * 256 + c / 16 % 16 * 16 + c % 16
  {
  }

  lemma EscapeRoundTrip(c: Unit, rest: Text)
    ensures ReadUnit(UnicodeEscape(c) + rest) == Some((c, rest))
  {
    hide HexValue, HexDigit;
    var t := UnicodeEscape(c) + rest;
    HexRoundTrip(c / 16 / 16 / 16);
    HexRoundTrip(c / 16 / 16 % 16);
    HexRoundTrip(c / 16 % 16);
    HexRoundTrip(c % 16);
    HexSplit(c);
    assert t[6..] == rest;
  }

  lemma UnitRoundTrip(c: Unit, rest: Text)
    ensures ReadUnit(QuoteUnit(c) + rest) == Some((c, rest))
  {
    hide UnicodeEscape, ReadHex;
    var t := QuoteUnit(c) + rest;
    EscapeShape(c);
    if QuoteUnit(c) == [c] {
      RawUnit(c, rest);
    } else if |QuoteUnit(c)| == 2 {
      assert t[2..] == rest;
    } else {
      EscapeRoundTrip(c, rest);
    }
  }

  lemma EscapeShape(c: Unit)
    ensures |UnicodeEscape(c)| == 6 && UnicodeEscape(c)[0] == 92
  {
  }

  lemma RawUnit(c: Unit, rest: Text)
    requires c >= 32 && c != 34 && c != 92
    ensures ReadUnit([c] + rest) == Some((c, rest))
  {
    assert ([c] + rest)[1..] == rest;
  }

  /** Reading one unit off the front of a string literal. */
  lemma ReadStep(unit: Text, c: Unit, tail: Text, s: Text, rest: Text)
    requires unit != [] && unit[0] != 34 && ReadUnit(unit + tail) == Some((c, tail))
    requires ReadString(tail) == Some((s, rest))
    ensures ReadString(unit + tail) == Some(([c] + s, rest))
  {
    hide ReadUnit;
    assert (unit + tail)[0] == unit[0];
  }

  lemma {:induction false} StringRoundTrip(s: Text, rest: Text)
    ensures ReadString(QuoteUnits(s) + ([34] + rest)) == Some((s, rest))
    decreases |s|
  {
    hide ReadUnit, QuoteUnit, ReadString;
    var end := [34] + rest;
    if s == [] {
      assert QuoteUnits(s) + end == end;
      assert ReadString(end) == Some((s, rest)) by { ReadEnd(rest); }
    } else if |s| >= 2 && IsHigh(s[0]) && IsLow(s[1]) {
      StringRoundTrip(s[2..], rest);
      var tail := QuoteUnits(s[2..]) + end;
      RawUnit(s[1], tail);
      ReadStep([s[1]], s[1], tail, s[2..], rest);
      RawUnit(s[0], [s[1]] + tail);
      ReadStep([s[0]], s[0], [s[1]] + tail, [s[1]] + s[2..], rest);
      assert QuoteUnits(s) + end == [s[0]] + ([s[1]] + tail);
      assert s == [s[0]] + ([s[1]] + s[2..]);
    } else {
      StringRoundTrip(s[1..], rest);
      var tail := QuoteUnits(s[1..]) + end;
      UnitRoundTrip(s[0], tail);
      assert QuoteUnit(s[0]) != [] && QuoteUnit(s[0])[0] != 34 by { UnitShape(s[0]); }
      ReadStep(QuoteUnit(s[0]), s[0], tail, s[1..], rest);
      assert QuoteUnits(s) + end == QuoteUnit(s[0]) + tail;
      assert s == [s[0]] + s[1..];
    }
  }

  lemma UnitShape(c: Unit)
    ensures QuoteUnit(c) != [] && QuoteUnit(c)[0] != 34
  {
  }

  lemma ReadEnd(rest: Text)
    ensures ReadString([34] + rest) == Some(([], rest))
  {
    assert ([34] + rest)[1..] == rest;
  }

  lemma {:induction false} NumberEnds(n: Text, rest: Text)
    requires forall i :: 0 <= i < |n| ==> NumberUnit(n[i])
    requires rest == [] || !NumberUnit(rest[0])
    ensures NumberLength(n + rest) == |n|
  {
    if n == [] {
      assert n + rest == rest;
    } else {
      assert (n + rest)[1..] == n[1..] + rest;
      NumberEnds(n[1..], rest);
    }
  }

  /** A value is followed by the end, a comma or a closing bracket. */
  predicate Delimited(rest: Text) { rest == [] || rest[0] in {44, 93, 125} }

  lemma LiteralRoundTrip(j: Json, rest: Text)
    requires j.Undefined? || j.Null? || j.Bool?
    ensures ReadValue(Stringify(j) + rest) == Some((Denote(j), rest))
  {
    var s := Stringify(j);
    var t := s + rest;
    assert t[0] == s[0] && t[..|s|] == s && t[|s|..] == rest;
  }

  lemma NumberRoundTrip(n: Text, rest: Text)
    requires Notation(n) && Delimited(rest)
    ensures ReadValue(n + rest) == Some((VNum(n), rest))
  {
    hide NumberLength;
    var t := n + rest;
    assert t[0] == n[0];
    NumberEnds(n, rest);
    assert t[..|n|] == n && t[|n|..] == rest;
  }

  lemma {:induction false} ValueRoundTrip(j: Json, rest: Text)
    requires WellFormed(j) && Delimited(rest)
    ensures ReadValue(Stringify(j) + rest) == Some((Denote(j), rest))
    decreases j, 1
  {
    hide QuoteUnits, ReadString, Elements, ReadElements, Members, ReadMembers, NumberLength;
    var t := Stringify(j) + rest;
    match j
    case Num(n) => NumberRoundTrip(n, rest);
    case Str(s) =>
      var body := QuoteUnits(s) + ([34] + rest);
      assert t == [34] + body;
      assert t[0] == 34 && t[1..] == body;
      StringRoundTrip(s, rest);
    case Arr(xs) =>
      var body := Elements(xs, true) + ([93] + rest);
      assert t == [91] + body;
      assert t[0] == 91 && t[1..] == body;
      ElementsRoundTrip(xs, true, rest);
    case Obj(ms) =>
      var body := Members(ms, true) + ([125] + rest);
      assert t == [123] + body;
      assert t[0] == 123 && t[1..] == body;
      MembersRoundTrip(ms, true, rest);
    case _ => LiteralRoundTrip(j, rest);
  }

  lemma StartsWell(j: Json, rest: Text)
    requires WellFormed(j)
    ensures Stringify(j) != [] && Stringify(j)[0] !in {93, 125, 44}
  {
  }

  lemma {:induction false} ElementsRoundTrip(xs: seq<Json>, first: bool, rest: Text)
    requires forall i :: 0 <= i < |xs| ==> WellFormed(xs[i])
    ensures ReadElements(Elements(xs, first) + ([93] + rest), first) == Some((DenoteAll(xs), rest))
    decreases xs, 0
  {
    hide ReadValue, Stringify, Denote, WellFormed;
    var t := Elements(xs, first) + ([93] + rest);
    if xs == [] {
      assert t == [93] + rest;
    } else {
      var after := Elements(xs[1..], false) + ([93] + rest);
      assert Delimited(after);
      ValueRoundTrip(xs[0], after);
      ElementsRoundTrip(xs[1..], false, rest);
      StartsWell(xs[0], after);
      var u := Stringify(xs[0]) + after;
      assert t == (if first then u else [44] + u);
      assert (if first then t else t[1..]) == u;
      assert first ==> t[0] == u[0] == Stringify(xs[0])[0];
    }
  }

  /** The text of a non-empty member list, grouped as the reader takes it apart. */
  lemma MembersLayout(ms: seq<Member>, first: bool, rest: Text)
    requires ms != [] && !ms[0].value.Undefined?
    ensures var after := Members(ms[1..], false) + ([125] + rest);
            var value := Stringify(ms[0].value) + after;
            var u := [34] + (QuoteUnits(ms[0].key) + ([34] + ([58] + value)));
            Members(ms, first) + ([125] + rest) == (if first then u else [44] + u)
  {
    hide Stringify, QuoteUnits;
    var s, q, m := Stringify(ms[0].value), QuoteUnits(ms[0].key), Members(ms[1..], false);
    var sep := if first then [] else [44];
    Regroup(sep, q, s, m, [125] + rest);
    assert Members(ms, first) == sep + (([34] + (q + [34])) + ([58] + (s + m)));
  }

  lemma Regroup(sep: Text, q: Text, s: Text, m: Text, end: Text)
    ensures (sep + (([34] + (q + [34])) + ([58] + (s + m)))) + end
            == sep + ([34] + (q + ([34] + ([58] + (s + (m + end))))))
  {
    assert (s + m) + end == s + (m + end);
    assert ([58] + (s + m)) + end == [58] + (s + (m + end));
    assert ([34] + (q + [34])) + ([58] + (s + (m + end))) == [34] + (q + ([34] + ([58] + (s + (m + end)))));
    assert (([34] + (q + [34])) + ([58] + (s + m))) + end == ([34] + (q + [34])) + (([58] + (s + m)) + end);
  }

  lemma {:induction false} MembersRoundTrip(ms: seq<Member>, first: bool, rest: Text)
    requires forall i :: 0 <= i < |ms| ==> WellFormed(ms[i].value)
    ensures ReadMembers(Members(ms, first) + ([125] + rest), first) == Some((DenoteMembers(ms), rest))
    decreases ms, 0
  {
    hide ReadValue, ReadString, Stringify, QuoteUnits, Denote, WellFormed, Members;
    if ms == [] {
      assert Members(ms, first) + ([125] + rest) == [125] + rest by { EmptyMembers(first); }
    } else if ms[0].value.Undefined? {
      SkipMember(ms, first);
      MembersRoundTrip(ms[1..], first, rest);
    } else {
      var after := Members(ms[1..], false) + ([125] + rest);
      var value := Stringify(ms[0].value) + after;
      var tail := [58] + value;
      var u := [34] + (QuoteUnits(ms[0].key) + ([34] + tail));
      MembersLayout(ms, first, rest);
      MembersEnd(ms[1..], rest);
      ValueRoundTrip(ms[0].value, after);
      MembersRoundTrip(ms[1..], false, rest);
      StringRoundTrip(ms[0].key, tail);
      assert u[1..] == QuoteUnits(ms[0].key) + ([34] + tail);
      assert tail[1..] == value;
      assert ([44] + u)[1..] == u;
    }
  }

  lemma EmptyMembers(first: bool)
    ensures Members([], first) == []
  {
  }

  lemma SkipMember(ms: seq<Member>, first: bool)
    requires ms != [] && ms[0].value.Undefined?
    ensures Members(ms, first) == Members(ms[1..], first)
  {
  }

  lemma {:induction false} MembersEnd(ms: seq<Member>, rest: Text)
    ensures Delimited(Members(ms, false) + ([125] + rest))
  {
    if ms != [] && ms[0].value.Undefined? {
      MembersEnd(ms[1..], rest);
    }
  }

  /** Printing then reading gives back what was meant, so the text is unambiguous. */
  lemma ParseStringify(j: Json)
    requires WellFormed(j)
    ensures Parse(Stringify(j)) == Some(Denote(j))
  {
    ValueRoundTrip(j, []);
    assert Stringify(j) + [] == Stringify(j);
  }

  // ------------------------------------------------------------ the text itself

  /** The table of QuoteJSONString: backspace, tab, newline, form feed, return, quote, backslash. */
  const ESCAPES: map<Unit, Unit> := map[8 := 98, 9 := 116, 10 := 110, 12 := 102, 13 := 114, 34 := 34, 92 := 92]

  predicate Surrogate(c: Unit) { 0xD800 <= c < 0xE000 }

  /** The two-character escapes, a lower-case four-digit escape for the other controls and for
      surrogates that stand alone, and the unit itself for everything else. */
  lemma UnitText(c: Unit)
    ensures c in ESCAPES ==> QuoteUnit(c) == [92, ESCAPES[c]]
    ensures c !in ESCAPES && c >= 0x20 && !Surrogate(c) ==> QuoteUnit(c) == [c]
    ensures c !in ESCAPES && (c < 0x20 || Surrogate(c)) ==>
              var q := QuoteUnit(c);
              && |q| == 6 && q[0] == 92 && q[1] == 117
              && (forall i :: 2 <= i < 6 ==> 48 <= q[i] <= 57 || 97 <= q[i] <= 102)
              && forall rest :: ReadUnit(q + rest) == Some((c, rest))
  {
    hide ReadUnit;
    forall rest {
      UnitRoundTrip(c, rest);
    }
  }

  /** Of all the ways to write a unit that is no surrogate the printer takes a shortest. */
  lemma UnitShortest(c: Unit, u: Text, rest: Text)
    requires u != [] && u[0] != 34 && ReadUnit(u + rest) == Some((c, rest)) && !Surrogate(c)
    ensures |QuoteUnit(c)| <= |u|
  {
    var t := u + rest;
    assert |u| == |t| - |rest|;
  }

  /** A pair of surrogates is printed as it is. */
  lemma PairText(high: Unit, low: Unit, s: Text)
    requires 0xD800 <= high <= 0xDBFF && 0xDC00 <= low <= 0xDFFF
    ensures QuoteUnits([high, low] + s) == [high, low] + QuoteUnits(s)
  {
    assert ([high, low] + s)[2..] == s && ([high, low] + s)[..2] == [high, low];
  }

  /** Texts with a comma between each two. */
  function Commas(ts: seq<Text>): Text {
    if ts == [] then [] else if |ts| == 1 then ts[0] else ts[0] + [44] + Commas(ts[1..])
  }

  function Texts(xs: seq<Json>): (ts: seq<Text>)
    ensures |ts| == |xs| && forall i :: 0 <= i < |xs| ==> ts[i] == Stringify(xs[i])
  {
    if xs == [] then [] else [Stringify(xs[0])] + Texts(xs[1..])
  }

  /** The members that are printed, each as its quoted name, a colon and its value. */
  function Fields(ms: seq<Member>): seq<Text> {
    if ms == [] then []
    else (if ms[0].value == Undefined then [] else [Quote(ms[0].key) + [58] + Stringify(ms[0].value)])
         + Fields(ms[1..])
  }

  /** Those texts behind another one, or as the first. */
  function Following(ts: seq<Text>, first: bool): Text {
    (if first || ts == [] then [] else [44]) + Commas(ts)
  }

  lemma CommasCons(t: Text, ts: seq<Text>)
    ensures Commas([t] + ts) == t + Following(ts, false)
  {
    assert ([t] + ts)[1..] == ts;
  }

  lemma {:induction false} ElementsText(xs: seq<Json>, first: bool)
    ensures Elements(xs, first) == Following(Texts(xs), first)
  {
    hide Stringify, Commas;
    if xs == [] {
      assert Commas([]) == [] by { NoCommas(); }
    } else {
      ElementsText(xs[1..], false);
      CommasCons(Stringify(xs[0]), Texts(xs[1..]));
    }
  }

  lemma NoCommas()
    ensures Commas([]) == []
  {
  }

  lemma {:induction false} MembersText(ms: seq<Member>, first: bool)
    ensures Members(ms, first) == Following(Fields(ms), first)
  {
    hide Stringify, Quote, Commas;
    if ms == [] {
      NoCommas();
    } else if ms[0].value.Undefined? {
      MembersText(ms[1..], first);
      assert Fields(ms) == Fields(ms[1..]);
    } else {
      MembersText(ms[1..], false);
      var field := Quote(ms[0].key) + [58] + Stringify(ms[0].value);
      CommasCons(field, Fields(ms[1..]));
      assert Fields(ms) == [field] + Fields(ms[1..]);
      FieldFirst(ms, first, field);
    }
  }

  lemma FieldFirst(ms: seq<Member>, first: bool, field: Text)
    requires ms != [] && !ms[0].value.Undefined? && field == Quote(ms[0].key) + [58] + Stringify(ms[0].value)
    ensures Members(ms, first) == (if first then [] else [44]) + (field + Members(ms[1..], false))
  {
    hide Stringify, Quote;
  }

  /** Nothing is added between the parts but commas and colons, and nothing around them. */
  lemma CompactText(xs: seq<Json>, ms: seq<Member>)
    ensures Stringify(Arr(xs)) == [91] + Commas(Texts(xs)) + [93]
    ensures Stringify(Obj(ms)) == [123] + Commas(Fields(ms)) + [125]
  {
    hide Texts, Fields, Elements, Members, Commas;
    ElementsText(xs, true);
    MembersText(ms, true);
  }

  /** A string between its quotes, and the words. */
  lemma WordText(s: Text)
    ensures Stringify(Str(s)) == [34] + QuoteUnits(s) + [34]
    ensures Stringify(Null) == Stringify(Undefined) == [110, 117, 108, 108]
    ensures Stringify(Bool(true)) == [116, 114, 117, 101] && Stringify(Bool(false)) == [102, 97, 108, 115, 101]
  {
    hide QuoteUnits;
  }
}
