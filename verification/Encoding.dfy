/** Node's Buffer between text and bytes: UTF-8 both ways and base64url (section 5 of
    RFC 4648, unpadded). */
module Encoding {
  import opened Options
  import opened Json

  type Byte = b: int | 0 <= b < 256

  type Bytes = seq<Byte>

  // ------------------------------------------------------------ UTF-8

  /** Text without lone surrogates. */
  predicate Paired(t: Text) {
    t == []
    || (|t| >= 2 && IsHigh(t[0]) && IsLow(t[1]) && Paired(t[2..]))
    || (!IsHigh(t[0]) && !IsLow(t[0]) && Paired(t[1..]))
  }

  function EncodeUnit(c: Unit): Bytes
    requires !IsHigh(c) && !IsLow(c)
  {
    if c < 0x80 then [c]
    else if c < 0x800 then [0xC0 + c / 64, 0x80 + c % 64]
    else [0xE0 + c / 64 / 64, 0x80 + c / 64 % 64, 0x80 + c % 64]
  }

  /** The code point of a surrogate pair, in its four bytes. */
  function EncodePair(h: Unit, l: Unit): Bytes
    requires IsHigh(h) && IsLow(l)
  {
    var a, b := h - 0xD800 + 64, l - 0xDC00;
    [0xF0 + a / 256, 0x80 + a / 4 % 64, 0x80 + a % 4 * 16 + b / 64, 0x80 + b % 64]
  }

  /** A lone surrogate becomes U+FFFD. */
  function Utf8(t: Text): Bytes {
    if t == [] then []
    else if |t| >= 2 && IsHigh(t[0]) && IsLow(t[1]) then EncodePair(t[0], t[1]) + Utf8(t[2..])
    else if IsHigh(t[0]) || IsLow(t[0]) then [0xEF, 0xBF, 0xBD] + Utf8(t[1..])
    else EncodeUnit(t[0]) + Utf8(t[1..])
  }

  predicate Continues(b: Byte) { 0x80 <= b < 0xC0 }

  /** Reads valid UTF-8; None for anything else. */
  function FromUtf8(b: Bytes): Option<Text>
    decreases |b|
  {
    if b == [] then Some([])
    else if b[0] < 0x80 then Cons([b[0]], FromUtf8(b[1..]))
    else if 0xC2 <= b[0] < 0xE0 && |b| >= 2 && Continues(b[1]) then
      Cons([(b[0] as int - 0xC0) * 64 + (b[1] as int - 0x80)], FromUtf8(b[2..]))
    else if 0xE0 <= b[0] < 0xF0 && |b| >= 3 && Continues(b[1]) && Continues(b[2]) then
      var c := ((b[0] as int - 0xE0) * 64 + (b[1] as int - 0x80)) * 64 + (b[2] as int - 0x80);
      if c < 0x800 || 0xD800 <= c <= 0xDFFF then None else Cons([c], FromUtf8(b[3..]))
    else if 0xF0 <= b[0] < 0xF5 && |b| >= 4 && Continues(b[1]) && Continues(b[2]) && Continues(b[3]) then
      var a := (b[0] as int - 0xF0) * 256 + (b[1] as int - 0x80) * 4 + (b[2] as int - 0x80) / 16;
      var l := (b[2] as int - 0x80) % 16 * 64 + (b[3] as int - 0x80);
      if a < 64 || a >= 0x440 then None else Cons([0xD800 + a - 64, 0xDC00 + l], FromUtf8(b[4..]))
    else None
  }

  function Cons(head: Text, tail: Option<Text>): Option<Text> {
    match tail case Some(t) => Some(head + t) case None => None
  }

  lemma UnitRead(c: Unit, rest: Bytes)
    requires !IsHigh(c) && !IsLow(c)
    ensures FromUtf8(EncodeUnit(c) + rest) == Cons([c], FromUtf8(rest))
  {
    var b := EncodeUnit(c) + rest;
    var n := |EncodeUnit(c)|;
    assert b[n..] == rest;
    assert forall i :: 0 <= i < n ==> b[i] == EncodeUnit(c)[i];
    if c >= 0x800 {
      assert c == (c / 64 / 64 * 64 + c / 64 % 64) * 64 + c % 64;
    }
  }

  lemma PairRead(h: Unit, l: Unit, rest: Bytes)
    requires IsHigh(h) && IsLow(l)
    ensures FromUtf8(EncodePair(h, l) + rest) == Cons([h, l], FromUtf8(rest))
  {
    var b := EncodePair(h, l) + rest;
    assert b[4..] == rest;
    assert forall i :: 0 <= i < 4 ==> b[i] == EncodePair(h, l)[i];
    HighBits(h - 0xD800 + 64, l - 0xDC00);
    LowBits(h - 0xD800 + 64, l - 0xDC00);
  }

  lemma HighBits(a: int, l: int)
    requires 64 <= a < 0x440 && 0 <= l < 1024
    ensures a == a / 256 * 256 + a / 4 % 64 * 4 + (a % 4 * 16 + l / 64) / 16 && 0 <= a / 256 < 5
  {
    assert (a % 4 * 16 + l / 64) / 16 == a % 4;
    assert a == a / 4 * 4 + a % 4 && a / 4 == a / 4 / 64 * 64 + a / 4 % 64;
  }

  lemma LowBits(a: int, l: int)
    requires 64 <= a < 0x440 && 0 <= l < 1024
    ensures l == (a % 4 * 16 + l / 64) % 16 * 64 + l % 64 && 0 <= a % 4 * 16 + l / 64 < 64
  {
    assert (a % 4 * 16 + l / 64) % 16 == l / 64;
  }

  /** Text without lone surrogates survives UTF-8. */
  lemma {:induction false} Utf8RoundTrip(t: Text)
    requires Paired(t)
    ensures FromUtf8(Utf8(t)) == Some(t)
  {
    hide EncodeUnit, EncodePair, FromUtf8;
    if t == [] {
      EmptyRead();
    } else if |t| >= 2 && IsHigh(t[0]) && IsLow(t[1]) {
      Utf8RoundTrip(t[2..]);
      PairRead(t[0], t[1], Utf8(t[2..]));
      assert t == [t[0], t[1]] + t[2..];
    } else {
      Utf8RoundTrip(t[1..]);
      UnitRead(t[0], Utf8(t[1..]));
      assert t == [t[0]] + t[1..];
    }
  }

  lemma EmptyRead()
    ensures FromUtf8([]) == Some([])
  {
  }

  /** The bytes of one unit, read off them. */
  lemma UnitBytes(b: Bytes, c: int)
    requires b != []
    requires || (|b| == 1 && b[0] < 0x80 && c == b[0])
             || (|b| == 2 && 0xC2 <= b[0] < 0xE0 && Continues(b[1])
                 && c == (b[0] as int - 0xC0) * 64 + (b[1] as int - 0x80))
             || (|b| == 3 && 0xE0 <= b[0] < 0xF0 && Continues(b[1]) && Continues(b[2])
                 && c == ((b[0] as int - 0xE0) * 64 + (b[1] as int - 0x80)) * 64 + (b[2] as int - 0x80) && c >= 0x800
                 && !(0xD800 <= c <= 0xDFFF))
    ensures 0 <= c < 0x1_0000 && !IsHigh(c) && !IsLow(c) && EncodeUnit(c) == b
  {
  }

  lemma PairBytes(b: Bytes, a: int, l: int)
    requires |b| == 4 && 0xF0 <= b[0] < 0xF5 && Continues(b[1]) && Continues(b[2]) && Continues(b[3])
    requires a == (b[0] as int - 0xF0) * 256 + (b[1] as int - 0x80) * 4 + (b[2] as int - 0x80) / 16 && 64 <= a < 0x440
    requires l == (b[2] as int - 0x80) % 16 * 64 + (b[3] as int - 0x80)
    ensures IsHigh(0xD800 + a - 64) && IsLow(0xDC00 + l) && EncodePair(0xD800 + a - 64, 0xDC00 + l) == b
  {
    var x, y, z := b[1] as int - 0x80, b[2] as int - 0x80, b[3] as int - 0x80;
    assert a / 256 == b[0] as int - 0xF0 && a / 4 == (b[0] as int - 0xF0) * 64 + x && a % 4 == y / 16;
    assert a / 4 % 64 == x;
    assert l / 64 == y % 16 && l % 64 == z;
  }

  lemma UnitWritten(c: Unit, t: Text)
    requires !IsHigh(c) && !IsLow(c) && Paired(t)
    ensures Paired([c] + t) && Utf8([c] + t) == EncodeUnit(c) + Utf8(t)
  {
    hide EncodeUnit, EncodePair;
    assert ([c] + t)[1..] == t;
  }

  lemma PairWritten(h: Unit, l: Unit, t: Text)
    requires IsHigh(h) && IsLow(l) && Paired(t)
    ensures Paired([h, l] + t) && Utf8([h, l] + t) == EncodePair(h, l) + Utf8(t)
  {
    hide EncodeUnit, EncodePair;
    assert ([h, l] + t)[2..] == t;
  }

  /** What reads as text is the UTF-8 of that text, which has no lone surrogates. */
  lemma {:induction false} Utf8Exact(b: Bytes)
    ensures FromUtf8(b).Some? ==> Paired(FromUtf8(b).value) && Utf8(FromUtf8(b).value) == b
    decreases |b|
  {
    hide EncodeUnit, EncodePair, Utf8, Paired;
    if FromUtf8(b).Some? && b != [] {
      var n := if b[0] < 0x80 then 1 else if b[0] < 0xE0 then 2 else if b[0] < 0xF0 then 3 else 4;
      assert |b| >= n && FromUtf8(b[n..]).Some?;
      var t := FromUtf8(b).value;
      Utf8Exact(b[n..]);
      assert b == b[..n] + b[n..];
      if n < 4 {
        UnitBytes(b[..n], t[0]);
        UnitWritten(t[0], FromUtf8(b[n..]).value);
      } else {
        PairBytes(b[..n], t[0] - 0xD800 + 64, t[1] - 0xDC00);
        PairWritten(t[0], t[1], FromUtf8(b[n..]).value);
      }
    } else {
      NoText();
    }
  }

  /** A surrogate that stands alone is written as the replacement character is. */
  lemma LoneWritten(c: Unit, t: Text)
    requires IsLow(c) || (IsHigh(c) && (t == [] || !IsLow(t[0])))
    ensures Utf8([c] + t) == EncodeUnit(0xFFFD) + Utf8(t)
  {
    assert ([c] + t)[1..] == t && EncodeUnit(0xFFFD) == [0xEF, 0xBF, 0xBD];
    hide EncodeUnit, EncodePair;
  }

  lemma NoText()
    ensures Utf8([]) == [] && Paired([])
  {
  }

  predicate Ascii(t: Text) { forall i :: 0 <= i < |t| ==> t[i] < 0x80 }

  /** Bytes of ASCII text are bytes of no other text. */
  lemma {:induction false} AsciiExact(a: Text, b: Text)
    requires Ascii(b) && Utf8(a) == Utf8(b)
    ensures a == b
  {
    if b == [] {
    } else if a != [] {
      assert Utf8(b)[0] == b[0] && Utf8(b)[1..] == Utf8(b[1..]);
      HeadByte(a);
      assert Utf8(a)[1..] == Utf8(a[1..]);
      AsciiExact(a[1..], b[1..]);
      assert a == [a[0]] + a[1..] && b == [b[0]] + b[1..];
    }
  }

  lemma HeadByte(a: Text)
    requires a != []
    ensures Utf8(a) != [] && (Utf8(a)[0] < 0x80 <==> a[0] < 0x80)
    ensures a[0] < 0x80 ==> Utf8(a) == [a[0]] + Utf8(a[1..])
  {
  }

  // ------------------------------------------------------------ base64url

  /** A-Z a-z 0-9 - _ */
  function Letter(i: int): Unit
    requires 0 <= i < 64
  {
    if i < 26 then 65 + i else if i < 52 then 71 + i else if i < 62 then i - 4 else if i == 62 then 45 else 95
  }

  function Index(c: Unit): Option<int> {
    if 65 <= c <= 90 then Some(c - 65)
    else if 97 <= c <= 122 then Some(c - 71)
    else if 48 <= c <= 57 then Some(c + 4)
    else if c == 45 then Some(62)
    else if c == 95 then Some(63)
    else None
  }

  lemma LetterIndex(i: int)
    requires 0 <= i < 64
    ensures Index(Letter(i)) == Some(i) && Letter(i) < 0x80 && Letter(i) != 46
  {
  }

  /** The letters are these, and nothing else is one. */
  lemma LetterIff(c: Unit, i: int)
    requires 0 <= i < 64
    ensures Index(c) == Some(i) <==> Letter(i) == c
    ensures Index(c).Some? ==> 0 <= Index(c).value < 64
  {
  }

  function Base64Url(b: Bytes): Text {
    if b == [] then []
    else if |b| == 1 then [Letter(b[0] / 4), Letter(b[0] % 4 * 16)]
    else if |b| == 2 then [Letter(b[0] / 4), Letter(b[0] % 4 * 16 + b[1] / 16), Letter(b[1] % 16 * 4)]
    else [Letter(b[0] / 4), Letter(b[0] % 4 * 16 + b[1] / 16), Letter(b[1] % 16 * 4 + b[2] / 64), Letter(b[2] % 64)]
         + Base64Url(b[3..])
  }

  function Sextets(t: Text): (r: Option<seq<int>>)
    ensures r.Some? ==> |r.value| == |t| && forall i :: 0 <= i < |t| ==> 0 <= r.value[i] < 64
  {
    if t == [] then Some([])
    else if Index(t[0]).Some? && Sextets(t[1..]).Some? then Some([Index(t[0]).value] + Sextets(t[1..]).value)
    else None
  }

  /** Spare bits at the end are dropped. */
  function Pack(s: seq<int>): Bytes
    requires forall i :: 0 <= i < |s| ==> 0 <= s[i] < 64
  {
    if |s| < 2 then []
    else if |s| == 2 then [s[0] * 4 + s[1] / 16]
    else if |s| == 3 then [s[0] * 4 + s[1] / 16, s[1] % 16 * 16 + s[2] / 4]
    else [s[0] * 4 + s[1] / 16, s[1] % 16 * 16 + s[2] / 4, s[2] % 4 * 64 + s[3]] + Pack(s[4..])
  }

  /** Reads text over the alphabet; None for anything else. */
  function FromBase64Url(t: Text): Option<Bytes> {
    match Sextets(t) case Some(s) => Some(Pack(s)) case None => None
  }

  lemma {:induction false} SextetsAppend(a: Text, b: Text)
    requires Sextets(a).Some? && Sextets(b).Some?
    ensures Sextets(a + b) == Some(Sextets(a).value + Sextets(b).value)
  {
    if a == [] {
      assert a + b == b;
      assert Sextets(a).value + Sextets(b).value == Sextets(b).value;
    } else {
      assert (a + b)[1..] == a[1..] + b && (a + b)[0] == a[0];
      SextetsAppend(a[1..], b);
      assert [Index(a[0]).value] + (Sextets(a[1..]).value + Sextets(b).value)
             == ([Index(a[0]).value] + Sextets(a[1..]).value) + Sextets(b).value;
    }
  }

  lemma FourLetters(i: int, j: int, k: int, l: int)
    requires 0 <= i < 64 && 0 <= j < 64 && 0 <= k < 64 && 0 <= l < 64
    ensures Sextets([Letter(i), Letter(j), Letter(k), Letter(l)]) == Some([i, j, k, l])
    ensures Sextets([Letter(i), Letter(j), Letter(k)]) == Some([i, j, k])
    ensures Sextets([Letter(i), Letter(j)]) == Some([i, j])
  {
    hide Letter, Index, Sextets;
    LetterIndex(i);
    LetterIndex(j);
    LetterIndex(k);
    LetterIndex(l);
    var p, q, r, s := Letter(i), Letter(j), Letter(k), Letter(l);
    SextetsOne(p, i);
    SextetsOne(q, j);
    SextetsOne(r, k);
    SextetsOne(s, l);
    assert [p] + [q] == [p, q] && [p, q] + [r] == [p, q, r] && [p, q, r] + [s] == [p, q, r, s];
    assert [i] + [j] == [i, j] && [i, j] + [k] == [i, j, k] && [i, j, k] + [l] == [i, j, k, l];
    SextetsAppend([p], [q]);
    SextetsAppend([p, q], [r]);
    SextetsAppend([p, q, r], [s]);
  }

  lemma SextetsOne(c: Unit, i: int)
    requires Index(c) == Some(i)
    ensures Sextets([c]) == Some([i])
  {
    assert [c][1..] == [] && Sextets([]) == Some([]);
    assert [i] + [] == [i];
  }

  lemma ThreeBytes(x: Byte, y: Byte, z: Byte)
    ensures x / 4 * 4 + (x % 4 * 16 + y / 16) / 16 == x
    ensures (x % 4 * 16 + y / 16) % 16 * 16 + (y % 16 * 4 + z / 64) / 4 == y
    ensures (y % 16 * 4 + z / 64) % 4 * 64 + z % 64 == z
  {
  }

  /** The four letters of three bytes, then more. */
  lemma GroupReads(x: Byte, y: Byte, z: Byte, rest: Text, tail: Bytes)
    requires FromBase64Url(rest) == Some(tail)
    ensures FromBase64Url([Letter(x / 4), Letter(x % 4 * 16 + y / 16), Letter(y % 16 * 4 + z / 64),
                           Letter(z % 64)] + rest)
            == Some([x, y, z] + tail)
  {
    hide Letter, Index, Sextets;
    var i, j, k, l := x / 4, x % 4 * 16 + y / 16, y % 16 * 4 + z / 64, z % 64;
    ThreeBytes(x, y, z);
    FourLetters(i, j, k, l);
    SextetsAppend([Letter(i), Letter(j), Letter(k), Letter(l)], rest);
    var s := [i, j, k, l] + Sextets(rest).value;
    assert s[4..] == Sextets(rest).value;
  }

  lemma TailReads(x: Byte, y: Byte)
    ensures FromBase64Url([Letter(x / 4), Letter(x % 4 * 16)]) == Some([x])
    ensures FromBase64Url([Letter(x / 4), Letter(x % 4 * 16 + y / 16), Letter(y % 16 * 4)]) == Some([x, y])
  {
    hide Letter, Index, Sextets;
    ThreeBytes(x, 0, 0);
    ThreeBytes(x, y, 0);
    FourLetters(x / 4, x % 4 * 16, 0, 0);
    FourLetters(x / 4, x % 4 * 16 + y / 16, y % 16 * 4, 0);
  }

  lemma {:induction false} SafeLetters(b: Bytes)
    ensures Ascii(Base64Url(b)) && 46 !in Base64Url(b)
  {
    if |b| >= 3 {
      SafeLetters(b[3..]);
    }
  }

  /** Any bytes survive base64url, whose letters are ASCII and never a dot. */
  lemma {:induction false} Base64UrlRoundTrip(b: Bytes)
    ensures FromBase64Url(Base64Url(b)) == Some(b)
    ensures Ascii(Base64Url(b)) && 46 !in Base64Url(b)
  {
    hide Letter, Index, Sextets, FromBase64Url;
    SafeLetters(b);
    if b == [] {
      NothingReads();
    } else if |b| == 1 {
      TailReads(b[0], 0);
      assert b == [b[0]];
    } else if |b| == 2 {
      TailReads(b[0], b[1]);
      assert b == [b[0], b[1]];
    } else {
      Base64UrlRoundTrip(b[3..]);
      GroupReads(b[0], b[1], b[2], Base64Url(b[3..]), b[3..]);
      assert b == [b[0], b[1], b[2]] + b[3..];
    }
  }

  lemma NothingReads()
    ensures FromBase64Url([]) == Some([])
  {
  }
}
