/** data-product-api-service/src/domain/contract-policy.ts:8,19-28,63-67: which dates a
    filter accepts, and what comparing them as strings means. */
module StrictDate {
  import opened Civil
  import opened Json
  import CanonicalJson

  predicate IsDigit(c: Unit) { 48 <= c <= 57 }

  /** /^\d{4}-\d{2}-\d{2}$/ */
  predicate DateShape(s: Text) {
    && |s| == 10 && s[4] == 45 && s[7] == 45
    && IsDigit(s[0]) && IsDigit(s[1]) && IsDigit(s[2]) && IsDigit(s[3])
    && IsDigit(s[5]) && IsDigit(s[6]) && IsDigit(s[8]) && IsDigit(s[9])
  }

  function Pair(s: Text, i: nat): int
    requires i + 1 < |s|
  {
    (s[i] as int - 48) * 10 + (s[i + 1] as int - 48)
  }

  /** The numbers between the dashes. */
  function Written(s: Text): (d: Date)
    requires DateShape(s)
    ensures 0 <= d.year <= 9999 && 0 <= d.month <= 99 && 0 <= d.day <= 99
  {
    Date(Pair(s, 0) * 100 + Pair(s, 2), Pair(s, 5), Pair(s, 8))
  }

  /** assertStrictDate does not throw: the shape fits and the date survives Date.UTC. */
  predicate AssertStrictDate(s: Text) {
    && DateShape(s)
    && var d := Written(s);
       DatePart(UtcToWall(DateUtc(d.year, d.month - 1, d.day, 0))) == d
  }

  lemma MidnightDate(n: int)
    ensures DatePart(UtcToWall(n * DAY)) == DateOf(n)
  {
    DivModUnique(n * DAY, DAY, n, 0);
  }

  /** Accepted are exactly the real calendar dates from the year 100 on: Date.UTC takes the
      years before for two-digit ones. */
  lemma AcceptedIff(s: Text)
    ensures AssertStrictDate(s) <==> DateShape(s) && ValidDate(Written(s)) && Written(s).year >= 100
  {
    hide MakeDay, DayNumber, UtcToWall, ValidDate, Written;
    if DateShape(s) {
      var d := Written(s);
      var n := MakeDay(FullYear(d.year), d.month - 1, d.day);
      MidnightDate(n);
      assert DateUtc(d.year, d.month - 1, d.day, 0) == n * DAY;
      if d.year >= 100 {
        if ValidDate(d) {
          assert n == DayNumber(d) by { DayNumberIs(d); }
          DateRoundTrip(d);
        }
      } else {
        TwoDigitMoves(d);
      }
    }
  }

  lemma DayNumberIs(d: Date)
    ensures DayNumber(d) == MakeDay(d.year, d.month - 1, d.day)
  {
  }

  /** A year below 100 never comes back out. */
  lemma TwoDigitMoves(d: Date)
    requires 0 <= d.year <= 99 && 0 <= d.month <= 99 && 0 <= d.day <= 99
    ensures DateOf(MakeDay(FullYear(d.year), d.month - 1, d.day)) != d
  {
    var n := MakeDay(FullYear(d.year), d.month - 1, d.day);
    TwoDigitLate(d);
    if DateOf(n) == d {
      hide MakeDay, DayNumber, DayFromYear;
      YearHolds(d);
      YearsGrow(d.year + 1, 1898);
    }
  }

  lemma TwoDigitLate(d: Date)
    requires 0 <= d.year <= 99 && 0 <= d.month <= 99 && 0 <= d.day <= 99
    ensures MakeDay(FullYear(d.year), d.month - 1, d.day) >= DayFromYear(1898)
  {
    hide DayFromYear;
    var y := FullYear(d.year) + (d.month - 1) / 12;
    DaysBeforeNonNegative(y, (d.month - 1) % 12);
    assert y >= 1899;
    YearsGrow(1899, y);
    assert DayFromYear(1899) > DayFromYear(1898) by { YearStep(1898); }
  }

  /** On accepted dates, string order is calendar order. */
  lemma StringOrderIsCalendarOrder(s: Text, t: Text)
    requires AssertStrictDate(s) && AssertStrictDate(t)
    ensures CanonicalJson.Less(s, t) <==> Before(Written(s), Written(t))
    ensures CanonicalJson.Less(s, t) <==> DayNumber(Written(s)) < DayNumber(Written(t))
  {
    hide MakeDay, DayNumber, UtcToWall, ValidDate;
    AcceptedIff(s);
    AcceptedIff(t);
    ShapeOrder(s, t);
    var d, e := Written(s), Written(t);
    if Before(d, e) {
      DayNumberMonotone(d, e);
    } else if Before(e, d) {
      DayNumberMonotone(e, d);
    }
  }

  /** Strings of the same length compare at their first difference. */
  lemma {:induction false} LessAt(s: Text, t: Text, i: nat)
    requires |s| == |t| && i < |s| && s[..i] == t[..i] && s[i] != t[i]
    ensures CanonicalJson.Less(s, t) <==> s[i] < t[i]
  {
    if i > 0 {
      assert s[0] == s[..i][0] && t[0] == t[..i][0];
      assert s[1..][..i - 1] == s[..i][1..] && t[1..][..i - 1] == t[..i][1..];
      LessAt(s[1..], t[1..], i - 1);
    }
  }

  lemma {:induction false} FirstDifference(s: Text, t: Text) returns (i: nat)
    requires |s| == |t| && s != t
    ensures i < |s| && s[..i] == t[..i] && s[i] != t[i]
  {
    if s[0] != t[0] {
      i := 0;
    } else {
      assert s == [s[0]] + s[1..] && t == [t[0]] + t[1..];
      var j := FirstDifference(s[1..], t[1..]);
      i := j + 1;
      assert s[..i] == [s[0]] + s[1..][..j] && t[..i] == [t[0]] + t[1..][..j];
    }
  }

  function Compact(d: Date): int { d.year * 10_000 + d.month * 100 + d.day }

  lemma CompactOrder(d: Date, e: Date)
    requires 0 <= d.month <= 99 && 0 <= d.day <= 99 && 0 <= e.month <= 99 && 0 <= e.day <= 99
    ensures Before(d, e) <==> Compact(d) < Compact(e)
  {
  }

  /** The first digit that differs decides. */
  lemma DigitDecides(s: Text, t: Text, i: nat)
    requires DateShape(s) && DateShape(t) && i < 10 && s[..i] == t[..i] && s[i] != t[i]
    ensures s[i] < t[i] <==> Compact(Written(s)) < Compact(Written(t))
  {
    assert forall k :: 0 <= k < i ==> s[k] == s[..i][k] && t[k] == t[..i][k];
    assert i != 4 && i != 7;
  }

  lemma ShapeOrder(s: Text, t: Text)
    requires DateShape(s) && DateShape(t)
    ensures CanonicalJson.Less(s, t) <==> Before(Written(s), Written(t))
  {
    hide CanonicalJson.Less, Compact;
    CompactOrder(Written(s), Written(t));
    if s == t {
      CanonicalJson.LessTotal(s, t);
    } else {
      var i := FirstDifference(s, t);
      LessAt(s, t, i);
      DigitDecides(s, t, i);
    }
  }

  // ------------------------------------------------------------ the text of a date

  /** A digit as a unit of text. */
  function Figure(n: int): Unit
    requires 0 <= n <= 9
  {
    (48 + n) as Unit
  }

  function Two(n: int): Text
    requires 0 <= n <= 99
  {
    [Figure(n / 10), Figure(n % 10)]
  }

  /** The date in ten units: year, dash, month, dash, day. */
  function DateText(d: Date): Text
    requires 0 <= d.year <= 9999 && 0 <= d.month <= 99 && 0 <= d.day <= 99
  {
    Two(d.year / 100) + Two(d.year % 100) + [45] + Two(d.month) + [45] + Two(d.day)
  }

  lemma TwoReads(s: Text, i: nat, n: int)
    requires 0 <= n <= 99 && i + 1 < |s|
    ensures s[i..i + 2] == Two(n) ==> IsDigit(s[i]) && IsDigit(s[i + 1]) && Pair(s, i) == n
    ensures IsDigit(s[i]) && IsDigit(s[i + 1]) && Pair(s, i) == n ==> s[i..i + 2] == Two(n)
  {
    assert s[i..i + 2] == [s[i], s[i + 1]];
  }

  lemma DateParts(s: Text, d: Date)
    requires |s| == 10 && 0 <= d.year <= 9999 && 0 <= d.month <= 99 && 0 <= d.day <= 99
    ensures s == DateText(d) <==>
            s[0..2] == Two(d.year / 100) && s[2..4] == Two(d.year % 100) && s[4] == 45
            && s[5..7] == Two(d.month) && s[7] == 45 && s[8..10] == Two(d.day)
  {
    hide Figure;
    assert s == s[0..2] + s[2..4] + [s[4]] + s[5..7] + [s[7]] + s[8..10];
  }

  lemma TextOfDate(s: Text, d: Date)
    requires 0 <= d.year <= 9999 && 0 <= d.month <= 99 && 0 <= d.day <= 99
    ensures s == DateText(d) <==> DateShape(s) && Written(s) == d
  {
    if |s| == 10 {
      hide Two, DateText, IsDigit, Pair;
      DateParts(s, d);
      TwoReads(s, 0, d.year / 100);
      TwoReads(s, 2, d.year % 100);
      TwoReads(s, 5, d.month);
      TwoReads(s, 8, d.day);
    }
  }

  predicate IsTextOf(s: Text, d: Date) {
    && 0 <= d.year <= 9999 && 0 <= d.month <= 99 && 0 <= d.day <= 99
    && s == DateText(d)
  }

  /** Accepted are exactly the texts of calendar dates of the years 100 to 9999. */
  lemma AcceptedAreDates(s: Text)
    ensures AssertStrictDate(s)
            <==> exists d: Date :: ValidDate(d) && 100 <= d.year <= 9999 && IsTextOf(s, d)
  {
    AcceptedIff(s);
    hide AssertStrictDate, ValidDate, DateShape, Written, DateText;
    if DateShape(s) {
      TextOfDate(s, Written(s));
    }
    forall d: Date | 0 <= d.year <= 9999 && IsTextOf(s, d) ensures DateShape(s) && Written(s) == d {
      TextOfDate(s, d);
    }
  }
}
