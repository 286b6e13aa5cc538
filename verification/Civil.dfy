/** The proleptic Gregorian calendar underneath the scheduling and query code:
    the part of the Date built-in (section 21.4 of ECMA-262) that they call. */
module Civil {

  const SECOND := 1_000
  const MINUTE := 60_000
  const HOUR := 3_600_000
  const DAY := 86_400_000

  /** Quotient and remainder are unique. */
  lemma DivModUnique(x: int, m: int, q: int, r: int)
    requires m > 0 && x == q * m + r && 0 <= r < m
    ensures x / m == q && x % m == r
  {
    var d := x / m;
    assert (d - q) * m == r - x % m;
    if d > q {
      MulAtLeast(d - q, m);
    } else if d < q {
      MulAtLeast(q - d, m);
    }
  }

  lemma MulAtLeast(k: int, m: int)
    requires k >= 1 && m > 0
    ensures k * m >= m
  {
  }

  lemma StepSum(p: int, n: int, a: int, b: int)
    requires p == n + a * MINUTE
    ensures p + b * MINUTE == n + (a + b) * MINUTE
  {
  }

  // ---------------------------------------------------------------- dates

  datatype Date = Date(year: int, month: int, day: int)

  predicate IsLeap(y: int) {
    y % 4 == 0 && (y % 100 != 0 || y % 400 == 0)
  }

  function DaysInYear(y: int): int {
    if IsLeap(y) then 366 else 365
  }

  function DaysInMonth(y: int, m: int): int {
    if m == 2 then (if IsLeap(y) then 29 else 28)
    else if m in {4, 6, 9, 11} then 30
    else 31
  }

  predicate ValidDate(d: Date) {
    1 <= d.month <= 12 && 1 <= d.day <= DaysInMonth(d.year, d.month)
  }

  /** Day number of 1 January of year `y`, counted from 1 January 1970. */
  function DayFromYear(y: int): int {
    365 * (y - 1970) + (y - 1969) / 4 - (y - 1901) / 100 + (y - 1601) / 400
  }

  /** Days in the first `months` months of year `y`. */
  function DaysBefore(y: int, months: int): int
    decreases months
  {
    if months <= 0 then 0 else DaysBefore(y, months - 1) + DaysInMonth(y, months)
  }

  /** MakeDay of section 21.4.1: out-of-range months and days carry over. */
  function MakeDay(y: int, month0: int, day: int): int {
    DayFromYear(y + month0 / 12) + DaysBefore(y + month0 / 12, month0 % 12) + day - 1
  }

  function DayNumber(d: Date): int {
    MakeDay(d.year, d.month - 1, d.day)
  }

  /** One more year passes a multiple of `m` exactly when that year is one. */
  lemma CountMultiples(y: int, m: int, k: int)
    requires m > 1
    ensures (y - k * m) / m == (y - k * m - 1) / m + if y % m == 0 then 1 else 0
  {
    var q, r := y / m, y % m;
    DivModUnique(y - k * m, m, q - k, r);
    if r == 0 {
      DivModUnique(y - k * m - 1, m, q - k - 1, m - 1);
    } else {
      DivModUnique(y - k * m - 1, m, q - k, r - 1);
    }
  }

  lemma YearStep(y: int)
    ensures DayFromYear(y + 1) == DayFromYear(y) + DaysInYear(y)
  {
    CountMultiples(y, 4, 492);
    CountMultiples(y, 100, 19);
    CountMultiples(y, 400, 4);
    LeapDivides(y);
  }

  lemma LeapDivides(y: int)
    ensures y % 400 == 0 ==> y % 100 == 0
    ensures y % 100 == 0 ==> y % 4 == 0
  {
  }

  lemma {:induction false} YearsGrow(a: int, b: int)
    requires a <= b
    ensures 365 * (b - a) <= DayFromYear(b) - DayFromYear(a) <= 366 * (b - a)
    decreases b - a
  {
    if a < b {
      YearsGrow(a, b - 1);
      YearStep(b - 1);
    }
  }

  lemma MonthTable(y: int)
    ensures var l := if IsLeap(y) then 1 else 0;
            DaysBefore(y, 0) == 0 && DaysBefore(y, 1) == 31 && DaysBefore(y, 2) == 59 + l
            && DaysBefore(y, 3) == 90 + l && DaysBefore(y, 4) == 120 + l && DaysBefore(y, 5) == 151 + l
            && DaysBefore(y, 6) == 181 + l && DaysBefore(y, 7) == 212 + l && DaysBefore(y, 8) == 243 + l
            && DaysBefore(y, 9) == 273 + l && DaysBefore(y, 10) == 304 + l && DaysBefore(y, 11) == 334 + l
            && DaysBefore(y, 12) == DaysInYear(y)
  {
    assert DaysBefore(y, 3) == DaysBefore(y, 2) + 31;
    assert DaysBefore(y, 6) == DaysBefore(y, 5) + 30 == DaysBefore(y, 4) + 61;
    assert DaysBefore(y, 9) == DaysBefore(y, 8) + 30 == DaysBefore(y, 7) + 61;
    assert DaysBefore(y, 12) == DaysBefore(y, 11) + 31 == DaysBefore(y, 10) + 61;
  }

  lemma {:induction false} MonthsGrow(y: int, a: int, b: int)
    requires 0 <= a < b <= 12
    ensures DaysBefore(y, a) + DaysInMonth(y, a + 1) <= DaysBefore(y, b)
    decreases b
  {
    if a < b - 1 {
      MonthsGrow(y, a, b - 1);
    }
  }

  lemma {:induction false} DaysBeforeNonNegative(y: int, months: int)
    ensures DaysBefore(y, months) >= 0
    decreases months
  {
    if months > 0 {
      DaysBeforeNonNegative(y, months - 1);
    }
  }

  /** The last year that starts on or before day `n`, searching up from `y`. */
  function YearFrom(n: int, y: int): (r: int)
    requires DayFromYear(y) <= n
    ensures DayFromYear(r) <= n < DayFromYear(r + 1)
    decreases n - DayFromYear(y)
  {
    YearStep(y);
    if n < DayFromYear(y + 1) then y else YearFrom(n, y + 1)
  }

  function YearOf(n: int): (r: int)
    ensures DayFromYear(r) <= n < DayFromYear(r + 1)
  {
    if n >= 0 then
      YearsGrow(1970, 1970 + n / 366);
      YearFrom(n, 1970 + n / 366)
    else
      YearsGrow(1970 + n / 365, 1970);
      YearFrom(n, 1970 + n / 365)
  }

  /** The month holding day `k` (from 0) of year `y`, searching up from `m`. */
  function MonthFrom(y: int, k: int, m: int): (r: int)
    requires 1 <= m <= 12 && DaysBefore(y, m - 1) <= k < DaysBefore(y, 12)
    ensures 1 <= r <= 12 && DaysBefore(y, r - 1) <= k < DaysBefore(y, r)
    decreases 12 - m
  {
    if k < DaysBefore(y, m) then m else MonthFrom(y, k, m + 1)
  }

  lemma DayNumberForm(d: Date)
    requires 1 <= d.month <= 12
    ensures DayNumber(d) == DayFromYear(d.year) + DaysBefore(d.year, d.month - 1) + d.day - 1
  {
    assert (d.month - 1) / 12 == 0 && (d.month - 1) % 12 == d.month - 1;
  }

  function DateOf(n: int): (d: Date)
    ensures ValidDate(d) && DayNumber(d) == n
  {
    var y := YearOf(n);
    YearStep(y);
    MonthTable(y);
    var k := n - DayFromYear(y);
    var m := MonthFrom(y, k, 1);
    var d := Date(y, m, k - DaysBefore(y, m - 1) + 1);
    DayNumberForm(d);
    d
  }

  predicate Before(a: Date, b: Date) {
    a.year < b.year
    || (a.year == b.year && (a.month < b.month || (a.month == b.month && a.day < b.day)))
  }

  /** A date lies inside its year. */
  lemma YearHolds(d: Date)
    requires ValidDate(d)
    ensures DayFromYear(d.year) <= DayNumber(d) < DayFromYear(d.year + 1)
  {
    hide DayFromYear, MakeDay, IsLeap, DayNumber, DaysBefore;
    DayNumberForm(d);
    YearStep(d.year);
    DaysBeforeNonNegative(d.year, d.month - 1);
    MonthInYear(d.year, d.month);
  }

  lemma MonthInYear(y: int, m: int)
    requires 1 <= m <= 12
    ensures DaysBefore(y, m - 1) + DaysInMonth(y, m) <= DaysInYear(y)
  {
    MonthTable(y);
    MonthsGrow(y, m - 1, 12);
  }

  /** Calendar order is day-number order. */
  lemma DayNumberMonotone(a: Date, b: Date)
    requires ValidDate(a) && ValidDate(b) && Before(a, b)
    ensures DayNumber(a) < DayNumber(b)
  {
    hide DayFromYear, MakeDay, IsLeap, DayNumber, DaysBefore;
    if a.year < b.year {
      YearHolds(a);
      YearHolds(b);
      YearsGrow(a.year + 1, b.year);
    } else {
      DayNumberForm(a);
      DayNumberForm(b);
      if a.month < b.month {
        MonthsGrow(a.year, a.month - 1, b.month - 1);
      }
    }
  }

  /** Each calendar date is the date of its own day number. */
  lemma DateRoundTrip(d: Date)
    requires ValidDate(d)
    ensures DateOf(DayNumber(d)) == d
  {
    var e := DateOf(DayNumber(d));
    if Before(d, e) {
      DayNumberMonotone(d, e);
    } else if Before(e, d) {
      DayNumberMonotone(e, d);
    }
  }

  /** Days are counted from 1 January 1970, and each is followed by the next one of the
      calendar: months of 30 and 31 days, February of 28 or in leap years 29. */
  lemma Tomorrow(n: int)
    ensures n == 0 ==> DateOf(n) == Date(1970, 1, 1)
    ensures var d := DateOf(n);
            var leap := d.year % 4 == 0 && (d.year % 100 != 0 || d.year % 400 == 0);
            var last := if d.month == 2 then (if leap then 29 else 28)
                        else if d.month == 4 || d.month == 6 || d.month == 9 || d.month == 11 then 30 else 31;
            DateOf(n + 1) == if d.day < last then Date(d.year, d.month, d.day + 1)
                             else if d.month < 12 then Date(d.year, d.month + 1, 1)
                             else Date(d.year + 1, 1, 1)
  {
    hide DateOf, DayFromYear, MakeDay, DayNumber;
    var d := DateOf(n);
    var y, m := d.year, d.month;
    DayNumberForm(d);
    DayNumberForm(Date(y, m, d.day + 1));
    DayNumberForm(Date(y + 1, 1, 1));
    if m < 12 {
      DayNumberForm(Date(y, m + 1, 1));
    }
    MonthTable(y);
    YearStep(y);
    var e := if d.day < DaysInMonth(y, m) then Date(y, m, d.day + 1)
             else if m < 12 then Date(y, m + 1, 1) else Date(y + 1, 1, 1);
    assert DaysBefore(y, m) == DaysBefore(y, m - 1) + DaysInMonth(y, m);
    assert DayNumber(e) == n + 1;
    DateRoundTrip(e);
    if n == 0 {
      FirstDay(Date(1970, 1, 1));
      DateRoundTrip(Date(1970, 1, 1));
    }
  }

  /** Two first days of January. */
  lemma YearAt(y: int)
    ensures y == 1970 ==> DayFromYear(y) == 0
    ensures y == 2026 ==> DayFromYear(y) == 20_454
  {
  }

  lemma FirstDay(d: Date)
    requires d == Date(1970, 1, 1)
    ensures DayNumber(d) == 0
  {
    hide DayNumber, DayFromYear;
    DayNumberForm(d);
    YearAt(d.year);
    MonthTable(d.year);
  }

  // ----------------------------------------------------------- wall times

  datatype WallTime = WallTime(year: int, month: int, day: int, hour: int, minute: int, second: int)

  function DatePart(w: WallTime): Date { Date(w.year, w.month, w.day) }

  function TimePart(w: WallTime): int { w.hour * HOUR + w.minute * MINUTE + w.second * SECOND }

  predicate ValidWall(w: WallTime) {
    ValidDate(DatePart(w)) && 0 <= w.hour < 24 && 0 <= w.minute < 60 && 0 <= w.second < 60
  }

  /** Years 0 to 99 mean 1900 to 1999 (section 21.4.3.4). */
  function FullYear(y: int): int {
    if 0 <= y <= 99 then 1900 + y else y
  }

  /** Date.UTC, in milliseconds since the epoch. */
  function DateUtc(y: int, month0: int, day: int, timeOfDay: int): int {
    MakeDay(FullYear(y), month0, day) * DAY + timeOfDay
  }

  function WallToUtc(w: WallTime): int {
    DateUtc(w.year, w.month - 1, w.day, TimePart(w))
  }

  /** The getUTC... fields of an instant. */
  function UtcToWall(ms: int): (w: WallTime)
    ensures ValidWall(w)
    ensures DayNumber(DatePart(w)) == ms / DAY
  {
    var d := DateOf(ms / DAY);
    var t := ms % DAY;
    WallTime(d.year, d.month, d.day, t / HOUR, t % HOUR / MINUTE, t % MINUTE / SECOND)
  }

  /** An instant is its days, hours, minutes and seconds since then. */
  lemma FieldsCount(w: WallTime)
    requires ValidWall(w) && !(0 <= w.year <= 99)
    ensures WallToUtc(w)
            == DayNumber(DatePart(w)) * 86_400_000 + w.hour * 3_600_000 + w.minute * 60_000 + w.second * 1_000
  {
  }

  predicate WholeSecond(ms: int) { ms % SECOND == 0 }

  /** The clock fields of a time of day, and the time of day of clock fields. */
  lemma TimeSplit(t: int)
    requires 0 <= t < DAY
    ensures t / HOUR * HOUR + t % HOUR / MINUTE * MINUTE + t % MINUTE / SECOND * SECOND == t - t % SECOND
  {
    var h, m, s := t / HOUR, t % HOUR / MINUTE, t % MINUTE / SECOND;
    DivModUnique(t, MINUTE, 60 * h + m, t % HOUR % MINUTE);
    DivModUnique(t, SECOND, 60 * (60 * h + m) + s, t % MINUTE % SECOND);
  }

  lemma TimeJoin(h: int, m: int, s: int)
    requires 0 <= h < 24 && 0 <= m < 60 && 0 <= s < 60
    ensures var t := h * HOUR + m * MINUTE + s * SECOND;
            0 <= t < DAY && t / HOUR == h && t % HOUR / MINUTE == m && t % MINUTE / SECOND == s
            && t % SECOND == 0
  {
    var t := h * HOUR + m * MINUTE + s * SECOND;
    DivModUnique(t, HOUR, h, m * MINUTE + s * SECOND);
    DivModUnique(m * MINUTE + s * SECOND, MINUTE, m, s * SECOND);
    DivModUnique(t, MINUTE, 60 * h + m, s * SECOND);
    DivModUnique(s * SECOND, SECOND, s, 0);
    DivModUnique(t, SECOND, 60 * (60 * h + m) + s, 0);
  }

  lemma DayJoin(n: int, t: int)
    requires 0 <= t < DAY
    ensures (n * DAY + t) / DAY == n && (n * DAY + t) % DAY == t && (n * DAY + t) % SECOND == t % SECOND
  {
    DivModUnique(n * DAY + t, DAY, n, t);
    DivModUnique(n * DAY + t, SECOND, n * 86_400 + t / SECOND, t % SECOND);
  }

  /** Fields to epoch and back, outside the two-digit years. */
  lemma WallRoundTrip(w: WallTime)
    requires ValidWall(w) && !(0 <= w.year <= 99)
    ensures UtcToWall(WallToUtc(w)) == w
    ensures WholeSecond(WallToUtc(w))
    ensures WallToUtc(w) / DAY == DayNumber(DatePart(w)) && WallToUtc(w) % DAY == TimePart(w)
  {
    hide DateOf, MakeDay;
    var t := TimePart(w);
    TimeJoin(w.hour, w.minute, w.second);
    DayJoin(DayNumber(DatePart(w)), t);
    DateRoundTrip(DatePart(w));
  }

  lemma SecondsInDay(ms: int)
    ensures ms % DAY % SECOND == ms % SECOND
  {
    DayJoin(ms / DAY, ms % DAY);
  }

  lemma UtcFields(ms: int)
    ensures TimePart(UtcToWall(ms)) == ms % DAY - ms % SECOND
  {
    hide DateOf;
    SecondsInDay(ms);
    TimeSplit(ms % DAY);
  }

  /** Epoch to fields and back, losing only the milliseconds. */
  lemma UtcRoundTrip(ms: int)
    requires !(0 <= UtcToWall(ms).year <= 99)
    ensures WallToUtc(UtcToWall(ms)) == ms - ms % SECOND
  {
    hide DateOf, MakeDay;
    UtcFields(ms);
    var w := UtcToWall(ms);
    assert WallToUtc(w) == DayNumber(DatePart(w)) * DAY + TimePart(w);
  }

  lemma WallToUtcWholeSecond(w: WallTime)
    requires ValidWall(w)
    ensures WholeSecond(WallToUtc(w))
  {
    hide MakeDay;
    TimeJoin(w.hour, w.minute, w.second);
    DayJoin(MakeDay(FullYear(w.year), w.month - 1, w.day), TimePart(w));
  }

  lemma MinutesKeepSeconds(ms: int, k: int)
    ensures (ms + k * MINUTE) % SECOND == ms % SECOND
    ensures (ms + k * MINUTE) % MINUTE == ms % MINUTE
  {
    DivModUnique(ms + k * MINUTE, MINUTE, ms / MINUTE + k, ms % MINUTE);
    DivModUnique(ms + k * MINUTE, SECOND, ms / SECOND + k * 60, ms % SECOND);
  }

  function AddMinutes(w: WallTime, minutes: int): WallTime {
    UtcToWall(WallToUtc(w) + minutes * MINUTE)
  }

  lemma AddMinutesExact(w: WallTime, a: int)
    requires ValidWall(w) && !(0 <= AddMinutes(w, a).year <= 99)
    ensures WallToUtc(AddMinutes(w, a)) == WallToUtc(w) + a * MINUTE
  {
    hide UtcToWall, WallToUtc;
    WallToUtcWholeSecond(w);
    MinutesKeepSeconds(WallToUtc(w), a);
    UtcRoundTrip(WallToUtc(w) + a * MINUTE);
  }

  /** Stepping minutes composes: the search in zonedWallTimeToUtc walks one line. */
  lemma AddMinutesComposes(w: WallTime, a: int, b: int)
    requires ValidWall(w)
    requires !(0 <= AddMinutes(w, a).year <= 99)
    ensures AddMinutes(AddMinutes(w, a), b) == AddMinutes(w, a + b)
  {
    hide UtcToWall, WallToUtc;
    AddMinutesExact(w, a);
    StepSum(WallToUtc(AddMinutes(w, a)), WallToUtc(w), a, b);
  }
}
