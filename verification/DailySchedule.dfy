/** The DAILY strategy (scheduling-service/src/domain/strategies/daily.strategy.ts):
    the next delivery strictly after an instant, and exactly when it is that. */
module DailySchedule {
  import opened Options
  import opened Civil
  import opened Zones
  import opened TimeZone

  datatype TimeOfDay = TimeOfDay(hour: int, minute: int, second: int)

  predicate ValidTime(t: TimeOfDay) { 0 <= t.hour < 24 && 0 <= t.minute < 60 && 0 <= t.second < 60 }

  function Millis(t: TimeOfDay): int { t.hour * HOUR + t.minute * MINUTE + t.second * SECOND }

  function WallOn(d: Date, t: TimeOfDay): WallTime {
    WallTime(d.year, d.month, d.day, t.hour, t.minute, t.second)
  }

  function CalendarDateInZone(z: Zone, utc: int): Date { DatePart(WallTimeAt(z, utc)) }

  function AddCalendarDays(d: Date, days: int): Date {
    DatePart(UtcToWall(DateUtc(d.year, d.month - 1, d.day + days, 0)))
  }

  /** The delivery on the local date of `after`, or on the next date if that one
      is not after it. */
  function CalculateNextRun(z: Zone, t: TimeOfDay, after: int): Result<int> {
    var today := CalendarDateInZone(z, after);
    var candidate := Resolve(WallOn(today, t), z);
    if candidate.Err? || candidate.value > after then candidate
    else Resolve(WallOn(AddCalendarDays(today, 1), t), z)
  }

  /** Zones the theorems speak of: all clock changes are modern. */
  predicate Charted(z: Zone) {
    WellFormed(z) && forall i :: 0 <= i < |z.transitions| ==> z.transitions[i].at >= EraFloor() + 20 * DAY
  }

  /** Local midnight starting day number `k`. */
  function Midnight(k: int): int { k * DAY }

  lemma NextMidnight(k: int)
    ensures Midnight(k + 1) == Midnight(k) + DAY
  {
  }

  /** The delivery of day number `k`, if the day has one. */
  function DueOn(z: Zone, t: TimeOfDay, k: int): Option<int> { Settle(z, Midnight(k) + Millis(t)) }

  /** The clock jumps over the delivery of day `k`, and lands too far off for the search. */
  predicate Lost(z: Zone, t: TimeOfDay, i: int, k: int) {
    var n := Midnight(k) + Millis(t);
    InGap(z, i, n) && z.transitions[i].at + z.transitions[i].offset - n > 21_600_000
  }

  ghost predicate Loses(z: Zone, t: TimeOfDay, k: int) { exists i :: Lost(z, t, i, k) }

  lemma LosesIff(z: Zone, t: TimeOfDay, k: int)
    requires WellFormed(z)
    ensures DueOn(z, t, k).None? <==> Loses(z, t, k)
  {
    var n := Midnight(k) + Millis(t);
    MissingIsInGap(z, n);
    if Occurs(z, n) {
      OccurringSettles(z, n);
    }
    forall i | InGap(z, i, n)
      ensures DueOn(z, t, k).None? <==> Lost(z, t, i, k)
    {
      GapSettles(z, i, n);
    }
  }

  /** A zone and a delivery time no day of which is lost. */
  ghost predicate Schedulable(z: Zone, t: TimeOfDay) { Charted(z) && forall k :: !Loses(z, t, k) }

  function Due(z: Zone, t: TimeOfDay, k: int): (v: int)
    requires Schedulable(z, t)
    ensures DueOn(z, t, k) == Some(v)
  {
    LosesIff(z, t, k);
    DueOn(z, t, k).value
  }

  /** What a schedule strategy owes its callers at `x`: the least delivery after `x`. */
  ghost predicate NextAfter(z: Zone, t: TimeOfDay, x: int, r: Result<int>) {
    r.Ok? && r.value > x
    && (exists k :: DueOn(z, t, k) == Some(r.value))
    && (forall k :: DueOn(z, t, k).Some? && DueOn(z, t, k).value > x ==> r.value <= DueOn(z, t, k).value)
  }

  // --------------------------------------------- days as plain counts

  lemma DayIsModern(k: int, t: TimeOfDay)
    requires ValidTime(t) && k >= DayFromYear(101)
    ensures var w := WallOn(DateOf(k), t); Modern(w) && WallToUtc(w) == Midnight(k) + Millis(t)
    ensures 0 <= Millis(t) < DAY
  {
    hide DateOf, MakeDay, DayFromYear;
    var d := DateOf(k);
    YearHolds(d);
    if d.year < 101 {
      YearsGrow(d.year + 1, 101);
    }
    TimeJoin(t.hour, t.minute, t.second);
  }

  lemma NextDay(k: int)
    requires k >= DayFromYear(101)
    ensures AddCalendarDays(DateOf(k), 1) == DateOf(k + 1)
  {
    hide DateOf, DayFromYear, MakeDay;
    DayIsModern(k, TimeOfDay(0, 0, 0));
    var d := DateOf(k);
    TomorrowMakes(d);
    DayJoin(k + 1, 0);
    DateRoundTrip(DatePart(UtcToWall(Midnight(k + 1))));
  }

  lemma TomorrowMakes(d: Date)
    ensures MakeDay(d.year, d.month - 1, d.day + 1) == DayNumber(d) + 1
  {
  }

  /** The day number on the clock at `x`. */
  function LocalDay(z: Zone, x: int): int { Reading(z, x) / DAY }

  lemma LocalDayBounds(z: Zone, x: int)
    ensures var d := LocalDay(z, x);
            Midnight(d) <= Reading(z, x) < Midnight(d + 1) && Midnight(d - 1) + DAY == Midnight(d)
  {
  }

  lemma LateEnough(z: Zone, x: int)
    requires WellFormed(z) && x >= EraFloor() + 10 * DAY
    ensures LocalDay(z, x) >= DayFromYear(101)
  {
    hide DayFromYear;
    Nearby(z, 0, x);
    assert Reading(z, x) >= DayFromYear(101) * DAY;
  }

  /** The code over calendar fields tries two day numbers. */
  lemma NextRunTries(z: Zone, t: TimeOfDay, x: int)
    requires Charted(z) && ValidTime(t) && x >= EraFloor() + 10 * DAY
    ensures var today, tomorrow := DueOn(z, t, LocalDay(z, x)), DueOn(z, t, LocalDay(z, x) + 1);
            CalculateNextRun(z, t, x)
            == FromOption(if today.None? || today.value > x then today else tomorrow)
  {
    hide UtcToWall, WallToUtc, Resolve, Settle, Reading, EraFloor, AddCalendarDays, DateOf, DayFromYear;
    var d := LocalDay(z, x);
    LateEnough(z, x);
    DateRoundTrip(CalendarDateInZone(z, x));
    assert CalendarDateInZone(z, x) == DateOf(d);
    DayIsModern(d, t);
    DayIsModern(d + 1, t);
    NextDay(d);
    ResolveIsSettle(WallOn(DateOf(d), t), z);
    ResolveIsSettle(WallOn(DateOf(d + 1), t), z);
  }

  /** Where no day is lost it picks between them. */
  lemma NextRunCounts(z: Zone, t: TimeOfDay, x: int)
    requires Schedulable(z, t) && ValidTime(t) && x >= EraFloor() + 10 * DAY
    ensures var d := LocalDay(z, x);
            CalculateNextRun(z, t, x) == Ok(if Due(z, t, d) > x then Due(z, t, d) else Due(z, t, d + 1))
  {
    hide CalculateNextRun, DueOn, LocalDay, EraFloor, WellFormed;
    var d := LocalDay(z, x);
    NextRunTries(z, t, x);
    LosesIff(z, t, d);
    LosesIff(z, t, d + 1);
  }

  // --------------------------------------------- when midnight gets in the way

  /** The clock falls back over midnight and the delivery just after midnight
      resolves to its first pass: in the second pass the code answers with an
      instant already gone. */
  predicate Stall(z: Zone, t: TimeOfDay, i: int, k: int) {
    var n := Midnight(k) + Millis(t);
    InOverlap(z, i, n) && n < z.transitions[i].at && z.transitions[i].at + z.transitions[i].offset < Midnight(k)
  }

  /** The clock falls back over midnight and the delivery just before midnight
      resolves to its second pass: after the first midnight the code skips it. */
  predicate Skip(z: Zone, t: TimeOfDay, i: int, k: int) {
    var n := Midnight(k) + Millis(t);
    InOverlap(z, i, n) && n >= z.transitions[i].at && Midnight(k + 1) < z.transitions[i].at + OffsetBefore(z, i)
  }

  /** The clock jumps to or over midnight past a delivery with odd seconds: in the
      seconds after the jump the code skips it. */
  predicate Split(z: Zone, t: TimeOfDay, i: int, k: int) {
    var n := Midnight(k) + Millis(t);
    InGap(z, i, n) && Midnight(k + 1) <= z.transitions[i].at + z.transitions[i].offset && t.second != 0
  }

  /** A clock change catches the delivery time, at midnight or in too long a jump. */
  ghost predicate ClockTrouble(z: Zone, t: TimeOfDay) {
    exists k :: Stalls(z, t, k) || Skips(z, t, k) || Loses(z, t, k)
  }

  lemma NoDayLost(z: Zone, t: TimeOfDay)
    requires Charted(z) && !ClockTrouble(z, t)
    ensures Schedulable(z, t)
  {
    hide Charted, Loses;
  }

  ghost predicate Stalls(z: Zone, t: TimeOfDay, k: int) { exists i :: Stall(z, t, i, k) }

  ghost predicate Skips(z: Zone, t: TimeOfDay, k: int) { exists i :: Skip(z, t, i, k) || Split(z, t, i, k) }

  lemma DueMonotone(z: Zone, t: TimeOfDay, k: int, l: int)
    requires Schedulable(z, t) && k < l
    ensures Due(z, t, k) < Due(z, t, l)
  {
    hide Settle;
    var m, n := Midnight(k) + Millis(t), Midnight(l) + Millis(t);
    assert n - m >= DAY;
    LosesIff(z, t, k);
    LosesIff(z, t, l);
    SettleStrictlyMonotone(z, m, n);
  }

  lemma DueByOffset(z: Zone, n: int, at: int, before: int, after: int)
    requires WellFormed(z) && Settle(z, n).Some?
    requires Regime(z, n - 2 * DAY, n + 2 * DAY, at, before, after) && IsTransition(z, at, before, after)
    ensures var v := Settle(z, n).value;
            (n - before < at && v == n - before && (n < at || n - after < at))
            || (n - after >= at && v == n - after && (n - before >= at || n >= at))
            || (n - after < at <= n - before && at <= v < at + MINUTE && n - after < v <= n - before
                && (v + after - n) % MINUTE == 0)
  {
    hide Once, Hits, Settle, WellFormed, Regime, Reading, OffsetAt, MinutesOut;
    OnceInRegime(z, n - 2 * DAY, n + 2 * DAY, n, at, before, after);
    HitsIffOccurs(z, n);
    if Hits(z, n) {
      OccurringSettles(z, n);
    } else {
      var i :| 0 <= i < |z.transitions| && z.transitions[i] == Transition(at, after) && OffsetBefore(z, i) == before;
      GapSettles(z, i, n);
      MinutesKeepSeconds(0, MinutesOut(z, i, n));
    }
  }

  lemma SecondsLeft(k: int, t: TimeOfDay)
    requires ValidTime(t)
    ensures (Midnight(k) + Millis(t)) % MINUTE == t.second * SECOND
    ensures t.second != 0 ==> (Midnight(k) + Millis(t)) % MINUTE != 0
    ensures 0 <= Millis(t) < DAY && Midnight(k) % MINUTE == 0
  {
    TimeJoin(t.hour, t.minute, t.second);
    DivModUnique(Midnight(k) + Millis(t), MINUTE, k * 1440 + t.hour * 60 + t.minute, t.second * SECOND);
    DivModUnique(Midnight(k), MINUTE, k * 1440, 0);
  }

  /** Yesterday's delivery is past, unless midnight got in the way. */
  lemma YesterdayIsPast(z: Zone, t: TimeOfDay, x: int)
    requires Schedulable(z, t) && ValidTime(t)
    ensures var d := LocalDay(z, x);
            Due(z, t, d - 1) <= x || Skips(z, t, d - 1)
  {
    hide Settle, Once, Hits, Reading, Due, LocalDay, Millis, Midnight, Regime, OffsetAt, WellFormed, MinutesOut;
    var d := LocalDay(z, x);
    LocalDayBounds(z, x);
    NextMidnight(d);
    NextMidnight(d - 1);
    if Due(z, t, d - 1) > x {
      var n := Midnight(d - 1) + Millis(t);
      SecondsLeft(d - 1, t);
      var at, before, after := DueInRegime(z, t, d - 1);
      var v := Due(z, t, d - 1);
      YesterdayReading(z, n, x, v, at, before, after, Midnight(d));
      var i :| 0 <= i < |z.transitions| && z.transitions[i] == Transition(at, after) && OffsetBefore(z, i) == before;
      if n - after < at <= n - before {
        OddSeconds(n, v, x, at, after, d);
        assert Split(z, t, i, d - 1);
      } else {
        assert Skip(z, t, i, d - 1);
      }
    }
  }

  lemma DueInRegime(z: Zone, t: TimeOfDay, k: int) returns (at: int, before: int, after: int)
    requires Schedulable(z, t) && ValidTime(t)
    ensures var n, v := Midnight(k) + Millis(t), Due(z, t, k);
            && Regime(z, n - 2 * DAY, n + 2 * DAY, at, before, after) && IsTransition(z, at, before, after)
            && ((n - before < at && v == n - before && (n < at || n - after < at))
                || (n - after >= at && v == n - after && (n - before >= at || n >= at))
                || (n - after < at <= n - before && at <= v < at + MINUTE && n - after < v <= n - before
                    && (v + after - n) % MINUTE == 0))
            && at % MINUTE == 0 && after % MINUTE == 0
  {
    hide Settle;
    var n := Midnight(k) + Millis(t);
    at, before, after := RegimeExists(z, n - 2 * DAY, n + 2 * DAY);
    LosesIff(z, t, k);
    DueByOffset(z, n, at, before, after);
  }

  lemma YesterdayReading(z: Zone, n: int, x: int, v: int, at: int, before: int, after: int, midnight: int)
    requires WellFormed(z) && Regime(z, n - 2 * DAY, n + 2 * DAY, at, before, after)
    requires n < midnight <= Reading(z, x) && x < v
    requires v == n - before < at || at <= v == n - after
             || (n - after < at <= n - before && at <= v < at + MINUTE && n - after < v <= n - before)
    ensures before != after
    ensures at <= v
    ensures n - after < at <= n - before ==> at <= x && midnight <= x + after
    ensures !(n - after < at <= n - before) ==> v == n - after && midnight < at + before
  {
    Nearby(z, n, x);
    assert OffsetAt(z, x) == if x < at then before else after;
  }

  lemma OddSeconds(n: int, v: int, x: int, at: int, after: int, d: int)
    requires at <= x < v < at + MINUTE && Midnight(d) <= x + after && (v + after - n) % MINUTE == 0
    requires at % MINUTE == 0 && after % MINUTE == 0
    ensures Midnight(d) <= at + after && n % MINUTE != 0
  {
    var q := (v + after - n) / MINUTE;
    assert v + after == n + q * MINUTE;
    MinutesKeepSeconds(n, q);
    var far := at + after;
    assert far == (at / MINUTE + after / MINUTE) * MINUTE;
    DivModUnique(v + after, MINUTE, at / MINUTE + after / MINUTE, v - at);
    FewerMinutes(d * 1440, at / MINUTE + after / MINUTE + 1);
  }

  lemma FewerMinutes(a: int, b: int)
    ensures a * MINUTE < b * MINUTE ==> a < b
  {
  }

  /** Tomorrow's delivery is still to come, unless midnight got in the way. */
  lemma TomorrowIsAhead(z: Zone, t: TimeOfDay, x: int)
    requires Schedulable(z, t) && ValidTime(t)
    ensures var d := LocalDay(z, x);
            Due(z, t, d + 1) > x || Stalls(z, t, d + 1)
  {
    hide Settle, Once, Hits, Reading, Due, LocalDay, Millis, Midnight, Regime, OffsetAt, WellFormed, MinutesOut;
    var d := LocalDay(z, x);
    LocalDayBounds(z, x);
    NextMidnight(d);
    NextMidnight(d - 1);
    if Due(z, t, d + 1) <= x {
      var n := Midnight(d + 1) + Millis(t);
      SecondsLeft(d + 1, t);
      var at, before, after := DueInRegime(z, t, d + 1);
      TomorrowReading(z, n, x, Due(z, t, d + 1), at, before, after, Midnight(d + 1));
      var i :| 0 <= i < |z.transitions| && z.transitions[i] == Transition(at, after) && OffsetBefore(z, i) == before;
      assert Stall(z, t, i, d + 1);
    }
  }

  lemma TomorrowReading(z: Zone, n: int, x: int, v: int, at: int, before: int, after: int, midnight: int)
    requires WellFormed(z) && Regime(z, n - 2 * DAY, n + 2 * DAY, at, before, after)
    requires Reading(z, x) < midnight <= n && v <= x
    requires v == n - before < at || at <= v == n - after
             || (n - after < at <= n - before && at <= v < at + MINUTE && n - after < v <= n - before)
    ensures before != after && v == n - before < at && at + after < midnight && at <= x
  {
    Nearby(z, n, x);
    assert OffsetAt(z, x) == if x < at then before else after;
  }

  /** With yesterday's delivery past, the first of today's and tomorrow's ahead is the least. */
  lemma LeastAhead(z: Zone, t: TimeOfDay, x: int, d: int, c: int)
    requires Schedulable(z, t) && Due(z, t, d - 1) <= x < Due(z, t, c)
    requires c == d || (c == d + 1 && Due(z, t, d) <= x)
    ensures NextAfter(z, t, x, Ok(Due(z, t, c)))
  {
    hide Due, DueOn, Schedulable;
    forall k | DueOn(z, t, k).Some? && DueOn(z, t, k).value > x ensures Due(z, t, c) <= DueOn(z, t, k).value {
      var due := Due(z, t, k);
      if k < d - 1 {
        DueMonotone(z, t, k, d - 1);
      } else if k > c {
        DueMonotone(z, t, c, k);
      }
    }
  }

  /** Off those midnights, and with no day lost, the code returns the least delivery after `x`. */
  lemma NextRunIsNext(z: Zone, t: TimeOfDay, x: int)
    requires Charted(z) && ValidTime(t) && x >= EraFloor() + 10 * DAY
    requires !ClockTrouble(z, t)
    ensures NextAfter(z, t, x, CalculateNextRun(z, t, x))
  {
    hide Stalls, Skips, Loses, Charted, EraFloor, CalculateNextRun, Due, LocalDay, NextAfter;
    NoDayLost(z, t);
    var d := LocalDay(z, x);
    NextRunCounts(z, t, x);
    YesterdayIsPast(z, t, x);
    TomorrowIsAhead(z, t, x);
    LeastAhead(z, t, x, d, if Due(z, t, d) > x then d else d + 1);
  }

  /** The three midnights each break the promise. */
  lemma StallBreaks(z: Zone, t: TimeOfDay, i: int, k: int) returns (x: int)
    requires Schedulable(z, t) && ValidTime(t) && Stall(z, t, i, k)
    ensures x >= EraFloor() + 10 * DAY && !NextAfter(z, t, x, CalculateNextRun(z, t, x))
  {
    hide Due, CalculateNextRun, LocalDay, EraFloor, Millis, WellFormed, Midnight;
    var tr := z.transitions[i];
    NextMidnight(k - 1);
    x := Midnight(k) - tr.offset - 1;
    OverlapDue(z, t, i, k);
    ClockAfter(z, i, x, k - 1, DAY - 1);
    NextRunCounts(z, t, x);
    DueMonotone(z, t, k - 1, k);
  }

  lemma SkipBreaks(z: Zone, t: TimeOfDay, i: int, k: int) returns (x: int)
    requires Schedulable(z, t) && ValidTime(t) && Skip(z, t, i, k)
    ensures x >= EraFloor() + 10 * DAY && !NextAfter(z, t, x, CalculateNextRun(z, t, x))
  {
    hide Due, CalculateNextRun, LocalDay, EraFloor, Millis, WellFormed, Midnight;
    NextMidnight(k);
    NextMidnight(k + 1);
    x := Midnight(k + 1) - OffsetBefore(z, i);
    OverlapDue(z, t, i, k);
    ClockBefore(z, i, x, k + 1);
    NextRunCounts(z, t, x);
    DueMonotone(z, t, k, k + 1);
    DueMonotone(z, t, k, k + 2);
  }

  lemma SplitBreaks(z: Zone, t: TimeOfDay, i: int, k: int) returns (x: int)
    requires Schedulable(z, t) && ValidTime(t) && Split(z, t, i, k)
    ensures x >= EraFloor() + 10 * DAY && !NextAfter(z, t, x, CalculateNextRun(z, t, x))
  {
    hide Due, CalculateNextRun, LocalDay, EraFloor, Millis, WellFormed, Midnight;
    NextMidnight(k);
    NextMidnight(k + 1);
    x := z.transitions[i].at;
    GapDue(z, t, i, k);
    ClockAfter(z, i, x, k + 1, x + z.transitions[i].offset - Midnight(k + 1));
    NextRunCounts(z, t, x);
    DueMonotone(z, t, k, k + 1);
    DueMonotone(z, t, k, k + 2);
  }

  /** The local day at an instant soon after, or shortly before, transition `i`. */
  lemma ClockAfter(z: Zone, i: int, x: int, k: int, r: int)
    requires Charted(z) && 0 <= i < |z.transitions| && 0 <= r < DAY
    requires z.transitions[i].at <= x <= z.transitions[i].at + 3 * DAY
    requires x + z.transitions[i].offset == Midnight(k) + r
    ensures LocalDay(z, x) == k && x >= EraFloor() + 10 * DAY
  {
    hide EraFloor;
    RegimeAt(z, i, z.transitions[i].at, z.transitions[i].at + 3 * DAY);
    DayJoin(k, r);
  }

  lemma ClockBefore(z: Zone, i: int, x: int, k: int)
    requires Charted(z) && 0 <= i < |z.transitions|
    requires z.transitions[i].at - 3 * DAY <= x < z.transitions[i].at
    requires x + OffsetBefore(z, i) == Midnight(k)
    ensures LocalDay(z, x) == k && x >= EraFloor() + 10 * DAY
  {
    hide EraFloor;
    RegimeAt(z, i, z.transitions[i].at - 3 * DAY, z.transitions[i].at);
    assert OffsetAt(z, x) == OffsetBefore(z, i);
    DayJoin(k, 0);
  }

  lemma TransitionFacts(z: Zone, i: int)
    requires WellFormed(z) && 0 <= i < |z.transitions|
    ensures var o, b := z.transitions[i].offset, OffsetBefore(z, i);
            -DAY < o < DAY && o % MINUTE == 0 && -DAY < b < DAY && b % MINUTE == 0
            && z.transitions[i].at % MINUTE == 0
  {
    assert ValidOffset(z.transitions[i].offset);
    OffsetBeforeIsValid(z, i);
  }

  lemma OverlapDue(z: Zone, t: TimeOfDay, i: int, k: int)
    requires Schedulable(z, t) && ValidTime(t) && InOverlap(z, i, Midnight(k) + Millis(t))
    ensures var n, tr := Midnight(k) + Millis(t), z.transitions[i];
            Due(z, t, k) == (if n < tr.at then n - OffsetBefore(z, i) else n - tr.offset)
            && (n < tr.at <==> Due(z, t, k) < tr.at)
            && Midnight(k) <= n < Midnight(k) + DAY && tr.at + tr.offset <= n < tr.at + OffsetBefore(z, i)
            && -DAY < tr.offset < DAY && -DAY < OffsetBefore(z, i) < DAY
  {
    hide Settle, Millis, WellFormed, Reading, Midnight, OffsetBefore;
    var n := Midnight(k) + Millis(t);
    TransitionFacts(z, i);
    SecondsLeft(k, t);
    OverlapChoice(z, i, n);
  }

  lemma GapDue(z: Zone, t: TimeOfDay, i: int, k: int)
    requires Schedulable(z, t) && ValidTime(t) && Split(z, t, i, k)
    ensures Due(z, t, k) > z.transitions[i].at
    ensures Midnight(k + 1) <= z.transitions[i].at + z.transitions[i].offset < Midnight(k + 2)
  {
    hide Settle, Millis, WellFormed, Reading, MinutesOut, Midnight;
    var n := Midnight(k) + Millis(t);
    TransitionFacts(z, i);
    SecondsLeft(k, t);
    NextMidnight(k);
    NextMidnight(k + 1);
    LosesIff(z, t, k);
    GapSettles(z, i, n);
    OffTheMinute(n, MinutesOut(z, i, n), z.transitions[i].at, z.transitions[i].offset);
  }

  lemma OffTheMinute(n: int, q: int, at: int, after: int)
    requires n % MINUTE != 0 && at % MINUTE == 0 && after % MINUTE == 0
    ensures n + q * MINUTE - after != at
  {
    if n + q * MINUTE - after == at {
      MinutesKeepSeconds(n, q);
      assert at + after == (at / MINUTE + after / MINUTE) * MINUTE;
      DivModUnique(at + after, MINUTE, at / MINUTE + after / MINUTE, 0);
    }
  }

  /** A lost day breaks the promise too: just before the jump the code gives up. */
  lemma LossBreaks(z: Zone, t: TimeOfDay, i: int, k: int) returns (x: int)
    requires Charted(z) && ValidTime(t) && Lost(z, t, i, k)
    ensures x >= EraFloor() + 10 * DAY && CalculateNextRun(z, t, x).Err?
  {
    hide DueOn, CalculateNextRun, LocalDay, EraFloor, Millis, WellFormed, Midnight;
    var at, before := z.transitions[i].at, OffsetBefore(z, i);
    x := at - 1;
    var d := LocalDay(z, x);
    TransitionFacts(z, i);
    ClockJust(z, i, x);
    LocalDayBounds(z, x);
    NextMidnight(d);
    SecondsLeft(d, t);
    SecondsLeft(d + 1, t);
    SecondsLeft(k, t);
    DaysApart(d, k);
    NextRunTries(z, t, x);
    if Midnight(d) + Millis(t) >= at + before {
      assert Lost(z, t, i, d);
      LosesIff(z, t, d);
    } else {
      EarlierIsPast(z, t, i, d);
      assert d < k;
      DaysApart(d + 1, k);
      assert Lost(z, t, i, d + 1);
      LosesIff(z, t, d + 1);
    }
  }

  lemma DaysApart(d: int, k: int)
    ensures d <= k ==> Midnight(d) <= Midnight(k)
    ensures d > k ==> Midnight(d) >= Midnight(k) + DAY
  {
  }

  lemma ClockJust(z: Zone, i: int, x: int)
    requires WellFormed(z) && 0 <= i < |z.transitions| && x == z.transitions[i].at - 1
    ensures Reading(z, x) == x + OffsetBefore(z, i)
  {
    RegimeAt(z, i, z.transitions[i].at - DAY, z.transitions[i].at);
    assert OffsetAt(z, x) == OffsetBefore(z, i);
  }

  /** What the clock shows less than a day before a jump is delivered before it. */
  lemma EarlierIsPast(z: Zone, t: TimeOfDay, i: int, k: int)
    requires WellFormed(z) && 0 <= i < |z.transitions| && OffsetBefore(z, i) < z.transitions[i].offset
    requires z.transitions[i].at + OffsetBefore(z, i) - DAY <= Midnight(k) + Millis(t)
             < z.transitions[i].at + OffsetBefore(z, i)
    ensures DueOn(z, t, k).Some? && DueOn(z, t, k).value < z.transitions[i].at
  {
    hide Settle, Millis, Midnight, Once, Hits;
    var n, tr := Midnight(k) + Millis(t), z.transitions[i];
    TransitionFacts(z, i);
    RegimeAt(z, i, n - 2 * DAY, n + 2 * DAY);
    OnceInRegime(z, n - 2 * DAY, n + 2 * DAY, n, tr.at, OffsetBefore(z, i), tr.offset);
    HitsIffOccurs(z, n);
    OccurringSettles(z, n);
  }

  /** The DAILY strategy keeps its contract at every instant exactly when no clock
      change catches its delivery time. */
  lemma DailyContract(z: Zone, t: TimeOfDay)
    requires Charted(z) && ValidTime(t)
    ensures (forall x :: x >= EraFloor() + 10 * DAY ==> NextAfter(z, t, x, CalculateNextRun(z, t, x)))
            <==> !ClockTrouble(z, t)
  {
    hide CalculateNextRun, Charted, EraFloor, Stall, Skip, Split, Lost, DueOn;
    if !ClockTrouble(z, t) {
      forall x | x >= EraFloor() + 10 * DAY
        ensures NextAfter(z, t, x, CalculateNextRun(z, t, x))
      {
        NextRunIsNext(z, t, x);
      }
    } else {
      var x := TroubleBreaks(z, t);
    }
  }

  lemma TroubleBreaks(z: Zone, t: TimeOfDay) returns (x: int)
    requires Charted(z) && ValidTime(t) && ClockTrouble(z, t)
    ensures x >= EraFloor() + 10 * DAY && !NextAfter(z, t, x, CalculateNextRun(z, t, x))
  {
    hide CalculateNextRun, Charted, EraFloor, Stall, Skip, Split, Lost, DueOn;
    if k :| Loses(z, t, k) {
      var i :| Lost(z, t, i, k);
      x := LossBreaks(z, t, i, k);
    } else {
      hide Loses;
      assert Schedulable(z, t);
      var k :| Stalls(z, t, k) || Skips(z, t, k);
      if Stalls(z, t, k) {
        var i :| Stall(z, t, i, k);
        x := StallBreaks(z, t, i, k);
      } else {
        var i :| Skip(z, t, i, k) || Split(z, t, i, k);
        if Skip(z, t, i, k) {
          x := SkipBreaks(z, t, i, k);
        } else {
          x := SplitBreaks(z, t, i, k);
        }
      }
    }
  }

  // ------------------------------------------------------------ such zones exist

  /** A day in the modern era. */
  function SomeDay(): int { DayFromYear(101) + 100 }

  /** A zone with one change, some minutes after midnight UTC of that day. */
  function OneChange(before: int, minutes: int, after: int): Zone {
    Zone(before * MINUTE, [Transition(Midnight(SomeDay()) + minutes * MINUTE, after * MINUTE)])
  }

  lemma OneChangeCharted(before: int, minutes: int, after: int)
    requires -1440 < before < 1440 && -1440 < after < 1440 && 0 <= minutes
    ensures Charted(OneChange(before, minutes, after))
  {
    hide DayFromYear;
    DivModUnique(before * MINUTE, MINUTE, before, 0);
    DivModUnique(after * MINUTE, MINUTE, after, 0);
    DivModUnique(Midnight(SomeDay()) + minutes * MINUTE, MINUTE, SomeDay() * 1440 + minutes, 0);
  }

  /** At UTC-2:30 the clock goes back an hour at 00:01; deliveries at 00:00:30. */
  lemma StallHappens() returns (z: Zone, t: TimeOfDay)
    ensures Charted(z) && ValidTime(t) && Stalls(z, t, SomeDay())
  {
    hide DayFromYear;
    z, t := OneChange(-150, 151, -210), TimeOfDay(0, 0, 30);
    OneChangeCharted(-150, 151, -210);
    assert Stall(z, t, 0, SomeDay());
  }

  /** At UTC+3 the clock goes back an hour at 00:30; deliveries at 23:45. */
  lemma SkipHappens() returns (z: Zone, t: TimeOfDay)
    ensures Charted(z) && ValidTime(t) && exists i :: Skip(z, t, i, SomeDay())
  {
    hide DayFromYear;
    z, t := OneChange(180, 1290, 120), TimeOfDay(23, 45, 0);
    OneChangeCharted(180, 1290, 120);
    assert Skip(z, t, 0, SomeDay());
  }

  /** At UTC-2 the clock goes forward an hour at 23:00; deliveries at 23:30:15. */
  lemma SplitHappens() returns (z: Zone, t: TimeOfDay)
    ensures Charted(z) && ValidTime(t) && exists i :: Split(z, t, i, SomeDay())
  {
    hide DayFromYear;
    z, t := OneChange(-120, 1500, -60), TimeOfDay(23, 30, 15);
    OneChangeCharted(-120, 1500, -60);
    assert Split(z, t, 0, SomeDay());
  }

  /** A whole day is left out, as in Samoa at the end of 2011; deliveries at 09:00. */
  lemma LossHappens() returns (z: Zone, t: TimeOfDay)
    ensures Charted(z) && ValidTime(t) && Loses(z, t, SomeDay())
  {
    hide DayFromYear;
    z, t := OneChange(-600, 600, 840), TimeOfDay(9, 0, 0);
    OneChangeCharted(-600, 600, 840);
    assert Lost(z, t, 0, SomeDay());
  }
}
