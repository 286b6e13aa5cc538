/** What zonedWallTimeToUtc guarantees around clock changes. */
module DstPolicy {
  import opened Options
  import opened Civil
  import opened Zones
  import opened TimeZone

  /** The clock of zone `z` shows `w` at some instant. */
  ghost predicate Shown(w: WallTime, z: Zone) {
    exists t :: t >= EraFloor() + DAY && WallTimeAt(z, t) == w
  }

  /** The code answered with an instant at which the clock shows `w`. */
  predicate Honoured(w: WallTime, z: Zone) {
    Resolve(w, z).Ok? && WallTimeAt(z, Resolve(w, z).value) == w
  }

  lemma ShownIffOccurs(w: WallTime, z: Zone)
    requires WellFormed(z) && Modern(w)
    ensures Shown(w, z) <==> Occurs(z, WallToUtc(w))
  {
    hide UtcToWall, WallToUtc;
    var n := WallToUtc(w);
    ModernStart(w);
    WallRoundTrip(w);
    if Shown(w, z) {
      var t :| t >= EraFloor() + DAY && WallTimeAt(z, t) == w;
      Nearby(z, 0, t);
      OffsetIsValid(z, t, |z.transitions|);
      EraYears(Reading(z, t));
      UtcRoundTrip(Reading(z, t));
      DropMillis(z, t);
    }
    if Occurs(z, n) {
      var t :| Reading(z, t) == n;
      Nearby(z, n, t);
      assert WallTimeAt(z, t) == w;
    }
  }

  /** Offsets change on whole minutes, so the milliseconds never matter. */
  lemma DropMillis(z: Zone, t: int)
    requires WellFormed(z)
    ensures Reading(z, t - t % SECOND) == Reading(z, t) - Reading(z, t) % SECOND
  {
    OffsetIsValid(z, t, |z.transitions|);
    var o := OffsetAt(z, t);
    assert o / MINUTE * MINUTE == o;
    MinutesKeepSeconds(t, o / MINUTE);
    SameOffsetInSecond(z, t, |z.transitions|);
  }

  lemma {:induction false} SameOffsetInSecond(z: Zone, t: int, i: int)
    requires WellFormed(z) && 0 <= i <= |z.transitions|
    ensures OffsetUpTo(z, t - t % SECOND, i) == OffsetUpTo(z, t, i)
    decreases i
  {
    if i > 0 {
      var at := z.transitions[i - 1].at;
      assert at == at / MINUTE * MINUTE == at / MINUTE * 60 * SECOND;
      WholeSecondsBelow(t, at / MINUTE * 60);
      SameOffsetInSecond(z, t, i - 1);
    }
  }

  lemma WholeSecondsBelow(t: int, q: int)
    ensures t >= q * SECOND <==> t - t % SECOND >= q * SECOND
  {
    if t >= q * SECOND {
      assert t / SECOND >= q;
    }
  }

  /** Every wall time that occurs is honoured, and nothing else is: for years 0
      to 99 never (they are read as 1900 to 1999), afterwards exactly when shown. */
  lemma HonouredExactlyWhenShown(w: WallTime, z: Zone)
    requires WellFormed(z) && ValidWall(w) && w.year >= 0 && w.year != 100
    ensures Honoured(w, z) <==> w.year > 99 && Shown(w, z)
  {
    if w.year <= 99 {
      TwoDigitYearsAreLost(w, z);
    } else {
      hide Shown, WallTimeAt, Resolve, Hits;
      var n := WallToUtc(w);
      ResolveIsSettle(w, z);
      ShownIffOccurs(w, z);
      if Occurs(z, n) {
        OccurringSettles(z, n);
        ShowsReading(w, z, Once(z, n));
      } else if Settle(z, n).Some? {
        var k := SettleStep(z, n);
        HitsIffOccurs(z, n);
        assert n + 0 * MINUTE == n;
        var v := Once(z, n + k * MINUTE);
        assert Reading(z, v) == n + k * MINUTE != n by { hide Once; assert Hits(z, n + k * MINUTE); }
        ShowsReading(w, z, v);
      }
    }
  }

  /** A settled instant shows `w` exactly when it reads as `w` does. */
  lemma ShowsReading(w: WallTime, z: Zone, v: int)
    requires WellFormed(z) && Modern(w) && Settle(z, WallToUtc(w)) == Some(v)
    ensures WallTimeAt(z, v) == w <==> Reading(z, v) == WallToUtc(w)
  {
    hide UtcToWall, WallToUtc;
    var n := WallToUtc(w);
    var k := SettleStep(z, n);
    var m := n + k * MINUTE;
    assert Hits(z, m);
    ModernStart(w);
    WallRoundTrip(w);
    MinutesKeepSeconds(n, k);
    assert m >= n;
    SameFields(w, m);
  }

  /** Whatever the search answers shows one of the stepped wall times. */
  lemma {:induction false} SearchShowsAStep(w: WallTime, z: Zone, step: int)
    requires step >= 1 && ResolveFrom(w, z, step).Ok?
    ensures exists k :: k >= step && WallTimeAt(z, ResolveFrom(w, z, step).value) == AddMinutes(w, k)
    decreases MAX_GAP_SEARCH_MINUTES + 1 - step
  {
    hide AddMinutes, WallTimeAt, ResolveOnce;
    if !RoundTrips(AddMinutes(w, step), z) {
      SearchShowsAStep(w, z, step + 1);
    }
  }

  lemma TwoDigitFirstTry(w: WallTime, z: Zone)
    requires WellFormed(z) && ValidWall(w) && 0 <= w.year <= 99
    ensures !RoundTrips(w, z)
  {
    hide UtcToWall, WallToUtc, ResolveOnce, Once, EraFloor, OffsetAt;
    var n := WallToUtc(w);
    TwoDigitStart(w);
    WallToUtcWholeSecond(w);
    OnceThroughFields(w, z, n);
    Nearby(z, 0, Once(z, n));
    EraYears(Reading(z, Once(z, n)));
  }

  lemma StepYears(w: WallTime, k: int)
    requires WallToUtc(w) >= EraFloor() && k >= 0
    ensures AddMinutes(w, k).year >= 100
  {
    hide UtcToWall, WallToUtc, EraFloor;
    assert WallToUtc(w) + k * MINUTE >= WallToUtc(w);
    EraYears(WallToUtc(w) + k * MINUTE);
  }

  /** A year below 100 is taken for one in the 1900s, and that is what comes back. */
  lemma TwoDigitYearsAreLost(w: WallTime, z: Zone)
    requires WellFormed(z) && ValidWall(w) && 0 <= w.year <= 99
    ensures !Honoured(w, z)
  {
    hide UtcToWall, WallToUtc, ResolveOnce, EraFloor, WallTimeAt, ResolveFrom, AddMinutes;
    TwoDigitStart(w);
    TwoDigitFirstTry(w, z);
    if Resolve(w, z).Ok? {
      SearchShowsAStep(w, z, 1);
      var k :| k >= 1 && WallTimeAt(z, Resolve(w, z).value) == AddMinutes(w, k);
      StepYears(w, k);
    }
  }

  lemma TwoDigitStart(w: WallTime)
    requires ValidWall(w) && 0 <= w.year <= 99
    ensures WallToUtc(w) >= EraFloor() + 4 * DAY
  {
    hide DayFromYear, DaysBefore;
    YearsGrow(101, 1900 + w.year);
    DaysBeforeNonNegative(1900 + w.year, w.month - 1);
    DayNumberForm(Date(1900 + w.year, w.month, w.day));
  }

  // ------------------------------------------------------------ gaps

  lemma StaysModern(w: WallTime, k: int)
    requires Modern(w) && k >= 0
    ensures Modern(AddMinutes(w, k))
    ensures WallToUtc(AddMinutes(w, k)) == WallToUtc(w) + k * MINUTE
    ensures AddMinutes(w, k).second == w.second
  {
    hide UtcToWall, WallToUtc, DayFromYear;
    var m := WallToUtc(w) + k * MINUTE;
    ModernStart(w);
    assert m >= WallToUtc(w);
    YearsFrom(m, 101);
    AddMinutesExact(w, k);
    MinutesKeepSeconds(WallToUtc(w), k);
    SecondField(m);
    SecondField(WallToUtc(w));
    WallRoundTrip(w);
  }

  lemma SecondField(ms: int)
    ensures UtcToWall(ms).second == ms % MINUTE / SECOND
  {
    hide DateOf;
    DivModUnique(ms, MINUTE, ms / DAY * 1440 + ms % DAY / MINUTE, ms % DAY % MINUTE);
  }

  /** A skipped wall time moves, by whole minutes and keeping its seconds, to the
      first later one that occurs: within a minute after the clock change. The
      code gives up exactly when the far side of the gap is more than six hours away. */
  lemma GapPolicy(w: WallTime, z: Zone, i: int)
    requires WellFormed(z) && Modern(w) && InGap(z, i, WallToUtc(w))
    ensures !Shown(w, z)
    ensures Resolve(w, z).Ok? <==>
            z.transitions[i].at + z.transitions[i].offset - WallToUtc(w) <= 21_600_000
    ensures var k := MinutesOut(z, i, WallToUtc(w));
            && Shown(AddMinutes(w, k), z) && AddMinutes(w, k).second == w.second
            && (forall j :: 0 <= j < k ==> !Shown(AddMinutes(w, j), z))
            && (Resolve(w, z).Ok? ==>
                  var v := Resolve(w, z).value;
                  z.transitions[i].at <= v < z.transitions[i].at + MINUTE
                  && WallTimeAt(z, v) == AddMinutes(w, k))
  {
    hide UtcToWall, WallToUtc, Once, Hits, AddMinutes, Resolve, Shown;
    var n := WallToUtc(w);
    var k := MinutesOut(z, i, n);
    ResolveIsSettle(w, z);
    MinutesOutBounds(z, i, n);
    GapSettles(z, i, n);
    GapFirstStep(z, i, n);
    MissingIsInGap(z, n);
    ShownIffOccurs(w, z);
    forall j | 0 <= j <= k ensures Shown(AddMinutes(w, j), z) <==> j == k {
      StaysModern(w, j);
      ShownIffOccurs(AddMinutes(w, j), z);
      HitsIffOccurs(z, n + j * MINUTE);
    }
    StaysModern(w, k);
    if Resolve(w, z).Ok? {
      WallRoundTrip(AddMinutes(w, k));
    }
  }

  /** With no change over six hours the code always answers. */
  lemma NeverGivesUp(w: WallTime, z: Zone)
    requires WellFormed(z) && GapsSearchable(z) && Modern(w)
    ensures Resolve(w, z).Ok?
  {
    hide WallToUtc, Resolve, Settle;
    ResolveIsSettle(w, z);
    AlwaysSettles(z, WallToUtc(w));
  }

  // ------------------------------------------------------------ overlaps

  lemma ModernRoundTrip(w: WallTime)
    requires Modern(w)
    ensures UtcToWall(WallToUtc(w)) == w
  {
    hide UtcToWall, WallToUtc;
    WallRoundTrip(w);
  }

  /** A repeated wall time resolves to its first occurrence exactly when, read as
      UTC, it precedes the change; so always with offsets at or west of UTC, and
      never when the later offset is at or east of it. */
  lemma OverlapPolicy(w: WallTime, z: Zone, i: int)
    requires WellFormed(z) && Modern(w) && InOverlap(z, i, WallToUtc(w))
    ensures var n := WallToUtc(w);
            var first, second := n - OffsetBefore(z, i), n - z.transitions[i].offset;
            && first < second && WallTimeAt(z, first) == w && WallTimeAt(z, second) == w
            && Resolve(w, z).Ok? && Resolve(w, z).value in {first, second}
            && (Resolve(w, z).value == first <==> n < z.transitions[i].at)
            && (OffsetBefore(z, i) <= 0 ==> Resolve(w, z).value == first)
            && (z.transitions[i].offset >= 0 ==> Resolve(w, z).value == second)
  {
    hide UtcToWall, WallToUtc, Once, Resolve, Settle, WellFormed, OffsetBefore, Modern, OffsetAt;
    var n := WallToUtc(w);
    ResolveIsSettle(w, z);
    OverlapChoice(z, i, n);
    ModernRoundTrip(w);
    assert Reading(z, n - OffsetBefore(z, i)) == n;
  }

  // ------------------------------------------------------------ order

  predicate Earlier(a: WallTime, b: WallTime) {
    Before(DatePart(a), DatePart(b)) || (DatePart(a) == DatePart(b) && TimePart(a) < TimePart(b))
  }

  lemma EarlierCounts(a: WallTime, b: WallTime)
    requires Modern(a) && Modern(b) && Earlier(a, b)
    ensures WallToUtc(a) < WallToUtc(b)
  {
    hide MakeDay, DayNumber, WallToUtc;
    WallRoundTrip(a);
    WallRoundTrip(b);
    if Before(DatePart(a), DatePart(b)) {
      DayNumberMonotone(DatePart(a), DatePart(b));
    }
  }

  /** `b` is later than the skipped `a` but before where that lands, with fewer seconds. */
  predicate Overtakes(z: Zone, i: int, a: WallTime, b: WallTime) {
    InGap(z, i, WallToUtc(a)) && b.second < a.second
    && WallToUtc(b) < z.transitions[i].at + z.transitions[i].offset + a.second * SECOND
  }

  /** The later of two wall times resolves to the earlier instant exactly when it overtakes the
      earlier one out of a gap; so never when both occur, nor when their seconds agree. */
  lemma OrderPolicy(a: WallTime, b: WallTime, z: Zone)
    requires WellFormed(z) && Modern(a) && Modern(b) && Earlier(a, b)
    requires Resolve(a, z).Ok? && Resolve(b, z).Ok?
    ensures Resolve(a, z).value > Resolve(b, z).value <==> exists i :: Overtakes(z, i, a, b)
    ensures Shown(a, z) && Shown(b, z) ==> Resolve(a, z).value < Resolve(b, z).value
    ensures a.second == b.second ==> Resolve(a, z).value <= Resolve(b, z).value
  {
    hide WallToUtc, UtcToWall, Resolve, Settle, Once, Hits, Shown, Earlier, InGap;
    var m, n := WallToUtc(a), WallToUtc(b);
    ResolveIsSettle(a, z);
    ResolveIsSettle(b, z);
    EarlierCounts(a, b);
    ShownIffOccurs(a, z);
    ShownIffOccurs(b, z);
    ReversedIff(z, m, n);
    SecondsKept(a);
    SecondsKept(b);
    forall i ensures Overtakes(z, i, a, b) <==> Overtaken(z, i, m, n) {
    }
    if Shown(a, z) && Shown(b, z) {
      HitsIffOccurs(z, m);
      HitsIffOccurs(z, n);
      OccurringSettles(z, m);
      OccurringSettles(z, n);
      OnceStrictlyMonotone(z, m, n);
    }
  }

  lemma SecondsKept(w: WallTime)
    requires Modern(w)
    ensures WallToUtc(w) % MINUTE == w.second * SECOND
  {
    hide WallToUtc, UtcToWall;
    WallRoundTrip(w);
    SecondField(WallToUtc(w));
    SecondsOfMinute(WallToUtc(w));
  }

  lemma SecondsOfMinute(ms: int)
    requires WholeSecond(ms)
    ensures ms % MINUTE == ms % MINUTE / SECOND * SECOND
  {
    DivModUnique(ms, SECOND, ms / MINUTE * 60 + ms % MINUTE / SECOND, ms % MINUTE % SECOND);
  }

  /** It happens at every gap and for every odd second: the wall clock in the last minute before
      the far side resolves after the far side itself. */
  lemma SecondsReorder(z: Zone, i: int, second: int)
    requires WellFormed(z) && 0 <= i < |z.transitions| && z.transitions[i].offset > OffsetBefore(z, i)
    requires 1 <= second <= 59
    ensures var far := z.transitions[i].at + z.transitions[i].offset;
            Settle(z, far - MINUTE + second * SECOND) == Some(z.transitions[i].at + second * SECOND)
            && Settle(z, far) == Some(z.transitions[i].at)
  {
    var at, before, after := z.transitions[i].at, OffsetBefore(z, i), z.transitions[i].offset;
    var n := at + after - MINUTE + second * SECOND;
    FarSideSettles(z, i);
    OffsetBeforeIsValid(z, i);
    assert ValidOffset(after);
    hide WellFormed, Settle, OffsetBefore;
    WholeMinutesApart(before, after);
    LastMinute(z, i, n, second);
    GapSettles(z, i, n);
  }

  lemma LastMinute(z: Zone, i: int, n: int, second: int)
    requires InGap(z, i, n) && 1 <= second <= 59
    requires n == z.transitions[i].at + z.transitions[i].offset - MINUTE + second * SECOND
    ensures MinutesOut(z, i, n) == 1
  {
    DivModUnique(2 * MINUTE - second * SECOND - 1, MINUTE, 1, MINUTE - second * SECOND - 1);
  }

  lemma FarSideSettles(z: Zone, i: int)
    requires WellFormed(z) && 0 <= i < |z.transitions| && z.transitions[i].offset > OffsetBefore(z, i)
    ensures Settle(z, z.transitions[i].at + z.transitions[i].offset) == Some(z.transitions[i].at)
  {
    hide Settle, Once, Hits;
    var at, after := z.transitions[i].at, z.transitions[i].offset;
    OffsetBeforeIsValid(z, i);
    assert ValidOffset(after);
    RegimeAt(z, i, at + after - DAY, at + after + DAY);
    OnceInRegime(z, at + after - DAY, at + after + DAY, at + after, at, OffsetBefore(z, i), after);
    HitsIffOccurs(z, at + after);
    OccurringSettles(z, at + after);
  }

  lemma WholeMinutesApart(a: int, b: int)
    requires a < b && a % MINUTE == 0 && b % MINUTE == 0
    ensures a + MINUTE <= b
  {
    assert a == a / MINUTE * MINUTE && b == b / MINUTE * MINUTE;
  }

  // ------------------------------------------------------------ every day

  /** The same time of day `days` days later. */
  predicate LaterDay(a: WallTime, b: WallTime, days: int) {
    DayNumber(DatePart(b)) == DayNumber(DatePart(a)) + days && TimePart(a) == TimePart(b)
  }

  /** Successive calendar days deliver at strictly increasing instants, each 24
      hours after the last up to the largest jump of the clock. */
  lemma DailyPolicy(a: WallTime, b: WallTime, z: Zone, days: int, jump: int)
    requires WellFormed(z) && JumpsWithin(z, jump)
    requires Modern(a) && Modern(b) && LaterDay(a, b, days) && days >= 1
    ensures GapsSearchable(z) ==> Resolve(a, z).Ok? && Resolve(b, z).Ok?
    ensures Resolve(a, z).Ok? && Resolve(b, z).Ok? ==>
              var first, later := Resolve(a, z).value, Resolve(b, z).value;
              first < later && (days == 1 ==> DAY - jump <= later - first <= DAY + jump)
  {
    hide WallToUtc, UtcToWall, Resolve, Settle, JumpsWithin, GapsSearchable, MakeDay;
    ResolveIsSettle(a, z);
    ResolveIsSettle(b, z);
    if GapsSearchable(z) {
      NeverGivesUp(a, z);
      NeverGivesUp(b, z);
    }
    WallRoundTrip(a);
    WallRoundTrip(b);
    var m, n := WallToUtc(a), WallToUtc(b);
    assert n == m + days * DAY by {
      assert m == m / DAY * DAY + m % DAY;
      assert n == n / DAY * DAY + n % DAY;
    }
    if Resolve(a, z).Ok? && Resolve(b, z).Ok? {
      SettleStrictlyMonotone(z, m, n);
      if days == 1 {
        DailySpacing(z, m, jump);
      }
    }
  }

  // ------------------------------------------------------------ New York in 2026

  /** Forward at 07:00 UTC on 8 March, back at 06:00 UTC on 1 November. */
  function NewYork(): Zone {
    Zone(-18_000_000, [Transition(1_772_953_200_000, -14_400_000), Transition(1_793_512_800_000, -18_000_000)])
  }

  lemma At2026(w: WallTime)
    requires ValidWall(w) && w.year == 2026 && w.second == 0
    requires (w.month == 3 && w.day == 8) || (w.month == 11 && w.day == 1)
    ensures WallToUtc(w) == (if w.month == 3 then 1_772_928_000_000 else 1_793_491_200_000)
                            + w.hour * 3_600_000 + w.minute * 60_000
  {
    hide WallToUtc, DayNumber, DayFromYear, DaysBefore, ValidWall;
    FieldsCount(w);
    MonthTable(w.year);
    YearAt(w.year);
    DayNumberForm(DatePart(w));
  }

  /** 02:30 does not occur in March and is answered with 03:00, at 07:00 UTC; 01:30 occurs twice
      in November and is answered with the first, at 05:30 UTC. */
  lemma NewYork2026(gap: WallTime, overlap: WallTime)
    requires gap == WallTime(2026, 3, 8, 2, 30, 0) && overlap == WallTime(2026, 11, 1, 1, 30, 0)
    ensures Resolve(gap, NewYork()) == Ok(1_772_953_200_000)
    ensures Resolve(overlap, NewYork()) == Ok(1_793_511_000_000)
  {
    hide WallToUtc, Resolve, Settle;
    var z := NewYork();
    At2026(gap);
    At2026(overlap);
    ResolveIsSettle(gap, z);
    GapSettles(z, 0, WallToUtc(gap));
    ResolveIsSettle(overlap, z);
    OverlapChoice(z, 1, WallToUtc(overlap));
  }
}
