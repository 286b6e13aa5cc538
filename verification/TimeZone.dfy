/** scheduling-service/src/domain/timezone.ts: wall-clock fields in a zone to
    the UTC instant at which they are due. */
module TimeZone {
  import opened Options
  import opened Civil
  import opened Zones

  datatype AppError = InvalidScheduleConfig | InternalError

  datatype Result<+T> = Ok(value: T) | Err(error: AppError)

  function WallTimeAt(z: Zone, utc: int): WallTime { UtcToWall(Reading(z, utc)) }

  function OffsetMinutesAt(z: Zone, utc: int): int {
    (WallToUtc(WallTimeAt(z, utc)) - utc) / MINUTE
  }

  function ResolveOnce(w: WallTime, z: Zone): int {
    var naive := WallToUtc(w);
    var candidate := naive - OffsetMinutesAt(z, naive) * MINUTE;
    naive - OffsetMinutesAt(z, candidate) * MINUTE
  }

  predicate RoundTrips(w: WallTime, z: Zone) { WallTimeAt(z, ResolveOnce(w, z)) == w }

  /** The answer for a known zone: the wall time itself if it round-trips, else
      the first of the next 360 minutes that does. */
  function Resolve(w: WallTime, z: Zone): Result<int> {
    if RoundTrips(w, z) then Ok(ResolveOnce(w, z)) else ResolveFrom(w, z, 1)
  }

  function ResolveFrom(w: WallTime, z: Zone, step: int): Result<int>
    decreases MAX_GAP_SEARCH_MINUTES + 1 - step
  {
    if step > MAX_GAP_SEARCH_MINUTES then Err(InternalError)
    else if RoundTrips(AddMinutes(w, step), z) then Ok(ResolveOnce(AddMinutes(w, step), z))
    else ResolveFrom(w, z, step + 1)
  }

  method ZonedWallTimeToUtc(w: WallTime, timeZone: string, zones: map<string, Zone>) returns (r: Result<int>)
    ensures r == if timeZone in zones then Resolve(w, zones[timeZone]) else Err(InvalidScheduleConfig)
  {
    if timeZone !in zones {
      return Err(InvalidScheduleConfig);
    }
    var z := zones[timeZone];
    var resolved := ResolveOnce(w, z);
    var reformatted := WallTimeAt(z, resolved);
    if w == reformatted {
      return Ok(resolved);
    }
    for step := 1 to MAX_GAP_SEARCH_MINUTES + 1
      invariant ResolveFrom(w, z, 1) == ResolveFrom(w, z, step)
    {
      var steppedWall := AddMinutes(w, step);
      var steppedResolved := ResolveOnce(steppedWall, z);
      var steppedReformatted := WallTimeAt(z, steppedResolved);
      if steppedWall == steppedReformatted {
        return Ok(steppedResolved);
      }
    }
    return Err(InternalError);
  }

  // --------------------------------------- the fields against plain counting

  /** Wall times the code can tell apart from two-digit years, zone shifts included. */
  predicate Modern(w: WallTime) { ValidWall(w) && w.year >= 101 }

  /** Start of the year 101, less room for offsets. */
  function EraFloor(): int { DayFromYear(101) * DAY - 4 * DAY }

  lemma YearsFrom(ms: int, y: int)
    requires ms >= DayFromYear(y) * DAY
    ensures UtcToWall(ms).year >= y
  {
    hide DayFromYear, MakeDay;
    var w := UtcToWall(ms);
    YearHolds(DatePart(w));
    if w.year < y {
      YearsGrow(w.year + 1, y);
    }
  }

  lemma EraYears(ms: int)
    requires ms >= EraFloor()
    ensures UtcToWall(ms).year >= 100
  {
    YearStep(100);
    YearsFrom(ms, 100);
  }

  lemma ModernStart(w: WallTime)
    requires Modern(w)
    ensures WallToUtc(w) >= EraFloor() + 4 * DAY
  {
    hide MakeDay;
    YearHolds(DatePart(w));
    YearsGrow(101, w.year);
    WallRoundTrip(w);
  }

  /** In the supported era the offset computed through the fields is the zone's. */
  lemma OffsetThroughFields(z: Zone, t: int)
    requires WellFormed(z) && WholeSecond(t) && t >= EraFloor() + DAY
    ensures OffsetMinutesAt(z, t) * MINUTE == OffsetAt(z, t)
    ensures WholeSecond(Reading(z, t))
  {
    hide UtcToWall, WallToUtc;
    Nearby(z, 0, t);
    OffsetIsValid(z, t, |z.transitions|);
    EraYears(Reading(z, t));
    UtcRoundTrip(Reading(z, t));
    var o := OffsetAt(z, t);
    MinutesKeepSeconds(t, o / MINUTE);
    assert o / MINUTE * MINUTE == o;
  }

  lemma OnceThroughFields(w: WallTime, z: Zone, n: int)
    requires WellFormed(z) && n == WallToUtc(w) && WholeSecond(n) && n >= EraFloor() + 3 * DAY
    ensures ResolveOnce(w, z) == Once(z, n) && WholeSecond(Once(z, n))
    ensures n - DAY < Once(z, n) < n + DAY
  {
    hide WallToUtc, OffsetMinutesAt, OffsetAt;
    OffsetThroughFields(z, n);
    Nearby(z, n, n);
    var candidate := n - OffsetAt(z, n);
    OffsetKeepsSeconds(z, n, n);
    OffsetThroughFields(z, candidate);
    Nearby(z, n, candidate);
    OffsetKeepsSeconds(z, n, candidate);
  }

  lemma OffsetKeepsSeconds(z: Zone, n: int, t: int)
    requires WellFormed(z)
    ensures (n - OffsetAt(z, t)) % SECOND == n % SECOND
  {
    OffsetIsValid(z, t, |z.transitions|);
    var o := OffsetAt(z, t);
    assert o / MINUTE * MINUTE == o;
    MinutesKeepSeconds(n, -(o / MINUTE));
  }

  /** Two supported instants with the same fields are the same second. */
  lemma SameFields(w: WallTime, ms: int)
    requires ValidWall(w) && w.year >= 100 && ms >= EraFloor() && WholeSecond(ms)
    ensures UtcToWall(ms) == w <==> ms == WallToUtc(w)
  {
    hide UtcToWall, WallToUtc;
    EraYears(ms);
    UtcRoundTrip(ms);
    WallRoundTrip(w);
  }

  lemma RoundTripsIffHits(w: WallTime, z: Zone, n: int)
    requires WellFormed(z) && ValidWall(w) && w.year >= 100
    requires n == WallToUtc(w) && n >= EraFloor() + 3 * DAY
    ensures WholeSecond(n) && ResolveOnce(w, z) == Once(z, n)
    ensures RoundTrips(w, z) <==> Hits(z, n)
  {
    hide UtcToWall, WallToUtc, Once;
    WallRoundTrip(w);
    OnceThroughFields(w, z, n);
    var r := Once(z, n);
    Nearby(z, n, r);
    OffsetThroughFields(z, r);
    SameFields(w, Reading(z, r));
  }

  lemma StepHits(w: WallTime, z: Zone, n: int, step: int)
    requires WellFormed(z) && Modern(w) && n == WallToUtc(w) && step >= 1
    ensures RoundTrips(AddMinutes(w, step), z) <==> Hits(z, n + step * MINUTE)
    ensures ResolveOnce(AddMinutes(w, step), z) == Once(z, n + step * MINUTE)
  {
    hide UtcToWall, WallToUtc, Once, Hits, RoundTrips, ResolveOnce, EraFloor;
    ModernStart(w);
    var m := n + step * MINUTE;
    assert m >= n;
    EraYears(m);
    assert AddMinutes(w, step) == UtcToWall(m);
    AddMinutesExact(w, step);
    RoundTripsIffHits(AddMinutes(w, step), z, m);
  }

  /** Steps of the search are steps of plain counting. */
  lemma {:induction false} ResolveFromCounts(w: WallTime, z: Zone, n: int, step: int)
    requires WellFormed(z) && Modern(w) && n == WallToUtc(w) && step >= 1
    ensures ResolveFrom(w, z, step) == FromOption(Search(z, n, step))
    decreases MAX_GAP_SEARCH_MINUTES + 1 - step
  {
    hide AddMinutes, WallToUtc, Once, Hits, RoundTrips, ResolveOnce, WellFormed, ValidWall;
    if step <= MAX_GAP_SEARCH_MINUTES {
      StepHits(w, z, n, step);
      ResolveFromCounts(w, z, n, step + 1);
    }
  }

  function FromOption(o: Option<int>): Result<int> {
    match o
    case Some(v) => Ok(v)
    case None => Err(InternalError)
  }

  lemma SearchStart(z: Zone, n: int)
    ensures Settle(z, n) == if Hits(z, n) then Some(Once(z, n)) else Search(z, n, 1)
  {
    hide Once, Hits;
    assert n + 0 * MINUTE == n;
  }

  /** The field-by-field code computes the settling of the zone's plain clock. */
  lemma ResolveIsSettle(w: WallTime, z: Zone)
    requires WellFormed(z) && Modern(w)
    ensures WholeSecond(WallToUtc(w))
    ensures Resolve(w, z) == FromOption(Settle(z, WallToUtc(w)))
  {
    hide UtcToWall, WallToUtc, Once, Hits, RoundTrips, ResolveOnce, ResolveFrom, WellFormed, EraFloor, ValidWall;
    var n := WallToUtc(w);
    ModernStart(w);
    RoundTripsIffHits(w, z, n);
    ResolveFromCounts(w, z, n, 1);
    SearchStart(z, n);
  }
}
