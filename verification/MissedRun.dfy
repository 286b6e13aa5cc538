/** Catching up after downtime: scheduling-service/src/domain/missed-run.ts. */
module MissedRun {
  import opened Options
  import opened Civil
  import opened Zones
  import opened TimeZone
  import opened DailySchedule

  /** A strategy with its configuration filled in. */
  type Strategy = int -> Option<int>

  /** From `floor` on, the strategy gives the least occurrence after its argument. */
  ghost predicate Keeps(next: Strategy, occurrences: iset<int>, floor: int) {
    forall x :: x >= floor ==>
      match next(x)
      case Some(y) => y > x && y in occurrences && forall t :: t in occurrences && t > x ==> y <= t
      case None => forall t :: t in occurrences ==> t <= x
  }

  /** What the walk has found once `fuel` more steps are taken from `cursor`. */
  function Walk(next: Strategy, latest: Option<int>, cursor: int, now: int, fuel: nat): Option<int>
    decreases fuel
  {
    if fuel == 0 || next(cursor).None? || next(cursor).value > now then latest
    else Walk(next, next(cursor), next(cursor).value, now, fuel - 1)
  }

  method FindLatestDueOccurrence(next: Strategy, from: int, now: int, maxIterations: nat)
    returns (latest: Option<int>)
    ensures latest == Walk(next, if from <= now then Some(from) else None, from, now, maxIterations)
  {
    latest := if from <= now then Some(from) else None;
    var cursor := from;
    var i := 0;
    while i < maxIterations
      invariant i <= maxIterations
      invariant Walk(next, latest, cursor, now, maxIterations - i)
                == Walk(next, if from <= now then Some(from) else None, from, now, maxIterations)
    {
      var following := next(cursor);
      if following.None? || following.value > now {
        break;
      }
      latest := following;
      cursor := following.value;
      i := i + 1;
    }
  }

  function LatestDue(next: Strategy, from: int, now: int, maxIterations: nat): Option<int> {
    Walk(next, if from <= now then Some(from) else None, from, now, maxIterations)
  }

  ghost predicate Happens(occurrences: iset<int>, t: int) { t in occurrences }

  /** The occurrences the scheduler has missed: after `from`, up to `now`. */
  ghost function Missed(occurrences: iset<int>, from: int, now: int): set<int> {
    set t: int | from < t <= now && Happens(occurrences, t)
  }

  lemma MissedStep(occ: iset<int>, from: int, y: int, now: int)
    requires from < y <= now && y in occ && forall t :: t in occ && t > from ==> y <= t
    ensures |Missed(occ, from, now)| == 1 + |Missed(occ, y, now)|
  {
    assert Missed(occ, from, now) == {y} + Missed(occ, y, now);
  }

  lemma {:induction false} WalkCounts(next: Strategy, occ: iset<int>, floor: int, from: int, now: int, fuel: nat)
    requires Keeps(next, occ, floor) && floor <= from <= now
    ensures var r := Walk(next, Some(from), from, now, fuel);
            && r.Some? && from <= r.value <= now
            && (r.value == from || r.value in occ)
            && |Missed(occ, from, r.value)| == Min(fuel, |Missed(occ, from, now)|)
    decreases fuel
  {
    assert Missed(occ, from, from) == {};
    if next(from).None? || next(from).value > now {
      assert Missed(occ, from, now) == {};
    } else if fuel > 0 {
      var y := next(from).value;
      WalkCounts(next, occ, floor, y, now, fuel - 1);
      MissedStep(occ, from, y, now);
      MissedStep(occ, from, y, Walk(next, Some(y), y, now, fuel - 1).value);
    }
  }

  function Min(a: nat, b: nat): nat { if a <= b then a else b }

  lemma MissedGrows(occ: iset<int>, from: int, mid: int, now: int)
    requires from <= mid <= now
    ensures Missed(occ, from, now) == Missed(occ, from, mid) + Missed(occ, mid, now)
    ensures |Missed(occ, from, now)| == |Missed(occ, from, mid)| + |Missed(occ, mid, now)|
  {
    assert Missed(occ, from, now) == Missed(occ, from, mid) + Missed(occ, mid, now);
  }

  /** `v` is `from` or a missed occurrence, and nothing due comes after it. */
  ghost predicate IsLatest(occ: iset<int>, from: int, now: int, v: int) {
    from <= v <= now && (v == from || v in occ) && Missed(occ, v, now) == {}
  }

  /** The walk returns nothing before the first due time; otherwise it returns the
      latest due occurrence exactly when no more were missed than it may step over. */
  lemma FindsLatestIff(next: Strategy, occ: iset<int>, floor: int, from: int, now: int, maxIterations: nat)
    requires Keeps(next, occ, floor) && floor <= from
    ensures LatestDue(next, from, now, maxIterations).None? <==> from > now
    ensures from <= now ==>
              (IsLatest(occ, from, now, LatestDue(next, from, now, maxIterations).value)
               <==> |Missed(occ, from, now)| <= maxIterations)
  {
    if from <= now {
      WalkCounts(next, occ, floor, from, now, maxIterations);
      var v := LatestDue(next, from, now, maxIterations).value;
      MissedGrows(occ, from, v, now);
    }
  }

  /** Catching up in two scans is catching up in one. */
  lemma TwoScansAreOne(next: Strategy, occ: iset<int>, floor: int, from: int, mid: int, now: int, maxIterations: nat)
    requires Keeps(next, occ, floor) && floor <= from <= mid <= now
    requires |Missed(occ, from, now)| <= maxIterations
    ensures var first := LatestDue(next, from, mid, maxIterations);
            first.Some?
            && LatestDue(next, first.value, now, maxIterations) == LatestDue(next, from, now, maxIterations)
  {
    MissedGrows(occ, from, mid, now);
    FindsLatestIff(next, occ, floor, from, mid, maxIterations);
    FindsLatestIff(next, occ, floor, from, now, maxIterations);
    var first := LatestDue(next, from, mid, maxIterations).value;
    MissedGrows(occ, from, first, now);
    FindsLatestIff(next, occ, floor, first, now, maxIterations);
    LatestUnique(occ, from, now, LatestDue(next, first, now, maxIterations).value,
                 LatestDue(next, from, now, maxIterations).value);
  }

  lemma LatestUnique(occ: iset<int>, from: int, now: int, a: int, b: int)
    requires IsLatest(occ, from, now, a) && IsLatest(occ, from, now, b)
    ensures a == b
  {
    assert a < b ==> b in Missed(occ, a, now);
    assert b < a ==> a in Missed(occ, b, now);
  }

  // ------------------------------------------------------------ the decision

  datatype MissedRunPolicy = SKIP | RUN_LATEST | RUN_ALL

  datatype MissedRunResolution = Run(occurrence: int) | Skipped

  function ResolveMissedRun(latestMissed: int, now: int, policy: MissedRunPolicy,
                            graceMinutes: real): MissedRunResolution {
    if policy == SKIP then Skipped
    else if (now - latestMissed) as real / 60_000.0 <= graceMinutes then Run(latestMissed)
    else Skipped
  }

  /** The scan runs the latest due occurrence, and does so exactly when the policy
      allows and that occurrence is within the grace window. */
  lemma RunsOnlyFresh(next: Strategy, occ: iset<int>, floor: int, from: int, now: int, maxIterations: nat,
                      policy: MissedRunPolicy, graceMinutes: real)
    requires Keeps(next, occ, floor) && floor <= from <= now
    requires |Missed(occ, from, now)| <= maxIterations
    ensures LatestDue(next, from, now, maxIterations).Some?
    ensures var v := LatestDue(next, from, now, maxIterations).value;
            var decision := ResolveMissedRun(v, now, policy, graceMinutes);
            && (decision.Run? <==> policy != SKIP && (now - v) as real <= graceMinutes * 60_000.0)
            && (decision.Run? ==> IsLatest(occ, from, now, decision.occurrence))
  {
    FindsLatestIff(next, occ, floor, from, now, maxIterations);
    var v := LatestDue(next, from, now, maxIterations).value;
    assert (now - v) as real / 60_000.0 <= graceMinutes <==> (now - v) as real <= graceMinutes * 60_000.0;
  }

  // ------------------------------------------------------------ daily schedules

  function DailyStrategy(z: Zone, t: TimeOfDay): Strategy {
    x => match CalculateNextRun(z, t, x) case Ok(v) => Some(v) case Err(_) => None
  }

  ghost function Deliveries(z: Zone, t: TimeOfDay): iset<int> {
    iset k: int | DueOn(z, t, k).Some? :: DueOn(z, t, k).value
  }

  /** A daily schedule no clock change catches catches up correctly:
      the scan finds the last delivery at or before now. */
  lemma DailyCatchesUp(z: Zone, t: TimeOfDay, from: int, now: int, maxIterations: nat)
    requires Charted(z) && ValidTime(t) && !ClockTrouble(z, t)
    requires EraFloor() + 10 * DAY <= from <= now
    requires |Missed(Deliveries(z, t), from, now)| <= maxIterations
    ensures var r := LatestDue(DailyStrategy(z, t), from, now, maxIterations);
            r.Some? && IsLatest(Deliveries(z, t), from, now, r.value)
  {
    hide CalculateNextRun, EraFloor, ClockTrouble, Charted, DueOn;
    forall x | x >= EraFloor() + 10 * DAY
      ensures NextAfter(z, t, x, CalculateNextRun(z, t, x))
    {
      NextRunIsNext(z, t, x);
    }
    assert Keeps(DailyStrategy(z, t), Deliveries(z, t), EraFloor() + 10 * DAY);
    FindsLatestIff(DailyStrategy(z, t), Deliveries(z, t), EraFloor() + 10 * DAY, from, now, maxIterations);
  }
}
