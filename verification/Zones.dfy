/** Time zones as finite lists of offset changes, and the two-pass offset
    guess of the scheduler on plain millisecond counts. A "reading" is a local
    wall clock written as if it were UTC. */
module Zones {
  import opened Options
  import opened Civil

  /** From instant `at` on, local time is UTC plus `offset` milliseconds. */
  datatype Transition = Transition(at: int, offset: int)

  datatype Zone = Zone(initial: int, transitions: seq<Transition>)

  /** Offsets are whole minutes below a day, transitions fall on whole minutes
      and more than four days apart. */
  predicate WellFormed(z: Zone) {
    && ValidOffset(z.initial)
    && (forall i :: 0 <= i < |z.transitions| ==>
          ValidOffset(z.transitions[i].offset) && z.transitions[i].at % MINUTE == 0)
    && (forall i :: 0 < i < |z.transitions| ==>
          z.transitions[i].at - z.transitions[i - 1].at > 4 * DAY)
  }

  predicate ValidOffset(o: int) { -DAY < o < DAY && o % MINUTE == 0 }

  function OffsetBefore(z: Zone, i: int): int
    requires 0 <= i <= |z.transitions|
  {
    if i == 0 then z.initial else z.transitions[i - 1].offset
  }

  /** The offset in force at instant `t`, looking at the first `i` transitions. */
  function OffsetUpTo(z: Zone, t: int, i: int): int
    requires 0 <= i <= |z.transitions|
    decreases i
  {
    if i == 0 then z.initial
    else if t >= z.transitions[i - 1].at then z.transitions[i - 1].offset
    else OffsetUpTo(z, t, i - 1)
  }

  function OffsetAt(z: Zone, t: int): int { OffsetUpTo(z, t, |z.transitions|) }

  /** The wall clock at instant `t`. */
  function Reading(z: Zone, t: int): int { t + OffsetAt(z, t) }

  /** The two passes: guess with the offset at the reading taken as UTC, then
      correct with the offset found at that candidate. */
  function Once(z: Zone, n: int): int {
    var candidate := n - OffsetAt(z, n);
    n - OffsetAt(z, candidate)
  }

  predicate Hits(z: Zone, n: int) { Reading(z, Once(z, n)) == n }

  ghost predicate Occurs(z: Zone, n: int) { exists t :: Reading(z, t) == n }

  // ------------------------------------------------- one transition in view

  /** Throughout [a, b] the offset is `before` until `at` and `after` from then on. */
  ghost predicate Regime(z: Zone, a: int, b: int, at: int, before: int, after: int) {
    && ValidOffset(before) && ValidOffset(after) && at % MINUTE == 0
    && forall t :: a <= t <= b ==> OffsetAt(z, t) == if t < at then before else after
  }

  /** `at`, `before` and `after` are those of some transition, or nothing changes. */
  ghost predicate IsTransition(z: Zone, at: int, before: int, after: int) {
    before == after
    || exists i :: 0 <= i < |z.transitions| && z.transitions[i] == Transition(at, after)
                   && OffsetBefore(z, i) == before
  }

  lemma {:induction false} OffsetIsValid(z: Zone, t: int, i: int)
    requires WellFormed(z) && 0 <= i <= |z.transitions|
    ensures ValidOffset(OffsetUpTo(z, t, i))
    decreases i
  {
    if i > 0 && t < z.transitions[i - 1].at {
      OffsetIsValid(z, t, i - 1);
    }
  }

  lemma {:induction false} RegimeUpTo(z: Zone, a: int, b: int, i: int) returns (at: int, before: int, after: int)
    requires WellFormed(z) && a <= b <= a + 4 * DAY && 0 <= i <= |z.transitions|
    ensures ValidOffset(before) && ValidOffset(after) && at % MINUTE == 0
    ensures IsTransition(z, at, before, after)
    ensures forall t :: a <= t <= b ==> OffsetUpTo(z, t, i) == if t < at then before else after
    decreases i
  {
    if i == 0 {
      at, before, after := 0, z.initial, z.initial;
    } else {
      var last := z.transitions[i - 1];
      if b < last.at {
        at, before, after := RegimeUpTo(z, a, b, i - 1);
      } else {
        at, before, after := last.at, OffsetBefore(z, i - 1), last.offset;
        forall t | a <= t <= b
          ensures OffsetUpTo(z, t, i) == if t < at then before else after
        {
          if i > 1 {
            assert last.at - z.transitions[i - 2].at > 4 * DAY;
          }
        }
      }
    }
  }

  /** Four days never see two transitions. */
  lemma RegimeExists(z: Zone, a: int, b: int) returns (at: int, before: int, after: int)
    requires WellFormed(z) && a <= b <= a + 4 * DAY
    ensures Regime(z, a, b, at, before, after) && IsTransition(z, at, before, after)
  {
    at, before, after := RegimeUpTo(z, a, b, |z.transitions|);
  }

  /** The stretch around transition `i` is ruled by it. */
  lemma RegimeAt(z: Zone, i: int, a: int, b: int)
    requires WellFormed(z) && 0 <= i < |z.transitions|
    requires a <= z.transitions[i].at <= b <= a + 4 * DAY
    ensures Regime(z, a, b, z.transitions[i].at, OffsetBefore(z, i), z.transitions[i].offset)
  {
    forall t | a <= t <= b
      ensures OffsetAt(z, t) == if t < z.transitions[i].at then OffsetBefore(z, i) else z.transitions[i].offset
    {
      SkipLater(z, i, t, |z.transitions|);
      if i > 0 {
        assert z.transitions[i].at - z.transitions[i - 1].at > 4 * DAY;
      }
    }
    if i > 0 {
      assert ValidOffset(z.transitions[i - 1].offset);
    }
  }

  lemma {:induction false} SkipLater(z: Zone, i: int, t: int, j: int)
    requires WellFormed(z) && 0 <= i < j <= |z.transitions|
    requires t <= z.transitions[i].at + 4 * DAY
    ensures OffsetUpTo(z, t, j) == OffsetUpTo(z, t, i + 1)
    decreases j
  {
    if i + 1 < j {
      LaterTransitions(z, i, j - 1);
      SkipLater(z, i, t, j - 1);
    }
  }

  lemma {:induction false} LaterTransitions(z: Zone, i: int, j: int)
    requires WellFormed(z) && 0 <= i < j < |z.transitions|
    ensures z.transitions[j].at > z.transitions[i].at + 4 * DAY
    decreases j
  {
    assert z.transitions[j].at - z.transitions[j - 1].at > 4 * DAY;
    if i < j - 1 {
      LaterTransitions(z, i, j - 1);
    }
  }

  /** Anything that reads `n` lies within a day of it, and so do both passes. */
  lemma Nearby(z: Zone, n: int, t: int)
    requires WellFormed(z)
    ensures -DAY < OffsetAt(z, t) < DAY && n - DAY < n - OffsetAt(z, t) < n + DAY
    ensures Reading(z, t) == n ==> n - DAY < t < n + DAY
  {
    OffsetIsValid(z, t, |z.transitions|);
  }

  // ---------------------------------------------------- what the passes find

  /** The two passes, given the one transition in view: the earlier reading when
      it is real and either `n` itself precedes the transition or the later one is not. */
  lemma OnceInRegime(z: Zone, a: int, b: int, n: int, at: int, before: int, after: int)
    requires WellFormed(z) && Regime(z, a, b, at, before, after) && a <= n - DAY && n + DAY <= b
    ensures Once(z, n) == if n - before < at && (n < at || n - after < at) then n - before
                          else if n - after >= at then n - after
                          else if n < at then n - after else n - before
    ensures Hits(z, n) <==> n - before < at || n - after >= at
  {
    assert OffsetAt(z, n) == if n < at then before else after;
    var candidate := n - OffsetAt(z, n);
    assert OffsetAt(z, candidate) == if candidate < at then before else after;
    var r := n - OffsetAt(z, candidate);
    assert OffsetAt(z, r) == if r < at then before else after;
  }

  /** The passes find an instant reading `n` exactly when there is one. */
  lemma HitsIffOccurs(z: Zone, n: int)
    requires WellFormed(z)
    ensures Hits(z, n) <==> Occurs(z, n)
  {
    var at, before, after := RegimeExists(z, n - DAY, n + DAY);
    OnceInRegime(z, n - DAY, n + DAY, n, at, before, after);
    if Occurs(z, n) {
      var t :| Reading(z, t) == n;
      Nearby(z, n, t);
    }
  }

  /** Real wall clocks resolve in their own order. */
  lemma OnceStrictlyMonotone(z: Zone, m: int, n: int)
    requires WellFormed(z) && m < n && Hits(z, m) && Hits(z, n)
    ensures Once(z, m) < Once(z, n)
  {
    if n - m > 2 * DAY {
      Nearby(z, m, m - OffsetAt(z, m));
      Nearby(z, n, n - OffsetAt(z, n));
    } else {
      var at, before, after := RegimeExists(z, m - DAY, n + DAY);
      OnceInRegime(z, m - DAY, n + DAY, m, at, before, after);
      OnceInRegime(z, m - DAY, n + DAY, n, at, before, after);
    }
  }

  // ------------------------------------------------- the minute-by-minute search

  const MAX_GAP_SEARCH_MINUTES := 360

  /** First step from `k` on, at most 360, whose reading is real. */
  function Search(z: Zone, n: int, k: int): (r: Option<int>)
    requires 0 <= k
    decreases MAX_GAP_SEARCH_MINUTES + 1 - k
  {
    if k > MAX_GAP_SEARCH_MINUTES then None
    else if Hits(z, n + k * MINUTE) then Some(Once(z, n + k * MINUTE))
    else Search(z, n, k + 1)
  }

  ghost predicate FirstStep(z: Zone, n: int, k: int) {
    Hits(z, n + k * MINUTE) && forall j :: 0 <= j < k ==> !Hits(z, n + j * MINUTE)
  }

  lemma {:induction false} SearchFinds(z: Zone, n: int, k: int)
    requires 0 <= k
    requires forall j :: 0 <= j < k ==> !Hits(z, n + j * MINUTE)
    ensures Search(z, n, k).Some? <==> exists i :: k <= i <= MAX_GAP_SEARCH_MINUTES && FirstStep(z, n, i)
    ensures forall i :: k <= i <= MAX_GAP_SEARCH_MINUTES && FirstStep(z, n, i) ==>
                          Search(z, n, k) == Some(Once(z, n + i * MINUTE))
    decreases MAX_GAP_SEARCH_MINUTES + 1 - k
  {
    if k <= MAX_GAP_SEARCH_MINUTES {
      if Hits(z, n + k * MINUTE) {
        assert FirstStep(z, n, k);
      } else {
        SearchFinds(z, n, k + 1);
      }
    }
  }

  /** Local millisecond counts of a settled wall clock. */
  function Settle(z: Zone, n: int): Option<int> { Search(z, n, 0) }

  lemma SettleStep(z: Zone, n: int) returns (k: int)
    requires Settle(z, n).Some?
    ensures 0 <= k <= MAX_GAP_SEARCH_MINUTES && FirstStep(z, n, k)
    ensures Settle(z, n) == Some(Once(z, n + k * MINUTE))
  {
    SearchFinds(z, n, 0);
    k :| 0 <= k <= MAX_GAP_SEARCH_MINUTES && FirstStep(z, n, k);
  }

  // ------------------------------------------------------------ gaps

  /** `n` is skipped when transition `i` puts the clock forward. */
  predicate InGap(z: Zone, i: int, n: int) {
    0 <= i < |z.transitions|
    && z.transitions[i].at + OffsetBefore(z, i) <= n < z.transitions[i].at + z.transitions[i].offset
  }

  /** A wall clock that never occurs is skipped by some transition. */
  lemma MissingIsInGap(z: Zone, n: int)
    requires WellFormed(z)
    ensures Occurs(z, n) <==> !exists i :: InGap(z, i, n)
  {
    HitsIffOccurs(z, n);
    var at, before, after := RegimeExists(z, n - DAY, n + DAY);
    OnceInRegime(z, n - DAY, n + DAY, n, at, before, after);
    if !Hits(z, n) {
      var i :| 0 <= i < |z.transitions| && z.transitions[i] == Transition(at, after) && OffsetBefore(z, i) == before;
      assert InGap(z, i, n);
    }
    forall i | InGap(z, i, n) ensures !Hits(z, n) {
      var tr := z.transitions[i];
      assert ValidOffset(tr.offset);
      OffsetBeforeIsValid(z, i);
      RegimeAt(z, i, n - DAY, n + DAY);
      OnceInRegime(z, n - DAY, n + DAY, n, tr.at, OffsetBefore(z, i), tr.offset);
    }
  }

  lemma OffsetBeforeIsValid(z: Zone, i: int)
    requires WellFormed(z) && 0 <= i <= |z.transitions|
    ensures ValidOffset(OffsetBefore(z, i))
  {
  }

  /** Minutes from `n` to the far side of the gap, rounded up. */
  function MinutesOut(z: Zone, i: int, n: int): int
    requires InGap(z, i, n)
  {
    (z.transitions[i].at + z.transitions[i].offset - n + MINUTE - 1) / MINUTE
  }

  lemma MinutesOutBounds(z: Zone, i: int, n: int)
    requires WellFormed(z) && InGap(z, i, n)
    ensures var k, far := MinutesOut(z, i, n), z.transitions[i].at + z.transitions[i].offset;
            1 <= k < 1440 * 2 && far <= n + k * MINUTE < far + MINUTE
            && (k <= MAX_GAP_SEARCH_MINUTES <==> far - n <= 21_600_000)
            && k * MINUTE <= z.transitions[i].offset - OffsetBefore(z, i)
  {
    OffsetBeforeIsValid(z, i);
    assert ValidOffset(z.transitions[i].offset);
  }

  /** The first whole-minute step out of a gap lands within the minute after the transition. */
  lemma GapFirstStep(z: Zone, i: int, n: int)
    requires WellFormed(z) && InGap(z, i, n)
    ensures var k := MinutesOut(z, i, n);
            FirstStep(z, n, k) && Once(z, n + k * MINUTE) == n + k * MINUTE - z.transitions[i].offset
            && z.transitions[i].at <= Once(z, n + k * MINUTE) < z.transitions[i].at + MINUTE
  {
    var tr, k := z.transitions[i], MinutesOut(z, i, n);
    MinutesOutBounds(z, i, n);
    OffsetBeforeIsValid(z, i);
    assert ValidOffset(tr.offset);
    var m := n + k * MINUTE;
    RegimeAt(z, i, m - DAY, m + DAY);
    OnceInRegime(z, m - DAY, m + DAY, m, tr.at, OffsetBefore(z, i), tr.offset);
    forall j | 0 <= j < k ensures !Hits(z, n + j * MINUTE) {
      StepsBelow(n, j, k, tr.at + tr.offset);
      assert InGap(z, i, n + j * MINUTE);
      MissingIsInGap(z, n + j * MINUTE);
      HitsIffOccurs(z, n + j * MINUTE);
    }
  }

  lemma StepsBelow(n: int, j: int, k: int, far: int)
    requires 0 <= j < k && n + k * MINUTE < far + MINUTE
    ensures n <= n + j * MINUTE < far
  {
    assert (k - 1) * MINUTE == k * MINUTE - MINUTE;
    assert j * MINUTE <= (k - 1) * MINUTE;
  }

  /** Inside a gap the search succeeds exactly when the far side is within six hours;
      it then answers within a minute of the transition, keeping seconds. */
  lemma GapSettles(z: Zone, i: int, n: int)
    requires WellFormed(z) && InGap(z, i, n)
    ensures Settle(z, n).Some? <==>
            z.transitions[i].at + z.transitions[i].offset - n <= 21_600_000
    ensures Settle(z, n).Some? ==>
              var v, k := Settle(z, n).value, MinutesOut(z, i, n);
              z.transitions[i].at <= v < z.transitions[i].at + MINUTE
              && v <= n - OffsetBefore(z, i)
              && Reading(z, v) == n + k * MINUTE && v == n + k * MINUTE - z.transitions[i].offset
  {
    var k := MinutesOut(z, i, n);
    MinutesOutBounds(z, i, n);
    GapFirstStep(z, i, n);
    SearchFinds(z, n, 0);
  }

  /** Off the gaps the first try is the answer. */
  lemma OccurringSettles(z: Zone, n: int)
    requires WellFormed(z) && Occurs(z, n)
    ensures Settle(z, n) == Some(Once(z, n)) && Reading(z, Once(z, n)) == n
  {
    HitsIffOccurs(z, n);
    assert n + 0 * MINUTE == n;
  }

  /** No change puts the clock forward by more than six hours. */
  predicate GapsSearchable(z: Zone) {
    forall i :: 0 <= i < |z.transitions| ==> z.transitions[i].offset - OffsetBefore(z, i) <= 21_600_000
  }

  lemma AlwaysSettles(z: Zone, n: int)
    requires WellFormed(z) && GapsSearchable(z)
    ensures Settle(z, n).Some?
  {
    MissingIsInGap(z, n);
    if Occurs(z, n) {
      OccurringSettles(z, n);
    } else {
      var i :| InGap(z, i, n);
      GapSettles(z, i, n);
    }
  }

  // ------------------------------------------------------------ overlaps

  /** `n` is read twice when transition `i` puts the clock back. */
  predicate InOverlap(z: Zone, i: int, n: int) {
    0 <= i < |z.transitions|
    && z.transitions[i].at + z.transitions[i].offset <= n < z.transitions[i].at + OffsetBefore(z, i)
  }

  /** Of the two instants the code takes the earlier exactly when the reading,
      taken as UTC, precedes the transition. */
  lemma OverlapChoice(z: Zone, i: int, n: int)
    requires WellFormed(z) && InOverlap(z, i, n)
    ensures var first, second := n - OffsetBefore(z, i), n - z.transitions[i].offset;
            Reading(z, first) == n && Reading(z, second) == n && first < z.transitions[i].at <= second
            && Settle(z, n) == Some(if n < z.transitions[i].at then first else second)
    ensures forall t :: Reading(z, t) == n ==> t == n - OffsetBefore(z, i) || t == n - z.transitions[i].offset
  {
    var tr := z.transitions[i];
    assert ValidOffset(tr.offset);
    OffsetBeforeIsValid(z, i);
    RegimeAt(z, i, n - DAY, n + DAY);
    OnceInRegime(z, n - DAY, n + DAY, n, tr.at, OffsetBefore(z, i), tr.offset);
    assert Reading(z, n - tr.offset) == n;
    OccurringSettles(z, n);
    forall t | Reading(z, t) == n ensures t == n - OffsetBefore(z, i) || t == n - tr.offset {
      Nearby(z, n, t);
    }
  }

  // ------------------------------------------------------------ order

  lemma MoreMinutes(m: int, k: int, l: int)
    requires k < l
    ensures m + k * MINUTE < m + l * MINUTE
  {
  }

  /** Wall clocks a whole number of minutes apart settle in order. */
  lemma SettleMonotone(z: Zone, m: int, j: int)
    requires WellFormed(z) && j >= 0
    requires Settle(z, m).Some? && Settle(z, m + j * MINUTE).Some?
    ensures Settle(z, m).value <= Settle(z, m + j * MINUTE).value
  {
    hide Once, Hits, WellFormed, Settle;
    var n := m + j * MINUTE;
    var k := SettleStep(z, m);
    var l := SettleStep(z, n);
    StepSum(n, m, j, l);
    assert Hits(z, m + (j + l) * MINUTE);
    assert k <= j + l;
    if k < j + l {
      MoreMinutes(m, k, j + l);
      OnceStrictlyMonotone(z, m + k * MINUTE, m + (j + l) * MINUTE);
    }
  }

  /** Wall clocks further apart than the search settle strictly in order. */
  lemma SettleStrictlyMonotone(z: Zone, m: int, n: int)
    requires WellFormed(z) && m + 21_600_000 < n
    requires Settle(z, m).Some? && Settle(z, n).Some?
    ensures Settle(z, m).value < Settle(z, n).value
  {
    var k := SettleStep(z, m);
    var l := SettleStep(z, n);
    assert k * MINUTE <= MAX_GAP_SEARCH_MINUTES * MINUTE && l * MINUTE >= 0;
    OnceStrictlyMonotone(z, m + k * MINUTE, n + l * MINUTE);
  }

  /** A skipped wall clock lands on the far side of its gap, its seconds kept. */
  lemma GapLanding(z: Zone, i: int, n: int)
    requires WellFormed(z) && InGap(z, i, n)
    ensures n + MinutesOut(z, i, n) * MINUTE == z.transitions[i].at + z.transitions[i].offset + n % MINUTE
  {
    var k, far := MinutesOut(z, i, n), z.transitions[i].at + z.transitions[i].offset;
    MinutesOutBounds(z, i, n);
    assert ValidOffset(z.transitions[i].offset);
    MultiplesAdd(z.transitions[i].at, z.transitions[i].offset);
    DivModUnique(n + k * MINUTE, MINUTE, far / MINUTE, n + k * MINUTE - far);
    DivModUnique(n + k * MINUTE, MINUTE, n / MINUTE + k, n % MINUTE);
  }

  lemma MultiplesAdd(a: int, b: int)
    requires a % MINUTE == 0 && b % MINUTE == 0
    ensures (a + b) % MINUTE == 0 && a + b == (a + b) / MINUTE * MINUTE
  {
    DivModUnique(a + b, MINUTE, a / MINUTE + b / MINUTE, 0);
  }

  /** Gaps are days apart. */
  lemma OneGap(z: Zone, i: int, j: int, m: int, n: int)
    requires WellFormed(z) && InGap(z, i, m) && InGap(z, j, n) && m - DAY < n < m + DAY
    ensures i == j
  {
    OffsetBeforeIsValid(z, i);
    OffsetBeforeIsValid(z, j);
    assert ValidOffset(z.transitions[i].offset) && ValidOffset(z.transitions[j].offset);
    if i < j {
      LaterTransitions(z, i, j);
    } else if j < i {
      LaterTransitions(z, j, i);
    }
  }

  /** Where the search ends up: the wall clock itself, or the far side of its gap. */
  ghost predicate LandsOn(z: Zone, n: int, l: int) {
    Hits(z, l)
    && if Occurs(z, n) then l == n
       else exists i :: InGap(z, i, n) && l == z.transitions[i].at + z.transitions[i].offset + n % MINUTE
  }

  lemma Landing(z: Zone, n: int) returns (l: int)
    requires WellFormed(z) && Settle(z, n).Some?
    ensures LandsOn(z, n, l) && Settle(z, n) == Some(Once(z, l)) && n <= l
  {
    hide Once, Settle;
    HitsIffOccurs(z, n);
    MissingIsInGap(z, n);
    if Occurs(z, n) {
      OccurringSettles(z, n);
      l := n;
    } else {
      var i :| InGap(z, i, n);
      var k := MinutesOut(z, i, n);
      GapFirstStep(z, i, n);
      GapSettles(z, i, n);
      GapLanding(z, i, n);
      l := n + k * MINUTE;
    }
  }

  /** `n` is later than the skipped `m` but lies before where that lands, with fewer seconds. */
  predicate Overtaken(z: Zone, i: int, m: int, n: int) {
    InGap(z, i, m) && n < z.transitions[i].at + z.transitions[i].offset + m % MINUTE && n % MINUTE < m % MINUTE
  }

  /** The later of two wall clocks resolves to the earlier instant exactly when the earlier
      one is skipped and overtaken in this way. */
  lemma ReversedIff(z: Zone, m: int, n: int)
    requires WellFormed(z) && m < n && Settle(z, m).Some? && Settle(z, n).Some?
    ensures Settle(z, m).value > Settle(z, n).value <==> exists i :: Overtaken(z, i, m, n)
  {
    hide Once, Settle, Hits;
    var k := Landing(z, m);
    var l := Landing(z, n);
    if k < l {
      OnceStrictlyMonotone(z, k, l);
    } else if l < k {
      OnceStrictlyMonotone(z, l, k);
    }
    MissingIsInGap(z, m);
    if !Occurs(z, m) {
      var i :| InGap(z, i, m) && k == z.transitions[i].at + z.transitions[i].offset + m % MINUTE;
      LandsBefore(z, i, m, n, l);
      forall j | Overtaken(z, j, m, n) ensures j == i {
        OneGap(z, i, j, m, m);
      }
      assert l < k <==> Overtaken(z, i, m, n);
    }
  }

  /** Landing before a skipped wall clock's landing means overtaking it. */
  lemma LandsBefore(z: Zone, i: int, m: int, n: int, l: int)
    requires WellFormed(z) && InGap(z, i, m) && m < n && LandsOn(z, n, l) && n <= l
    ensures l < z.transitions[i].at + z.transitions[i].offset + m % MINUTE <==> Overtaken(z, i, m, n)
  {
    hide Once, Hits;
    var far := z.transitions[i].at + z.transitions[i].offset;
    MissingIsInGap(z, n);
    assert ValidOffset(z.transitions[i].offset);
    OffsetBeforeIsValid(z, i);
    MultiplesAdd(z.transitions[i].at, z.transitions[i].offset);
    if n < far {
      assert InGap(z, i, n);
      var j :| InGap(z, j, n) && l == z.transitions[j].at + z.transitions[j].offset + n % MINUTE;
      OneGap(z, i, j, n, n);
    } else if n < far + m % MINUTE {
      DivModUnique(n, MINUTE, far / MINUTE, n - far);
      if j :| InGap(z, j, n) {
        OneGap(z, i, j, far - 1, n);
      }
    }
  }

  /** Settling with one transition in view: a real reading resolves as the two
      passes do, a skipped one moves to the far side by whole minutes. */
  lemma SettleInRegime(z: Zone, a: int, b: int, n: int, at: int, before: int, after: int)
    requires WellFormed(z) && Regime(z, a, b, at, before, after) && IsTransition(z, at, before, after)
    requires a <= n - DAY && n + DAY <= b && Settle(z, n).Some?
    ensures var v := Settle(z, n).value;
            (n - before < at && v == n - before) || (n - after >= at && v == n - after)
            || (n - after < at <= n - before && at <= v < at + MINUTE && n - after < v <= n - before)
  {
    OnceInRegime(z, a, b, n, at, before, after);
    HitsIffOccurs(z, n);
    if Hits(z, n) {
      OccurringSettles(z, n);
    } else {
      var i :| 0 <= i < |z.transitions| && z.transitions[i] == Transition(at, after) && OffsetBefore(z, i) == before;
      GapSettles(z, i, n);
    }
  }

  predicate JumpsWithin(z: Zone, jump: int) {
    jump >= 0 && forall i :: 0 <= i < |z.transitions| ==>
      -jump <= z.transitions[i].offset - OffsetBefore(z, i) <= jump
  }

  /** The same delivery time a day later settles a day later, up to the largest
      jump of the clock. */
  lemma DailySpacing(z: Zone, n: int, jump: int)
    requires WellFormed(z) && JumpsWithin(z, jump)
    requires Settle(z, n).Some? && Settle(z, n + DAY).Some?
    ensures DAY - jump <= Settle(z, n + DAY).value - Settle(z, n).value <= DAY + jump
  {
    var at, before, after := RegimeExists(z, n - DAY, n + 2 * DAY);
    SettleInRegime(z, n - DAY, n + 2 * DAY, n, at, before, after);
    SettleInRegime(z, n - DAY, n + 2 * DAY, n + DAY, at, before, after);
    if before != after {
      var i :| 0 <= i < |z.transitions| && z.transitions[i] == Transition(at, after) && OffsetBefore(z, i) == before;
    }
    assert -jump <= after - before <= jump;
  }
}
