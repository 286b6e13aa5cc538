/** scheduling-service/src/domain/retry-policy.ts:14-19: exponential backoff with a cap and
    jitter, over real numbers. */
module Backoff {

  datatype Config = Config(initial: real, maximum: real, multiplier: real, jitterRatio: real)

  predicate Sensible(c: Config) { c.initial >= 0.0 && c.maximum >= 0.0 && c.multiplier >= 0.0 && c.jitterRatio >= 0.0 }

  function Pow(m: real, n: nat): real { if n == 0 then 1.0 else m * Pow(m, n - 1) }

  /** Math.round: half up. */
  function Round(x: real): int { (x + 0.5).Floor }

  function Raw(attempt: int, c: Config): real { c.initial * Pow(c.multiplier, if attempt > 1 then attempt - 1 else 0) }

  function Capped(attempt: int, c: Config): real { if Raw(attempt, c) < c.maximum then Raw(attempt, c) else c.maximum }

  /** A delay with its jitter, for a draw in [0, 1]. */
  function Jittered(capped: real, ratio: real, random: real): real { capped + capped * ratio * (random * 2.0 - 1.0) }

  function CalculateBackoffSeconds(attempt: int, c: Config, random: real): int {
    var rounded := Round(Jittered(Capped(attempt, c), c.jitterRatio, random));
    if rounded > 0 then rounded else 0
  }

  // ------------------------------------------------------------ arithmetic

  lemma MulNonNegative(x: real, y: real)
    requires x >= 0.0 && y >= 0.0
    ensures x * y >= 0.0
  {
  }

  lemma MulMonotone(x: real, y: real, z: real)
    requires x <= y && z >= 0.0
    ensures x * z <= y * z
  {
    MulNonNegative(y - x, z);
    assert (y - x) * z == y * z - x * z;
  }

  lemma RoundMonotone(x: real, y: real)
    requires x <= y
    ensures Round(x) <= Round(y)
  {
  }

  lemma {:induction false} PowNonNegative(m: real, n: nat)
    requires m >= 0.0
    ensures Pow(m, n) >= 0.0
  {
    if n > 0 {
      PowNonNegative(m, n - 1);
      MulNonNegative(m, Pow(m, n - 1));
    }
  }

  lemma {:induction false} PowGrows(m: real, k: nat, n: nat)
    requires m >= 1.0 && k <= n
    ensures 0.0 <= Pow(m, k) <= Pow(m, n)
    decreases n
  {
    PowNonNegative(m, k);
    if k < n {
      PowGrows(m, k, n - 1);
      MulMonotone(1.0, m, Pow(m, n - 1));
    }
  }

  /** Bernoulli's inequality. */
  lemma {:induction false} Bernoulli(m: real, n: nat)
    requires m >= 1.0
    ensures Pow(m, n) >= 1.0 + n as real * (m - 1.0)
  {
    if n > 0 {
      Bernoulli(m, n - 1);
      PowGrows(m, 0, n - 1);
      var p, d := Pow(m, n - 1), m - 1.0;
      MulMonotone(1.0, p, d);
      assert m * p == p + p * d;
      assert n as real * d == (n - 1) as real * d + d;
    }
  }

  lemma ScaleDown(m: real, x: real)
    requires 0.0 <= m <= 1.0 && x >= 0.0
    ensures 0.0 <= m * x <= x && m * x == x * m
  {
    MulNonNegative(m, x);
    MulNonNegative(1.0 - m, x);
    assert (1.0 - m) * x == x - m * x;
  }

  lemma {:induction false} PowAtMostOne(m: real, n: nat)
    requires 0.0 <= m <= 1.0
    ensures 0.0 <= Pow(m, n) <= 1.0
  {
    if n > 0 {
      PowAtMostOne(m, n - 1);
      ScaleDown(m, Pow(m, n - 1));
    }
  }

  lemma CappedBounds(attempt: int, c: Config)
    requires Sensible(c)
    ensures 0.0 <= Capped(attempt, c) <= c.maximum
  {
    var n := if attempt > 1 then attempt - 1 else 0;
    PowNonNegative(c.multiplier, n);
    MulNonNegative(c.initial, Pow(c.multiplier, n));
  }

  function Lowest(x: real, ratio: real): real { x * (1.0 - ratio) }

  function Highest(x: real, ratio: real): real { x * (1.0 + ratio) }

  lemma JitterBetween(x: real, ratio: real, random: real)
    requires x >= 0.0 && ratio >= 0.0 && 0.0 <= random <= 1.0
    ensures Lowest(x, ratio) <= Jittered(x, ratio, random) <= Highest(x, ratio)
  {
    var swing := x * ratio;
    MulNonNegative(x, ratio);
    MulMonotone(-1.0, random * 2.0 - 1.0, swing);
    MulMonotone(random * 2.0 - 1.0, 1.0, swing);
    Spread(x, ratio);
  }

  lemma Spread(x: real, ratio: real)
    ensures Lowest(x, ratio) == x - x * ratio && Highest(x, ratio) == x + x * ratio
  {
  }

  lemma LowestIsDrawn(x: real, ratio: real)
    ensures Jittered(x, ratio, 0.0) == Lowest(x, ratio)
  {
    Spread(x, ratio);
  }

  lemma HighestGrows(x: real, y: real, ratio: real)
    requires x <= y && ratio >= 0.0
    ensures Highest(x, ratio) <= Highest(y, ratio)
  {
    MulMonotone(x, y, 1.0 + ratio);
  }

  /** More before jitter is more after it, for a ratio of at most 1. */
  lemma JitterMonotone(x: real, y: real, ratio: real, random: real)
    requires x <= y && 0.0 <= ratio <= 1.0 && 0.0 <= random <= 1.0
    ensures Jittered(x, ratio, random) <= Jittered(y, ratio, random)
  {
    JitterBetween(y - x, ratio, random);
    MulNonNegative(y - x, 1.0 - ratio);
    JitterDifference(x, y, ratio, random * 2.0 - 1.0);
  }

  lemma JitterDifference(x: real, y: real, ratio: real, d: real)
    ensures (y + y * ratio * d) - (x + x * ratio * d) == (y - x) + (y - x) * ratio * d
  {
    assert (y - x) * ratio == y * ratio - x * ratio;
  }

  // ------------------------------------------------------------ what the delay is

  /** Whatever the draw, the rounded delay lies between the capped value less and plus its
      jitter share, so it never exceeds the cap with full jitter. */
  lemma DelayBounds(attempt: int, c: Config, random: real)
    requires Sensible(c) && 0.0 <= random <= 1.0
    ensures var x := Capped(attempt, c);
            && Round(Lowest(x, c.jitterRatio)) <= Round(Jittered(x, c.jitterRatio, random))
            && Round(Jittered(x, c.jitterRatio, random)) <= Round(Highest(x, c.jitterRatio))
            && CalculateBackoffSeconds(attempt, c, random) <= Round(Highest(c.maximum, c.jitterRatio))
            && 0 <= CalculateBackoffSeconds(attempt, c, random)
            && Round(Lowest(x, c.jitterRatio)) <= CalculateBackoffSeconds(attempt, c, random)
  {
    hide Capped, Lowest, Highest, Jittered, Round;
    var x := Capped(attempt, c);
    CappedBounds(attempt, c);
    JitterBetween(x, c.jitterRatio, random);
    HighestGrows(x, c.maximum, c.jitterRatio);
    RoundMonotone(Lowest(x, c.jitterRatio), Jittered(x, c.jitterRatio, random));
    RoundMonotone(Jittered(x, c.jitterRatio, random), Highest(x, c.jitterRatio));
    RoundMonotone(Highest(x, c.jitterRatio), Highest(c.maximum, c.jitterRatio));
    HighestNonNegative(c.maximum, c.jitterRatio);
  }

  lemma HighestNonNegative(x: real, ratio: real)
    requires x >= 0.0 && ratio >= 0.0
    ensures Round(Highest(x, ratio)) >= 0
  {
    MulNonNegative(x, 1.0 + ratio);
  }

  /** The initial delay multiplied that many times. */
  function Grown(c: Config, times: nat): real {
    if times == 0 then c.initial else Grown(c, times - 1) * c.multiplier
  }

  lemma {:induction false} RawIsGrown(c: Config, n: nat)
    ensures c.initial * Pow(c.multiplier, n) == Grown(c, n)
  {
    if n > 0 {
      RawIsGrown(c, n - 1);
      var p := Pow(c.multiplier, n - 1);
      assert c.initial * (c.multiplier * p) == c.initial * p * c.multiplier;
    }
  }

  lemma RawIs(attempt: int, c: Config)
    ensures Raw(attempt, c) == Grown(c, if attempt <= 1 then 0 else attempt - 1)
  {
    hide Grown, Pow;
    RawIsGrown(c, if attempt > 1 then attempt - 1 else 0);
  }

  lemma CappedIs(attempt: int, c: Config)
    ensures var raw := Grown(c, if attempt <= 1 then 0 else attempt - 1);
            Capped(attempt, c) == if raw <= c.maximum then raw else c.maximum
  {
    hide Grown, Raw;
    RawIs(attempt, c);
  }

  lemma JitteredIs(capped: real, ratio: real, random: real)
    ensures Jittered(capped, ratio, random) == capped + capped * ratio * (random * 2.0 - 1.0)
  {
  }

  lemma RoundsHalfUp(x: real)
    ensures Round(x) as real - 0.5 <= x < Round(x) as real + 0.5
  {
  }

  /** The delay itself: the initial one grown once per attempt after the first and capped, moved
      by at most the jitter ratio of that, linearly in the draw, then rounded half up and never
      negative. */
  lemma DelayIs(attempt: int, c: Config, random: real)
    ensures var raw := Grown(c, if attempt <= 1 then 0 else attempt - 1);
            var capped := Capped(attempt, c);
            var x := capped + capped * c.jitterRatio * (random * 2.0 - 1.0);
            var v := CalculateBackoffSeconds(attempt, c, random);
            && capped == (if raw <= c.maximum then raw else c.maximum)
            && v >= 0
            && (x >= 0.5 ==> v as real - 0.5 <= x < v as real + 0.5)
            && (x < 0.5 ==> v == 0)
  {
    hide Grown, Capped, Round, Jittered;
    CappedIs(attempt, c);
    JitteredIs(Capped(attempt, c), c.jitterRatio, random);
    RoundsHalfUp(Jittered(Capped(attempt, c), c.jitterRatio, random));
  }

  /** The clamp at zero is dead code exactly while the worst draw still rounds to zero or
      more; always so for a ratio of at most 1. */
  lemma ClampUnusedIff(attempt: int, c: Config)
    requires Sensible(c)
    ensures (forall random :: 0.0 <= random <= 1.0 ==> Round(Jittered(Capped(attempt, c), c.jitterRatio, random)) >= 0)
            <==> Capped(attempt, c) * (c.jitterRatio - 1.0) <= 0.5
    ensures c.jitterRatio <= 1.0 ==> Capped(attempt, c) * (c.jitterRatio - 1.0) <= 0.5
  {
    hide Capped, Jittered;
    var x := Capped(attempt, c);
    CappedBounds(attempt, c);
    assert Lowest(x, c.jitterRatio) == -(x * (c.jitterRatio - 1.0));
    forall random | 0.0 <= random <= 1.0
      ensures Round(Jittered(x, c.jitterRatio, random)) >= Round(Lowest(x, c.jitterRatio))
    {
      DelayBounds(attempt, c, random);
    }
    LowestIsDrawn(x, c.jitterRatio);
    if c.jitterRatio <= 1.0 {
      MulNonNegative(x, 1.0 - c.jitterRatio);
    }
  }

  lemma CappedGrows(a: int, b: int, c: Config)
    requires Sensible(c) && c.multiplier >= 1.0 && a <= b
    ensures Capped(a, c) <= Capped(b, c)
  {
    RawGrows(a, b, c);
  }

  /** For the same draw a later attempt never waits less. */
  lemma LaterWaitsLonger(a: int, b: int, c: Config, random: real)
    requires Sensible(c) && c.multiplier >= 1.0 && c.jitterRatio <= 1.0 && 0.0 <= random <= 1.0 && a <= b
    ensures CalculateBackoffSeconds(a, c, random) <= CalculateBackoffSeconds(b, c, random)
  {
    hide Capped, Jittered, Round;
    var x, y := Capped(a, c), Capped(b, c);
    CappedGrows(a, b, c);
    JitterMonotone(x, y, c.jitterRatio, random);
    RoundMonotone(Jittered(x, c.jitterRatio, random), Jittered(y, c.jitterRatio, random));
  }

  /** Growing from below the cap, the delay reaches it after finitely many attempts and stays
      there exactly when the multiplier exceeds 1. */
  lemma ReachesCapIff(c: Config)
    requires Sensible(c) && 0.0 < c.initial < c.maximum
    ensures (exists n: nat :: CappedFrom(n, c)) <==> c.multiplier > 1.0
  {
    if c.multiplier > 1.0 {
      var n := Enough(c);
      assert CappedFrom(n, c);
    } else {
      forall n: nat ensures !CappedFrom(n, c) {
        StaysBelow(n, c);
      }
    }
  }

  lemma RawSpelled(attempt: int, c: Config)
    ensures Raw(attempt, c) == c.initial * Pow(c.multiplier, if attempt > 1 then attempt - 1 else 0)
  {
  }

  lemma Shrunk(r: real, x: real, p: real)
    requires r == x * p && x >= 0.0 && 0.0 <= p <= 1.0
    ensures r <= x
  {
    ScaleDown(p, x);
  }

  lemma RawBelow(attempt: int, c: Config)
    requires Sensible(c) && c.multiplier <= 1.0
    ensures Raw(attempt, c) <= c.initial
  {
    hide Raw;
    var k := if attempt > 1 then attempt - 1 else 0;
    PowAtMostOne(c.multiplier, k);
    RawSpelled(attempt, c);
    Shrunk(Raw(attempt, c), c.initial, Pow(c.multiplier, k));
  }

  lemma StaysBelow(attempt: int, c: Config)
    requires Sensible(c) && c.multiplier <= 1.0 && c.initial < c.maximum
    ensures Capped(attempt, c) < c.maximum
  {
    hide Raw;
    RawBelow(attempt, c);
  }

  ghost predicate CappedFrom(n: nat, c: Config) { forall attempt :: attempt >= n ==> Capped(attempt, c) == c.maximum }

  lemma Enough(c: Config) returns (n: nat)
    requires Sensible(c) && 0.0 < c.initial && c.multiplier > 1.0
    ensures CappedFrom(n, c)
  {
    var step := c.initial * (c.multiplier - 1.0);
    StepPositive(c.initial, c.multiplier - 1.0);
    var k := Steps(c.maximum, step);
    n := k + 1;
    Climb(c, k);
    forall attempt | attempt >= n ensures Capped(attempt, c) == c.maximum {
      RawGrows(n, attempt, c);
    }
  }

  lemma StepPositive(x: real, y: real)
    requires x > 0.0 && y > 0.0
    ensures x * y > 0.0
  {
  }

  lemma RawGrows(a: int, b: int, c: Config)
    requires Sensible(c) && c.multiplier >= 1.0 && a <= b
    ensures Raw(a, c) <= Raw(b, c)
  {
    var k, n := if a > 1 then a - 1 else 0, if b > 1 then b - 1 else 0;
    PowGrows(c.multiplier, k, n);
    MulMonotone(Pow(c.multiplier, k), Pow(c.multiplier, n), c.initial);
  }

  /** Each attempt adds at least a fixed step. */
  lemma Climb(c: Config, k: nat)
    requires Sensible(c) && c.multiplier >= 1.0
    ensures Raw(k + 1, c) >= k as real * (c.initial * (c.multiplier - 1.0))
  {
    hide Pow;
    var d, p := c.multiplier - 1.0, Pow(c.multiplier, k);
    Bernoulli(c.multiplier, k);
    MulMonotone(1.0 + k as real * d, p, c.initial);
    Expand(k as real, d, c.initial);
    assert p * c.initial == c.initial * p;
  }

  lemma Expand(k: real, d: real, x: real)
    requires x >= 0.0
    ensures (1.0 + k * d) * x == x + k * (x * d) && (1.0 + k * d) * x >= k * (x * d)
  {
    assert (k * d) * x == k * (x * d);
  }

  lemma NotNegative(q: real, step: real)
    requires step > 0.0 && q * step >= 0.0
    ensures q >= 0.0
  {
    if q < 0.0 {
      StepPositive(-q, step);
    }
  }

  /** Enough steps to get past x. */
  lemma Steps(x: real, step: real) returns (k: nat)
    requires x >= 0.0 && step > 0.0
    ensures k as real * step >= x
  {
    var q := x / step;
    assert q * step == x;
    NotNegative(q, step);
    k := q.Floor + 1;
    MulMonotone(q, k as real, step);
  }
}
