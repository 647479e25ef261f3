/** The delays between polls (backoff.go). Seconds are reals, durations whole
    nanoseconds; `time.Duration(x)` truncates, which for these non-negative values is the floor. */
module Backoff {
  import opened Semver
  import opened Verifier
  import opened Configuration
  import opened Recording

  const BACKOFF_CAP_SECONDS: nat := 1800
  const BACKOFF_BASE_SECONDS: nat := 2
  const MAX_EXPONENT: nat := 32
  const INT64_LIMIT: int := 0x8000_0000_0000_0000

  /** The injected source of randomness. */
  type Random = (real, real) -> real

  /** Each draw lies in the range asked for. */
  ghost predicate InRange(random: Random) {
    forall low, high :: low <= high ==> low <= random(low, high) <= high
  }

  function Nanoseconds(seconds: real): int { (seconds * 1_000_000_000.0).Floor }

  function Jittered(seconds: real, random: Random): int {
    var spread := seconds * 0.2;
    Nanoseconds(random(seconds - spread, seconds + spread))
  }

  function Min(a: nat, b: nat): nat { if a < b then a else b }

  function RetryDelay(consecutiveFailures: nat, random: Random): int {
    if consecutiveFailures == 0 then 0
    else
      var exponent := Min(consecutiveFailures - 1, MAX_EXPONENT);
      Jittered(Min(BACKOFF_BASE_SECONDS * Pow(2, exponent), BACKOFF_CAP_SECONDS) as real, random)
  }

  function PollDelay(interval: int, random: Random): int {
    Jittered(interval as real / 1_000_000_000.0, random)
  }

  function RetryDelayWithServerHint(retryAfterSeconds: nat, consecutiveFailures: nat, random: Random): int {
    if retryAfterSeconds == 0 then RetryDelay(consecutiveFailures, random)
    else Nanoseconds(Min(retryAfterSeconds, BACKOFF_CAP_SECONDS) as real)
  }

  /** The poller's choice after recording an outcome. */
  function WaitAfter(c: Settings, consecutiveFailures: nat, outcome: FetchOutcome, random: Random): int {
    if consecutiveFailures == 0 then PollDelay(c.interval, random)
    else RetryDelayWithServerHint(RetryAfterSeconds(outcome), consecutiveFailures, random)
  }

  // ---------------------------------------------------------------- bounds

  lemma JitterBounds(seconds: real, low: int, high: int, random: Random)
    requires InRange(random) && seconds >= 0.0
    requires low as real <= seconds * 800_000_000.0 && seconds * 1_200_000_000.0 <= high as real
    ensures low <= Jittered(seconds, random) <= high
  {
    var spread := seconds * 0.2;
    var draw := random(seconds - spread, seconds + spread);
    assert seconds - spread <= draw <= seconds + spread;
    assert low as real <= draw * 1_000_000_000.0 <= high as real;
  }

  /** The unjittered ladder, in seconds: 2, 4, 8, ..., 1024, 1800, 1800, ... */
  function Ladder(k: nat): nat
    requires k >= 1
  {
    if k <= 10 then Pow(2, k) else 1800
  }

  lemma {:induction false} PowersOfTwo(e: nat)
    ensures Pow(2, e + 1) == 2 * Pow(2, e)
    ensures Pow(2, 5) == 32 && Pow(2, 10) == 1024 && Pow(2, 11) == 2048
    ensures e >= 11 ==> Pow(2, e) >= 2048
    ensures e <= 10 ==> 1 <= Pow(2, e) <= 1024
  {
    assert Pow(2, 5) == 32;
    assert Pow(2, 10) == 1024;
    if e >= 11 {
      PowMonotone(2, 11, e);
    } else {
      PowMonotone(2, e, 10);
    }
  }

  /** Capping the exponent at 32 never shows: the delay after k failures is the ladder's k-th
      rung, jittered by a fifth either way. */
  lemma RetryDelayBounds(k: nat, random: Random)
    requires k >= 1 && InRange(random)
    ensures 800_000_000 * Ladder(k) <= RetryDelay(k, random) <= 1_200_000_000 * Ladder(k)
    ensures 2 <= Ladder(k) <= 1800
  {
    PowersOfTwo(k - 1);
    PowersOfTwo(k);
    PowersOfTwo(Min(k - 1, MAX_EXPONENT));
    var rung := Min(BACKOFF_BASE_SECONDS * Pow(2, Min(k - 1, MAX_EXPONENT)), BACKOFF_CAP_SECONDS);
    assert rung == Ladder(k);
    JitterBounds(rung as real, 800_000_000 * rung, 1_200_000_000 * rung, random);
  }

  /** Sources that always draw one end of the range. */
  const LOWEST: Random := (low, high) => low
  const HIGHEST: Random := (low, high) => high

  /** The half-hour ceiling is applied before the jitter, so it is no ceiling on the delay. An unhinted
      delay exceeds it exactly from the eleventh failure in a row on, for the draws above it; the
      largest delay is then 36 minutes. */
  lemma CeilingExceeded(k: nat, random: Random)
    requires k >= 1 && InRange(random)
    ensures RetryDelay(k, random) > 1_800_000_000_000
       <==> k >= 11 && random(1440.0, 2160.0) >= 1_800_000_000_001.0 / 1_000_000_000.0
    ensures k >= 11 ==> InRange(HIGHEST) && RetryDelay(k, HIGHEST) == 2_160_000_000_000
    ensures k >= 11 ==> InRange(LOWEST) && RetryDelay(k, LOWEST) == 1_440_000_000_000
  {
    RetryDelayBounds(k, random);
    if k >= 11 {
      AtTheCeiling(k, random);
      AtTheCeiling(k, HIGHEST);
      AtTheCeiling(k, LOWEST);
    } else {
      PowersOfTwo(k);
    }
  }

  /** Some draw takes the delay after k failures past the ceiling exactly from the eleventh on. */
  lemma CeilingCanBeExceeded(k: nat)
    requires k >= 1
    ensures k >= 11 <==> exists random :: InRange(random) && RetryDelay(k, random) > 1_800_000_000_000
  {
    if k >= 11 {
      CeilingExceeded(k, HIGHEST);
    } else {
      forall random | InRange(random) ensures RetryDelay(k, random) <= 1_800_000_000_000 {
        CeilingExceeded(k, random);
      }
    }
  }

  lemma AtTheCeiling(k: nat, random: Random)
    requires k >= 11
    ensures RetryDelay(k, random) == Nanoseconds(random(1440.0, 2160.0))
  {
    PowersOfTwo(Min(k - 1, MAX_EXPONENT));
  }

  function MaxInt(a: int, b: int): int { if a < b then b else a }

  /** Every wait lies between one second and the larger of 2160 s and 1.2 intervals; a wait after
      a success is at least 24 s; it fits a signed 64-bit count of nanoseconds; and a server's hint
      is obeyed to the second, up to half an hour. */
  lemma WaitBounds(c: Settings, failures: nat, outcome: FetchOutcome, random: Random)
    requires InRange(random) && c.interval >= MINIMUM_POLL_INTERVAL
    ensures var w := WaitAfter(c, failures, outcome, random);
            && 1_000_000_000 <= w
            && 10 * w <= MaxInt(21_600_000_000_000, 12 * c.interval)
            && (failures == 0 ==>
                  24_000_000_000 <= w && 8 * c.interval <= 10 * w + 9 && 10 * w <= 12 * c.interval)
            && (12 * c.interval < 10 * 0x8000_0000_0000_0000 ==> w < 0x8000_0000_0000_0000)
            && (failures > 0 && outcome.RateLimited? && outcome.retryAfterSeconds > 0 ==>
                  w == 1_000_000_000 * if outcome.retryAfterSeconds < 1800 then outcome.retryAfterSeconds else 1800)
  {
    if failures == 0 {
      var seconds := c.interval as real / 1_000_000_000.0;
      var low, high := 8 * c.interval / 10, (12 * c.interval + 9) / 10;
      assert seconds * 800_000_000.0 == c.interval as real * 0.8;
      assert seconds * 1_200_000_000.0 == c.interval as real * 1.2;
      JitterBounds(seconds, low, high, random);
      PollDelayCeiling(c.interval, random);
    } else if RetryAfterSeconds(outcome) == 0 {
      RetryDelayBounds(failures, random);
    }
  }

  /** Truncation rounds down, so the upper bound is not crossed even by a fraction. */
  lemma PollDelayCeiling(interval: int, random: Random)
    requires InRange(random) && interval >= 0
    ensures 10 * PollDelay(interval, random) <= 12 * interval
  {
    var seconds := interval as real / 1_000_000_000.0;
    var spread := seconds * 0.2;
    var draw := random(seconds - spread, seconds + spread);
    assert draw <= seconds + spread;
    assert draw * 1_000_000_000.0 <= interval as real * 1.2;
    assert (draw * 1_000_000_000.0).Floor as real <= interval as real * 1.2;
  }

  /** A draw that yields this many nanoseconds wherever the range allows it. */
  function Yielding(nanoseconds: int): Random {
    (low: real, high: real) =>
      var seconds := nanoseconds as real / 1_000_000_000.0;
      if low <= seconds <= high then seconds else low
  }

  /** The jitter leaves out nothing: every whole number of nanoseconds within a fifth of the interval is a
      wait that some draw chooses after a success. So no two processes need poll in step. */
  lemma EveryPollDelayHappens(interval: int, wait: int)
    requires interval >= 0 && 8 * interval <= 10 * wait <= 12 * interval
    ensures InRange(Yielding(wait)) && PollDelay(interval, Yielding(wait)) == wait
  {
    JitterReaches(interval as real / 1_000_000_000.0, wait);
  }

  lemma JitterReaches(seconds: real, wait: int)
    requires 0.8 * seconds <= wait as real / 1_000_000_000.0 <= 1.2 * seconds
    ensures InRange(Yielding(wait)) && Jittered(seconds, Yielding(wait)) == wait
  {
    var spread := seconds * 0.2;
    assert seconds - spread <= wait as real / 1_000_000_000.0 <= seconds + spread;
    assert wait as real / 1_000_000_000.0 * 1_000_000_000.0 == wait as real;
  }

  /** Nor does it after a failure: every wait within a fifth of the rung. */
  lemma EveryRetryDelayHappens(k: nat, wait: int)
    requires k >= 1 && 800_000_000 * Ladder(k) <= wait <= 1_200_000_000 * Ladder(k)
    ensures InRange(Yielding(wait)) && RetryDelay(k, Yielding(wait)) == wait
  {
    PowersOfTwo(k - 1);
    PowersOfTwo(k);
    PowersOfTwo(Min(k - 1, MAX_EXPONENT));
    JitterReaches(Ladder(k) as real, wait);
  }

  // ------------------------------------------------- the sum over a run of failures

  /** The sum of the first k rungs in closed form. */
  function LadderSum(k: nat): int {
    if k <= 10 then Pow(2, k + 1) - 2 else 2046 + 1800 * (k - 10)
  }

  function Sum(waits: seq<int>): int {
    if waits == [] then 0 else Sum(waits[..|waits| - 1]) + waits[|waits| - 1]
  }

  /** The poller chose these after the (j+1)-th failure in a row and those that followed, without a
      hint. */
  ghost predicate UnhintedFailureWaits(waits: seq<int>, j: nat) {
    forall i | 0 <= i < |waits| :: IsRetryDelay(waits[i], j + i + 1)
  }

  ghost predicate IsRetryDelay(wait: int, failures: nat) {
    exists random :: InRange(random) && wait == RetryDelay(failures, random)
  }

  /** That many seconds, give or take a fifth. */
  predicate AFifthEitherWay(nanoseconds: int, seconds: int) {
    800_000_000 * seconds <= nanoseconds <= 1_200_000_000 * seconds
  }

  lemma FifthsAdd(n: int, m: int, a: int, b: int)
    requires AFifthEitherWay(n, a) && AFifthEitherWay(m, b)
    ensures AFifthEitherWay(n + m, a + b)
  {
  }

  /** Unhinted failures in a row, from the (j+1)-th to the n-th, sleep for S(n) - S(j) seconds in all,
      give or take a fifth. */
  lemma {:induction false} FailurePacing(waits: seq<int>, j: nat, n: nat)
    requires UnhintedFailureWaits(waits, j) && n == j + |waits|
    ensures AFifthEitherWay(Sum(waits), LadderSum(n) - LadderSum(j))
  {
    if n > j {
      var init, last := waits[..|waits| - 1], waits[|waits| - 1];
      FailurePacing(init, j, n - 1);
      OneRung(last, n);
      FifthsAdd(Sum(init), last, LadderSum(n - 1) - LadderSum(j), LadderSum(n) - LadderSum(n - 1));
    }
  }

  lemma OneRung(wait: int, n: nat)
    requires n >= 1 && IsRetryDelay(wait, n)
    ensures AFifthEitherWay(wait, LadderSum(n) - LadderSum(n - 1))
  {
    var random :| InRange(random) && wait == RetryDelay(n, random);
    RetryDelayBounds(n, random);
    LadderSumStep(n);
  }

  lemma LadderSumStart()
    ensures LadderSum(0) == 0
  {
    assert Pow(2, 1) == 2;
  }

  lemma LadderSumStep(k: nat)
    requires k >= 1
    ensures LadderSum(k) == LadderSum(k - 1) + Ladder(k)
  {
    PowersOfTwo(k);
    PowersOfTwo(k - 1);
  }
}
