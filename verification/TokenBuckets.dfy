/** Token buckets as values: saturating refill, and every run of a limiter over one bucket.
    Times are in milliseconds. */
module TokenBuckets {

  datatype Bucket = Bucket(tokens: real, updatedAt: real)

  datatype Decision = Decision(allowed: bool, retryAfterSeconds: int)

  function Max0(x: real): real { if x < 0.0 then 0.0 else x }

  function Min(x: real, y: real): real { if x <= y then x else y }

  /** Tokens earned in so many milliseconds at a rate of so many a minute. */
  function Earned(rate: int, elapsed: real): real { elapsed * rate as real / 60000.0 }

  /** What a bucket holds at a time, once refilled. */
  function Level(b: Bucket, burst: int, rate: int, now: real): real {
    Min(burst as real, b.tokens + Earned(rate, Max0(now - b.updatedAt)))
  }

  function Ceiling(x: real): int { -((-x).Floor) }

  lemma {:induction false} EarnedAdds(rate: int, a: real, b: real)
    ensures Earned(rate, a + b) == Earned(rate, a) + Earned(rate, b)
    ensures Earned(rate, 0.0) == 0.0
  {
    assert (a + b) * rate as real == a * rate as real + b * rate as real;
    assert 0.0 * rate as real == 0.0;
  }

  lemma {:induction false} EarnedGrows(rate: int, a: real, b: real)
    requires rate >= 1 && a <= b
    ensures Earned(rate, a) <= Earned(rate, b)
  {
    var r := rate as real;
    assert (b - a) * r >= 0.0;
    assert b * r == a * r + (b - a) * r;
  }

  /** From one time to another a bucket gains at most what the clock's forward step earns. */
  lemma {:induction false} LevelGain(b: Bucket, burst: int, rate: int, t: real, later: real)
    requires rate >= 1
    ensures Level(b, burst, rate, later) <= Level(b, burst, rate, t) + Earned(rate, Max0(later - t))
  {
    var x, y, d := Max0(t - b.updatedAt), Max0(later - b.updatedAt), Max0(later - t);
    assert y <= x + d;
    EarnedGrows(rate, y, x + d);
    EarnedAdds(rate, x, d);
    EarnedGrows(rate, 0.0, d);
  }

  /** Saturating refill composes: with a clock that does not run back, refilling on the way and
      refilling once give the same level. */
  lemma {:induction false} LevelComposes(b: Bucket, burst: int, rate: int, t: real, later: real)
    requires rate >= 1 && b.updatedAt <= t <= later
    ensures Level(b, burst, rate, later)
         == Min(burst as real, Level(b, burst, rate, t) + Earned(rate, later - t))
  {
    EarnedAdds(rate, t - b.updatedAt, later - t);
    EarnedGrows(rate, 0.0, later - t);
    assert (t - b.updatedAt) + (later - t) == later - b.updatedAt;
    EarnedAdds(rate, 0.0, 0.0);
  }

  /** The exact time a level needs to reach one token. */
  function WaitFor(level: real, rate: int): real
    requires rate >= 1
  {
    if level >= 1.0 then 0.0 else (1.0 - level) * 60000.0 / rate as real
  }

  lemma {:induction false} WaitIsExact(level: real, burst: int, rate: int, elapsed: real)
    requires rate >= 1 && burst >= 1 && elapsed >= 0.0 && level <= burst as real
    ensures Min(burst as real, level + Earned(rate, elapsed)) >= 1.0 <==> elapsed >= WaitFor(level, rate)
  {
    EarnedGrows(rate, 0.0, elapsed);
    EarnedAdds(rate, 0.0, 0.0);
    if level < 1.0 {
      WaitEarns(level, rate);
      var w := WaitFor(level, rate);
      if elapsed >= w {
        EarnedGrows(rate, w, elapsed);
      } else {
        EarnedStrict(rate, elapsed, w);
      }
    }
  }

  lemma {:induction false} WaitEarns(level: real, rate: int)
    requires rate >= 1 && level < 1.0
    ensures Earned(rate, WaitFor(level, rate)) == 1.0 - level
  {
    var r, d := rate as real, 1.0 - level;
    var w := d * 60000.0 / r;
    assert w * r == d * 60000.0;
  }

  lemma {:induction false} EarnedStrict(rate: int, a: real, b: real)
    requires rate >= 1 && a < b
    ensures Earned(rate, a) < Earned(rate, b)
  {
    var r := rate as real;
    assert (b - a) * r > 0.0;
    assert b * r == a * r + (b - a) * r;
  }

  // ----- the single-bucket limiter

  function RetrySeconds(wait: real): int {
    var seconds := Ceiling(wait / 1000.0);
    if seconds < 1 then 1 else seconds
  }

  /** The whole seconds returned are enough, and one second less is not. */
  lemma {:induction false} RetrySecondsLeast(wait: real)
    requires wait >= 0.0
    ensures RetrySeconds(wait) >= 1
    ensures 1000.0 * RetrySeconds(wait) as real >= wait
    ensures RetrySeconds(wait) > 1 ==> 1000.0 * (RetrySeconds(wait) - 1) as real < wait
  {}

  function ConsumeOne(burst: int, rate: int, b: Bucket, now: real): (Bucket, Decision)
    requires rate >= 1
  {
    var level := Level(b, burst, rate, now);
    if level >= 1.0 then (Bucket(level - 1.0, now), Decision(true, 0))
    else (Bucket(level, now), Decision(false, RetrySeconds(WaitFor(level, rate))))
  }

  /** The bucket after a run of calls at the given times. */
  function After(burst: int, rate: int, b: Bucket, times: seq<real>): Bucket
    requires rate >= 1
  {
    if times == [] then b
    else ConsumeOne(burst, rate, After(burst, rate, b, times[..|times| - 1]), times[|times| - 1]).0
  }

  function DecisionAt(burst: int, rate: int, b: Bucket, times: seq<real>, i: nat): Decision
    requires rate >= 1 && i < |times|
  {
    ConsumeOne(burst, rate, After(burst, rate, b, times[..i]), times[i]).1
  }

  /** How many of the calls in times[lo..hi] are admitted. */
  function Admitted(burst: int, rate: int, b: Bucket, times: seq<real>, lo: nat, hi: nat): nat
    requires rate >= 1 && lo <= hi <= |times|
    decreases hi
  {
    if lo == hi then 0
    else Admitted(burst, rate, b, times, lo, hi - 1)
         + if DecisionAt(burst, rate, b, times, hi - 1).allowed then 1 else 0
  }

  /** The clock's steps forward between the first and the last of times[lo..hi]. */
  function Forward(times: seq<real>, lo: nat, hi: nat): real
    requires lo <= hi <= |times|
    decreases hi
  {
    if hi - lo <= 1 then 0.0
    else Forward(times, lo, hi - 1) + Max0(times[hi - 1] - times[hi - 2])
  }

  /** The clock's forward steps are no less than what it gains, and are that when it never steps
      back. */
  lemma {:induction false} ForwardAtLeast(times: seq<real>, lo: nat, hi: nat)
    requires lo < hi <= |times|
    ensures Forward(times, lo, hi) >= 0.0 && Forward(times, lo, hi) >= times[hi - 1] - times[lo]
    ensures Ascends(times, lo, hi) ==> Forward(times, lo, hi) == times[hi - 1] - times[lo]
    decreases hi
  {
    if hi - lo > 1 {
      ForwardAtLeast(times, lo, hi - 1);
    }
  }

  predicate Ascends(times: seq<real>, lo: nat, hi: nat)
    requires hi <= |times|
  {
    forall k :: lo < k < hi ==> times[k - 1] <= times[k]
  }

  lemma {:induction false} AfterNext(burst: int, rate: int, b: Bucket, times: seq<real>, n: nat)
    requires rate >= 1 && n < |times|
    ensures After(burst, rate, b, times[..n + 1])
         == ConsumeOne(burst, rate, After(burst, rate, b, times[..n]), times[n]).0
  {
    assert times[..n + 1][..n] == times[..n];
  }

  lemma {:induction false} ConsumeKeepsLevel(burst: int, rate: int, b: Bucket, now: real)
    requires rate >= 1
    ensures var (after, decision) := ConsumeOne(burst, rate, b, now);
            Level(after, burst, rate, now)
            == Level(b, burst, rate, now) - (if decision.allowed then 1.0 else 0.0)
  {
    EarnedAdds(rate, 0.0, 0.0);
  }

  lemma {:induction false} AdmittedAndLevel(
      burst: int, rate: int, b: Bucket, times: seq<real>, lo: nat, hi: nat)
    requires rate >= 1 && lo < hi <= |times|
    ensures Admitted(burst, rate, b, times, lo, hi) as real
            + Level(After(burst, rate, b, times[..hi]), burst, rate, times[hi - 1])
         <= burst as real + Earned(rate, Forward(times, lo, hi))
    decreases hi
  {
    hide Level, Earned;
    var n := hi - 1;
    var before := After(burst, rate, b, times[..n]);
    AfterNext(burst, rate, b, times, n);
    ConsumeKeepsLevel(burst, rate, before, times[n]);
    if lo == n {
      LevelAtMostBurst(before, burst, rate, times[n]);
      EarnedAdds(rate, 0.0, 0.0);
    } else {
      AdmittedAndLevel(burst, rate, b, times, lo, n);
      LevelGain(before, burst, rate, times[n - 1], times[n]);
      EarnedAdds(rate, Forward(times, lo, n), Max0(times[n] - times[n - 1]));
    }
  }

  lemma {:induction false} LevelAtMostBurst(b: Bucket, burst: int, rate: int, now: real)
    ensures Level(b, burst, rate, now) <= burst as real
  {}

  lemma {:induction false} LevelNonnegative(burst: int, rate: int, b: Bucket, times: seq<real>)
    requires rate >= 1 && burst >= 1 && b.tokens >= 0.0
    ensures After(burst, rate, b, times).tokens >= 0.0
  {
    if times != [] {
      var n := |times| - 1;
      LevelNonnegative(burst, rate, b, times[..n]);
      var before := After(burst, rate, b, times[..n]);
      EarnedAdds(rate, 0.0, 0.0);
      EarnedGrows(rate, 0.0, Max0(times[n] - before.updatedAt));
    }
  }

  /** For every clock, between any two calls at most burst calls are admitted, plus what the
      clock's forward steps between them earn. */
  lemma {:induction false} RateBound(
      burst: int, rate: int, start: real, times: seq<real>, lo: nat, hi: nat)
    requires rate >= 1 && burst >= 1 && lo < hi <= |times|
    ensures var full := Bucket(burst as real, start);
            && Admitted(burst, rate, full, times, lo, hi) as real
               <= burst as real + Earned(rate, Forward(times, lo, hi))
            && (Ascends(times, lo, hi) ==>
                  Admitted(burst, rate, full, times, lo, hi) as real
                  <= burst as real + Earned(rate, times[hi - 1] - times[lo]))
  {
    var full := Bucket(burst as real, start);
    AdmittedAndLevel(burst, rate, full, times, lo, hi);
    var b := After(burst, rate, full, times[..hi]);
    LevelNonnegative(burst, rate, full, times[..hi]);
    EarnedAdds(rate, 0.0, 0.0);
    EarnedGrows(rate, 0.0, Max0(times[hi - 1] - b.updatedAt));
    ForwardAtLeast(times, lo, hi);
  }

  // ----- the retry time

  lemma {:induction false} SaturatingSum(burst: int, x: real, y: real, rate: int, d: real)
    requires rate >= 1 && d >= 0.0 && y == Min(burst as real, x)
    ensures Min(burst as real, y + Earned(rate, d)) == Min(burst as real, x + Earned(rate, d))
  {
    EarnedGrows(rate, 0.0, d);
    EarnedAdds(rate, 0.0, 0.0);
  }

  /** While calls are denied a bucket's level only follows the forward steps of the clock. */
  lemma {:induction false} DeniedFollowsClock(
      burst: int, rate: int, b: Bucket, times: seq<real>, i: nat, j: nat)
    requires rate >= 1 && i <= j < |times|
    requires forall k :: i <= k < j ==> !DecisionAt(burst, rate, b, times, k).allowed
    ensures Level(After(burst, rate, b, times[..j]), burst, rate, times[j])
         == Min(burst as real, Level(After(burst, rate, b, times[..i]), burst, rate, times[i])
                               + Earned(rate, Forward(times, i, j + 1)))
    decreases j
  {
    hide Level, Earned, ConsumeOne, After;
    var level := Level(After(burst, rate, b, times[..i]), burst, rate, times[i]);
    EarnedAdds(rate, 0.0, 0.0);
    if i == j {
      LevelAtMostBurst(After(burst, rate, b, times[..i]), burst, rate, times[i]);
    } else {
      var forward, step := Forward(times, i, j), Max0(times[j] - times[j - 1]);
      DeniedFollowsClock(burst, rate, b, times, i, j - 1);
      AfterNext(burst, rate, b, times, j - 1);
      assert !DecisionAt(burst, rate, b, times, j - 1).allowed;
      DeniedThenLevel(burst, rate, After(burst, rate, b, times[..j - 1]), times[j - 1], times[j]);
      SaturatingSum(burst, level + Earned(rate, forward),
                    Level(After(burst, rate, b, times[..j - 1]), burst, rate, times[j - 1]), rate, step);
      EarnedAdds(rate, forward, step);
    }
  }

  lemma {:induction false} DeniedThenLevel(burst: int, rate: int, b: Bucket, now: real, later: real)
    requires rate >= 1 && !ConsumeOne(burst, rate, b, now).1.allowed
    ensures Level(ConsumeOne(burst, rate, b, now).0, burst, rate, later)
         == Min(burst as real, Level(b, burst, rate, now) + Earned(rate, Max0(later - now)))
  {}

  /** After a denial, and as long as every call in between is denied, a call is admitted exactly
      when the clock's forward steps add up to the exact wait. */
  lemma {:induction false} AdmittedExactly(
      burst: int, rate: int, b: Bucket, times: seq<real>, i: nat, j: nat)
    requires rate >= 1 && burst >= 1 && i < j < |times|
    requires forall k :: i <= k < j ==> !DecisionAt(burst, rate, b, times, k).allowed
    ensures DecisionAt(burst, rate, b, times, j).allowed <==>
              Forward(times, i, j + 1)
              >= WaitFor(Level(After(burst, rate, b, times[..i]), burst, rate, times[i]), rate)
  {
    DeniedFollowsClock(burst, rate, b, times, i, j);
    ForwardAtLeast(times, i, j + 1);
    WaitIsExact(Level(After(burst, rate, b, times[..i]), burst, rate, times[i]), burst, rate,
                Forward(times, i, j + 1));
  }

  /** The returned seconds are enough and least, for every clock: after a denial, and as long as
      every call in between is denied, a call is admitted once they have passed. While the clock's
      forward steps come to no more than a second less, it is denied; when the clock did not step
      back in between, those steps are the time that has passed. */
  lemma {:induction false} RetryIsLeast(
      burst: int, rate: int, b: Bucket, times: seq<real>, i: nat, j: nat)
    requires rate >= 1 && burst >= 1 && i < j < |times|
    requires forall k :: i <= k < j ==> !DecisionAt(burst, rate, b, times, k).allowed
    ensures var seconds := DecisionAt(burst, rate, b, times, i).retryAfterSeconds;
            var waited, forward := times[j] - times[i], Forward(times, i, j + 1);
            && (waited >= 1000.0 * seconds as real ==> DecisionAt(burst, rate, b, times, j).allowed)
            && (seconds > 1 && forward <= 1000.0 * (seconds - 1) as real ==>
                  !DecisionAt(burst, rate, b, times, j).allowed)
            && (Ascends(times, i, j + 1) ==> forward == waited)
  {
    var level := Level(After(burst, rate, b, times[..i]), burst, rate, times[i]);
    assert !DecisionAt(burst, rate, b, times, i).allowed;
    AdmittedExactly(burst, rate, b, times, i, j);
    ForwardAtLeast(times, i, j + 1);
    WaitNonnegative(level, rate);
    RetrySecondsLeast(WaitFor(level, rate));
  }

  /** Without that proviso the time that has passed says nothing: a clock stepping back and forth
      earns a token in no time. */
  lemma {:induction false} SteppingBackEarns()
    ensures var b, times := Bucket(0.0, 0.0), [0.0, -60000.0, 0.0];
            && DecisionAt(1, 1, b, times, 0) == Decision(false, 60)
            && !DecisionAt(1, 1, b, times, 1).allowed
            && DecisionAt(1, 1, b, times, 2).allowed && times[2] - times[0] == 0.0
  {
    var b, times := Bucket(0.0, 0.0), [0.0, -60000.0, 0.0];
    assert times[..0] == [] && times[..1][..0] == [] && times[..2][..1] == times[..1];
    assert After(1, 1, b, times[..1]) == Bucket(0.0, 0.0);
    assert After(1, 1, b, times[..2]) == Bucket(0.0, -60000.0);
  }

  lemma {:induction false} WaitNonnegative(level: real, rate: int)
    requires rate >= 1
    ensures WaitFor(level, rate) >= 0.0
  {
    if level < 1.0 {
      var d, r := (1.0 - level) * 60000.0, rate as real;
      assert d / r >= 0.0;
    }
  }
}
