/** Exponential backoff for the bootstrap call.  Durations are nanoseconds; the arithmetic is over
    exact reals, with the final truncation to whole nanoseconds. */
module Retry {

  datatype RetryConfig = RetryConfig(initial: real, max: real, attempts: int, multiplier: real, jitter: bool)

  const SECOND: real := 1000000000.0

  /** DefaultRetryConfig: 5 s, at most 5 min, ten attempts, doubling, with jitter. */
  const DEFAULT := RetryConfig(5.0 * SECOND, 300.0 * SECOND, 10, 2.0, true)

  function Pow(m: real, k: nat): real {
    if k == 0 then 1.0 else m * Pow(m, k - 1)
  }

  /** The delay before jitter. */
  function Capped(cfg: RetryConfig, k: nat): real {
    var d := cfg.initial * Pow(cfg.multiplier, k);
    if d > cfg.max then cfg.max else d
  }

  function Truncate(x: real): int {
    if x >= 0.0 then x.Floor else -((-x).Floor)
  }

  /** A draw of rand.Float64. */
  type Draw = x: real | 0.0 <= x < 1.0 witness 0.0

  function Jittered(d: real, draw: Draw): real {
    d + d * 0.25 * (draw * 2.0 - 1.0)
  }

  /** calculateDelay. */
  function Delay(cfg: RetryConfig, k: nat, draw: Draw): int {
    var d := Capped(cfg, k);
    Truncate(if cfg.jitter then Jittered(d, draw) else d)
  }

  /** What happens at each attempt: whether the call succeeds, whether the context is cancelled
      during the wait after it, and the jitter drawn for that wait. */
  datatype RetryEnv = RetryEnv(ok: nat -> bool, cancelled: nat -> bool, draw: nat -> Draw)

  datatype RetryResult = Succeeded | Cancelled | Exceeded

  /** Result, calls of the function, completed waits, and their total length. */
  datatype Ran = Ran(result: RetryResult, calls: nat, sleeps: nat, slept: int)

  /** The loop from attempt k on. */
  function Loop(cfg: RetryConfig, env: RetryEnv, k: nat): Ran
    decreases cfg.attempts - k
  {
    if k >= cfg.attempts then Ran(Exceeded, 0, 0, 0)
    else if env.ok(k) then Ran(Succeeded, 1, 0, 0)
    else if k == cfg.attempts - 1 then Ran(Exceeded, 1, 0, 0)
    else if env.cancelled(k) then Ran(Cancelled, 1, 0, 0)
    else
      var rest := Loop(cfg, env, k + 1);
      Ran(rest.result, 1 + rest.calls, 1 + rest.sleeps, Delay(cfg, k, env.draw(k)) + rest.slept)
  }

  /** RetryWithBackoff. */
  method RetryWithBackoff(cfg: RetryConfig, env: RetryEnv) returns (r: RetryResult, calls: nat, sleeps: nat, slept: int)
    ensures Ran(r, calls, sleeps, slept) == Loop(cfg, env, 0)
  {
    calls, sleeps, slept := 0, 0, 0;
    var attempt := 0;
    while attempt < cfg.attempts
      invariant attempt >= 0
      invariant var rest := Loop(cfg, env, attempt);
        Ran(rest.result, calls + rest.calls, sleeps + rest.sleeps, slept + rest.slept) == Loop(cfg, env, 0)
    {
      calls := calls + 1;
      if env.ok(attempt) {
        return Succeeded, calls, sleeps, slept;
      }
      if attempt == cfg.attempts - 1 {
        break;
      }
      if env.cancelled(attempt) {
        return Cancelled, calls, sleeps, slept;
      }
      slept := slept + Delay(cfg, attempt, env.draw(attempt));
      sleeps := sleeps + 1;
      attempt := attempt + 1;
    }
    return Exceeded, calls, sleeps, slept;
  }

  // ----- delays -----

  ghost predicate Growing(cfg: RetryConfig) {
    cfg.multiplier >= 1.0 && cfg.initial > 0.0 && cfg.max > 0.0
  }

  lemma {:induction false} PowAtLeastOne(m: real, k: nat)
    requires m >= 1.0
    ensures Pow(m, k) >= 1.0
  {
    if k > 0 {
      PowAtLeastOne(m, k - 1);
      var p := Pow(m, k - 1);
      assert m * p - p == (m - 1.0) * p;
      assert (m - 1.0) * p >= 0.0;
    }
  }

  /** Before jitter the delays are positive, never decrease, and never exceed the maximum. */
  lemma {:induction false} CappedGrows(cfg: RetryConfig, k: nat)
    requires Growing(cfg)
    ensures 0.0 < Capped(cfg, k) <= Capped(cfg, k + 1) <= cfg.max
  {
    PowAtLeastOne(cfg.multiplier, k);
    var p := Pow(cfg.multiplier, k);
    var q := Pow(cfg.multiplier, k + 1);
    assert q - p == (cfg.multiplier - 1.0) * p;
    assert (cfg.multiplier - 1.0) * p >= 0.0;
    assert cfg.initial * q - cfg.initial * p == cfg.initial * (q - p);
    assert cfg.initial * (q - p) >= 0.0;
    assert cfg.initial * p > 0.0;
  }

  /** Jitter moves a delay by less than a quarter of it, upwards strictly. */
  lemma {:induction false} DelayNearCapped(cfg: RetryConfig, k: nat, draw: Draw)
    requires Growing(cfg)
    ensures 0 <= Delay(cfg, k, draw)
    ensures 0.75 * Capped(cfg, k) - 1.0 < Delay(cfg, k, draw) as real < 1.25 * Capped(cfg, k)
  {
    CappedGrows(cfg, k);
    var d := Capped(cfg, k);
    JitterBounds(d, draw);
    TruncateBounds(if cfg.jitter then Jittered(d, draw) else d);
  }

  lemma {:induction false} JitterBounds(d: real, draw: Draw)
    requires d > 0.0
    ensures 0.75 * d <= Jittered(d, draw) < 1.25 * d
  {
    var a, y := d * 0.25, draw * 2.0 - 1.0;
    ScaledBounds(a, y);
    assert Jittered(d, draw) == d + a * y;
    assert d + a == 1.25 * d && d - a == 0.75 * d;
  }

  lemma {:induction false} ScaledBounds(a: real, y: real)
    requires a > 0.0 && -1.0 <= y < 1.0
    ensures -a <= a * y < a
  {
    assert a - a * y == a * (1.0 - y);
    assert a + a * y == a * (1.0 + y);
  }

  lemma {:induction false} TruncateBounds(x: real)
    requires x >= 0.0
    ensures 0 <= Truncate(x) && x - 1.0 < Truncate(x) as real <= x
  {
  }

  // ----- whole runs -----

  /** The sum of the delays before jitter over waits k, ..., n-1. */
  function Total(cfg: RetryConfig, k: nat, n: int): real
    decreases n - k
  {
    if k >= n then 0.0 else Capped(cfg, k) + Total(cfg, k + 1, n)
  }

  lemma {:induction false} TotalPositive(cfg: RetryConfig, k: nat, n: int)
    requires Growing(cfg)
    ensures Total(cfg, k, n) >= 0.0
    ensures k < n ==> Total(cfg, k, n) > 0.0
    decreases n - k
  {
    if k < n {
      CappedGrows(cfg, k);
      TotalPositive(cfg, k + 1, n);
    }
  }

  lemma {:induction false} LoopBound(cfg: RetryConfig, env: RetryEnv, k: nat)
    requires Growing(cfg) && k < cfg.attempts
    ensures var r := Loop(cfg, env, k);
      && 1 <= r.calls <= cfg.attempts - k && r.sleeps == r.calls - 1 && 0 <= r.slept
      && (if k == cfg.attempts - 1 then r.slept == 0
          else r.slept as real < 1.25 * Total(cfg, k, cfg.attempts - 1))
    decreases cfg.attempts - k
  {
    TotalPositive(cfg, k, cfg.attempts - 1);
    if !env.ok(k) && k < cfg.attempts - 1 && !env.cancelled(k) {
      DelayNearCapped(cfg, k, env.draw(k));
      LoopBound(cfg, env, k + 1);
      TotalPositive(cfg, k + 1, cfg.attempts - 1);
      var rest := Loop(cfg, env, k + 1);
      assert (Delay(cfg, k, env.draw(k)) + rest.slept) as real
          == Delay(cfg, k, env.draw(k)) as real + rest.slept as real;
    }
  }

  /** A run with n attempts makes 1 to n calls, waits once less often than it calls, and waits for
      less than 5/4 of the sum of the first n-1 delays. */
  lemma {:induction false} RetryBound(cfg: RetryConfig, env: RetryEnv)
    requires Growing(cfg) && cfg.attempts >= 2
    ensures var r := Loop(cfg, env, 0);
      && 1 <= r.calls <= cfg.attempts && r.sleeps == r.calls - 1
      && 0.0 <= r.slept as real < 1.25 * Total(cfg, 0, cfg.attempts - 1)
  {
    LoopBound(cfg, env, 0);
  }

  /** The function is called until it first succeeds, n times at most; the result says which, as
      long as no wait before that is cancelled. */
  lemma {:induction false} CallsExactly(cfg: RetryConfig, env: RetryEnv, k: nat, first: nat)
    requires k <= first && k < cfg.attempts
    requires forall j: nat :: k <= j < first ==> !env.ok(j)
    requires first < cfg.attempts ==> env.ok(first)
    requires forall j: nat :: k <= j < first ==> !env.cancelled(j)
    ensures var r := Loop(cfg, env, k);
      && r.calls == (if first < cfg.attempts then first - k + 1 else cfg.attempts - k)
      && r.result == (if first < cfg.attempts then Succeeded else Exceeded)
    decreases cfg.attempts - k
  {
    if k < first && k < cfg.attempts - 1 {
      CallsExactly(cfg, env, k + 1, first);
    }
  }

  /** A call that succeeds is the last one, and only then is the result Succeeded. */
  lemma {:induction false} SucceedsWithLastCall(cfg: RetryConfig, env: RetryEnv, k: nat)
    ensures var r := Loop(cfg, env, k);
      r.result == Succeeded <==> r.calls > 0 && env.ok(k + r.calls - 1)
    decreases cfg.attempts - k
  {
    if k < cfg.attempts && !env.ok(k) && k < cfg.attempts - 1 && !env.cancelled(k) {
      SucceedsWithLastCall(cfg, env, k + 1);
    }
  }

  /** With the default configuration the nine delays sum to exactly 1215 s, so a bootstrap waits for
      less than 1518.75 s. */
  lemma {:induction false} DefaultWaitsUnder1519Seconds(env: RetryEnv)
    ensures Total(DEFAULT, 0, 9) == 1215.0 * SECOND
    ensures Loop(DEFAULT, env, 0).slept as real < 1518.75 * SECOND
  {
    DoublingUpTo6();
    DoublingFrom6();
    RetryBound(DEFAULT, env);
  }

  lemma {:induction false} DoublingUpTo6()
    ensures Capped(DEFAULT, 0) == 5.0 * SECOND && Capped(DEFAULT, 1) == 10.0 * SECOND
    ensures Capped(DEFAULT, 2) == 20.0 * SECOND && Capped(DEFAULT, 3) == 40.0 * SECOND
    ensures Capped(DEFAULT, 4) == 80.0 * SECOND && Capped(DEFAULT, 5) == 160.0 * SECOND
    ensures Pow(2.0, 6) == 64.0
    ensures Total(DEFAULT, 0, 9) == 315.0 * SECOND + Total(DEFAULT, 6, 9)
  {
    assert Pow(2.0, 0) == 1.0 && Pow(2.0, 1) == 2.0 && Pow(2.0, 2) == 4.0 && Pow(2.0, 3) == 8.0;
    assert Pow(2.0, 4) == 16.0 && Pow(2.0, 5) == 32.0 && Pow(2.0, 6) == 64.0;
    assert Total(DEFAULT, 0, 9) == Capped(DEFAULT, 0) + Capped(DEFAULT, 1) + Total(DEFAULT, 2, 9);
    assert Total(DEFAULT, 2, 9) == Capped(DEFAULT, 2) + Capped(DEFAULT, 3) + Total(DEFAULT, 4, 9);
    assert Total(DEFAULT, 4, 9) == Capped(DEFAULT, 4) + Capped(DEFAULT, 5) + Total(DEFAULT, 6, 9);
  }

  lemma {:induction false} DoublingFrom6()
    ensures Total(DEFAULT, 6, 9) == 900.0 * SECOND
  {
    DoublingUpTo6();
    assert Pow(2.0, 7) == 128.0 && Pow(2.0, 8) == 256.0;
    assert Capped(DEFAULT, 6) == Capped(DEFAULT, 7) == Capped(DEFAULT, 8) == 300.0 * SECOND;
    assert Total(DEFAULT, 6, 9) == Capped(DEFAULT, 6) + Capped(DEFAULT, 7) + Total(DEFAULT, 8, 9);
    assert Total(DEFAULT, 8, 9) == Capped(DEFAULT, 8) + Total(DEFAULT, 9, 9);
  }

  // ----- the loop, outcome by outcome -----

  /** The delays after the first n attempts. */
  function Waited(cfg: RetryConfig, env: RetryEnv, k: nat, n: nat): int
    decreases n
  {
    if n == 0 then 0 else Delay(cfg, k, env.draw(k)) + Waited(cfg, env, k + 1, n - 1)
  }

  /** The loop from attempt k went on exactly over the attempts that failed and whose wait was not
      cancelled, waited once between any two of them, and its result says why it stopped. */
  ghost predicate EndsRightly(cfg: RetryConfig, env: RetryEnv, k: nat, r: Ran) {
    var last := k + r.calls - 1;
    && (forall j: nat :: k <= j < last ==> !env.ok(j) && !env.cancelled(j))
    && r.sleeps == r.calls - 1 && r.slept == Waited(cfg, env, k, r.sleeps)
    && last < cfg.attempts
    && match r.result
       case Succeeded => env.ok(last)
       case Cancelled => last < cfg.attempts - 1 && !env.ok(last) && env.cancelled(last)
       case Exceeded => last == cfg.attempts - 1 && !env.ok(last)
  }

  lemma {:induction false} LoopEndsRightly(cfg: RetryConfig, env: RetryEnv, k: nat)
    requires k < cfg.attempts
    ensures Loop(cfg, env, k).calls >= 1 && EndsRightly(cfg, env, k, Loop(cfg, env, k))
    decreases cfg.attempts - k
  {
    if !env.ok(k) && k < cfg.attempts - 1 && !env.cancelled(k) {
      LoopEndsRightly(cfg, env, k + 1);
    }
  }

  /** RetryWithBackoff, for every configuration and every environment: result, calls, waits and their
      total length; a cancelled wait ends it.  Without attempts the function is never called. */
  lemma {:induction false} RetryExactly(cfg: RetryConfig, env: RetryEnv)
    ensures var r := Loop(cfg, env, 0);
      if cfg.attempts <= 0 then r == Ran(Exceeded, 0, 0, 0) else r.calls >= 1 && EndsRightly(cfg, env, 0, r)
  {
    if cfg.attempts > 0 { LoopEndsRightly(cfg, env, 0); }
  }

  /** Only one result, with its calls, ends rightly. */
  lemma {:induction false} EndsOnce(cfg: RetryConfig, env: RetryEnv, k: nat, r: Ran, q: Ran)
    requires r.calls >= 1 && q.calls >= 1 && EndsRightly(cfg, env, k, r) && EndsRightly(cfg, env, k, q)
    ensures r == q
  {
    var m: nat, n: nat := k + r.calls - 1, k + q.calls - 1;
    assert m < n ==> !env.ok(m) && !env.cancelled(m);
    assert n < m ==> !env.ok(n) && !env.cancelled(n);
  }

  // ----- the delays, exactly -----

  function Least(x: real, y: real): real { if x < y then x else y }

  /** Before jitter the first delay is the initial one and each later one is the one before times the
      multiplier, all cut at the maximum. */
  lemma {:induction false} CappedRecurrence(cfg: RetryConfig, k: nat)
    requires Growing(cfg)
    ensures Capped(cfg, 0) == Least(cfg.initial, cfg.max)
    ensures Capped(cfg, k + 1) == Least(Capped(cfg, k) * cfg.multiplier, cfg.max)
  {
    var d := cfg.initial * Pow(cfg.multiplier, k);
    assert cfg.initial * Pow(cfg.multiplier, k + 1) == d * cfg.multiplier;
    if d > cfg.max {
      assert cfg.max * cfg.multiplier - cfg.max == cfg.max * (cfg.multiplier - 1.0);
      assert cfg.max * (cfg.multiplier - 1.0) >= 0.0;
      assert d * cfg.multiplier - d == d * (cfg.multiplier - 1.0);
      assert d * (cfg.multiplier - 1.0) >= 0.0;
    }
  }

  /** Jitter reaches exactly the values from a quarter below the delay up to, but not including, a
      quarter above it. */
  lemma {:induction false} JitterExactly(d: real, x: real)
    requires d > 0.0
    ensures (exists draw: Draw :: Jittered(d, draw) == x) <==> 0.75 * d <= x < 1.25 * d
  {
    forall draw: Draw ensures 0.75 * d <= Jittered(d, draw) < 1.25 * d { JitterBounds(d, draw); }
    if 0.75 * d <= x < 1.25 * d {
      ReachedByDraw(d, x);
    }
  }

  /** A larger draw never gives a shorter delay, and the delay is cut to whole nanoseconds; without
      jitter the draw makes no difference. */
  lemma {:induction false} DelayExactly(cfg: RetryConfig, k: nat, a: Draw, b: Draw)
    requires Growing(cfg) && a <= b
    ensures Delay(cfg, k, a) <= Delay(cfg, k, b)
    ensures cfg.jitter ==> Delay(cfg, k, a) == Jittered(Capped(cfg, k), a).Floor
    ensures !cfg.jitter ==> Delay(cfg, k, a) == Delay(cfg, k, b) == Capped(cfg, k).Floor
  {
    CappedGrows(cfg, k);
    var d := Capped(cfg, k);
    JitterBounds(d, a);
    JitterBounds(d, b);
    JitterMonotone(d * 0.25, a * 2.0 - 1.0, b * 2.0 - 1.0);
    assert Jittered(d, a) <= Jittered(d, b);
  }

  lemma {:induction false} JitterMonotone(h: real, x: real, y: real)
    requires h > 0.0 && x <= y
    ensures h * x <= h * y
  {
  }

  lemma {:induction false} ReachedByDraw(d: real, x: real)
    requires d > 0.0 && 0.75 * d <= x < 1.25 * d
    ensures exists draw: Draw :: Jittered(d, draw) == x
  {
    var y := (x - 0.75 * d) / (0.5 * d);
    assert y * (0.5 * d) == x - 0.75 * d;
    assert 0.0 <= y < 1.0;
    var draw: Draw := y;
    assert Jittered(d, draw) == 0.75 * d + draw * (0.5 * d);
  }
}
