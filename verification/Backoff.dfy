/** Capped exponential backoff and the retry loop. Durations are whole nanoseconds; the multiplier
    is a real number and products are truncated. */
module Backoff {

  const SECOND := 1_000_000_000

  datatype Config = Config(initial: int, max: int, multiplier: real, maxRetries: int, jitter: bool)

  /** The defaults NewBackoff puts in place of unusable settings. */
  function Normalized(c: Config): Config {
    var initial := if c.initial <= 0 then SECOND else c.initial;
    var max := if c.max <= 0 then 60 * SECOND else c.max;
    c.(initial := initial, max := if max < initial then initial else max,
       multiplier := if c.multiplier <= 1.0 then 2.0 else c.multiplier)
  }

  predicate Usable(c: Config) {
    0 < c.initial <= c.max && c.multiplier > 1.0
  }

  lemma NormalizedIsUsable(c: Config)
    ensures Usable(Normalized(c))
    ensures Usable(c) ==> Normalized(c) == c
    ensures c.initial <= 0 ==> Normalized(c).initial == 1_000_000_000
    ensures c.max <= 0 && c.initial <= 60_000_000_000 ==> Normalized(c).max == 60_000_000_000
    ensures c.multiplier <= 1.0 ==> Normalized(c).multiplier == 2.0
    ensures c.initial > 0 ==> Normalized(c).initial == c.initial
    ensures Normalized(c).max == Normalized(c).initial || Normalized(c).max == 60_000_000_000 || Normalized(c).max == c.max
    ensures Normalized(c).maxRetries == c.maxRetries && Normalized(c).jitter == c.jitter
  {}

  /** A duration times a factor, truncated. */
  function Scaled(delay: int, factor: real): int {
    (delay as real * factor).Floor
  }

  function Advance(c: Config, delay: int): int {
    var next := Scaled(delay, c.multiplier);
    if next > c.max then c.max else next
  }

  /** The k-th delay since the last reset, before jitter. */
  function Delay(c: Config, k: nat): int {
    if k == 0 then c.initial else Advance(c, Delay(c, k - 1))
  }

  // ---- Delays ----

  lemma ScaledGrows(delay: int, factor: real)
    requires delay > 0 && factor > 1.0
    ensures Scaled(delay, factor) >= delay
  {
    var d := delay as real;
    assert d * (factor - 1.0) > 0.0;
    assert d * factor == d * (factor - 1.0) + d;
  }

  lemma {:induction false} DelaysAreBounded(c: Config, k: nat)
    requires Usable(c)
    ensures c.initial <= Delay(c, k) <= c.max
    ensures Delay(c, k) <= Delay(c, k + 1)
  {
    if k > 0 {
      DelaysAreBounded(c, k - 1);
    }
    ScaledGrows(Delay(c, k), c.multiplier);
  }

  lemma CappedFloor(x: real, cap: int, next: int)
    requires next == if x.Floor > cap then cap else x.Floor
    ensures (next as real <= x < next as real + 1.0 && next <= cap) || (next == cap && x > cap as real)
  {}

  /** For any multiplier: each delay is the cap, or the one before times the multiplier, truncated. */
  lemma DelayFollows(c: Config, k: nat)
    ensures Delay(c, 0) == c.initial
    ensures var x, next := Delay(c, k) as real * c.multiplier, Delay(c, k + 1);
            (next as real <= x < next as real + 1.0 && next <= c.max) || (next == c.max && x > c.max as real)
  {
    CappedFloor(Delay(c, k) as real * c.multiplier, c.max, Delay(c, k + 1));
  }

  function Pow(m: nat, k: nat): nat {
    if k == 0 then 1 else m * Pow(m, k - 1)
  }

  lemma ScaledByInteger(delay: int, m: nat)
    ensures Scaled(delay, m as real) == delay * m
  {
    assert delay as real * m as real == (delay * m) as real;
  }

  lemma CapAbsorbs(x: int, cap: int, m: nat)
    requires 0 < x && 0 < cap && m >= 2
    ensures Min(cap, Min(cap, x) * m) == Min(cap, x * m)
  {
    if x > cap {
      assert cap * m >= cap by {
        assert cap * (m - 1) >= 0;
      }
      assert x * m >= cap * m by {
        assert (x - cap) * m >= 0;
      }
    }
  }

  function Min(a: int, b: int): int {
    if a < b then a else b
  }

  /** With a whole multiplier m the k-th delay is initial * m^k, up to the cap. */
  lemma {:induction false} ClosedForm(c: Config, m: nat, k: nat)
    requires Usable(c) && m >= 2 && c.multiplier == m as real
    ensures Pow(m, k) > 0
    ensures Delay(c, k) == Min(c.max, c.initial * Pow(m, k))
  {
    if k > 0 {
      ClosedForm(c, m, k - 1);
      var x := c.initial * Pow(m, k - 1);
      ScaledByInteger(Delay(c, k - 1), m);
      PowerStep(c.initial, Pow(m, k - 1), m);
      CapAbsorbs(x, c.max, m);
    }
  }

  lemma PowerStep(a: int, p: nat, m: nat)
    requires a > 0 && p > 0 && m > 0
    ensures a * (m * p) == (a * p) * m && a * p > 0 && m * p > 0
  {}

  function Total(c: Config, n: nat): int {
    if n == 0 then 0 else Total(c, n - 1) + Delay(c, n - 1)
  }

  /** Before the cap is met, n delays add up to initial * (m^n - 1) / (m - 1). */
  lemma {:induction false} GeometricTotal(c: Config, m: nat, n: nat)
    requires Usable(c) && m >= 2 && c.multiplier == m as real
    requires n > 0 ==> c.initial * Pow(m, n - 1) <= c.max
    ensures (m - 1) * Total(c, n) == c.initial * (Pow(m, n) - 1)
  {
    if n > 0 {
      var p := Pow(m, n - 1);
      if n > 1 {
        Grow(c.initial, Pow(m, n - 2), m);
      }
      GeometricTotal(c, m, n - 1);
      ClosedForm(c, m, n - 1);
      Telescope(m, c.initial, p, Total(c, n - 1));
    }
  }

  lemma Grow(a: int, q: nat, m: nat)
    requires a > 0 && m >= 2
    ensures a * q <= a * (m * q)
  {
    assert a * (m * q) == (a * q) * m;
    assert a * q >= 0;
  }

  lemma Telescope(m: nat, a: int, p: nat, total: int)
    requires (m - 1) * total == a * (p - 1)
    ensures (m - 1) * (total + a * p) == a * (m * p - 1)
  {
    assert (m - 1) * (total + a * p) == (m - 1) * total + (m - 1) * (a * p);
    assert (m - 1) * (a * p) == a * (m * p) - a * p;
    assert a * (m * p - 1) == a * (m * p) - a;
    assert a * (p - 1) == a * p - a;
  }

  // ---- Jitter ----

  ghost predicate IsFactor(f: real) {
    0.8 <= f < 1.2
  }

  /** Within 20 percent, less at most the nanosecond lost in truncation. */
  lemma JitterIsBounded(delay: int, factor: real)
    requires delay > 0 && IsFactor(factor)
    ensures 4 * delay - 5 < 5 * Scaled(delay, factor) <= 6 * delay
  {
    ProductBounds(delay as real, factor);
    FloorBounds(delay, delay as real * factor);
  }

  lemma FloorBounds(delay: int, x: real)
    requires 0.8 * delay as real <= x <= 1.2 * delay as real
    ensures 4 * delay - 5 < 5 * x.Floor <= 6 * delay
  {}

  lemma ProductBounds(d: real, f: real)
    requires d > 0.0 && IsFactor(f)
    ensures 0.8 * d <= d * f <= 1.2 * d
  {
    assert d * (f - 0.8) >= 0.0;
    assert d * (1.2 - f) >= 0.0;
  }

  /** The lower 20 percent bound is exact for just the delays divisible by five. */
  lemma JitterExactIff(delay: int)
    requires delay > 0
    ensures (forall f: real :: IsFactor(f) ==> 5 * Scaled(delay, f) >= 4 * delay) <==> delay % 5 == 0
  {
    if delay % 5 == 0 {
      forall f: real | IsFactor(f) ensures 5 * Scaled(delay, f) >= 4 * delay {
        JitterIsBounded(delay, f);
      }
    } else {
      assert IsFactor(0.8);
      FloorOfFourFifths(delay);
    }
  }

  lemma FloorOfFourFifths(delay: int)
    requires delay % 5 != 0
    ensures 5 * Scaled(delay, 0.8) < 4 * delay
  {
    var q, r := delay / 5, delay % 5;
    assert delay as real * 0.8 == (4 * q) as real + r as real * 0.8 < (4 * q + r) as real;
    assert Scaled(delay, 0.8) <= 4 * q + r - 1;
  }

  // ---- The backoff object ----

  datatype SleepResult = Slept | MaxRetriesReached | SleepCancelled

  class Backoff {
    const cfg: Config
    var currentDelay: int
    var attempts: nat

    /** The object has handed out as many delays since its reset as it counts attempts. */
    ghost predicate Valid()
      reads this
    {
      Usable(cfg) && currentDelay == Delay(cfg, attempts)
    }

    constructor (c: Config)
      ensures Valid() && cfg == Normalized(c) && attempts == 0
    {
      NormalizedIsUsable(c);
      var n := Normalized(c);
      cfg := n;
      currentDelay := n.initial;
      attempts := 0;
    }

    method Reset()
      requires Valid()
      modifies this
      ensures Valid() && attempts == 0
    {
      currentDelay := cfg.initial;
      attempts := 0;
    }

    predicate HasNext()
      reads this
    {
      cfg.maxRetries <= 0 || attempts < cfg.maxRetries
    }

    /** factor is the random jitter factor. */
    method NextDelay(factor: real) returns (delay: int)
      requires Valid() && IsFactor(factor)
      modifies this
      ensures Valid() && attempts == old(attempts) + 1
      ensures var plain := Delay(cfg, old(attempts));
              delay == if cfg.jitter then Scaled(plain, factor) else plain
    {
      delay := currentDelay;
      attempts := attempts + 1;
      var next := Scaled(currentDelay, cfg.multiplier);
      if next > cfg.max {
        next := cfg.max;
      }
      currentDelay := next;
      if cfg.jitter {
        delay := Scaled(delay, factor);
      }
    }

    /** cancelled tells whether the context ends before the timer. */
    method Sleep(factor: real, cancelled: bool) returns (r: SleepResult)
      requires Valid() && IsFactor(factor)
      modifies this
      ensures Valid()
      ensures r.MaxRetriesReached? <==> 0 < cfg.maxRetries <= old(attempts)
      ensures attempts == old(attempts) + if r.MaxRetriesReached? then 0 else 1
      ensures !r.MaxRetriesReached? ==> r == if cancelled then SleepCancelled else Slept
    {
      if !HasNext() {
        return MaxRetriesReached;
      }
      var delay := NextDelay(factor);
      r := if cancelled then SleepCancelled else Slept;
    }
  }

  // ---- The retry loop ----

  datatype Outcome = Succeeded | GaveUp | Cancelled

  /** op(i) tells whether call i succeeds, cancelled(i) whether the sleep after it is cut short. With
      no limit on retries something else must end the loop: horizon is a call that does. */
  method Retry(c: Config, op: nat -> bool, cancelled: nat -> bool, factor: real, ghost horizon: nat)
    returns (r: Outcome, calls: nat)
    requires IsFactor(factor)
    requires c.maxRetries > 0 || op(horizon) || cancelled(horizon)
    ensures calls > 0
    ensures forall i :: 0 <= i < calls - 1 ==> !op(i) && !cancelled(i) && (c.maxRetries <= 0 || i < c.maxRetries)
    ensures op(calls - 1) || cancelled(calls - 1) || 0 < c.maxRetries == calls - 1
    ensures c.maxRetries > 0 ==> calls <= c.maxRetries + 1
    ensures r == if op(calls - 1) then Succeeded
                 else if c.maxRetries > 0 && calls == c.maxRetries + 1 then GaveUp
                 else Cancelled
  {
    var b := new Backoff(c);
    calls := 0;
    while true
      invariant b.Valid() && b.cfg == Normalized(c) && b.attempts == calls && fresh(b)
      invariant forall i :: 0 <= i < calls ==> !op(i) && !cancelled(i) && (c.maxRetries <= 0 || i < c.maxRetries)
      invariant c.maxRetries > 0 ==> calls <= c.maxRetries
      invariant c.maxRetries <= 0 ==> calls <= horizon
      decreases (if c.maxRetries > 0 then c.maxRetries else horizon) - calls
    {
      var succeeded := op(calls);
      calls := calls + 1;
      if succeeded {
        return Succeeded, calls;
      }
      var slept := b.Sleep(factor, cancelled(calls - 1));
      if slept.MaxRetriesReached? {
        return GaveUp, calls;
      }
      if slept.SleepCancelled? {
        return Outcome.Cancelled, calls;
      }
    }
  }
}
