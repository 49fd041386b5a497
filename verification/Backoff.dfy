/** Retry pacing: `nextDelay` and `jitter`, in nanoseconds. */
module Backoff {

  datatype BackoffConfig = BackoffConfig(initial: int, max: int, multiplier: real, jitterFrac: real)

  const SECOND := 1_000_000_000

  const DEFAULT_BACKOFF := BackoffConfig(SECOND, 60 * SECOND, 2.0, 0.2)

  /** The zero configuration stands for the default one. */
  function OrDefault(b: BackoffConfig): BackoffConfig {
    if b == BackoffConfig(0, 0, 0.0, 0.0) then DEFAULT_BACKOFF else b
  }

  /** time.Duration(f): towards zero. */
  function Truncate(r: real): int {
    if r >= 0.0 then r.Floor else -((-r).Floor)
  }

  function NextDelay(cur: int, b: BackoffConfig): int {
    var next := Truncate(cur as real * b.multiplier);
    if next > b.max then b.max else next
  }

  function Delta(d: int, frac: real, draw: real): real {
    (draw * 2.0 - 1.0) * frac * d as real
  }

  /** `draw` is the random number in [0, 1). */
  function Jitter(d: int, frac: real, draw: real): int {
    if frac <= 0.0 then
      d
    else
      var out := Truncate(d as real + Delta(d, frac, draw));
      if out < 0 then 0 else out
  }

  /** The delay in force after n failed attempts. */
  function DelayAfter(b: BackoffConfig, n: nat): int {
    if n == 0 then b.initial else NextDelay(DelayAfter(b, n - 1), b)
  }

  // ----- laws

  /** Rounding is towards zero. */
  lemma TruncateIs(r: real)
    ensures r >= 0.0 ==> Truncate(r) as real <= r < Truncate(r) as real + 1.0
    ensures r < 0.0 ==> Truncate(r) as real - 1.0 < r <= Truncate(r) as real
  {
  }

  /** A retry waits Multiplier times as long as the one before, rounded down, but no longer than Max. */
  lemma NextDelayIs(cur: int, b: BackoffConfig)
    requires cur >= 0 && b.multiplier >= 0.0
    ensures var next, x := NextDelay(cur, b), cur as real * b.multiplier;
      && next <= b.max && next as real <= x
      && (next == b.max || x < next as real + 1.0)
  {
    var x := cur as real * b.multiplier;
    assert x >= 0.0;
    TruncateIs(x);
  }

  /** From (1 - f) d to (1 + f) d, evenly with the draw. */
  function Aimed(d: int, frac: real, draw: real): real {
    d as real * (1.0 - frac + 2.0 * frac * draw)
  }

  lemma DeltaAims(d: int, frac: real, draw: real)
    ensures d as real + Delta(d, frac, draw) == Aimed(d, frac, draw)
  {
    var r, fd := d as real, frac * draw;
    assert draw * 2.0 * frac == 2.0 * fd;
    var a := (draw * 2.0 - 1.0) * frac;
    assert a == 2.0 * fd - frac;
    assert 2.0 * frac * draw == 2.0 * fd;
    assert a * r == r * a;
    assert r * (1.0 + a) == r + r * a;
    assert 1.0 - frac + 2.0 * frac * draw == 1.0 + a;
  }

  /** A sleep is what is aimed at, rounded down, and never negative. */
  lemma JitterIs(d: int, frac: real, draw: real)
    ensures frac <= 0.0 ==> Jitter(d, frac, draw) == d
    ensures frac > 0.0 ==>
      var x := Aimed(d, frac, draw);
      if x < 0.0 then Jitter(d, frac, draw) == 0 else Jitter(d, frac, draw) as real <= x < Jitter(d, frac, draw) as real + 1.0
  {
    hide Aimed, Delta;
    DeltaAims(d, frac, draw);
    TruncateIs(Aimed(d, frac, draw));
  }

  const UNSET := BackoffConfig(0, 0, 0.0, 0.0)

  /** The production pacing: 1 s, doubling up to a minute, give or take a fifth. */
  const PRODUCTION := BackoffConfig(1_000_000_000, 60_000_000_000, 2.0, 0.2)

  /** A configuration left unset is paced by it, and any other as it stands. */
  lemma UnsetIsProduction(b: BackoffConfig)
    ensures OrDefault(b) == if b == UNSET then PRODUCTION else b
  {
  }

  /** The nth delay of a configuration left unset is 2^n seconds, but no more than 60. */
  lemma UnsetDelays(n: nat)
    ensures DelayAfter(OrDefault(UNSET), n) == Min(60_000_000_000, 1_000_000_000 * Pow2(n))
    ensures OrDefault(UNSET).jitterFrac == 0.2
  {
    DoublingDelay(PRODUCTION, n);
  }

  function Pow2(n: nat): nat {
    if n == 0 then 1 else 2 * Pow2(n - 1)
  }

  function Min(a: int, b: int): int {
    if a < b then a else b
  }

  lemma NextDoubles(d: int, b: BackoffConfig)
    requires b.multiplier == 2.0 && d >= 0
    ensures NextDelay(d, b) == Min(b.max, 2 * d)
  {
    assert d as real * 2.0 == (2 * d) as real;
  }

  lemma Shift(a: nat, p: nat)
    ensures a * (2 * p) == 2 * (a * p) && a * p >= 0
  {
  }

  /** With multiplier 2 the nth delay is Initial * 2^n, capped at Max. */
  lemma {:induction false} DoublingDelay(b: BackoffConfig, n: nat)
    requires b.multiplier == 2.0 && 0 <= b.initial <= b.max
    ensures DelayAfter(b, n) == Min(b.max, b.initial * Pow2(n))
    decreases n
  {
    if n == 0 {
      assert Pow2(0) == 1;
    } else {
      DoublingDelay(b, n - 1);
      Shift(b.initial, Pow2(n - 1));
      NextDoubles(DelayAfter(b, n - 1), b);
    }
  }

  /** The shortest sleep that jitter can make of a delay. */
  function MinSleep(d: int, frac: real): int {
    if frac <= 0.0 then d
    else if frac >= 1.0 then 0
    else ((1.0 - frac) * d as real).Floor
  }

  lemma ScaledBounds(x: real, y: real)
    requires -1.0 <= x <= 1.0 && y >= 0.0
    ensures -y <= x * y <= y
  {
    assert (x + 1.0) * y >= 0.0;
    assert (1.0 - x) * y >= 0.0;
  }

  lemma TruncateBetween(x: real, lo: real, hi: real)
    requires lo <= x <= hi && hi >= 0.0
    ensures var t := Truncate(x);
      var out := if t < 0 then 0 else t;
      0 <= out && out as real <= hi && lo.Floor <= out
  {
  }

  lemma DeltaBounds(d: int, frac: real, draw: real) returns (spread: real)
    requires d >= 0 && 0.0 <= draw < 1.0 && frac > 0.0
    ensures -spread <= Delta(d, frac, draw) <= spread && spread >= 0.0
    ensures (1.0 - frac) * d as real == d as real - spread
    ensures (1.0 + frac) * d as real == d as real + spread
  {
    var r, u := d as real, draw * 2.0 - 1.0;
    spread := frac * r;
    assert spread >= 0.0;
    ScaledBounds(u, spread);
    assert Delta(d, frac, draw) == u * spread by { Regroup(u, frac, r); }
    Regroup(u, frac, r);
  }

  lemma Regroup(u: real, frac: real, r: real)
    ensures u * frac * r == u * (frac * r)
    ensures (1.0 - frac) * r == r - frac * r && (1.0 + frac) * r == r + frac * r
  {
  }

  /** Whatever the draw, a sleep is between (1 - f) d, rounded down, and (1 + f) d. */
  lemma JitterBounds(d: int, frac: real, draw: real)
    requires d >= 0 && 0.0 <= draw < 1.0 && frac >= 0.0
    ensures MinSleep(d, frac) <= Jitter(d, frac, draw)
    ensures 0 <= Jitter(d, frac, draw) && Jitter(d, frac, draw) as real <= (1.0 + frac) * d as real
  {
    if frac > 0.0 {
      var spread := DeltaBounds(d, frac, draw);
      var r, delta := d as real, Delta(d, frac, draw);
      TruncateBetween(r + delta, r - spread, r + spread);
    }
  }

  /** The least time n retries can take. */
  function MinElapsed(b: BackoffConfig, n: nat): int {
    if n == 0 then 0 else MinElapsed(b, n - 1) + MinSleep(DelayAfter(b, n - 1), b.jitterFrac)
  }

  lemma {:induction false} DelaysNonNegative(b: BackoffConfig, n: nat)
    requires b.initial >= 0 && b.max >= 0 && b.multiplier >= 0.0
    ensures DelayAfter(b, n) >= 0
    decreases n
  {
    if n > 0 {
      DelaysNonNegative(b, n - 1);
      assert DelayAfter(b, n - 1) as real * b.multiplier >= 0.0;
    }
  }

  lemma MinSleepNonNegative(d: int, frac: real)
    requires d >= 0
    ensures MinSleep(d, frac) >= 0
  {
    if 0.0 < frac < 1.0 { assert (1.0 - frac) * d as real >= 0.0; }
  }

  lemma {:induction false} MinElapsedMonotone(b: BackoffConfig, m: nat, n: nat)
    requires b.initial >= 0 && b.max >= 0 && b.multiplier >= 0.0 && m <= n
    ensures 0 <= MinElapsed(b, m) <= MinElapsed(b, n)
    decreases n
  {
    if n > 0 {
      DelaysNonNegative(b, n - 1);
      MinSleepNonNegative(DelayAfter(b, n - 1), b.jitterFrac);
      if m < n {
        MinElapsedMonotone(b, m, n - 1);
      } else {
        MinElapsedMonotone(b, n - 1, n - 1);
      }
    }
  }

  /** By default the third retry is at least 5.6 s after the first attempt. */
  lemma DefaultPacing()
    ensures MinElapsed(DEFAULT_BACKOFF, 3) == 5_600_000_000
  {
    var b := DEFAULT_BACKOFF;
    DoublingDelay(b, 0);
    DoublingDelay(b, 1);
    DoublingDelay(b, 2);
    assert Pow2(1) == 2 && Pow2(2) == 4;
    assert MinSleep(SECOND, 0.2) == 800_000_000;
    assert MinSleep(2 * SECOND, 0.2) == 1_600_000_000;
    assert MinSleep(4 * SECOND, 0.2) == 3_200_000_000;
    assert MinElapsed(b, 1) == 800_000_000;
    assert MinElapsed(b, 2) == 2_400_000_000;
  }
}
