/**
 * The restart delay (pkg/fluent/watcher.go, backoff): a doubling number of seconds, capped at five
 * minutes, computed in 64-bit nanoseconds.
 */
module Backoff {
  import opened Bits

  const SECOND := 1_000_000_000
  const MAX_DELAY := 300 * SECOND

  /** 64-bit two's complement wrap-around. */
  function Wrap64(x: int): int
  {
    var u := x % 0x1_0000_0000_0000_0000;
    if u >= 0x8000_0000_0000_0000 then u - 0x1_0000_0000_0000_0000 else u
  }

  /** What converting a float64 beyond the range of int64 gives is up to the machine: one of the two ends. */
  predicate IsOverflow(x: int) { x == -0x8000_0000_0000_0000 || x == 0x7fff_ffff_ffff_ffff }

  /** time.Duration(math.Pow(2, restartTimes)) * time.Second, capped. */
  function Delay(restartTimes: nat, overflow: int): int
  {
    var seconds := if restartTimes < 63 then Pow2(restartTimes) else overflow;
    var delay := Wrap64(seconds * SECOND);
    if delay >= MAX_DELAY then MAX_DELAY else delay
  }

  /** What the comment in the source promises: 1s, 2s, 4s, ... capped at five minutes. */
  function Intended(restartTimes: nat): nat
  {
    if Pow2(restartTimes) >= 300 then MAX_DELAY else Pow2(restartTimes) * SECOND
  }

  /**
   * The counts for which the product does not overflow, or wraps to something above the cap: a second is
   * 1953125 * 2^9 nanoseconds, so the sign bit of the product is bit 54 - restartTimes of 1953125.
   */
  predicate Harmless(restartTimes: nat)
  {
    restartTimes <= 33 || (restartTimes <= 54 && 1953125 % Pow2(55 - restartTimes) < Pow2(54 - restartTimes))
  }

  lemma {:induction false} Pow2Monotonic(m: nat, n: nat)
    requires m <= n
    ensures Pow2(m) <= Pow2(n)
  {
    if m < n {
      Pow2Monotonic(m, n - 1);
    }
  }

  lemma Powers()
    ensures Pow2(33) == 0x2_0000_0000 && Pow2(55) == 0x80_0000_0000_0000 && Pow2(43) == 0x800_0000_0000
    ensures Pow2(63) == 0x8000_0000_0000_0000 && Pow2(64) == 0x1_0000_0000_0000_0000 && Pow2(9) == 512
  {
    Pow2Values();
    hide Pow2;
    Pow2Add(1, 32);
    Pow2Add(8, 1);
    Pow2Add(2, 9);
    Pow2Add(32, 11);
    Pow2Add(5, 2);
    Pow2Add(16, 32);
    Pow2Add(7, 48);
    Pow2Add(8, 55);
    Pow2Add(32, 31);
  }

  lemma NoOverflow(r: nat)
    requires r <= 33
    ensures Pow2(r) * SECOND < 0x8000_0000_0000_0000
  {
    Pow2Monotonic(r, 33);
    Powers();
  }

  lemma WrapOf(q: nat, y: int)
    requires 0 <= y < 0x1_0000_0000_0000_0000
    ensures Wrap64(q * 0x1_0000_0000_0000_0000 + y)
         == if y >= 0x8000_0000_0000_0000 then y - 0x1_0000_0000_0000_0000 else y
  {
  }

  /** Cutting 1953125 at bit k: the part above is lost in the product, the part below is odd. */
  lemma CutProduct(m: nat, h: nat, q: nat, x: nat)
    requires h * m == 0x8000_0000_0000_0000 && 1953125 == q * (2 * h) + x
    ensures 1953125 * m == q * 0x1_0000_0000_0000_0000 + x * m && x > 0
  {
    assert q * (2 * h) == 2 * (q * h);
    assert (q * (2 * h) + x) * m == q * (2 * (h * m)) + x * m;
  }

  lemma WrapParts(m: nat, h: nat, q: nat, x: nat)
    requires h * m == 0x8000_0000_0000_0000 && m >= 0x800_0000_0000
    requires 1953125 == q * (2 * h) + x && x < 2 * h
    ensures if x < h then Wrap64(1953125 * m) >= MAX_DELAY else Wrap64(1953125 * m) < 0
  {
    CutProduct(m, h, q, x);
    MulLe(x + 1, 2 * h, m);
    MulLe(x + 1, h, m);
    MulLe(h, x, m);
    MulLe(1, x, m);
    WrapOf(q, x * m);
  }

  lemma CutAt(d: nat) returns (q: nat, x: nat)
    requires d > 0
    ensures 1953125 == q * d + x && x < d && x == 1953125 % d
  {
    q, x := 1953125 / d, 1953125 % d;
  }

  lemma ProductForm(r: nat)
    requires 34 <= r <= 54
    ensures Pow2(r) * SECOND == 1953125 * Pow2(r + 9) && Pow2(54 - r) * Pow2(r + 9) == 0x8000_0000_0000_0000
    ensures Pow2(r + 9) >= 0x800_0000_0000 && Pow2(55 - r) == 2 * Pow2(54 - r)
  {
    Powers();
    Pow2Add(r, 9);
    Pow2Add(54 - r, r + 9);
    Pow2Monotonic(43, r + 9);
  }

  /** In between, the product is 1953125 * 2^(r + 9), of which the bits above 2^64 are lost. */
  lemma SomeOverflow(r: nat)
    requires 34 <= r <= 54
    ensures Harmless(r) ==> Wrap64(Pow2(r) * SECOND) >= MAX_DELAY
    ensures !Harmless(r) ==> Wrap64(Pow2(r) * SECOND) < 0
  {
    var h, m := Pow2(54 - r), Pow2(r + 9);
    ProductForm(r);
    var q, x := CutAt(Pow2(55 - r));
    assert Harmless(r) <==> x < h;
    hide *;
    WrapParts(m, h, q, x);
  }

  lemma MultipleWraps(p: nat)
    ensures Wrap64((p * 0x80_0000_0000_0000) * SECOND) == 0
  {
    var q := p * 1953125;
    assert (p * 0x80_0000_0000_0000) * SECOND == q * 0x1_0000_0000_0000_0000;
  }

  /** From 55 on the product is a multiple of 2^64. */
  lemma FullOverflow(r: nat)
    requires 55 <= r < 63
    ensures Wrap64(Pow2(r) * SECOND) == 0
  {
    Powers();
    Pow2Add(r - 55, 55);
    MultipleWraps(Pow2(r - 55));
  }

  /**
   * The delay is the promised one exactly for the harmless counts. For every other count it is zero or
   * negative, so that Fluent Bit is restarted at once.
   */
  lemma DelayExact(restartTimes: nat, overflow: int)
    requires IsOverflow(overflow)
    ensures Delay(restartTimes, overflow) == Intended(restartTimes) <==> Harmless(restartTimes)
    ensures !Harmless(restartTimes) ==> Delay(restartTimes, overflow) <= 0
  {
    var r := restartTimes;
    if r <= 33 {
      NoOverflow(r);
    } else {
      Pow2Monotonic(9, r);
      Powers();
      assert Intended(r) == MAX_DELAY;
      if r <= 54 {
        SomeOverflow(r);
      } else if r < 63 {
        FullOverflow(r);
      }
    }
  }

  /** The promised delays start at one second, never decrease and never exceed five minutes. */
  lemma IntendedBounds(r: nat)
    ensures Intended(0) == SECOND && SECOND <= Intended(r) <= Intended(r + 1) <= MAX_DELAY
    ensures SECOND == 1_000_000_000 && MAX_DELAY == 300_000_000_000
  {
  }

  function Sum(xs: seq<int>): int
  {
    if xs == [] then 0 else Sum(xs[..|xs| - 1]) + xs[|xs| - 1]
  }

  lemma SumAppended(xs: seq<int>, x: int)
    ensures Sum(xs + [x]) == Sum(xs) + x
  {
    assert (xs + [x])[..|xs|] == xs;
  }

  /** The sum of the first n promised delays. */
  function TotalDelay(n: nat): nat
  {
    if n == 0 then 0 else TotalDelay(n - 1) + Intended(n - 1)
  }

  /** The closed form of the sum: doubling up to the ninth delay, five minutes each after that. */
  lemma {:induction false} TotalDelayClosed(n: nat)
    ensures n <= 9 ==> TotalDelay(n) == (Pow2(n) - 1) * SECOND
    ensures n >= 9 ==> TotalDelay(n) == (511 + 300 * (n - 9)) * SECOND
  {
    Pow2Values();
    Powers();
    if n > 0 {
      TotalDelayClosed(n - 1);
      if n <= 9 {
        Pow2Monotonic(n - 1, 8);
      } else {
        Pow2Monotonic(9, n - 1);
      }
    }
  }
}
