/**
 * What pkg/common/common.go, calculatePerInputMemoryLimit, needs of float32: conversion from an integer,
 * one multiplication, and conversion back. Natural numbers are rounded to 24 significant bits.
 */
module Float32 {
  import opened Bits

  const SIGNIFICANT := 0x100_0000

  /** The distance between neighbouring float32 numbers around x, not below one. */
  function Unit(x: nat): (u: nat)
    ensures u >= 1
  {
    if x < SIGNIFICANT then 1 else 2 * Unit(x / 2)
  }

  /** Rounding to the nearest multiple of the unit, ties to the even one. */
  function Round(x: nat): nat
  {
    var u := Unit(x);
    var q, r := x / u, x % u;
    (if 2 * r < u || (2 * r == u && q % 2 == 0) then q else q + 1) * u
  }

  /** 1.2 as a float32 is 10066330 / 2^23. */
  const MULTIPLIER := 10066330
  const SCALE := 0x80_0000

  /** int(float32(n) * 1.2) */
  function TimesSixFifths(n: nat): nat { Round(Round(n) * MULTIPLIER) / SCALE }

  lemma {:induction false} UnitBound(x: nat)
    ensures x < SIGNIFICANT || Unit(x) * SCALE <= x
  {
    if x >= SIGNIFICANT {
      UnitBound(x / 2);
    }
  }

  lemma Cut(x: nat, u: nat) returns (q: nat, r: nat)
    requires u >= 1
    ensures q == x / u && r == x % u && x == q * u + r && r < u
  {
    q, r := x / u, x % u;
  }

  /** The result is one of the two neighbours, and no more than half a unit away. */
  lemma RoundNear(x: nat)
    ensures x - x % Unit(x) <= Round(x)
    ensures 2 * x - Unit(x) <= 2 * Round(x) <= 2 * x + Unit(x)
  {
    var u := Unit(x);
    var q, r := Cut(x, u);
    assert (q + 1) * u == q * u + u;
  }

  /** The relative error of rounding is at most 2^-24. */
  lemma RelativeError(x: nat)
    ensures x * (SIGNIFICANT - 1) <= Round(x) * SIGNIFICANT <= x * (SIGNIFICANT + 1)
    ensures x < SIGNIFICANT ==> Round(x) == x
  {
    UnitBound(x);
    if x < SIGNIFICANT {
      assert Unit(x) == 1;
    } else {
      RoundNear(x);
    }
  }

  /** The product is never below n. */
  lemma AtLeast(n: nat)
    ensures n <= TimesSixFifths(n) && 10 * TimesSixFifths(n) <= 13 * n
  {
    RelativeError(n);
    RelativeError(Round(n) * MULTIPLIER);
    hide Round;
  }

  lemma {:induction false} UnitDivides(x: nat, k: nat) returns (c: nat)
    requires x < SIGNIFICANT * Pow2(k)
    ensures c * Unit(x) == Pow2(k)
  {
    if x < SIGNIFICANT {
      c := Pow2(k);
    } else {
      c := UnitDivides(x / 2, k - 1);
      MulTwice(c, Unit(x / 2));
    }
  }

  /** Rounding does not go below a multiple of the unit. */
  lemma NotBelow(x: nat, b: nat)
    requires b * Unit(x) <= x
    ensures b * Unit(x) <= Round(x)
  {
    var u := Unit(x);
    RoundNear(x);
    var q, r := Cut(x, u);
    hide Unit, Round;
    FloorMultiple(b, q, u, r);
  }

  lemma FloorMultiple(b: nat, q: nat, u: nat, r: nat)
    requires b * u <= q * u + r && r < u
    ensures b * u <= q * u
  {
    if b > q {
      MulLe(q + 1, b, u);
    } else {
      MulLe(b, q, u);
    }
  }

  /** With five plugins, and any multiple, 6/5 is a whole number, and the product is not rounded below it. */
  lemma WholeNumber(m: nat)
    requires 5 * m < 0x10_0000
    ensures 6 * m <= TimesSixFifths(5 * m)
  {
    RelativeError(5 * m);
    var x := 5 * m * MULTIPLIER;
    assert Pow2(23) == SCALE by {
      Pow2Values();
      Pow2Add(16, 7);
      Pow2Add(5, 2);
    }
    var c := UnitDivides(x, 23);
    var u := Unit(x);
    hide Unit, Round, Pow2;
    assert (6 * m * c) * u == 6 * m * (c * u);
    assert x == 6 * m * SCALE + 2 * m;
    NotBelow(x, 6 * m * c);
  }

  /** The error is too small to bring the product to the next integer ... */
  lemma NotAbove(n: int, v: int, r: int)
    requires 0 <= n < 0x10_0000 && 5 * v <= 6 * n <= 5 * v + 4 && r >= 0
    requires r * SIGNIFICANT <= n * MULTIPLIER * (SIGNIFICANT + 1)
    ensures r < (v + 1) * SCALE
  {
  }

  /** ... or, unless the product is a whole number, to the one before. */
  lemma StillThere(n: int, v: int, r: int)
    requires 0 <= n < 0x10_0000 && 5 * v < 6 * n
    requires n * MULTIPLIER * (SIGNIFICANT - 1) <= r * SIGNIFICANT
    ensures v * SCALE <= r
  {
  }

  lemma CutBetween(r: int, v: int)
    requires v * SCALE <= r < (v + 1) * SCALE
    ensures r / SCALE == v
  {
  }

  /** For fewer than 2^20 plugins the product, cut to an integer, is that of the exact factor 6/5. */
  lemma Exact(n: nat)
    requires n < 0x10_0000
    ensures TimesSixFifths(n) == 6 * n / 5
  {
    hide Round, Unit;
    var v, r := 6 * n / 5, Round(n * MULTIPLIER);
    RelativeError(n);
    RelativeError(n * MULTIPLIER);
    if n % 5 == 0 {
      WholeNumber(n / 5);
    } else {
      assert 5 * v < 6 * n;
      StillThere(n, v, r);
    }
    NotAbove(n, v, r);
    CutBetween(r, v);
  }
}
