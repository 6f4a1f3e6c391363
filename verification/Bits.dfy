/**
 * Bit strings, most significant bit first, and the numbers they denote
 * (section 3.1 of FIPS 180-4). Bitwise operators act position by position, and a rotation exchanges
 * the two parts of a string. Everything the Lua code computes with numbers, tables, divisions or
 * library calls is compared with these definitions.
 */
module Bits {

  type Word = s: seq<bool> | |s| == 32 witness seq(32, _ => false)

  type BitOp = (bool, bool) -> bool

  function Pow2(n: nat): (p: nat)
    ensures p >= 1
  {
    if n == 0 then 1 else 2 * Pow2(n - 1)
  }

  function BitValue(b: bool): nat { if b then 1 else 0 }

  /** The number denoted by a bit string. */
  function Value(s: seq<bool>): nat
  {
    if s == [] then 0 else 2 * Value(s[..|s| - 1]) + BitValue(s[|s| - 1])
  }

  /** The low bits of x, one for each position of `shape`. */
  function LowBits(shape: seq<bool>, x: nat): (s: seq<bool>)
    ensures |s| == |shape|
  {
    if shape == [] then [] else LowBits(shape[1..], x / 2) + [x % 2 == 1]
  }

  function Zeros(n: nat): (s: seq<bool>)
    ensures |s| == n
  {
    seq(n, _ => false)
  }

  /** The n-bit string of the number x mod 2^n. */
  function BitsOf(n: nat, x: nat): (s: seq<bool>)
    ensures |s| == n
  {
    LowBits(Zeros(n), x)
  }

  /** The operator `op` applied position by position. */
  function Map2(op: BitOp, s: seq<bool>, t: seq<bool>): (r: seq<bool>)
    requires |s| == |t|
    ensures |r| == |s|
    ensures forall i :: 0 <= i < |s| ==> r[i] == op(s[i], t[i])
  {
    seq(|s|, i requires 0 <= i < |s| => op(s[i], t[i]))
  }

  function And(s: seq<bool>, t: seq<bool>): (r: seq<bool>)
    requires |s| == |t|
    ensures |r| == |s|
  {
    Map2((a, b) => a && b, s, t)
  }

  function Or(s: seq<bool>, t: seq<bool>): (r: seq<bool>)
    requires |s| == |t|
    ensures |r| == |s|
  {
    Map2((a, b) => a || b, s, t)
  }

  function Xor(s: seq<bool>, t: seq<bool>): (r: seq<bool>)
    requires |s| == |t|
    ensures |r| == |s|
  {
    Map2((a, b) => a != b, s, t)
  }

  function Not(s: seq<bool>): (r: seq<bool>)
    ensures |r| == |s|
  {
    seq(|s|, i requires 0 <= i < |s| => !s[i])
  }

  /** Circular left shift. */
  function Rotl(s: seq<bool>, n: nat): (r: seq<bool>)
    requires n <= |s|
    ensures |r| == |s|
  {
    s[n..] + s[..n]
  }

  // ---- Powers of two ----

  lemma MulTwice(a: nat, p: nat)
    ensures a * (2 * p) == 2 * (a * p) == (2 * a) * p
  {
  }

  lemma {:induction false} Pow2Add(m: nat, n: nat)
    ensures Pow2(m + n) == Pow2(m) * Pow2(n)
  {
    if m > 0 {
      Pow2Add(m - 1, n);
      MulTwice(Pow2(m - 1), Pow2(n));
    }
  }

  lemma SmallPowers()
    ensures Pow2(1) == 2 && Pow2(2) == 4 && Pow2(3) == 8 && Pow2(4) == 16 && Pow2(5) == 32 && Pow2(8) == 256
  {
    Pow2Add(4, 4);
  }

  lemma Pow2Values()
    ensures Pow2(1) == 2 && Pow2(2) == 4 && Pow2(3) == 8 && Pow2(4) == 16 && Pow2(5) == 32
    ensures Pow2(8) == 256 && Pow2(16) == 65536 && Pow2(24) == 0x100_0000
    ensures Pow2(31) == 0x8000_0000 && Pow2(32) == 0x1_0000_0000 && Pow2(64) == 0x1_0000_0000_0000_0000
  {
    SmallPowers();
    hide Pow2;
    Pow2Add(8, 8);
    Pow2Add(8, 16);
    Pow2Add(16, 16);
    Pow2Add(1, 31);
    Pow2Add(32, 32);
  }

  // ---- Strings and numbers ----

  lemma {:induction false} ValueBound(s: seq<bool>)
    ensures Value(s) < Pow2(|s|)
  {
    if s != [] {
      ValueBound(s[..|s| - 1]);
    }
  }

  lemma {:induction false} ValueOfLowBits(shape: seq<bool>, x: nat)
    requires x < Pow2(|shape|)
    ensures Value(LowBits(shape, x)) == x
  {
    if shape != [] {
      ValueOfLowBits(shape[1..], x / 2);
      assert LowBits(shape, x)[..|shape| - 1] == LowBits(shape[1..], x / 2);
    }
  }

  lemma ValueOfBits(n: nat, x: nat)
    requires x < Pow2(n)
    ensures Value(BitsOf(n, x)) == x
  {
    ValueOfLowBits(Zeros(n), x);
  }

  lemma {:induction false} LowBitsOfValue(shape: seq<bool>, s: seq<bool>)
    requires |shape| == |s|
    ensures LowBits(shape, Value(s)) == s
  {
    if s != [] {
      LowBitsOfValue(shape[1..], s[..|s| - 1]);
      assert s == s[..|s| - 1] + [s[|s| - 1]];
    }
  }

  lemma BitsOfValue(s: seq<bool>)
    ensures BitsOf(|s|, Value(s)) == s
  {
    LowBitsOfValue(Zeros(|s|), s);
  }

  /** Strings of one length that denote the same number are equal. */
  lemma ValueInjective(s: seq<bool>, t: seq<bool>)
    requires |s| == |t| && Value(s) == Value(t)
    ensures s == t
  {
    BitsOfValue(s);
    BitsOfValue(t);
  }

  lemma {:induction false} ValueConcat(s: seq<bool>, t: seq<bool>)
    ensures Value(s + t) == Value(s) * Pow2(|t|) + Value(t)
  {
    if t == [] {
      assert s + t == s;
    } else {
      var (t', b) := (t[..|t| - 1], BitValue(t[|t| - 1]));
      assert (s + t)[..|s + t| - 1] == s + t';
      ValueConcat(s, t');
      ConcatStep(Value(s + t'), Value(s), Pow2(|t'|), Value(t'), b);
    }
  }

  lemma ConcatStep(u: nat, v: nat, p: nat, w: nat, b: nat)
    requires u == v * p + w
    ensures 2 * u + b == v * (2 * p) + (2 * w + b)
  {
    MulTwice(v, p);
  }

  lemma {:induction false} ValueZeros(n: nat)
    ensures Value(Zeros(n)) == 0
  {
    if n > 0 {
      assert Zeros(n)[..n - 1] == Zeros(n - 1);
      ValueZeros(n - 1);
    }
  }

  lemma {:induction false} ValueNot(s: seq<bool>)
    ensures Value(Not(s)) == Pow2(|s|) - 1 - Value(s)
  {
    if s != [] {
      assert Not(s)[..|s| - 1] == Not(s[..|s| - 1]);
      ValueNot(s[..|s| - 1]);
    }
  }

  /** If no position holds a one in both strings, the sum of the numbers is their union. */
  lemma {:induction false} DisjointSum(s: seq<bool>, t: seq<bool>)
    requires |s| == |t|
    requires forall i :: 0 <= i < |s| ==> !(s[i] && t[i])
    ensures Value(s) + Value(t) == Value(Or(s, t))
  {
    if s != [] {
      assert Or(s, t)[..|s| - 1] == Or(s[..|s| - 1], t[..|s| - 1]);
      DisjointSum(s[..|s| - 1], t[..|s| - 1]);
    }
  }

  lemma MulLe(x: int, y: int, q: nat)
    ensures x <= y ==> x * q <= y * q
  {
  }

  lemma DivModUnique(x: nat, m: nat, q: nat, r: nat)
    requires r < m && x == q * m + r
    ensures x / m == q && x % m == r
  {
    var (q', r') := (x / m, x % m);
    assert x == q' * m + r';
    MulLe(q + 1, q', m);
    MulLe(q' + 1, q, m);
  }

  /** Dividing by 2^|t| cuts a string in two. */
  lemma ValueCut(s: seq<bool>, t: seq<bool>)
    ensures Value(s + t) / Pow2(|t|) == Value(s) && Value(s + t) % Pow2(|t|) == Value(t)
  {
    ValueConcat(s, t);
    ValueBound(t);
    DivModUnique(Value(s + t), Pow2(|t|), Value(s), Value(t));
  }

  // ---- Rotations ----

  /** Rotations compose by adding the shifts modulo the length. */
  lemma RotlCompose(s: Word, j: nat, k: nat)
    requires j <= 32 && k <= 32
    ensures Rotl(Rotl(s, j), k) == Rotl(s, (j + k) % 32)
  {
    if j + k < 32 {
      assert Rotl(Rotl(s, j), k) == Rotl(s, j + k);
    } else if j + k < 64 {
      assert Rotl(Rotl(s, j), k) == Rotl(s, j + k - 32);
    } else {
      assert Rotl(Rotl(s, j), k) == s == Rotl(s, 0);
    }
  }
}
