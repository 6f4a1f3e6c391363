/**
 * The lookup tables of the pure-Lua back end (lua/sha1/pure_lua_ops.lua): a table for an operator
 * over n bits is assembled from the table for n / 2 bits.
 */
module OpCache {
  import opened Bits

  /** The single-bit operator as a function on the numbers 0 and 1, as Lua passes it. */
  type NumericBitOp = (nat, nat) -> nat

  predicate IsBitOperator(f: NumericBitOp)
  {
    f(0, 0) <= 1 && f(0, 1) <= 1 && f(1, 0) <= 1 && f(1, 1) <= 1
  }

  function Lift(f: NumericBitOp): BitOp
  {
    (a, b) => f(BitValue(a), BitValue(b)) == 1
  }

  predicate IsPowerOfTwo(n: nat)
  {
    n == 1 || (n > 1 && n % 2 == 0 && IsPowerOfTwo(n / 2))
  }

  /** `op` applied bit by bit to two numbers of n bits. */
  function Cell(op: BitOp, n: nat, a: nat, b: nat): (v: nat)
    ensures v < Pow2(n)
  {
    ValueBound(Map2(op, BitsOf(n, a), BitsOf(n, b)));
    Value(Map2(op, BitsOf(n, a), BitsOf(n, b)))
  }

  function Key(a: int, size: int, b: int): int { a * size + b }

  /** What the table for n bits holds under the key k, where size = 2^n. */
  function EntryOf(op: BitOp, n: nat, size: nat, k: nat): nat
    requires size > 0
  {
    Cell(op, n, k / size, k % size)
  }

  function Entries(op: BitOp, n: nat): int -> nat
  {
    k => if k < 0 then 0 else EntryOf(op, n, Pow2(n), k)
  }

  /** The table holding the first `count` entries and nothing else. */
  function Table(entries: int -> nat, count: int): map<int, int>
  {
    map k | 0 <= k < count :: entries(k)
  }

  function Iota(n: nat): seq<int> { seq(n, i => i) }

  // ---- One entry ----

  lemma BitsOfJoin(m: nat, n: nat, q: nat, hi: nat, lo: nat)
    requires q == Pow2(n) && hi < Pow2(m) && lo < q
    ensures Key(hi, q, lo) >= 0
    ensures BitsOf(m + n, Key(hi, q, lo)) == BitsOf(m, hi) + BitsOf(n, lo)
  {
    var s, t := BitsOf(m, hi), BitsOf(n, lo);
    ValueOfBits(m, hi);
    ValueOfBits(n, lo);
    ValueConcat(s, t);
    assert Value(s + t) == Key(hi, q, lo) && |s + t| == m + n;
    BitsOfValue(s + t);
  }

  /** The entry for 2h bits is made of two entries for h bits. */
  lemma CellJoin(op: BitOp, h: nat, p: nat, a1: nat, a2: nat, b1: nat, b2: nat)
    requires p == Pow2(h) && a1 < p && a2 < p && b1 < p && b2 < p
    ensures Key(a1, p, a2) >= 0 && Key(b1, p, b2) >= 0
    ensures Cell(op, h + h, Key(a1, p, a2), Key(b1, p, b2)) == Key(Cell(op, h, a1, b1), p, Cell(op, h, a2, b2))
  {
    BitsOfJoin(h, h, p, a1, a2);
    BitsOfJoin(h, h, p, b1, b2);
    var (s1, s2, t1, t2) := (BitsOf(h, a1), BitsOf(h, a2), BitsOf(h, b1), BitsOf(h, b2));
    assert Map2(op, s1 + s2, t1 + t2) == Map2(op, s1, t1) + Map2(op, s2, t2);
    ValueConcat(Map2(op, s1, t1), Map2(op, s2, t2));
  }

  lemma KeyBound(x: nat, y: nat, m: nat, h: nat)
    requires x < m && y < h
    ensures 0 <= Key(x, h, y) < m * h
  {
    MulLe(x + 1, m, h);
  }

  lemma EntryAt(op: BitOp, n: nat, p: nat, a: nat, b: nat)
    requires p == Pow2(n) && a < p && b < p
    ensures 0 <= Key(a, p, b) < p * p
    ensures Entries(op, n)(Key(a, p, b)) == Cell(op, n, a, b)
  {
    KeyBound(a, b, p, p);
    DivModUnique(Key(a, p, b), p, a, b);
  }

  /** The entry for the halves (a1, a2) and (b1, b2) is assembled from two entries of the half table. */
  ghost predicate Assembled(entries: int -> nat, half: int -> nat, p: int, a1: int, a2: int, b1: int, b2: int)
  {
    entries(Key(Key(a1, p, a2), p * p, Key(b1, p, b2))) == Key(half(Key(a1, p, b1)), p, half(Key(a2, p, b2)))
  }

  ghost predicate HalvesFit(entries: int -> nat, half: int -> nat, p: int)
  {
    forall a1: nat, a2: nat, b1: nat, b2: nat :: a1 < p && a2 < p && b1 < p && b2 < p
      ==> Assembled(entries, half, p, a1, a2, b1, b2)
  }

  lemma AllAssembled(op: BitOp, h: nat)
    ensures HalvesFit(Entries(op, h + h), Entries(op, h), Pow2(h))
  {
    var (e, d, p) := (Entries(op, h + h), Entries(op, h), Pow2(h));
    forall a1: nat, a2: nat, b1: nat, b2: nat | a1 < p && a2 < p && b1 < p && b2 < p
      ensures Assembled(e, d, p, a1, a2, b1, b2)
    {
      EntriesAssembled(op, h, p, a1, a2, b1, b2);
    }
  }

  lemma EntriesAssembled(op: BitOp, h: nat, p: nat, a1: nat, a2: nat, b1: nat, b2: nat)
    requires p == Pow2(h) && a1 < p && a2 < p && b1 < p && b2 < p
    ensures Assembled(Entries(op, h + h), Entries(op, h), p, a1, a2, b1, b2)
  {
    Pow2Add(h, h);
    KeyBound(a1, a2, p, p);
    KeyBound(b1, b2, p, p);
    EntryAt(op, h + h, p * p, Key(a1, p, a2), Key(b1, p, b2));
    EntryAt(op, h, p, a1, b1);
    EntryAt(op, h, p, a2, b2);
    CellJoin(op, h, p, a1, a2, b1, b2);
  }

  lemma TableNext(entries: int -> nat, n: nat)
    ensures Table(entries, n)[n := entries(n)] == Table(entries, n + 1) && Iota(n) + [n] == Iota(n + 1)
  {
  }

  // ---- The table ----

  /**
   * The table holds the operator applied bit by bit, under the key a * 2^bits + b, for exactly the
   * pairs of numbers of `bits` bits; `order` lists the keys in the order they were written.
   */
  method MakeOpCache(f: NumericBitOp, bits: nat) returns (cache: map<int, int>, ghost order: seq<int>)
    requires IsBitOperator(f) && IsPowerOfTwo(bits)
    ensures cache == Table(Entries(Lift(f), bits), Pow2(bits) * Pow2(bits))
    ensures order == Iota(Pow2(bits) * Pow2(bits))
    ensures |order| == Pow2(bits) * Pow2(bits) && forall i :: 0 <= i < |order| ==> order[i] == i
    decreases bits
  {
    if bits == 1 {
      cache := map[0 := f(0, 0), 1 := f(0, 1), 2 := f(1, 0), 3 := f(1, 1)];
      order := [0, 1, 2, 3];
      BaseTable(f);
      return;
    }
    var halfBits := bits / 2;
    ghost var op := Lift(f);
    Pow2Add(halfBits, halfBits);
    var halfCache, _ := MakeOpCache(f, halfBits);
    AllAssembled(op, halfBits);
    cache, order := Combine(Entries(op, bits), Entries(op, halfBits), Pow2(bits), Pow2(halfBits), halfCache);
  }

  method Combine(ghost entries: int -> nat, ghost half: int -> nat, size: nat, halfSize: nat, halfCache: map<int, int>)
    returns (cache: map<int, int>, ghost order: seq<int>)
    requires size == halfSize * halfSize && halfCache == Table(half, size)
    requires HalvesFit(entries, half, halfSize)
    ensures cache == Table(entries, size * size) && order == Iota(size * size)
  {
    cache, order := map[], [];
    for a1 := 0 to halfSize
      invariant |order| == (a1 * halfSize) * size
      invariant cache == Table(entries, |order|) && order == Iota(|order|)
    {
      var a1HalfSize := a1 * halfSize;
      for a2 := 0 to halfSize
        invariant |order| == (a1HalfSize + a2) * size
        invariant cache == Table(entries, |order|) && order == Iota(|order|)
      {
        var a2Size := a2 * halfSize;
        var aSize := (a1HalfSize + a2) * size;
        for b1 := 0 to halfSize
          invariant |order| == aSize + b1 * halfSize
          invariant cache == Table(entries, |order|) && order == Iota(|order|)
        {
          var aSizePlusB1HalfSize := aSize + b1 * halfSize;
          KeyBound(a1, b1, halfSize, halfSize);
          var v1HalfSize := halfCache[a1HalfSize + b1] * halfSize;
          for b2 := 0 to halfSize
            invariant |order| == aSizePlusB1HalfSize + b2
            invariant cache == Table(entries, |order|) && order == Iota(|order|)
          {
            KeyBound(a2, b2, halfSize, halfSize);
            assert Assembled(entries, half, halfSize, a1, a2, b1, b2);
            TableNext(entries, |order|);
            cache := cache[aSizePlusB1HalfSize + b2 := v1HalfSize + halfCache[a2Size + b2]];
            order := order + [aSizePlusB1HalfSize + b2];
          }
          Next(b1, halfSize);
        }
        Next(a1HalfSize + a2, size);
      }
      Next(a1, halfSize);
    }
  }

  lemma Next(x: int, m: int)
    ensures (x + 1) * m == x * m + m
  {
  }

  lemma BaseTable(f: NumericBitOp)
    requires IsBitOperator(f)
    ensures Pow2(1) == 2
    ensures map[0 := f(0, 0), 1 := f(0, 1), 2 := f(1, 0), 3 := f(1, 1)] == Table(Entries(Lift(f), 1), 4)
  {
    BaseEntry(f, 0, 0);
    BaseEntry(f, 0, 1);
    BaseEntry(f, 1, 0);
    BaseEntry(f, 1, 1);
    FourEntries(Entries(Lift(f), 1), f(0, 0), f(0, 1), f(1, 0), f(1, 1));
  }

  lemma FourEntries(entries: int -> nat, v0: nat, v1: nat, v2: nat, v3: nat)
    requires entries(0) == v0 && entries(1) == v1 && entries(2) == v2 && entries(3) == v3
    ensures map[0 := v0, 1 := v1, 2 := v2, 3 := v3] == Table(entries, 4)
  {
  }

  lemma BaseEntry(f: NumericBitOp, a: nat, b: nat)
    requires IsBitOperator(f) && a < 2 && b < 2
    ensures Pow2(1) == 2 && Entries(Lift(f), 1)(2 * a + b) == f(a, b)
  {
    EntryAt(Lift(f), 1, 2, a, b);
    BaseCell(f, a == 1, b == 1);
  }

  lemma BaseCell(f: NumericBitOp, a: bool, b: bool)
    requires IsBitOperator(f)
    ensures Cell(Lift(f), 1, BitValue(a), BitValue(b)) == f(BitValue(a), BitValue(b))
  {
    var r := Map2(Lift(f), BitsOf(1, BitValue(a)), BitsOf(1, BitValue(b)));
    assert r == [Lift(f)(a, b)];
  }

  /** What a finished table means: indexing it with two n-bit strings applies the operator to them. */
  lemma TableMeaning(op: BitOp, n: nat, size: nat, s: seq<bool>, t: seq<bool>)
    requires size == Pow2(n) && |s| == n && |t| == n
    ensures Key(Value(s), size, Value(t)) in Table(Entries(op, n), size * size)
    ensures Table(Entries(op, n), size * size)[Key(Value(s), size, Value(t))] == Value(Map2(op, s, t))
  {
    ValueBound(s);
    ValueBound(t);
    EntryAt(op, n, size, Value(s), Value(t));
    BitsOfValue(s);
    BitsOfValue(t);
  }

  /** Bit k of a number. */
  function BitAt(x: nat, k: nat): nat { x / Pow2(k) % 2 }

  lemma {:induction false} ValueBit(s: seq<bool>, k: nat)
    requires k < |s|
    ensures BitAt(Value(s), k) == if s[|s| - 1 - k] then 1 else 0
  {
    if k > 0 {
      ValueBit(s[..|s| - 1], k - 1);
      HalfThenRest(Value(s), Pow2(k - 1));
    }
  }

  lemma HalfThenRest(x: nat, p: nat)
    requires p > 0
    ensures x / (2 * p) == x / 2 / p
  {
    var q, r := x / 2 / p, x / 2 % p;
    assert x / 2 == q * p + r && x == 2 * (q * p + r) + x % 2;
    assert 2 * (q * p) == q * (2 * p);
    DivModUnique(x, 2 * p, q, 2 * r + x % 2);
  }

  lemma BitwiseInNumbers(f: NumericBitOp, s: seq<bool>, t: seq<bool>, k: nat)
    requires IsBitOperator(f) && |s| == |t| && k < |s|
    ensures BitAt(Value(Map2(Lift(f), s, t)), k) == f(BitAt(Value(s), k), BitAt(Value(t), k))
  {
    hide Value, BitAt;
    ValueBit(s, k);
    ValueBit(t, k);
    ValueBit(Map2(Lift(f), s, t), k);
    var a, b := s[|s| - 1 - k], t[|t| - 1 - k];
    assert Map2(Lift(f), s, t)[|s| - 1 - k] == Lift(f)(a, b);
    assert Lift(f)(a, b) == (f(BitValue(a), BitValue(b)) == 1);
    assert f(BitValue(a), BitValue(b)) <= 1;
    assert BitAt(Value(s), k) == BitValue(a) && BitAt(Value(t), k) == BitValue(b);
  }

  /** The keys of a finished table are the numbers below 2^(2n). */
  lemma TableKeys(entries: int -> nat, count: int, k: int)
    ensures k in Table(entries, count) <==> 0 <= k < count
  {
  }

  /** A finished table in numbers: bit k of the entry for a and b is f of their bits k. */
  lemma TableBits(f: NumericBitOp, n: nat, p: nat, a: nat, b: nat, k: nat)
    requires IsBitOperator(f) && p == Pow2(n) && a < p && b < p && k < n
    ensures var table := Table(Entries(Lift(f), n), p * p);
            && a * p + b in table
            && table[a * p + b] / Pow2(k) % 2 == f(a / Pow2(k) % 2, b / Pow2(k) % 2)
  {
    var s, t := BitsOf(n, a), BitsOf(n, b);
    hide Value, BitsOf, Pow2, Entries, Lift, Table, IsBitOperator;
    ValueOfBits(n, a);
    ValueOfBits(n, b);
    TableMeaning(Lift(f), n, p, s, t);
    BitwiseInNumbers(f, s, t, k);
    assert BitAt(a, k) == a / Pow2(k) % 2 && BitAt(b, k) == b / Pow2(k) % 2;
  }

  // ---- The two byte tables ----

  ghost predicate AndHeld(cache: map<int, int>, s: seq<bool>, t: seq<bool>)
    requires |s| == |t|
  {
    Key(Value(s), 256, Value(t)) in cache && cache[Key(Value(s), 256, Value(t))] == Value(And(s, t))
  }

  ghost predicate IsAndTable(cache: map<int, int>)
  {
    forall s, t :: |s| == 8 && |t| == 8 ==> AndHeld(cache, s, t)
  }

  ghost predicate XorHeld(cache: map<int, int>, s: seq<bool>, t: seq<bool>)
    requires |s| == |t|
  {
    Key(Value(s), 256, Value(t)) in cache && cache[Key(Value(s), 256, Value(t))] == Value(Xor(s, t))
  }

  ghost predicate IsXorTable(cache: map<int, int>)
  {
    forall s, t :: |s| == 8 && |t| == 8 ==> XorHeld(cache, s, t)
  }

  function MultiplyBits(a: nat, b: nat): nat { a * b }

  function DifferentBits(a: nat, b: nat): nat { if a == b then 0 else 1 }

  method LoadByteTables() returns (andCache: map<int, int>, xorCache: map<int, int>)
    ensures IsAndTable(andCache) && IsXorTable(xorCache)
  {
    ghost var order;
    andCache, order := MakeOpCache(MultiplyBits, 8);
    xorCache, order := MakeOpCache(DifferentBits, 8);
    Pow2Values();
    forall s, t | |s| == 8 && |t| == 8
      ensures AndHeld(andCache, s, t)
    {
      AndEntry(andCache, 8, 256, s, t);
    }
    forall s, t | |s| == 8 && |t| == 8
      ensures XorHeld(xorCache, s, t)
    {
      XorEntry(xorCache, 8, 256, s, t);
    }
  }

  lemma LiftedAnd(s: seq<bool>, t: seq<bool>)
    requires |s| == |t|
    ensures Map2(Lift(MultiplyBits), s, t) == And(s, t)
  {
    forall a: bool, b: bool ensures Lift(MultiplyBits)(a, b) == (a && b) {
      assert MultiplyBits(BitValue(a), BitValue(b)) == if a && b then 1 else 0;
    }
  }

  lemma LiftedXor(s: seq<bool>, t: seq<bool>)
    requires |s| == |t|
    ensures Map2(Lift(DifferentBits), s, t) == Xor(s, t)
  {
    forall a: bool, b: bool ensures Lift(DifferentBits)(a, b) == (a != b) {
      assert DifferentBits(BitValue(a), BitValue(b)) == if a != b then 1 else 0;
    }
  }

  lemma AndEntry(cache: map<int, int>, n: nat, size: nat, s: seq<bool>, t: seq<bool>)
    requires size == Pow2(n) && cache == Table(Entries(Lift(MultiplyBits), n), size * size)
    requires |s| == n && |t| == n
    ensures Key(Value(s), size, Value(t)) in cache && cache[Key(Value(s), size, Value(t))] == Value(And(s, t))
  {
    TableMeaning(Lift(MultiplyBits), n, size, s, t);
    LiftedAnd(s, t);
  }

  lemma XorEntry(cache: map<int, int>, n: nat, size: nat, s: seq<bool>, t: seq<bool>)
    requires size == Pow2(n) && cache == Table(Entries(Lift(DifferentBits), n), size * size)
    requires |s| == n && |t| == n
    ensures Key(Value(s), size, Value(t)) in cache && cache[Key(Value(s), size, Value(t))] == Value(Xor(s, t))
  {
    TableMeaning(Lift(DifferentBits), n, size, s, t);
    LiftedXor(s, t);
  }
}
