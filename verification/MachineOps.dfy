/**
 * The bit operators that Lua 5.3, LuaJIT's `bit` library and Lua 5.2's `bit32` library provide, on the
 * numbers each of them works with.
 */
module MachineOps {
  import opened Bits

  function AndBits(n: nat, a: nat, b: nat): nat { Value(And(BitsOf(n, a), BitsOf(n, b))) }

  function OrBits(n: nat, a: nat, b: nat): nat { Value(Or(BitsOf(n, a), BitsOf(n, b))) }

  function XorBits(n: nat, a: nat, b: nat): nat { Value(Xor(BitsOf(n, a), BitsOf(n, b))) }

  const TWO32 := 0x1_0000_0000
  const TWO64 := 0x1_0000_0000_0000_0000

  // ---- Lua 5.3: 64-bit integers in two's complement, logical shifts ----

  function Unsigned64(a: int): nat { a % TWO64 }

  function Signed64(u: int): int { if u >= TWO64 / 2 then u - TWO64 else u }

  function LuaAnd(a: int, b: int): int { Signed64(AndBits(64, Unsigned64(a), Unsigned64(b))) }

  function LuaOr(a: int, b: int): int { Signed64(OrBits(64, Unsigned64(a), Unsigned64(b))) }

  function LuaXor(a: int, b: int): int { Signed64(XorBits(64, Unsigned64(a), Unsigned64(b))) }

  function LuaShl(a: int, k: nat): int
    requires k < 64
  {
    Signed64((Unsigned64(a) * Pow2(k)) % TWO64)
  }

  function LuaShr(a: int, k: nat): int
    requires k < 64
  {
    Signed64(Unsigned64(a) / Pow2(k))
  }

  // ---- LuaJIT `bit`: arguments modulo 2^32, signed results ----

  function Unsigned32(a: int): nat { a % TWO32 }

  function Signed32(u: int): int { if u >= TWO32 / 2 then u - TWO32 else u }

  function BitAnd(a: int, b: int): int { Signed32(AndBits(32, Unsigned32(a), Unsigned32(b))) }

  function BitOr(a: int, b: int): int { Signed32(OrBits(32, Unsigned32(a), Unsigned32(b))) }

  function BitXor(a: int, b: int): int { Signed32(XorBits(32, Unsigned32(a), Unsigned32(b))) }

  function BitRol(a: int, k: nat): int { Signed32(Value(Rotl(BitsOf(32, Unsigned32(a)), k % 32))) }

  // ---- `bit32`: arguments modulo 2^32, unsigned results ----

  function Bit32And(a: int, b: int): int { AndBits(32, Unsigned32(a), Unsigned32(b)) }

  function Bit32Or(a: int, b: int): int { OrBits(32, Unsigned32(a), Unsigned32(b)) }

  function Bit32Xor(a: int, b: int): int { XorBits(32, Unsigned32(a), Unsigned32(b)) }

  function Bit32Lrotate(a: int, k: nat): int { Value(Rotl(BitsOf(32, Unsigned32(a)), k % 32)) }

  // ---- What they compute on words ----

  lemma SignedRoundTrip(u: nat)
    ensures u < TWO64 ==> Unsigned64(Signed64(u)) == u
    ensures u < TWO32 ==> Unsigned32(Signed32(u)) == u && Unsigned32(u) == u && Unsigned64(u) == u && Signed64(u) == u
  {
  }

  lemma WordBounds(s: seq<bool>)
    ensures |s| == 32 ==> Value(s) < TWO32
    ensures |s| == 64 ==> Value(s) < TWO64
  {
    Pow2Values();
    ValueBound(s);
  }

  /** Zero bits in front do not change the number a string denotes. */
  lemma Extend(n: nat, s: seq<bool>)
    ensures Value(Zeros(n) + s) == Value(s)
  {
    ValueZeros(n);
    ValueConcat(Zeros(n), s);
  }

  lemma ShiftUp(s: seq<bool>, k: nat)
    ensures Value(s + Zeros(k)) == Value(s) * Pow2(k)
  {
    ValueZeros(k);
    ValueConcat(s, Zeros(k));
  }

  lemma LuaOnBits(s: seq<bool>, t: seq<bool>)
    requires |s| == |t| == 64
    ensures LuaAnd(Signed64(Value(s)), Signed64(Value(t))) == Signed64(Value(And(s, t)))
    ensures LuaOr(Signed64(Value(s)), Signed64(Value(t))) == Signed64(Value(Or(s, t)))
    ensures LuaXor(Signed64(Value(s)), Signed64(Value(t))) == Signed64(Value(Xor(s, t)))
  {
    WordBounds(s);
    WordBounds(t);
    SignedRoundTrip(Value(s));
    SignedRoundTrip(Value(t));
    BitsOfValue(s);
    BitsOfValue(t);
  }

  lemma ExtendedSigned(w: Word)
    ensures Signed64(Value(Zeros(32) + w)) == Value(w)
  {
    Extend(32, w);
    WordBounds(w);
  }

  lemma LuaOnWords(s: Word, t: Word)
    ensures LuaAnd(Value(s), Value(t)) == Value(And(s, t))
    ensures LuaOr(Value(s), Value(t)) == Value(Or(s, t))
    ensures LuaXor(Value(s), Value(t)) == Value(Xor(s, t))
  {
    var (s', t') := (Zeros(32) + s, Zeros(32) + t);
    LuaOnBits(s', t');
    ExtendedSigned(s);
    ExtendedSigned(t);
    assert And(s', t') == Zeros(32) + And(s, t);
    assert Or(s', t') == Zeros(32) + Or(s, t);
    assert Xor(s', t') == Zeros(32) + Xor(s, t);
    ExtendedSigned(And(s, t));
    ExtendedSigned(Or(s, t));
    ExtendedSigned(Xor(s, t));
  }

  lemma BitOnWords(a: int, b: int, s: Word, t: Word)
    requires Unsigned32(a) == Value(s) && Unsigned32(b) == Value(t)
    ensures BitAnd(a, b) == Signed32(Value(And(s, t))) && Bit32And(a, b) == Value(And(s, t))
    ensures BitOr(a, b) == Signed32(Value(Or(s, t))) && Bit32Or(a, b) == Value(Or(s, t))
    ensures BitXor(a, b) == Signed32(Value(Xor(s, t))) && Bit32Xor(a, b) == Value(Xor(s, t))
  {
    BitsOfValue(s);
    BitsOfValue(t);
  }

  lemma RotateOnWords(a: int, s: Word, k: nat)
    requires Unsigned32(a) == Value(s) && k <= 32
    ensures BitRol(a, k) == Signed32(Value(Rotl(s, k))) && Bit32Lrotate(a, k) == Value(Rotl(s, k))
  {
    BitsOfValue(s);
    assert Rotl(s, k % 32) == Rotl(s, k);
  }

  lemma ShlAt(a: int, k: nat, v: nat)
    requires 0 <= a < TWO32 && k < 64 && a * Pow2(k) == v < TWO64
    ensures LuaShl(a, k) == Signed64(v)
  {
    assert Unsigned64(a) == a;
  }

  lemma LuaShlWord(w: Word, k: nat)
    requires k <= 32
    ensures LuaShl(Value(w), k) == Signed64(Value(Zeros(32 - k) + (w + Zeros(k))))
  {
    ShiftUp(w, k);
    Extend(32 - k, w + Zeros(k));
    WordBounds(Zeros(32 - k) + (w + Zeros(k)));
    WordBounds(w);
    ShlAt(Value(w), k, Value(w + Zeros(k)));
  }

  lemma LuaShrWord(w: Word, k: nat)
    requires k <= 32
    ensures LuaShr(Value(w), k) == Value(Zeros(k) + w[..32 - k])
  {
    assert w == w[..32 - k] + w[32 - k..];
    ValueCut(w[..32 - k], w[32 - k..]);
    Extend(k, w[..32 - k]);
    WordBounds(w);
    WordBounds(Zeros(k) + w[..32 - k]);
    SignedRoundTrip(Value(w));
    SignedRoundTrip(Value(w[..32 - k]));
  }

  lemma OnesValue()
    ensures Value(Not(Zeros(32))) == 0xFFFF_FFFF
  {
    ValueZeros(32);
    ValueNot(Zeros(32));
    Pow2Values();
  }

  lemma MaskBits(hi: Word, lo: Word)
    ensures And(hi + lo, Zeros(32) + Not(Zeros(32))) == Zeros(32) + lo
  {
  }

  /** Masking a 64-bit string with 0xFFFFFFFF keeps its low word. */
  lemma LuaMask(hi: Word, lo: Word)
    ensures LuaAnd(Signed64(Value(hi + lo)), 0xFFFF_FFFF) == Value(lo)
  {
    var ones := Not(Zeros(32));
    OnesValue();
    ExtendedSigned(ones);
    LuaOnBits(hi + lo, Zeros(32) + ones);
    MaskBits(hi, lo);
    ExtendedSigned(lo);
  }

  lemma ShiftedParts(w: Word, k: nat)
    requires k <= 32
    ensures Zeros(32 - k) + (w + Zeros(k)) == (Zeros(32 - k) + w[..k]) + (w[k..] + Zeros(k))
  {
  }

  lemma OrRotl(w: Word, k: nat)
    requires k <= 32
    ensures Or(w[k..] + Zeros(k), Zeros(32 - k) + w[..k]) == Rotl(w, k)
  {
  }

  /** ((a << k) & 0xFFFFFFFF) | (a >> (32 - k)) is the rotation. */
  lemma LuaRotate(w: Word, k: nat)
    requires k <= 32
    ensures LuaOr(LuaAnd(LuaShl(Value(w), k), 0xFFFF_FFFF), LuaShr(Value(w), 32 - k)) == Value(Rotl(w, k))
  {
    LuaShlWord(w, k);
    var (hi, lo) := (Zeros(32 - k) + w[..k], w[k..] + Zeros(k));
    ShiftedParts(w, k);
    LuaMask(hi, lo);
    assert LuaAnd(LuaShl(Value(w), k), 0xFFFF_FFFF) == Value(lo);
    LuaShrWord(w, 32 - k);
    assert LuaShr(Value(w), 32 - k) == Value(hi);
    LuaOnWords(lo, hi);
    OrRotl(w, k);
  }
}
