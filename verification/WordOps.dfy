/**
 * The operators of the pure-Lua back end (lua/sha1/common.lua and lua/sha1/pure_lua_ops.lua), and the
 * proof that they compute the word functions of FIPS 180-4. A Lua number is an `int`, and a word is
 * represented by its unsigned value.
 */
module WordOps {
  import opened Bits
  import opened OpCache
  import opened Fips180
  import opened MachineOps


  predicate IsByte(a: int) { 0 <= a < 256 }

  predicate IsUint32(a: int) { 0 <= a < TWO32 }

  // ---- common.lua ----

  function BytesToUint32(a: int, b: int, c: int, d: int): int
  {
    a * 0x100_0000 + b * 0x1_0000 + c * 0x100 + d
  }

  function Uint32ToBytes(a: int): (r: (int, int, int, int))
    ensures IsUint32(a) ==> IsByte(r.0) && IsByte(r.1) && IsByte(r.2) && IsByte(r.3)
  {
    var a4 := a % 256;
    var a := (a - a4) / 256;
    var a3 := a % 256;
    var a := (a - a3) / 256;
    var a2 := a % 256;
    var a1 := (a - a2) / 256;
    (a1, a2, a3, a4)
  }

  type Octet = s: seq<bool> | |s| == 8 witness seq(8, _ => false)

  lemma JoinOctets(s1: Octet, s2: Octet, s3: Octet, s4: Octet)
    ensures BytesToUint32(Value(s1), Value(s2), Value(s3), Value(s4)) == Value(s1 + s2 + s3 + s4)
  {
    Pow2Values();
    ValueConcat(s1, s2);
    ValueConcat(s1 + s2, s3);
    ValueConcat(s1 + s2 + s3, s4);
  }

  lemma CutOctet(s: seq<bool>, t: Octet)
    ensures Value(s + t) % 256 == Value(t) && (Value(s + t) - Value(t)) / 256 == Value(s)
  {
    Pow2Values();
    ValueCut(s, t);
  }

  lemma SplitOctets(s1: Octet, s2: Octet, s3: Octet, s4: Octet)
    ensures Uint32ToBytes(Value(s1 + s2 + s3 + s4)) == (Value(s1), Value(s2), Value(s3), Value(s4))
  {
    CutOctet(s1 + s2 + s3, s4);
    CutOctet(s1 + s2, s3);
    CutOctet(s1, s2);
    BytesOfParts(Value(s1 + s2 + s3 + s4), Value(s1 + s2 + s3), Value(s1 + s2),
                 Value(s1), Value(s2), Value(s3), Value(s4));
  }

  lemma BytesOfParts(a: int, a123: int, a12: int, a1: int, a2: int, a3: int, a4: int)
    requires a % 256 == a4 && (a - a4) / 256 == a123
    requires a123 % 256 == a3 && (a123 - a3) / 256 == a12
    requires a12 % 256 == a2 && (a12 - a2) / 256 == a1
    ensures Uint32ToBytes(a) == (a1, a2, a3, a4)
  {
  }

  /** Byte i of a word, most significant first. */
  function Oct(w: Word, i: nat): Octet
    requires i < 4
  {
    w[8 * i..8 * i + 8]
  }

  function OctetValues(w: Word): (int, int, int, int)
  {
    (Value(Oct(w, 0)), Value(Oct(w, 1)), Value(Oct(w, 2)), Value(Oct(w, 3)))
  }

  /** A word as four bytes. */
  predicate Parts(a: int, b: (int, int, int, int))
  {
    Uint32ToBytes(a) == b && IsUint32(a)
  }

  lemma OctetsOf(w: Word)
    ensures Parts(Value(w), OctetValues(w))
  {
    SplitOctets(Oct(w, 0), Oct(w, 1), Oct(w, 2), Oct(w, 3));
    assert w == Oct(w, 0) + Oct(w, 1) + Oct(w, 2) + Oct(w, 3);
    WordIsUint32(w);
  }

  lemma WordIsUint32(w: Word)
    ensures IsUint32(Value(w))
  {
    ValueBound(w);
    Pow2Values();
  }

  // ---- pure_lua_ops.lua ----

  function PureLrot(a: int, bits: nat): int
    requires bits <= 32
  {
    var power := Pow2(bits);
    var invPower := TWO32 / power;
    InversePower(bits);
    var lowerBits := a % invPower;
    lowerBits * power + (a - lowerBits) / invPower
  }

  lemma InversePower(bits: nat)
    requires bits <= 32
    ensures TWO32 / Pow2(bits) == Pow2(32 - bits) && TWO32 % Pow2(bits) == 0
  {
    Pow2Values();
    Pow2Add(32 - bits, bits);
    DivModUnique(TWO32, Pow2(bits), Pow2(32 - bits), 0);
  }

  /** Every byte is the value of a string of n = 8 bits. */
  lemma ByteAsOctet(a: int, n: nat) returns (s: seq<bool>)
    requires IsByte(a) && n == 8
    ensures |s| == n && Value(s) == a
  {
    Pow2Values();
    s := BitsOf(n, a);
    ValueOfBits(n, a);
  }

  lemma OctetIsByte(s: Octet)
    ensures IsByte(Value(s))
  {
    Pow2Values();
    ValueBound(s);
  }

  lemma AndKeyPresent(andCache: map<int, int>, a: int, b: int)
    requires IsAndTable(andCache) && IsByte(a) && IsByte(b)
    ensures a * 256 + b in andCache
  {
    var s := ByteAsOctet(a, 8);
    var t := ByteAsOctet(b, 8);
    assert AndHeld(andCache, s, t);
  }

  lemma XorKeyPresent(xorCache: map<int, int>, a: int, b: int)
    requires IsXorTable(xorCache) && IsByte(a) && IsByte(b)
    ensures a * 256 + b in xorCache && IsByte(xorCache[a * 256 + b])
  {
    var s := ByteAsOctet(a, 8);
    var t := ByteAsOctet(b, 8);
    assert XorHeld(xorCache, s, t);
    OctetIsByte(Xor(s, t));
  }

  function LookAnd(andCache: map<int, int>, a: int, b: int): int
    requires IsAndTable(andCache) && IsByte(a) && IsByte(b)
  {
    AndKeyPresent(andCache, a, b);
    andCache[a * 256 + b]
  }

  function LookXor(xorCache: map<int, int>, a: int, b: int): (v: int)
    requires IsXorTable(xorCache) && IsByte(a) && IsByte(b)
    ensures IsByte(v)
  {
    XorKeyPresent(xorCache, a, b);
    xorCache[a * 256 + b]
  }

  /** Every division in the rotation is exact and every intermediate number is an exact double. */
  lemma PureLrotExact(a: int, bits: nat, power: nat, inverse: nat)
    requires IsUint32(a) && bits <= 32 && power == Pow2(bits) && inverse == TWO32 / power
    ensures TWO32 % power == 0 && 0 < power <= TWO32 && 0 < inverse <= TWO32
    ensures (a - a % inverse) % inverse == 0
    ensures 0 <= (a % inverse) * power < TWO32 && 0 <= (a - a % inverse) / inverse < TWO32
    ensures 0 <= PureLrot(a, bits) < TWO32
  {
    LrotBound(a, bits);
    InversePower(bits);
    PowersMultiply(bits);
    hide Pow2, PureLrot;
    LrotParts(a, power, inverse);
  }

  lemma PowersMultiply(bits: nat)
    requires bits <= 32
    ensures Pow2(bits) * Pow2(32 - bits) == TWO32
  {
    Pow2Values();
    Pow2Add(bits, 32 - bits);
  }

  lemma LrotBound(a: int, bits: nat)
    requires IsUint32(a) && bits <= 32
    ensures 0 <= PureLrot(a, bits) < TWO32
  {
    Pow2Values();
    ValueOfBits(32, a);
    var w := BitsOf(32, a);
    hide Pow2, PureLrot, Value, Rotl;
    PureLrotCorrect(w, bits);
    ValueBound(Rotl(w, bits));
  }

  lemma LrotParts(a: int, power: nat, inverse: nat)
    requires IsUint32(a) && power > 0 && inverse > 0 && power * inverse == TWO32
    ensures power <= TWO32 && inverse <= TWO32 && (a - a % inverse) % inverse == 0
    ensures 0 <= (a % inverse) * power < TWO32 && 0 <= (a - a % inverse) / inverse <= a
  {
    var (q, r) := (a / inverse, a % inverse);
    assert a == q * inverse + r;
    MulLe(1, power, inverse);
    MulLe(1, inverse, power);
    MulLe(r + 1, inverse, power);
    MulLe(0, r, power);
    MulLe(1, inverse, q);
    DivModUnique(a - r, inverse, q, 0);
  }

  /** Rotations on numbers compose by adding the shifts modulo 32. */
  lemma PureLrotCompose(a: int, j: nat, k: nat)
    requires IsUint32(a) && j <= 32 && k <= 32
    ensures PureLrot(PureLrot(a, j), k) == PureLrot(a, (j + k) % 32)
  {
    Pow2Values();
    ValueOfBits(32, a);
    var w := BitsOf(32, a);
    PureLrotCorrect(w, j);
    PureLrotCorrect(Rotl(w, j), k);
    PureLrotCorrect(w, (j + k) % 32);
    RotlCompose(w, j, k);
  }

  lemma LookAndAt(cache: map<int, int>, a: int, b: int, v: int)
    requires IsAndTable(cache) && IsByte(a) && IsByte(b)
    requires Key(a, 256, b) in cache && cache[Key(a, 256, b)] == v
    ensures LookAnd(cache, a, b) == v
  {
  }

  lemma AndHeldAt(cache: map<int, int>, s: seq<bool>, t: seq<bool>, a: int, b: int, v: int)
    requires |s| == |t| && AndHeld(cache, s, t)
    requires a == Value(s) && b == Value(t) && v == Value(And(s, t))
    ensures Key(a, 256, b) in cache && cache[Key(a, 256, b)] == v
  {
  }

  lemma LookAndOctets(cache: map<int, int>, s: Octet, t: Octet)
    requires IsAndTable(cache)
    ensures IsByte(Value(s)) && IsByte(Value(t))
    ensures LookAnd(cache, Value(s), Value(t)) == Value(And(s, t))
  {
    OctetIsByte(s);
    OctetIsByte(t);
    assert AndHeld(cache, s, t);
    AndHeldAt(cache, s, t, Value(s), Value(t), Value(And(s, t)));
    LookAndAt(cache, Value(s), Value(t), Value(And(s, t)));
  }

  lemma LookXorAt(cache: map<int, int>, a: int, b: int, v: int)
    requires IsXorTable(cache) && IsByte(a) && IsByte(b)
    requires Key(a, 256, b) in cache && cache[Key(a, 256, b)] == v
    ensures LookXor(cache, a, b) == v
  {
  }

  lemma XorHeldAt(cache: map<int, int>, s: seq<bool>, t: seq<bool>, a: int, b: int, v: int)
    requires |s| == |t| && XorHeld(cache, s, t)
    requires a == Value(s) && b == Value(t) && v == Value(Xor(s, t))
    ensures Key(a, 256, b) in cache && cache[Key(a, 256, b)] == v
  {
  }

  lemma LookXorOctets(cache: map<int, int>, s: Octet, t: Octet)
    requires IsXorTable(cache)
    ensures IsByte(Value(s)) && IsByte(Value(t))
    ensures LookXor(cache, Value(s), Value(t)) == Value(Xor(s, t))
  {
    OctetIsByte(s);
    OctetIsByte(t);
    assert XorHeld(cache, s, t);
    XorHeldAt(cache, s, t, Value(s), Value(t), Value(Xor(s, t)));
    LookXorAt(cache, Value(s), Value(t), Value(Xor(s, t)));
  }

  function Xor3Byte(xorCache: map<int, int>, a: int, b: int, c: int): int
    requires IsXorTable(xorCache) && IsByte(a) && IsByte(b) && IsByte(c)
  {
    LookXor(xorCache, a, LookXor(xorCache, b, c))
  }

  function PureXor3(xorCache: map<int, int>, a: int, b: int, c: int): int
    requires IsXorTable(xorCache) && IsUint32(a) && IsUint32(b) && IsUint32(c)
  {
    var (a1, a2, a3, a4) := Uint32ToBytes(a);
    var (b1, b2, b3, b4) := Uint32ToBytes(b);
    var (c1, c2, c3, c4) := Uint32ToBytes(c);
    BytesToUint32(
      Xor3Byte(xorCache, a1, b1, c1),
      Xor3Byte(xorCache, a2, b2, c2),
      Xor3Byte(xorCache, a3, b3, c3),
      Xor3Byte(xorCache, a4, b4, c4))
  }

  function Xor4Byte(xorCache: map<int, int>, a: int, b: int, c: int, d: int): int
    requires IsXorTable(xorCache) && IsByte(a) && IsByte(b) && IsByte(c) && IsByte(d)
  {
    LookXor(xorCache, a, LookXor(xorCache, b, LookXor(xorCache, c, d)))
  }

  function PureXor4(xorCache: map<int, int>, a: int, b: int, c: int, d: int): int
    requires IsXorTable(xorCache) && IsUint32(a) && IsUint32(b) && IsUint32(c) && IsUint32(d)
  {
    var (a1, a2, a3, a4) := Uint32ToBytes(a);
    var (b1, b2, b3, b4) := Uint32ToBytes(b);
    var (c1, c2, c3, c4) := Uint32ToBytes(c);
    var (d1, d2, d3, d4) := Uint32ToBytes(d);
    BytesToUint32(
      Xor4Byte(xorCache, a1, b1, c1, d1),
      Xor4Byte(xorCache, a2, b2, c2, d2),
      Xor4Byte(xorCache, a3, b3, c3, d3),
      Xor4Byte(xorCache, a4, b4, c4, d4))
  }

  /** One byte of the ternary function: (a & b) + (~a & c). */
  function TernaryByte(andCache: map<int, int>, a: int, b: int, c: int): int
    requires IsAndTable(andCache) && IsByte(a) && IsByte(b) && IsByte(c)
  {
    LookAnd(andCache, b, a) + LookAnd(andCache, c, 255 - a)
  }

  /** One byte of the majority function: (a & b) + (c & (a ~ b)). */
  function MajorityByte(andCache: map<int, int>, xorCache: map<int, int>, a: int, b: int, c: int): int
    requires IsAndTable(andCache) && IsXorTable(xorCache) && IsByte(a) && IsByte(b) && IsByte(c)
  {
    LookAnd(andCache, a, b) + LookAnd(andCache, c, LookXor(xorCache, a, b))
  }

  function PureTernary(andCache: map<int, int>, a: int, b: int, c: int): int
    requires IsAndTable(andCache) && IsUint32(a) && IsUint32(b) && IsUint32(c)
  {
    var (a1, a2, a3, a4) := Uint32ToBytes(a);
    var (b1, b2, b3, b4) := Uint32ToBytes(b);
    var (c1, c2, c3, c4) := Uint32ToBytes(c);
    BytesToUint32(
      TernaryByte(andCache, a1, b1, c1),
      TernaryByte(andCache, a2, b2, c2),
      TernaryByte(andCache, a3, b3, c3),
      TernaryByte(andCache, a4, b4, c4))
  }

  function PureMajority(andCache: map<int, int>, xorCache: map<int, int>, a: int, b: int, c: int): int
    requires IsAndTable(andCache) && IsXorTable(xorCache) && IsUint32(a) && IsUint32(b) && IsUint32(c)
  {
    var (a1, a2, a3, a4) := Uint32ToBytes(a);
    var (b1, b2, b3, b4) := Uint32ToBytes(b);
    var (c1, c2, c3, c4) := Uint32ToBytes(c);
    BytesToUint32(
      MajorityByte(andCache, xorCache, a1, b1, c1),
      MajorityByte(andCache, xorCache, a2, b2, c2),
      MajorityByte(andCache, xorCache, a3, b3, c3),
      MajorityByte(andCache, xorCache, a4, b4, c4))
  }

  lemma PureLrotCorrect(w: Word, bits: nat)
    requires bits <= 32
    ensures PureLrot(Value(w), bits) == Value(Rotl(w, bits))
  {
    var (hi, lo) := (w[..bits], w[bits..]);
    assert w == hi + lo;
    InversePower(bits);
    ValueCut(hi, lo);
    ValueConcat(hi, lo);
    ValueConcat(lo, hi);
    DivModUnique(Value(w) - Value(lo), Pow2(32 - bits), Value(hi), 0);
  }

  lemma ChAsSum(a: seq<bool>, b: seq<bool>, c: seq<bool>)
    requires |a| == |b| == |c|
    ensures Value(And(b, a)) + Value(And(c, Not(a))) == Value(Xor(And(a, b), And(Not(a), c)))
  {
    DisjointSum(And(b, a), And(c, Not(a)));
    assert Or(And(b, a), And(c, Not(a))) == Xor(And(a, b), And(Not(a), c));
  }

  lemma MajAsSum(a: seq<bool>, b: seq<bool>, c: seq<bool>)
    requires |a| == |b| == |c|
    ensures Value(And(a, b)) + Value(And(c, Xor(a, b))) == Value(Xor(Xor(And(a, b), And(a, c)), And(b, c)))
  {
    DisjointSum(And(a, b), And(c, Xor(a, b)));
    assert Or(And(a, b), And(c, Xor(a, b))) == Xor(Xor(And(a, b), And(a, c)), And(b, c));
  }

  lemma NotOctet(a: Octet)
    ensures Value(Not(a)) == 255 - Value(a)
  {
    Pow2Values();
    ValueNot(a);
  }

  lemma TernaryByteAt(andCache: map<int, int>, a: int, b: int, c: int, u: int, v: int)
    requires IsAndTable(andCache) && IsByte(a) && IsByte(b) && IsByte(c)
    requires LookAnd(andCache, b, a) == u && LookAnd(andCache, c, 255 - a) == v
    ensures TernaryByte(andCache, a, b, c) == u + v
  {
  }

  /** The bytes of the pure ternary function never carry, and are those of Ch. */
  lemma TernaryByteCorrect(andCache: map<int, int>, a: Octet, b: Octet, c: Octet)
    requires IsAndTable(andCache)
    ensures IsByte(Value(a)) && IsByte(Value(b)) && IsByte(Value(c))
    ensures TernaryByte(andCache, Value(a), Value(b), Value(c)) == Value(Ch8(a, b, c)) <= 255
  {
    var n := Not(a);
    NotOctet(a);
    LookAndOctets(andCache, b, a);
    LookAndOctets(andCache, c, n);
    TernaryByteAt(andCache, Value(a), Value(b), Value(c), Value(And(b, a)), Value(And(c, n)));
    ChAsSum(a, b, c);
    OctetIsByte(Ch8(a, b, c));
  }

  function Parity8(a: Octet, b: Octet, c: Octet): Octet { Xor(Xor(a, b), c) }

  function Ch8(a: Octet, b: Octet, c: Octet): Octet { Xor(And(a, b), And(Not(a), c)) }

  function Maj8(a: Octet, b: Octet, c: Octet): Octet { Xor(Xor(And(a, b), And(a, c)), And(b, c)) }

  /** The bytes of the pure majority function never carry, and are those of Maj. */
  lemma MajorityByteCorrect(andCache: map<int, int>, xorCache: map<int, int>, a: Octet, b: Octet, c: Octet)
    requires IsAndTable(andCache) && IsXorTable(xorCache)
    ensures IsByte(Value(a)) && IsByte(Value(b)) && IsByte(Value(c))
    ensures MajorityByte(andCache, xorCache, Value(a), Value(b), Value(c))
         == Value(Maj8(a, b, c)) <= 255
  {
    LookXorOctets(xorCache, a, b);
    LookAndOctets(andCache, a, b);
    LookAndOctets(andCache, c, Xor(a, b));
    MajAsSum(a, b, c);
    OctetIsByte(Maj8(a, b, c));
  }

  // Word level: four bytes at a time.

  lemma Xor3ByteCorrect(xorCache: map<int, int>, a: Octet, b: Octet, c: Octet)
    requires IsXorTable(xorCache)
    ensures IsByte(Value(a)) && IsByte(Value(b)) && IsByte(Value(c))
    ensures Xor3Byte(xorCache, Value(a), Value(b), Value(c)) == Value(Parity8(a, b, c))
  {
    OctetIsByte(a);
    LookXorOctets(xorCache, b, c);
    LookXorOctets(xorCache, a, Xor(b, c));
    assert Xor(a, Xor(b, c)) == Parity8(a, b, c);
  }

  function Parity4(a: seq<bool>, b: seq<bool>, c: seq<bool>, d: seq<bool>): (r: seq<bool>)
    requires |a| == |b| == |c| == |d|
    ensures |r| == |a|
  {
    Xor(Xor(Xor(a, b), c), d)
  }

  lemma Xor4ByteCorrect(xorCache: map<int, int>, a: Octet, b: Octet, c: Octet, d: Octet)
    requires IsXorTable(xorCache)
    ensures IsByte(Value(a)) && IsByte(Value(b)) && IsByte(Value(c)) && IsByte(Value(d))
    ensures Xor4Byte(xorCache, Value(a), Value(b), Value(c), Value(d)) == Value(Parity4(a, b, c, d))
  {
    OctetIsByte(a);
    Xor3ByteCorrect(xorCache, b, c, d);
    LookXorOctets(xorCache, a, Parity8(b, c, d));
    assert Xor(a, Parity8(b, c, d)) == Parity4(a, b, c, d);
  }

  lemma PureXor3At(xorCache: map<int, int>, a: int, b: int, c: int,
                a': (int, int, int, int), b': (int, int, int, int), c': (int, int, int, int),
                v1: int, v2: int, v3: int, v4: int)
    requires IsXorTable(xorCache) && Parts(a, a') && Parts(b, b') && Parts(c, c')
    requires Xor3Byte(xorCache, a'.0, b'.0, c'.0) == v1
    requires Xor3Byte(xorCache, a'.1, b'.1, c'.1) == v2
    requires Xor3Byte(xorCache, a'.2, b'.2, c'.2) == v3
    requires Xor3Byte(xorCache, a'.3, b'.3, c'.3) == v4
    ensures PureXor3(xorCache, a, b, c) == BytesToUint32(v1, v2, v3, v4)
  {
  }

  lemma ParityOctets(a: Word, b: Word, c: Word)
    ensures Parity(a, b, c) == Parity8(Oct(a, 0), Oct(b, 0), Oct(c, 0))
            + Parity8(Oct(a, 1), Oct(b, 1), Oct(c, 1))
            + Parity8(Oct(a, 2), Oct(b, 2), Oct(c, 2))
            + Parity8(Oct(a, 3), Oct(b, 3), Oct(c, 3))
  {
  }

  lemma PureXor3Correct(xorCache: map<int, int>, a: Word, b: Word, c: Word)
    requires IsXorTable(xorCache)
    ensures IsUint32(Value(a)) && IsUint32(Value(b)) && IsUint32(Value(c))
    ensures PureXor3(xorCache, Value(a), Value(b), Value(c)) == Value(Parity(a, b, c))
  {
    OctetsOf(a);
    OctetsOf(b);
    OctetsOf(c);
    Xor3ByteCorrect(xorCache, Oct(a, 0), Oct(b, 0), Oct(c, 0));
    Xor3ByteCorrect(xorCache, Oct(a, 1), Oct(b, 1), Oct(c, 1));
    Xor3ByteCorrect(xorCache, Oct(a, 2), Oct(b, 2), Oct(c, 2));
    Xor3ByteCorrect(xorCache, Oct(a, 3), Oct(b, 3), Oct(c, 3));
    PureXor3At(xorCache, Value(a), Value(b), Value(c), OctetValues(a), OctetValues(b), OctetValues(c),
      Value(Parity8(Oct(a, 0), Oct(b, 0), Oct(c, 0))),
      Value(Parity8(Oct(a, 1), Oct(b, 1), Oct(c, 1))),
      Value(Parity8(Oct(a, 2), Oct(b, 2), Oct(c, 2))),
      Value(Parity8(Oct(a, 3), Oct(b, 3), Oct(c, 3))));
    JoinOctets(Parity8(Oct(a, 0), Oct(b, 0), Oct(c, 0)),
      Parity8(Oct(a, 1), Oct(b, 1), Oct(c, 1)),
      Parity8(Oct(a, 2), Oct(b, 2), Oct(c, 2)),
      Parity8(Oct(a, 3), Oct(b, 3), Oct(c, 3)));
    ParityOctets(a, b, c);
  }

  lemma PureXor4At(xorCache: map<int, int>, a: int, b: int, c: int, d: int,
                a': (int, int, int, int), b': (int, int, int, int), c': (int, int, int, int), d': (int, int, int, int),
                v1: int, v2: int, v3: int, v4: int)
    requires IsXorTable(xorCache) && Parts(a, a') && Parts(b, b') && Parts(c, c') && Parts(d, d')
    requires Xor4Byte(xorCache, a'.0, b'.0, c'.0, d'.0) == v1
    requires Xor4Byte(xorCache, a'.1, b'.1, c'.1, d'.1) == v2
    requires Xor4Byte(xorCache, a'.2, b'.2, c'.2, d'.2) == v3
    requires Xor4Byte(xorCache, a'.3, b'.3, c'.3, d'.3) == v4
    ensures PureXor4(xorCache, a, b, c, d) == BytesToUint32(v1, v2, v3, v4)
  {
  }

  lemma Parity4Octets(a: Word, b: Word, c: Word, d: Word)
    ensures Parity4(a, b, c, d) == Parity4(Oct(a, 0), Oct(b, 0), Oct(c, 0), Oct(d, 0))
            + Parity4(Oct(a, 1), Oct(b, 1), Oct(c, 1), Oct(d, 1))
            + Parity4(Oct(a, 2), Oct(b, 2), Oct(c, 2), Oct(d, 2))
            + Parity4(Oct(a, 3), Oct(b, 3), Oct(c, 3), Oct(d, 3))
  {
  }

  lemma PureXor4Correct(xorCache: map<int, int>, a: Word, b: Word, c: Word, d: Word)
    requires IsXorTable(xorCache)
    ensures IsUint32(Value(a)) && IsUint32(Value(b)) && IsUint32(Value(c)) && IsUint32(Value(d))
    ensures PureXor4(xorCache, Value(a), Value(b), Value(c), Value(d)) == Value(Parity4(a, b, c, d))
  {
    OctetsOf(a);
    OctetsOf(b);
    OctetsOf(c);
    OctetsOf(d);
    Xor4ByteCorrect(xorCache, Oct(a, 0), Oct(b, 0), Oct(c, 0), Oct(d, 0));
    Xor4ByteCorrect(xorCache, Oct(a, 1), Oct(b, 1), Oct(c, 1), Oct(d, 1));
    Xor4ByteCorrect(xorCache, Oct(a, 2), Oct(b, 2), Oct(c, 2), Oct(d, 2));
    Xor4ByteCorrect(xorCache, Oct(a, 3), Oct(b, 3), Oct(c, 3), Oct(d, 3));
    PureXor4At(xorCache, Value(a), Value(b), Value(c), Value(d),
               OctetValues(a), OctetValues(b), OctetValues(c), OctetValues(d),
      Value(Parity4(Oct(a, 0), Oct(b, 0), Oct(c, 0), Oct(d, 0))),
      Value(Parity4(Oct(a, 1), Oct(b, 1), Oct(c, 1), Oct(d, 1))),
      Value(Parity4(Oct(a, 2), Oct(b, 2), Oct(c, 2), Oct(d, 2))),
      Value(Parity4(Oct(a, 3), Oct(b, 3), Oct(c, 3), Oct(d, 3))));
    JoinOctets(Parity4(Oct(a, 0), Oct(b, 0), Oct(c, 0), Oct(d, 0)),
      Parity4(Oct(a, 1), Oct(b, 1), Oct(c, 1), Oct(d, 1)),
      Parity4(Oct(a, 2), Oct(b, 2), Oct(c, 2), Oct(d, 2)),
      Parity4(Oct(a, 3), Oct(b, 3), Oct(c, 3), Oct(d, 3)));
    Parity4Octets(a, b, c, d);
  }

  lemma PureTernaryAt(andCache: map<int, int>, a: int, b: int, c: int,
                a': (int, int, int, int), b': (int, int, int, int), c': (int, int, int, int),
                v1: int, v2: int, v3: int, v4: int)
    requires IsAndTable(andCache) && Parts(a, a') && Parts(b, b') && Parts(c, c')
    requires TernaryByte(andCache, a'.0, b'.0, c'.0) == v1
    requires TernaryByte(andCache, a'.1, b'.1, c'.1) == v2
    requires TernaryByte(andCache, a'.2, b'.2, c'.2) == v3
    requires TernaryByte(andCache, a'.3, b'.3, c'.3) == v4
    ensures PureTernary(andCache, a, b, c) == BytesToUint32(v1, v2, v3, v4)
  {
  }

  lemma ChOctets(a: Word, b: Word, c: Word)
    ensures Ch(a, b, c) == Ch8(Oct(a, 0), Oct(b, 0), Oct(c, 0))
            + Ch8(Oct(a, 1), Oct(b, 1), Oct(c, 1))
            + Ch8(Oct(a, 2), Oct(b, 2), Oct(c, 2))
            + Ch8(Oct(a, 3), Oct(b, 3), Oct(c, 3))
  {
  }

  lemma PureTernaryCorrect(andCache: map<int, int>, a: Word, b: Word, c: Word)
    requires IsAndTable(andCache)
    ensures IsUint32(Value(a)) && IsUint32(Value(b)) && IsUint32(Value(c))
    ensures PureTernary(andCache, Value(a), Value(b), Value(c)) == Value(Ch(a, b, c))
  {
    OctetsOf(a);
    OctetsOf(b);
    OctetsOf(c);
    TernaryByteCorrect(andCache, Oct(a, 0), Oct(b, 0), Oct(c, 0));
    TernaryByteCorrect(andCache, Oct(a, 1), Oct(b, 1), Oct(c, 1));
    TernaryByteCorrect(andCache, Oct(a, 2), Oct(b, 2), Oct(c, 2));
    TernaryByteCorrect(andCache, Oct(a, 3), Oct(b, 3), Oct(c, 3));
    PureTernaryAt(andCache, Value(a), Value(b), Value(c), OctetValues(a), OctetValues(b), OctetValues(c),
      Value(Ch8(Oct(a, 0), Oct(b, 0), Oct(c, 0))),
      Value(Ch8(Oct(a, 1), Oct(b, 1), Oct(c, 1))),
      Value(Ch8(Oct(a, 2), Oct(b, 2), Oct(c, 2))),
      Value(Ch8(Oct(a, 3), Oct(b, 3), Oct(c, 3))));
    JoinOctets(Ch8(Oct(a, 0), Oct(b, 0), Oct(c, 0)),
      Ch8(Oct(a, 1), Oct(b, 1), Oct(c, 1)),
      Ch8(Oct(a, 2), Oct(b, 2), Oct(c, 2)),
      Ch8(Oct(a, 3), Oct(b, 3), Oct(c, 3)));
    ChOctets(a, b, c);
  }

  lemma PureMajorityAt(andCache: map<int, int>, xorCache: map<int, int>, a: int, b: int, c: int,
                a': (int, int, int, int), b': (int, int, int, int), c': (int, int, int, int),
                v1: int, v2: int, v3: int, v4: int)
    requires IsAndTable(andCache) && IsXorTable(xorCache) && Parts(a, a') && Parts(b, b') && Parts(c, c')
    requires MajorityByte(andCache, xorCache, a'.0, b'.0, c'.0) == v1
    requires MajorityByte(andCache, xorCache, a'.1, b'.1, c'.1) == v2
    requires MajorityByte(andCache, xorCache, a'.2, b'.2, c'.2) == v3
    requires MajorityByte(andCache, xorCache, a'.3, b'.3, c'.3) == v4
    ensures PureMajority(andCache, xorCache, a, b, c) == BytesToUint32(v1, v2, v3, v4)
  {
  }

  lemma MajOctets(a: Word, b: Word, c: Word)
    ensures Maj(a, b, c) == Maj8(Oct(a, 0), Oct(b, 0), Oct(c, 0))
            + Maj8(Oct(a, 1), Oct(b, 1), Oct(c, 1))
            + Maj8(Oct(a, 2), Oct(b, 2), Oct(c, 2))
            + Maj8(Oct(a, 3), Oct(b, 3), Oct(c, 3))
  {
  }

  lemma PureMajorityCorrect(andCache: map<int, int>, xorCache: map<int, int>, a: Word, b: Word, c: Word)
    requires IsAndTable(andCache) && IsXorTable(xorCache)
    ensures IsUint32(Value(a)) && IsUint32(Value(b)) && IsUint32(Value(c))
    ensures PureMajority(andCache, xorCache, Value(a), Value(b), Value(c)) == Value(Maj(a, b, c))
  {
    OctetsOf(a);
    OctetsOf(b);
    OctetsOf(c);
    MajorityByteCorrect(andCache, xorCache, Oct(a, 0), Oct(b, 0), Oct(c, 0));
    MajorityByteCorrect(andCache, xorCache, Oct(a, 1), Oct(b, 1), Oct(c, 1));
    MajorityByteCorrect(andCache, xorCache, Oct(a, 2), Oct(b, 2), Oct(c, 2));
    MajorityByteCorrect(andCache, xorCache, Oct(a, 3), Oct(b, 3), Oct(c, 3));
    PureMajorityAt(andCache, xorCache, Value(a), Value(b), Value(c), OctetValues(a), OctetValues(b), OctetValues(c),
      Value(Maj8(Oct(a, 0), Oct(b, 0), Oct(c, 0))),
      Value(Maj8(Oct(a, 1), Oct(b, 1), Oct(c, 1))),
      Value(Maj8(Oct(a, 2), Oct(b, 2), Oct(c, 2))),
      Value(Maj8(Oct(a, 3), Oct(b, 3), Oct(c, 3))));
    JoinOctets(Maj8(Oct(a, 0), Oct(b, 0), Oct(c, 0)),
      Maj8(Oct(a, 1), Oct(b, 1), Oct(c, 1)),
      Maj8(Oct(a, 2), Oct(b, 2), Oct(c, 2)),
      Maj8(Oct(a, 3), Oct(b, 3), Oct(c, 3)));
    MajOctets(a, b, c);
  }
}
