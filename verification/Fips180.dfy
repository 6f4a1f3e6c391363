/**
 * SHA-1 as FIPS 180-4 defines it, on bit strings: functions of section 4.1.1, constants of 4.2.1,
 * padding of 5.1.1, parsing of 5.2.1, initial value of 5.3.1 and computation of 6.1.2.
 */
module Fips180 {
  import opened Bits

  function WordOf(n: nat): Word { BitsOf(32, n) }

  /** Addition modulo 2^32 (section 3.2). */
  function Add(x: Word, y: Word): Word
  {
    WordOf((Value(x) + Value(y)) % 0x1_0000_0000)
  }

  function Ch(x: Word, y: Word, z: Word): Word { Xor(And(x, y), And(Not(x), z)) }

  function Parity(x: Word, y: Word, z: Word): Word { Xor(Xor(x, y), z) }

  function Maj(x: Word, y: Word, z: Word): Word { Xor(Xor(And(x, y), And(x, z)), And(y, z)) }

  function F(t: nat, x: Word, y: Word, z: Word): Word
    requires t < 80
  {
    if t <= 19 then Ch(x, y, z)
    else if t <= 39 then Parity(x, y, z)
    else if t <= 59 then Maj(x, y, z)
    else Parity(x, y, z)
  }

  function K(t: nat): Word
    requires t < 80
  {
    if t <= 19 then WordOf(0x5a82_7999)
    else if t <= 39 then WordOf(0x6ed9_eba1)
    else if t <= 59 then WordOf(0x8f1b_bcdc)
    else WordOf(0xca62_c1d6)
  }

  lemma WordNumber(n: nat)
    requires n < 0x1_0000_0000
    ensures Value(WordOf(n)) == n
  {
    Pow2Values();
    ValueOfBits(32, n);
  }

  lemma AddValue(x: Word, y: Word)
    ensures Value(Add(x, y)) == (Value(x) + Value(y)) % 0x1_0000_0000
  {
    WordNumber((Value(x) + Value(y)) % 0x1_0000_0000);
  }

  /** The four constants are the whole parts of 2^30 times the square roots of 2, 3, 5 and 10. */
  lemma ConstantsAreRoots(t: nat)
    requires t < 80
    ensures var k := Value(K(t));
            && (t < 20 ==> k * k <= 2 * 0x1000_0000_0000_0000 < (k + 1) * (k + 1))
            && (20 <= t < 40 ==> k * k <= 3 * 0x1000_0000_0000_0000 < (k + 1) * (k + 1))
            && (40 <= t < 60 ==> k * k <= 5 * 0x1000_0000_0000_0000 < (k + 1) * (k + 1))
            && (60 <= t ==> k * k <= 10 * 0x1000_0000_0000_0000 < (k + 1) * (k + 1))
  {
    hide WordOf, Value;
    WordNumber(0x5a82_7999);
    WordNumber(0x6ed9_eba1);
    WordNumber(0x8f1b_bcdc);
    WordNumber(0xca62_c1d6);
  }

  /** What the functions give, bit by bit: a choice, an odd number of ones, at least two ones. */
  lemma FunctionsBitwise(t: nat, x: Word, y: Word, z: Word, i: nat)
    requires t < 80 && i < 32
    ensures t < 20 ==> F(t, x, y, z)[i] == if x[i] then y[i] else z[i]
    ensures 20 <= t < 40 || 60 <= t ==> F(t, x, y, z)[i] == ((x[i] != y[i]) != z[i])
    ensures 40 <= t < 60 ==> F(t, x, y, z)[i] == ((x[i] && y[i]) || (x[i] && z[i]) || (y[i] && z[i]))
  {
  }

  datatype Hash = Hash(a: Word, b: Word, c: Word, d: Word, e: Word)

  function Initial(): Hash
  {
    Hash(WordOf(0x6745_2301), WordOf(0xefcd_ab89), WordOf(0x98ba_dcfe), WordOf(0x1032_5476), WordOf(0xc3d2_e1f0))
  }

  // ---- Padding ----

  /** The number of zero bits between the one bit and the length. */
  function ZeroBits(length: nat): nat { (447 - length as int) % 512 }

  function Pad(message: seq<bool>): seq<bool>
    requires |message| < Pow2(64)
  {
    message + [true] + Zeros(ZeroBits(|message|)) + BitsOf(64, |message|)
  }

  /** The number of zero bits is the least solution of section 5.1.1. */
  lemma ZeroBitsLeast(length: nat, k: nat)
    ensures (length + 1 + ZeroBits(length)) % 512 == 448
    ensures (length + 1 + k) % 512 == 448 ==> ZeroBits(length) <= k
  {
  }

  lemma WholeBlocks(n: nat)
    ensures (n + 65 + ZeroBits(n)) % 512 == 0 && ZeroBits(n) < 512
  {
  }

  lemma PadLength(message: seq<bool>)
    requires |message| < Pow2(64)
    ensures |Pad(message)| == |message| + 65 + ZeroBits(|message|)
    ensures |Pad(message)| % 512 == 0 && ZeroBits(|message|) < 512
  {
    hide Pow2, BitsOf, ZeroBits;
    WholeBlocks(|message|);
  }

  lemma PadEnd(message: seq<bool>, z: nat, length: seq<bool>)
    requires |length| == 64
    ensures var p := message + [true] + Zeros(z) + length;
            && p[..|message|] == message && p[|message|] && p[|p| - 64..] == length
            && forall i :: |message| < i < |p| - 64 ==> !p[i]
  {
  }

  /** The message, a one, zeros, and the length in 64 bits, filling as few blocks of 512 bits as possible. */
  lemma PadMeaning(message: seq<bool>)
    requires |message| < Pow2(64)
    ensures var (p, n) := (Pad(message), |message|);
            && |p| % 512 == 0 && n + 65 <= |p| < n + 65 + 512
            && p[..n] == message && p[n] && (forall i :: n < i < |p| - 64 ==> !p[i])
            && Value(p[|p| - 64..]) == n
  {
    PadLength(message);
    PadEnd(message, ZeroBits(|message|), BitsOf(64, |message|));
    ValueOfBits(64, |message|);
    hide BitsOf, Value, Pow2, Zeros, ZeroBits;
  }

  // ---- Computation ----

  type Block = s: seq<bool> | |s| == 512 witness seq(512, _ => false)

  /** Word t of the message schedule. */
  function W(block: Block, t: nat): Word
    requires t < 80
  {
    if t < 16 then block[32 * t..32 * t + 32]
    else Rotl(Xor(Xor(Xor(W(block, t - 3), W(block, t - 8)), W(block, t - 14)), W(block, t - 16)), 1)
  }

  function Round(t: nat, w: Word, h: Hash): Hash
    requires t < 80
  {
    var T := Add(Add(Add(Add(Rotl(h.a, 5), F(t, h.b, h.c, h.d)), h.e), K(t)), w);
    Hash(T, h.a, Rotl(h.b, 30), h.c, h.d)
  }

  function Schedule(block: Block): (ws: seq<Word>)
    ensures |ws| == 80
  {
    seq(80, t requires 0 <= t < 80 => W(block, t))
  }

  /** The working variables after one round for each word of `ws`. */
  function Rounds(ws: seq<Word>, h: Hash): Hash
    requires |ws| <= 80
  {
    if ws == [] then h else Round(|ws| - 1, ws[|ws| - 1], Rounds(ws[..|ws| - 1], h))
  }

  function Compress(block: Block, h: Hash): Hash
  {
    var r := Rounds(Schedule(block), h);
    Hash(Add(r.a, h.a), Add(r.b, h.b), Add(r.c, h.c), Add(r.d, h.d), Add(r.e, h.e))
  }

  function BlockAt(padded: seq<bool>, i: nat): Block
    requires 512 * (i + 1) <= |padded|
  {
    padded[512 * i..512 * i + 512]
  }

  /** The hash value after the first n blocks of a padded message. */
  function HashAfter(padded: seq<bool>, n: nat): Hash
    requires 512 * n <= |padded|
  {
    if n == 0 then Initial()
    else Compress(BlockAt(padded, n - 1), HashAfter(padded, n - 1))
  }

  function Sha1(message: seq<bool>): Hash
    requires |message| < Pow2(64)
  {
    HashAfter(Pad(message), |Pad(message)| / 512)
  }

  // ---- Sums of five words ----

  /** Adding numbers that stand for words and reducing once is adding the words. */
  lemma SumOfFive(a: int, b: int, c: int, d: int, e: int, v: nat, w: nat, x: nat, y: nat, z: nat)
    requires a % 0x1_0000_0000 == v && b % 0x1_0000_0000 == w && c % 0x1_0000_0000 == x
    requires d % 0x1_0000_0000 == y && e % 0x1_0000_0000 == z
    ensures (a + b + c + d + e) % 0x1_0000_0000
         == ((((v + w) % 0x1_0000_0000 + x) % 0x1_0000_0000 + y) % 0x1_0000_0000 + z) % 0x1_0000_0000
  {
  }

  lemma SumOfWords(v: Word, w: Word, x: Word, y: Word, z: Word)
    ensures Value(Add(Add(Add(Add(v, w), x), y), z))
         == ((((Value(v) + Value(w)) % 0x1_0000_0000 + Value(x)) % 0x1_0000_0000 + Value(y)) % 0x1_0000_0000
             + Value(z)) % 0x1_0000_0000
  {
    hide Add, Value;
    AddValue(v, w);
    AddValue(Add(v, w), x);
    AddValue(Add(Add(v, w), x), y);
    AddValue(Add(Add(Add(v, w), x), y), z);
  }

  lemma SumOfStandIns(a: int, b: int, c: int, d: int, e: int, v: Word, w: Word, x: Word, y: Word, z: Word)
    requires a % 0x1_0000_0000 == Value(v) && b % 0x1_0000_0000 == Value(w) && c % 0x1_0000_0000 == Value(x)
    requires d % 0x1_0000_0000 == Value(y) && e % 0x1_0000_0000 == Value(z)
    ensures (a + b + c + d + e) % 0x1_0000_0000 == Value(Add(Add(Add(Add(v, w), x), y), z))
  {
    hide Add, Value;
    SumOfFive(a, b, c, d, e, Value(v), Value(w), Value(x), Value(y), Value(z));
    SumOfWords(v, w, x, y, z);
  }

  lemma Reduced(w: Word)
    ensures Value(w) % 0x1_0000_0000 == Value(w)
  {
    Pow2Values();
    ValueBound(w);
    hide Pow2, Value;
  }

  lemma SumOfValues(v: Word, w: Word, x: Word, y: Word, z: Word)
    ensures Value(Add(Add(Add(Add(v, w), x), y), z))
         == (Value(v) + Value(w) + Value(x) + Value(y) + Value(z)) % 0x1_0000_0000
  {
    hide Add, Value;
    Reduced(v);
    Reduced(w);
    Reduced(x);
    Reduced(y);
    Reduced(z);
    SumOfStandIns(Value(v), Value(w), Value(x), Value(y), Value(z), v, w, x, y, z);
  }

  // ---- What the computation is, spelt out ----

  lemma RotlBits(w: Word, n: nat, i: nat)
    requires n <= 32 && i < 32
    ensures Rotl(w, n)[i] == w[(i + n) % 32]
  {
  }

  lemma XorThenRotate(p: Word, q: Word, r: Word, s: Word, i: nat)
    requires i < 32
    ensures var k := (i + 1) % 32;
            Rotl(Xor(Xor(Xor(p, q), r), s), 1)[i] == (p[k] != (q[k] != (r[k] != s[k])))
  {
    RotlBits(Xor(Xor(Xor(p, q), r), s), 1, i);
    hide Rotl;
  }

  /** The first sixteen words are those of the block, and each later one is made of four before it. */
  lemma ScheduleBits(block: Block, t: nat, i: nat)
    requires t < 80 && i < 32
    ensures Schedule(block)[t] == W(block, t)
    ensures t < 16 ==> W(block, t)[i] == block[32 * t + i]
    ensures t >= 16 ==>
              W(block, t)[i] == (W(block, t - 3)[(i + 1) % 32] != (W(block, t - 8)[(i + 1) % 32]
                                 != (W(block, t - 14)[(i + 1) % 32] != W(block, t - 16)[(i + 1) % 32])))
  {
    hide Rotl, Xor;
    if t >= 16 {
      XorThenRotate(W(block, t - 3), W(block, t - 8), W(block, t - 14), W(block, t - 16), i);
    }
  }

  /** One round: the sum of five words modulo 2^32, and the working variables moved along. */
  lemma RoundMeaning(t: nat, w: Word, h: Hash)
    requires t < 80
    ensures Value(Round(t, w, h).a)
         == (Value(Rotl(h.a, 5)) + Value(F(t, h.b, h.c, h.d)) + Value(h.e) + Value(K(t)) + Value(w)) % 0x1_0000_0000
    ensures Round(t, w, h).b == h.a && Round(t, w, h).c == Rotl(h.b, 30)
    ensures Round(t, w, h).d == h.c && Round(t, w, h).e == h.d
  {
    hide F, K, Add, Value, Rotl;
    SumOfValues(Rotl(h.a, 5), F(t, h.b, h.c, h.d), h.e, K(t), w);
  }

  /** Round by round over the words of the schedule, from the hash value before. */
  lemma RoundsMeaning(ws: seq<Word>, w: Word, h: Hash)
    requires |ws| < 80
    ensures Rounds([], h) == h && Rounds(ws + [w], h) == Round(|ws|, w, Rounds(ws, h))
  {
    assert (ws + [w])[..|ws|] == ws;
    hide Round;
  }

  /** One block: its eighty rounds start from the hash value before, to which their result is added. */
  lemma CompressMeaning(block: Block, h: Hash, r: Hash)
    requires r == Rounds(Schedule(block), h)
    ensures var g := Compress(block, h);
            && Value(g.a) == (Value(r.a) + Value(h.a)) % 0x1_0000_0000
            && Value(g.b) == (Value(r.b) + Value(h.b)) % 0x1_0000_0000
            && Value(g.c) == (Value(r.c) + Value(h.c)) % 0x1_0000_0000
            && Value(g.d) == (Value(r.d) + Value(h.d)) % 0x1_0000_0000
            && Value(g.e) == (Value(r.e) + Value(h.e)) % 0x1_0000_0000
  {
    hide Rounds, Schedule, Add, Value;
    AddValue(r.a, h.a);
    AddValue(r.b, h.b);
    AddValue(r.c, h.c);
    AddValue(r.d, h.d);
    AddValue(r.e, h.e);
  }

  /** The blocks of 512 bits enter one after the other. */
  lemma HashNext(padded: seq<bool>, n: nat)
    requires 512 * (n + 1) <= |padded|
    ensures BlockAt(padded, n) == padded[512 * n..512 * n + 512]
    ensures HashAfter(padded, 0) == Initial()
    ensures HashAfter(padded, n + 1) == Compress(BlockAt(padded, n), HashAfter(padded, n))
  {
    hide Compress, Initial;
  }
}
