/**
 * HMAC-SHA1 (lua/sha1/init.lua, hex_to_binary, sha1.binary and sha1.hmac) against section 2 of RFC 2104.
 */
module Hmac {
  import opened Bits
  import opened Fips180
  import opened WordOps
  import opened BackEnds
  import opened Messages
  import opened Sha1
  import opened Wrappers

  // ---- RFC 2104 ----

  function DigestBits(h: Hash): (s: seq<bool>)
    ensures |s| == 160
  {
    h.a + h.b + h.c + h.d + h.e
  }

  /** The key hashed if it is longer than the block, then filled up with zeros to the block length. */
  function KeyBlock(key: seq<bool>): (s: seq<bool>)
    requires |key| < Pow2(64)
    ensures |s| == 512
  {
    var k := if |key| > 512 then DigestBits(Fips180.Sha1(key)) else key;
    k + Zeros(512 - |k|)
  }

  function Ipad(): seq<bool> { MessageBits(Repeat(0x36, 64)) }

  function Opad(): seq<bool> { MessageBits(Repeat(0x5c, 64)) }

  function InnerMessage(key: seq<bool>, text: seq<bool>): seq<bool>
    requires |key| < Pow2(64)
  {
    Xor(KeyBlock(key), Ipad()) + text
  }

  function OuterMessage(key: seq<bool>, inner: Hash): (s: seq<bool>)
    requires |key| < Pow2(64)
    ensures |s| == 672
  {
    Xor(KeyBlock(key), Opad()) + DigestBits(inner)
  }

  function HmacSha1(key: seq<bool>, text: seq<bool>): Hash
    requires |key| < Pow2(64) && |text| + 512 < Pow2(64)
  {
    Pow2Values();
    Fips180.Sha1(OuterMessage(key, Fips180.Sha1(InnerMessage(key, text))))
  }

  lemma BitsOfNext(n: nat, x: nat)
    ensures BitsOf(n + 1, x) == BitsOf(n, x / 2) + [x % 2 == 1]
  {
    assert Zeros(n + 1)[1..] == Zeros(n);
  }

  lemma BitsOfFourMore(n: nat, x: nat)
    ensures BitsOf(n + 4, x)
         == BitsOf(n, x / 16) + [x / 8 % 2 == 1, x / 4 % 2 == 1, x / 2 % 2 == 1, x % 2 == 1]
  {
    hide BitsOf;
    BitsOfNext(n + 3, x);
    BitsOfNext(n + 2, x / 2);
    BitsOfNext(n + 1, x / 4);
    BitsOfNext(n, x / 8);
  }

  lemma PadOctets()
    ensures BitsOf(8, 0x36) == [false, false, true, true, false, true, true, false]
    ensures BitsOf(8, 0x5c) == [false, true, false, true, true, true, false, false]
  {
    hide BitsOf;
    BitsOfFourMore(4, 0x36);
    BitsOfFourMore(0, 0x3);
    BitsOfFourMore(4, 0x5c);
    BitsOfFourMore(0, 0x5);
    assert BitsOf(0, 0) == [];
  }

  /**
   * The two messages bit by bit. The pads are 00110110 and 01011100 over and over, and a key of at most 64
   * bytes is followed by zeros.
   */
  lemma MessageMeaning(key: seq<bool>, text: seq<bool>, inner: Hash, i: nat)
    requires |key| <= 512 && i < 512 && 512 < Pow2(64)
    ensures InnerMessage(key, text)[i] == ((i < |key| && key[i]) != (i % 8 in {2, 3, 5, 6}))
    ensures OuterMessage(key, inner)[i] == ((i < |key| && key[i]) != (i % 8 in {1, 3, 4, 5}))
    ensures InnerMessage(key, text)[512..] == text
    ensures OuterMessage(key, inner)[512..] == inner.a + inner.b + inner.c + inner.d + inner.e
  {
    PadOctets();
    hide BitsOf, Pow2;
  }

  /** A longer key counts as its digest. */
  lemma LongKey(key: seq<bool>, text: seq<bool>, inner: Hash, d: Hash)
    requires 512 < |key| < Pow2(64) && d == Fips180.Sha1(key) && 160 < Pow2(64)
    ensures InnerMessage(key, text) == InnerMessage(d.a + d.b + d.c + d.d + d.e, text)
    ensures OuterMessage(key, inner) == OuterMessage(d.a + d.b + d.c + d.d + d.e, inner)
  {
    hide Fips180.Sha1, Pow2, Ipad, Opad;
    assert KeyBlock(key) == KeyBlock(DigestBits(d));
  }

  // ---- hex_to_binary ----

  predicate IsHexDigit(c: char)
  {
    '0' <= c <= '9' || 'a' <= c <= 'f' || 'A' <= c <= 'F'
  }

  function HexValue(c: char): (v: nat)
    requires IsHexDigit(c)
    ensures v < 16
  {
    if '0' <= c <= '9' then c as int - '0' as int
    else if 'a' <= c <= 'f' then c as int - 'a' as int + 10
    else c as int - 'A' as int + 10
  }

  predicate IsHex(hex: string) { forall i :: 0 <= i < |hex| ==> IsHexDigit(hex[i]) }

  /** Each pair of digits becomes one byte. */
  function HexToBinary(hex: string): seq<Byte>
    requires |hex| % 2 == 0 && IsHex(hex)
  {
    if hex == [] then [] else [16 * HexValue(hex[0]) + HexValue(hex[1])] + HexToBinary(hex[2..])
  }

  lemma {:induction false} HexToBinaryConcat(s: string, t: string)
    requires |s| % 2 == 0 && IsHex(s) && |t| % 2 == 0 && IsHex(t)
    ensures HexToBinary(s + t) == HexToBinary(s) + HexToBinary(t)
  {
    if s == [] {
      assert s + t == t;
    } else {
      assert (s + t)[2..] == s[2..] + t;
      HexToBinaryConcat(s[2..], t);
    }
  }

  lemma {:induction false} HexIsHex(n: nat, x: nat)
    ensures IsHex(Hex(n, x))
  {
    if n > 0 {
      HexIsHex(n - 1, x / 16);
    }
  }

  lemma HexDigitValue(d: nat)
    requires d < 16
    ensures IsHexDigit(HexDigit(d)) && HexValue(HexDigit(d)) == d
  {
  }

  /** The last two digits are those of the low byte. */
  lemma HexTwo(n: nat, x: nat)
    ensures IsHexDigit(HexDigit(x / 16 % 16)) && IsHexDigit(HexDigit(x % 16))
    ensures Hex(n + 2, x) == Hex(n, x / 256) + [HexDigit(x / 16 % 16), HexDigit(x % 16)]
    ensures HexToBinary([HexDigit(x / 16 % 16), HexDigit(x % 16)]) == [x % 256]
  {
    assert x / 16 / 16 == x / 256;
    assert Hex(n + 2, x) == (Hex(n, x / 16 / 16) + [HexDigit(x / 16 % 16)]) + [HexDigit(x % 16)];
    HexDigitValue(x / 16 % 16);
    HexDigitValue(x % 16);
    var s := [HexDigit(x / 16 % 16), HexDigit(x % 16)];
    assert HexToBinary(s[2..]) == [];
    assert 16 * (x / 16 % 16) + x % 16 == x % 256;
  }

  /** Two more digits print one more byte. */
  lemma HexNextByte(n: nat, x: nat)
    requires n % 2 == 0 && IsHex(Hex(n, x / 256)) && IsHex(Hex(n + 2, x))
    ensures MessageBits(HexToBinary(Hex(n + 2, x)))
         == MessageBits(HexToBinary(Hex(n, x / 256))) + BitsOf(8, x % 256)
  {
    hide Hex, HexToBinary, MessageBits, HexDigit;
    HexTwo(n, x);
    var t := [HexDigit(x / 16 % 16), HexDigit(x % 16)];
    HexToBinaryConcat(Hex(n, x / 256), t);
    BitsConcat(HexToBinary(Hex(n, x / 256)), [x % 256]);
    BitsOne(x % 256);
  }

  /** What hex_to_binary makes of the n digits of a number, as bits. */
  function DecodedBits(n: nat, x: nat): seq<bool>
    requires n % 2 == 0
  {
    HexIsHex(n, x);
    MessageBits(HexToBinary(Hex(n, x)))
  }

  lemma DecodeStep(n: nat, hi: seq<bool>, lo: Octet)
    requires n % 2 == 0 && DecodedBits(n, Value(hi)) == hi
    ensures DecodedBits(n + 2, Value(hi + lo)) == hi + lo
  {
    hide Value, BitsOf;
    LastByte(hi, lo);
    HexIsHex(n, Value(hi));
    HexIsHex(n + 2, Value(hi + lo));
    HexNextByte(n, Value(hi + lo));
  }

  /** Printing a bit string in hexadecimal and converting back gives its bytes. */
  lemma {:induction false} HexRoundTrip(k: nat, s: seq<bool>)
    requires |s| == 8 * k
    ensures DecodedBits(2 * k, Value(s)) == s
  {
    hide DecodedBits, Value;
    if k == 0 {
      NoDigits(Value(s));
    } else {
      var (hi, lo) := (s[..8 * (k - 1)], s[8 * (k - 1)..]);
      assert s == hi + lo;
      HexRoundTrip(k - 1, hi);
      DecodeStep(2 * (k - 1), hi, lo);
    }
  }

  lemma NoDigits(x: nat)
    ensures DecodedBits(0, x) == []
  {
  }

  lemma LastByte(hi: seq<bool>, lo: Octet)
    ensures Value(hi + lo) / 256 == Value(hi) && BitsOf(8, Value(hi + lo) % 256) == lo
  {
    hide Value, BitsOf;
    CutOctet(hi, lo);
    TakeByte(Value(hi + lo));
    BitsOfValue(lo);
  }

  // ---- The code ----

  /** The printed digest decodes to the 160 bits of the hash value. */
  lemma DigestRoundTrip(h: Hash)
    ensures IsHex(DigestHex(h))
    ensures MessageBits(HexToBinary(DigestHex(h))) == DigestBits(h)
  {
    var (a, b, c, d, e) := (HexWord(h.a), HexWord(h.b), HexWord(h.c), HexWord(h.d), HexWord(h.e));
    HexWordRoundTrip(h.a);
    HexWordRoundTrip(h.b);
    HexWordRoundTrip(h.c);
    HexWordRoundTrip(h.d);
    HexWordRoundTrip(h.e);
    hide HexWord, MessageBits, HexToBinary;
    DecodeConcat(a, b);
    DecodeConcat(a + b, c);
    DecodeConcat(a + b + c, d);
    DecodeConcat(a + b + c + d, e);
  }

  lemma HexWordRoundTrip(w: Word)
    ensures |HexWord(w)| == 8 && IsHex(HexWord(w)) && MessageBits(HexToBinary(HexWord(w))) == w
  {
    HexIsHex(8, Value(w));
    HexRoundTrip(4, w);
  }

  lemma DecodeConcat(s: string, t: string)
    requires |s| % 2 == 0 && IsHex(s) && |t| % 2 == 0 && IsHex(t)
    ensures |s + t| % 2 == 0 && IsHex(s + t)
    ensures MessageBits(HexToBinary(s + t)) == MessageBits(HexToBinary(s)) + MessageBits(HexToBinary(t))
  {
    HexToBinaryConcat(s, t);
    BitsConcat(HexToBinary(s), HexToBinary(t));
  }

  /** The raw 20-byte digest. */
  method Binary(ops: Ops, str: seq<Byte>) returns (r: Option<seq<Byte>>)
    requires ops.Ready()
    ensures |str| >= 0x2000_0000 ==> r == None
    ensures |str| < 0x2000_0000 ==> r.Some? && 8 * |str| < Pow2(64)
    ensures |str| < 0x2000_0000 ==> MessageBits(r.value) == DigestBits(Fips180.Sha1(MessageBits(str)))
  {
    var hex := Sha1.Sha1(ops, str);
    if hex.None? {
      return None;
    }
    DigestRoundTrip(Fips180.Sha1(MessageBits(str)));
    r := Some(HexToBinary(hex.value));
  }

  /** A replacement table holds, for every byte, that byte xor-ed with c. */
  ghost predicate IsXorWith(table: map<Byte, Byte>, c: Byte)
  {
    forall i: Byte :: Replaced(table, c, i)
  }

  ghost predicate Replaced(table: map<Byte, Byte>, c: Byte, i: Byte)
  {
    i in table && BitsOf(8, table[i]) == Xor(BitsOf(8, c), BitsOf(8, i))
  }

  method XorByte(ops: Ops, c: Byte, i: Byte) returns (r: Byte)
    requires ops.Ready()
    ensures BitsOf(8, r) == Xor(BitsOf(8, c), BitsOf(8, i))
  {
    OctetOfByte(c);
    OctetOfByte(i);
    var (s, t) := (BitsOf(8, c), BitsOf(8, i));
    ByteXorCorrect(ops, s, t);
    OctetIsByte(Xor(s, t));
    BitsOfValue(Xor(s, t));
    r := ops.ByteXor(c, i);
  }

  ghost predicate ReplacedBelow(table: map<Byte, Byte>, c: Byte, n: nat)
  {
    forall i: Byte :: i < n ==> Replaced(table, c, i)
  }

  lemma ReplaceNext(table: map<Byte, Byte>, c: Byte, i: Byte, x: Byte)
    requires ReplacedBelow(table, c, i) && BitsOf(8, x) == Xor(BitsOf(8, c), BitsOf(8, i))
    ensures ReplacedBelow(table[i := x], c, i + 1)
  {
    hide BitsOf, Xor;
    var t := table[i := x];
    forall j: Byte | j < i + 1 ensures Replaced(t, c, j) {
      assert j < i ==> Replaced(table, c, j);
    }
  }

  method LoadXorTables(ops: Ops) returns (xorWith5c: map<Byte, Byte>, xorWith36: map<Byte, Byte>)
    requires ops.Ready()
    ensures IsXorWith(xorWith5c, 0x5c) && IsXorWith(xorWith36, 0x36)
  {
    hide BitsOf, Xor, Replaced;
    xorWith5c, xorWith36 := map[], map[];
    for i := 0 to 256
      invariant ReplacedBelow(xorWith5c, 0x5c, i) && ReplacedBelow(xorWith36, 0x36, i)
    {
      var x := XorByte(ops, 0x5c, i);
      var y := XorByte(ops, 0x36, i);
      ReplaceNext(xorWith5c, 0x5c, i, x);
      ReplaceNext(xorWith36, 0x36, i, y);
      xorWith5c := xorWith5c[i := x];
      xorWith36 := xorWith36[i := y];
    }
  }

  /** key:gsub('.', table) */
  function Substitute(table: map<Byte, Byte>, key: seq<Byte>): (r: seq<Byte>)
    ensures |r| == |key|
  {
    seq(|key|, i requires 0 <= i < |key| => if key[i] in table then table[key[i]] else key[i])
  }

  lemma SubstituteBits(table: map<Byte, Byte>, c: Byte, key: seq<Byte>)
    requires IsXorWith(table, c)
    ensures MessageBits(Substitute(table, key)) == Xor(MessageBits(key), MessageBits(Repeat(c, |key|)))
  {
    var s := Substitute(table, key);
    forall k | 0 <= k < 8 * |key|
      ensures MessageBits(s)[k] == Xor(MessageBits(key), MessageBits(Repeat(c, |key|)))[k]
    {
      assert Replaced(table, c, key[k / 8]);
    }
  }

  /** The key as it enters the block: hashed when over-long, substituted, filled up with the pad byte. */
  lemma PaddedKey(table: map<Byte, Byte>, c: Byte, key: seq<Byte>)
    requires IsXorWith(table, c) && |key| <= 64
    ensures MessageBits(Substitute(table, key) + Repeat(c, 64 - |key|))
         == Xor(MessageBits(key) + Zeros(512 - 8 * |key|), MessageBits(Repeat(c, 64)))
  {
    var (n, rest) := (|key|, Repeat(c, 64 - |key|));
    SubstituteBits(table, c, key);
    BitsConcat(Substitute(table, key), rest);
    BitsConcat(Repeat(c, n), rest);
    assert Repeat(c, 64) == Repeat(c, n) + rest;
    var (k, p, q) := (MessageBits(key), MessageBits(Repeat(c, n)), MessageBits(rest));
    XorParts(k, p, q);
  }

  lemma XorParts(k: seq<bool>, p: seq<bool>, q: seq<bool>)
    requires |k| == |p|
    ensures Xor(k, p) + q == Xor(k + Zeros(|q|), p + q)
  {
  }

  /** k is the key, or its digest when the key is over-long. */
  ghost predicate ShortKey(key: seq<Byte>, k: seq<Byte>)
    requires 8 * |key| < Pow2(64)
  {
    |k| <= 64 && if |key| > 64 then MessageBits(k) == DigestBits(Fips180.Sha1(MessageBits(key))) else k == key
  }

  /** The two messages that are hashed, as bits. */
  lemma HashedMessages(key: seq<Byte>, k: seq<Byte>, text: seq<Byte>, inner: seq<Byte>,
                       m36: seq<Byte>, m5c: seq<Byte>, h: Hash)
    requires 8 * |key| < Pow2(64) && ShortKey(key, k) && MessageBits(inner) == DigestBits(h)
    requires MessageBits(m36) == Xor(MessageBits(k) + Zeros(512 - 8 * |k|), MessageBits(Repeat(0x36, 64)))
    requires MessageBits(m5c) == Xor(MessageBits(k) + Zeros(512 - 8 * |k|), MessageBits(Repeat(0x5c, 64)))
    ensures MessageBits(m36 + text) == InnerMessage(MessageBits(key), MessageBits(text))
    ensures MessageBits(m5c + inner) == OuterMessage(MessageBits(key), h)
  {
    BitsConcat(m36, text);
    BitsConcat(m5c, inner);
    hide MessageBits, DigestBits, Fips180.Sha1, Xor;
    assert KeyBlock(MessageBits(key)) == MessageBits(k) + Zeros(512 - 8 * |k|);
  }

  lemma HmacUnfold(key: seq<bool>, text: seq<bool>)
    requires |key| < Pow2(64) && |text| + 512 < Pow2(64)
    ensures |InnerMessage(key, text)| < Pow2(64) && 672 < Pow2(64)
    ensures HmacSha1(key, text) == Fips180.Sha1(OuterMessage(key, Fips180.Sha1(InnerMessage(key, text))))
  {
    hide Fips180.Sha1;
    Pow2Values();
  }

  /**
   * The result is the HMAC of RFC 2104 whenever key and text are short enough for sha1.sha1, which
   * otherwise fails.
   */
  method Hmac(ops: Ops, xorWith5c: map<Byte, Byte>, xorWith36: map<Byte, Byte>, key: seq<Byte>, text: seq<Byte>)
    returns (r: Option<string>)
    requires ops.Ready() && IsXorWith(xorWith5c, 0x5c) && IsXorWith(xorWith36, 0x36)
    ensures r.Some? <==> |key| < 0x2000_0000 && |text| + 64 < 0x2000_0000
    ensures r.Some? ==> 8 * |key| < Pow2(64) && 8 * |text| + 512 < Pow2(64)
    ensures r.Some? ==> r.value == DigestHex(HmacSha1(MessageBits(key), MessageBits(text)))
  {
    hide *;
    Pow2Values();
    var k := key;
    if |key| > 64 {
      var hashed := Binary(ops, key);
      if hashed.None? {
        return None;
      }
      k := hashed.value;
    }
    IsShortKey(key, k);
    var keyXordWith36 := Substitute(xorWith36, k) + Repeat(0x36, 64 - |k|);
    var keyXordWith5c := Substitute(xorWith5c, k) + Repeat(0x5c, 64 - |k|);
    PaddedKey(xorWith36, 0x36, k);
    PaddedKey(xorWith5c, 0x5c, k);
    var inner := Binary(ops, keyXordWith36 + text);
    if inner.None? {
      return None;
    }
    HmacUnfold(MessageBits(key), MessageBits(text));
    HashedMessages(key, k, text, inner.value, keyXordWith36, keyXordWith5c,
                   Fips180.Sha1(MessageBits(keyXordWith36 + text)));
    r := Sha1.Sha1(ops, keyXordWith5c + inner.value);
  }

  lemma IsShortKey(key: seq<Byte>, k: seq<Byte>)
    requires 8 * |key| < Pow2(64)
    requires if |key| > 64 then MessageBits(k) == DigestBits(Fips180.Sha1(MessageBits(key))) else k == key
    ensures ShortKey(key, k)
  {
    hide Fips180.Sha1;
  }
}
