/**
 * Byte strings as bit strings, and the padding the Lua code adds to them
 * (lua/sha1/init.lua, sha1.sha1, the first part).
 */
module Messages {
  import opened Bits
  import opened Fips180
  import opened MachineOps
  import opened WordOps
  import opened Wrappers

  type Byte = b: nat | b < 256

  /** The bits of a byte string, most significant bit of each byte first. */
  function MessageBits(str: seq<Byte>): (bits: seq<bool>)
    ensures |bits| == 8 * |str|
  {
    seq(8 * |str|, k requires 0 <= k < 8 * |str| => BitsOf(8, str[k / 8])[k % 8])
  }

  function Repeat(b: Byte, n: nat): seq<Byte> { seq(n, _ => b) }

  /** The padded message, or nothing when the length does not fit four bytes and string.char fails. */
  function PadMessage(str: seq<Byte>): Option<seq<Byte>>
  {
    var nonZeroMessageBytes := |str| + 1 + 8;
    var zeros := -nonZeroMessageBytes % 64;
    var (l1, l2, l3, l4) := Uint32ToBytes(|str| * 8);
    if IsByte(l1) && IsByte(l2) && IsByte(l3) && IsByte(l4)
    then Some(str + [0x80] + Repeat(0, zeros) + [0, 0, 0, 0, l1, l2, l3, l4])
    else None
  }

  // ---- Bits of byte strings ----

  lemma BitsConcat(s: seq<Byte>, t: seq<Byte>)
    ensures MessageBits(s + t) == MessageBits(s) + MessageBits(t)
  {
  }

  lemma BitsSlice(s: seq<Byte>, i: nat, j: nat)
    requires i <= j <= |s|
    ensures MessageBits(s)[8 * i..8 * j] == MessageBits(s[i..j])
  {
  }

  lemma BitsOne(b: Byte)
    ensures MessageBits([b]) == BitsOf(8, b)
  {
  }

  lemma OctetOfByte(b: Byte)
    ensures Value(BitsOf(8, b)) == b
  {
    Pow2Values();
    ValueOfBits(8, b);
  }

  lemma BitsZeroBytes(n: nat)
    ensures MessageBits(Repeat(0, n)) == Zeros(8 * n)
  {
    OctetOfByte(0);
    ValueZeros(8);
    ValueInjective(BitsOf(8, 0), Zeros(8));
  }

  lemma BitsOfOneByte()
    ensures MessageBits([0x80]) == [true] + Zeros(7)
  {
    BitsOne(0x80);
    OctetOfByte(0x80);
    ValueZeros(7);
    ValueConcat([true], Zeros(7));
    assert [true][..0] == [];
    assert Value([true]) == 1;
    assert Pow2(7) == 128;
    ValueInjective(BitsOf(8, 0x80), [true] + Zeros(7));
  }

  /** Four bytes are the word that bytes_to_uint32 makes of them. */
  lemma BitsOfFour(b1: Byte, b2: Byte, b3: Byte, b4: Byte)
    ensures Value(MessageBits([b1, b2, b3, b4])) == BytesToUint32(b1, b2, b3, b4)
  {
    BitsConcat([b1], [b2]);
    BitsConcat([b1] + [b2], [b3]);
    BitsConcat([b1] + [b2] + [b3], [b4]);
    assert [b1, b2, b3, b4] == [b1] + [b2] + [b3] + [b4];
    BitsOne(b1);
    BitsOne(b2);
    BitsOne(b3);
    BitsOne(b4);
    OctetOfByte(b1);
    OctetOfByte(b2);
    OctetOfByte(b3);
    OctetOfByte(b4);
    JoinOctets(BitsOf(8, b1), BitsOf(8, b2), BitsOf(8, b3), BitsOf(8, b4));
  }

  // ---- Padding ----

  lemma TakeByte(a: int)
    ensures a == 256 * ((a - a % 256) / 256) + a % 256 && IsByte(a % 256)
    ensures (a - a % 256) / 256 == a / 256
  {
  }

  lemma SplitThenJoin(a: int)
    ensures var (a1, a2, a3, a4) := Uint32ToBytes(a);
            BytesToUint32(a1, a2, a3, a4) == a && IsByte(a2) && IsByte(a3) && IsByte(a4)
            && (IsUint32(a) <==> IsByte(a1))
  {
    var b := (a - a % 256) / 256;
    var c := (b - b % 256) / 256;
    var d := (c - c % 256) / 256;
    TakeByte(a);
    TakeByte(b);
    TakeByte(c);
    assert Uint32ToBytes(a) == (d, c % 256, b % 256, a % 256);
  }

  lemma LengthField(n: nat, l1: Byte, l2: Byte, l3: Byte, l4: Byte)
    requires n == BytesToUint32(l1, l2, l3, l4)
    ensures MessageBits([0, 0, 0, 0, l1, l2, l3, l4]) == BitsOf(64, n)
  {
    var (hi, lo) := ([0, 0, 0, 0], [l1, l2, l3, l4]);
    assert [0, 0, 0, 0, l1, l2, l3, l4] == hi + lo;
    BitsConcat(hi, lo);
    BitsOfFour(l1, l2, l3, l4);
    assert hi == Repeat(0, 4);
    BitsZeroBytes(4);
    Extend(32, MessageBits(lo));
    BitsOfValue(Zeros(32) + MessageBits(lo));
  }

  /** The last eight bytes: the length in bits, most significant byte first. */
  function LengthBytes(n: nat): seq<Byte>
    requires IsUint32(n)
  {
    SplitThenJoin(n);
    var (l1, l2, l3, l4) := Uint32ToBytes(n);
    [0, 0, 0, 0, l1, l2, l3, l4]
  }

  lemma LengthBits(n: nat)
    requires IsUint32(n)
    ensures MessageBits(LengthBytes(n)) == BitsOf(64, n)
  {
    SplitThenJoin(n);
    var b := LengthBytes(n);
    LengthField(n, b[4], b[5], b[6], b[7]);
  }

  lemma PadShape(str: seq<Byte>)
    ensures PadMessage(str).Some? <==> |str| < 0x2000_0000
    ensures PadMessage(str).Some? ==>
      PadMessage(str).value == str + [0x80] + Repeat(0, -(|str| + 9) % 64) + LengthBytes(|str| * 8)
  {
    SplitThenJoin(|str| * 8);
  }

  lemma LeastMultiple(n: nat, m: nat)
    ensures (n + 9 + -(n + 9) % 64) % 64 == 0
    ensures m % 64 == 0 && m >= n + 9 ==> n + 9 + -(n + 9) % 64 <= m
    ensures 7 + 8 * (-(n + 9) % 64) == ZeroBits(8 * n)
  {
  }

  /** The padding succeeds exactly below 2^29 bytes, and is then that of section 5.1.1. */
  lemma PadMessageCorrect(str: seq<Byte>)
    ensures PadMessage(str).Some? <==> |str| < 0x2000_0000
    ensures PadMessage(str).Some? ==>
      8 * |str| < Pow2(64) && MessageBits(PadMessage(str).value) == Pad(MessageBits(str))
  {
    PadShape(str);
    Pow2Values();
    if PadMessage(str).Some? {
      var n := |str| * 8;
      var zeros := -(|str| + 9) % 64;
      LeastMultiple(|str|, 0);
      LengthBits(n);
      PadParts(str, zeros, LengthBytes(n));
      BitsOfOneByte();
      BitsZeroBytes(zeros);
      PadBits(MessageBits(str), zeros, BitsOf(64, n));
    }
  }

  lemma PadBits(m: seq<bool>, zeros: nat, field: seq<bool>)
    ensures m + ([true] + Zeros(7)) + Zeros(8 * zeros) + field == m + [true] + Zeros(7 + 8 * zeros) + field
  {
  }

  lemma PadParts(str: seq<Byte>, zeros: nat, tail: seq<Byte>)
    ensures MessageBits(str + [0x80] + Repeat(0, zeros) + tail)
         == MessageBits(str) + MessageBits([0x80]) + MessageBits(Repeat(0, zeros)) + MessageBits(tail)
  {
    BitsConcat(str, [0x80]);
    BitsConcat(str + [0x80], Repeat(0, zeros));
    BitsConcat(str + [0x80] + Repeat(0, zeros), tail);
  }

  /** The padded length is the least multiple of 64 that holds the message, the marker and the length. */
  lemma PaddedLength(str: seq<Byte>, m: nat)
    requires PadMessage(str).Some?
    ensures |PadMessage(str).value| % 64 == 0 && |PadMessage(str).value| >= |str| + 9
    ensures m % 64 == 0 && m >= |str| + 9 ==> |PadMessage(str).value| <= m
  {
    PadShape(str);
    LeastMultiple(|str|, m);
    assert |PadMessage(str).value| == |str| + 9 + -(|str| + 9) % 64;
  }

  /** The length stored in the last eight bytes. */
  function StoredLength(padded: seq<Byte>): nat
    requires |padded| >= 8
  {
    Value(MessageBits(padded[|padded| - 8..]))
  }

  function Unpad(padded: seq<Byte>): seq<Byte>
    requires |padded| >= 8 && StoredLength(padded) / 8 <= |padded|
  {
    padded[..StoredLength(padded) / 8]
  }

  /** Padding is reversible. */
  lemma UnpadPad(str: seq<Byte>)
    requires PadMessage(str).Some?
    ensures var p := PadMessage(str).value;
            |p| >= 8 && StoredLength(p) == 8 * |str| && Unpad(p) == str
  {
    var n := |str| * 8;
    var p := PadMessage(str).value;
    PadShape(str);
    assert p[|p| - 8..] == LengthBytes(n);
    LengthBits(n);
    Pow2Values();
    ValueOfBits(64, n);
  }

  lemma PadInjective(s: seq<Byte>, t: seq<Byte>)
    requires PadMessage(s).Some? && PadMessage(s) == PadMessage(t)
    ensures s == t
  {
    UnpadPad(s);
    UnpadPad(t);
  }
}
