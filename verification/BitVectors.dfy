/**
 * Words as bit vectors of width 32, with which the solver can compute: the bitwise functions and rotations
 * of FIPS 180-4 and the number a word denotes.
 */
module BitVectors {
  import opened Bits
  import opened Fips180

  function Half(m: bv32): bv32 { m >> 1 }

  /** The bit vector with a one in position i only, counted from the most significant bit. */
  function Mask(i: nat): bv32
    requires i < 32
  {
    if i == 0 then 0x80000000 else Half(Mask(i - 1))
  }

  lemma MaskValues()
    ensures Mask(0) == 0x80000000 && Mask(1) == 0x40000000 && Mask(2) == 0x20000000 && Mask(3) == 0x10000000
    ensures Mask(4) == 0x08000000 && Mask(5) == 0x04000000 && Mask(6) == 0x02000000 && Mask(7) == 0x01000000
    ensures Mask(8) == 0x00800000 && Mask(9) == 0x00400000 && Mask(10) == 0x00200000 && Mask(11) == 0x00100000
    ensures Mask(12) == 0x00080000 && Mask(13) == 0x00040000 && Mask(14) == 0x00020000 && Mask(15) == 0x00010000
    ensures Mask(16) == 0x00008000 && Mask(17) == 0x00004000 && Mask(18) == 0x00002000 && Mask(19) == 0x00001000
    ensures Mask(20) == 0x00000800 && Mask(21) == 0x00000400 && Mask(22) == 0x00000200 && Mask(23) == 0x00000100
    ensures Mask(24) == 0x00000080 && Mask(25) == 0x00000040 && Mask(26) == 0x00000020 && Mask(27) == 0x00000010
    ensures Mask(28) == 0x00000008 && Mask(29) == 0x00000004 && Mask(30) == 0x00000002 && Mask(31) == 0x00000001
  {
  }

  predicate Single(m: bv32) { m != 0 && m & (m - 1) == 0 }

  /** What x has of the bits of m. */
  function Only(x: bv32, m: bv32): bv32 { x & m }

  predicate Bit(x: bv32, m: bv32) { Only(x, m) != 0 }

  function OfVector(x: bv32): (w: Word)
    ensures forall i :: 0 <= i < 32 ==> w[i] == Bit(x, Mask(i))
  {
    seq(32, i requires 0 <= i < 32 => Bit(x, Mask(i)))
  }

  lemma SingleBit(i: nat)
    requires i < 32
    ensures Single(Mask(i))
  {
    MaskValues();
  }

  function AndOf(x: bv32, y: bv32): bv32 { x & y }

  function XorOf(x: bv32, y: bv32): bv32 { x ^ y }

  function NotOf(x: bv32): bv32 { !x }

  lemma Distributes(x: bv32, y: bv32, m: bv32)
    ensures (x & y) & m == (x & m) & (y & m)
    ensures (x ^ y) & m == (x & m) ^ (y & m)
    ensures (!x) & m == m ^ (x & m)
  {
  }

  lemma MaskedAnd(x: bv32, y: bv32, m: bv32)
    ensures Only(AndOf(x, y), m) == AndOf(Only(x, m), Only(y, m))
  {
    calc {
      Only(AndOf(x, y), m);
      (x & y) & m;
      { Distributes(x, y, m); }
      (x & m) & (y & m);
      AndOf(Only(x, m), Only(y, m));
    }
  }

  lemma MaskedXor(x: bv32, y: bv32, m: bv32)
    ensures Only(XorOf(x, y), m) == XorOf(Only(x, m), Only(y, m))
  {
    calc {
      Only(XorOf(x, y), m);
      (x ^ y) & m;
      { Distributes(x, y, m); }
      (x & m) ^ (y & m);
      XorOf(Only(x, m), Only(y, m));
    }
  }

  lemma MaskedNot(x: bv32, m: bv32)
    ensures Only(NotOf(x), m) == XorOf(m, Only(x, m))
  {
    calc {
      Only(NotOf(x), m);
      (!x) & m;
      { Distributes(x, x, m); }
      m ^ (x & m);
      XorOf(m, Only(x, m));
    }
  }

  lemma AllOrNothing(x: bv32, m: bv32)
    requires Single(m)
    ensures Only(x, m) == 0 || Only(x, m) == m
  {
  }

  lemma OfItself(m: bv32)
    ensures AndOf(m, m) == m && AndOf(m, 0) == 0 && AndOf(0, m) == 0 && AndOf(0, 0) == 0
    ensures XorOf(m, m) == 0 && XorOf(m, 0) == m && XorOf(0, m) == m && XorOf(0, 0) == 0
  {
  }

  lemma OfOneBit(p: bv32, q: bv32, m: bv32)
    requires (p == 0 || p == m) && (q == 0 || q == m) && m != 0
    ensures AndOf(p, q) != 0 <==> p != 0 && q != 0
    ensures XorOf(p, q) != 0 <==> (p != 0) != (q != 0)
    ensures XorOf(m, p) != 0 <==> p == 0
  {
    OfItself(m);
    hide *;
  }

  lemma NotNothing(m: bv32)
    requires Single(m)
    ensures m != 0
  {
  }

  lemma BitOf(x: bv32, y: bv32, m: bv32)
    requires Single(m)
    ensures Bit(AndOf(x, y), m) == (Bit(x, m) && Bit(y, m))
    ensures Bit(XorOf(x, y), m) == (Bit(x, m) != Bit(y, m))
    ensures Bit(NotOf(x), m) == !Bit(x, m)
  {
    hide AndOf, XorOf, NotOf, Only, Single;
    NotNothing(m);
    MaskedAnd(x, y, m);
    MaskedXor(x, y, m);
    MaskedNot(x, m);
    AllOrNothing(x, m);
    AllOrNothing(y, m);
    OfOneBit(Only(x, m), Only(y, m), m);
  }

  lemma BitAt(x: bv32, y: bv32, i: nat)
    requires i < 32
    ensures Bit(AndOf(x, y), Mask(i)) == (Bit(x, Mask(i)) && Bit(y, Mask(i)))
    ensures Bit(XorOf(x, y), Mask(i)) == (Bit(x, Mask(i)) != Bit(y, Mask(i)))
    ensures Bit(NotOf(x), Mask(i)) == !Bit(x, Mask(i))
  {
    hide Bit, Mask, AndOf, XorOf, NotOf, Single;
    SingleBit(i);
    BitOf(x, y, Mask(i));
  }

  lemma Same(v: Word, w: Word)
    requires forall i :: 0 <= i < 32 ==> v[i] == w[i]
    ensures v == w
  {
  }

  lemma AndVectors(x: bv32, y: bv32)
    ensures OfVector(AndOf(x, y)) == And(OfVector(x), OfVector(y))
  {
    hide Bit, Mask, OfVector, AndOf, XorOf, NotOf;
    forall i | 0 <= i < 32
      ensures OfVector(AndOf(x, y))[i] == And(OfVector(x), OfVector(y))[i]
    {
      BitAt(x, y, i);
    }
    Same(OfVector(AndOf(x, y)), And(OfVector(x), OfVector(y)));
  }

  lemma XorVectors(x: bv32, y: bv32)
    ensures OfVector(XorOf(x, y)) == Xor(OfVector(x), OfVector(y))
  {
    hide Bit, Mask, OfVector, AndOf, XorOf, NotOf;
    forall i | 0 <= i < 32
      ensures OfVector(XorOf(x, y))[i] == Xor(OfVector(x), OfVector(y))[i]
    {
      BitAt(x, y, i);
    }
    Same(OfVector(XorOf(x, y)), Xor(OfVector(x), OfVector(y)));
  }

  lemma NotVector(x: bv32)
    ensures OfVector(NotOf(x)) == Not(OfVector(x))
  {
    hide Bit, Mask, OfVector, AndOf, XorOf, NotOf;
    forall i | 0 <= i < 32
      ensures OfVector(NotOf(x))[i] == Not(OfVector(x))[i]
    {
      BitAt(x, x, i);
    }
    Same(OfVector(NotOf(x)), Not(OfVector(x)));
  }

  // ---- The number of a vector ----

  /** The octet of x that starts at the bit of m. */
  function OctetNumber(x: bv32, m: bv32): nat
  {
    128 * BitValue(Bit(x, m)) + 64 * BitValue(Bit(x, m >> 1)) + 32 * BitValue(Bit(x, m >> 2))
    + 16 * BitValue(Bit(x, m >> 3)) + 8 * BitValue(Bit(x, m >> 4)) + 4 * BitValue(Bit(x, m >> 5))
    + 2 * BitValue(Bit(x, m >> 6)) + BitValue(Bit(x, m >> 7))
  }

  function Number(x: bv32): nat
  {
    0x100_0000 * OctetNumber(x, 0x80000000) + 0x1_0000 * OctetNumber(x, 0x800000)
    + 0x100 * OctetNumber(x, 0x8000) + OctetNumber(x, 0x80)
  }

  lemma ValueStep(w: Word, n: nat)
    requires n < 32
    ensures Value(w[..n + 1]) == 2 * Value(w[..n]) + BitValue(w[n])
  {
    assert w[..n + 1][..n] == w[..n];
  }

  lemma ValueOctet(w: Word, n: nat)
    requires n <= 24
    ensures Value(w[..n + 8]) == 256 * Value(w[..n])
         + 128 * BitValue(w[n + 0]) + 64 * BitValue(w[n + 1]) + 32 * BitValue(w[n + 2]) + 16 * BitValue(w[n + 3])
         + 8 * BitValue(w[n + 4]) + 4 * BitValue(w[n + 5]) + 2 * BitValue(w[n + 6]) + 1 * BitValue(w[n + 7])
  {
    hide Value;
    ValueStep(w, n);
    ValueStep(w, n + 1);
    ValueStep(w, n + 2);
    ValueStep(w, n + 3);
    ValueStep(w, n + 4);
    ValueStep(w, n + 5);
    ValueStep(w, n + 6);
    ValueStep(w, n + 7);
  }

  predicate MasksFrom(n: nat, m: bv32)
    requires n <= 24
  {
    && Mask(n) == m && Mask(n + 1) == m >> 1 && Mask(n + 2) == m >> 2 && Mask(n + 3) == m >> 3
    && Mask(n + 4) == m >> 4 && Mask(n + 5) == m >> 5 && Mask(n + 6) == m >> 6 && Mask(n + 7) == m >> 7
  }

  lemma OctetMasks()
    ensures MasksFrom(0, 0x80000000) && MasksFrom(8, 0x800000) && MasksFrom(16, 0x8000) && MasksFrom(24, 0x80)
  {
    MaskValues();
  }

  lemma VectorOctet(x: bv32, n: nat, m: bv32)
    requires n <= 24 && MasksFrom(n, m)
    ensures Value(OfVector(x)[..n + 8]) == 256 * Value(OfVector(x)[..n]) + OctetNumber(x, m)
  {
    ValueOctet(OfVector(x), n);
    hide Value, Mask, Bit, BitValue;
  }

  lemma WholeVector(x: bv32)
    ensures Value(OfVector(x)[..0]) == 0 && OfVector(x)[..32] == OfVector(x)
  {
  }

  lemma NumberIsValue(x: bv32)
    ensures Value(OfVector(x)) == Number(x)
  {
    hide *;
    OctetMasks();
    WholeVector(x);
    VectorOctet(x, 0, 0x80000000);
    VectorOctet(x, 8, 0x800000);
    VectorOctet(x, 16, 0x8000);
    VectorOctet(x, 24, 0x80);
    NumberUnfold(x);
  }

  lemma NumberUnfold(x: bv32)
    ensures Number(x) == 256 * (256 * (256 * OctetNumber(x, 0x80000000) + OctetNumber(x, 0x800000))
                                + OctetNumber(x, 0x8000)) + OctetNumber(x, 0x80)
  {
  }

  // ---- Rotations ----

  function Rotate1(x: bv32): bv32 { (x << 1) | (x >> 31) }

  function Rotate5(x: bv32): bv32 { (x << 5) | (x >> 27) }

  function Rotate30(x: bv32): bv32 { (x << 30) | (x >> 2) }

  lemma RotatedBit(x: bv32, m: bv32)
    ensures Bit(Rotate1(x), Rotate1(m)) == Bit(x, m)
  {
  }

  lemma RotateBack(m: bv32)
    requires Single(m) && m >> 1 != 0
    ensures Rotate1(m >> 1) == m
  {
  }

  lemma RotateHalf(m: bv32)
    requires Single(m) && Single(Half(m))
    ensures Rotate1(Half(m)) == m
  {
    RotateBack(m);
  }

  lemma MaskNext(i: nat)
    requires i < 31
    ensures Mask(i + 1) == Half(Mask(i))
  {
    hide Half;
  }

  lemma LastMask()
    ensures Rotate1(Mask(0)) == Mask(31)
  {
    MaskValues();
  }

  lemma RotatedMask(i: nat)
    requires i < 31
    ensures Rotate1(Mask(i + 1)) == Mask(i)
  {
    hide *;
    MaskNext(i);
    SingleBit(i);
    SingleBit(i + 1);
    RotateHalf(Mask(i));
  }

  lemma RotateVector1(x: bv32)
    ensures OfVector(Rotate1(x)) == Rotl(OfVector(x), 1)
  {
    hide Bit, Mask, Rotate1, OfVector;
    forall i | 0 <= i < 32
      ensures OfVector(Rotate1(x))[i] == Rotl(OfVector(x), 1)[i]
    {
      if i < 31 {
        RotatedMask(i);
        RotatedBit(x, Mask(i + 1));
      } else {
        LastMask();
        RotatedBit(x, Mask(0));
      }
    }
    Same(OfVector(Rotate1(x)), Rotl(OfVector(x), 1));
  }

  lemma RotateSteps(x: bv32)
    ensures Rotate5(x) == Rotate1(Rotate1(Rotate1(Rotate1(Rotate1(x)))))
    ensures Rotate1(Rotate1(Rotate30(x))) == x
  {
  }

  lemma RotateVector5(x: bv32)
    ensures OfVector(Rotate5(x)) == Rotl(OfVector(x), 5)
  {
    RotateSteps(x);
    var w := OfVector(x);
    hide *;
    RotateVector1(x);
    RotateVector1(Rotate1(x));
    RotateVector1(Rotate1(Rotate1(x)));
    RotateVector1(Rotate1(Rotate1(Rotate1(x))));
    RotateVector1(Rotate1(Rotate1(Rotate1(Rotate1(x)))));
    RotlCompose(w, 1, 1);
    RotlCompose(w, 2, 1);
    RotlCompose(w, 3, 1);
    RotlCompose(w, 4, 1);
  }

  lemma RotateVector30(x: bv32)
    ensures OfVector(Rotate30(x)) == Rotl(OfVector(x), 30)
  {
    RotateSteps(x);
    var w := OfVector(Rotate30(x));
    RotlZero(w);
    hide *;
    RotateVector1(Rotate30(x));
    RotateVector1(Rotate1(Rotate30(x)));
    RotlCompose(w, 1, 1);
    RotlCompose(w, 2, 30);
  }

  lemma RotlZero(w: Word)
    ensures Rotl(w, 0) == w
  {
  }

  /** The number bit by bit, for the solver to compute. */
  function NumberOf(x: bv32): nat
  {
    (if x & 0x80000000 != 0 then 0x80000000 else 0) + (if x & 0x40000000 != 0 then 0x40000000 else 0)
    + (if x & 0x20000000 != 0 then 0x20000000 else 0) + (if x & 0x10000000 != 0 then 0x10000000 else 0)
    + (if x & 0x08000000 != 0 then 0x8000000 else 0) + (if x & 0x04000000 != 0 then 0x4000000 else 0)
    + (if x & 0x02000000 != 0 then 0x2000000 else 0) + (if x & 0x01000000 != 0 then 0x1000000 else 0)
    + (if x & 0x00800000 != 0 then 0x800000 else 0) + (if x & 0x00400000 != 0 then 0x400000 else 0)
    + (if x & 0x00200000 != 0 then 0x200000 else 0) + (if x & 0x00100000 != 0 then 0x100000 else 0)
    + (if x & 0x00080000 != 0 then 0x80000 else 0) + (if x & 0x00040000 != 0 then 0x40000 else 0)
    + (if x & 0x00020000 != 0 then 0x20000 else 0) + (if x & 0x00010000 != 0 then 0x10000 else 0)
    + (if x & 0x00008000 != 0 then 0x8000 else 0) + (if x & 0x00004000 != 0 then 0x4000 else 0)
    + (if x & 0x00002000 != 0 then 0x2000 else 0) + (if x & 0x00001000 != 0 then 0x1000 else 0)
    + (if x & 0x00000800 != 0 then 0x800 else 0) + (if x & 0x00000400 != 0 then 0x400 else 0)
    + (if x & 0x00000200 != 0 then 0x200 else 0) + (if x & 0x00000100 != 0 then 0x100 else 0)
    + (if x & 0x00000080 != 0 then 0x80 else 0) + (if x & 0x00000040 != 0 then 0x40 else 0)
    + (if x & 0x00000020 != 0 then 0x20 else 0) + (if x & 0x00000010 != 0 then 0x10 else 0)
    + (if x & 0x00000008 != 0 then 0x8 else 0) + (if x & 0x00000004 != 0 then 0x4 else 0)
    + (if x & 0x00000002 != 0 then 0x2 else 0) + (if x & 0x00000001 != 0 then 0x1 else 0)
  }

  lemma Octet0(x: bv32)
    ensures 0x1000000 * OctetNumber(x, 0x80000000)
         == (if x & 0x80000000 != 0 then 0x80000000 else 0) + (if x & 0x40000000 != 0 then 0x40000000 else 0)
          + (if x & 0x20000000 != 0 then 0x20000000 else 0) + (if x & 0x10000000 != 0 then 0x10000000 else 0)
          + (if x & 0x08000000 != 0 then 0x8000000 else 0) + (if x & 0x04000000 != 0 then 0x4000000 else 0)
          + (if x & 0x02000000 != 0 then 0x2000000 else 0) + (if x & 0x01000000 != 0 then 0x1000000 else 0)
  {
  }

  lemma Octet1(x: bv32)
    ensures 0x10000 * OctetNumber(x, 0x00800000)
         == (if x & 0x00800000 != 0 then 0x800000 else 0) + (if x & 0x00400000 != 0 then 0x400000 else 0)
          + (if x & 0x00200000 != 0 then 0x200000 else 0) + (if x & 0x00100000 != 0 then 0x100000 else 0)
          + (if x & 0x00080000 != 0 then 0x80000 else 0) + (if x & 0x00040000 != 0 then 0x40000 else 0)
          + (if x & 0x00020000 != 0 then 0x20000 else 0) + (if x & 0x00010000 != 0 then 0x10000 else 0)
  {
  }

  lemma Octet2(x: bv32)
    ensures 0x100 * OctetNumber(x, 0x00008000)
         == (if x & 0x00008000 != 0 then 0x8000 else 0) + (if x & 0x00004000 != 0 then 0x4000 else 0)
          + (if x & 0x00002000 != 0 then 0x2000 else 0) + (if x & 0x00001000 != 0 then 0x1000 else 0)
          + (if x & 0x00000800 != 0 then 0x800 else 0) + (if x & 0x00000400 != 0 then 0x400 else 0)
          + (if x & 0x00000200 != 0 then 0x200 else 0) + (if x & 0x00000100 != 0 then 0x100 else 0)
  {
  }

  lemma Octet3(x: bv32)
    ensures 0x1 * OctetNumber(x, 0x00000080)
         == (if x & 0x00000080 != 0 then 0x80 else 0) + (if x & 0x00000040 != 0 then 0x40 else 0)
          + (if x & 0x00000020 != 0 then 0x20 else 0) + (if x & 0x00000010 != 0 then 0x10 else 0)
          + (if x & 0x00000008 != 0 then 0x8 else 0) + (if x & 0x00000004 != 0 then 0x4 else 0)
          + (if x & 0x00000002 != 0 then 0x2 else 0) + (if x & 0x00000001 != 0 then 0x1 else 0)
  {
  }

  lemma NumberOfIsNumber(x: bv32)
    ensures NumberOf(x) == Number(x)
  {
    Octet0(x);
    Octet1(x);
    Octet2(x);
    Octet3(x);
    hide OctetNumber;
  }
}
