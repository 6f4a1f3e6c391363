/**
 * The SHA-1 computation of lua/sha1/init.lua, for every operator back end, against FIPS 180-4.
 */
module Sha1 {
  import opened Bits
  import opened Fips180
  import opened MachineOps
  import opened WordOps
  import opened BackEnds
  import opened Messages
  import opened Wrappers

  const EXACT := 0x20_0000_0000_0000  // 2^53: below it a Lua double is an exact integer

  // ---- Arithmetic of one round ----

  /** Lua numbers represent the integer exactly. */
  predicate IsExact(x: int) { -EXACT < x < EXACT }

  /** Reducing the sum of five numbers once adds the words they stand for; every partial sum is exact. */
  lemma SumCorrect(ops: Ops, a: int, b: int, c: int, d: int, e: int, v: Word, w: Word, x: Word, y: Word, z: Word)
    requires ops.Holds(a, v) && ops.Holds(b, w) && ops.Holds(c, x) && d == Value(y) && ops.Holds(e, z)
    ensures IsExact(a + b) && IsExact(a + b + c) && IsExact(a + b + c + d) && IsExact(a + b + c + d + e)
    ensures ops.Holds((a + b + c + d + e) % TWO32, Add(Add(Add(Add(v, w), x), y), z))
  {
    Bounds(ops, a, v);
    Bounds(ops, b, w);
    Bounds(ops, c, x);
    Bounds(ops, e, z);
    WordBounds(y);
    SumOfStandIns(a, b, c, d, e, v, w, x, y, z);
    ReducedHolds(ops, a + b + c + d + e, Add(Add(Add(Add(v, w), x), y), z));
  }

  lemma Bounds(ops: Ops, x: int, w: Word)
    requires ops.Holds(x, w)
    ensures -TWO32 < x < TWO32 && x % TWO32 == Value(w)
  {
    ops.HoldsNumber(x, w);
  }

  lemma ReducedHolds(ops: Ops, sum: int, w: Word)
    requires sum % TWO32 == Value(w)
    ensures ops.Holds(sum % TWO32, w)
  {
  }

  /** The numbers a, b, c, d, e stand for the working variables h. */
  ghost predicate State(ops: Ops, a: int, b: int, c: int, d: int, e: int, h: Hash)
  {
    ops.Holds(a, h.a) && ops.Holds(b, h.b) && ops.Holds(c, h.c) && ops.Holds(d, h.d) && ops.Holds(e, h.e)
  }

  /** The w table stands for the first n words of the message schedule. */
  ghost predicate Loaded(ops: Ops, w: seq<int>, ws: seq<Word>, n: nat)
    requires n <= |w| == |ws|
  {
    forall j :: 0 <= j < n ==> ops.Holds(w[j], ws[j])
  }

  // ---- The chunk ----

  method LoadChunk(ops: Ops, str: seq<Byte>, chunkStart: nat, w: array<int>)
    requires ops.Ready() && w.Length == 80 && 1 <= chunkStart && chunkStart + 63 <= |str|
    modifies w
    ensures Loaded(ops, w[..], Schedule(MessageBits(str[chunkStart - 1..chunkStart + 63])), 80)
  {
    ghost var block: Block := MessageBits(str[chunkStart - 1..chunkStart + 63]);
    ghost var ws := Schedule(block);
    var uint32Start := chunkStart;
    for i := 0 to 16
      invariant uint32Start == chunkStart + 4 * i
      invariant Loaded(ops, w[..], ws, i)
    {
      var b1, b2, b3, b4 := str[uint32Start - 1], str[uint32Start], str[uint32Start + 1], str[uint32Start + 2];
      ghost var before := w[..];
      w[i] := BytesToUint32(b1, b2, b3, b4);
      assert w[..] == before[i := w[i]];
      WordLoaded(ops, str, chunkStart, i);
      uint32Start := uint32Start + 4;
    }
    for i := 16 to 80
      invariant Loaded(ops, w[..], ws, i)
    {
      ghost var before := w[..];
      LoadedAt(ops, w[..], ws, i, i - 3);
      LoadedAt(ops, w[..], ws, i, i - 8);
      LoadedAt(ops, w[..], ws, i, i - 14);
      LoadedAt(ops, w[..], ws, i, i - 16);
      w[i] := ExtendWord(ops, w[i - 3], w[i - 8], w[i - 14], w[i - 16], ws[i - 3], ws[i - 8], ws[i - 14], ws[i - 16]);
      ScheduleStep(block, i);
      assert w[..] == before[i := w[i]];
    }
  }

  lemma WordLoaded(ops: Ops, str: seq<Byte>, chunkStart: nat, i: nat)
    requires 1 <= chunkStart && chunkStart + 63 <= |str| && i < 16
    ensures var j := chunkStart - 1 + 4 * i;
            ops.Holds(BytesToUint32(str[j], str[j + 1], str[j + 2], str[j + 3]),
                      W(MessageBits(str[chunkStart - 1..chunkStart + 63]), i))
  {
    var chunk := str[chunkStart - 1..chunkStart + 63];
    var (p, j) := (4 * i, chunkStart - 1 + 4 * i);
    assert chunk[p..p + 4] == [str[j], str[j + 1], str[j + 2], str[j + 3]];
    BitsSlice(chunk, p, p + 4);
    BitsOfFour(str[j], str[j + 1], str[j + 2], str[j + 3]);
    assert W(MessageBits(chunk), i) == MessageBits(chunk)[8 * p..8 * (p + 4)];
    ValueHolds(ops, W(MessageBits(chunk), i));
  }

  lemma ValueHolds(ops: Ops, w: Word)
    ensures ops.Holds(Value(w), w)
  {
    WordBounds(w);
  }

  /** The rotated xor of four earlier words. */
  method ExtendWord(ops: Ops, a: int, b: int, c: int, d: int,
                    ghost s: Word, ghost t: Word, ghost u: Word, ghost v: Word)
    returns (r: int)
    requires ops.Ready() && ops.Holds(a, s) && ops.Holds(b, t) && ops.Holds(c, u) && ops.Holds(d, v)
    ensures ops.Holds(r, Rotl(Xor(Xor(Xor(s, t), u), v), 1))
  {
    ops.Xor4Correct(a, b, c, d, s, t, u, v);
    ops.LrotCorrect(ops.Xor4(a, b, c, d), Xor(Xor(Xor(s, t), u), v), 1);
    r := ops.Lrot(ops.Xor4(a, b, c, d), 1);
  }

  lemma ScheduleStep(block: Block, i: nat)
    requires 16 <= i < 80
    ensures var ws := Schedule(block);
            ws[i] == Rotl(Xor(Xor(Xor(ws[i - 3], ws[i - 8]), ws[i - 14]), ws[i - 16]), 1)
  {
  }

  /** f and k of round i. */
  method RoundFunction(ops: Ops, i: nat, b: int, c: int, d: int, ghost h: Hash) returns (f: int, k: int)
    requires ops.Ready() && i < 80 && ops.Holds(b, h.b) && ops.Holds(c, h.c) && ops.Holds(d, h.d)
    ensures ops.Holds(f, F(i, h.b, h.c, h.d)) && k == Value(K(i))
  {
    ops.HoldsNumber(b, h.b);
    ops.HoldsNumber(c, h.c);
    ops.HoldsNumber(d, h.d);
    if i <= 19 {
      ops.TernaryCorrect(b, c, d, h.b, h.c, h.d);
      f := ops.Ternary(b, c, d);
      k := 0x5A827999;
    } else if i <= 39 {
      ops.Xor3Correct(b, c, d, h.b, h.c, h.d);
      f := ops.Xor3(b, c, d);
      k := 0x6ED9EBA1;
    } else if i <= 59 {
      ops.MajorityCorrect(b, c, d, h.b, h.c, h.d);
      f := ops.Majority(b, c, d);
      k := 0x8F1BBCDC;
    } else {
      ops.Xor3Correct(b, c, d, h.b, h.c, h.d);
      f := ops.Xor3(b, c, d);
      k := 0xCA62C1D6;
    }
    WordNumber(k);
  }

  method Rotate(ops: Ops, a: int, bits: nat, ghost w: Word) returns (r: int)
    requires ops.Ready() && ops.Holds(a, w) && bits <= 32
    ensures ops.Holds(r, Rotl(w, bits))
  {
    ops.LrotCorrect(a, w, bits);
    r := ops.Lrot(a, bits);
  }

  /** One pass through the loop body performs one round; the sum it reduces is exact. */
  lemma RoundCorrect(ops: Ops, i: nat, a: int, b: int, c: int, d: int, e: int,
                     a5: int, b30: int, f: int, k: int, wi: int, w: Word, h: Hash)
    requires i < 80 && State(ops, a, b, c, d, e, h) && ops.Holds(wi, w)
    requires ops.Holds(a5, Rotl(h.a, 5)) && ops.Holds(b30, Rotl(h.b, 30))
    requires ops.Holds(f, F(i, h.b, h.c, h.d)) && k == Value(K(i))
    ensures -EXACT < a5 + f + e + k + wi < EXACT
    ensures State(ops, (a5 + f + e + k + wi) % TWO32, a, b30, c, d, Round(i, w, h))
  {
    SumCorrect(ops, a5, f, e, k, wi, Rotl(h.a, 5), F(i, h.b, h.c, h.d), h.e, K(i), w);
  }

  /** The body of the main loop: one round. */
  method OneRound(ops: Ops, i: nat, a: int, b: int, c: int, d: int, e: int, wi: int, ghost w: Word, ghost h: Hash)
    returns (a': int, b': int, c': int, d': int, e': int)
    requires ops.Ready() && i < 80 && State(ops, a, b, c, d, e, h) && ops.Holds(wi, w)
    ensures State(ops, a', b', c', d', e', Round(i, w, h))
  {
    var f, k := RoundFunction(ops, i, b, c, d, h);
    var a5 := Rotate(ops, a, 5, h.a);
    var b30 := Rotate(ops, b, 30, h.b);
    RoundCorrect(ops, i, a, b, c, d, e, a5, b30, f, k, wi, w, h);
    var temp := (a5 + f + e + k + wi) % TWO32;
    e' := d;
    d' := c;
    c' := b30;
    b' := a;
    a' := temp;
  }

  /** The 80 rounds on one chunk. */
  method MainLoop(ops: Ops, w: array<int>, h0: int, h1: int, h2: int, h3: int, h4: int,
                  ghost ws: seq<Word>, ghost h: Hash)
    returns (a: int, b: int, c: int, d: int, e: int)
    requires ops.Ready() && w.Length == |ws| == 80 && Loaded(ops, w[..], ws, 80) && State(ops, h0, h1, h2, h3, h4, h)
    ensures State(ops, a, b, c, d, e, Rounds(ws, h))
  {
    hide *;
    a, b, c, d, e := h0, h1, h2, h3, h4;
    RoundsStart(ws, h);
    for i := 0 to 80
      invariant State(ops, a, b, c, d, e, Rounds(ws[..i], h))
    {
      LoadedAt(ops, w[..], ws, 80, i);
      a, b, c, d, e := OneRound(ops, i, a, b, c, d, e, w[i], ws[i], Rounds(ws[..i], h));
      RoundsNext(ws, h, i);
    }
    assert ws[..80] == ws;
  }

  lemma LoadedAt(ops: Ops, w: seq<int>, ws: seq<Word>, n: nat, i: nat)
    requires i < n <= |w| == |ws| && Loaded(ops, w, ws, n)
    ensures ops.Holds(w[i], ws[i])
  {
  }

  lemma RoundsStart(ws: seq<Word>, h: Hash)
    requires |ws| <= 80
    ensures Rounds(ws[..0], h) == h
  {
  }

  lemma RoundsNext(ws: seq<Word>, h: Hash, i: nat)
    requires i < |ws| <= 80
    ensures Rounds(ws[..i + 1], h) == Round(i, ws[i], Rounds(ws[..i], h))
  {
    var p := ws[..i + 1];
    assert |p| == i + 1 && p[|p| - 1] == ws[i] && p[..|p| - 1] == ws[..i];
  }

  // ---- Hexadecimal output ----

  function HexDigit(d: nat): char
    requires d < 16
  {
    "0123456789abcdef"[d]
  }

  /** The low n hexadecimal digits of x, as the format %08x prints them for n = 8. */
  function Hex(n: nat, x: nat): (s: string)
    ensures |s| == n
  {
    if n == 0 then "" else Hex(n - 1, x / 16) + [HexDigit(x % 16)]
  }

  function HexWord(w: Word): string { Hex(8, Value(w)) }

  function DigestHex(h: Hash): (s: string)
    ensures |s| == 40
  {
    HexWord(h.a) + HexWord(h.b) + HexWord(h.c) + HexWord(h.d) + HexWord(h.e)
  }

  // ---- The whole function ----

  /** The numbers h0..h4 are the words of a hash value. */
  ghost predicate Exactly(h0: int, h1: int, h2: int, h3: int, h4: int, h: Hash)
  {
    h0 == Value(h.a) && h1 == Value(h.b) && h2 == Value(h.c) && h3 == Value(h.d) && h4 == Value(h.e)
  }

  lemma InitialValues()
    ensures Exactly(0x67452301, 0xEFCDAB89, 0x98BADCFE, 0x10325476, 0xC3D2E1F0, Initial())
  {
    WordNumber(0x67452301);
    WordNumber(0xEFCDAB89);
    WordNumber(0x98BADCFE);
    WordNumber(0x10325476);
    WordNumber(0xC3D2E1F0);
  }

  lemma ExactState(ops: Ops, h0: int, h1: int, h2: int, h3: int, h4: int, h: Hash)
    requires Exactly(h0, h1, h2, h3, h4, h)
    ensures State(ops, h0, h1, h2, h3, h4, h)
  {
    ValueHolds(ops, h.a);
    ValueHolds(ops, h.b);
    ValueHolds(ops, h.c);
    ValueHolds(ops, h.d);
    ValueHolds(ops, h.e);
  }

  lemma AddMod(x: int, y: int, v: int)
    requires y % TWO32 == v
    ensures (x + y) % TWO32 == (v + x) % TWO32
  {
  }

  lemma Accumulate(ops: Ops, x: int, y: int, v: Word, w: Word)
    requires x == Value(w) && ops.Holds(y, v)
    ensures IsExact(x + y) && (x + y) % TWO32 == Value(Add(v, w))
  {
    WordBounds(w);
    hide Add, Value;
    Bounds(ops, y, v);
    AddValue(v, w);
    AddMod(x, y, Value(v));
  }

  lemma BlockOfChunk(padded: seq<Byte>, n: nat)
    requires 64 * (n + 1) <= |padded|
    ensures BlockAt(MessageBits(padded), n) == MessageBits(padded[64 * n..64 * n + 64])
  {
    BitsSlice(padded, 64 * n, 64 * n + 64);
  }

  /** One chunk: h0..h4 are replaced by their sums with the outcome of the 80 rounds. */
  method ProcessChunk(ops: Ops, str: seq<Byte>, chunkStart: nat, w: array<int>,
                      h0: int, h1: int, h2: int, h3: int, h4: int, ghost h: Hash)
    returns (g0: int, g1: int, g2: int, g3: int, g4: int)
    requires ops.Ready() && w.Length == 80 && 1 <= chunkStart && chunkStart + 63 <= |str|
    requires Exactly(h0, h1, h2, h3, h4, h)
    modifies w
    ensures Exactly(g0, g1, g2, g3, g4, Compress(MessageBits(str[chunkStart - 1..chunkStart + 63]), h))
  {
    LoadChunk(ops, str, chunkStart, w);
    ghost var ws := Schedule(MessageBits(str[chunkStart - 1..chunkStart + 63]));
    ExactState(ops, h0, h1, h2, h3, h4, h);
    var a, b, c, d, e := MainLoop(ops, w, h0, h1, h2, h3, h4, ws, h);
    ghost var r := Rounds(ws, h);
    Accumulate(ops, h0, a, r.a, h.a);
    Accumulate(ops, h1, b, r.b, h.b);
    Accumulate(ops, h2, c, r.c, h.c);
    Accumulate(ops, h3, d, r.d, h.d);
    Accumulate(ops, h4, e, r.e, h.e);
    g0 := (h0 + a) % TWO32;
    g1 := (h1 + b) % TWO32;
    g2 := (h2 + c) % TWO32;
    g3 := (h3 + d) % TWO32;
    g4 := (h4 + e) % TWO32;
  }

  lemma HashStart(padded: seq<Byte>)
    ensures HashAfter(MessageBits(padded), 0) == Initial()
  {
  }

  /** All chunks of a padded string in turn. */
  method ProcessChunks(ops: Ops, str: seq<Byte>) returns (h0: int, h1: int, h2: int, h3: int, h4: int)
    requires ops.Ready() && |str| % 64 == 0
    ensures Exactly(h0, h1, h2, h3, h4, HashAfter(MessageBits(str), |str| / 64))
  {
    hide *;
    InitialValues();
    HashStart(str);
    h0, h1, h2, h3, h4 := 0x67452301, 0xEFCDAB89, 0x98BADCFE, 0x10325476, 0xC3D2E1F0;
    var w := new int[80];
    var chunkStart := 1;
    ghost var n := 0;
    while chunkStart <= |str|
      invariant chunkStart == 64 * n + 1 && 64 * n <= |str|
      invariant Exactly(h0, h1, h2, h3, h4, HashAfter(MessageBits(str), n))
    {
      ghost var h := HashAfter(MessageBits(str), n);
      BlockOfChunk(str, n);
      HashNext(MessageBits(str), n);
      h0, h1, h2, h3, h4 := ProcessChunk(ops, str, chunkStart, w, h0, h1, h2, h3, h4, h);
      chunkStart := chunkStart + 64;
      n := n + 1;
    }
  }

  /**
   * For every back end and every string: below 2^29 bytes the result is the hexadecimal form of the
   * SHA-1 of the string's bits, and from 2^29 bytes on there is no result.
   */
  method Sha1(ops: Ops, str: seq<Byte>) returns (r: Option<string>)
    requires ops.Ready()
    ensures |str| >= 0x2000_0000 ==> r == None
    ensures |str| < 0x2000_0000 ==> 8 * |str| < Pow2(64) && r == Some(DigestHex(Fips180.Sha1(MessageBits(str))))
  {
    hide *;
    PadMessageCorrect(str);
    if PadMessage(str).None? {
      return None;
    }
    PaddedLength(str, 0);
    var h0, h1, h2, h3, h4 := ProcessChunks(ops, PadMessage(str).value);
    Sha1OfPadded(str, PadMessage(str).value);
    DigestOfNumbers(h0, h1, h2, h3, h4, HashAfter(MessageBits(PadMessage(str).value), |PadMessage(str).value| / 64));
    r := Some(Hex(8, h0) + Hex(8, h1) + Hex(8, h2) + Hex(8, h3) + Hex(8, h4));
  }

  lemma Sha1OfPadded(str: seq<Byte>, padded: seq<Byte>)
    requires 8 * |str| < Pow2(64) && MessageBits(padded) == Pad(MessageBits(str)) && |padded| % 64 == 0
    ensures HashAfter(MessageBits(padded), |padded| / 64) == Fips180.Sha1(MessageBits(str))
  {
    hide HashAfter, MessageBits, Pad;
    var n := |padded| / 64;
    assert |Pad(MessageBits(str))| == 8 * |padded| && |padded| == 64 * n;
    assert |Pad(MessageBits(str))| / 512 == n;
  }

  lemma DigestOfNumbers(h0: int, h1: int, h2: int, h3: int, h4: int, h: Hash)
    requires Exactly(h0, h1, h2, h3, h4, h)
    ensures h0 >= 0 && h1 >= 0 && h2 >= 0 && h3 >= 0 && h4 >= 0
    ensures DigestHex(h) == Hex(8, h0) + Hex(8, h1) + Hex(8, h2) + Hex(8, h3) + Hex(8, h4)
  {
  }
}
