/**
 * A known answer: the digest which the repository's own configuration expects of the word "sheeps"
 * (test/test-redaction.conf). The solver checks each word of the schedule and each of the eighty rounds.
 */
module KnownAnswer {
  import opened Bits
  import opened BitVectors
  import opened Fips180
  import opened MachineOps
  import opened Messages
  import opened Redaction
  import opened Sha1
  import opened WordOps
  import opened Wrappers

  // ---- One round and one word, in vectors ----

  function ChBits(x: bv32, y: bv32, z: bv32): bv32 { (x & y) ^ (!x & z) }

  function ParityBits(x: bv32, y: bv32, z: bv32): bv32 { x ^ y ^ z }

  function MajBits(x: bv32, y: bv32, z: bv32): bv32 { (x & y) ^ (x & z) ^ (y & z) }

  function FVector(t: nat, x: bv32, y: bv32, z: bv32): bv32
  {
    if t <= 19 then ChBits(x, y, z)
    else if t <= 39 then ParityBits(x, y, z)
    else if t <= 59 then MajBits(x, y, z)
    else ParityBits(x, y, z)
  }

  function KNumber(t: nat): nat
  {
    if t <= 19 then 0x5a827999 else if t <= 39 then 0x6ed9eba1 else if t <= 59 then 0x8f1bbcdc else 0xca62c1d6
  }

  function Total(t: nat, a: bv32, b: bv32, c: bv32, d: bv32, e: bv32, w: bv32): nat
  {
    (NumberOf(Rotate5(a)) + NumberOf(FVector(t, b, c, d)) + NumberOf(e) + KNumber(t) + NumberOf(w)) % 0x1_0000_0000
  }

  lemma NextVector(p: bv32, q: bv32, r: bv32, s: bv32)
    ensures OfVector(Rotate1(p ^ q ^ r ^ s))
         == Rotl(Xor(Xor(Xor(OfVector(p), OfVector(q)), OfVector(r)), OfVector(s)), 1)
  {
    assert XorOf(XorOf(XorOf(p, q), r), s) == p ^ q ^ r ^ s;
    hide XorOf, Rotate1, OfVector, Xor, Rotl;
    XorVectors(p, q);
    XorVectors(XorOf(p, q), r);
    XorVectors(XorOf(XorOf(p, q), r), s);
    RotateVector1(XorOf(XorOf(XorOf(p, q), r), s));
  }

  lemma ChSteps(x: bv32, y: bv32, z: bv32)
    ensures ChBits(x, y, z) == XorOf(AndOf(x, y), AndOf(NotOf(x), z))
  {
  }

  lemma ParitySteps(x: bv32, y: bv32, z: bv32)
    ensures ParityBits(x, y, z) == XorOf(XorOf(x, y), z)
  {
    calc {
      ParityBits(x, y, z);
      XorOf(x, y) ^ z;
      XorOf(XorOf(x, y), z);
    }
  }

  lemma MajSteps(x: bv32, y: bv32, z: bv32)
    ensures MajBits(x, y, z) == XorOf(XorOf(AndOf(x, y), AndOf(x, z)), AndOf(y, z))
  {
    calc {
      MajBits(x, y, z);
      AndOf(x, y) ^ AndOf(x, z) ^ AndOf(y, z);
      XorOf(AndOf(x, y), AndOf(x, z)) ^ AndOf(y, z);
      XorOf(XorOf(AndOf(x, y), AndOf(x, z)), AndOf(y, z));
    }
  }

  lemma ChOfVectors(x: bv32, y: bv32, z: bv32)
    ensures Ch(OfVector(x), OfVector(y), OfVector(z)) == OfVector(ChBits(x, y, z))
  {
    hide ChBits, ParityBits, MajBits, AndOf, XorOf, NotOf, OfVector, And, Xor, Not;
    ChSteps(x, y, z);
    AndVectors(x, y);
    NotVector(x);
    AndVectors(NotOf(x), z);
    XorVectors(AndOf(x, y), AndOf(NotOf(x), z));
  }

  lemma ParityOfVectors(x: bv32, y: bv32, z: bv32)
    ensures Parity(OfVector(x), OfVector(y), OfVector(z)) == OfVector(ParityBits(x, y, z))
  {
    hide ChBits, ParityBits, MajBits, AndOf, XorOf, NotOf, OfVector, And, Xor, Not;
    ParitySteps(x, y, z);
    XorVectors(x, y);
    XorVectors(XorOf(x, y), z);
  }

  lemma MajOfVectors(x: bv32, y: bv32, z: bv32)
    ensures Maj(OfVector(x), OfVector(y), OfVector(z)) == OfVector(MajBits(x, y, z))
  {
    hide ChBits, ParityBits, MajBits, AndOf, XorOf, NotOf, OfVector, And, Xor, Not;
    MajSteps(x, y, z);
    AndVectors(x, y);
    AndVectors(x, z);
    AndVectors(y, z);
    XorVectors(AndOf(x, y), AndOf(x, z));
    XorVectors(XorOf(AndOf(x, y), AndOf(x, z)), AndOf(y, z));
  }

  lemma FOfVectors(t: nat, x: bv32, y: bv32, z: bv32)
    requires t < 80
    ensures F(t, OfVector(x), OfVector(y), OfVector(z)) == OfVector(FVector(t, x, y, z))
  {
    hide ChBits, ParityBits, MajBits, Ch, Parity, Maj, OfVector;
    ChOfVectors(x, y, z);
    ParityOfVectors(x, y, z);
    MajOfVectors(x, y, z);
  }

  lemma VectorNumber(x: bv32)
    ensures Value(OfVector(x)) == NumberOf(x)
  {
    hide *;
    NumberIsValue(x);
    NumberOfIsNumber(x);
  }

  lemma KValue(t: nat)
    requires t < 80
    ensures Value(K(t)) == KNumber(t)
  {
    hide Value, WordOf;
    WordNumber(0x5a827999);
    WordNumber(0x6ed9eba1);
    WordNumber(0x8f1bbcdc);
    WordNumber(0xca62c1d6);
  }

  function HashOf(a: bv32, b: bv32, c: bv32, d: bv32, e: bv32): Hash
  {
    Hash(OfVector(a), OfVector(b), OfVector(c), OfVector(d), OfVector(e))
  }

  lemma SumOfVectors(v: Word, w: Word, x: Word, y: Word, z: Word, r: Word)
    requires Value(r) == (Value(v) + Value(w) + Value(x) + Value(y) + Value(z)) % TWO32
    ensures Add(Add(Add(Add(v, w), x), y), z) == r
  {
    SumOfValues(v, w, x, y, z);
    hide Add, Value;
    ValueInjective(Add(Add(Add(Add(v, w), x), y), z), r);
  }

  lemma RoundOfVectors(t: nat, a: bv32, b: bv32, c: bv32, d: bv32, e: bv32, w: bv32, r: bv32)
    requires t < 80 && NumberOf(r) == Total(t, a, b, c, d, e, w)
    ensures Round(t, OfVector(w), HashOf(a, b, c, d, e)) == HashOf(r, a, Rotate30(b), c, d)
  {
    hide NumberOf, OfVector, Value, FVector, F, K, KNumber, Rotate5, Rotate30, Rotl, Add;
    RotateVector5(a);
    RotateVector30(b);
    FOfVectors(t, b, c, d);
    KValue(t);
    VectorNumber(r);
    VectorNumber(Rotate5(a));
    VectorNumber(FVector(t, b, c, d));
    VectorNumber(e);
    VectorNumber(w);
    SumOfVectors(OfVector(Rotate5(a)), OfVector(FVector(t, b, c, d)), OfVector(e), K(t), OfVector(w), OfVector(r));
  }

  // ---- The words of the schedule ----

  lemma NextWord(block: Block, t: nat, p: bv32, q: bv32, r: bv32, s: bv32, w: bv32)
    requires 16 <= t < 80 && w == Rotate1(p ^ q ^ r ^ s)
    requires W(block, t - 3) == OfVector(p) && W(block, t - 8) == OfVector(q)
    requires W(block, t - 14) == OfVector(r) && W(block, t - 16) == OfVector(s)
    ensures W(block, t) == OfVector(w)
  {
    NextVector(p, q, r, s);
    hide OfVector, Rotate1, Xor, Rotl;
  }

  /** The first sixteen. */
  predicate WordsA(block: Block)
  {
    && W(block, 0) == OfVector(0x73686565) && W(block, 1) == OfVector(0x70738000)
    && W(block, 2) == OfVector(0x00000000) && W(block, 3) == OfVector(0x00000000)
    && W(block, 4) == OfVector(0x00000000) && W(block, 5) == OfVector(0x00000000)
    && W(block, 6) == OfVector(0x00000000) && W(block, 7) == OfVector(0x00000000)
    && W(block, 8) == OfVector(0x00000000) && W(block, 9) == OfVector(0x00000000)
    && W(block, 10) == OfVector(0x00000000) && W(block, 11) == OfVector(0x00000000)
    && W(block, 12) == OfVector(0x00000000) && W(block, 13) == OfVector(0x00000000)
    && W(block, 14) == OfVector(0x00000000) && W(block, 15) == OfVector(0x00000030)
  }

  /** The second sixteen. */
  predicate WordsB(block: Block)
  {
    && W(block, 16) == OfVector(0xe6d0caca) && W(block, 17) == OfVector(0xe0e70000)
    && W(block, 18) == OfVector(0x00000060) && W(block, 19) == OfVector(0xcda19595)
    && W(block, 20) == OfVector(0xc1ce0001) && W(block, 21) == OfVector(0x000000c0)
    && W(block, 22) == OfVector(0x9b432b2b) && W(block, 23) == OfVector(0x839c0063)
    && W(block, 24) == OfVector(0xcda19415) && W(block, 25) == OfVector(0xf7485656)
    && W(block, 26) == OfVector(0x07380007) && W(block, 27) == OfVector(0x00000300)
    && W(block, 28) == OfVector(0x6d0cacae) && W(block, 29) == OfVector(0x0e7001ee)
    && W(block, 30) == OfVector(0xfb27c5c2) && W(block, 31) == OfVector(0x1cef59fa)
  }

  /** The third sixteen. */
  predicate WordsC(block: Block)
  {
    && W(block, 32) == OfVector(0x4a02bea2) && W(block, 33) == OfVector(0x42520c02)
    && W(block, 34) == OfVector(0xb432b339) && W(block, 35) == OfVector(0x0f4651ef)
    && W(block, 36) == OfVector(0xeba7170c) && W(block, 37) == OfVector(0x73bd64e8)
    && W(block, 38) == OfVector(0x45065627) && W(block, 39) == OfVector(0x07383187)
    && W(block, 40) == OfVector(0xe64c9cb1) && W(block, 41) == OfVector(0xe0381ee7)
    && W(block, 42) == OfVector(0xb27c5c2f) && W(block, 43) == OfVector(0xcef59f61)
    && W(block, 44) == OfVector(0x3b68c10f) && W(block, 45) == OfVector(0xa6bcc1a7)
    && W(block, 46) == OfVector(0x75ad644c) && W(block, 47) == OfVector(0xc5db4ae0)
  }

  /** The fourth sixteen. */
  predicate WordsD(block: Block)
  {
    && W(block, 48) == OfVector(0x7d80a11b) && W(block, 49) == OfVector(0xb1024e8d)
    && W(block, 50) == OfVector(0x506565f4) && W(block, 51) == OfVector(0x9f1c16fb)
    && W(block, 52) == OfVector(0x49979d52) && W(block, 53) == OfVector(0x04b9e279)
    && W(block, 54) == OfVector(0x93f77042) && W(block, 55) == OfVector(0xd699f1a4)
    && W(block, 56) == OfVector(0x5a1307f8) && W(block, 57) == OfVector(0x18717e92)
    && W(block, 58) == OfVector(0x1fd012e0) && W(block, 59) == OfVector(0x5a8c9f8b)
    && W(block, 60) == OfVector(0x3e468d06) && W(block, 61) == OfVector(0xf01cf7bc)
    && W(block, 62) == OfVector(0x82ac553d) && W(block, 63) == OfVector(0x380cf19f)
  }

  /** The fifth sixteen. */
  predicate WordsE(block: Block)
  {
    && W(block, 64) == OfVector(0x0fd46957) && W(block, 65) == OfVector(0x6986e7b3)
    && W(block, 66) == OfVector(0x7c5c37b2) && W(block, 67) == OfVector(0x9dfa04bd)
    && W(block, 68) == OfVector(0x1b410f4b) && W(block, 69) == OfVector(0xbcc1a7a6)
    && W(block, 70) == OfVector(0xad644c75) && W(block, 71) == OfVector(0xdb4ae3c5)
    && W(block, 72) == OfVector(0xedadb7d3) && W(block, 73) == OfVector(0x0c3e95bf)
    && W(block, 74) == OfVector(0x0d009723) && W(block, 75) == OfVector(0xb58fb6b3)
    && W(block, 76) == OfVector(0x572a859f) && W(block, 77) == OfVector(0xf3a26d4c)
    && W(block, 78) == OfVector(0x2b278d59) && W(block, 79) == OfVector(0xbbd4e0ed)
  }

  lemma ScheduleB(block: Block)
    requires WordsA(block)
    ensures WordsB(block)
  {
    hide W, OfVector;
    NextWord(block, 16, 0x00000000, 0x00000000, 0x00000000, 0x73686565, 0xe6d0caca);
    NextWord(block, 17, 0x00000000, 0x00000000, 0x00000000, 0x70738000, 0xe0e70000);
    NextWord(block, 18, 0x00000030, 0x00000000, 0x00000000, 0x00000000, 0x00000060);
    NextWord(block, 19, 0xe6d0caca, 0x00000000, 0x00000000, 0x00000000, 0xcda19595);
    NextWord(block, 20, 0xe0e70000, 0x00000000, 0x00000000, 0x00000000, 0xc1ce0001);
    NextWord(block, 21, 0x00000060, 0x00000000, 0x00000000, 0x00000000, 0x000000c0);
    NextWord(block, 22, 0xcda19595, 0x00000000, 0x00000000, 0x00000000, 0x9b432b2b);
    NextWord(block, 23, 0xc1ce0001, 0x00000030, 0x00000000, 0x00000000, 0x839c0063);
    NextWord(block, 24, 0x000000c0, 0xe6d0caca, 0x00000000, 0x00000000, 0xcda19415);
    NextWord(block, 25, 0x9b432b2b, 0xe0e70000, 0x00000000, 0x00000000, 0xf7485656);
    NextWord(block, 26, 0x839c0063, 0x00000060, 0x00000000, 0x00000000, 0x07380007);
    NextWord(block, 27, 0xcda19415, 0xcda19595, 0x00000000, 0x00000000, 0x00000300);
    NextWord(block, 28, 0xf7485656, 0xc1ce0001, 0x00000000, 0x00000000, 0x6d0cacae);
    NextWord(block, 29, 0x07380007, 0x000000c0, 0x00000030, 0x00000000, 0x0e7001ee);
    NextWord(block, 30, 0x00000300, 0x9b432b2b, 0xe6d0caca, 0x00000000, 0xfb27c5c2);
    NextWord(block, 31, 0x6d0cacae, 0x839c0063, 0xe0e70000, 0x00000030, 0x1cef59fa);
  }

  lemma ScheduleC(block: Block)
    requires WordsB(block)
    ensures WordsC(block)
  {
    hide W, OfVector;
    NextWord(block, 32, 0x0e7001ee, 0xcda19415, 0x00000060, 0xe6d0caca, 0x4a02bea2);
    NextWord(block, 33, 0xfb27c5c2, 0xf7485656, 0xcda19595, 0xe0e70000, 0x42520c02);
    NextWord(block, 34, 0x1cef59fa, 0x07380007, 0xc1ce0001, 0x00000060, 0xb432b339);
    NextWord(block, 35, 0x4a02bea2, 0x00000300, 0x000000c0, 0xcda19595, 0x0f4651ef);
    NextWord(block, 36, 0x42520c02, 0x6d0cacae, 0x9b432b2b, 0xc1ce0001, 0xeba7170c);
    NextWord(block, 37, 0xb432b339, 0x0e7001ee, 0x839c0063, 0x000000c0, 0x73bd64e8);
    NextWord(block, 38, 0x0f4651ef, 0xfb27c5c2, 0xcda19415, 0x9b432b2b, 0x45065627);
    NextWord(block, 39, 0xeba7170c, 0x1cef59fa, 0xf7485656, 0x839c0063, 0x07383187);
    NextWord(block, 40, 0x73bd64e8, 0x4a02bea2, 0x07380007, 0xcda19415, 0xe64c9cb1);
    NextWord(block, 41, 0x45065627, 0x42520c02, 0x00000300, 0xf7485656, 0xe0381ee7);
    NextWord(block, 42, 0x07383187, 0xb432b339, 0x6d0cacae, 0x07380007, 0xb27c5c2f);
    NextWord(block, 43, 0xe64c9cb1, 0x0f4651ef, 0x0e7001ee, 0x00000300, 0xcef59f61);
    NextWord(block, 44, 0xe0381ee7, 0xeba7170c, 0xfb27c5c2, 0x6d0cacae, 0x3b68c10f);
    NextWord(block, 45, 0xb27c5c2f, 0x73bd64e8, 0x1cef59fa, 0x0e7001ee, 0xa6bcc1a7);
    NextWord(block, 46, 0xcef59f61, 0x45065627, 0x4a02bea2, 0xfb27c5c2, 0x75ad644c);
    NextWord(block, 47, 0x3b68c10f, 0x07383187, 0x42520c02, 0x1cef59fa, 0xc5db4ae0);
  }

  lemma ScheduleD(block: Block)
    requires WordsC(block)
    ensures WordsD(block)
  {
    hide W, OfVector;
    NextWord(block, 48, 0xa6bcc1a7, 0xe64c9cb1, 0xb432b339, 0x4a02bea2, 0x7d80a11b);
    NextWord(block, 49, 0x75ad644c, 0xe0381ee7, 0x0f4651ef, 0x42520c02, 0xb1024e8d);
    NextWord(block, 50, 0xc5db4ae0, 0xb27c5c2f, 0xeba7170c, 0xb432b339, 0x506565f4);
    NextWord(block, 51, 0x7d80a11b, 0xcef59f61, 0x73bd64e8, 0x0f4651ef, 0x9f1c16fb);
    NextWord(block, 52, 0xb1024e8d, 0x3b68c10f, 0x45065627, 0xeba7170c, 0x49979d52);
    NextWord(block, 53, 0x506565f4, 0xa6bcc1a7, 0x07383187, 0x73bd64e8, 0x04b9e279);
    NextWord(block, 54, 0x9f1c16fb, 0x75ad644c, 0xe64c9cb1, 0x45065627, 0x93f77042);
    NextWord(block, 55, 0x49979d52, 0xc5db4ae0, 0xe0381ee7, 0x07383187, 0xd699f1a4);
    NextWord(block, 56, 0x04b9e279, 0x7d80a11b, 0xb27c5c2f, 0xe64c9cb1, 0x5a1307f8);
    NextWord(block, 57, 0x93f77042, 0xb1024e8d, 0xcef59f61, 0xe0381ee7, 0x18717e92);
    NextWord(block, 58, 0xd699f1a4, 0x506565f4, 0x3b68c10f, 0xb27c5c2f, 0x1fd012e0);
    NextWord(block, 59, 0x5a1307f8, 0x9f1c16fb, 0xa6bcc1a7, 0xcef59f61, 0x5a8c9f8b);
    NextWord(block, 60, 0x18717e92, 0x49979d52, 0x75ad644c, 0x3b68c10f, 0x3e468d06);
    NextWord(block, 61, 0x1fd012e0, 0x04b9e279, 0xc5db4ae0, 0xa6bcc1a7, 0xf01cf7bc);
    NextWord(block, 62, 0x5a8c9f8b, 0x93f77042, 0x7d80a11b, 0x75ad644c, 0x82ac553d);
    NextWord(block, 63, 0x3e468d06, 0xd699f1a4, 0xb1024e8d, 0xc5db4ae0, 0x380cf19f);
  }

  lemma ScheduleE(block: Block)
    requires WordsD(block)
    ensures WordsE(block)
  {
    hide W, OfVector;
    NextWord(block, 64, 0xf01cf7bc, 0x5a1307f8, 0x506565f4, 0x7d80a11b, 0x0fd46957);
    NextWord(block, 65, 0x82ac553d, 0x18717e92, 0x9f1c16fb, 0xb1024e8d, 0x6986e7b3);
    NextWord(block, 66, 0x380cf19f, 0x1fd012e0, 0x49979d52, 0x506565f4, 0x7c5c37b2);
    NextWord(block, 67, 0x0fd46957, 0x5a8c9f8b, 0x04b9e279, 0x9f1c16fb, 0x9dfa04bd);
    NextWord(block, 68, 0x6986e7b3, 0x3e468d06, 0x93f77042, 0x49979d52, 0x1b410f4b);
    NextWord(block, 69, 0x7c5c37b2, 0xf01cf7bc, 0xd699f1a4, 0x04b9e279, 0xbcc1a7a6);
    NextWord(block, 70, 0x9dfa04bd, 0x82ac553d, 0x5a1307f8, 0x93f77042, 0xad644c75);
    NextWord(block, 71, 0x1b410f4b, 0x380cf19f, 0x18717e92, 0xd699f1a4, 0xdb4ae3c5);
    NextWord(block, 72, 0xbcc1a7a6, 0x0fd46957, 0x1fd012e0, 0x5a1307f8, 0xedadb7d3);
    NextWord(block, 73, 0xad644c75, 0x6986e7b3, 0x5a8c9f8b, 0x18717e92, 0x0c3e95bf);
    NextWord(block, 74, 0xdb4ae3c5, 0x7c5c37b2, 0x3e468d06, 0x1fd012e0, 0x0d009723);
    NextWord(block, 75, 0xedadb7d3, 0x9dfa04bd, 0xf01cf7bc, 0x5a8c9f8b, 0xb58fb6b3);
    NextWord(block, 76, 0x0c3e95bf, 0x1b410f4b, 0x82ac553d, 0x3e468d06, 0x572a859f);
    NextWord(block, 77, 0x0d009723, 0xbcc1a7a6, 0x380cf19f, 0xf01cf7bc, 0xf3a26d4c);
    NextWord(block, 78, 0xb58fb6b3, 0xad644c75, 0x0fd46957, 0x82ac553d, 0x2b278d59);
    NextWord(block, 79, 0x572a859f, 0xdb4ae3c5, 0x6986e7b3, 0x380cf19f, 0xbbd4e0ed);
  }

  // ---- The rounds ----

  /** The working variables after n rounds. */
  predicate StateIs(block: Block, n: nat, a: bv32, b: bv32, c: bv32, d: bv32, e: bv32)
    requires n <= 80
  {
    Rounds(Schedule(block)[..n], Initial()) == HashOf(a, b, c, d, e)
  }

  lemma Step(block: Block, t: nat, a: bv32, b: bv32, c: bv32, d: bv32, e: bv32, w: bv32, r: bv32)
    requires t < 80 && StateIs(block, t, a, b, c, d, e) && W(block, t) == OfVector(w)
    requires NumberOf(r) == Total(t, a, b, c, d, e, w)
    ensures StateIs(block, t + 1, r, a, Rotate30(b), c, d)
  {
    hide Total, NumberOf, OfVector, Round, HashOf, W, Initial, Rotate30;
    RoundOfVectors(t, a, b, c, d, e, w, r);
    assert Schedule(block)[..t + 1][..t] == Schedule(block)[..t];
  }

  lemma RoundsA(block: Block)
    requires WordsA(block) && StateIs(block, 0, 0x67452301, 0xefcdab89, 0x98badcfe, 0x10325476, 0xc3d2e1f0)
    ensures StateIs(block, 16, 0xb8d5ccad, 0xd5ac4f23, 0xd0ecb354, 0x2a93ef84, 0x4d412d31)
  {
    hide W, OfVector, StateIs;
    Step(block, 0, 0x67452301, 0xefcdab89, 0x98badcfe, 0x10325476, 0xc3d2e1f0, 0x73686565, 0x131cfe18);
    Step(block, 1, 0x131cfe18, 0x67452301, 0x7bf36ae2, 0x98badcfe, 0x10325476, 0x70738000, 0x3ac4100f);
    Step(block, 2, 0x3ac4100f, 0x131cfe18, 0x59d148c0, 0x7bf36ae2, 0x98badcfe, 0x00000000, 0xc5b2a160);
    Step(block, 3, 0xc5b2a160, 0x3ac4100f, 0x04c73f86, 0x59d148c0, 0x7bf36ae2, 0x00000000, 0xce9f6959);
    Step(block, 4, 0xce9f6959, 0xc5b2a160, 0xceb10403, 0x04c73f86, 0x59d148c0, 0x00000000, 0x4d360c18);
    Step(block, 5, 0x4d360c18, 0xce9f6959, 0x316ca858, 0xceb10403, 0x04c73f86, 0x00000000, 0x06376882);
    Step(block, 6, 0x06376882, 0x4d360c18, 0x73a7da56, 0x316ca858, 0xceb10403, 0x00000000, 0x618f362c);
    Step(block, 7, 0x618f362c, 0x06376882, 0x134d8306, 0x73a7da56, 0x316ca858, 0x00000000, 0x315b79d3);
    Step(block, 8, 0x315b79d3, 0x618f362c, 0x818dda20, 0x134d8306, 0x73a7da56, 0x00000000, 0x0d672177);
    Step(block, 9, 0x0d672177, 0x315b79d3, 0x1863cd8b, 0x818dda20, 0x134d8306, 0x00000000, 0xab7bf723);
    Step(block, 10, 0xab7bf723, 0x0d672177, 0xcc56de74, 0x1863cd8b, 0x818dda20, 0x00000000, 0x67d6052a);
    Step(block, 11, 0x67d6052a, 0xab7bf723, 0xc359c85d, 0xcc56de74, 0x1863cd8b, 0x00000000, 0x3504b4c5);
    Step(block, 12, 0x3504b4c5, 0x67d6052a, 0xeadefdc8, 0xc359c85d, 0xcc56de74, 0x00000000, 0xaa4fbe10);
    Step(block, 13, 0xaa4fbe10, 0x3504b4c5, 0x99f5814a, 0xeadefdc8, 0xc359c85d, 0x00000000, 0x43b2cd53);
    Step(block, 14, 0x43b2cd53, 0xaa4fbe10, 0x4d412d31, 0x99f5814a, 0xeadefdc8, 0x00000000, 0xd5ac4f23);
    Step(block, 15, 0xd5ac4f23, 0x43b2cd53, 0x2a93ef84, 0x4d412d31, 0x99f5814a, 0x00000030, 0xb8d5ccad);
  }

  lemma RoundsB(block: Block)
    requires WordsB(block) && StateIs(block, 16, 0xb8d5ccad, 0xd5ac4f23, 0xd0ecb354, 0x2a93ef84, 0x4d412d31)
    ensures StateIs(block, 32, 0xb0f55b34, 0x5e86dc41, 0x7ad26935, 0x7e82e756, 0xdc29ad53)
  {
    hide W, OfVector, StateIs;
    Step(block, 16, 0xb8d5ccad, 0xd5ac4f23, 0xd0ecb354, 0x2a93ef84, 0x4d412d31, 0xe6d0caca, 0xa40daacf);
    Step(block, 17, 0xa40daacf, 0xb8d5ccad, 0xf56b13c8, 0xd0ecb354, 0x2a93ef84, 0xe0e70000, 0xd81bf6e9);
    Step(block, 18, 0xd81bf6e9, 0xa40daacf, 0x6e35732b, 0xf56b13c8, 0xd0ecb354, 0x00000060, 0xa4553d93);
    Step(block, 19, 0xa4553d93, 0xd81bf6e9, 0xe9036ab3, 0x6e35732b, 0xf56b13c8, 0xcda19595, 0x965e390d);
    Step(block, 20, 0x965e390d, 0xa4553d93, 0x7606fdba, 0xe9036ab3, 0x6e35732b, 0xc1ce0001, 0xa5f52b19);
    Step(block, 21, 0xa5f52b19, 0x965e390d, 0xe9154f64, 0x7606fdba, 0xe9036ab3, 0x000000c0, 0x1fd0461b);
    Step(block, 22, 0x1fd0461b, 0xa5f52b19, 0x65978e43, 0xe9154f64, 0x7606fdba, 0x9b432b2b, 0xa3a4c227);
    Step(block, 23, 0xa3a4c227, 0x1fd0461b, 0x697d4ac6, 0x65978e43, 0xe9154f64, 0x839c0063, 0x635e02fa);
    Step(block, 24, 0x635e02fa, 0xa3a4c227, 0xc7f41186, 0x697d4ac6, 0x65978e43, 0xcda19415, 0x1b0106ac);
    Step(block, 25, 0x1b0106ac, 0x635e02fa, 0xe8e93089, 0xc7f41186, 0x697d4ac6, 0xf7485656, 0x7c038635);
    Step(block, 26, 0x7c038635, 0x1b0106ac, 0x98d780be, 0xe8e93089, 0xc7f41186, 0x07380007, 0x29b67a78);
    Step(block, 27, 0x29b67a78, 0x7c038635, 0x06c041ab, 0x98d780be, 0xe8e93089, 0x00000300, 0x70a6b54f);
    Step(block, 28, 0x70a6b54f, 0x29b67a78, 0x5f00e18d, 0x06c041ab, 0x98d780be, 0x6d0cacae, 0xfa0b9d59);
    Step(block, 29, 0xfa0b9d59, 0x70a6b54f, 0x0a6d9e9e, 0x5f00e18d, 0x06c041ab, 0x0e7001ee, 0xeb49a4d5);
    Step(block, 30, 0xeb49a4d5, 0xfa0b9d59, 0xdc29ad53, 0x0a6d9e9e, 0x5f00e18d, 0xfb27c5c2, 0x5e86dc41);
    Step(block, 31, 0x5e86dc41, 0xeb49a4d5, 0x7e82e756, 0xdc29ad53, 0x0a6d9e9e, 0x1cef59fa, 0xb0f55b34);
  }

  lemma RoundsC(block: Block)
    requires WordsC(block) && StateIs(block, 32, 0xb0f55b34, 0x5e86dc41, 0x7ad26935, 0x7e82e756, 0xdc29ad53)
    ensures StateIs(block, 48, 0x9ffb1ce4, 0xbb115b8f, 0x5c42fd73, 0xe9ecb437, 0xbf42986c)
  {
    hide W, OfVector, StateIs;
    Step(block, 32, 0xb0f55b34, 0x5e86dc41, 0x7ad26935, 0x7e82e756, 0xdc29ad53, 0x4a02bea2, 0x0e88104e);
    Step(block, 33, 0x0e88104e, 0xb0f55b34, 0x57a1b710, 0x7ad26935, 0x7e82e756, 0x42520c02, 0x9e376dcb);
    Step(block, 34, 0x9e376dcb, 0x0e88104e, 0x2c3d56cd, 0x57a1b710, 0x7ad26935, 0xb432b339, 0xd9e1b315);
    Step(block, 35, 0xd9e1b315, 0x9e376dcb, 0x83a20413, 0x2c3d56cd, 0x57a1b710, 0x0f4651ef, 0x43a09670);
    Step(block, 36, 0x43a09670, 0xd9e1b315, 0xe78ddb72, 0x83a20413, 0x2c3d56cd, 0xeba7170c, 0xb89f93f6);
    Step(block, 37, 0xb89f93f6, 0x43a09670, 0x76786cc5, 0xe78ddb72, 0x83a20413, 0x73bd64e8, 0x4c80f53a);
    Step(block, 38, 0x4c80f53a, 0xb89f93f6, 0x10e8259c, 0x76786cc5, 0xe78ddb72, 0x45065627, 0x099c9f32);
    Step(block, 39, 0x099c9f32, 0x4c80f53a, 0xae27e4fd, 0x10e8259c, 0x76786cc5, 0x07383187, 0x126da489);
    Step(block, 40, 0x126da489, 0x099c9f32, 0x93203d4e, 0xae27e4fd, 0x10e8259c, 0xe64c9cb1, 0x5f29cdc9);
    Step(block, 41, 0x5f29cdc9, 0x126da489, 0x826727cc, 0x93203d4e, 0xae27e4fd, 0xe0381ee7, 0x951a9fb7);
    Step(block, 42, 0x951a9fb7, 0x5f29cdc9, 0x449b6922, 0x826727cc, 0x93203d4e, 0xb27c5c2f, 0xbe37bb13);
    Step(block, 43, 0xbe37bb13, 0x951a9fb7, 0x57ca7372, 0x449b6922, 0x826727cc, 0xcef59f61, 0xfd0a61b2);
    Step(block, 44, 0xfd0a61b2, 0xbe37bb13, 0xe546a7ed, 0x57ca7372, 0x449b6922, 0x3b68c10f, 0xa7b2d0df);
    Step(block, 45, 0xa7b2d0df, 0xfd0a61b2, 0xef8deec4, 0xe546a7ed, 0x57ca7372, 0xa6bcc1a7, 0x710bf5cd);
    Step(block, 46, 0x710bf5cd, 0xa7b2d0df, 0xbf42986c, 0xef8deec4, 0xe546a7ed, 0x75ad644c, 0xbb115b8f);
    Step(block, 47, 0xbb115b8f, 0x710bf5cd, 0xe9ecb437, 0xbf42986c, 0xef8deec4, 0xc5db4ae0, 0x9ffb1ce4);
  }

  lemma RoundsD(block: Block)
    requires WordsD(block) && StateIs(block, 48, 0x9ffb1ce4, 0xbb115b8f, 0x5c42fd73, 0xe9ecb437, 0xbf42986c)
    ensures StateIs(block, 64, 0xc791f3fe, 0xeea2e117, 0xc7a9d0a3, 0x9230f059, 0x1cc407dd)
  {
    hide W, OfVector, StateIs;
    Step(block, 48, 0x9ffb1ce4, 0xbb115b8f, 0x5c42fd73, 0xe9ecb437, 0xbf42986c, 0x7d80a11b, 0xc483902d);
    Step(block, 49, 0xc483902d, 0x9ffb1ce4, 0xeec456e3, 0x5c42fd73, 0xe9ecb437, 0xb1024e8d, 0x993f223b);
    Step(block, 50, 0x993f223b, 0xc483902d, 0x27fec739, 0xeec456e3, 0x5c42fd73, 0x506565f4, 0x4a6f3ddf);
    Step(block, 51, 0x4a6f3ddf, 0x993f223b, 0x7120e40b, 0x27fec739, 0xeec456e3, 0x9f1c16fb, 0x9c22ccde);
    Step(block, 52, 0x9c22ccde, 0x4a6f3ddf, 0xe64fc88e, 0x7120e40b, 0x27fec739, 0x49979d52, 0xe77ba9c9);
    Step(block, 53, 0xe77ba9c9, 0x9c22ccde, 0xd29bcf77, 0xe64fc88e, 0x7120e40b, 0x04b9e279, 0xca77897a);
    Step(block, 54, 0xca77897a, 0xe77ba9c9, 0xa708b337, 0xd29bcf77, 0xe64fc88e, 0x93f77042, 0x3f6fd07c);
    Step(block, 55, 0x3f6fd07c, 0xca77897a, 0x79deea72, 0xa708b337, 0xd29bcf77, 0xd699f1a4, 0x11aa38f0);
    Step(block, 56, 0x11aa38f0, 0x3f6fd07c, 0xb29de25e, 0x79deea72, 0xa708b337, 0x5a1307f8, 0x015e788b);
    Step(block, 57, 0x015e788b, 0x11aa38f0, 0x0fdbf41f, 0xb29de25e, 0x79deea72, 0x18717e92, 0x60d7279e);
    Step(block, 58, 0x60d7279e, 0x015e788b, 0x046a8e3c, 0x0fdbf41f, 0xb29de25e, 0x1fd012e0, 0x81c9a205);
    Step(block, 59, 0x81c9a205, 0x60d7279e, 0xc0579e22, 0x046a8e3c, 0x0fdbf41f, 0x5a8c9f8b, 0x73101f74);
    Step(block, 60, 0x73101f74, 0x81c9a205, 0x9835c9e7, 0xc0579e22, 0x046a8e3c, 0x3e468d06, 0x48c3c166);
    Step(block, 61, 0x48c3c166, 0x73101f74, 0x60726881, 0x9835c9e7, 0xc0579e22, 0xf01cf7bc, 0x1ea7428f);
    Step(block, 62, 0x1ea7428f, 0x48c3c166, 0x1cc407dd, 0x60726881, 0x9835c9e7, 0x82ac553d, 0xeea2e117);
    Step(block, 63, 0xeea2e117, 0x1ea7428f, 0x9230f059, 0x1cc407dd, 0x60726881, 0x380cf19f, 0xc791f3fe);
  }

  lemma RoundsE(block: Block)
    requires WordsE(block) && StateIs(block, 64, 0xc791f3fe, 0xeea2e117, 0xc7a9d0a3, 0x9230f059, 0x1cc407dd)
    ensures StateIs(block, 80, 0x214a5d7c, 0x5631c15b, 0xd985eaef, 0x3e55f5f9, 0xd9f4d30b)
  {
    hide W, OfVector, StateIs;
    Step(block, 64, 0xc791f3fe, 0xeea2e117, 0xc7a9d0a3, 0x9230f059, 0x1cc407dd, 0x0fd46957, 0xa47574cf);
    Step(block, 65, 0xa47574cf, 0xc791f3fe, 0xfba8b845, 0xc7a9d0a3, 0x9230f059, 0x6986e7b3, 0x5059ceee);
    Step(block, 66, 0x5059ceee, 0xa47574cf, 0xb1e47cff, 0xfba8b845, 0xc7a9d0a3, 0x7c5c37b2, 0x07dc586a);
    Step(block, 67, 0x07dc586a, 0x5059ceee, 0xe91d5d33, 0xb1e47cff, 0xfba8b845, 0x9dfa04bd, 0x68317b3a);
    Step(block, 68, 0x68317b3a, 0x07dc586a, 0x941673bb, 0xe91d5d33, 0xb1e47cff, 0x1b410f4b, 0x188f2c4f);
    Step(block, 69, 0x188f2c4f, 0x68317b3a, 0x81f7161a, 0x941673bb, 0xe91d5d33, 0xbcc1a7a6, 0xfff76f2d);
    Step(block, 70, 0xfff76f2d, 0x188f2c4f, 0x9a0c5ece, 0x81f7161a, 0x941673bb, 0xad644c75, 0x0e3fcc60);
    Step(block, 71, 0x0e3fcc60, 0xfff76f2d, 0xc623cb13, 0x9a0c5ece, 0x81f7161a, 0xdb4ae3c5, 0x937742a6);
    Step(block, 72, 0x937742a6, 0x0e3fcc60, 0x7ffddbcb, 0xc623cb13, 0x9a0c5ece, 0xedadb7d3, 0x78e70a01);
    Step(block, 73, 0x78e70a01, 0x937742a6, 0x038ff318, 0x7ffddbcb, 0xc623cb13, 0x0c3e95bf, 0xa8abcd4c);
    Step(block, 74, 0xa8abcd4c, 0x78e70a01, 0xa4ddd0a9, 0x038ff318, 0x7ffddbcb, 0x0d009723, 0x4c900809);
    Step(block, 75, 0x4c900809, 0xa8abcd4c, 0x5e39c280, 0xa4ddd0a9, 0x038ff318, 0xb58fb6b3, 0x67d34c2f);
    Step(block, 76, 0x67d34c2f, 0x4c900809, 0x2a2af353, 0x5e39c280, 0xa4ddd0a9, 0x572a859f, 0xf957d7e4);
    Step(block, 77, 0xf957d7e4, 0x67d34c2f, 0x53240202, 0x2a2af353, 0x5e39c280, 0xf3a26d4c, 0x6617abbf);
    Step(block, 78, 0x6617abbf, 0xf957d7e4, 0xd9f4d30b, 0x53240202, 0x2a2af353, 0x2b278d59, 0x5631c15b);
    Step(block, 79, 0x5631c15b, 0x6617abbf, 0x3e55f5f9, 0xd9f4d30b, 0x53240202, 0xbbd4e0ed, 0x214a5d7c);
  }

  // ---- The whole computation ----

  /** A word is that of a vector if they denote the same number. */
  lemma WordIsVector(n: nat, x: bv32)
    requires n == NumberOf(x) && n < 0x1_0000_0000
    ensures WordOf(n) == OfVector(x)
  {
    hide WordOf, OfVector, Value, NumberOf;
    WordNumber(n);
    VectorNumber(x);
    ValueInjective(WordOf(n), OfVector(x));
  }

  lemma InitialKnown()
    ensures Initial() == HashOf(0x67452301, 0xefcdab89, 0x98badcfe, 0x10325476, 0xc3d2e1f0)
  {
    hide OfVector, WordOf;
    WordIsVector(0x6745_2301, 0x67452301);
    WordIsVector(0xefcd_ab89, 0xefcdab89);
    WordIsVector(0x98ba_dcfe, 0x98badcfe);
    WordIsVector(0x1032_5476, 0x10325476);
    WordIsVector(0xc3d2_e1f0, 0xc3d2e1f0);
  }

  lemma AllRounds(block: Block)
    requires WordsA(block)
    ensures Rounds(Schedule(block), Initial()) == HashOf(0x214a5d7c, 0x5631c15b, 0xd985eaef, 0x3e55f5f9, 0xd9f4d30b)
  {
    InitialKnown();
    assert Schedule(block)[..0] == [] && Schedule(block)[..80] == Schedule(block);
    assert StateIs(block, 0, 0x67452301, 0xefcdab89, 0x98badcfe, 0x10325476, 0xc3d2e1f0);
    hide WordsA, WordsB, WordsC, WordsD, WordsE, OfVector, HashOf, Initial, Schedule;
    ScheduleB(block);
    ScheduleC(block);
    ScheduleD(block);
    ScheduleE(block);
    RoundsA(block);
    RoundsB(block);
    RoundsC(block);
    RoundsD(block);
    RoundsE(block);
  }

  lemma DigestWord(x: bv32, h: bv32, r: nat)
    requires r == (NumberOf(x) + NumberOf(h)) % 0x1_0000_0000
    ensures Value(Add(OfVector(x), OfVector(h))) == r
  {
    hide OfVector, Value, NumberOf, Add;
    AddValue(OfVector(x), OfVector(h));
    VectorNumber(x);
    VectorNumber(h);
  }

  lemma FinalSums()
    ensures Value(Add(OfVector(0x214a5d7c), OfVector(0x67452301))) == 0x888f807d
    ensures Value(Add(OfVector(0x5631c15b), OfVector(0xefcdab89))) == 0x45ff6ce4
    ensures Value(Add(OfVector(0xd985eaef), OfVector(0x98badcfe))) == 0x7240c7ed
    ensures Value(Add(OfVector(0x3e55f5f9), OfVector(0x10325476))) == 0x4e884a6f
    ensures Value(Add(OfVector(0xd9f4d30b), OfVector(0xc3d2e1f0))) == 0x9dc7b4fb
  {
    hide OfVector, Add, Value;
    DigestWord(0x214a5d7c, 0x67452301, 0x888f807d);
    DigestWord(0x5631c15b, 0xefcdab89, 0x45ff6ce4);
    DigestWord(0xd985eaef, 0x98badcfe, 0x7240c7ed);
    DigestWord(0x3e55f5f9, 0x10325476, 0x4e884a6f);
    DigestWord(0xd9f4d30b, 0xc3d2e1f0, 0x9dc7b4fb);
  }

  lemma CompressSums(block: Block, h: Hash, r: Hash)
    requires r == Rounds(Schedule(block), h)
    ensures Compress(block, h)
         == Hash(Add(r.a, h.a), Add(r.b, h.b), Add(r.c, h.c), Add(r.d, h.d), Add(r.e, h.e))
  {
    hide Rounds, Schedule, Add;
  }

  lemma DigestKnown(block: Block)
    requires WordsA(block)
    ensures var h := Compress(block, Initial());
            && Value(h.a) == 0x888f807d && Value(h.b) == 0x45ff6ce4 && Value(h.c) == 0x7240c7ed
            && Value(h.d) == 0x4e884a6f && Value(h.e) == 0x9dc7b4fb
  {
    hide OfVector, Add, Value, Rounds, Schedule, Compress, WordsA, Initial;
    AllRounds(block);
    InitialKnown();
    FinalSums();
    CompressSums(block, Initial(),
      HashOf(0x214a5d7c, 0x5631c15b, 0xd985eaef, 0x3e55f5f9, 0xd9f4d30b));
  }

  // ---- The word "sheeps" ----

  function Padded(): (p: seq<Byte>)
    ensures |p| == 64
  {
    [0x73, 0x68, 0x65, 0x65, 0x70, 0x73] + [0x80] + Repeat(0, 49) + [0, 0, 0, 0, 0, 0, 0, 0x30]
  }

  lemma PaddedKnown()
    ensures |Bytes("sheeps")| == 6 && 48 < Pow2(64) && MessageBits(Padded()) == Pad(MessageBits(Bytes("sheeps")))
  {
    Pow2Values();
    var str := Bytes("sheeps");
    PadMessageCorrect(str);
    hide Pad, MessageBits, Repeat;
    assert str == [0x73, 0x68, 0x65, 0x65, 0x70, 0x73];
    assert Uint32ToBytes(|str| * 8) == (0, 0, 0, 0x30);
    assert PadMessage(str) == Some(Padded());
  }

  lemma WordOfBytes(p: seq<Byte>, k: nat)
    requires |p| == 64 && k < 16
    ensures Value(W(MessageBits(p), k)) == BytesToUint32(p[4 * k], p[4 * k + 1], p[4 * k + 2], p[4 * k + 3])
  {
    hide MessageBits, Value;
    BitsSlice(p, 4 * k, 4 * k + 4);
    BitsOfFour(p[4 * k], p[4 * k + 1], p[4 * k + 2], p[4 * k + 3]);
    assert p[4 * k..4 * k + 4] == [p[4 * k], p[4 * k + 1], p[4 * k + 2], p[4 * k + 3]];
  }

  lemma PaddedWord(p: seq<Byte>, k: nat, x: bv32)
    requires |p| == 64 && k < 16
    requires BytesToUint32(p[4 * k], p[4 * k + 1], p[4 * k + 2], p[4 * k + 3]) == NumberOf(x)
    ensures W(MessageBits(p), k) == OfVector(x)
  {
    hide MessageBits, OfVector, Value, NumberOf, W, BytesToUint32;
    WordOfBytes(p, k);
    VectorNumber(x);
    ValueInjective(W(MessageBits(p), k), OfVector(x));
  }

  lemma ZeroBytes(k: nat)
    requires 2 <= k < 15
    ensures var p := Padded(); p[4 * k] == 0 && p[4 * k + 1] == 0 && p[4 * k + 2] == 0 && p[4 * k + 3] == 0
  {
  }

  lemma PaddedWords()
    ensures WordsA(MessageBits(Padded()))
  {
    var p := Padded();
    assert p[..8] == [0x73, 0x68, 0x65, 0x65, 0x70, 0x73, 0x80, 0];
    assert p[60..] == [0, 0, 0, 0x30];
    hide W, MessageBits, OfVector, Padded;
    assert p[0] == 0x73 && p[1] == 0x68 && p[2] == 0x65 && p[3] == 0x65;
    assert p[4] == 0x70 && p[5] == 0x73 && p[6] == 0x80 && p[7] == 0;
    assert p[60] == 0 && p[61] == 0 && p[62] == 0 && p[63] == 0x30;
    PaddedWord(p, 0, 0x73686565);
    PaddedWord(p, 1, 0x70738000);
    forall k: nat | 2 <= k < 15
      ensures W(MessageBits(p), k) == OfVector(0)
    {
      ZeroBytes(k);
      PaddedWord(p, k, 0);
    }
    PaddedWord(p, 15, 0x30);
  }

  /** One block: the whole hash is one compression. */
  lemma OneBlock(padded: Block)
    ensures HashAfter(padded, 1) == Compress(padded, Initial())
  {
    assert BlockAt(padded, 0) == padded;
    assert HashAfter(padded, 0) == Initial();
    hide Compress, BlockAt, Initial;
  }

  lemma Sha1Known()
    ensures |Bytes("sheeps")| == 6 && 48 < Pow2(64)
    ensures var h := Fips180.Sha1(MessageBits(Bytes("sheeps")));
            && Value(h.a) == 0x888f807d && Value(h.b) == 0x45ff6ce4 && Value(h.c) == 0x7240c7ed
            && Value(h.d) == 0x4e884a6f && Value(h.e) == 0x9dc7b4fb
  {
    hide HashAfter, Compress, MessageBits, Pad, OfVector, W, WordsA, Value, Initial;
    PaddedKnown();
    var block: Block := MessageBits(Padded());
    PaddedWords();
    OneBlock(block);
    DigestKnown(block);
  }

  lemma HexStep(n: nat, q: nat, d: nat)
    requires d < 16
    ensures Hex(n + 1, 16 * q + d) == Hex(n, q) + [HexDigit(d)]
  {
  }

  lemma HexNothing(x: nat)
    ensures Hex(0, x) == ""
  {
  }

  lemma HexEight(x: nat, d1: nat, d2: nat, d3: nat, d4: nat, d5: nat, d6: nat, d7: nat, d8: nat)
    requires d1 < 16 && d2 < 16 && d3 < 16 && d4 < 16 && d5 < 16 && d6 < 16 && d7 < 16 && d8 < 16
    requires x == 0x1000_0000 * d1 + 0x100_0000 * d2 + 0x10_0000 * d3 + 0x1_0000 * d4
                  + 0x1000 * d5 + 0x100 * d6 + 0x10 * d7 + d8
    ensures Hex(8, x) == [HexDigit(d1), HexDigit(d2), HexDigit(d3), HexDigit(d4),
                          HexDigit(d5), HexDigit(d6), HexDigit(d7), HexDigit(d8)]
  {
    hide Hex, HexDigit;
    var q2 := 16 * d1 + d2;
    var q3 := 16 * q2 + d3;
    var q4 := 16 * q3 + d4;
    var q5 := 16 * q4 + d5;
    var q6 := 16 * q5 + d6;
    var q7 := 16 * q6 + d7;
    HexNothing(0);
    HexStep(0, 0, d1);
    HexStep(1, d1, d2);
    HexStep(2, q2, d3);
    HexStep(3, q3, d4);
    HexStep(4, q4, d5);
    HexStep(5, q5, d6);
    HexStep(6, q6, d7);
    HexStep(7, q7, d8);
  }

  lemma HexWords()
    ensures Hex(8, 0x888f807d) == "888f807d"
    ensures Hex(8, 0x45ff6ce4) == "45ff6ce4"
    ensures Hex(8, 0x7240c7ed) == "7240c7ed"
    ensures Hex(8, 0x4e884a6f) == "4e884a6f"
    ensures Hex(8, 0x9dc7b4fb) == "9dc7b4fb"
  {
    hide Hex;
    HexEight(0x888f807d, 8, 8, 8, 15, 8, 0, 7, 13);
    HexEight(0x45ff6ce4, 4, 5, 15, 15, 6, 12, 14, 4);
    HexEight(0x7240c7ed, 7, 2, 4, 0, 12, 7, 14, 13);
    HexEight(0x4e884a6f, 4, 14, 8, 8, 4, 10, 6, 15);
    HexEight(0x9dc7b4fb, 9, 13, 12, 7, 11, 4, 15, 11);
  }

  /** sha1.sha1("sheeps") */
  lemma DigestOfSheeps()
    ensures Sha1Text("sheeps") == "888f807d45ff6ce47240c7ed4e884a6f9dc7b4fb"
  {
    hide Fips180.Sha1, MessageBits, Value, Hex;
    Sha1Known();
    HexWords();
    assert Sha1Text("sheeps") == "888f807d" + "45ff6ce4" + "7240c7ed" + "4e884a6f" + "9dc7b4fb";
  }

  /**
   * A line of two regions, with gaps and a first body of any kind, as in the repository's test: the second
   * region holds the word in capital tags, and there is no salt.
   */
  lemma SheepsRedacted(first: string, body: string, second: string)
    requires '<' !in first && '<' !in body && '<' !in second
    ensures Redact(first + ("<ud>" + (body + ("</ud>" + (second + ("<UD>" + ("sheeps" + ("</UD>" + ""))))))),
                   Salted(Sha1Text, ""))
         == first + ("<ud>" + (Sha1Text(body) + ("</ud>" + (second
              + ("<ud>" + ("888f807d45ff6ce47240c7ed4e884a6f9dc7b4fb" + ("</ud>" + "")))))))
  {
    hide *;
    DigestOfSheeps();
    assert "" + body == body && "" + "sheeps" == "sheeps";
    NothingToRedact("", Salted(Sha1Text, ""));
    SaltIsHashed(second, "sheeps", "", Sha1Text, "");
    SaltIsHashed(first, body, second + ("<UD>" + ("sheeps" + ("</UD>" + ""))), Sha1Text, "");
  }
}
