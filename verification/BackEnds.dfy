/**
 * The operator tables the SHA-1 code selects from (lua/sha1/init.lua, choose_ops, and the four
 * *_ops.lua files), behind one interface: what number stands for what word, and which word function
 * each operator computes.
 */
module BackEnds {
  import opened Bits
  import opened OpCache
  import opened Fips180
  import opened MachineOps
  import opened WordOps

  datatype Ops = PureLua(andCache: map<int, int>, xorCache: map<int, int>) | Lua53 | BitLib | Bit32Lib
  {
    /** The lookup tables have been loaded. */
    ghost predicate Ready()
    {
      PureLua? ==> IsAndTable(andCache) && IsXorTable(xorCache)
    }

    /** The range of the numbers this back end can meet. */
    predicate Number(x: int)
    {
      if BitLib? then -0x8000_0000 <= x < TWO32 else 0 <= x < TWO32
    }

    /** The number x stands for the word w: equal to its value, or congruent to it for `bit`. */
    ghost predicate Holds(x: int, w: Word)
    {
      if BitLib? then Number(x) && Unsigned32(x) == Value(w) else x == Value(w)
    }

    function Lrot(a: int, bits: nat): int
      requires bits <= 32
    {
      match this
      case PureLua(_, _) => PureLrot(a, bits)
      case Lua53 => LuaOr(LuaAnd(LuaShl(a, bits), 0xFFFF_FFFF), LuaShr(a, 32 - bits))
      case BitLib => BitRol(a, bits)
      case Bit32Lib => Bit32Lrotate(a, bits)
    }

    function ByteXor(a: int, b: int): int
      requires Ready() && IsByte(a) && IsByte(b)
    {
      match this
      case PureLua(_, xorCache) => LookXor(xorCache, a, b)
      case Lua53 => LuaXor(a, b)
      case BitLib => BitXor(a, b)
      case Bit32Lib => Bit32Xor(a, b)
    }

    function Xor3(a: int, b: int, c: int): int
      requires Ready() && Number(a) && Number(b) && Number(c)
    {
      match this
      case PureLua(_, xorCache) => PureXor3(xorCache, a, b, c)
      case Lua53 => LuaXor(LuaXor(a, b), c)
      case BitLib => BitXor(BitXor(a, b), c)
      case Bit32Lib => Bit32Xor(Bit32Xor(a, b), c)
    }

    function Xor4(a: int, b: int, c: int, d: int): int
      requires Ready() && Number(a) && Number(b) && Number(c) && Number(d)
    {
      match this
      case PureLua(_, xorCache) => PureXor4(xorCache, a, b, c, d)
      case Lua53 => LuaXor(LuaXor(LuaXor(a, b), c), d)
      case BitLib => BitXor(BitXor(BitXor(a, b), c), d)
      case Bit32Lib => Bit32Xor(Bit32Xor(Bit32Xor(a, b), c), d)
    }

    /** c ~ (a & (b ~ c)), or the table form. */
    function Ternary(a: int, b: int, c: int): int
      requires Ready() && Number(a) && Number(b) && Number(c)
    {
      match this
      case PureLua(andCache, _) => PureTernary(andCache, a, b, c)
      case Lua53 => LuaXor(c, LuaAnd(a, LuaXor(b, c)))
      case BitLib => BitXor(c, BitAnd(a, BitXor(b, c)))
      case Bit32Lib => Bit32Xor(c, Bit32And(a, Bit32Xor(b, c)))
    }

    /** (a & (b | c)) | (b & c), or the table form. */
    function Majority(a: int, b: int, c: int): int
      requires Ready() && Number(a) && Number(b) && Number(c)
    {
      match this
      case PureLua(andCache, xorCache) => PureMajority(andCache, xorCache, a, b, c)
      case Lua53 => LuaOr(LuaAnd(a, LuaOr(b, c)), LuaAnd(b, c))
      case BitLib => BitOr(BitAnd(a, BitOr(b, c)), BitAnd(b, c))
      case Bit32Lib => Bit32Or(Bit32And(a, Bit32Or(b, c)), Bit32And(b, c))
    }

    lemma HoldsNumber(x: int, w: Word)
      requires Holds(x, w)
      ensures Number(x) && Unsigned32(x) == Value(w)
    {
      WordBounds(w);
    }

    lemma SignedHolds(w: Word)
      requires BitLib?
      ensures Holds(Signed32(Value(w)), w)
    {
      WordBounds(w);
      SignedRoundTrip(Value(w));
    }

    lemma LrotCorrect(a: int, w: Word, bits: nat)
      requires Ready() && Holds(a, w) && bits <= 32
      ensures Holds(Lrot(a, bits), Rotl(w, bits))
    {
      HoldsNumber(a, w);
      match this
      case PureLua(_, _) => PureLrotCorrect(w, bits);
      case Lua53 => LuaRotate(w, bits);
      case BitLib => RotateOnWords(a, w, bits); SignedHolds(Rotl(w, bits));
      case Bit32Lib => RotateOnWords(a, w, bits);
    }

    lemma BitStep(a: int, b: int, s: Word, t: Word)
      requires BitLib? && Holds(a, s) && Holds(b, t)
      ensures Holds(BitAnd(a, b), And(s, t)) && Holds(BitOr(a, b), Or(s, t)) && Holds(BitXor(a, b), Xor(s, t))
    {
      BitOnWords(a, b, s, t);
      SignedHolds(And(s, t));
      SignedHolds(Or(s, t));
      SignedHolds(Xor(s, t));
    }

    lemma Bit32Step(a: int, b: int, s: Word, t: Word)
      requires Bit32Lib? && Holds(a, s) && Holds(b, t)
      ensures Holds(Bit32And(a, b), And(s, t)) && Holds(Bit32Or(a, b), Or(s, t)) && Holds(Bit32Xor(a, b), Xor(s, t))
    {
      HoldsNumber(a, s);
      HoldsNumber(b, t);
      BitOnWords(a, b, s, t);
    }

    lemma LuaStep(a: int, b: int, s: Word, t: Word)
      requires Lua53? && Holds(a, s) && Holds(b, t)
      ensures Holds(LuaAnd(a, b), And(s, t)) && Holds(LuaOr(a, b), Or(s, t)) && Holds(LuaXor(a, b), Xor(s, t))
    {
      LuaOnWords(s, t);
    }

    lemma Xor3Correct(a: int, b: int, c: int, s: Word, t: Word, u: Word)
      requires Ready() && Holds(a, s) && Holds(b, t) && Holds(c, u)
      ensures Number(a) && Number(b) && Number(c)
      ensures Holds(Xor3(a, b, c), Parity(s, t, u))
    {
      HoldsNumber(a, s);
      HoldsNumber(b, t);
      HoldsNumber(c, u);
      match this
      case PureLua(_, xorCache) => PureXor3Correct(xorCache, s, t, u);
      case Lua53 => LuaStep(a, b, s, t); LuaStep(LuaXor(a, b), c, Xor(s, t), u);
      case BitLib => BitStep(a, b, s, t); BitStep(BitXor(a, b), c, Xor(s, t), u);
      case Bit32Lib => Bit32Step(a, b, s, t); Bit32Step(Bit32Xor(a, b), c, Xor(s, t), u);
    }

    lemma Xor4Correct(a: int, b: int, c: int, d: int, s: Word, t: Word, u: Word, v: Word)
      requires Ready() && Holds(a, s) && Holds(b, t) && Holds(c, u) && Holds(d, v)
      ensures Number(a) && Number(b) && Number(c) && Number(d)
      ensures Holds(Xor4(a, b, c, d), Xor(Xor(Xor(s, t), u), v))
    {
      HoldsNumber(a, s);
      HoldsNumber(b, t);
      HoldsNumber(c, u);
      HoldsNumber(d, v);
      match this
      case PureLua(_, xorCache) => PureXor4Correct(xorCache, s, t, u, v);
      case Lua53 =>
        LuaStep(a, b, s, t);
        LuaStep(LuaXor(a, b), c, Xor(s, t), u);
        LuaStep(LuaXor(LuaXor(a, b), c), d, Xor(Xor(s, t), u), v);
      case BitLib =>
        BitStep(a, b, s, t);
        BitStep(BitXor(a, b), c, Xor(s, t), u);
        BitStep(BitXor(BitXor(a, b), c), d, Xor(Xor(s, t), u), v);
      case Bit32Lib =>
        Bit32Step(a, b, s, t);
        Bit32Step(Bit32Xor(a, b), c, Xor(s, t), u);
        Bit32Step(Bit32Xor(Bit32Xor(a, b), c), d, Xor(Xor(s, t), u), v);
    }

    lemma TernaryCorrect(a: int, b: int, c: int, s: Word, t: Word, u: Word)
      requires Ready() && Holds(a, s) && Holds(b, t) && Holds(c, u)
      ensures Number(a) && Number(b) && Number(c)
      ensures Holds(Ternary(a, b, c), Ch(s, t, u))
    {
      HoldsNumber(a, s);
      HoldsNumber(b, t);
      HoldsNumber(c, u);
      assert Xor(u, And(s, Xor(t, u))) == Ch(s, t, u);
      match this
      case PureLua(andCache, _) => PureTernaryCorrect(andCache, s, t, u);
      case Lua53 =>
        LuaStep(b, c, t, u);
        LuaStep(a, LuaXor(b, c), s, Xor(t, u));
        LuaStep(c, LuaAnd(a, LuaXor(b, c)), u, And(s, Xor(t, u)));
      case BitLib =>
        BitStep(b, c, t, u);
        BitStep(a, BitXor(b, c), s, Xor(t, u));
        BitStep(c, BitAnd(a, BitXor(b, c)), u, And(s, Xor(t, u)));
      case Bit32Lib =>
        Bit32Step(b, c, t, u);
        Bit32Step(a, Bit32Xor(b, c), s, Xor(t, u));
        Bit32Step(c, Bit32And(a, Bit32Xor(b, c)), u, And(s, Xor(t, u)));
    }

    lemma MajorityCorrect(a: int, b: int, c: int, s: Word, t: Word, u: Word)
      requires Ready() && Holds(a, s) && Holds(b, t) && Holds(c, u)
      ensures Number(a) && Number(b) && Number(c)
      ensures Holds(Majority(a, b, c), Maj(s, t, u))
    {
      HoldsNumber(a, s);
      HoldsNumber(b, t);
      HoldsNumber(c, u);
      assert Or(And(s, Or(t, u)), And(t, u)) == Maj(s, t, u);
      match this
      case PureLua(andCache, xorCache) => PureMajorityCorrect(andCache, xorCache, s, t, u);
      case Lua53 =>
        LuaStep(b, c, t, u);
        LuaStep(a, LuaOr(b, c), s, Or(t, u));
        LuaStep(LuaAnd(a, LuaOr(b, c)), LuaAnd(b, c), And(s, Or(t, u)), And(t, u));
      case BitLib =>
        BitStep(b, c, t, u);
        BitStep(a, BitOr(b, c), s, Or(t, u));
        BitStep(BitAnd(a, BitOr(b, c)), BitAnd(b, c), And(s, Or(t, u)), And(t, u));
      case Bit32Lib =>
        Bit32Step(b, c, t, u);
        Bit32Step(a, Bit32Or(b, c), s, Or(t, u));
        Bit32Step(Bit32And(a, Bit32Or(b, c)), Bit32And(b, c), And(s, Or(t, u)), And(t, u));
    }
  }

  lemma LuaXorOctets(s: Octet, t: Octet)
    ensures LuaXor(Value(s), Value(t)) == Value(Xor(s, t))
  {
    hide LuaXor, Value, Zeros;
    var (s', t', x) := (Zeros(24) + s, Zeros(24) + t, Xor(s, t));
    LuaOnWords(s', t');
    Extend(24, s);
    Extend(24, t);
    Extend(24, x);
    XorExtended(24, s, t);
  }

  lemma XorExtended(n: nat, s: seq<bool>, t: seq<bool>)
    requires |s| == |t|
    ensures Xor(Zeros(n) + s, Zeros(n) + t) == Zeros(n) + Xor(s, t)
  {
  }

  lemma BitXorOctets(s: Octet, t: Octet)
    ensures BitXor(Value(s), Value(t)) == Value(Xor(s, t)) == Bit32Xor(Value(s), Value(t))
  {
    var (s', t') := (Zeros(24) + s, Zeros(24) + t);
    Extend(24, s);
    Extend(24, t);
    OctetIsByte(s);
    OctetIsByte(t);
    BitOnWords(Value(s), Value(t), s', t');
    assert Xor(s', t') == Zeros(24) + Xor(s, t);
    Extend(24, Xor(s, t));
    OctetIsByte(Xor(s, t));
  }

  lemma ByteXorCorrect(ops: Ops, s: Octet, t: Octet)
    requires ops.Ready()
    ensures IsByte(Value(s)) && IsByte(Value(t))
    ensures ops.ByteXor(Value(s), Value(t)) == Value(Xor(s, t))
  {
    OctetIsByte(s);
    OctetIsByte(t);
    match ops
    case PureLua(_, xorCache) => LookXorOctets(xorCache, s, t);
    case Lua53 => LuaXorOctets(s, t);
    case BitLib => BitXorOctets(s, t);
    case Bit32Lib => BitXorOctets(s, t);
  }

  /** The back end is selected by what the Lua runtime offers. */
  method ChooseOps(isLua53: bool, hasBit: bool, hasBit32: bool) returns (ops: Ops)
    ensures ops.Ready()
    ensures ops.Lua53? == isLua53
    ensures ops.BitLib? == (!isLua53 && hasBit)
    ensures ops.Bit32Lib? == (!isLua53 && !hasBit && hasBit32)
  {
    if isLua53 {
      ops := Lua53;
    } else if hasBit {
      ops := BitLib;
    } else if hasBit32 {
      ops := Bit32Lib;
    } else {
      var andCache, xorCache := LoadByteTables();
      ops := PureLua(andCache, xorCache);
    }
  }
}
