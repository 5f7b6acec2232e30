/** The bitwise CRC-32 of the PNG writer, against polynomial division
    (section 3.4 of RFC 2083). */
module Crc32 {
  import opened Bytes

  const POLY: bv32 := 0xEDB8_8320
  const INIT: bv32 := 0xFFFF_FFFF

  predicate Low(x: bv32) { x & 1 != 0 }
  function Half(x: bv32): bv32 { x >> 1 }
  function Xor(x: bv32, y: bv32): bv32 { x ^ y }

  /** One round of the inner loop. */
  function Shift(crc: bv32): bv32 {
    if Low(crc) then Xor(POLY, Half(crc)) else Half(crc)
  }

  function Shifts(crc: bv32, n: nat): bv32
    decreases n, crc
  {
    if n == 0 then crc else Shifts(Shift(crc), n - 1)
  }

  /** A byte widened to the register: `b as u32`. */
  function Wide(b: byte): bv32 { b as bv32 }

  /** The register after `data`, from register `crc`. */
  function Feed(crc: bv32, data: seq<byte>): bv32
    decreases |data|
  {
    if data == [] then crc else Feed(Shifts(Xor(crc, Wide(data[0])), 8), data[1..])
  }

  function Crc(data: seq<byte>): bv32 {
    Xor(Feed(INIT, data), INIT)
  }

  lemma ShiftsStep(crc: bv32, n: nat)
    requires n > 0
    ensures Shifts(crc, n) == Shifts(Shift(crc), n - 1)
  {
  }

  lemma FeedStep(crc: bv32, data: seq<byte>, k: nat)
    requires k < |data|
    ensures Feed(crc, data[k..]) == Feed(Shifts(Xor(crc, Wide(data[k])), 8), data[k + 1..])
  {
    assert data[k..][0] == data[k] && data[k..][1..] == data[k + 1..];
  }

  method ComputeCrc(data: seq<byte>) returns (r: bv32)
    ensures r == Crc(data)
  {
    var crc := INIT;
    for k := 0 to |data|
      invariant Feed(crc, data[k..]) == Feed(INIT, data)
    {
      FeedStep(crc, data, k);
      crc := Round(crc, data[k]);
    }
    Complement(crc);
    r := !crc;
  }

  /** The body of the loop over the bytes. */
  method Round(register: bv32, b: byte) returns (crc: bv32)
    ensures crc == Shifts(Xor(register, Wide(b)), 8)
  {
    var w := Wide(b);
    crc := register ^ w;
    ghost var start := crc;
    for i := 0 to 8
      invariant Shifts(crc, 8 - i) == Shifts(start, 8)
    {
      ShiftsStep(crc, 8 - i);
      ShiftWritten(crc);
      crc := if crc & 1 != 0 then 0xEDB8_8320 ^ (crc >> 1) else crc >> 1;
    }
  }

  lemma ShiftWritten(crc: bv32)
    ensures Shift(crc) == if crc & 1 != 0 then 0xEDB8_8320 ^ (crc >> 1) else crc >> 1
  {
  }

  lemma Complement(x: bv32)
    ensures !x == Xor(x, INIT)
  {
  }

  // ---------------------------------------------------------- bit by bit

  function Unit(b: bool): bv32 { if b then 1 else 0 }

  function FeedBits(crc: bv32, bits: seq<bool>): bv32
    decreases |bits|
  {
    if bits == [] then crc else FeedBits(Shift(Xor(crc, Unit(bits[0]))), bits[1..])
  }

  function Halves(x: bv32, n: nat): bv32
    decreases n, x
  {
    if n == 0 then x else Halves(Half(x), n - 1)
  }

  /** The `n` low bits of `x`, least significant first. */
  function BvBits(x: bv32, n: nat): (r: seq<bool>)
    ensures |r| == n
    decreases n
  {
    if n == 0 then [] else [Low(x)] + BvBits(Half(x), n - 1)
  }

  lemma ShiftXor(c: bv32, y: bv32)
    ensures Shift(Xor(c, y)) == Xor(Shift(Xor(c, Unit(Low(y)))), Half(y))
  {
    var c' := Xor(c, Unit(Low(y)));
    LowSplit(c, y);
    HalfSplit(c, y);
    XorAssoc(POLY, Half(c'), Half(y));
  }

  lemma LowSplit(c: bv32, y: bv32)
    ensures Low(Xor(c, y)) == Low(Xor(c, Unit(Low(y))))
  {
  }

  lemma HalfSplit(c: bv32, y: bv32)
    ensures Half(Xor(c, y)) == Xor(Half(Xor(c, Unit(Low(y)))), Half(y))
  {
  }

  lemma XorAssoc(x: bv32, y: bv32, z: bv32)
    ensures Xor(x, Xor(y, z)) == Xor(Xor(x, y), z)
  {
  }

  /** Adding a word at once and shifting is adding its bits one by one. */
  lemma {:induction false} ShiftsAddBits(c: bv32, y: bv32, n: nat)
    ensures Shifts(Xor(c, y), n) == Xor(FeedBits(c, BvBits(y, n)), Halves(y, n))
    decreases n
  {
    if n > 0 {
      ShiftsAddBits(Shift(Xor(c, Unit(Low(y)))), Half(y), n - 1);
      AddBitStep(c, y, n);
    }
  }

  lemma AddBitStep(c: bv32, y: bv32, n: nat)
    requires n > 0
    requires var c' := Shift(Xor(c, Unit(Low(y))));
             Shifts(Xor(c', Half(y)), n - 1) == Xor(FeedBits(c', BvBits(Half(y), n - 1)), Halves(Half(y), n - 1))
    ensures Shifts(Xor(c, y), n) == Xor(FeedBits(c, BvBits(y, n)), Halves(y, n))
  {
    ShiftXor(c, y);
    ShiftsStep(Xor(c, y), n);
    FeedBitsCons(c, Low(y), BvBits(Half(y), n - 1));
  }

  lemma FeedBitsCons(c: bv32, b: bool, bits: seq<bool>)
    ensures FeedBits(c, [b] + bits) == FeedBits(Shift(Xor(c, Unit(b))), bits)
  {
    assert ([b] + bits)[1..] == bits;
  }

  lemma {:induction false} WideSplit(k: byte)
    ensures Low(Wide(k)) == (k % 2 == 1) && Half(Wide(k)) == Wide(k / 2)
  {
  }

  lemma {:induction false} WideBits(k: byte, n: nat)
    ensures BvBits(Wide(k), n) == LowBits(k, n)
    decreases n
  {
    if n > 0 {
      WideSplit(k);
      WideBits(k / 2, n - 1);
    }
  }

  lemma {:induction false} WideRunsOut(k: byte, n: nat)
    requires k < Pow2(n)
    ensures Halves(Wide(k), n) == 0
    decreases n
  {
    if n > 0 {
      WideSplit(k);
      WideRunsOut(k / 2, n - 1);
    }
  }

  lemma {:induction false} FeedBitsAppend(crc: bv32, u: seq<bool>, v: seq<bool>)
    ensures FeedBits(crc, u + v) == FeedBits(FeedBits(crc, u), v)
    decreases |u|
  {
    if u == [] {
      assert u + v == v;
    } else {
      assert u + v == [u[0]] + (u[1..] + v);
      FeedBitsCons(crc, u[0], u[1..] + v);
      FeedBitsAppend(Shift(Xor(crc, Unit(u[0]))), u[1..], v);
    }
  }

  lemma XorZero(x: bv32)
    ensures Xor(x, 0) == x
  {
  }

  lemma ByteIsItsBits(crc: bv32, b: byte)
    ensures Shifts(Xor(crc, Wide(b)), 8) == FeedBits(crc, LowBits(b, 8))
  {
    Pow2Values();
    ShiftsAddBits(crc, Wide(b), 8);
    WideBits(b, 8);
    WideRunsOut(b, 8);
    XorZero(FeedBits(crc, LowBits(b, 8)));
  }

  /** Byte at a time is bit at a time. */
  lemma {:induction false} FeedIsFeedBits(crc: bv32, data: seq<byte>)
    ensures Feed(crc, data) == FeedBits(crc, BitsOf(data))
    decreases |data|
  {
    if data != [] {
      ByteIsItsBits(crc, data[0]);
      FeedIsFeedBits(FeedBits(crc, LowBits(data[0], 8)), data[1..]);
      FeedBitsAppend(crc, LowBits(data[0], 8), BitsOf(data[1..]));
    }
  }

  // ------------------------------------------------- polynomial division

  /** Polynomials over GF(2) as coefficient lists, highest degree first. */
  type Poly = seq<bool>

  /** x^32 + x^26 + x^23 + x^22 + x^16 + x^12 + x^11 + x^10 + x^8 + x^7 + x^5
      + x^4 + x^2 + x + 1, without its leading term. */
  function Generator(): (r: Poly)
    ensures |r| == 32
  {
    seq(32, i requires 0 <= i => 31 - i in {26, 23, 22, 16, 12, 11, 10, 8, 7, 5, 4, 2, 1, 0})
  }

  /** `q` added to the leading coefficients of `p`. */
  function AddTop(p: Poly, q: Poly): (r: Poly)
    requires |q| <= |p|
    ensures |r| == |p|
  {
    seq(|p|, i requires 0 <= i < |p| => if i < |q| then p[i] != q[i] else p[i])
  }

  /** What one step of long division leaves. */
  function Reduced(p: Poly): (r: Poly)
    requires |p| > 32
    ensures |r| == |p| - 1
  {
    if p[0] then AddTop(p[1..], Generator()) else p[1..]
  }

  /** The remainder of long division by the generator. */
  function Rem(p: Poly): (r: Poly)
    requires |p| >= 32
    ensures |r| == 32
    decreases |p|
  {
    if |p| == 32 then p else Rem(Reduced(p))
  }

  function Zeros(n: nat): (r: Poly)
    ensures |r| == n
  {
    seq(n, _ => false)
  }

  function Ones(n: nat): (r: Poly)
    ensures |r| == n
  {
    seq(n, _ => true)
  }

  /** Bit `i` of the register; bit 0 is the coefficient of x^31. */
  predicate Bit(x: bv32, i: nat) {
    Low(Halves(x, i))
  }

  function Coefficients(x: bv32): (r: Poly)
    ensures |r| == 32
  {
    seq(32, i requires 0 <= i => Bit(x, i))
  }

  lemma HalfXor(x: bv32, y: bv32)
    ensures Half(Xor(x, y)) == Xor(Half(x), Half(y))
  {
  }

  lemma LowXor(x: bv32, y: bv32)
    ensures Low(Xor(x, y)) == (Low(x) != Low(y))
  {
  }

  lemma {:induction false} HalvesXor(x: bv32, y: bv32, n: nat)
    ensures Halves(Xor(x, y), n) == Xor(Halves(x, n), Halves(y, n))
    decreases n
  {
    if n > 0 {
      HalfXor(x, y);
      HalvesXor(Half(x), Half(y), n - 1);
    }
  }

  lemma BitXor(x: bv32, y: bv32, i: nat)
    ensures Bit(Xor(x, y), i) == (Bit(x, i) != Bit(y, i))
  {
    HalvesXor(x, y, i);
    LowXor(Halves(x, i), Halves(y, i));
  }

  lemma {:induction false} HalvesAdd(x: bv32, m: nat, n: nat)
    ensures Halves(x, m + n) == Halves(Halves(x, m), n)
    decreases m
  {
    if m > 0 {
      HalvesAdd(Half(x), m - 1, n);
    }
  }

  /** `k` halvings at once are one shift by `k`. */
  lemma Halve1(x: bv32, n: nat)
    requires n >= 1
    ensures Halves(x, n) == Halves(x >> 1, n - 1)
  {
  }

  lemma Halve2(x: bv32, n: nat)
    requires n >= 2
    ensures Halves(x, n) == Halves(x >> 2, n - 2)
  {
    Halve1(x, n);
    Halve1(x >> 1, n - 1);
    Shift2(x);
  }

  lemma Shift2(x: bv32)
    ensures (x >> 1) >> 1 == x >> 2
  {
  }

  lemma Halve4(x: bv32, n: nat)
    requires n >= 4
    ensures Halves(x, n) == Halves(x >> 4, n - 4)
  {
    Halve2(x, n);
    Halve2(x >> 2, n - 2);
    Shift4(x);
  }

  lemma Shift4(x: bv32)
    ensures (x >> 2) >> 2 == x >> 4
  {
  }

  lemma Halve8(x: bv32, n: nat)
    requires n >= 8
    ensures Halves(x, n) == Halves(x >> 8, n - 8)
  {
    Halve4(x, n);
    Halve4(x >> 4, n - 4);
    Shift8(x);
  }

  lemma Shift8(x: bv32)
    ensures (x >> 4) >> 4 == x >> 8
  {
  }

  lemma Halve16(x: bv32, n: nat)
    requires n >= 16
    ensures Halves(x, n) == Halves(x >> 16, n - 16)
  {
    Halve8(x, n);
    Halve8(x >> 8, n - 8);
    Shift16(x);
  }

  lemma Shift16(x: bv32)
    ensures (x >> 8) >> 8 == x >> 16
  {
  }

  /** Nothing is left of a register after 32 halvings. */
  lemma HalvesRunOut(x: bv32, n: nat)
    requires n == 32
    ensures Halves(x, n) == 0
  {
    Halve16(x, n);
    Halve16(x >> 16, n - 16);
    ShiftedOut(x);
  }

  lemma ShiftedOut(x: bv32)
    ensures (x >> 16) >> 16 == 0
  {
  }

  lemma {:induction false} BvBitsAt(x: bv32, n: nat, i: nat)
    requires i < n
    ensures BvBits(x, n)[i] == Bit(x, i)
    decreases n
  {
    if i > 0 {
      BvBitsAt(Half(x), n - 1, i - 1);
    }
  }

  /** Bits `m` to `m + 7` of `x` are the low eight after a shift by `m`. */
  lemma EightBits(x: bv32, m: nat, y: bv32, low: seq<bool>)
    requires y == Halves(x, m) && low == BvBits(y, 8)
    ensures forall i: nat :: m <= i < m + 8 ==> Bit(x, i) == low[i - m]
  {
    forall i: nat | m <= i < m + 8 ensures Bit(x, i) == low[i - m] {
      HalvesAdd(x, m, i - m);
      BvBitsAt(y, 8, i - m);
    }
  }

  /** The low byte of `y`, bit by bit. */
  function LowByte(y: bv32): seq<bool> {
    [y & 1 != 0, y & 2 != 0, y & 4 != 0, y & 8 != 0, y & 16 != 0, y & 32 != 0, y & 64 != 0, y & 128 != 0]
  }

  lemma {:induction false} BvBitsAppend(x: bv32, m: nat, n: nat)
    ensures BvBits(x, m + n) == BvBits(x, m) + BvBits(Halves(x, m), n)
    decreases m
  {
    if m > 0 {
      BvBitsAppend(Half(x), m - 1, n);
    }
  }

  lemma FourBits(y: bv32)
    ensures BvBits(y, 4) == [y & 1 != 0, y & 2 != 0, y & 4 != 0, y & 8 != 0]
  {
  }

  lemma FourHigher(y: bv32)
    ensures ((y >> 4) & 1 != 0) == (y & 16 != 0) && ((y >> 4) & 2 != 0) == (y & 32 != 0)
    ensures ((y >> 4) & 4 != 0) == (y & 64 != 0) && ((y >> 4) & 8 != 0) == (y & 128 != 0)
  {
  }

  lemma LowByteBits(y: bv32, n: nat)
    requires n == 4
    ensures BvBits(y, n + n) == LowByte(y)
  {
    BvBitsAppend(y, n, n);
    Halve4(y, n);
    FourBits(y);
    FourBits(y >> 4);
    FourHigher(y);
  }

  lemma InitBytes()
    ensures INIT >> 8 == 0xFF_FFFF && INIT >> 16 == 0xFFFF && (INIT >> 16) >> 8 == 0xFF
    ensures LowByte(INIT) == LowByte(0xFF_FFFF) == LowByte(0xFFFF) == LowByte(0xFF)
            == [true, true, true, true, true, true, true, true]
  {
  }

  lemma PolyBytes()
    ensures POLY >> 8 == 0xED_B883 && POLY >> 16 == 0xEDB8 && (POLY >> 16) >> 8 == 0xED
    ensures LowByte(POLY) == [false, false, false, false, false, true, false, false]
    ensures LowByte(0xED_B883) == [true, true, false, false, false, false, false, true]
    ensures LowByte(0xEDB8) == [false, false, false, true, true, true, false, true]
    ensures LowByte(0xED) == [true, false, true, true, false, true, true, true]
  {
  }

  /** The bits of a constant, from the low bytes of its shifts. */
  lemma BitsByBytes(x: bv32)
    ensures forall i: nat :: i < 8 ==> Bit(x, i) == LowByte(x)[i]
    ensures forall i: nat :: 8 <= i < 16 ==> Bit(x, i) == LowByte(x >> 8)[i - 8]
    ensures forall i: nat :: 16 <= i < 24 ==> Bit(x, i) == LowByte(x >> 16)[i - 16]
    ensures forall i: nat :: 24 <= i < 32 ==> Bit(x, i) == LowByte((x >> 16) >> 8)[i - 24]
  {
    ByteAt(x, 0, x);
    SecondByte(x);
    ThirdByte(x);
    FourthByte(x);
  }

  lemma SecondByte(x: bv32)
    ensures forall i: nat :: 8 <= i < 16 ==> Bit(x, i) == LowByte(x >> 8)[i - 8]
  {
    Halve8(x, 8);
    ByteAt(x, 8, x >> 8);
  }

  lemma ThirdByte(x: bv32)
    ensures forall i: nat :: 16 <= i < 24 ==> Bit(x, i) == LowByte(x >> 16)[i - 16]
  {
    Halve16(x, 16);
    ByteAt(x, 16, x >> 16);
  }

  lemma {:induction false} FourthByte(x: bv32)
    ensures forall i: nat :: 24 <= i < 32 ==> Bit(x, i) == LowByte((x >> 16) >> 8)[i - 24]
  {
    HalvesAdd(x, 16, 8);
    Halve16(x, 16);
    Halve8(x >> 16, 8);
    ByteAt(x, 24, (x >> 16) >> 8);
  }

  lemma ByteAt(x: bv32, m: nat, y: bv32)
    requires y == Halves(x, m)
    ensures forall i: nat :: m <= i < m + 8 ==> Bit(x, i) == LowByte(y)[i - m]
  {
    LowByteBits(y, 4);
    EightBits(x, m, y, LowByte(y));
  }

  lemma InitIsOnes()
    ensures forall i: nat :: i < 32 ==> Bit(INIT, i)
  {
    InitBytes();
    BitsByBytes(INIT);
  }

  lemma PolyIsGenerator()
    ensures Coefficients(POLY) == Generator()
  {
    PolyBytes();
    BitsByBytes(POLY);
    forall i: nat | i < 32 ensures Bit(POLY, i) == Generator()[i] {
    }
  }

  // ------------------------------------- the register holds the remainder

  /** What is left to divide when the register is `c` and `bits` are unread:
      the unread bits with 32 zeros behind them, the register added on top. */
  function Pending(c: bv32, bits: seq<bool>): (r: Poly)
    ensures |r| == |bits| + 32
  {
    AddTop(bits + Zeros(32), Coefficients(c))
  }

  lemma ShiftBit(c: bv32, i: nat)
    requires i < 32
    ensures Bit(Shift(c), i) == ((i < 31 && Bit(c, i + 1)) != (Low(c) && Generator()[i]))
  {
    PolyIsGenerator();
    assert Coefficients(POLY)[i] == Bit(POLY, i);
    HalvesRunOut(c, 32);
    BitXor(POLY, Half(c), i);
    assert Bit(Half(c), i) == Bit(c, i + 1);
    assert i == 31 ==> !Bit(c, 32);
  }

  lemma RemStep(p: Poly)
    requires |p| > 32
    ensures Rem(p) == Rem(Reduced(p))
  {
  }

  /** One register step is one step of the division. */
  lemma DivisionStep(c: bv32, bits: seq<bool>)
    requires bits != []
    ensures Reduced(Pending(c, bits)) == Pending(Shift(Xor(c, Unit(bits[0]))), bits[1..])
  {
    hide Pending, Reduced, Xor, Shift, Unit;
    var c' := Xor(c, Unit(bits[0]));
    var p, q := Pending(c, bits), Pending(Shift(c'), bits[1..]);
    forall i | 0 <= i < |q| ensures q[i] == Reduced(p)[i] {
      DivisionAt(c, bits, i);
    }
  }

  lemma DivisionAt(c: bv32, bits: seq<bool>, i: nat)
    requires bits != [] && i < |bits| + 31
    ensures Reduced(Pending(c, bits))[i] == Pending(Shift(Xor(c, Unit(bits[0]))), bits[1..])[i]
  {
    hide Xor, Shift, Unit, Generator, Zeros, Bit, Low;
    var c' := Xor(c, Unit(bits[0]));
    FirstPending(c, bits);
    assert (bits[1..] + Zeros(32))[i] == (bits + Zeros(32))[i + 1];
    if i < 32 {
      ShiftedBit(c, bits[0], i);
    }
  }

  lemma FirstPending(c: bv32, bits: seq<bool>)
    requires bits != []
    ensures Pending(c, bits)[0] == Low(Xor(c, Unit(bits[0])))
  {
    LowXor(c, Unit(bits[0]));
  }

  lemma ShiftedBit(c: bv32, b: bool, i: nat)
    requires i < 32
    ensures var c' := Xor(c, Unit(b));
            Bit(Shift(c'), i) == ((i < 31 && Bit(c, i + 1)) != (Low(c') && Generator()[i]))
  {
    ShiftBit(Xor(c, Unit(b)), i);
    BitXor(c, Unit(b), i + 1);
    UnitBit(b, i + 1);
  }

  lemma UnitBit(b: bool, i: nat)
    requires i > 0
    ensures !Bit(Unit(b), i)
  {
    HalvesAdd(Unit(b), 1, i - 1);
    assert Halves(Unit(b), 1) == 0;
    ZeroHalves(i - 1);
  }

  lemma {:induction false} ZeroHalves(n: nat)
    ensures Halves(0, n) == 0
    decreases n
  {
    if n > 0 {
      ZeroHalves(n - 1);
    }
  }

  lemma {:induction false} FeedBitsDivides(c: bv32, bits: seq<bool>)
    ensures Coefficients(FeedBits(c, bits)) == Rem(Pending(c, bits))
    decreases |bits|
  {
    if bits == [] {
      assert Pending(c, []) == Coefficients(c);
    } else {
      DivisionStep(c, bits);
      RemStep(Pending(c, bits));
      FeedBitsDivides(Shift(Xor(c, Unit(bits[0]))), bits[1..]);
    }
  }

  /** The CRC is the complement of the remainder of the message, its first 32
      bits complemented and 32 zeros behind it. */
  lemma CrcIsRemainder(data: seq<byte>)
    ensures var r := Rem(AddTop(BitsOf(data) + Zeros(32), Ones(32)));
            forall i: nat :: i < 32 ==> Bit(Crc(data), i) == !r[i]
  {
    FeedIsFeedBits(INIT, data);
    FeedBitsDivides(INIT, BitsOf(data));
    InitIsOnes();
    assert Pending(INIT, BitsOf(data)) == AddTop(BitsOf(data) + Zeros(32), Ones(32));
    var c := Feed(INIT, data);
    forall i: nat | i < 32 ensures Bit(Crc(data), i) == !Coefficients(c)[i] {
      BitXor(c, INIT, i);
    }
  }

  /** `q` times the generator. */
  function Multiple(q: Poly): (r: Poly)
    ensures |r| == |q| + 32
  {
    if q == [] then Zeros(32)
    else if q[0] then [true] + AddTop(Multiple(q[1..]), Generator())
    else [false] + Multiple(q[1..])
  }

  /** `p` is `q` times the generator plus `r`. */
  ghost predicate Divides(p: Poly, q: Poly, r: Poly) {
    |r| == 32 && |p| == |q| + 32 &&
    forall i :: 0 <= i < |p| ==> p[i] == (Multiple(q)[i] != (i >= |q| && r[i - |q|]))
  }

  /** Dividing `p` is dividing what one step leaves, with one more term. */
  lemma DividesStep(p: Poly, q: Poly, r: Poly)
    requires |r| == 32 && |p| == |q| + 32 && q != []
    ensures Divides(p, q, r) <==> q[0] == p[0] && Divides(Reduced(p), q[1..], r)
  {
    if Divides(p, q, r) {
      DividesDown(p, q, r);
    }
    if q[0] == p[0] && Divides(Reduced(p), q[1..], r) {
      DividesUp(p, q, r);
    }
  }

  /** What is left of the two, one place on. */
  lemma StepAt(p: Poly, q: Poly, i: nat)
    requires |p| == |q| + 32 && q != [] && q[0] == p[0] && i < |p| - 1
    ensures (p[i + 1] != Multiple(q)[i + 1]) == (Reduced(p)[i] != Multiple(q[1..])[i])
  {
    hide Generator;
  }

  lemma FirstTerm(q: Poly)
    requires q != []
    ensures Multiple(q)[0] == q[0]
  {
    hide Generator, AddTop;
  }

  lemma DividesDown(p: Poly, q: Poly, r: Poly)
    requires Divides(p, q, r) && q != []
    ensures q[0] == p[0] && Divides(Reduced(p), q[1..], r)
  {
    hide Multiple, Reduced;
    FirstTerm(q);
    assert p[0] == Multiple(q)[0];
    forall i | 0 <= i < |p| - 1
      ensures Reduced(p)[i] == (Multiple(q[1..])[i] != (i >= |q| - 1 && r[i - (|q| - 1)]))
    {
      StepAt(p, q, i);
      assert p[i + 1] == (Multiple(q)[i + 1] != (i + 1 >= |q| && r[i + 1 - |q|]));
    }
  }

  lemma DividesUp(p: Poly, q: Poly, r: Poly)
    requires |r| == 32 && |p| == |q| + 32 && q != [] && q[0] == p[0] && Divides(Reduced(p), q[1..], r)
    ensures Divides(p, q, r)
  {
    hide Multiple, Reduced;
    FirstTerm(q);
    forall i | 0 <= i < |p| ensures p[i] == (Multiple(q)[i] != (i >= |q| && r[i - |q|])) {
      if i > 0 {
        StepAt(p, q, i - 1);
        assert Reduced(p)[i - 1] == (Multiple(q[1..])[i - 1] != (i - 1 >= |q| - 1 && r[i - 1 - (|q| - 1)]));
      }
    }
  }

  lemma {:induction false} RemDivides(p: Poly) returns (q: Poly)
    requires |p| >= 32
    ensures Divides(p, q, Rem(p))
    decreases |p|
  {
    if |p| == 32 {
      q := [];
    } else {
      var q' := RemDivides(Reduced(p));
      q := [p[0]] + q';
      assert q[1..] == q';
      DividesStep(p, q, Rem(p));
    }
  }

  lemma {:induction false} DivisionUnique(p: Poly, q: Poly, r: Poly)
    requires Divides(p, q, r)
    ensures r == Rem(p)
    decreases |p|
  {
    if q == [] {
      assert p == r;
    } else {
      DividesStep(p, q, r);
      DivisionUnique(Reduced(p), q[1..], r);
    }
  }

  /** Long division gives the one remainder there is. */
  lemma RemCharacterised(p: Poly, r: Poly)
    requires |p| >= 32
    ensures r == Rem(p) <==> exists q :: Divides(p, q, r)
  {
    var q := RemDivides(p);
    if exists q' :: Divides(p, q', r) {
      var q' :| Divides(p, q', r);
      DivisionUnique(p, q', r);
    }
  }

  // ------------------------------------------------------ error detection

  lemma ShiftInjective(c: bv32, d: bv32)
    requires Shift(c) == Shift(d)
    ensures c == d
  {
    TopBitTells(c);
    TopBitTells(d);
    Rejoin(c);
    Rejoin(d);
    assert Low(c) == Low(d);
    if Low(c) {
      XorCancel(Half(c));
      XorCancel(Half(d));
    }
  }

  lemma TopBitTells(c: bv32)
    ensures (Shift(c) & 0x8000_0000 != 0) == Low(c)
  {
  }

  lemma Rejoin(c: bv32)
    ensures c == (Half(c) << 1) | Unit(Low(c))
  {
  }

  lemma XorCancel(x: bv32)
    ensures Xor(POLY, Xor(POLY, x)) == x
  {
  }

  lemma XorCancelRight(c: bv32, d: bv32, y: bv32)
    requires Xor(c, y) == Xor(d, y)
    ensures c == d
  {
  }

  lemma {:induction false} FeedBitsInjective(c: bv32, d: bv32, bits: seq<bool>)
    requires FeedBits(c, bits) == FeedBits(d, bits)
    ensures c == d
    decreases |bits|
  {
    if bits != [] {
      var u := Unit(bits[0]);
      FeedBitsInjective(Shift(Xor(c, u)), Shift(Xor(d, u)), bits[1..]);
      ShiftInjective(Xor(c, u), Xor(d, u));
      XorCancelRight(c, d, u);
    }
  }

  function XorBits(u: seq<bool>, v: seq<bool>): (r: seq<bool>)
    requires |u| == |v|
    ensures |r| == |u|
  {
    seq(|u|, i requires 0 <= i < |u| => u[i] != v[i])
  }

  lemma ShiftLinear(c: bv32, d: bv32)
    ensures Shift(Xor(c, d)) == Xor(Shift(c), Shift(d))
  {
    HalfXor(c, d);
    LowXor(c, d);
    ReduceLinear(Low(c), Low(d), Half(c), Half(d));
  }

  function Reduce(odd: bool, half: bv32): bv32 {
    if odd then Xor(POLY, half) else half
  }

  lemma ReduceLinear(a: bool, b: bool, x: bv32, y: bv32)
    ensures Reduce(a != b, Xor(x, y)) == Xor(Reduce(a, x), Reduce(b, y))
  {
    if a && b {
      ReduceBoth(x, y);
    } else if b {
      ReduceRight(x, y);
    } else {
      XorAssoc(POLY, x, y);
    }
  }

  lemma ReduceBoth(x: bv32, y: bv32)
    ensures Xor(x, y) == Xor(Xor(POLY, x), Xor(POLY, y))
  {
  }

  lemma ReduceRight(x: bv32, y: bv32)
    ensures Xor(POLY, Xor(x, y)) == Xor(x, Xor(POLY, y))
  {
  }

  lemma XorComm(x: bv32, y: bv32)
    ensures Xor(x, y) == Xor(y, x)
  {
  }

  /** Sums regroup: `(a + b) + (c + d) == (a + c) + (b + d)`. */
  lemma XorRegroup(a: bv32, b: bv32, c: bv32, d: bv32)
    ensures Xor(Xor(a, b), Xor(c, d)) == Xor(Xor(a, c), Xor(b, d))
  {
    XorAssoc(Xor(a, b), c, d);
    XorAssoc(a, b, c);
    XorComm(b, c);
    XorAssoc(a, c, b);
    XorAssoc(Xor(a, c), b, d);
  }

  lemma XorUnits(c: bv32, d: bv32, a: bool, b: bool)
    ensures Xor(Xor(c, Unit(a)), Xor(d, Unit(b))) == Xor(Xor(c, d), Unit(a != b))
  {
    XorRegroup(c, Unit(a), d, Unit(b));
    assert Xor(Unit(a), Unit(b)) == Unit(a != b);
  }

  lemma {:induction false} FeedBitsLinear(c: bv32, d: bv32, u: seq<bool>, v: seq<bool>)
    requires |u| == |v|
    ensures Xor(FeedBits(c, u), FeedBits(d, v)) == FeedBits(Xor(c, d), XorBits(u, v))
    decreases |u|
  {
    if u != [] {
      var c', d' := Xor(c, Unit(u[0])), Xor(d, Unit(v[0]));
      FeedBitsLinear(Shift(c'), Shift(d'), u[1..], v[1..]);
      ShiftLinear(c', d');
      XorUnits(c, d, u[0], v[0]);
      assert XorBits(u, v) == [u[0] != v[0]] + XorBits(u[1..], v[1..]);
      FeedBitsCons(Xor(c, d), u[0] != v[0], XorBits(u[1..], v[1..]));
    }
  }

  /** At most 32 bits can clear a register only by repeating it. */
  lemma {:induction false} ClearingBits(c: bv32, w: seq<bool>)
    requires |w| <= 32 && FeedBits(c, w) == 0
    ensures Halves(c, |w|) == 0
    ensures forall i :: 0 <= i < |w| ==> Bit(c, i) == w[i]
    decreases |w|
  {
    if w != [] {
      var c', n := Xor(c, Unit(w[0])), |w| - 1;
      var z := Shift(c');
      ClearingBits(z, w[1..]);
      HalvesAdd(z, n, 31 - n);
      ZeroHalves(31 - n);
      ShiftBit(c', 31);
      LowXor(c, Unit(w[0]));
      HalfXor(c, Unit(w[0]));
      XorZero(Half(c));
      assert Half(Unit(w[0])) == 0;
      assert z == Half(c);
      forall i | 0 <= i < |w| ensures Bit(c, i) == w[i] {
        if i > 0 {
          assert Bit(z, i - 1) == w[1..][i - 1];
        }
      }
    }
  }

  lemma XorSelf(x: bv32)
    ensures Xor(x, x) == 0
  {
  }

  lemma ShortBitsInjective(c: bv32, u: seq<bool>, v: seq<bool>)
    requires |u| == |v| <= 32 && FeedBits(c, u) == FeedBits(c, v)
    ensures u == v
  {
    FeedBitsLinear(c, c, u, v);
    XorSelf(c);
    XorSelf(FeedBits(c, u));
    ClearingBits(0, XorBits(u, v));
    forall i | 0 <= i < |u| ensures u[i] == v[i] {
      ZeroHalves(i);
      assert XorBits(u, v)[i] == Bit(0, i);
    }
  }

  /** No error burst of up to 32 bits goes unnoticed: messages of one length
      that agree outside a window of 32 bits have different CRCs. */
  lemma {:induction false} BurstDetected(a: seq<byte>, b: seq<byte>, k: nat, n: nat)
    requires |a| == |b| && a != b && n <= 32 && k + n <= 8 * |a|
    requires forall i :: 0 <= i < 8 * |a| && !(k <= i < k + n) ==> BitsOf(a)[i] == BitsOf(b)[i]
    ensures Crc(a) != Crc(b)
  {
    var p, q := BitsOf(a), BitsOf(b);
    var head, u, v, tail := p[..k], p[k..k + n], q[k..k + n], p[k + n..];
    assert p == head + u + tail && q == head + v + tail;
    FeedIsFeedBits(INIT, a);
    FeedIsFeedBits(INIT, b);
    FeedBitsAppend(INIT, head + u, tail);
    FeedBitsAppend(INIT, head, u);
    FeedBitsAppend(INIT, head + v, tail);
    FeedBitsAppend(INIT, head, v);
    if Crc(a) == Crc(b) {
      var c := FeedBits(INIT, head);
      XorCancelRight(Feed(INIT, a), Feed(INIT, b), INIT);
      FeedBitsInjective(FeedBits(c, u), FeedBits(c, v), tail);
      ShortBitsInjective(c, u, v);
      BitsOfInjective(a, b);
    }
  }

  /** In particular when exactly one byte differs. */
  lemma ByteErrorDetected(a: seq<byte>, b: seq<byte>, k: nat)
    requires |a| == |b| && k < |a| && a[k] != b[k]
    requires forall i :: 0 <= i < |a| && i != k ==> a[i] == b[i]
    ensures Crc(a) != Crc(b)
  {
    assert a == a[..k] + ([a[k]] + a[k + 1..]) && b == a[..k] + ([b[k]] + a[k + 1..]);
    BitsOfConcat(a[..k], [a[k]] + a[k + 1..]);
    BitsOfConcat(a[..k], [b[k]] + a[k + 1..]);
    BitsOfConcat([a[k]], a[k + 1..]);
    BitsOfConcat([b[k]], a[k + 1..]);
    BurstDetected(a, b, 8 * k, 8);
  }
}
