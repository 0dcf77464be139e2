/** CRC-32 as the standard defines it: the remainder of a long division, and its published check value. */
module CrcRemainder {
  import opened Iteration
  import opened Summation
  import opened Crc32

  // ---------- Long division ----------

  /**
   * One step of the division of bit strings by x^32 + 0x04C11DB7, most significant bit first: the remainder
   * goes up one degree, the divisor is subtracted where the degree has reached 32, and the next bit is added.
   */
  function BringDown(r: bv32, bit: bool): bv32 {
    if bit then Low(Raise(r)) else Raise(r)
  }

  function Low(r: bv32): bv32 { 1 ^ r }

  function Raise(r: bv32): bv32 {
    if r & 0x8000_0000 != 0 then 0x04C1_1DB7 ^ (r << 1) else r << 1
  }

  function Remainder(r: bv32, bits: seq<bool>): bv32 { Fold(BringDown, r, bits) }

  function Zeros(n: nat): seq<bool> { seq(n, _ => false) }

  function Ones(n: nat): seq<bool> { seq(n, _ => true) }

  function XorBits(a: seq<bool>, b: seq<bool>): (c: seq<bool>)
    requires |a| == |b|
    ensures |c| == |a|
  {
    seq(|a|, i requires 0 <= i < |a| => a[i] != b[i])
  }

  /** The bits of a message in the order they are sent: bytes in order, each least significant bit first. */
  function MessageBits(data: seq<bv8>): (bits: seq<bool>)
    ensures |bits| == 8 * |data|
    decreases |data|
  {
    if data == [] then [] else BitsOf(data[0]) + MessageBits(data[1..])
  }

  /** Bit 31 becomes bit 0, and so on. */
  function Reverse(c: bv32): bv32 {
    var c1 := ((c >> 1) & 0x5555_5555) | ((c & 0x5555_5555) << 1);
    var c2 := ((c1 >> 2) & 0x3333_3333) | ((c1 & 0x3333_3333) << 2);
    var c3 := ((c2 >> 4) & 0x0F0F_0F0F) | ((c2 & 0x0F0F_0F0F) << 4);
    var c4 := ((c3 >> 8) & 0x00FF_00FF) | ((c3 & 0x00FF_00FF) << 8);
    (c4 >> 16) | (c4 << 16)
  }

  // ---------- The division in a mirror ----------

  function Top(bit: bool): bv32 { if bit then 0x8000_0000 else 0 }

  /** The division step on a mirrored remainder. */
  function Mirrored(c: bv32, bit: bool): bv32 { if bit then High(Clock(c)) else Clock(c) }

  function High(c: bv32): bv32 { 0x8000_0000 ^ c }

  lemma MirroredIsSum(c: bv32, bit: bool)
    ensures Mirrored(c, bit) == Xor(Clock(c), Top(bit))
  {
    XorZero(Clock(c));
    XorCommutes(0x8000_0000, Clock(c));
  }

  ghost predicate CommutesAt<T>(mirror: T -> T, f: T -> T, g: T -> T, c: T) { mirror(f(c)) == g(mirror(c)) }

  ghost predicate HalfAt(mirror: bv32 -> bv32, c: bv32) { mirror(c >> 1) == mirror(c) << 1 }

  ghost predicate LowAt(mirror: bv32 -> bv32, c: bv32) { c & 1 == 0 <==> mirror(c) & 0x8000_0000 == 0 }

  ghost predicate DivisorAt(mirror: bv32 -> bv32, c: bv32) { mirror(POLYNOMIAL ^ c) == 0x04C1_1DB7 ^ mirror(c) }

  ghost predicate HighAt(mirror: bv32 -> bv32, c: bv32) { mirror(0x8000_0000 ^ c) == 1 ^ mirror(c) }

  /** What a map must do for the mirrored step to mirror. */
  ghost predicate Mirrors(mirror: bv32 -> bv32) {
    && (forall c :: HalfAt(mirror, c))
    && (forall c :: LowAt(mirror, c))
    && (forall c :: DivisorAt(mirror, c))
    && (forall c :: HighAt(mirror, c))
  }

  lemma HalfMirrors(c: bv32)
    ensures HalfAt(Reverse, c)
  {}

  lemma LowMirrors(c: bv32)
    ensures LowAt(Reverse, c)
  {}

  lemma DivisorMirrors(c: bv32)
    ensures DivisorAt(Reverse, c)
  {}

  lemma HighMirrors(c: bv32)
    ensures HighAt(Reverse, c)
  {}

  lemma ReverseMirrors()
    ensures Mirrors(Reverse)
  {
    forall c ensures HalfAt(Reverse, c) { HalfMirrors(c); }
    forall c ensures LowAt(Reverse, c) { LowMirrors(c); }
    forall c ensures DivisorAt(Reverse, c) { DivisorMirrors(c); }
    forall c ensures HighAt(Reverse, c) { HighMirrors(c); }
  }

  lemma ReverseZero()
    ensures Reverse(0) == 0
  {}

  lemma ReverseInverts(c: bv32)
    ensures Reverse(c ^ ALL_ONES) == Reverse(c) ^ 0xFFFF_FFFF
  {}

  lemma ClockMirrors(mirror: bv32 -> bv32, c: bv32)
    requires Mirrors(mirror)
    ensures CommutesAt(mirror, Clock, Raise, c)
  {
    assert HalfAt(mirror, c) && LowAt(mirror, c) && DivisorAt(mirror, c >> 1);
  }

  lemma TopMirrors(mirror: bv32 -> bv32, c: bv32)
    requires Mirrors(mirror)
    ensures CommutesAt(mirror, High, Low, c)
  {
    assert HighAt(mirror, c);
  }

  /** Mirroring all steps. */
  lemma {:induction false} FoldMirrors<T(!new)>(mirror: T -> T, clock: T -> T, high: T -> T, raise: T -> T, low: T -> T,
      step: (T, bool) -> T, image: (T, bool) -> T, c: T, bits: seq<bool>)
    requires forall x :: CommutesAt(mirror, clock, raise, x)
    requires forall x :: CommutesAt(mirror, high, low, x)
    requires forall x, bit :: step(x, bit) == if bit then high(clock(x)) else clock(x)
    requires forall x, bit :: image(x, bit) == if bit then low(raise(x)) else raise(x)
    ensures mirror(Fold(step, c, bits)) == Fold(image, mirror(c), bits)
    decreases |bits|
  {
    if bits != [] {
      assert CommutesAt(mirror, clock, raise, c) && CommutesAt(mirror, high, low, clock(c));
      FoldMirrors(mirror, clock, high, raise, low, step, image, step(c, bits[0]), bits[1..]);
    }
  }

  lemma DivisionMirrorsBy(mirror: bv32 -> bv32, bits: seq<bool>)
    requires Mirrors(mirror)
    ensures mirror(Fold(Mirrored, 0, bits)) == Remainder(mirror(0), bits)
  {
    forall x ensures CommutesAt(mirror, Clock, Raise, x) { ClockMirrors(mirror, x); }
    forall x ensures CommutesAt(mirror, High, Low, x) { TopMirrors(mirror, x); }
    FoldMirrors(mirror, Clock, High, Raise, Low, Mirrored, BringDown, 0, bits);
  }

  lemma DivisionMirrors(bits: seq<bool>)
    ensures Reverse(Fold(Mirrored, 0, bits)) == Remainder(0, bits)
  {
    ReverseMirrors();
    DivisionMirrorsBy(Reverse, bits);
    ReverseZero();
  }

  // ---------- The division is linear ----------

  lemma TopsSum(x: bool, y: bool)
    ensures Top(x != y) == Xor(Top(x), Top(y))
  {}

  lemma PairsBy<T>(step: (T, bool) -> T, xor: (T, T) -> T, a: T, b: T, x: bool, y: bool, sum: T, sa: T, sb: T)
    requires step(xor(a, b), x != y) == sum && step(a, x) == sa && step(b, y) == sb && xor(sa, sb) == sum
    ensures PairsAt(step, xor, a, b, x, y)
  {}

  lemma MirroredPairs(a: bv32, b: bv32, x: bool, y: bool)
    ensures PairsAt(Mirrored, Xor, a, b, x, y)
  {
    ClockSum(a, b);
    TopsSum(x, y);
    FourXors(Clock(a), Clock(b), Top(x), Top(y));
    MirroredIsSum(a, x);
    MirroredIsSum(b, y);
    MirroredIsSum(Xor(a, b), x != y);
    PairsBy(Mirrored, Xor, a, b, x, y, Xor(Xor(Clock(a), Clock(b)), Xor(Top(x), Top(y))), Mirrored(a, x), Mirrored(b, y));
  }

  lemma DivisionSum(a: seq<bool>, b: seq<bool>)
    requires |a| == |b|
    ensures Fold(Mirrored, 0, XorBits(a, b)) == Xor(Fold(Mirrored, 0, a), Fold(Mirrored, 0, b))
  {
    forall p, q, x, y ensures PairsAt(Mirrored, Xor, p, q, x, y) {
      MirroredPairs(p, q, x, y);
    }
    FoldSum(Mirrored, Xor, 0, 0, a, b, XorBits(a, b));
    XorZero(0);
  }

  lemma {:induction false} FoldConcat<T>(step: (T, bool) -> T, r: T, a: seq<bool>, b: seq<bool>)
    ensures Fold(step, r, a + b) == Fold(step, Fold(step, r, a), b)
    decreases |a|
  {
    if a == [] {
      assert a + b == b;
    } else {
      FoldConcat(step, step(r, a[0]), a[1..], b);
      assert (a + b)[1..] == a[1..] + b;
    }
  }

  lemma {:induction false} FoldZeros<T>(step: (T, bool) -> T, f: T -> T, r: T, n: nat)
    requires forall x :: step(x, false) == f(x)
    ensures Fold(step, r, Zeros(n)) == Iterate(f, r, n)
    decreases n
  {
    if n > 0 {
      FoldZeros(step, f, f(r), n - 1);
      assert Zeros(n)[1..] == Zeros(n - 1);
    }
  }

  lemma ZerosDivide(r: bv32, n: nat)
    ensures Fold(Mirrored, r, Zeros(n)) == Iterate(Clock, r, n)
  {
    FoldZeros(Mirrored, Clock, r, n);
  }

  // ---------- Thirty-two zeros behind the message ----------

  /** Eight values of which each is the image of the one before. */
  lemma EightSteps<T>(f: T -> T, c0: T, c1: T, c2: T, c3: T, c4: T, c5: T, c6: T, c7: T, c8: T, eight: nat)
    requires eight == 8 && f(c0) == c1 && f(c1) == c2 && f(c2) == c3 && f(c3) == c4
    requires f(c4) == c5 && f(c5) == c6 && f(c6) == c7 && f(c7) == c8
    ensures Iterate(f, c0, eight) == c8
  {
    assert Iterate(f, c7, 1) == c8;
    assert Iterate(f, c6, 2) == c8;
    assert Iterate(f, c5, 3) == c8;
    assert Iterate(f, c4, 4) == c8;
    assert Iterate(f, c3, 5) == c8;
    assert Iterate(f, c2, 6) == c8;
    assert Iterate(f, c1, 7) == c8;
  }

  lemma LastEight(eight: nat)
    requires eight == 8
    ensures Iterate(Clock, 0x80, eight) == POLYNOMIAL
  {
    assert Clock(1) == POLYNOMIAL;
    EightSteps(Clock, 0x80, 0x40, 0x20, 0x10, 8, 4, 2, 1, POLYNOMIAL, eight);
  }

  /** A one at the top leaves the divisor after 32 clocks. */
  lemma TopClocks(n: nat, eight: nat)
    requires n == 32 && eight == 8
    ensures Iterate(Clock, 0x8000_0000, n) == POLYNOMIAL
  {
    ClocksOfClearByte(0x8000_0000, eight);
    ClocksOfClearByte(0x80_0000, eight);
    ClocksOfClearByte(0x8000, eight);
    LastEight(eight);
    IterateCompose(Clock, 0x8000_0000, eight, eight);
    IterateCompose(Clock, 0x8000_0000, 2 * eight, eight);
    IterateCompose(Clock, 0x8000_0000, 3 * eight, eight);
  }

  function Feed(bit: bool): bv32 { if bit then POLYNOMIAL else 0 }

  lemma TopFeeds(bit: bool, n: nat)
    requires n == 32
    ensures Iterate(Clock, Top(bit), n) == Feed(bit)
  {
    TopClocks(n, 8);
    IterateZero(n);
  }

  lemma UnitFeeds(c: bv32, bit: bool)
    ensures AbsorbBit(c, bit) == Xor(Clock(c), Feed(bit))
  {
    if bit {
      AbsorbBitIsClock(c, 1);
      ClockSum(c, 1);
      XorZero(AbsorbBit(c, true));
      assert Clock(1) == POLYNOMIAL;
    } else {
      AbsorbBitIsClock(c, 0);
      XorZero(AbsorbBit(c, false));
      XorZero(c);
      XorZero(Clock(c));
    }
  }

  lemma ClockLast32(r: bv32, n: nat)
    ensures Iterate(Clock, Clock(r), n) == Clock(Iterate(Clock, r, n))
  {
    IterateCompose(Clock, r, 1, n);
    IterateCompose(Clock, r, n, 1);
    assert Iterate(Clock, r, 1) == Clock(r);
    assert Iterate(Clock, Iterate(Clock, r, n), 1) == Clock(Iterate(Clock, r, n));
  }

  /** What the register makes of the next bit is what 32 zeros make of the division step. */
  lemma StepIsAbsorbed(r: bv32, bit: bool, n: nat)
    requires n == 32
    ensures Iterate(Clock, Mirrored(r, bit), n) == AbsorbBit(Iterate(Clock, r, n), bit)
  {
    MirroredIsSum(r, bit);
    ClocksLinear(Clock(r), Top(bit), n);
    ClockLast32(r, n);
    TopFeeds(bit, n);
    UnitFeeds(Iterate(Clock, r, n), bit);
  }

  lemma {:induction false} DivisionIsAbsorption(r: bv32, bits: seq<bool>, n: nat)
    requires n == 32
    ensures Iterate(Clock, Fold(Mirrored, r, bits), n) == AbsorbBits(Iterate(Clock, r, n), bits)
    decreases |bits|
  {
    if bits != [] {
      StepIsAbsorbed(r, bits[0], n);
      DivisionIsAbsorption(Mirrored(r, bits[0]), bits[1..], n);
    }
  }

  /** The message with 32 zeros behind it. */
  lemma MessageDivides(bits: seq<bool>, n: nat)
    requires n == 32
    ensures Fold(Mirrored, 0, bits + Zeros(n)) == AbsorbBits(0, bits)
  {
    FoldConcat(Mirrored, 0, bits, Zeros(n));
    ZerosDivide(Fold(Mirrored, 0, bits), n);
    DivisionIsAbsorption(0, bits, n);
    IterateZero(n);
  }

  // ---------- Thirty-two ones in front ----------

  lemma {:induction false} AbsorbedSum(p: bv32, q: bv32, bits: seq<bool>)
    ensures AbsorbBits(Xor(p, q), bits) == Xor(AbsorbBits(p, bits), Iterate(Clock, q, |bits|))
    decreases |bits|
  {
    if bits != [] {
      BitOfSum(p, q, bits[0]);
      AbsorbedSum(AbsorbBit(p, bits[0]), Clock(q), bits[1..]);
    }
  }

  lemma BitOfSum(p: bv32, q: bv32, bit: bool)
    ensures AbsorbBit(Xor(p, q), bit) == Xor(AbsorbBit(p, bit), Clock(q))
  {
    UnitFeeds(p, bit);
    UnitFeeds(Xor(p, q), bit);
    ClockSum(p, q);
    XorAssociates(Clock(p), Clock(q), Feed(bit));
    XorCommutes(Clock(q), Feed(bit));
    XorAssociates(Clock(p), Feed(bit), Clock(q));
  }

  lemma {:induction false} AbsorbBitsConcat(c: bv32, a: seq<bool>, b: seq<bool>)
    ensures AbsorbBits(c, a + b) == AbsorbBits(AbsorbBits(c, a), b)
    decreases |a|
  {
    if a == [] {
      assert a + b == b;
    } else {
      AbsorbBitsConcat(AbsorbBit(c, a[0]), a[1..], b);
      assert (a + b)[1..] == a[1..] + b;
    }
  }

  lemma {:induction false} AbsorbIsBits(c: bv32, data: seq<bv8>)
    ensures Absorb(c, data) == AbsorbBits(c, MessageBits(data))
    decreases |data|
  {
    if data != [] {
      AbsorbIsBits(AbsorbByte(c, data[0]), data[1..]);
      AbsorbBitsConcat(c, BitsOf(data[0]), MessageBits(data[1..]));
    }
  }

  function WithOne(c: bv32): bv32 { Mirrored(c, true) }

  lemma {:induction false} FoldOnes<T>(step: (T, bool) -> T, f: T -> T, r: T, n: nat)
    requires forall x :: step(x, true) == f(x)
    ensures Fold(step, r, Ones(n)) == Iterate(f, r, n)
    decreases n
  {
    if n > 0 {
      FoldOnes(step, f, f(r), n - 1);
      assert Ones(n)[1..] == Ones(n - 1);
    }
  }

  lemma FirstOnes(eight: nat)
    requires eight == 8
    ensures Iterate(WithOne, 0, eight) == 0xFF00_0000
  {
    EightSteps(WithOne, 0, 0x8000_0000, 0xC000_0000, 0xE000_0000, 0xF000_0000, 0xF800_0000, 0xFC00_0000, 0xFE00_0000, 0xFF00_0000, eight);
  }

  lemma SecondOnes(eight: nat)
    requires eight == 8
    ensures Iterate(WithOne, 0xFF00_0000, eight) == 0xFFFF_0000
  {
    EightSteps(WithOne, 0xFF00_0000, 0xFF80_0000, 0xFFC0_0000, 0xFFE0_0000, 0xFFF0_0000, 0xFFF8_0000, 0xFFFC_0000, 0xFFFE_0000, 0xFFFF_0000, eight);
  }

  lemma ThirdOnes(eight: nat)
    requires eight == 8
    ensures Iterate(WithOne, 0xFFFF_0000, eight) == 0xFFFF_FF00
  {
    EightSteps(WithOne, 0xFFFF_0000, 0xFFFF_8000, 0xFFFF_C000, 0xFFFF_E000, 0xFFFF_F000, 0xFFFF_F800, 0xFFFF_FC00, 0xFFFF_FE00, 0xFFFF_FF00, eight);
  }

  lemma LastOnes(eight: nat)
    requires eight == 8
    ensures Iterate(WithOne, 0xFFFF_FF00, eight) == ALL_ONES
  {
    EightSteps(WithOne, 0xFFFF_FF00, 0xFFFF_FF80, 0xFFFF_FFC0, 0xFFFF_FFE0, 0xFFFF_FFF0, 0xFFFF_FFF8, 0xFFFF_FFFC, 0xFFFF_FFFE, ALL_ONES, eight);
  }

  lemma OnesDivide(n: nat, eight: nat)
    requires n == 32 && eight == 8
    ensures Fold(Mirrored, 0, Ones(n)) == ALL_ONES
  {
    FirstOnes(eight);
    SecondOnes(eight);
    ThirdOnes(eight);
    LastOnes(eight);
    IterateCompose(WithOne, 0, eight, eight);
    IterateCompose(WithOne, 0, 2 * eight, eight);
    IterateCompose(WithOne, 0, 3 * eight, eight);
    FoldOnes(Mirrored, WithOne, 0, n);
  }

  lemma OnesAndZeros(n: nat, m: nat)
    requires n == 32
    ensures Fold(Mirrored, 0, Ones(n) + Zeros(m)) == Iterate(Clock, ALL_ONES, m)
  {
    FoldConcat(Mirrored, 0, Ones(n), Zeros(m));
    OnesDivide(n, 8);
    ZerosDivide(ALL_ONES, m);
  }

  lemma RegisterDivides(bits: seq<bool>, n: nat)
    requires n == 32
    ensures AbsorbBits(ALL_ONES, bits) == Fold(Mirrored, 0, XorBits(Ones(n) + Zeros(|bits|), bits + Zeros(n)))
  {
    OnesAndZeros(n, |bits|);
    MessageDivides(bits, n);
    DivisionSum(Ones(n) + Zeros(|bits|), bits + Zeros(n));
    AbsorbedSum(0, ALL_ONES, bits);
    XorCommutes(AbsorbBits(0, bits), Iterate(Clock, ALL_ONES, |bits|));
    XorZero(ALL_ONES);
    XorCommutes(0, ALL_ONES);
  }

  /**
   * CRC-32 is the mirrored complement of the remainder of the message, followed by 32 zeros, with its
   * first 32 bits complemented, on division by x^32 + 0x04C11DB7.
   */
  lemma RemainderTheorem(data: seq<bv8>, n: nat)
    requires n == 32
    ensures Reverse(Checksum(data))
         == Remainder(0, XorBits(Ones(n) + Zeros(8 * |data|), MessageBits(data) + Zeros(n))) ^ 0xFFFF_FFFF
  {
    AbsorbIsBits(ALL_ONES, data);
    RegisterDivides(MessageBits(data), n);
    DivisionMirrors(XorBits(Ones(n) + Zeros(8 * |data|), MessageBits(data) + Zeros(n)));
    ReverseInverts(Absorb(ALL_ONES, data));
  }

  // ---------- The published check value ----------

  /** A byte taken in, with the eight clocked values spelled out. */
  lemma ByteGives(c: bv32, b: bv8, c0: bv32, c1: bv32, c2: bv32, c3: bv32, c4: bv32, c5: bv32, c6: bv32, c7: bv32, c8: bv32)
    requires Xor(c, Widen(b)) == c0 && Clock(c0) == c1 && Clock(c1) == c2 && Clock(c2) == c3 && Clock(c3) == c4
    requires Clock(c4) == c5 && Clock(c5) == c6 && Clock(c6) == c7 && Clock(c7) == c8
    ensures AbsorbByte(c, b) == c8
  {
    AbsorbByteIsClocks(c, b, 8);
    EightSteps(Clock, c0, c1, c2, c3, c4, c5, c6, c7, c8, 8);
  }

  lemma DigitOne()
    ensures AbsorbByte(0xFFFF_FFFF, 0x31) == 0x7C23_1048
  {
    ByteGives(0xFFFF_FFFF, 0x31, 0xFFFF_FFCE, 0x7FFF_FFE7, 0xD247_7CD3, 0x849B_3D49,
              0xAFF5_1D84, 0x57FA_8EC2, 0x2BFD_4761, 0xF846_2090, 0x7C23_1048);
  }

  lemma DigitTwo()
    ensures AbsorbByte(0x7C23_1048, 0x32) == 0xB0AC_BB32
  {
    ByteGives(0x7C23_1048, 0x32, 0x7C23_107A, 0x3E11_883D, 0xF2B0_473E, 0x7958_239F,
              0xD114_92EF, 0x8532_CA57, 0xAF21_E60B, 0xBA28_7025, 0xB0AC_BB32);
  }

  lemma DigitThree()
    ensures AbsorbByte(0xB0AC_BB32, 0x33) == 0x77B7_9C2D
  {
    ByteGives(0xB0AC_BB32, 0x33, 0xB0AC_BB01, 0xB5EE_DEA0, 0x5AF7_6F50, 0x2D7B_B7A8,
              0x16BD_DBD4, 0x0B5E_EDEA, 0x05AF_76F5, 0xEF6F_385A, 0x77B7_9C2D);
  }

  lemma DigitFour()
    ensures AbsorbByte(0x77B7_9C2D, 0x34) == 0x641C_1F5C
  {
    ByteGives(0x77B7_9C2D, 0x34, 0x77B7_9C19, 0xD663_4D2C, 0x6B31_A696, 0x3598_D34B,
              0xF774_EA85, 0x9602_F662, 0x4B01_7B31, 0xC838_3EB8, 0x641C_1F5C);
  }

  lemma DigitFive()
    ensures AbsorbByte(0x641C_1F5C, 0x35) == 0x340A_C5E3
  {
    ByteGives(0x641C_1F5C, 0x35, 0x641C_1F69, 0xDFB6_8C94, 0x6FDB_464A, 0x37ED_A325,
              0xF64E_52B2, 0x7B27_2959, 0xD02B_178C, 0x6815_8BC6, 0x340A_C5E3);
  }

  lemma DigitSix()
    ensures AbsorbByte(0x340A_C5E3, 0x36) == 0xF68D_2C9E
  {
    ByteGives(0x340A_C5E3, 0x36, 0x340A_C5D5, 0xF7BD_E1CA, 0x7BDE_F0E5, 0xD057_FB52,
              0x682B_FDA9, 0xD9AD_7DF4, 0x6CD6_BEFA, 0x366B_5F7D, 0xF68D_2C9E);
  }

  lemma DigitSeven()
    ensures AbsorbByte(0xF68D_2C9E, 0x37) == 0xAFFC_9660
  {
    ByteGives(0xF68D_2C9E, 0x37, 0xF68D_2CA9, 0x96FE_1574, 0x4B7F_0ABA, 0x25BF_855D,
              0xFF67_418E, 0x7FB3_A0C7, 0xD261_5343, 0x8488_2A81, 0xAFFC_9660);
  }

  lemma DigitEight()
    ensures AbsorbByte(0xAFFC_9660, 0x38) == 0x651F_2550
  {
    ByteGives(0xAFFC_9660, 0x38, 0xAFFC_9658, 0x57FE_4B2C, 0x2BFF_2596, 0x15FF_92CB,
              0xE747_4A45, 0x9E1B_2602, 0x4F0D_9301, 0xCA3E_4AA0, 0x651F_2550);
  }

  lemma DigitNine()
    ensures AbsorbByte(0x651F_2550, 0x39) == 0x340B_C6D9
  {
    ByteGives(0x651F_2550, 0x39, 0x651F_2569, 0xDF37_1194, 0x6F9B_88CA, 0x37CD_C465,
              0xF65E_6112, 0x7B2F_3089, 0xD02F_1B64, 0x6817_8DB2, 0x340B_C6D9);
  }

  lemma AbsorbThree(data: seq<bv8>, c0: bv32, c1: bv32, c2: bv32, c3: bv32, i: nat)
    requires i + 3 <= |data|
    requires AbsorbByte(c0, data[i]) == c1 && AbsorbByte(c1, data[i + 1]) == c2 && AbsorbByte(c2, data[i + 2]) == c3
    ensures Absorb(c0, data[i..]) == Absorb(c3, data[i + 3..])
  {
    assert data[i..][1..] == data[i + 1..] && data[i + 1..][1..] == data[i + 2..] && data[i + 2..][1..] == data[i + 3..];
    assert Absorb(c0, data[i..]) == Absorb(c1, data[i + 1..]);
    assert Absorb(c1, data[i + 1..]) == Absorb(c2, data[i + 2..]);
  }

  lemma AbsorbNine(data: seq<bv8>, c0: bv32, c3: bv32, c6: bv32, c9: bv32)
    requires |data| == 9 && Absorb(c0, data[0..]) == Absorb(c3, data[3..])
    requires Absorb(c3, data[3..]) == Absorb(c6, data[6..]) && Absorb(c6, data[6..]) == Absorb(c9, data[9..])
    ensures Absorb(c0, data) == c9
  {
    assert data[0..] == data && data[9..] == [];
  }

  lemma FirstDigits(data: seq<bv8>)
    requires |data| == 9 && data[0] == 0x31 && data[1] == 0x32 && data[2] == 0x33
    ensures Absorb(0xFFFF_FFFF, data[0..]) == Absorb(0x77B7_9C2D, data[3..])
  {
    DigitOne();
    DigitTwo();
    DigitThree();
    AbsorbThree(data, 0xFFFF_FFFF, 0x7C23_1048, 0xB0AC_BB32, 0x77B7_9C2D, 0);
  }

  lemma SecondDigits(data: seq<bv8>)
    requires |data| == 9 && data[3] == 0x34 && data[4] == 0x35 && data[5] == 0x36
    ensures Absorb(0x77B7_9C2D, data[3..]) == Absorb(0xF68D_2C9E, data[6..])
  {
    DigitFour();
    DigitFive();
    DigitSix();
    AbsorbThree(data, 0x77B7_9C2D, 0x641C_1F5C, 0x340A_C5E3, 0xF68D_2C9E, 3);
  }

  lemma ThirdDigits(data: seq<bv8>)
    requires |data| == 9 && data[6] == 0x37 && data[7] == 0x38 && data[8] == 0x39
    ensures Absorb(0xF68D_2C9E, data[6..]) == Absorb(0x340B_C6D9, data[9..])
  {
    DigitSeven();
    DigitEight();
    DigitNine();
    AbsorbThree(data, 0xF68D_2C9E, 0xAFFC_9660, 0x651F_2550, 0x340B_C6D9, 6);
  }

  /** The check value of CRC-32: the checksum of the nine ASCII digits "123456789". */
  lemma CheckValue(data: seq<bv8>)
    requires data == [0x31, 0x32, 0x33, 0x34, 0x35, 0x36, 0x37, 0x38, 0x39]
    ensures Checksum(data) == 0xCBF4_3926
  {
    FirstDigits(data);
    SecondDigits(data);
    ThirdDigits(data);
    AbsorbNine(data, ALL_ONES, 0x77B7_9C2D, 0xF68D_2C9E, 0x340B_C6D9);
  }
}
