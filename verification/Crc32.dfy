/** Iteration of a map that respects a binary operation, on any type. */
module Iteration {

  function Iterate<T>(f: T -> T, c: T, n: nat): T
    decreases n
  {
    if n == 0 then c else Iterate(f, f(c), n - 1)
  }

  ghost predicate LinearAt<T>(f: T -> T, xor: (T, T) -> T, a: T, b: T) {
    f(xor(a, b)) == xor(f(a), f(b))
  }

  ghost predicate Linear<T(!new)>(f: T -> T, xor: (T, T) -> T) {
    forall a, b :: LinearAt(f, xor, a, b)
  }

  lemma LinearByValues<T>(f: T -> T, xor: (T, T) -> T, a: T, b: T, sum: T, fa: T, fb: T, image: T)
    requires xor(a, b) == sum && f(a) == fa && f(b) == fb && f(sum) == image && xor(fa, fb) == image
    ensures LinearAt(f, xor, a, b)
  {}

  lemma {:induction false} IterateLinear<T(!new)>(f: T -> T, xor: (T, T) -> T, a: T, b: T, n: nat)
    requires Linear(f, xor)
    ensures Iterate(f, xor(a, b), n) == xor(Iterate(f, a, n), Iterate(f, b, n))
    decreases n
  {
    if n > 0 {
      assert LinearAt(f, xor, a, b);
      IterateLinear(f, xor, f(a), f(b), n - 1);
    }
  }

  lemma {:induction false} IterateCompose<T>(f: T -> T, c: T, m: nat, n: nat)
    ensures Iterate(f, Iterate(f, c, m), n) == Iterate(f, c, m + n)
    decreases m
  {
    if m > 0 {
      IterateCompose(f, f(c), m - 1, n);
    }
  }

  lemma LinearSum<T(!new)>(f: T -> T, xor: (T, T) -> T, c: T, a: T, b: T, fa: T, fb: T)
    requires Linear(f, xor) && c == xor(a, b) && f(a) == fa && f(b) == fb
    ensures f(c) == xor(fa, fb)
  {
    assert LinearAt(f, xor, a, b);
  }

  /** Iterating over a sum whose second term has a known image. */
  lemma IterateSplit<T(!new)>(f: T -> T, xor: (T, T) -> T, c: T, lo: T, hi: T, image: T, n: nat)
    requires Linear(f, xor) && c == xor(lo, hi) && Iterate(f, hi, n) == image
    ensures Iterate(f, c, n) == xor(Iterate(f, lo, n), image)
  {
    IterateLinear(f, xor, lo, hi, n);
  }

  /** Running a step over a string of bits. */
  function Fold<T>(step: (T, bool) -> T, r: T, bits: seq<bool>): T
    decreases |bits|
  {
    if bits == [] then r else Fold(step, step(r, bits[0]), bits[1..])
  }

  ghost predicate PairsAt<T>(step: (T, bool) -> T, xor: (T, T) -> T, a: T, b: T, x: bool, y: bool) {
    step(xor(a, b), x != y) == xor(step(a, x), step(b, y))
  }

  lemma {:induction false} FoldSum<T(!new)>(step: (T, bool) -> T, xor: (T, T) -> T, r: T, s: T, a: seq<bool>, b: seq<bool>, both: seq<bool>)
    requires forall p, q, x, y :: PairsAt(step, xor, p, q, x, y)
    requires |a| == |b| == |both| && forall i | 0 <= i < |a| :: both[i] == (a[i] != b[i])
    ensures Fold(step, xor(r, s), both) == xor(Fold(step, r, a), Fold(step, s, b))
    decreases |a|
  {
    if a != [] {
      assert PairsAt(step, xor, r, s, a[0], b[0]);
      FoldSum(step, xor, step(r, a[0]), step(s, b[0]), a[1..], b[1..], both[1..]);
    }
  }
}

/** Sums of sequences under a binary operation with a neutral element. */
module Summation {

  function Sum<T>(xor: (T, T) -> T, zero: T, s: seq<T>): T {
    if s == [] then zero else xor(s[0], Sum(xor, zero, s[1..]))
  }

  ghost predicate SwapsAt<T>(xor: (T, T) -> T, a: T, b: T, c: T, d: T) {
    xor(xor(a, b), xor(c, d)) == xor(xor(a, c), xor(b, d))
  }

  ghost predicate Swaps<T(!new)>(xor: (T, T) -> T) {
    forall a, b, c, d :: SwapsAt(xor, a, b, c, d)
  }

  /** Adding term by term and summing is summing each side and adding. */
  lemma {:induction false} SumOfPairs<T(!new)>(xor: (T, T) -> T, zero: T, a: seq<T>, b: seq<T>, both: seq<T>)
    requires Swaps(xor) && xor(zero, zero) == zero
    requires |a| == |b| == |both| && forall i | 0 <= i < |a| :: both[i] == xor(a[i], b[i])
    ensures Sum(xor, zero, both) == xor(Sum(xor, zero, a), Sum(xor, zero, b))
  {
    if a != [] {
      SumOfPairs(xor, zero, a[1..], b[1..], both[1..]);
      assert SwapsAt(xor, a[0], b[0], Sum(xor, zero, a[1..]), Sum(xor, zero, b[1..]));
    }
  }

  lemma SumOfEight<T>(xor: (T, T) -> T, zero: T, s: seq<T>)
    requires |s| == 8
    ensures Sum(xor, zero, s)
         == xor(s[0], xor(s[1], xor(s[2], xor(s[3], xor(s[4], xor(s[5], xor(s[6], xor(s[7], zero))))))))
  {
    assert s[1..][1..] == s[2..] && s[2..][1..] == s[3..] && s[3..][1..] == s[4..] && s[4..][1..] == s[5..];
    assert s[5..][1..] == s[6..] && s[6..][1..] == s[7..] && s[7..][1..] == [];
    assert Sum(xor, zero, s[7..]) == xor(s[7], zero);
    assert Sum(xor, zero, s[6..]) == xor(s[6], xor(s[7], zero));
    assert Sum(xor, zero, s[5..]) == xor(s[5], xor(s[6], xor(s[7], zero)));
    assert Sum(xor, zero, s[4..]) == xor(s[4], Sum(xor, zero, s[5..]));
    assert Sum(xor, zero, s[3..]) == xor(s[3], Sum(xor, zero, s[4..]));
    assert Sum(xor, zero, s[2..]) == xor(s[2], Sum(xor, zero, s[3..]));
    assert Sum(xor, zero, s[1..]) == xor(s[1], Sum(xor, zero, s[2..]));
  }

  lemma {:induction false} SumOfZeros<T>(xor: (T, T) -> T, zero: T, s: seq<T>)
    requires xor(zero, zero) == zero && forall i | 0 <= i < |s| :: s[i] == zero
    ensures Sum(xor, zero, s) == zero
  {
    if s != [] {
      SumOfZeros(xor, zero, s[1..]);
    }
  }
}

/** The slicing-by-8 CRC-32 of the Swift contender, proved equal to the bit-serial register. */
module Crc32 {
  import opened Iteration
  import opened Summation

  const POLYNOMIAL: bv32 := 0xEDB88320
  const ALL_ONES: bv32 := 0xFFFF_FFFF

  // ---------- The bit-serial reference (section 4.4.7 of APPNOTE.TXT) ----------

  /** One clock of the reflected shift register, taking in one message bit. */
  function AbsorbBit(c: bv32, bit: bool): bv32 {
    if (c & 1 != 0) != bit then POLYNOMIAL ^ (c >> 1) else c >> 1
  }

  /** Clocks in a string of bits. */
  function AbsorbBits(c: bv32, bits: seq<bool>): bv32
    decreases |bits|
  {
    if bits == [] then c else AbsorbBits(AbsorbBit(c, bits[0]), bits[1..])
  }

  function Half(c: bv32): bv32 { c >> 1 }

  predicate Odd(c: bv32) { c & 1 != 0 }

  function Widen(b: bv8): bv32 { b as bv32 }

  /** A byte shifted down `i` places. */
  function Shifted(b: bv8, i: nat): bv32 {
    if i == 0 then Widen(b) else Half(Shifted(b, i - 1))
  }

  /** The bits of a byte, least significant first: the parity of what is left as it is shifted down. */
  function BitsOf(b: bv8): (bits: seq<bool>)
    ensures |bits| == 8
  {
    seq(8, i requires 0 <= i < 8 => Odd(Shifted(b, i)))
  }

  function AbsorbByte(c: bv32, b: bv8): bv32 {
    AbsorbBits(c, BitsOf(b))
  }

  /** Clocks a whole message through the register. */
  function Absorb(c: bv32, data: seq<bv8>): bv32
    decreases |data|
  {
    if data == [] then c else Absorb(AbsorbByte(c, data[0]), data[1..])
  }

  /** CRC-32: register preset to ones, result inverted. */
  function Checksum(data: seq<bv8>): bv32 {
    Absorb(ALL_ONES, data) ^ ALL_ONES
  }

  // ---------- GF(2) linearity of the register ----------

  function Xor(a: bv32, b: bv32): bv32 { a ^ b }

  /** One clock with no message bit: the loop body that fills table 0. */
  function Clock(c: bv32): bv32 {
    if c & 1 != 0 then POLYNOMIAL ^ (c >> 1) else c >> 1
  }

  lemma XorAssociates(a: bv32, b: bv32, c: bv32)
    ensures Xor(Xor(a, b), c) == Xor(a, Xor(b, c))
  {}

  lemma XorRotates(a: bv32, b: bv32, c: bv32)
    ensures Xor(a, Xor(b, c)) == Xor(b, Xor(a, c))
  {}

  lemma FourXors(a: bv32, b: bv32, c: bv32, d: bv32)
    ensures SwapsAt(Xor, a, b, c, d)
  {
    XorAssociates(a, b, Xor(c, d));
    XorRotates(b, c, d);
    XorAssociates(a, c, Xor(b, d));
  }

  lemma XorCommutes(a: bv32, b: bv32)
    ensures Xor(a, b) == Xor(b, a)
  {}

  lemma OddAndOdd(a: bv32, b: bv32)
    requires a & 1 != 0 && b & 1 != 0
    ensures Clock(Xor(a, b)) == Xor(Clock(a), Clock(b))
  {}

  lemma EvenAndOdd(a: bv32, b: bv32)
    requires a & 1 == 0 && b & 1 != 0
    ensures Clock(Xor(a, b)) == Xor(Clock(a), Clock(b))
  {}

  lemma OddAndEven(a: bv32, b: bv32)
    requires a & 1 != 0 && b & 1 == 0
    ensures Clock(Xor(a, b)) == Xor(Clock(a), Clock(b))
  {
    EvenAndOdd(b, a);
    XorCommutes(a, b);
    XorCommutes(Clock(a), Clock(b));
  }

  lemma EvenAndEven(a: bv32, b: bv32)
    requires a & 1 == 0 && b & 1 == 0
    ensures Clock(Xor(a, b)) == Xor(Clock(a), Clock(b))
  {}

  /** A clock is linear: the feedback of a sum is the sum of the feedbacks. */
  lemma ClockSum(a: bv32, b: bv32)
    ensures Clock(Xor(a, b)) == Xor(Clock(a), Clock(b))
  {
    if a & 1 != 0 {
      if b & 1 != 0 { OddAndOdd(a, b); } else { OddAndEven(a, b); }
    } else {
      if b & 1 != 0 { EvenAndOdd(a, b); } else { EvenAndEven(a, b); }
    }
  }

  lemma ClockLinearAt(a: bv32, b: bv32)
    ensures LinearAt(Clock, Xor, a, b)
  {
    ClockSum(a, b);
    LinearByValues(Clock, Xor, a, b, Xor(a, b), Clock(a), Clock(b), Clock(Xor(a, b)));
  }

  lemma ClockIsLinear()
    ensures Linear(Clock, Xor)
  {
    forall x, y ensures LinearAt(Clock, Xor, x, y) {
      ClockLinearAt(x, y);
    }
  }

  /** Any number of clocks is linear over exclusive or. */
  lemma ClocksLinear(a: bv32, b: bv32, n: nat)
    ensures Iterate(Clock, Xor(a, b), n) == Xor(Iterate(Clock, a, n), Iterate(Clock, b, n))
  {
    ClockIsLinear();
    IterateLinear(Clock, Xor, a, b, n);
  }

  ghost predicate EvenAt(f: bv32 -> bv32, x: bv32) { x & 1 == 0 ==> f(x) == x >> 1 }

  lemma LowByteClear(c: bv32)
    requires c & 0xFF == 0
    ensures c & 1 == 0 && (c >> 1) & 1 == 0 && (c >> 2) & 1 == 0 && (c >> 3) & 1 == 0
    ensures (c >> 4) & 1 == 0 && (c >> 5) & 1 == 0 && (c >> 6) & 1 == 0 && (c >> 7) & 1 == 0
    ensures (c >> 1) >> 1 == c >> 2 && (c >> 2) >> 1 == c >> 3 && (c >> 3) >> 1 == c >> 4
    ensures (c >> 4) >> 1 == c >> 5 && (c >> 5) >> 1 == c >> 6 && (c >> 6) >> 1 == c >> 7 && (c >> 7) >> 1 == c >> 8
  {}

  /** Eight clocks of a register whose low byte is clear only shift it. */
  lemma ClearByteShiftsOut(f: bv32 -> bv32, c: bv32, eight: nat)
    requires forall x :: EvenAt(f, x)
    requires c & 0xFF == 0 && eight == 8
    ensures Iterate(f, c, eight) == c >> 8
  {
    LowByteClear(c);
    assert EvenAt(f, c) && EvenAt(f, c >> 1) && EvenAt(f, c >> 2) && EvenAt(f, c >> 3);
    assert EvenAt(f, c >> 4) && EvenAt(f, c >> 5) && EvenAt(f, c >> 6) && EvenAt(f, c >> 7);
    assert Iterate(f, c >> 7, 1) == c >> 8;
    assert Iterate(f, c >> 6, 2) == c >> 8;
    assert Iterate(f, c >> 5, 3) == c >> 8;
    assert Iterate(f, c >> 4, 4) == c >> 8;
    assert Iterate(f, c >> 3, 5) == c >> 8;
    assert Iterate(f, c >> 2, 6) == c >> 8;
    assert Iterate(f, c >> 1, 7) == c >> 8;
  }

  lemma ClocksOfClearByte(c: bv32, eight: nat)
    requires c & 0xFF == 0 && eight == 8
    ensures Iterate(Clock, c, eight) == c >> 8
  {
    forall x ensures EvenAt(Clock, x) {}
    ClearByteShiftsOut(Clock, c, eight);
  }

  lemma SplitLowByte(c: bv32)
    ensures c == Xor(c & 0xFF, c & 0xFFFF_FF00)
    ensures (c & 0xFFFF_FF00) & 0xFF == 0
    ensures (c & 0xFFFF_FF00) >> 8 == c >> 8
  {}

  lemma HighBytesShiftOut(c: bv32, eight: nat)
    requires eight == 8
    ensures c == Xor(c & 0xFF, c & 0xFFFF_FF00)
    ensures Iterate(Clock, c & 0xFFFF_FF00, eight) == c >> 8
  {
    SplitLowByte(c);
    ClocksOfClearByte(c & 0xFFFF_FF00, eight);
  }

  /** The byte-at-a-time step: a look-up of the low byte folded into the shifted rest. */
  lemma ClockByte(c: bv32, eight: nat)
    requires eight == 8
    ensures Iterate(Clock, c, eight) == Xor(Iterate(Clock, c & 0xFF, eight), c >> 8)
  {
    ClockIsLinear();
    HighBytesShiftOut(c, eight);
    IterateSplit(Clock, Xor, c, c & 0xFF, c & 0xFFFF_FF00, c >> 8, eight);
  }

  lemma SplitLowBit(c: bv32, b: bv32)
    ensures Xor(c, b) == Xor(Xor(c, b & 1), b & 0xFFFF_FFFE)
    ensures Clock(b & 0xFFFF_FFFE) == b >> 1
    ensures Clock(Xor(c, b & 1)) == AbsorbBit(c, b & 1 != 0)
  {}

  /** A message bit may be folded in before an idle clock. */
  lemma AbsorbBitIsClock(c: bv32, b: bv32)
    ensures Clock(Xor(c, b)) == Xor(AbsorbBit(c, b & 1 != 0), b >> 1)
  {
    ClockIsLinear();
    SplitLowBit(c, b);
    LinearSum(Clock, Xor, Xor(c, b), Xor(c, b & 1), b & 0xFFFF_FFFE, AbsorbBit(c, b & 1 != 0), b >> 1);
  }

  /** The bits are those of `w`, least significant first, and `w` has no others. */
  ghost predicate Spells(bits: seq<bool>, w: bv32)
    decreases |bits|
  {
    if bits == [] then w == 0 else (bits[0] <==> Odd(w)) && Spells(bits[1..], Half(w))
  }

  lemma XorZero(c: bv32)
    ensures Xor(c, 0) == c
  {}

  lemma EightHalves(b: bv8)
    ensures Half(Half(Half(Half(Half(Half(Half(Half(Widen(b))))))))) == 0
  {}

  lemma NothingLeft(b: bv8, eight: nat)
    requires eight == 8
    ensures Shifted(b, eight) == 0
  {
    EightHalves(b);
    ShiftedTwice(b, 0);
    ShiftedTwice(b, 2);
    ShiftedTwice(b, 4);
    ShiftedTwice(b, 6);
  }

  lemma ShiftedTwice(b: bv8, i: nat)
    ensures Shifted(b, i + 2) == Half(Half(Shifted(b, i)))
  {
    assert Shifted(b, i + 1) == Half(Shifted(b, i));
  }

  /** From any place on, the bits of a byte spell what is left of it. */
  lemma {:induction false} TailSpells(b: bv8, i: nat, eight: nat)
    requires i <= eight == 8
    ensures Spells(BitsOf(b)[i..], Shifted(b, i))
    decreases eight - i
  {
    if i == eight {
      NothingLeft(b, eight);
    } else {
      TailSpells(b, i + 1, eight);
      assert BitsOf(b)[i..][1..] == BitsOf(b)[i + 1..];
    }
  }

  lemma ByteSpells(b: bv8)
    ensures Spells(BitsOf(b), Widen(b))
  {
    TailSpells(b, 0, 8);
  }

  /** Feeding bits one by one is folding them in first and clocking an idle register. */
  lemma {:induction false} AbsorbBitsIsClocks(c: bv32, bits: seq<bool>, w: bv32)
    requires Spells(bits, w)
    ensures AbsorbBits(c, bits) == Iterate(Clock, Xor(c, w), |bits|)
    decreases |bits|
  {
    if bits == [] {
      XorZero(c);
    } else {
      AbsorbBitIsClock(c, w);
      AbsorbBitsIsClocks(AbsorbBit(c, bits[0]), bits[1..], w >> 1);
    }
  }

  lemma AbsorbByteIsClocks(c: bv32, b: bv8, eight: nat)
    requires eight == 8
    ensures AbsorbByte(c, b) == Iterate(Clock, Xor(c, Widen(b)), eight)
  {
    ByteSpells(b);
    AbsorbBitsIsClocks(c, BitsOf(b), Widen(b));
  }

  // ---------- Absorbing a block: register part plus message part ----------

  /** What a message contributes to an all-zero register. */
  function Contribution(data: seq<bv8>): bv32
    decreases |data|
  {
    if data == [] then 0
    else Xor(Iterate(Clock, Widen(data[0]), 8 * |data|), Contribution(data[1..]))
  }

  /** The register after a message is the clocked old register plus the message's own contribution. */
  lemma {:induction false} AbsorbSplits(c: bv32, data: seq<bv8>)
    ensures Absorb(c, data) == Xor(Iterate(Clock, c, 8 * |data|), Contribution(data))
    decreases |data|
  {
    if data == [] {
      XorZero(c);
    } else {
      var n := 8 * |data[1..]|;
      var b := Widen(data[0]);
      AbsorbByteIsClocks(c, data[0], 8);
      AbsorbSplits(AbsorbByte(c, data[0]), data[1..]);
      IterateCompose(Clock, Xor(c, b), 8, n);
      ClocksLinear(c, b, 8 * |data|);
      XorAssociates(Iterate(Clock, c, 8 * |data|), Iterate(Clock, b, 8 * |data|), Contribution(data[1..]));
    }
  }

  // ---------- Table indices ----------

  /** `n` as a machine word, counted up from zero. */
  function Word(n: nat): bv32 {
    if n == 0 then 0 else Word(n - 1) + 1
  }

  lemma Successor(w: bv32)
    requires w as int < 255
    ensures (w + 1) as int == w as int + 1
  {}

  lemma {:induction false} WordValue(n: nat)
    requires n < 256
    ensures Word(n) as int == n
  {
    if n > 0 {
      WordValue(n - 1);
      Successor(Word(n - 1));
    }
  }

  lemma ThereAndBack(w: bv32)
    ensures (w as int) as bv32 == w
  {}

  lemma SameValue(a: bv32, b: bv32)
    requires a as int == b as int
    ensures a == b
  {
    ThereAndBack(a);
    ThereAndBack(b);
  }

  /** The table index taken from the low byte of a word. */
  function Index(c: bv32): (i: nat)
    ensures i < 256
  {
    (c & 0xFF) as int
  }

  lemma IndexWord(c: bv32)
    ensures Word(Index(c)) == c & 0xFF
  {
    WordValue(Index(c));
    SameValue(Word(Index(c)), c & 0xFF);
  }

  // ---------- The eight tables ----------

  /** Entry `i` of table `k`: `i` clocked through `k + 1` bytes. */
  ghost predicate TableEntry(entry: bv32, k: nat, i: nat) {
    entry == Iterate(Clock, Word(i), 8 * (k + 1))
  }

  /** The first `n` entries of table `k` are in place. */
  ghost predicate Filled(table: seq<bv32>, k: nat, n: nat) {
    |table| == 256 && forall i: nat | i < n && i < 256 :: TableEntry(table[i], k, i)
  }

  lemma ClockLast(c: bv32, n: nat)
    ensures Iterate(Clock, c, n + 1) == Clock(Iterate(Clock, c, n))
  {
    IterateCompose(Clock, c, n, 1);
  }

  /** One more look-up in table 0 clocks one more byte. */
  lemma NextTable(table0: seq<bv32>, c: bv32, k: nat, i: nat)
    requires Filled(table0, 0, 256) && TableEntry(c, k, i)
    ensures TableEntry(Xor(table0[Index(c)], c >> 8), k + 1, i)
  {
    IndexWord(c);
    assert TableEntry(table0[Index(c)], 0, Index(c));
    ClockByte(c, 8 * (0 + 1));
    IterateCompose(Clock, Word(i), 8 * (k + 1), 8 * (0 + 1));
  }

  /** The bit loop of one entry of table 0. */
  method ClockEight(start: bv32) returns (c: bv32)
    ensures c == Iterate(Clock, start, 8)
  {
    c := start;
    var bit := 0;
    while bit < 8
      invariant 0 <= bit <= 8 && c == Iterate(Clock, start, bit)
    {
      ClockLast(start, bit);
      c := Clock(c);
      bit := bit + 1;
    }
  }

  method MakeTables() returns (t: seq<seq<bv32>>)
    ensures |t| == 8 && forall k | 0 <= k < 8 :: Filled(t[k], k, 256)
  {
    t := seq(8, _ => seq(256, _ => 0));
    var n := 0;
    while n < 256
      invariant 0 <= n <= 256 && |t| == 8 && forall k | 0 <= k < 8 :: |t[k]| == 256
      invariant Filled(t[0], 0, n)
    {
      var c := ClockEight(Word(n));
      assert TableEntry(c, 0, n);
      t := t[0 := t[0][n := c]];
      n := n + 1;
    }
    n := 0;
    while n < 256
      invariant 0 <= n <= 256 && |t| == 8 && forall k | 0 <= k < 8 :: |t[k]| == 256
      invariant Filled(t[0], 0, 256)
      invariant forall k | 0 < k < 8 :: Filled(t[k], k, n)
    {
      var c := t[0][n];
      assert TableEntry(c, 0, n);
      var k := 1;
      while k < 8
        invariant 1 <= k <= 8 && |t| == 8 && forall j | 0 <= j < 8 :: |t[j]| == 256
        invariant Filled(t[0], 0, 256)
        invariant TableEntry(c, k - 1, n)
        invariant forall j | 0 < j < k :: Filled(t[j], j, n + 1)
        invariant forall j | k <= j < 8 :: Filled(t[j], j, n)
      {
        NextTable(t[0], c, k - 1, n);
        c := Xor(t[0][Index(c)], c >> 8);
        t := t[k := t[k][n := c]];
        k := k + 1;
      }
      n := n + 1;
    }
  }

  // ---------- Slicing by eight ----------

  ghost predicate AreTables(t: seq<seq<bv32>>) {
    |t| == 8 && forall k | 0 <= k < 8 :: Filled(t[k], k, 256)
  }

  lemma LookUp(table: seq<bv32>, k: nat, x: bv32)
    requires Filled(table, k, 256)
    ensures table[Index(x)] == Iterate(Clock, x & 0xFF, 8 * (k + 1))
  {
    IndexWord(x);
    assert TableEntry(table[Index(x)], k, Index(x));
  }

  /** Clocks the low byte out of a register and carries on with the rest. */
  lemma PeelByte(c: bv32, k: nat, eight: nat)
    requires eight == 8
    ensures Iterate(Clock, c, eight * (k + 2))
         == Xor(Iterate(Clock, c & 0xFF, eight * (k + 2)), Iterate(Clock, c >> 8, eight * (k + 1)))
  {
    var rest := eight * (k + 1);
    IterateCompose(Clock, c, eight, rest);
    IterateCompose(Clock, c & 0xFF, eight, rest);
    ClockByte(c, eight);
    ClocksLinear(Iterate(Clock, c & 0xFF, eight), c >> 8, rest);
  }

  /** The four bytes of a register, low byte first, as they line up with an eight-byte block. */
  function RegisterByte(c: bv32, i: nat): bv32 {
    if i == 0 then c & 0xFF else if i == 1 then (c >> 8) & 0xFF
    else if i == 2 then (c >> 16) & 0xFF else if i == 3 then c >> 24 else 0
  }

  ghost function ClockedBytes(c: bv32, n: nat, k: nat): (s: seq<bv32>)
    requires 0 < n <= k
    ensures |s| == k
    decreases n
  {
    if n == 1 then [Iterate(Clock, c, 8 * k)] + seq(k - 1, _ => 0)
    else [Iterate(Clock, c & 0xFF, 8 * k)] + ClockedBytes(c >> 8, n - 1, k - 1)
  }

  /** A register clocked through `k` bytes is the sum of its bytes clocked separately. */
  lemma {:induction false} RegisterPart(c: bv32, n: nat, k: nat)
    requires 0 < n <= k
    ensures Iterate(Clock, c, 8 * k) == Sum(Xor, 0, ClockedBytes(c, n, k))
    decreases n
  {
    var s := ClockedBytes(c, n, k);
    if n == 1 {
      SumOfZeros(Xor, 0, s[1..]);
      XorZero(Iterate(Clock, c, 8 * k));
    } else {
      PeelByte(c, k - 2, 8);
      RegisterPart(c >> 8, n - 1, k - 1);
      assert s[1..] == ClockedBytes(c >> 8, n - 1, k - 1);
    }
  }

  lemma RegisterBytes(c: bv32)
    ensures (c >> 8) >> 8 == c >> 16 && (c >> 16) >> 8 == c >> 24 && (c >> 24) & 0xFF == c >> 24
  {}

  lemma {:induction false} IterateZero(n: nat)
    ensures Iterate(Clock, 0, n) == 0
    decreases n
  {
    if n > 0 {
      IterateZero(n - 1);
    }
  }

  /** The eight clocked register bytes, by position. */
  lemma ClockedBytesAt(c: bv32, four: nat, i: nat)
    requires four == 4 && i < 2 * four
    ensures ClockedBytes(c, four, 2 * four)[i] == Iterate(Clock, RegisterByte(c, i), 8 * (2 * four - i))
  {
    RegisterBytes(c);
    IterateZero(8 * (2 * four - i));
    var s1 := ClockedBytes(c >> 8, four - 1, 2 * four - 1);
    var s2 := ClockedBytes(c >> 16, four - 2, 2 * four - 2);
    var s3 := ClockedBytes(c >> 24, four - 3, 2 * four - 3);
    assert ClockedBytes(c, four, 2 * four)[1..] == s1;
    assert s1[1..] == s2;
    assert s2[1..] == s3;
  }

  ghost function ClockedMessage(d: seq<bv8>): (s: seq<bv32>)
    ensures |s| == |d|
  {
    seq(|d|, i requires 0 <= i < |d| => Iterate(Clock, Widen(d[i]), 8 * (|d| - i)))
  }

  lemma {:induction false} MessagePart(d: seq<bv8>)
    ensures Contribution(d) == Sum(Xor, 0, ClockedMessage(d))
    decreases |d|
  {
    if d != [] {
      MessagePart(d[1..]);
      assert ClockedMessage(d)[1..] == ClockedMessage(d[1..]);
    }
  }

  /** What one pass of the eight-byte loop looks up for message byte `i`. */
  function SliceLookUp(t: seq<seq<bv32>>, c: bv32, d: seq<bv8>, i: nat): bv32
    requires |t| == 8 && (forall k | 0 <= k < 8 :: |t[k]| == 256) && |d| == 8 && i < 8
  {
    if i < 4 then t[7 - i][Index(Xor(RegisterByte(c, i), Widen(d[i])))]
    else t[7 - i][Index(Widen(d[i]))]
  }

  lemma ZeroXor(b: bv32)
    ensures Xor(0, b) == b
  {}

  lemma ByteRange(c: bv32, b: bv8, i: nat)
    ensures Xor(RegisterByte(c, i), Widen(b)) & 0xFF == Xor(RegisterByte(c, i), Widen(b))
  {}

  lemma SumLookUp(table: seq<bv32>, k: nat, r: bv32, m: bv32)
    requires Filled(table, k, 256) && Xor(r, m) & 0xFF == Xor(r, m)
    ensures table[Index(Xor(r, m))] == Xor(Iterate(Clock, r, 8 * (k + 1)), Iterate(Clock, m, 8 * (k + 1)))
  {
    LookUp(table, k, Xor(r, m));
    ClocksLinear(r, m, 8 * (k + 1));
  }

  lemma PlainLookUp(table: seq<bv32>, k: nat, m: bv32)
    requires Filled(table, k, 256) && m & 0xFF == m
    ensures table[Index(m)] == Xor(Iterate(Clock, 0, 8 * (k + 1)), Iterate(Clock, m, 8 * (k + 1)))
  {
    LookUp(table, k, m);
    IterateZero(8 * (k + 1));
    ZeroXor(Iterate(Clock, m, 8 * (k + 1)));
  }

  lemma WidenRange(b: bv8)
    ensures Widen(b) & 0xFF == Widen(b)
  {}

  lemma LowLookUpSum(t: seq<seq<bv32>>, c: bv32, d: seq<bv8>, i: nat, k: nat)
    requires AreTables(t) && |d| == 8 && i < 4 && k == 7 - i
    ensures SliceLookUp(t, c, d, i)
         == Xor(Iterate(Clock, RegisterByte(c, i), 8 * (k + 1)), Iterate(Clock, Widen(d[i]), 8 * (k + 1)))
  {
    ByteRange(c, d[i], i);
    SumLookUp(t[k], k, RegisterByte(c, i), Widen(d[i]));
  }

  lemma HighLookUpSum(t: seq<seq<bv32>>, c: bv32, d: seq<bv8>, i: nat, k: nat)
    requires AreTables(t) && |d| == 8 && 4 <= i < 8 && k == 7 - i
    ensures SliceLookUp(t, c, d, i)
         == Xor(Iterate(Clock, 0, 8 * (k + 1)), Iterate(Clock, Widen(d[i]), 8 * (k + 1)))
  {
    WidenRange(d[i]);
    PlainLookUp(t[k], k, Widen(d[i]));
  }

  /** The look-up of a register byte joined with a message byte is the sum of both images. */
  lemma SliceLookUpSum(t: seq<seq<bv32>>, c: bv32, d: seq<bv8>, i: nat)
    requires AreTables(t) && |d| == 8 && i < 8
    ensures SliceLookUp(t, c, d, i)
         == Xor(Iterate(Clock, RegisterByte(c, i), 8 * (8 - i)), Iterate(Clock, Widen(d[i]), 8 * (8 - i)))
  {
    if i < 4 {
      LowLookUpSum(t, c, d, i, 7 - i);
    } else {
      HighLookUpSum(t, c, d, i, 7 - i);
    }
  }

  lemma XorSwaps()
    ensures Swaps(Xor)
  {
    forall a, b, c, d ensures SwapsAt(Xor, a, b, c, d) {
      FourXors(a, b, c, d);
    }
  }

  lemma LookUpsSplit(t: seq<seq<bv32>>, c: bv32, d: seq<bv8>, both: seq<bv32>, register: seq<bv32>, message: seq<bv32>)
    requires AreTables(t) && |d| == |both| == |register| == |message| == 8
    requires forall i | 0 <= i < 8 :: both[i] == SliceLookUp(t, c, d, i)
    requires register == ClockedBytes(c, 4, 8) && message == ClockedMessage(d)
    ensures forall i | 0 <= i < 8 :: both[i] == Xor(register[i], message[i])
  {
    forall i | 0 <= i < 8 ensures both[i] == Xor(register[i], message[i]) {
      LookUpSplits(t, c, d, i, both[i], register[i], message[i]);
    }
  }

  lemma LookUpSplits(t: seq<seq<bv32>>, c: bv32, d: seq<bv8>, i: nat, both: bv32, register: bv32, message: bv32)
    requires AreTables(t) && |d| == 8 && i < 8 && both == SliceLookUp(t, c, d, i)
    requires register == ClockedBytes(c, 4, 8)[i] && message == ClockedMessage(d)[i]
    ensures both == Xor(register, message)
  {
    SliceLookUpSum(t, c, d, i);
    ClockedBytesAt(c, 4, i);
  }

  /** Eight parallel look-ups clock eight message bytes through the register. */
  lemma SliceAbsorbs(t: seq<seq<bv32>>, c: bv32, d: seq<bv8>, eight: nat)
    requires AreTables(t) && |d| == eight == 8
    ensures Sum(Xor, 0, seq(eight, i requires 0 <= i < 8 => SliceLookUp(t, c, d, i))) == Absorb(c, d)
  {
    var both := seq(eight, i requires 0 <= i < 8 => SliceLookUp(t, c, d, i));
    var register := ClockedBytes(c, 4, eight);
    var message := ClockedMessage(d);
    LookUpsSplit(t, c, d, both, register, message);
    XorSwaps();
    SumOfPairs(Xor, 0, register, message, both);
    AbsorbSplits(c, d);
    RegisterPart(c, 4, eight);
    MessagePart(d);
  }

  lemma EightXors(a: bv32, b: bv32, c: bv32, d: bv32, e: bv32, f: bv32, g: bv32, h: bv32)
    ensures a ^ (b ^ (c ^ (d ^ (e ^ (f ^ (g ^ (h ^ 0))))))) == a ^ b ^ c ^ d ^ e ^ f ^ g ^ h
  {}

  /** The register after one pass of the eight-byte loop. */
  function SliceStep(t: seq<seq<bv32>>, c: bv32, d: seq<bv8>): bv32
    requires |t| == 8 && (forall k | 0 <= k < 8 :: |t[k]| == 256) && |d| == 8
  {
    SliceLookUp(t, c, d, 0) ^ SliceLookUp(t, c, d, 1) ^ SliceLookUp(t, c, d, 2) ^ SliceLookUp(t, c, d, 3)
    ^ SliceLookUp(t, c, d, 4) ^ SliceLookUp(t, c, d, 5) ^ SliceLookUp(t, c, d, 6) ^ SliceLookUp(t, c, d, 7)
  }

  lemma EightSum(s: seq<bv32>)
    requires |s| == 8
    ensures Sum(Xor, 0, s) == s[0] ^ s[1] ^ s[2] ^ s[3] ^ s[4] ^ s[5] ^ s[6] ^ s[7]
  {
    SumOfEight(Xor, 0, s);
    EightXors(s[0], s[1], s[2], s[3], s[4], s[5], s[6], s[7]);
  }

  lemma StepIsSum(t: seq<seq<bv32>>, c: bv32, d: seq<bv8>, s: seq<bv32>)
    requires AreTables(t) && |d| == 8 == |s| && forall i | 0 <= i < 8 :: s[i] == SliceLookUp(t, c, d, i)
    ensures SliceStep(t, c, d) == s[0] ^ s[1] ^ s[2] ^ s[3] ^ s[4] ^ s[5] ^ s[6] ^ s[7]
  {}

  lemma SliceStepAbsorbs(t: seq<seq<bv32>>, c: bv32, d: seq<bv8>)
    requires AreTables(t) && |d| == 8
    ensures SliceStep(t, c, d) == Absorb(c, d)
  {
    var s := seq(8, i requires 0 <= i < 8 => SliceLookUp(t, c, d, i));
    SliceAbsorbs(t, c, d, 8);
    EightSum(s);
    StepIsSum(t, c, d, s);
  }

  lemma ShiftOfXor(c: bv32, b: bv8)
    ensures Xor(c, Widen(b)) >> 8 == c >> 8
  {}

  lemma RegisterStep(table0: seq<bv32>, x: bv32, eight: nat)
    requires Filled(table0, 0, 256) && eight == 8
    ensures Xor(table0[Index(x)], x >> 8) == Iterate(Clock, x, eight)
  {
    LookUp(table0, 0, x);
    ClockByte(x, eight);
  }

  /** The remainder loop's single look-up clocks one message byte. */
  lemma ByteStepAbsorbs(table0: seq<bv32>, c: bv32, b: bv8, eight: nat)
    requires Filled(table0, 0, 256) && eight == 8
    ensures Xor(table0[Index(Xor(c, Widen(b)))], c >> 8) == AbsorbByte(c, b)
  {
    ShiftOfXor(c, b);
    RegisterStep(table0, Xor(c, Widen(b)), eight);
    AbsorbByteIsClocks(c, b, eight);
  }

  /** Absorbing a message in two pieces is absorbing it whole. */
  lemma {:induction false} AbsorbConcat(c: bv32, a: seq<bv8>, b: seq<bv8>)
    ensures Absorb(c, a + b) == Absorb(Absorb(c, a), b)
    decreases |a|
  {
    if a == [] {
      assert a + b == b;
    } else {
      assert (a + b)[1..] == a[1..] + b;
      AbsorbConcat(AbsorbByte(c, a[0]), a[1..], b);
    }
  }

  /** Takes a finished checksum up again with more bytes. */
  function Continue(crc: bv32, data: seq<bv8>): bv32 {
    Absorb(crc ^ ALL_ONES, data) ^ ALL_ONES
  }

  lemma AbsorbNext(c: bv32, data: seq<bv8>, p: nat, n: nat)
    requires p + n <= |data|
    ensures Absorb(c, data[p..]) == Absorb(Absorb(c, data[p..p + n]), data[p + n..])
  {
    assert data[p..] == data[p..p + n] + data[p + n..];
    AbsorbConcat(c, data[p..p + n], data[p + n..]);
  }

  /** The loops of `CRC32Tables.update`: whole blocks of eight through the tables, the rest byte by byte. */
  method AbsorbWithTables(t: seq<seq<bv32>>, register: bv32, data: seq<bv8>) returns (c: bv32)
    requires AreTables(t)
    ensures c == Absorb(register, data)
  {
    c := register;
    var p := 0;
    var n := |data|;
    while n >= 8
      invariant 0 <= p <= |data| && n == |data| - p
      invariant Absorb(c, data[p..]) == Absorb(register, data)
    {
      AbsorbNext(c, data, p, 8);
      SliceStepAbsorbs(t, c, data[p..p + 8]);
      c := SliceStep(t, c, data[p..p + 8]);
      p := p + 8;
      n := n - 8;
    }
    while n > 0
      invariant 0 <= p <= |data| && n == |data| - p
      invariant Absorb(c, data[p..]) == Absorb(register, data)
    {
      ByteStepAbsorbs(t[0], c, data[p], 8);
      c := Xor(t[0][Index(Xor(c, Widen(data[p])))], c >> 8);
      p := p + 1;
      n := n - 1;
    }
  }

  /** `CRC32Tables.update`: the register is inverted on the way in and on the way out. */
  method UpdateChecksum(t: seq<seq<bv32>>, crc: bv32, data: seq<bv8>) returns (r: bv32)
    requires AreTables(t)
    ensures r == Continue(crc, data)
  {
    var register := crc ^ ALL_ONES;
    var c := AbsorbWithTables(t, register, data);
    ContinueFrom(crc, register, data);
    r := c ^ ALL_ONES;
  }

  lemma InvertTwice(c: bv32)
    ensures (c ^ ALL_ONES) ^ ALL_ONES == c
  {}

  lemma ContinueFrom(crc: bv32, register: bv32, data: seq<bv8>)
    requires crc ^ ALL_ONES == register
    ensures Continue(crc, data) == Absorb(register, data) ^ ALL_ONES
  {}

  lemma RegisterOf(a: seq<bv8>)
    ensures Checksum(a) ^ ALL_ONES == Absorb(ALL_ONES, a)
  {
    InvertTwice(Absorb(ALL_ONES, a));
  }

  lemma FinishConcat(a: seq<bv8>, b: seq<bv8>, register: bv32)
    requires register == Absorb(ALL_ONES, a)
    ensures Absorb(register, b) ^ ALL_ONES == Checksum(a + b)
  {
    AbsorbConcat(ALL_ONES, a, b);
  }

  /** A checksum may be continued: updating the checksum of `a` with `b` is the checksum of `a + b`. */
  lemma ChecksumContinues(a: seq<bv8>, b: seq<bv8>)
    ensures Continue(Checksum(a), b) == Checksum(a + b)
  {
    RegisterOf(a);
    var register := Absorb(ALL_ONES, a);
    ContinueFrom(Checksum(a), register, b);
    FinishConcat(a, b, register);
  }

  lemma ChecksumOfNothing()
    ensures Checksum([]) == 0
  {}

  /** The running `CRC32` value of the writer. */
  class Digest {
    var value: bv32
    ghost var seen: seq<bv8>

    ghost predicate Valid()
      reads this
    {
      value == Checksum(seen)
    }

    constructor ()
      ensures Valid() && seen == []
    {
      value := 0;
      seen := [];
      ChecksumOfNothing();
    }

    method Update(t: seq<seq<bv32>>, bytes: seq<bv8>)
      requires Valid() && AreTables(t)
      modifies this
      ensures Valid() && seen == old(seen) + bytes
    {
      if bytes == [] {
        assert seen == seen + bytes;
        return;
      }
      ChecksumContinues(seen, bytes);
      value := UpdateChecksum(t, value, bytes);
      seen := seen + bytes;
    }
  }
}
