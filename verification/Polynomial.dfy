/**
  CRC32C as its standard defines it: the remainder of a division of polynomials over the two-element field by the generator
  that RFC 3720 writes 0x1EDC6F41. The shift register holds that remainder, whatever the data.
 */
module Polynomials {
  import opened Crc32c
  import opened Seals
  import Seqs

  // A polynomial is the sequence of its coefficients, the highest first.

  /** Sum of two polynomials written to the same length. */
  function Plus(a: seq<bool>, b: seq<bool>): (r: seq<bool>)
    requires |a| == |b|
    ensures |r| == |a| && forall i :: 0 <= i < |a| ==> r[i] == (a[i] != b[i])
  {
    seq(|a|, i requires 0 <= i < |a| => a[i] != b[i])
  }

  /** The `n` highest digits of a word, the highest first. */
  function Downwards(x: bv32, n: nat): (r: seq<bool>)
    ensures |r| == n
    decreases n
  {
    if n == 0 then [] else [x & 0x8000_0000 != 0] + Downwards(x << 1, n - 1)
  }

  /** The generator: x^32, then the 32 coefficients written 0x1EDC6F41. */
  function Generator(): (g: seq<bool>)
    ensures |g| == 33 && g[0]
  {
    [true] + Downwards(0x1EDC_6F41, 32)
  }

  /** Long division: take the generator off the front of the dividend, or drop a leading zero, until 32 coefficients are left. */
  function Remainder(m: seq<bool>): (r: seq<bool>)
    requires |m| >= 32
    ensures |r| == 32
    decreases |m|
  {
    if |m| == 32 then m
    else if m[0] then Remainder(Plus(m[..33], Generator())[1..] + m[33..])
    else Remainder(m[1..])
  }

  function Zeros(n: nat): (r: seq<bool>)
    ensures |r| == n && forall i :: 0 <= i < n ==> !r[i]
  {
    seq(n, i => false)
  }

  function Ones(n: nat): (r: seq<bool>)
    ensures |r| == n && forall i :: 0 <= i < n ==> r[i]
  {
    seq(n, i => true)
  }

  /** A polynomial with `s` added to its 32 leading coefficients. */
  function InFront(m: seq<bool>, s: seq<bool>): (r: seq<bool>)
    requires |s| == 32 <= |m|
    ensures |r| == |m|
  {
    Plus(m[..32], s) + m[32..]
  }

  // ----- Division one message bit at a time

  /** What one bit of the message makes of a remainder. */
  function Step(s: seq<bool>, bit: bool): (r: seq<bool>)
    requires |s| == 32
    ensures |r| == 32
  {
    if s[0] != bit then Plus(s[1..] + [false], Generator()[1..]) else s[1..] + [false]
  }

  function Steps(s: seq<bool>, bits: seq<bool>): (r: seq<bool>)
    requires |s| == 32
    ensures |r| == 32
    decreases |bits|
  {
    if bits == [] then s else Steps(Step(s, bits[0]), bits[1..])
  }

  lemma TakenOff(m: seq<bool>, s: seq<bool>, g: seq<bool>)
    requires |s| == 32 && |m| >= 33 && |g| == 33
    ensures Plus(InFront(m, s)[..33], g)[1..] + InFront(m, s)[33..] == InFront(m[1..], Plus(s[1..] + [false], g[1..]))
  {
  }

  lemma Dropped(m: seq<bool>, s: seq<bool>)
    requires |s| == 32 && |m| >= 33
    ensures InFront(m, s)[0] == (s[0] != m[0])
    ensures InFront(m, s)[1..] == InFront(m[1..], s[1..] + [false])
  {
  }

  lemma DivisionStep(m: seq<bool>, s: seq<bool>)
    requires |s| == 32 && |m| >= 33
    ensures Remainder(InFront(m, s)) == Remainder(InFront(m[1..], Step(s, m[0])))
  {
    TakenOff(m, s, Generator());
    Dropped(m, s);
  }

  /** Dividing a message with 32 zeros appended goes through the message bit by bit. */
  lemma {:induction false} DivisionBySteps(bits: seq<bool>, s: seq<bool>)
    requires |s| == 32
    ensures Remainder(InFront(bits + Zeros(32), s)) == Steps(s, bits)
    decreases |bits|
  {
    var m := bits + Zeros(32);
    if bits == [] {
      assert InFront(m, s) == s;
    } else {
      assert m[1..] == bits[1..] + Zeros(32);
      DivisionStep(m, s);
      DivisionBySteps(bits[1..], Step(s, bits[0]));
    }
  }

  lemma {:induction false} StepsAppend(s: seq<bool>, a: seq<bool>, b: seq<bool>)
    requires |s| == 32
    ensures Steps(s, a + b) == Steps(Steps(s, a), b)
    decreases |a|
  {
    if a == [] {
      Seqs.EmptyLeft(b);
    } else {
      Seqs.TailOfAppend(a, b);
      StepsAppend(Step(s, a[0]), a[1..], b);
    }
  }

  // ----- The register holds a remainder

  function Half(x: bv32): bv32 { x >> 1 }

  predicate Odd(x: bv32) { x & 1 != 0 }

  /** The `n` lowest bits of a word, the lowest first: the order in which bits are sent, and so the highest coefficient first. */
  function Upwards(x: bv32, n: nat): (r: seq<bool>)
    ensures |r| == n
    decreases n
  {
    if n == 0 then [] else [Odd(x)] + Upwards(Half(x), n - 1)
  }

  /** The polynomial a register stands for. */
  function Bits(x: bv32): (r: seq<bool>)
    ensures |r| == 32
  {
    Upwards(x, 32)
  }

  /** The polynomial a message stands for. */
  function Message(data: seq<bv8>): (r: seq<bool>)
    ensures |r| == 8 * |data|
  {
    if data == [] then [] else Upwards(data[0] as bv32, 8) + Message(data[1..])
  }

  lemma HalfOfXor(x: bv32, y: bv32)
    ensures Half(Xor(x, y)) == Xor(Half(x), Half(y))
  {
  }

  lemma LowBitOfXor(x: bv32, y: bv32)
    ensures Odd(Xor(x, y)) == (Odd(x) != Odd(y))
  {
  }

  /** `z` is the exclusive or of `x` and `y`. */
  ghost predicate Sum(x: bv32, y: bv32, z: bv32) {
    forall k {:trigger Broken(k)} :: Broken(k) ==> z == Xor(x, y)
  }

  lemma SumByBits(x: bv32, y: bv32, z: bv32)
    requires Sum(x, y, z)
    ensures Sum(Half(x), Half(y), Half(z)) && Odd(z) == (Odd(x) != Odd(y))
  {
    assert Broken(0);
    LowBitOfXor(x, y);
    HalfOfXor(x, y);
  }

  lemma {:induction false} BitsOfSum(x: bv32, y: bv32, z: bv32, n: nat)
    requires Sum(x, y, z)
    ensures Upwards(z, n) == Plus(Upwards(x, n), Upwards(y, n))
    decreases n
  {
    if n > 0 {
      SumByBits(x, y, z);
      var x', y', z' := Half(x), Half(y), Half(z);
      BitsOfSum(x', y', z', n - 1);
      HeadOfPlus(Odd(x), Upwards(x', n - 1), Odd(y), Upwards(y', n - 1));
    }
  }

  /** Exclusive or is addition. */
  lemma BitsOfXor(x: bv32, y: bv32)
    ensures Bits(Xor(x, y)) == Plus(Bits(x), Bits(y))
  {
    BitsOfSum(x, y, Xor(x, y), 32);
  }

  lemma HeadOfPlus(a: bool, rest: seq<bool>, b: bool, others: seq<bool>)
    requires |rest| == |others|
    ensures Plus([a] + rest, [b] + others) == [a != b] + Plus(rest, others)
  {
  }

  /** No bit of `b` is left after `n` places. */
  predicate Within(b: bv32, n: nat)
    decreases n
  {
    if n == 0 then b == 0 else Within(Half(b), n - 1)
  }

  lemma {:induction false} NothingAbove(x: bv32, n: nat)
    requires Within(x, n)
    ensures Upwards(x, n + 1) == Upwards(x, n) + [false]
    decreases n
  {
    if n > 0 {
      NothingAbove(Half(x), n - 1);
    }
  }

  /** The word `n` places down. */
  function Lowered(x: bv32, n: nat): bv32
    decreases n
  {
    if n == 0 then x else Lowered(Half(x), n - 1)
  }

  lemma LoweredByEight(x: bv32)
    ensures Lowered(x, 8) == Down(x)
  {
  }

  lemma {:induction false} WithinSum(x: bv32, m: nat, n: nat)
    ensures Within(x, m + n) == Within(Lowered(x, m), n)
    decreases m
  {
    if m > 0 { WithinSum(Half(x), m - 1, n); }
  }

  lemma NothingLeft(x: bv32)
    ensures Down(Down(Down(Down(x)))) == 0
  {
  }

  lemma WordIsWithin(x: bv32)
    ensures Within(x, 32)
  {
    var y, z, w := Down(x), Down(Down(x)), Down(Down(Down(x)));
    WithinSum(x, 8, 24);
    WithinSum(y, 8, 16);
    WithinSum(z, 8, 8);
    WithinSum(w, 8, 0);
    LoweredByEight(x);
    LoweredByEight(y);
    LoweredByEight(z);
    LoweredByEight(w);
    NothingLeft(x);
  }

  /** Shifting a word down is multiplying its polynomial by x. */
  lemma BitsOfHalf(x: bv32)
    ensures Bits(Half(x)) == Bits(x)[1..] + [false]
  {
    WordIsWithin(x);
    assert Within(Half(x), 31);
    NothingAbove(Half(x), 31);
  }

  lemma {:induction false} UpwardsInTwo(x: bv32, m: nat, n: nat)
    ensures Upwards(x, m + n) == Upwards(x, m) + Upwards(Lowered(x, m), n)
    decreases m
  {
    if m == 0 {
      Seqs.EmptyLeft(Upwards(x, n));
    } else {
      UpwardsInTwo(Half(x), m - 1, n);
      Seqs.Assoc([Odd(x)], Upwards(Half(x), m - 1), Upwards(Lowered(x, m), n));
    }
  }

  lemma UpwardsInFour(x: bv32, y: bv32, z: bv32, w: bv32, n: nat)
    requires y == Lowered(x, n) && z == Lowered(y, n) && w == Lowered(z, n)
    ensures Upwards(x, n + (n + (n + n))) == Upwards(x, n) + (Upwards(y, n) + (Upwards(z, n) + Upwards(w, n)))
  {
    UpwardsInTwo(x, n, n + (n + n));
    UpwardsInTwo(y, n, n + n);
    UpwardsInTwo(z, n, n);
  }

  /** The bits of a word, byte by byte. */
  lemma BitsByBytes(x: bv32, y: bv32, z: bv32, w: bv32)
    requires y == Down(x) && z == Down(y) && w == Down(z)
    ensures Bits(x) == Upwards(x, 8) + (Upwards(y, 8) + (Upwards(z, 8) + Upwards(w, 8)))
  {
    LoweredByEight(x);
    LoweredByEight(y);
    LoweredByEight(z);
    UpwardsInFour(x, y, z, w, 8);
  }

  /** The bits of a word in the opposite order. */
  function Reversed(x: bv32): bv32 {
    var a := ((x >> 1) & 0x5555_5555) | ((x & 0x5555_5555) << 1);
    var b := ((a >> 2) & 0x3333_3333) | ((a & 0x3333_3333) << 2);
    var c := ((b >> 4) & 0x0F0F_0F0F) | ((b & 0x0F0F_0F0F) << 4);
    var d := ((c >> 8) & 0x00FF_00FF) | ((c & 0x00FF_00FF) << 8);
    (d >> 16) | (d << 16)
  }

  lemma ReversedDoubles(x: bv32)
    ensures Half(Reversed(x)) == Reversed(x << 1)
  {
  }

  lemma ReversedLow(x: bv32)
    ensures Odd(Reversed(x)) == (x & 0x8000_0000 != 0)
  {
  }

  lemma {:induction false} ReversedReadsUpwards(x: bv32, n: nat)
    ensures Upwards(Reversed(x), n) == Downwards(x, n)
    decreases n
  {
    if n > 0 {
      ReversedDoubles(x);
      ReversedLow(x);
      ReversedReadsUpwards(x << 1, n - 1);
    }
  }

  lemma PolynomialIsReversed()
    ensures POLYNOMIAL == Reversed(0x1EDC_6F41)
  {
  }

  /** The program's polynomial is the generator's coefficients with the bits reversed. */
  lemma PolynomialIsTheGenerator()
    ensures Bits(POLYNOMIAL) == Generator()[1..]
  {
    PolynomialIsReversed();
    ReversedReadsUpwards(0x1EDC_6F41, 32);
  }

  function Bit(bit: bool): bv32 { if bit then 1 else 0 }

  lemma FirstBit(x: bv32, bit: bool)
    ensures Odd(Xor(x, Bit(bit))) == (Odd(x) != bit)
    ensures Half(Xor(x, Bit(bit))) == Half(x)
  {
  }

  /** One shift of the register is one step of the division. */
  lemma ShiftIsAStep(x: bv32, bit: bool)
    ensures Bits(Shift(Xor(x, Bit(bit)))) == Step(Bits(x), bit)
  {
    var y := Xor(x, Bit(bit));
    FirstBit(x, bit);
    BitsOfHalf(x);
    BitsOfXor(Half(x), POLYNOMIAL);
    PolynomialIsTheGenerator();
    assert Bits(x)[0] == Odd(x);
    assert Shift(y) == if Bits(x)[0] != bit then Xor(Half(x), POLYNOMIAL) else Half(x);
  }

  lemma SplitLowBit(b: bv32)
    ensures b == Xor(Bit(Odd(b)), b & 0xFFFF_FFFE)
    ensures Shift(b & 0xFFFF_FFFE) == Half(b)
  {
  }

  /** Adding a word before a shift is adding its low bit before and the rest after. */
  lemma LowBitFirst(x: bv32, b: bv32)
    ensures Shift(Xor(x, b)) == Xor(Shift(Xor(x, Bit(Odd(b)))), Half(b))
  {
    var low, high := Bit(Odd(b)), b & 0xFFFF_FFFE;
    SplitLowBit(b);
    XorRegroups(x, low, high);
    ShiftIsLinear(Xor(x, low), high);
  }

  lemma OneShiftIn(x: bv32, b: bv32, y: bv32) returns (x': bv32)
    requires Sum(x, b, y)
    ensures Sum(x', Half(b), Shift(y)) && Bits(x') == Step(Bits(x), Odd(b))
  {
    assert Broken(0);
    x' := Shift(Xor(x, Bit(Odd(b))));
    LowBitFirst(x, b);
    ShiftIsAStep(x, Odd(b));
  }

  lemma NothingAdded(x: bv32, y: bv32)
    requires Sum(x, 0, y)
    ensures x == y
  {
    assert Broken(0);
    XorRegroups(x, 0, 0);
  }

  /** Shifting a word in at once is dividing its bits away one by one. */
  lemma {:induction false} ShiftsAreSteps(x: bv32, b: bv32, y: bv32, n: nat)
    requires Sum(x, b, y) && Within(b, n)
    ensures Bits(Shifts(y, n)) == Steps(Bits(x), Upwards(b, n))
    decreases n
  {
    if n == 0 {
      NothingAdded(x, y);
    } else {
      var x' := OneShiftIn(x, b, y);
      ShiftsAreSteps(x', Half(b), Shift(y), n - 1);
    }
  }

  lemma ByteIsWithin(b: bv8)
    ensures Within(b as bv32, 8)
  {
  }

  lemma {:induction false} FeedingIsDividing(x: bv32, data: seq<bv8>)
    ensures Bits(FeedAll(x, data)) == Steps(Bits(x), Message(data))
    decreases |data|
  {
    if data != [] {
      var b := data[0] as bv32;
      ByteIsWithin(data[0]);
      ShiftsAreSteps(x, b, Xor(x, b), 8);
      StepsAppend(Bits(x), Upwards(b, 8), Message(data[1..]));
      FeedingIsDividing(Feed(x, data[0]), data[1..]);
    }
  }

  lemma ByteOfOnes(x: bv32)
    requires x & 0xFF == 0xFF
    ensures Upwards(x, 8) == Ones(8)
  {
  }

  lemma BitsOfOnes()
    ensures Bits(0xFFFF_FFFF) == Ones(32)
  {
    BitsByBytes(0xFFFF_FFFF, 0xFF_FFFF, 0xFFFF, 0xFF);
    ByteOfOnes(0xFFFF_FFFF);
    ByteOfOnes(0xFF_FFFF);
    ByteOfOnes(0xFFFF);
    ByteOfOnes(0xFF);
  }

  /**
    The checksum of every message: append 32 zeros, invert the first 32 coefficients, divide by the generator and invert
    the remainder. Bytes enter and leave with the low bit first.
   */
  lemma RegisterIsTheRemainder(data: seq<bv8>)
    ensures Bits(Register(data)) == Plus(Remainder(InFront(Message(data) + Zeros(32), Ones(32))), Ones(32))
  {
    BitsOfOnes();
    FeedingIsDividing(0xFFFF_FFFF, data);
    DivisionBySteps(Message(data), Ones(32));
    BitsOfXor(FeedAll(0xFFFF_FFFF, data), 0xFFFF_FFFF);
  }

  // ----- The check value

  lemma Fed(data: seq<bv8>, x: bv32, y: bv32, z: bv32, w: bv32)
    requires |data| >= 3 && Feed(x, data[0]) == y && Feed(y, data[1]) == z && Feed(z, data[2]) == w
    ensures FeedAll(x, data) == FeedAll(w, data[3..])
  {
    assert data[1..][1..] == data[2..] && data[2..][1..] == data[3..];
    assert FeedAll(x, data) == FeedAll(y, data[1..]);
    assert FeedAll(y, data[1..]) == FeedAll(z, data[2..]);
    assert FeedAll(z, data[2..]) == FeedAll(w, data[3..]);
  }

  lemma FirstDigits(data: seq<bv8>)
    requires |data| >= 3 && data[0] == 0x31 && data[1] == 0x32 && data[2] == 0x33
    ensures FeedAll(0xFFFF_FFFF, data) == FeedAll(0xEF84_D04D, data[3..])
  {
    Fed(data, 0xFFFF_FFFF, 0x6F0A_661C, 0x8CAA_3B9F, 0xEF84_D04D);
  }

  lemma SecondDigits(data: seq<bv8>)
    requires |data| >= 3 && data[0] == 0x34 && data[1] == 0x35 && data[2] == 0x36
    ensures FeedAll(0xEF84_D04D, data) == FeedAll(0xBECA_8E79, data[3..])
  {
    Fed(data, 0xEF84_D04D, 0x09C5_0B11, 0xE72E_DCCA, 0xBECA_8E79);
  }

  lemma ThirdDigits(data: seq<bv8>)
    requires |data| >= 3 && data[0] == 0x37 && data[1] == 0x38 && data[2] == 0x39
    ensures FeedAll(0xBECA_8E79, data) == FeedAll(0x1CF9_6D7C, data[3..])
  {
    Fed(data, 0xBECA_8E79, 0xEDBD_6815, 0x9F78_7F65, 0x1CF9_6D7C);
  }

  /** The published check value, of the nine digits "123456789". */
  lemma CheckValue()
    ensures Register([0x31, 0x32, 0x33, 0x34, 0x35, 0x36, 0x37, 0x38, 0x39]) == 0xE306_9283
  {
    var data: seq<bv8> := [0x31, 0x32, 0x33, 0x34, 0x35, 0x36, 0x37, 0x38, 0x39];
    FirstDigits(data);
    SecondDigits(data[3..]);
    ThirdDigits(data[3..][3..]);
    assert data[3..][3..][3..] == [];
  }
}
