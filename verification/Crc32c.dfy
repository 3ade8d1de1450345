/**
  CRC32C: the table-driven loop the program runs, the bit-at-a-time shift register it stands
  for, and what the checksum is guaranteed to detect.
 */
module Crc32c {
  import opened Bytes
  import Seqs

  /** The Castagnoli polynomial 0x1EDC6F41 with its bits reversed. */
  const POLYNOMIAL: bv32 := 0x82F6_3B78

  // The word operations carry names so that proofs can reason about them by substitution.

  function Xor(a: bv32, b: bv32): bv32 { a ^ b }

  function Low(x: bv32): bv32 { x & 0xFF }

  function Down(x: bv32): bv32 { x >> 8 }

  function Up(x: bv32): bv32 { x << 8 }

  // ----- The shift register

  /** Shift one bit out; when it was set, feed it back through the polynomial. */
  function Shift(x: bv32): bv32 {
    if x & 1 != 0 then (x >> 1) ^ POLYNOMIAL else x >> 1
  }

  function Shifts(x: bv32, n: nat): bv32
    decreases n
  {
    if n == 0 then x else Shifts(Shift(x), n - 1)
  }

  /** Feed one byte, low bit first, into the register. */
  function Feed(x: bv32, b: bv8): bv32 {
    Shifts(Xor(x, b as bv32), 8)
  }

  function FeedAll(x: bv32, data: seq<bv8>): bv32
    decreases |data|
  {
    if data == [] then x else FeedAll(Feed(x, data[0]), data[1..])
  }

  /** The checksum by definition: preset to ones, all data fed, inverted. */
  function Register(data: seq<bv8>): bv32 {
    Xor(FeedAll(0xFFFF_FFFF, data), 0xFFFF_FFFF)
  }

  // ----- The register is linear over exclusive or

  lemma BothFeedBack(x: bv32, y: bv32)
    requires x & 1 != 0 && y & 1 != 0
    ensures Shift(Xor(x, y)) == Xor(Shift(x), Shift(y))
  {
  }

  lemma RightFeedsBack(x: bv32, y: bv32)
    requires x & 1 == 0 && y & 1 != 0
    ensures Shift(Xor(x, y)) == Xor(Shift(x), Shift(y))
  {
  }

  lemma XorCommutes(x: bv32, y: bv32)
    ensures Xor(x, y) == Xor(y, x)
  {
  }

  lemma LeftFeedsBack(x: bv32, y: bv32)
    requires x & 1 != 0 && y & 1 == 0
    ensures Shift(Xor(x, y)) == Xor(Shift(x), Shift(y))
  {
    RightFeedsBack(y, x);
    XorCommutes(x, y);
    XorCommutes(Shift(x), Shift(y));
  }

  lemma NoneFeedsBack(x: bv32, y: bv32)
    requires x & 1 == 0 && y & 1 == 0
    ensures Shift(Xor(x, y)) == Xor(Shift(x), Shift(y))
  {
  }

  lemma ShiftIsLinear(x: bv32, y: bv32)
    ensures Shift(Xor(x, y)) == Xor(Shift(x), Shift(y))
  {
    if x & 1 != 0 {
      if y & 1 != 0 { BothFeedBack(x, y); } else { LeftFeedsBack(x, y); }
    } else {
      if y & 1 != 0 { RightFeedsBack(x, y); } else { NoneFeedsBack(x, y); }
    }
  }

  lemma {:induction false} ShiftsAreLinear(x: bv32, y: bv32, n: nat)
    ensures Shifts(Xor(x, y), n) == Xor(Shifts(x, n), Shifts(y, n))
    decreases n
  {
    if n > 0 {
      ShiftIsLinear(x, y);
      ShiftsAreLinear(Shift(x), Shift(y), n - 1);
    }
  }

  /** Bits above the low byte just move down during eight shifts. */
  lemma HighBitsMoveDown(x: bv32)
    requires Low(x) == 0
    ensures Shifts(x, 8) == Down(x)
  {
  }

  lemma HighAndLow(x: bv32)
    ensures x == Xor(x & 0xFFFF_FF00, Low(x))
    ensures Low(x & 0xFFFF_FF00) == 0
    ensures Down(x & 0xFFFF_FF00) == Down(x)
  {
  }

  /** Only the low byte feeds back during eight shifts. */
  lemma LowByteDecides(x: bv32)
    ensures Shifts(x, 8) == Xor(Down(x), Shifts(Low(x), 8))
  {
    HighAndLow(x);
    ShiftsAreLinear(x & 0xFFFF_FF00, Low(x), 8);
    HighBitsMoveDown(x & 0xFFFF_FF00);
  }

  // ----- The table

  /** One table entry: the byte value after eight shifts. */
  method BuildEntry(value: bv32) returns (remainder: bv32)
    ensures remainder == Shifts(value, 8)
  {
    remainder := value;
    var bit := 0;
    while bit < 8
      invariant 0 <= bit <= 8
      invariant Shifts(remainder, 8 - bit) == Shifts(value, 8)
    {
      if remainder & 1 != 0 {
        remainder := (remainder >> 1) ^ POLYNOMIAL;
      } else {
        remainder := remainder >> 1;
      }
      bit := bit + 1;
    }
  }

  /** What table entry `i` must be. */
  function Entry(i: int): bv32
    requires 0 <= i < 256
  {
    Shifts(i as bv32, 8)
  }

  ghost predicate IsTable(table: seq<bv32>) {
    |table| == 256 && forall i :: 0 <= i < 256 ==> table[i] == Entry(i)
  }

  /** The 256 entries, filled in order. */
  method BuildTable() returns (table: array<bv32>)
    ensures fresh(table) && IsTable(table[..])
  {
    table := new bv32[256];
    var index := 0;
    while index < 256
      invariant 0 <= index <= 256
      invariant forall i :: 0 <= i < index ==> table[i] == Entry(i)
    {
      var entry := BuildEntry(index as bv32);
      table[index] := entry;
      index := index + 1;
    }
  }

  lemma ByteIndex(x: bv32)
    ensures 0 <= Low(x) as int < 256
  {
  }

  lemma IndexIsTheByte(x: bv32)
    ensures (x as int) as bv32 == x
  {
  }

  lemma ByteLeavesHighBits(x: bv32, b: bv8)
    ensures Down(Xor(x, b as bv32)) == Down(x)
  {
  }

  /** One table step is eight shifts of the register. */
  lemma TableStep(x: bv32, b: bv8)
    ensures Xor(Down(x), Shifts(Low(Xor(x, b as bv32)), 8)) == Feed(x, b)
  {
    LowByteDecides(Xor(x, b as bv32));
    ByteLeavesHighBits(x, b);
  }

  /** The table-driven loop computes the shift register's checksum, on every input. */
  method ComputeCrc32c(data: seq<bv8>) returns (checksum: bv32)
    ensures checksum == Register(data)
  {
    var table := BuildTable();
    var accumulator: bv32 := 0xFFFF_FFFF;
    for i := 0 to |data|
      invariant IsTable(table[..])
      invariant FeedAll(accumulator, data[i..]) == FeedAll(0xFFFF_FFFF, data)
    {
      accumulator := TableFeed(table, accumulator, data[i]);
      assert data[i..][1..] == data[i + 1..];
    }
    assert data[|data|..] == [];
    checksum := Xor(accumulator, 0xFFFF_FFFF);
  }

  /** One iteration: exclusive-or the byte in, look up the remainder, shift the rest down. */
  method TableFeed(table: array<bv32>, x: bv32, b: bv8) returns (y: bv32)
    requires IsTable(table[..])
    ensures y == Feed(x, b)
  {
    var low := Low(Xor(x, b as bv32));
    ByteIndex(Xor(x, b as bv32));
    IndexIsTheByte(low);
    TableStep(x, b);
    var tableIndex := low as int;
    assert table[..][tableIndex] == Entry(tableIndex);
    y := Xor(Down(x), table[tableIndex]);
  }

  // ----- What the checksum detects

  /** The shift can be undone: the top bit tells whether the polynomial was fed in. */
  function Unshift(y: bv32): bv32 {
    if y & 0x8000_0000 != 0 then ((y ^ POLYNOMIAL) << 1) | 1 else y << 1
  }

  lemma UnshiftUndoesShift(x: bv32)
    ensures Unshift(Shift(x)) == x
  {
  }

  lemma {:induction false} ShiftsAreInjective(x: bv32, y: bv32, n: nat)
    requires Shifts(x, n) == Shifts(y, n)
    ensures x == y
    decreases n
  {
    if n > 0 {
      ShiftsAreInjective(Shift(x), Shift(y), n - 1);
      UnshiftUndoesShift(x);
      UnshiftUndoesShift(y);
    }
  }

  lemma XorCancels(x: bv32, y: bv32, b: bv32)
    ensures Xor(x, b) == Xor(y, b) ==> x == y
    ensures Xor(b, x) == Xor(b, y) ==> x == y
  {
  }

  lemma FeedIsInjective(x: bv32, y: bv32, b: bv8)
    requires Feed(x, b) == Feed(y, b)
    ensures x == y
  {
    ShiftsAreInjective(Xor(x, b as bv32), Xor(y, b as bv32), 8);
    XorCancels(x, y, b as bv32);
  }

  /** Once two registers differ, feeding both the same data never makes them meet again. */
  lemma {:induction false} DifferenceSurvives(x: bv32, y: bv32, data: seq<bv8>)
    requires x != y
    ensures FeedAll(x, data) != FeedAll(y, data)
    decreases |data|
  {
    if data != [] {
      if Feed(x, data[0]) == Feed(y, data[0]) { FeedIsInjective(x, y, data[0]); }
      DifferenceSurvives(Feed(x, data[0]), Feed(y, data[0]), data[1..]);
    }
  }

  lemma {:induction false} FeedAppend(x: bv32, a: seq<bv8>, b: seq<bv8>)
    ensures FeedAll(x, a + b) == FeedAll(FeedAll(x, a), b)
    decreases |a|
  {
    if a == [] {
      assert a + b == b;
    } else {
      assert (a + b)[1..] == a[1..] + b;
      FeedAppend(Feed(x, a[0]), a[1..], b);
    }
  }

  // ----- Windows of up to four bytes

  /** The bytes of a window, packed little-endian into one word. */
  function Word(window: seq<bv8>): bv32
    decreases |window|
  {
    if window == [] then 0 else Xor(window[0] as bv32, Up(Word(window[1..])))
  }

  /** `w` has room for one more byte below it. */
  predicate ThreeBytes(w: bv32) { w & 0xFF00_0000 == 0 }

  predicate TwoBytes(w: bv32) { w & 0xFFFF_0000 == 0 }

  predicate OneByte(w: bv32) { w & 0xFFFF_FF00 == 0 }

  lemma WordGrows(b: bv8, w: bv32)
    ensures OneByte(w) ==> TwoBytes(Xor(b as bv32, Up(w)))
    ensures TwoBytes(w) ==> ThreeBytes(Xor(b as bv32, Up(w)))
  {
  }

  lemma FirstByte(b: bv8)
    ensures OneByte(Xor(b as bv32, Up(0)))
  {
  }

  lemma FewerBytes(w: bv32)
    ensures OneByte(w) ==> TwoBytes(w)
    ensures TwoBytes(w) ==> ThreeBytes(w)
  {
  }

  lemma {:induction false} WordFits(window: seq<bv8>)
    requires |window| <= 3
    ensures ThreeBytes(Word(window))
    ensures |window| <= 2 ==> TwoBytes(Word(window))
    ensures |window| <= 1 ==> OneByte(Word(window))
    decreases |window|
  {
    if window == [] {
      assert OneByte(0) && TwoBytes(0) && ThreeBytes(0);
    } else {
      WordFits(window[1..]);
      WordGrows(window[0], Word(window[1..]));
      FirstByte(window[0]);
      FewerBytes(Word(window));
    }
  }

  lemma UpAndDown(w: bv32)
    ensures Low(Up(w)) == 0
    ensures ThreeBytes(w) ==> Down(Up(w)) == w
  {
  }

  lemma {:induction false} ShiftsCompose(x: bv32, m: nat, n: nat)
    ensures Shifts(x, m + n) == Shifts(Shifts(x, m), n)
    decreases m
  {
    if m > 0 { ShiftsCompose(Shift(x), m - 1, n); }
  }

  lemma XorRegroups(a: bv32, b: bv32, c: bv32)
    ensures Xor(Xor(a, b), c) == Xor(a, Xor(b, c))
    ensures Xor(a, 0) == a
  {
  }

  /** Feeding a window is one exclusive or of its word followed by shifts. */
  lemma {:induction false} WindowIsOneWord(x: bv32, window: seq<bv8>)
    requires |window| <= 4
    ensures FeedAll(x, window) == Shifts(Xor(x, Word(window)), 8 * |window|)
    decreases |window|
  {
    if window == [] {
      XorRegroups(x, 0, 0);
    } else {
      var b, rest := window[0] as bv32, window[1..];
      var w := Word(rest);
      WindowIsOneWord(Feed(x, window[0]), rest);
      WordFits(rest);
      UpAndDown(w);
      HighBitsMoveDown(Up(w));
      ShiftsAreLinear(Xor(x, b), Up(w), 8);
      XorRegroups(x, b, Up(w));
      ShiftsCompose(Xor(x, Word(window)), 8, 8 * |rest|);
    }
  }

  lemma WordsDiffer(b: bv8, c: bv8, v: bv32, w: bv32)
    requires ThreeBytes(v) && ThreeBytes(w)
    requires Xor(b as bv32, Up(v)) == Xor(c as bv32, Up(w))
    ensures b == c && v == w
  {
  }

  lemma HeadsAgree(a: seq<bv8>, b: seq<bv8>)
    requires |a| == |b| <= 4 && a != [] && Word(a) == Word(b)
    ensures a[0] == b[0] && Word(a[1..]) == Word(b[1..])
  {
    WordFits(a[1..]);
    WordFits(b[1..]);
    WordsDiffer(a[0], b[0], Word(a[1..]), Word(b[1..]));
  }

  lemma {:induction false} WordIsInjective(a: seq<bv8>, b: seq<bv8>)
    requires |a| == |b| <= 4 && Word(a) == Word(b)
    ensures a == b
    decreases |a|
  {
    if a != [] {
      HeadsAgree(a, b);
      WordIsInjective(a[1..], b[1..]);
      Seqs.HeadTail(a);
      Seqs.HeadTail(b);
    }
  }

  lemma WindowsSeparate(x: bv32, a: seq<bv8>, b: seq<bv8>)
    requires |a| == |b| <= 4 && a != b
    ensures FeedAll(x, a) != FeedAll(x, b)
  {
    WindowIsOneWord(x, a);
    WindowIsOneWord(x, b);
    if FeedAll(x, a) == FeedAll(x, b) {
      ShiftsAreInjective(Xor(x, Word(a)), Xor(x, Word(b)), 8 * |a|);
      XorCancels(Word(a), Word(b), x);
      WordIsInjective(a, b);
    }
  }

  /** Two equal-length inputs that differ only inside four consecutive bytes never share a checksum. */
  lemma BurstIsDetected(prefix: seq<bv8>, a: seq<bv8>, b: seq<bv8>, suffix: seq<bv8>)
    requires |a| == |b| <= 4 && a != b
    ensures Register(prefix + a + suffix) != Register(prefix + b + suffix)
  {
    var ones: bv32 := 0xFFFF_FFFF;
    var x := FeedAll(ones, prefix);
    FeedAppend(ones, prefix + a, suffix);
    FeedAppend(ones, prefix, a);
    FeedAppend(ones, prefix + b, suffix);
    FeedAppend(ones, prefix, b);
    WindowsSeparate(x, a, b);
    DifferenceSurvives(FeedAll(x, a), FeedAll(x, b), suffix);
    XorCancels(FeedAll(FeedAll(x, a), suffix), FeedAll(FeedAll(x, b), suffix), ones);
  }

  // ----- The checksum of a run of bytes

  function AsBits(data: seq<byte>): (bits: seq<bv8>)
    ensures |bits| == |data| && forall i :: 0 <= i < |data| ==> bits[i] == data[i] as bv8
  {
    seq(|data|, i requires 0 <= i < |data| => data[i] as bv8)
  }

  /** The CRC32C of `data`, as the four-byte field it is stored in. */
  function Crc(data: seq<byte>): (c: nat)
    ensures c < 0x1_0000_0000
  {
    Register(AsBits(data)) as nat
  }

  lemma BitsBack(y: bv8)
    ensures (y as int) as bv8 == y
    ensures y as int < 255 ==> y < 0xFF
  {
  }

  lemma OneUp(y: bv8)
    requires y < 0xFF
    ensures (y + 1) as int == (y as int) + 1
  {
  }

  lemma {:induction false} EveryByte(x: byte) returns (y: bv8)
    ensures y as int == x
    decreases x
  {
    if x == 0 {
      y := 0;
    } else {
      y := EveryByte(x - 1);
      BitsBack(y);
      OneUp(y);
      y := y + 1;
    }
  }

  lemma ByteBack(x: byte)
    ensures (x as bv8) as int == x
  {
    var y := EveryByte(x);
    BitsBack(y);
  }

  lemma {:induction false} BitsAreInjective(a: seq<byte>, b: seq<byte>)
    requires AsBits(a) == AsBits(b)
    ensures a == b
  {
    assert |a| == |b|;
    forall i | 0 <= i < |a|
      ensures a[i] == b[i]
    {
      assert AsBits(a)[i] == AsBits(b)[i];
      ByteBack(a[i]);
      ByteBack(b[i]);
    }
  }

  /** Bytes that differ only inside four consecutive ones never share a checksum. */
  lemma DamageIsDetected(prefix: seq<byte>, a: seq<byte>, b: seq<byte>, suffix: seq<byte>)
    requires |a| == |b| <= 4 && a != b
    ensures Crc(prefix + a + suffix) != Crc(prefix + b + suffix)
  {
    if AsBits(a) == AsBits(b) { BitsAreInjective(a, b); }
    BitsInTurn(prefix, a, suffix);
    BitsInTurn(prefix, b, suffix);
    BurstIsDetected(AsBits(prefix), AsBits(a), AsBits(b), AsBits(suffix));
    NumbersDiffer(Register(AsBits(prefix + a + suffix)), Register(AsBits(prefix + b + suffix)));
  }

  lemma BitsInTurn(a: seq<byte>, b: seq<byte>, c: seq<byte>)
    ensures AsBits(a + b + c) == AsBits(a) + AsBits(b) + AsBits(c)
  {
  }

  lemma NumbersDiffer(x: bv32, y: bv32)
    requires x != y
    ensures x as nat != y as nat
  {
    IndexIsTheByte(x);
    IndexIsTheByte(y);
  }
}
