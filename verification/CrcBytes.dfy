/** The byte-at-a-time loops, crc32hash's `crc32`, and what the results mean for it. */
module CrcBytes {
  import opened Gf2
  import opened CrcMachine
  import opened CrcDetect
  import opened CrcWords

  // ----- Bytes as bits -----

  function Wide(b: bv8): bv32 {
    b as bv32
  }

  /** Bits in the order they are sent, least significant first. */
  function ByteLE(b: bv8): (s: seq<bool>)
    ensures |s| == 8
  {
    BitsLE(Wide(b))[..8]
  }

  /** Most significant bit first. */
  function ByteBE(b: bv8): (s: seq<bool>)
    ensures |s| == 8
  {
    seq(8, i requires 0 <= i < 8 => ByteLE(b)[7 - i])
  }

  function MessageLE(m: seq<bv8>): (s: seq<bool>)
    ensures |s| == 8 * |m|
  {
    if m == [] then [] else MessageLE(m[..|m| - 1]) + ByteLE(m[|m| - 1])
  }

  function MessageBE(m: seq<bv8>): (s: seq<bool>)
    ensures |s| == 8 * |m|
  {
    if m == [] then [] else MessageBE(m[..|m| - 1]) + ByteBE(m[|m| - 1])
  }

  lemma WideMask(b: bv8)
    ensures HasBit(Wide(b), 1) == (b & 1 != 0) && HasBit(Wide(b), 2) == (b & 2 != 0)
    ensures HasBit(Wide(b), 4) == (b & 4 != 0) && HasBit(Wide(b), 8) == (b & 8 != 0)
    ensures HasBit(Wide(b), 16) == (b & 16 != 0) && HasBit(Wide(b), 32) == (b & 32 != 0)
    ensures HasBit(Wide(b), 64) == (b & 64 != 0) && HasBit(Wide(b), 128) == (b & 128 != 0)
  {
  }

  lemma SmallPowers()
    ensures Power(0) == 1 && Power(1) == 2 && Power(2) == 4 && Power(3) == 8
    ensures Power(4) == 16 && Power(5) == 32 && Power(6) == 64 && Power(7) == 128
  {
  }

  lemma EightBits(b: bv8, x: seq<bool>)
    requires |x| == 8 && forall i :: 0 <= i < 8 ==> x[i] == HasBit(Wide(b), Power(i))
    ensures x == [b & 1 != 0, b & 2 != 0, b & 4 != 0, b & 8 != 0, b & 16 != 0, b & 32 != 0, b & 64 != 0, b & 128 != 0]
  {
    SmallPowers();
    WideMask(b);
    assert x[0] == HasBit(Wide(b), 1) && x[1] == HasBit(Wide(b), 2);
  }

  lemma LittleReading(b: bv8)
    ensures ByteLE(b) == [b & 1 != 0, b & 2 != 0, b & 4 != 0, b & 8 != 0, b & 16 != 0, b & 32 != 0, b & 64 != 0, b & 128 != 0]
  {
    EightBits(b, ByteLE(b));
  }

  lemma Backwards(x: seq<bool>, y: seq<bool>)
    requires |x| == |y| == 8 && forall i :: 0 <= i < 8 ==> y[i] == x[7 - i]
    ensures y == [x[7], x[6], x[5], x[4], x[3], x[2], x[1], x[0]]
  {
  }

  /** Which bits of a byte are meant, in either order. */
  lemma {:induction false} ByteReading(b: bv8)
    ensures ByteLE(b) == [b & 1 != 0, b & 2 != 0, b & 4 != 0, b & 8 != 0, b & 16 != 0, b & 32 != 0, b & 64 != 0, b & 128 != 0]
    ensures ByteBE(b) == [b & 128 != 0, b & 64 != 0, b & 32 != 0, b & 16 != 0, b & 8 != 0, b & 4 != 0, b & 2 != 0, b & 1 != 0]
  {
    LittleReading(b);
    Backwards(ByteLE(b), ByteBE(b));
  }

  lemma {:induction false} MessageSlice(m: seq<bv8>, j: nat)
    requires j < |m|
    ensures MessageLE(m)[8 * j..8 * j + 8] == ByteLE(m[j])
    ensures MessageBE(m)[8 * j..8 * j + 8] == ByteBE(m[j])
  {
    var init := m[..|m| - 1];
    if j == |init| {
      assert MessageLE(m)[8 * j..] == ByteLE(m[j]) && MessageBE(m)[8 * j..] == ByteBE(m[j]);
    } else {
      MessageSlice(init, j);
      assert MessageLE(m)[8 * j..8 * j + 8] == MessageLE(init)[8 * j..8 * j + 8];
      assert MessageBE(m)[8 * j..8 * j + 8] == MessageBE(init)[8 * j..8 * j + 8];
    }
  }

  /** Which bit of which byte each bit of a message is, in either order. */
  lemma {:induction false} MessageReading(m: seq<bv8>, j: nat, b: bv8)
    requires j < |m| && b == m[j]
    ensures MessageLE(m)[8 * j..8 * j + 8]
         == [b & 1 != 0, b & 2 != 0, b & 4 != 0, b & 8 != 0, b & 16 != 0, b & 32 != 0, b & 64 != 0, b & 128 != 0]
    ensures MessageBE(m)[8 * j..8 * j + 8]
         == [b & 128 != 0, b & 64 != 0, b & 32 != 0, b & 16 != 0, b & 8 != 0, b & 4 != 0, b & 2 != 0, b & 1 != 0]
  {
    MessageSlice(m, j);
    ByteReading(b);
  }

  lemma HighPower(i: nat)
    requires 8 <= i < 32
    ensures Power(i) & 0xff == 0
  {
    assert Power(8) == 0x100;
    assert Power(12) == 0x1000;
    assert Power(16) == 0x10000;
    assert Power(20) == 0x100000;
    assert Power(24) == 0x1000000;
    assert Power(28) == 0x10000000;
  }

  lemma WideMasked(b: bv8, mask: bv32)
    requires mask & 0xff == 0
    ensures !HasBit(Wide(b), mask)
  {
  }

  lemma WideBits(b: bv8)
    ensures BitsLE(Wide(b)) == ByteLE(b) + Zeros(24)
  {
    forall i | 8 <= i < 32
      ensures !BitsLE(Wide(b))[i]
    {
      HighPower(i);
      WideMasked(b, Power(i));
    }
  }

  function Top(b: bv8): bv32 {
    Wide(b) << 24
  }

  lemma {:induction false} PowerPlus(e: nat)
    requires e < 8
    ensures Power(e + 24) == Power(e) << 24
  {
    if e == 0 {
      assert Power(8) == 0x100;
      assert Power(16) == 0x10000;
      assert Power(24) == 0x1000000;
    } else {
      PowerPlus(e - 1);
      ShiftOrder(Power(e - 1));
    }
  }

  lemma ShiftOrder(x: bv32)
    ensures (x << 24) << 1 == (x << 1) << 24
  {
  }

  lemma LowPower(i: nat)
    requires i < 8
    ensures Power(i) & 0xff == Power(i)
  {
    assert Power(4) == 0x10;
    assert Power(7) == 0x80;
  }

  lemma TopMasked(b: bv8, mask: bv32, high: bv32)
    requires mask & 0xff == mask && high == mask << 24
    ensures HasBit(Top(b), high) == HasBit(Wide(b), mask)
  {
  }

  lemma SmallPower(i: nat)
    requires i < 24
    ensures Power(i) & 0xff000000 == 0
  {
    assert Power(4) == 0x10;
    assert Power(8) == 0x100;
    assert Power(12) == 0x1000;
    assert Power(16) == 0x10000;
    assert Power(20) == 0x100000;
    assert Power(23) == 0x800000;
  }

  lemma TopUnmasked(b: bv8, mask: bv32)
    requires mask & 0xff000000 == 0
    ensures !HasBit(Top(b), mask)
  {
  }

  lemma ByteMirrored(b: bv8, i: nat)
    requires i < 8
    ensures ByteBE(b)[i] == HasBit(Wide(b), Power(7 - i))
  {
    assert ByteLE(b)[7 - i] == BitsLE(Wide(b))[7 - i];
  }

  lemma TopBit(b: bv8, i: nat)
    requires i < 32
    ensures BitsBE(Top(b))[i] == if i < 8 then ByteBE(b)[i] else false
  {
    if i < 8 {
      PowerPlus(7 - i);
      LowPower(7 - i);
      TopMasked(b, Power(7 - i), Power(31 - i));
      ByteMirrored(b, i);
    } else {
      SmallPower(31 - i);
      TopUnmasked(b, Power(31 - i));
    }
  }

  lemma TopBits(b: bv8)
    ensures BitsBE(Top(b)) == ByteBE(b) + Zeros(24)
  {
    forall i | 0 <= i < 32
      ensures BitsBE(Top(b))[i] == (ByteBE(b) + Zeros(24))[i]
    {
      TopBit(b, i);
    }
  }

  lemma MergeByteLE(r: bv32, b: bv8)
    ensures BitsLE(r ^ Wide(b)) == Merge(BitsLE(r), ByteLE(b))
  {
    XorLE(r, Wide(b));
    WideBits(b);
  }

  lemma MergeByteBE(r: bv32, b: bv8)
    ensures BitsBE(r ^ Top(b)) == Merge(BitsBE(r), ByteBE(b))
  {
    XorBE(r, Top(b));
    TopBits(b);
  }

  lemma NextChunk(p: seq<bool>, r: seq<bool>, bits: seq<bool>, w: seq<bool>)
    requires |r| == |p| > 0 && |w| <= |p|
    ensures Run(p, r, bits + w) == Shifts(p, Merge(Run(p, r, bits), w), |w|)
  {
    RunSplit(p, r, bits, w);
    MergeIsRun(p, Run(p, r, bits), w);
  }

  lemma MessageNext(m: seq<bv8>, i: nat)
    requires i < |m|
    ensures MessageLE(m[..i + 1]) == MessageLE(m[..i]) + ByteLE(m[i])
    ensures MessageBE(m[..i + 1]) == MessageBE(m[..i]) + ByteBE(m[i])
  {
    assert m[..i + 1][..i] == m[..i];
  }

  // ----- The byte loops -----

  method ShiftLoopBE(poly: bv32, start: bv32, n: nat) returns (remainder: bv32)
    ensures BitsBE(remainder) == Shifts(BitsBE(poly), BitsBE(start), n)
  {
    remainder := start;
    for j := 0 to n
      invariant BitsBE(remainder) == Shifts(BitsBE(poly), BitsBE(start), j)
    {
      ShiftBEBits(poly, remainder);
      remainder := ShiftBE(poly, remainder);
    }
  }

  method ShiftLoopLE(poly: bv32, start: bv32, n: nat) returns (remainder: bv32)
    ensures BitsLE(remainder) == Shifts(BitsLE(poly), BitsLE(start), n)
  {
    remainder := start;
    for j := 0 to n
      invariant BitsLE(remainder) == Shifts(BitsLE(poly), BitsLE(start), j)
    {
      ShiftLEBits(poly, remainder);
      remainder := ShiftLE(poly, remainder);
    }
  }

  method BigBytesLoop(poly: bv32, start: bv32, bytes: seq<bv8>) returns (remainder: bv32)
    ensures BitsBE(remainder) == Run(BitsBE(poly), BitsBE(start), MessageBE(bytes))
  {
    remainder := start;
    for i := 0 to |bytes|
      invariant BitsBE(remainder) == Run(BitsBE(poly), BitsBE(start), MessageBE(bytes[..i]))
    {
      MergeByteBE(remainder, bytes[i]);
      NextChunk(BitsBE(poly), BitsBE(start), MessageBE(bytes[..i]), ByteBE(bytes[i]));
      MessageNext(bytes, i);
      remainder := ShiftLoopBE(poly, remainder ^ Top(bytes[i]), 8);
    }
    assert bytes[..|bytes|] == bytes;
  }

  method LittleBytesLoop(poly: bv32, start: bv32, bytes: seq<bv8>) returns (remainder: bv32)
    ensures BitsLE(remainder) == Run(BitsLE(poly), BitsLE(start), MessageLE(bytes))
  {
    remainder := start;
    for i := 0 to |bytes|
      invariant BitsLE(remainder) == Run(BitsLE(poly), BitsLE(start), MessageLE(bytes[..i]))
    {
      MergeByteLE(remainder, bytes[i]);
      NextChunk(BitsLE(poly), BitsLE(start), MessageLE(bytes[..i]), ByteLE(bytes[i]));
      MessageNext(bytes, i);
      remainder := ShiftLoopLE(poly, remainder ^ Wide(bytes[i]), 8);
    }
    assert bytes[..|bytes|] == bytes;
  }

  // ----- crc32hash -----

  const POLY: bv32 := 0xedb88320

  function ShiftsWord(poly: bv32, r: bv32, n: nat): bv32 {
    if n == 0 then r else ShiftLE(poly, ShiftsWord(poly, r, n - 1))
  }

  function ByteStep(poly: bv32, r: bv32, b: bv8): bv32 {
    ShiftsWord(poly, r ^ Wide(b), 8)
  }

  /** The little-endian CRC of m from the start value r. */
  function CrcFrom(poly: bv32, r: bv32, m: seq<bv8>): bv32 {
    if m == [] then r else ByteStep(poly, CrcFrom(poly, r, m[..|m| - 1]), m[|m| - 1])
  }

  function Crc(m: seq<bv8>): bv32 {
    CrcFrom(POLY, 0, m)
  }

  method Crc32(p: seq<bv8>) returns (crc: bv32)
    ensures crc == Crc(p)
  {
    crc := 0;
    var at := 0;
    while at < |p|
      invariant 0 <= at <= |p|
      invariant crc == Crc(p[..at])
    {
      assert p[..at + 1][..at] == p[..at];
      crc := crc ^ Wide(p[at]);
      ghost var merged := crc;
      for i := 0 to 8
        invariant crc == ShiftsWord(POLY, merged, i)
      {
        crc := ShiftLE(POLY, crc);
      }
      at := at + 1;
    }
    assert p[..at] == p;
  }

  lemma {:induction false} ShiftsWordBits(poly: bv32, r: bv32, n: nat)
    ensures BitsLE(ShiftsWord(poly, r, n)) == Shifts(BitsLE(poly), BitsLE(r), n)
  {
    if n > 0 {
      ShiftsWordBits(poly, r, n - 1);
      ShiftLEBits(poly, ShiftsWord(poly, r, n - 1));
    }
  }

  lemma ByteStepBits(poly: bv32, r: bv32, b: bv8)
    ensures BitsLE(ByteStep(poly, r, b)) == Run(BitsLE(poly), BitsLE(r), ByteLE(b))
  {
    MergeByteLE(r, b);
    ShiftsWordBits(poly, r ^ Wide(b), 8);
    MergeIsRun(BitsLE(poly), BitsLE(r), ByteLE(b));
  }

  lemma {:induction false} CrcFromBits(poly: bv32, r: bv32, m: seq<bv8>)
    ensures BitsLE(CrcFrom(poly, r, m)) == Run(BitsLE(poly), BitsLE(r), MessageLE(m))
  {
    if m != [] {
      var init, b := m[..|m| - 1], m[|m| - 1];
      CrcFromBits(poly, r, init);
      ByteStepBits(poly, CrcFrom(poly, r, init), b);
      RunSplit(BitsLE(poly), BitsLE(r), MessageLE(init), ByteLE(b));
    }
  }

  lemma CrcBits(m: seq<bv8>)
    ensures BitsLE(Crc(m)) == Run(BitsLE(POLY), Zeros(32), MessageLE(m))
  {
    CrcFromBits(POLY, 0, m);
    ZeroWord();
  }

  lemma PolyBit(e: nat)
    requires e < 32
    ensures BitsLE(POLY)[e] <==> e in {5, 8, 9, 15, 19, 20, 21, 23, 24, 26, 27, 29, 30, 31}
  {
    assert Power(4) == 0x10;
    assert Power(8) == 0x100;
    assert Power(12) == 0x1000;
    assert Power(16) == 0x10000;
    assert Power(20) == 0x100000;
    assert Power(24) == 0x1000000;
    assert Power(28) == 0x10000000;
    assert Power(31) == 0x80000000;
  }

  /** The constant in crc32 is the CRC-32 polynomial, bit-reversed and without its leading term. */
  lemma PolyExponents()
    ensures FromBits([true] + BitsLE(POLY)) == {32, 26, 23, 22, 16, 12, 11, 10, 8, 7, 5, 4, 2, 1, 0}
  {
    var bits := [true] + BitsLE(POLY);
    forall e: nat
      ensures e in FromBits(bits) <==> e in {32, 26, 23, 22, 16, 12, 11, 10, 8, 7, 5, 4, 2, 1, 0}
    {
      Coefficients(bits, e);
      if e < 32 {
        PolyBit(31 - e);
      }
    }
  }

  /** Main result: crc32 is the remainder of the message, with room for 32 bits, on division by
      the CRC-32 polynomial; no other value is. */
  lemma {:induction false} CrcIsRemainder(m: seq<bv8>, r: Poly)
    ensures IsRemainder(FromBits(MessageLE(m) + Zeros(32)), FromBits([true] + BitsLE(POLY)), 32, r)
       <==> r == FromBits(BitsLE(Crc(m)))
  {
    CrcBits(m);
    RunIsRemainder(BitsLE(POLY), MessageLE(m), r);
  }

  // ----- Burst errors -----

  lemma ConstantTerm()
    ensures BitsLE(POLY)[31]
  {
    PowerAt(31);
  }

  function LowByte(r: bv32): bv8 {
    (r & 0xff) as bv8
  }

  lemma LowWide(b: bv8)
    ensures LowByte(Wide(b)) == b
  {
  }

  lemma ByteExtensional(a: bv8, b: bv8)
    requires ByteLE(a) == ByteLE(b)
    ensures a == b
  {
    WideBits(a);
    WideBits(b);
    WordExtensional(Wide(a), Wide(b));
    LowWide(a);
    LowWide(b);
  }

  lemma {:induction false} MessageExtensional(x: seq<bv8>, y: seq<bv8>)
    requires |x| == |y| && MessageLE(x) == MessageLE(y)
    ensures x == y
  {
    if x != [] {
      var x', y' := x[..|x| - 1], y[..|y| - 1];
      var n := 8 * |x'|;
      assert MessageLE(x)[..n] == MessageLE(x') && MessageLE(y)[..n] == MessageLE(y');
      assert MessageLE(x)[n..] == ByteLE(x[|x| - 1]) && MessageLE(y)[n..] == ByteLE(y[|y| - 1]);
      MessageExtensional(x', y');
      ByteExtensional(x[|x| - 1], y[|y| - 1]);
    }
  }

  /** Main result: crc32 tells apart any two messages that differ only within 32 consecutive
      bits, in the order the bits are sent and at any alignment. */
  lemma {:induction false} CrcDetectsBurst(x: seq<bv8>, y: seq<bv8>, s: nat)
    requires |x| == |y| && x != y
    requires forall i :: 0 <= i < 8 * |x| && MessageLE(x)[i] != MessageLE(y)[i] ==> s <= i < s + 32
    ensures Crc(x) != Crc(y)
  {
    if MessageLE(x) == MessageLE(y) {
      MessageExtensional(x, y);
    }
    ConstantTerm();
    BurstDetected(BitsLE(POLY), Zeros(32), MessageLE(x), MessageLE(y), s);
    CrcBits(x);
    CrcBits(y);
  }

  // ----- Appending the CRC -----

  lemma MessageSnoc(m: seq<bv8>, b: bv8)
    ensures MessageLE(m + [b]) == MessageLE(m) + ByteLE(b)
  {
    assert (m + [b])[..|m|] == m;
  }

  lemma {:induction false} MessageSplit(a: seq<bv8>, b: seq<bv8>)
    ensures MessageLE(a + b) == MessageLE(a) + MessageLE(b)
  {
    if b == [] {
      assert a + b == a;
    } else {
      var init, last := b[..|b| - 1], b[|b| - 1];
      MessageSplit(a, init);
      MessageSnoc(init, last);
      MessageSnoc(a + init, last);
      assert init + [last] == b;
      Regroup(a, init, [last]);
      Regroup(MessageLE(a), MessageLE(init), ByteLE(last));
    }
  }

  lemma Regroup<T>(x: seq<T>, y: seq<T>, z: seq<T>)
    ensures (x + y) + z == x + (y + z)
  {
  }

  function Shr8(r: bv32): bv32 {
    r >> 8
  }

  function Shr2(r: bv32): bv32 {
    r >> 2
  }

  function Shr4(r: bv32): bv32 {
    r >> 4
  }

  lemma Shr1Twice(r: bv32)
    ensures (r >> 1) >> 1 == Shr2(r)
  {
  }

  lemma Shr2Twice(r: bv32)
    ensures Shr2(Shr2(r)) == Shr4(r)
  {
  }

  lemma Shr4Twice(r: bv32)
    ensures Shr4(Shr4(r)) == Shr8(r)
  {
  }

  /** x moved down by n places. */
  function Down(x: seq<bool>, n: nat): seq<bool>
    requires n <= |x|
  {
    x[n..] + Zeros(n)
  }

  lemma DownTwice(x: seq<bool>, n: nat)
    requires 2 * n <= |x|
    ensures Down(Down(x, n), n) == Down(x, 2 * n)
  {
  }

  lemma Shr1Bits(r: bv32)
    ensures BitsLE(r >> 1) == Down(BitsLE(r), 1)
  {
    RightShiftLE(r);
    assert [false] == Zeros(1);
  }

  lemma Shr2Bits(r: bv32)
    ensures BitsLE(Shr2(r)) == Down(BitsLE(r), 2)
  {
    Shr1Twice(r);
    Shr1Bits(r);
    Shr1Bits(r >> 1);
    DownTwice(BitsLE(r), 1);
  }

  lemma Shr4Bits(r: bv32)
    ensures BitsLE(Shr4(r)) == Down(BitsLE(r), 4)
  {
    Shr2Twice(r);
    Shr2Bits(r);
    Shr2Bits(Shr2(r));
    DownTwice(BitsLE(r), 2);
  }

  lemma Shr8Bits(r: bv32)
    ensures BitsLE(Shr8(r)) == Down(BitsLE(r), 8)
  {
    Shr4Twice(r);
    Shr4Bits(r);
    Shr4Bits(Shr4(r));
    DownTwice(BitsLE(r), 4);
  }

  lemma LowMasked(r: bv32, mask: bv32)
    requires mask & 0xff == mask
    ensures HasBit(Wide(LowByte(r)), mask) == HasBit(r, mask)
  {
  }

  lemma LowByteBits(r: bv32)
    ensures ByteLE(LowByte(r)) == BitsLE(r)[..8]
  {
    forall i | 0 <= i < 8
      ensures BitsLE(Wide(LowByte(r)))[i] == BitsLE(r)[i]
    {
      LowPower(i);
      LowMasked(r, Power(i));
    }
  }

  /** The k lowest bytes of a word, least significant first. */
  function WordBytes(r: bv32, k: nat): (m: seq<bv8>)
    ensures |m| == k
    decreases k
  {
    if k == 0 then [] else [LowByte(r)] + WordBytes(Shr8(r), k - 1)
  }

  lemma {:induction false} WordBytesBits(r: bv32, k: nat)
    requires k <= 4
    ensures MessageLE(WordBytes(r, k)) == BitsLE(r)[..8 * k]
    decreases k
  {
    if k > 0 {
      MessageSplit([LowByte(r)], WordBytes(Shr8(r), k - 1));
      assert MessageLE([LowByte(r)]) == MessageLE([]) + ByteLE(LowByte(r));
      WordBytesBits(Shr8(r), k - 1);
      LowByteBits(r);
      Shr8Bits(r);
    }
  }

  lemma AppendedWord(m: seq<bv8>, c: bv32)
    ensures MessageLE(m + WordBytes(c, 4)) == MessageLE(m) + BitsLE(c)
  {
    MessageSplit(m, WordBytes(c, 4));
    WordBytesBits(c, 4);
  }

  /** Main result: for any start value, message plus little-endian CRC leaves 0 exactly when the
      CRC is the right one. */
  lemma {:induction false} CrcCheck(start: bv32, m: seq<bv8>, c: bv32)
    ensures CrcFrom(POLY, start, m + WordBytes(c, 4)) == 0 <==> c == CrcFrom(POLY, start, m)
  {
    var crc, all := CrcFrom(POLY, start, m), CrcFrom(POLY, start, m + WordBytes(c, 4));
    CrcFromBits(POLY, start, m);
    CrcFromBits(POLY, start, m + WordBytes(c, 4));
    AppendedWord(m, c);
    ConstantTerm();
    CheckByRemainder(BitsLE(POLY), BitsLE(start), MessageLE(m), BitsLE(c));
    ZeroWord();
    if BitsLE(all) == BitsLE(0) {
      WordExtensional(all, 0);
    }
    if BitsLE(c) == BitsLE(crc) {
      WordExtensional(c, crc);
    }
  }

  function Inverse(r: bv32): bv32 {
    r ^ 0xffffffff
  }

  lemma InverseBits(r: bv32)
    ensures BitsLE(Inverse(r)) == Inverted(BitsLE(r))
  {
    XorLE(r, 0xffffffff);
    forall i | 0 <= i < 32
      ensures BitsLE(0xffffffff)[i]
    {
      PowerAt(i);
    }
  }

  lemma InvertedAppended(start: bv32, m: seq<bv8>)
    ensures BitsLE(CrcFrom(POLY, start, m + WordBytes(Inverse(CrcFrom(POLY, start, m)), 4)))
         == Run(BitsLE(POLY), Zeros(32), Inverted(Zeros(32)))
  {
    var c := CrcFrom(POLY, start, m);
    CrcFromBits(POLY, start, m);
    CrcFromBits(POLY, start, m + WordBytes(Inverse(c), 4));
    AppendedWord(m, Inverse(c));
    InverseBits(c);
    InvertedResidue(BitsLE(POLY), BitsLE(start), MessageLE(m));
  }

  lemma OnesBits()
    ensures MessageLE(WordBytes(0xffffffff, 4)) == Inverted(Zeros(32))
  {
    WordBytesBits(0xffffffff, 4);
    OnesWord();
  }

  /** Main result: an inverted CRC leaves one fixed value other than 0, the CRC of the inversion
      pattern, whatever the message and the start value. */
  lemma {:induction false} CrcInvertedCheck(start: bv32, m: seq<bv8>)
    ensures CrcFrom(POLY, start, m + WordBytes(Inverse(CrcFrom(POLY, start, m)), 4))
         == Crc(WordBytes(0xffffffff, 4)) != 0
  {
    CrcCheck(0, [], 0xffffffff);
    assert [] + WordBytes(0xffffffff, 4) == WordBytes(0xffffffff, 4);
    InvertedAppended(start, m);
    OnesBits();
    CrcBits(WordBytes(0xffffffff, 4));
    WordExtensional(CrcFrom(POLY, start, m + WordBytes(Inverse(CrcFrom(POLY, start, m)), 4)),
                    Crc(WordBytes(0xffffffff, 4)));
  }

  /** Leading zero bytes go unnoticed from start value 0. */
  lemma {:induction false} CrcLeadingZeros(m: seq<bv8>, k: nat)
    ensures Crc(ZeroBytes(k) + m) == Crc(m)
  {
    var z := ZeroBytes(k);
    CrcBits(m);
    CrcBits(z + m);
    MessageSplit(z, m);
    ZeroMessage(z);
    ConstantTerm();
    LeadingZeros(BitsLE(POLY), Zeros(32), MessageLE(m), 8 * k);
    WordExtensional(Crc(z + m), Crc(m));
  }

  lemma {:induction false} ZeroMessage(z: seq<bv8>)
    requires forall i :: 0 <= i < |z| ==> z[i] == 0
    ensures MessageLE(z) == Zeros(8 * |z|)
  {
    if z != [] {
      ZeroMessage(z[..|z| - 1]);
      assert ByteLE(0) == Zeros(8);
    }
  }

  // ----- Zero bytes around an inverted CRC -----

  lemma {:induction false} ShiftsWordSplit(poly: bv32, r: bv32, m: nat, n: nat)
    ensures ShiftsWord(poly, r, m + n) == ShiftsWord(poly, ShiftsWord(poly, r, m), n)
  {
    if n > 0 {
      ShiftsWordSplit(poly, r, m, n - 1);
    }
  }

  lemma OnesWord()
    ensures BitsLE(0xffffffff) == Inverted(Zeros(32))
  {
    InverseBits(0);
    ZeroWord();
    assert Inverse(0) == 0xffffffff;
  }

  function ZeroBytes(k: nat): (z: seq<bv8>)
    ensures |z| == k
  {
    seq(k, _ => 0)
  }

  lemma InvertedThenZeros(start: bv32, m: seq<bv8>, k: nat)
    ensures BitsLE(CrcFrom(POLY, start, m + WordBytes(Inverse(CrcFrom(POLY, start, m)), 4) + ZeroBytes(k)))
         == Run(BitsLE(POLY), BitsLE(start),
                MessageLE(m) + Inverted(Run(BitsLE(POLY), BitsLE(start), MessageLE(m))) + Zeros(8 * k))
  {
    var c := CrcFrom(POLY, start, m);
    var sent := m + WordBytes(Inverse(c), 4);
    CrcFromBits(POLY, start, m);
    CrcFromBits(POLY, start, sent + ZeroBytes(k));
    MessageSplit(sent, ZeroBytes(k));
    ZeroMessage(ZeroBytes(k));
    AppendedWord(m, Inverse(c));
    InverseBits(c);
  }

  lemma ResidueBits()
    ensures BitsLE(Crc(WordBytes(0xffffffff, 4))) == Run(BitsLE(POLY), Zeros(32), Inverted(Zeros(32)))
  {
    CrcBits(WordBytes(0xffffffff, 4));
    OnesBits();
  }

  lemma ZerosThenMessage(m: seq<bv8>, k: nat)
    ensures BitsLE(CrcFrom(POLY, 0xffffffff, ZeroBytes(k) + m))
         == Run(BitsLE(POLY), Inverted(Zeros(32)), Zeros(8 * k) + MessageLE(m))
  {
    CrcFromBits(POLY, 0xffffffff, ZeroBytes(k) + m);
    MessageSplit(ZeroBytes(k), m);
    ZeroMessage(ZeroBytes(k));
    OnesWord();
  }
}
