/** The tutorial's bit loops on 32-bit words, big-endian and little-endian. */
module CrcWords {
  import opened Gf2
  import opened CrcMachine

  // ----- Words as registers -----

  /** Bit e alone, for e < 32. */
  function Power(e: nat): bv32 {
    if e == 0 then 1 else Power(e - 1) << 1
  }

  predicate HasBit(r: bv32, mask: bv32) {
    r & mask != 0
  }

  /** The word read from its most significant bit down. */
  function BitsBE(r: bv32): (s: seq<bool>)
    ensures |s| == 32
  {
    seq(32, i requires 0 <= i < 32 => HasBit(r, Power(31 - i)))
  }

  /** The word read from its least significant bit up. */
  function BitsLE(r: bv32): (s: seq<bool>)
    ensures |s| == 32
  {
    seq(32, i requires 0 <= i < 32 => HasBit(r, Power(i)))
  }

  function BitWord(b: bool): bv32 {
    if b then 1 else 0
  }

  function Append(remainder: bv32, b: bool): bv32 {
    (remainder << 1) | BitWord(b)
  }

  function TopWord(b: bool): bv32 {
    BitWord(b) << 31
  }

  predicate TopSet(r: bv32) {
    HasBit(r, 0x80000000)
  }

  predicate OneHot(mask: bv32) {
    mask != 0 && mask & (mask - 1) == 0
  }

  lemma PowerAt(e: nat)
    requires e < 32
    ensures OneHot(Power(e))
    ensures TopSet(Power(e)) <==> e == 31
    ensures Power(31) == 0x80000000
  {
    assert Power(4) == 0x10;
    assert Power(8) == 0x100;
    assert Power(12) == 0x1000;
    assert Power(16) == 0x10000;
    assert Power(20) == 0x100000;
    assert Power(24) == 0x1000000;
    assert Power(28) == 0x10000000;
    assert Power(31) == 0x80000000;
  }

  lemma XorMasked(a: bv32, b: bv32, mask: bv32)
    requires OneHot(mask)
    ensures HasBit(a ^ b, mask) == (HasBit(a, mask) != HasBit(b, mask))
  {
  }

  lemma LeftMasked(r: bv32, b: bool, mask: bv32)
    requires OneHot(mask) && !TopSet(mask)
    ensures HasBit(Append(r, b), mask << 1) == HasBit(r, mask)
  {
  }

  lemma RightMasked(r: bv32, mask: bv32)
    requires OneHot(mask) && !TopSet(mask)
    ensures HasBit(r >> 1, mask) == HasBit(r, mask << 1)
  {
  }

  lemma LowBit(r: bv32, b: bool)
    ensures HasBit(Append(r, b), 1) == b
    ensures !TopSet(r >> 1)
  {
  }

  lemma XorLE(a: bv32, b: bv32)
    ensures BitsLE(a ^ b) == XorBits(BitsLE(a), BitsLE(b))
  {
    forall i | 0 <= i < 32
      ensures BitsLE(a ^ b)[i] == (BitsLE(a)[i] != BitsLE(b)[i])
    {
      PowerAt(i);
      XorMasked(a, b, Power(i));
    }
  }

  lemma XorBE(a: bv32, b: bv32)
    ensures BitsBE(a ^ b) == XorBits(BitsBE(a), BitsBE(b))
  {
    forall i | 0 <= i < 32
      ensures BitsBE(a ^ b)[i] == (BitsBE(a)[i] != BitsBE(b)[i])
    {
      PowerAt(31 - i);
      XorMasked(a, b, Power(31 - i));
    }
  }

  lemma RightShiftBit(r: bv32, i: nat)
    requires i < 32
    ensures BitsLE(r >> 1)[i] == (i < 31 && BitsLE(r)[i + 1])
  {
    PowerAt(i);
    if i < 31 {
      RightMasked(r, Power(i));
    } else {
      LowBit(r, false);
    }
  }

  lemma RightShiftLE(r: bv32)
    ensures BitsLE(r >> 1) == BitsLE(r)[1..] + [false]
  {
    forall i {:trigger BitsLE(r >> 1)[i]} | 0 <= i < 32
      ensures BitsLE(r >> 1)[i] == (i < 31 && BitsLE(r)[i + 1])
    {
      RightShiftBit(r, i);
    }
  }

  lemma LeftShiftBit(r: bv32, b: bool, i: nat)
    requires i < 32
    ensures BitsBE(Append(r, b))[i] == if i < 31 then BitsBE(r)[i + 1] else b
  {
    if i < 31 {
      PowerAt(30 - i);
      LeftMasked(r, b, Power(30 - i));
    } else {
      LowBit(r, b);
    }
  }

  lemma LeftShiftBE(r: bv32, b: bool)
    ensures BitsBE(Append(r, b)) == BitsBE(r)[1..] + [b]
  {
    var s := Append(r, b);
    forall i {:trigger BitsBE(s)[i]} | 0 <= i < 32
      ensures BitsBE(s)[i] == if i < 31 then BitsBE(r)[i + 1] else b
    {
      LeftShiftBit(r, b, i);
    }
  }

  lemma ZeroWord()
    ensures BitsLE(0) == Zeros(32) && BitsBE(0) == Zeros(32)
  {
  }

  /** A word is determined by its bits. */
  lemma {:induction false} WordExtensional(a: bv32, b: bv32)
    requires BitsLE(a) == BitsLE(b)
    ensures a == b
  {
    XorLE(a, b);
    forall i | 0 <= i < 32
      ensures !HasBit(a ^ b, Power(i))
    {
      assert BitsLE(a ^ b)[i] == (BitsLE(a)[i] != BitsLE(b)[i]);
    }
    NoBits(a ^ b);
  }

  lemma LowerBits(r: bv32, mask: bv32)
    requires OneHot(mask) && !HasBit(r, mask) && r & (mask - 1) == 0
    ensures !TopSet(mask) ==> r & ((mask << 1) - 1) == 0
    ensures TopSet(mask) ==> r == 0
  {
  }

  lemma {:induction false} NoBitsBelow(r: bv32, n: nat)
    requires n < 32
    requires forall i :: 0 <= i < 32 ==> !HasBit(r, Power(i))
    ensures r & (Power(n) - 1) == 0
  {
    if n > 0 {
      NoBitsBelow(r, n - 1);
      PowerAt(n - 1);
      LowerBits(r, Power(n - 1));
    }
  }

  lemma NoBits(r: bv32)
    requires forall i :: 0 <= i < 32 ==> !HasBit(r, Power(i))
    ensures r == 0
  {
    NoBitsBelow(r, 31);
    PowerAt(31);
    LowerBits(r, Power(31));
  }

  /** What the two readings of a word are: bit 0 is the lowest, the bits above it are those of the
      word shifted down, and the big-endian reading is the little-endian one backwards. */
  lemma WordReading(r: bv32, i: nat)
    requires i < 32
    ensures BitsLE(r)[0] <==> r & 1 != 0
    ensures i > 0 ==> BitsLE(r)[i] == BitsLE(r >> 1)[i - 1]
    ensures BitsBE(r)[31 - i] == BitsLE(r)[i]
  {
    FirstBit(r);
    RightShiftLE(r);
  }

  // ----- One iteration of each loop body -----

  /** Subtract the multiple of the divisor that the quotient digit selects. */
  function Cancel(x: bv32, poly: bv32, digit: bool): bv32 {
    var multiple := if digit then poly else 0;
    x ^ multiple
  }

  /** Long division: shift the next bit in and cancel bit 32. */
  function DivideWord(poly: bv32, remainder: bv32, b: bool): bv32 {
    Cancel(Append(remainder, b), poly, TopSet(remainder))
  }

  function ShiftBE(poly: bv32, remainder: bv32): bv32 {
    Cancel(remainder << 1, poly, TopSet(remainder))
  }

  function ShiftLE(poly: bv32, remainder: bv32): bv32 {
    Cancel(remainder >> 1, poly, HasBit(remainder, 1))
  }

  /** Merge the next bit where it decides, then shift. */
  function DelayedWord(poly: bv32, remainder: bv32, b: bool): bv32 {
    ShiftBE(poly, remainder ^ TopWord(b))
  }

  function LittleWord(poly: bv32, remainder: bv32, b: bool): bv32 {
    ShiftLE(poly, remainder ^ BitWord(b))
  }

  lemma CancelBits(x: bv32, poly: bv32, digit: bool)
    ensures BitsBE(Cancel(x, poly, digit)) == Subtract(BitsBE(x), BitsBE(poly), digit)
    ensures BitsLE(Cancel(x, poly, digit)) == Subtract(BitsLE(x), BitsLE(poly), digit)
  {
    if digit {
      XorBE(x, poly);
      XorLE(x, poly);
    } else {
      assert Cancel(x, poly, digit) == x;
    }
  }

  lemma FirstBit(r: bv32)
    ensures BitsBE(r)[0] == TopSet(r)
    ensures BitsLE(r)[0] == HasBit(r, 1)
  {
    PowerAt(31);
  }

  lemma DivideWordBits(poly: bv32, r: bv32, b: bool)
    ensures BitsBE(DivideWord(poly, r, b)) == DivideStep(BitsBE(poly), BitsBE(r), b)
  {
    CancelBits(Append(r, b), poly, TopSet(r));
    LeftShiftBE(r, b);
    FirstBit(r);
  }

  lemma ShiftLEBits(poly: bv32, r: bv32)
    ensures BitsLE(ShiftLE(poly, r)) == Shift(BitsLE(poly), BitsLE(r))
  {
    CancelBits(r >> 1, poly, HasBit(r, 1));
    RightShiftLE(r);
    FirstBit(r);
  }

  lemma FlipFirst(r: seq<bool>, b: bool)
    requires |r| == 32
    ensures XorBits(r, [b] + Zeros(31)) == r[0 := r[0] != b]
  {
  }

  lemma MergeBitLE(r: bv32, b: bool)
    ensures BitsLE(r ^ BitWord(b)) == BitsLE(r)[0 := BitsLE(r)[0] != b]
  {
    XorLE(r, BitWord(b));
    BottomBit(b);
    FlipFirst(BitsLE(r), b);
  }

  lemma MergeBitBE(r: bv32, b: bool)
    ensures BitsBE(r ^ (TopWord(b))) == BitsBE(r)[0 := BitsBE(r)[0] != b]
  {
    XorBE(r, TopWord(b));
    BottomBit(b);
    FlipFirst(BitsBE(r), b);
  }

  lemma BottomBit(b: bool)
    ensures BitsLE(BitWord(b)) == [b] + Zeros(31)
    ensures BitsBE(TopWord(b)) == [b] + Zeros(31)
  {
    forall i | 0 <= i < 32
      ensures HasBit(BitWord(b), Power(i)) <==> b && i == 0
      ensures HasBit(TopWord(b), Power(i)) <==> b && i == 31
    {
      PowerAt(i);
      if i > 0 {
        PowerAt(i - 1);
        Doubled(Power(i - 1), b);
      }
      TopOnly(Power(i), b);
    }
  }

  lemma Doubled(mask: bv32, b: bool)
    ensures !HasBit(BitWord(b), mask << 1)
  {
  }

  lemma TopOnly(mask: bv32, b: bool)
    ensures HasBit(TopWord(b), mask) <==> b && TopSet(mask)
  {
  }

  lemma ShiftBEBits(poly: bv32, r: bv32)
    ensures BitsBE(ShiftBE(poly, r)) == Shift(BitsBE(poly), BitsBE(r))
  {
    CancelBits(r << 1, poly, TopSet(r));
    LeftShiftZero(r);
    FirstBit(r);
  }

  lemma LeftShiftZero(r: bv32)
    ensures BitsBE(r << 1) == BitsBE(r)[1..] + [false]
  {
    LeftShiftBE(r, false);
    assert Append(r, false) == r << 1;
  }

  lemma DelayedWordBits(poly: bv32, r: bv32, b: bool)
    ensures BitsBE(DelayedWord(poly, r, b)) == Step(BitsBE(poly), BitsBE(r), b)
  {
    MergeBitBE(r, b);
    ShiftBEBits(poly, r ^ TopWord(b));
  }

  lemma LittleWordBits(poly: bv32, r: bv32, b: bool)
    ensures BitsLE(LittleWord(poly, r, b)) == Step(BitsLE(poly), BitsLE(r), b)
  {
    MergeBitLE(r, b);
    ShiftLEBits(poly, r ^ BitWord(b));
  }

  /** The little-endian step is the mirror image of the big-endian one. */
  lemma {:induction false} LittleMirrorsBig(poly: bv32, poly': bv32, r: bv32, r': bv32, b: bool)
    requires BitsLE(poly') == BitsBE(poly) && BitsLE(r') == BitsBE(r)
    ensures BitsLE(LittleWord(poly', r', b)) == BitsBE(DelayedWord(poly, r, b))
  {
    LittleWordBits(poly', r', b);
    DelayedWordBits(poly, r, b);
  }

  // ----- The bit loops -----

  method DivideLoop(poly: bv32, start: bv32, bits: seq<bool>) returns (remainder: bv32)
    ensures BitsBE(remainder) == Divide(BitsBE(poly), BitsBE(start), bits)
  {
    remainder := start;
    for i := 0 to |bits|
      invariant BitsBE(remainder) == Divide(BitsBE(poly), BitsBE(start), bits[..i])
    {
      DivideWordBits(poly, remainder, bits[i]);
      remainder := DivideWord(poly, remainder, bits[i]);
      assert bits[..i + 1][..i] == bits[..i];
    }
    assert bits[..|bits|] == bits;
  }

  method DelayedLoop(poly: bv32, start: bv32, bits: seq<bool>) returns (remainder: bv32)
    ensures BitsBE(remainder) == Run(BitsBE(poly), BitsBE(start), bits)
  {
    remainder := start;
    for i := 0 to |bits|
      invariant BitsBE(remainder) == Run(BitsBE(poly), BitsBE(start), bits[..i])
    {
      DelayedWordBits(poly, remainder, bits[i]);
      remainder := DelayedWord(poly, remainder, bits[i]);
      assert bits[..i + 1][..i] == bits[..i];
    }
    assert bits[..|bits|] == bits;
  }

  method LittleLoop(poly: bv32, start: bv32, bits: seq<bool>) returns (remainder: bv32)
    ensures BitsLE(remainder) == Run(BitsLE(poly), BitsLE(start), bits)
  {
    remainder := start;
    for i := 0 to |bits|
      invariant BitsLE(remainder) == Run(BitsLE(poly), BitsLE(start), bits[..i])
    {
      LittleWordBits(poly, remainder, bits[i]);
      remainder := LittleWord(poly, remainder, bits[i]);
      assert bits[..i + 1][..i] == bits[..i];
    }
    assert bits[..|bits|] == bits;
  }
}
