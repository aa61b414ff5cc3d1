/** The CRC loops on registers of any width, and their meaning as polynomial division.

A register is a sequence of bits listing the coefficients of the remainder from the highest
power down: register[0] is the bit that decides whether the divisor is subtracted. A
big-endian word holds that bit on top and a little-endian word holds it at the bottom; this
module is about both. The divisor p has one more coefficient than the register: its leading 1
is left out. */
module CrcMachine {
  import opened Gf2

  function Zeros(n: nat): (z: seq<bool>)
    ensures |z| == n && forall i :: 0 <= i < n ==> !z[i]
  {
    seq(n, _ => false)
  }

  /** r minus the multiple of p that the given quotient digit selects. */
  function Subtract(r: seq<bool>, p: seq<bool>, digit: bool): (s: seq<bool>)
    requires |r| == |p|
    ensures |s| == |r|
  {
    if digit then XorBits(r, p) else r
  }

  /** Long division: append the next bit of the dividend, then bring the remainder back into range. */
  function DivideStep(p: seq<bool>, r: seq<bool>, b: bool): (s: seq<bool>)
    requires |r| == |p| > 0
    ensures |s| == |p|
  {
    Subtract(r[1..] + [b], p, r[0])
  }

  function Divide(p: seq<bool>, r: seq<bool>, bits: seq<bool>): (s: seq<bool>)
    requires |r| == |p| > 0
    ensures |s| == |p|
  {
    if bits == [] then r
    else DivideStep(p, Divide(p, r, bits[..|bits| - 1]), bits[|bits| - 1])
  }

  /** One shift with no input. */
  function Shift(p: seq<bool>, r: seq<bool>): (s: seq<bool>)
    requires |r| == |p| > 0
    ensures |s| == |p|
  {
    DivideStep(p, r, false)
  }

  function Shifts(p: seq<bool>, r: seq<bool>, n: nat): (s: seq<bool>)
    requires |r| == |p| > 0
    ensures |s| == |p|
  {
    if n == 0 then r else Shift(p, Shifts(p, r, n - 1))
  }

  /** Merging the input where it decides, then shifting. */
  function Step(p: seq<bool>, r: seq<bool>, b: bool): (s: seq<bool>)
    requires |r| == |p| > 0
    ensures |s| == |p|
  {
    Shift(p, r[0 := r[0] != b])
  }

  function Run(p: seq<bool>, r: seq<bool>, bits: seq<bool>): (s: seq<bool>)
    requires |r| == |p| > 0
    ensures |s| == |p|
  {
    if bits == [] then r
    else Step(p, Run(p, r, bits[..|bits| - 1]), bits[|bits| - 1])
  }

  // ----- Long division divides -----

  lemma FromBitsSnoc(bits: seq<bool>, b: bool)
    ensures FromBits(bits + [b]) == Add(TimesX(FromBits(bits)), if b then {0} else {})
  {
    assert (bits + [b])[..|bits|] == bits;
  }

  lemma {:induction false} FromBitsBelow(bits: seq<bool>)
    ensures Below(FromBits(bits), |bits|)
  {
    if bits != [] {
      FromBitsBelow(bits[..|bits| - 1]);
    }
  }

  lemma LeadRises(lead: Poly, x: Poly, c: Poly)
    ensures Add(TimesX(Add(lead, x)), c) == Add(TimesX(lead), Add(TimesX(x), c))
  {
  }

  lemma {:induction false} FromBitsCons(b: bool, bits: seq<bool>)
    ensures FromBits([b] + bits) == Add(if b then {|bits|} else {}, FromBits(bits))
  {
    if bits == [] {
      FromBitsSnoc([], b);
      assert [b] + bits == [] + [b];
    } else {
      var init, c := bits[..|bits| - 1], bits[|bits| - 1];
      FromBitsCons(b, init);
      FromBitsSnoc([b] + init, c);
      assert [b] + bits == [b] + init + [c];
      var lead: Poly := if b then {|init|} else {};
      LeadRises(lead, FromBits(init), if c then {0} else {});
      assert TimesX(lead) == if b then {|bits|} else {};
    }
  }

  /** The bits are the coefficients, the last one that of x^0. */
  lemma {:induction false} Coefficients(bits: seq<bool>, e: nat)
    ensures e in FromBits(bits) <==> e < |bits| && bits[|bits| - 1 - e]
  {
    if bits != [] {
      var init, b := bits[..|bits| - 1], bits[|bits| - 1];
      FromBitsSnoc(init, b);
      assert bits == init + [b];
      if e > 0 {
        Coefficients(init, e - 1);
      }
    }
  }

  lemma CancelLead(x: Poly, s: Poly, p: Poly, lead: Poly)
    requires x == Add(lead, s)
    ensures x == Add(Add(lead, p), Add(s, p))
  {
  }

  /** (remainder) * x + bit = (digit) * divisor + (new remainder) */
  lemma DivideStepPoly(p: seq<bool>, r: seq<bool>, b: bool)
    requires |r| == |p| > 0
    ensures Add(TimesX(FromBits(r)), if b then {0} else {})
         == Add(if r[0] then FromBits([true] + p) else {}, FromBits(DivideStep(p, r, b)))
  {
    FromBitsSnoc(r, b);
    var s := r[1..] + [b];
    assert r + [b] == [r[0]] + s;
    FromBitsCons(r[0], s);
    if r[0] {
      FromBitsCons(true, p);
      ProductAdditive(s, p, {0});
      CancelLead(FromBits(r + [b]), FromBits(s), FromBits(p), {|p|});
    }
  }

  /** The digits the division throws away. */
  function Quotient(p: seq<bool>, bits: seq<bool>): seq<bool>
    requires |p| > 0
  {
    if bits == [] then []
    else
      var init := bits[..|bits| - 1];
      Quotient(p, init) + [Divide(p, Zeros(|p|), init)[0]]
  }

  lemma CarryOver(h: Poly, r: Poly, c: Poly, m: Poly, r': Poly)
    requires Add(TimesX(r), c) == Add(m, r')
    ensures Add(TimesX(Add(h, r)), c) == Add(Add(TimesX(h), m), r')
  {
    forall e: nat
      ensures e in Add(TimesX(Add(h, r)), c) <==> e in Add(Add(TimesX(h), m), r')
    {
      assert e in Add(TimesX(r), c) <==> e in Add(m, r');
    }
  }

  lemma ProductSnoc(q: seq<bool>, c: bool, p: Poly)
    ensures Product(q + [c], p) == Add(TimesX(Product(q, p)), if c then p else {})
  {
    assert (q + [c])[..|q|] == q;
  }

  /** bits = quotient * divisor + remainder */
  lemma {:induction false} DivideDivides(p: seq<bool>, bits: seq<bool>)
    requires |p| > 0
    ensures FromBits(bits)
         == Add(Product(Quotient(p, bits), FromBits([true] + p)), FromBits(Divide(p, Zeros(|p|), bits)))
  {
    if bits == [] {
      NoMultiple(Zeros(|p|), {0});
    } else {
      var init, b := bits[..|bits| - 1], bits[|bits| - 1];
      DivideDivides(p, init);
      var r, d := Divide(p, Zeros(|p|), init), FromBits([true] + p);
      DivideStepPoly(p, r, b);
      ProductSnoc(Quotient(p, init), r[0], d);
      CarryOver(Product(Quotient(p, init), d), FromBits(r), if b then {0} else {},
                if r[0] then d else {}, FromBits(DivideStep(p, r, b)));
    }
  }

  /** Main result: long division computes the remainder, and there is no other remainder. */
  lemma {:induction false} DivideIsRemainder(p: seq<bool>, bits: seq<bool>, r: Poly)
    requires |p| > 0
    ensures IsRemainder(FromBits(bits), FromBits([true] + p), |p|, r)
       <==> r == FromBits(Divide(p, Zeros(|p|), bits))
  {
    DivideDivides(p, bits);
    var d := FromBits([true] + p);
    var s := Divide(p, Zeros(|p|), bits);
    FromBitsCons(true, p);
    FromBitsBelow(p);
    FromBitsBelow(s);
    if IsRemainder(FromBits(bits), d, |p|, r) {
      RemainderUnique(FromBits(bits), d, |p|, r, FromBits(s));
    }
  }

  // ----- Linearity -----

  lemma DivideStepLinear(p: seq<bool>, a: seq<bool>, b: seq<bool>, c: bool, d: bool)
    requires |a| == |b| == |p| > 0
    ensures DivideStep(p, XorBits(a, b), c != d) == XorBits(DivideStep(p, a, c), DivideStep(p, b, d))
  {
  }

  lemma {:induction false} ShiftsLinear(p: seq<bool>, a: seq<bool>, b: seq<bool>, n: nat)
    requires |a| == |b| == |p| > 0
    ensures Shifts(p, XorBits(a, b), n) == XorBits(Shifts(p, a, n), Shifts(p, b, n))
  {
    if n > 0 {
      ShiftsLinear(p, a, b, n - 1);
      DivideStepLinear(p, Shifts(p, a, n - 1), Shifts(p, b, n - 1), false, false);
    }
  }

  lemma {:induction false} RunLinear(p: seq<bool>, a: seq<bool>, b: seq<bool>, x: seq<bool>, y: seq<bool>)
    requires |a| == |b| == |p| > 0 && |x| == |y|
    ensures Run(p, XorBits(a, b), XorBits(x, y)) == XorBits(Run(p, a, x), Run(p, b, y))
  {
    if x != [] {
      var x', y' := x[..|x| - 1], y[..|y| - 1];
      RunLinear(p, a, b, x', y');
      var a', b' := Run(p, a, x'), Run(p, b, y');
      assert XorBits(x, y)[..|x| - 1] == XorBits(x', y');
      var c, d := x[|x| - 1], y[|y| - 1];
      var ac, bd := a'[0 := a'[0] != c], b'[0 := b'[0] != d];
      assert XorBits(ac, bd) == XorBits(a', b')[0 := XorBits(a', b')[0] != (c != d)];
      DivideStepLinear(p, ac, bd, false, false);
    }
  }

  lemma {:induction false} ShiftsSplit(p: seq<bool>, r: seq<bool>, m: nat, n: nat)
    requires |r| == |p| > 0
    ensures Shifts(p, r, m + n) == Shifts(p, Shifts(p, r, m), n)
  {
    if n > 0 {
      ShiftsSplit(p, r, m, n - 1);
    }
  }

  lemma {:induction false} RunSplit(p: seq<bool>, r: seq<bool>, a: seq<bool>, b: seq<bool>)
    requires |r| == |p| > 0
    ensures Run(p, r, a + b) == Run(p, Run(p, r, a), b)
  {
    if b == [] {
      assert a + b == a;
    } else {
      RunSplit(p, r, a, b[..|b| - 1]);
      assert (a + b)[..|a + b| - 1] == a + b[..|b| - 1];
    }
  }

  lemma {:induction false} RunZeros(p: seq<bool>, r: seq<bool>, n: nat)
    requires |r| == |p| > 0
    ensures Run(p, r, Zeros(n)) == Shifts(p, r, n)
  {
    if n > 0 {
      RunZeros(p, r, n - 1);
      assert Zeros(n)[..n - 1] == Zeros(n - 1);
      var s := Shifts(p, r, n - 1);
      assert s[0 := s[0] != false] == s;
    }
  }

  lemma {:induction false} ZeroStays(p: seq<bool>, n: nat)
    requires |p| > 0
    ensures Shifts(p, Zeros(|p|), n) == Zeros(|p|)
  {
    if n > 0 {
      ZeroStays(p, n - 1);
      assert Zeros(|p|)[1..] + [false] == Zeros(|p|);
    }
  }

  // ----- Merging k bits at once -----

  /** The bits w, first bit where the decision is made, followed by zeros. */
  function Merge(r: seq<bool>, w: seq<bool>): (s: seq<bool>)
    requires |w| <= |r|
    ensures |s| == |r|
  {
    XorBits(r, w + Zeros(|r| - |w|))
  }

  lemma MergeStep(p: seq<bool>, r: seq<bool>, w: seq<bool>)
    requires |r| == |p| >= |w| > 0
    ensures Shift(p, Merge(r, w)) == Merge(Step(p, r, w[0]), w[1..])
  {
    var m := r[0 := r[0] != w[0]];
    var a, b := Merge(r, w)[1..] + [false], m[1..] + [false];
    assert b == r[1..] + [false];
    assert a == Merge(b, w[1..]);
  }

  /** Main result: merging k bits at once and shifting k times is k steps of the bit loop, for
      every k up to the register's width (8 for the byte loops, 32 for the word loop). */
  lemma {:induction false} MergeIsRun(p: seq<bool>, r: seq<bool>, w: seq<bool>)
    requires |r| == |p| > 0 && |w| <= |p|
    ensures Run(p, r, w) == Shifts(p, Merge(r, w), |w|)
    decreases |w|
  {
    if w == [] {
      assert Merge(r, w) == r;
    } else {
      var s := Step(p, r, w[0]);
      MergeIsRun(p, s, w[1..]);
      MergeStep(p, r, w);
      ShiftsSplit(p, Merge(r, w), 1, |w| - 1);
      assert Shifts(p, Merge(r, w), 1) == Shift(p, Shifts(p, Merge(r, w), 0));
      assert [w[0]] + w[1..] == w;
      RunSplit(p, r, [w[0]], w[1..]);
      assert Run(p, r, [w[0]]) == Step(p, Run(p, r, []), w[0]);
    }
  }

  // ----- Delaying the merge -----

  lemma {:induction false} DivideSplit(p: seq<bool>, r: seq<bool>, a: seq<bool>, b: seq<bool>)
    requires |r| == |p| > 0
    ensures Divide(p, r, a + b) == Divide(p, Divide(p, r, a), b)
  {
    if b == [] {
      assert a + b == a;
    } else {
      DivideSplit(p, r, a, b[..|b| - 1]);
      assert (a + b)[..|a + b| - 1] == a + b[..|b| - 1];
    }
  }

  lemma {:induction false} DivideZeros(p: seq<bool>, r: seq<bool>, n: nat)
    requires |r| == |p| > 0
    ensures Divide(p, r, Zeros(n)) == Shifts(p, r, n)
  {
    if n > 0 {
      DivideZeros(p, r, n - 1);
      assert Zeros(n)[..n - 1] == Zeros(n - 1);
    }
  }

  /** The bit b in the lowest position moves up without causing any subtraction. */
  lemma {:induction false} BitRises(p: seq<bool>, b: bool, n: nat)
    requires n < |p|
    ensures Shifts(p, Zeros(|p| - 1) + [b], n) == Zeros(|p| - 1 - n) + [b] + Zeros(n)
  {
    if n == 0 {
      assert Zeros(|p| - 1) + [b] == Zeros(|p| - 1) + [b] + Zeros(0);
    } else {
      BitRises(p, b, n - 1);
      var s := Zeros(|p| - n) + [b] + Zeros(n - 1);
      assert s[1..] + [false] == Zeros(|p| - 1 - n) + [b] + Zeros(n);
    }
  }

  /** After as many cycles as the register is wide, the bit takes part in the decision. */
  lemma BitArrives(p: seq<bool>, b: bool)
    requires |p| > 0
    ensures Shifts(p, Zeros(|p| - 1) + [b], |p|) == Shift(p, [b] + Zeros(|p| - 1))
  {
    BitRises(p, b, |p| - 1);
    assert Zeros(0) + [b] + Zeros(|p| - 1) == [b] + Zeros(|p| - 1);
  }

  lemma DelayOneBit(p: seq<bool>, r: seq<bool>, b: bool)
    requires |r| == |p| > 0
    ensures Step(p, Shifts(p, r, |p|), b) == Shifts(p, DivideStep(p, r, b), |p|)
  {
    var n := |p|;
    var low, high := Zeros(n - 1) + [b], [b] + Zeros(n - 1);
    var z := Shifts(p, r, n);
    assert DivideStep(p, r, b) == XorBits(Shift(p, r), low);
    ShiftsLinear(p, Shift(p, r), low, n);
    ShiftsSplit(p, r, 1, n);
    assert Shifts(p, r, 1) == Shift(p, Shifts(p, r, 0));
    BitArrives(p, b);
    DivideStepLinear(p, z, high, false, false);
    assert XorBits(z, high) == z[0 := z[0] != b];
  }

  lemma {:induction false} DelayBits(p: seq<bool>, r: seq<bool>, bits: seq<bool>)
    requires |r| == |p| > 0
    ensures Run(p, Shifts(p, r, |p|), bits) == Shifts(p, Divide(p, r, bits), |p|)
  {
    if bits != [] {
      var init := bits[..|bits| - 1];
      DelayBits(p, r, init);
      DelayOneBit(p, Divide(p, r, init), bits[|bits| - 1]);
    }
  }

  /** Main result: merging late skips the first |p| cycles (they only precompute the start
      value) and the |p| zero bits that make room for the CRC. */
  lemma {:induction false} DelayedIsDivide(p: seq<bool>, r: seq<bool>, bits: seq<bool>)
    requires |r| == |p| > 0
    ensures Run(p, Shifts(p, r, |p|), bits) == Divide(p, r, bits + Zeros(|p|))
  {
    DelayBits(p, r, bits);
    DivideSplit(p, r, bits, Zeros(|p|));
    DivideZeros(p, Divide(p, r, bits), |p|);
  }

  /** Main result: the CRC of a message is the remainder of message * x^|p|, and nothing else is. */
  lemma {:induction false} RunIsRemainder(p: seq<bool>, bits: seq<bool>, r: Poly)
    requires |p| > 0
    ensures IsRemainder(FromBits(bits + Zeros(|p|)), FromBits([true] + p), |p|, r)
       <==> r == FromBits(Run(p, Zeros(|p|), bits))
  {
    ZeroStays(p, |p|);
    DelayedIsDivide(p, Zeros(|p|), bits);
    DivideIsRemainder(p, bits + Zeros(|p|), r);
  }
}
