/** The order of x modulo the CRC-32 polynomial is 2^32 - 1, and with it the exact number of zero bytes
that an inverted CRC, or a start value of ones, fails to notice.

Products of remainders are computed on words. The powers of x climb a tower: 65537, 257, 17, 5 and 3
are the prime factors of 2^32 - 1, and each floor multiplies the exponent by one of them. */
module CrcOrder {
  import opened Gf2
  import opened Bits
  import opened CrcMachine
  import opened CrcDetect
  import opened CrcWords
  import opened CrcBytes

  // ----- Products modulo the polynomial -----

  /** The polynomials 1 and x, and the register of ones. */
  const UNIT: bv32 := 0x80000000
  const X: bv32 := 0x40000000
  const ONES: bv32 := 0xffffffff

  function Pick(b: bool, a: bv32): bv32 {
    if b then a else 0
  }

  /** A product under way: the sum so far and the coefficients still to come, highest first. */
  datatype Partial = Partial(sum: bv32, rest: bv32)

  function Plus(a: bv32, b: bv32): bv32 {
    a ^ b
  }

  function Half(r: bv32): bv32 {
    r >> 1
  }

  function Step1(s: Partial, a: bv32): Partial {
    Partial(Plus(ShiftLE(POLY, s.sum), Pick(HasBit(s.rest, 1), a)), Half(s.rest))
  }

  function Step2(s: Partial, a: bv32): Partial { Step1(Step1(s, a), a) }
  function Step4(s: Partial, a: bv32): Partial { Step2(Step2(s, a), a) }
  function Step8(s: Partial, a: bv32): Partial { Step4(Step4(s, a), a) }
  function Step16(s: Partial, a: bv32): Partial { Step8(Step8(s, a), a) }

  function Mul(r: bv32, a: bv32): bv32 {
    Step16(Step16(Partial(0, r), a), a).sum
  }

  // ----- Multiplying by 1 -----

  // Moved n: n coefficients of r moved in at the top of s; Clear n: the low n bits of s are 0.

  function Moved1(s: bv32, r: bv32): bv32 { Plus(Half(s), Top(r)) }
  function Rest1(r: bv32): bv32 { Half(r) }
  predicate Clear1(s: bv32) { s & 0x1 == 0 }

  function Moved2(s: bv32, r: bv32): bv32 { (s >> 2) ^ (r << 30) }
  function Rest2(r: bv32): bv32 { r >> 2 }
  predicate Clear2(s: bv32) { s & 0x3 == 0 }

  function Moved4(s: bv32, r: bv32): bv32 { (s >> 4) ^ (r << 28) }
  function Rest4(r: bv32): bv32 { r >> 4 }
  predicate Clear4(s: bv32) { s & 0xf == 0 }

  function Moved8(s: bv32, r: bv32): bv32 { (s >> 8) ^ (r << 24) }
  function Rest8(r: bv32): bv32 { r >> 8 }
  predicate Clear8(s: bv32) { s & 0xff == 0 }

  function Moved16(s: bv32, r: bv32): bv32 { (s >> 16) ^ (r << 16) }
  function Rest16(r: bv32): bv32 { r >> 16 }
  predicate Clear16(s: bv32) { s & 0xffff == 0 }

  lemma Moves2(s: bv32, r: bv32)
    ensures Moved1(Moved1(s, r), Rest1(r)) == Moved2(s, r)
  {
  }

  lemma Rests2(r: bv32)
    ensures Rest1(Rest1(r)) == Rest2(r)
  {
  }

  lemma Clears2(s: bv32, r: bv32)
    requires Clear2(s)
    ensures Clear1(s) && Clear1(Moved1(s, r))
  {
  }

  lemma Moves4(s: bv32, r: bv32)
    ensures Moved2(Moved2(s, r), Rest2(r)) == Moved4(s, r)
  {
  }

  lemma Rests4(r: bv32)
    ensures Rest2(Rest2(r)) == Rest4(r)
  {
  }

  lemma Clears4(s: bv32, r: bv32)
    requires Clear4(s)
    ensures Clear2(s) && Clear2(Moved2(s, r))
  {
  }

  lemma Moves8(s: bv32, r: bv32)
    ensures Moved4(Moved4(s, r), Rest4(r)) == Moved8(s, r)
  {
  }

  lemma Rests8(r: bv32)
    ensures Rest4(Rest4(r)) == Rest8(r)
  {
  }

  lemma Clears8(s: bv32, r: bv32)
    requires Clear8(s)
    ensures Clear4(s) && Clear4(Moved4(s, r))
  {
  }

  lemma Moves16(s: bv32, r: bv32)
    ensures Moved8(Moved8(s, r), Rest8(r)) == Moved16(s, r)
  {
  }

  lemma Rests16(r: bv32)
    ensures Rest8(Rest8(r)) == Rest16(r)
  {
  }

  lemma Clears16(s: bv32, r: bv32)
    requires Clear16(s)
    ensures Clear8(s) && Clear8(Moved8(s, r))
  {
  }

  lemma ClearShift(s: bv32)
    requires Clear1(s)
    ensures ShiftLE(POLY, s) == Half(s)
  {
    assert !HasBit(s, 1);
    PlusZero(Half(s));
  }

  lemma PlusZero(a: bv32)
    ensures a ^ 0 == a
  {
  }

  function Top(r: bv32): bv32 {
    r << 31
  }

  lemma UnitPick(r: bv32)
    ensures Pick(HasBit(r, 1), UNIT) == Top(r)
  {
  }

  lemma Unit1(s: Partial)
    requires Clear1(s.sum)
    ensures Step1(s, UNIT) == Partial(Moved1(s.sum, s.rest), Rest1(s.rest))
  {
    ClearShift(s.sum);
    UnitPick(s.rest);
  }

  lemma Unit2(s: Partial)
    requires Clear2(s.sum)
    ensures Step2(s, UNIT) == Partial(Moved2(s.sum, s.rest), Rest2(s.rest))
  {
    Clears2(s.sum, s.rest);
    Unit1(s);
    Unit1(Step1(s, UNIT));
    Moves2(s.sum, s.rest);
    Rests2(s.rest);
  }

  lemma Unit4(s: Partial)
    requires Clear4(s.sum)
    ensures Step4(s, UNIT) == Partial(Moved4(s.sum, s.rest), Rest4(s.rest))
  {
    Clears4(s.sum, s.rest);
    Unit2(s);
    Unit2(Step2(s, UNIT));
    Moves4(s.sum, s.rest);
    Rests4(s.rest);
  }

  lemma Unit8(s: Partial)
    requires Clear8(s.sum)
    ensures Step8(s, UNIT) == Partial(Moved8(s.sum, s.rest), Rest8(s.rest))
  {
    Clears8(s.sum, s.rest);
    Unit4(s);
    Unit4(Step4(s, UNIT));
    Moves8(s.sum, s.rest);
    Rests8(s.rest);
  }

  lemma Unit16(s: Partial)
    requires Clear16(s.sum)
    ensures Step16(s, UNIT) == Partial(Moved16(s.sum, s.rest), Rest16(s.rest))
  {
    Clears16(s.sum, s.rest);
    Unit8(s);
    Unit8(Step8(s, UNIT));
    Moves16(s.sum, s.rest);
    Rests16(s.rest);
  }

  lemma WholeMoved(r: bv32)
    ensures Clear16(0) && Clear16(Moved16(0, r)) && Moved16(Moved16(0, r), Rest16(r)) == r
  {
  }

  lemma MulUnit(r: bv32)
    ensures Mul(r, UNIT) == r
  {
    WholeMoved(r);
    Unit16(Partial(0, r));
    Unit16(Step16(Partial(0, r), UNIT));
  }

  // ----- Shifting is multiplying by a power of x -----

  function Shifted(r: bv32, m: nat): bv32 {
    ShiftsWord(POLY, r, m)
  }

  lemma PlusBits(a: bv32, b: bv32, c: bv32)
    ensures BitsLE(c) == XorBits(BitsLE(a), BitsLE(b)) <==> c == Plus(a, b)
  {
    XorLE(a, b);
    if BitsLE(c) == BitsLE(Plus(a, b)) {
      WordExtensional(c, Plus(a, b));
    }
  }

  lemma ShiftedBits(a: bv32, b: bv32, c: bv32, m: nat)
    requires BitsLE(c) == XorBits(BitsLE(a), BitsLE(b))
    ensures BitsLE(Shifted(c, m)) == XorBits(BitsLE(Shifted(a, m)), BitsLE(Shifted(b, m)))
  {
    ShiftsWordBits(POLY, a, m);
    ShiftsWordBits(POLY, b, m);
    ShiftsWordBits(POLY, c, m);
    ShiftsLinear(BitsLE(POLY), BitsLE(a), BitsLE(b), m);
  }

  lemma ShiftedPlus(a: bv32, b: bv32, m: nat)
    ensures Shifted(Plus(a, b), m) == Plus(Shifted(a, m), Shifted(b, m))
  {
    PlusBits(a, b, Plus(a, b));
    ShiftedBits(a, b, Plus(a, b), m);
    PlusBits(Shifted(a, m), Shifted(b, m), Shifted(Plus(a, b), m));
  }

  lemma {:induction false} ShiftedZero(m: nat)
    ensures Shifted(0, m) == 0
  {
    if m > 0 {
      ShiftedZero(m - 1);
      assert ShiftLE(POLY, 0) == 0;
    }
  }

  lemma {:induction false} ShiftCommutes(r: bv32, m: nat)
    ensures Shifted(ShiftLE(POLY, r), m) == ShiftLE(POLY, Shifted(r, m))
  {
    if m > 0 {
      ShiftCommutes(r, m - 1);
    }
  }

  /** The product under way with every word shifted m times. */
  function ShiftedPartial(s: Partial, m: nat): Partial {
    Partial(Shifted(s.sum, m), s.rest)
  }

  lemma Shifts1(s: Partial, a: bv32, m: nat)
    ensures Step1(ShiftedPartial(s, m), Shifted(a, m)) == ShiftedPartial(Step1(s, a), m)
  {
    var b := HasBit(s.rest, 1);
    ShiftCommutes(s.sum, m);
    ShiftedZero(m);
    ShiftedPlus(ShiftLE(POLY, s.sum), Pick(b, a), m);
  }

  lemma Shifts4(s: Partial, a: bv32, m: nat)
    ensures Step4(ShiftedPartial(s, m), Shifted(a, m)) == ShiftedPartial(Step4(s, a), m)
  {
    Shifts1(s, a, m);
    Shifts1(Step1(s, a), a, m);
    Shifts1(Step2(s, a), a, m);
    Shifts1(Step1(Step2(s, a), a), a, m);
  }

  lemma Shifts16(s: Partial, a: bv32, m: nat)
    ensures Step16(ShiftedPartial(s, m), Shifted(a, m)) == ShiftedPartial(Step16(s, a), m)
  {
    Shifts4(s, a, m);
    Shifts4(Step4(s, a), a, m);
    Shifts4(Step8(s, a), a, m);
    Shifts4(Step4(Step8(s, a), a), a, m);
  }

  /** Main step: shifting m times multiplies by x^m. */
  lemma ShiftIsMul(r: bv32, m: nat)
    ensures Shifted(r, m) == Mul(r, Shifted(UNIT, m))
  {
    var s := Partial(0, r);
    ShiftedZero(m);
    Shifts16(s, UNIT, m);
    Shifts16(Step16(s, UNIT), UNIT, m);
    MulUnit(r);
  }

  // ----- Powers of x -----

  ghost predicate IsPower(m: nat, a: bv32) {
    Shifted(UNIT, m) == a
  }

  lemma PowerProduct(m: nat, a: bv32, n: nat, b: bv32)
    requires IsPower(m, a) && IsPower(n, b)
    ensures IsPower(m + n, Mul(a, b))
  {
    ShiftsWordSplit(POLY, UNIT, m, n);
    ShiftIsMul(a, n);
  }

  function Square(a: bv32): bv32 {
    Mul(a, a)
  }

  lemma PowerSquare(m: nat, a: bv32)
    requires IsPower(m, a)
    ensures IsPower(2 * m, Square(a))
  {
    PowerProduct(m, a, m, a);
  }

  lemma PowerFourth(m: nat, a: bv32)
    requires IsPower(m, a)
    ensures IsPower(4 * m, Square(Square(a)))
  {
    PowerSquare(m, a);
    PowerSquare(2 * m, Square(a));
  }

  // ----- The tower -----

  lemma Rise1(e: nat)
    requires IsPower(e, 0x40000000)
    ensures IsPower(4 * e, 0x08000000)
  {
    PowerFourth(e, 0x40000000);
  }

  lemma Climb1(e: nat)
    requires IsPower(e, 0x40000000)
    ensures IsPower(16 * e, 0x00008000)
  {
    Rise1(e);
    PowerFourth(4 * e, 0x08000000);
  }

  lemma Rise2(e: nat)
    requires IsPower(e, 0x00008000)
    ensures IsPower(4 * e, 0xb1e6b092)
  {
    PowerFourth(e, 0x00008000);
  }

  lemma Climb2(e: nat)
    requires IsPower(e, 0x00008000)
    ensures IsPower(16 * e, 0xed627dae)
  {
    Rise2(e);
    PowerFourth(4 * e, 0xb1e6b092);
  }

  lemma Rise3(e: nat)
    requires IsPower(e, 0xed627dae)
    ensures IsPower(4 * e, 0xd7bbfe6a)
  {
    PowerFourth(e, 0xed627dae);
  }

  lemma Climb3(e: nat)
    requires IsPower(e, 0xed627dae)
    ensures IsPower(16 * e, 0x8e7ea170)
  {
    Rise3(e);
    PowerFourth(4 * e, 0xd7bbfe6a);
  }

  lemma Rise4(e: nat)
    requires IsPower(e, 0x8e7ea170)
    ensures IsPower(4 * e, 0x4d47bae0)
  {
    PowerFourth(e, 0x8e7ea170);
  }

  lemma Climb4(e: nat)
    requires IsPower(e, 0x8e7ea170)
    ensures IsPower(16 * e, 0x83852d0f)
  {
    Rise4(e);
    PowerFourth(4 * e, 0x4d47bae0);
  }

  lemma Climb5(e: nat)
    requires IsPower(e, 0x40000000) && IsPower(65536 * e, 0x83852d0f)
    ensures IsPower(65537 * e, 0xac7a15a7)
  {
    PowerProduct(65536 * e, 0x83852d0f, e, 0x40000000);
  }

  lemma Rise6(e: nat)
    requires IsPower(e, 0xac7a15a7)
    ensures IsPower(4 * e, 0x216c9960)
  {
    PowerFourth(e, 0xac7a15a7);
  }

  lemma Climb6(e: nat)
    requires IsPower(e, 0xac7a15a7)
    ensures IsPower(16 * e, 0x816532e8)
  {
    Rise6(e);
    PowerFourth(4 * e, 0x216c9960);
  }

  lemma Rise7(e: nat)
    requires IsPower(e, 0x816532e8)
    ensures IsPower(4 * e, 0x934ee480)
  {
    PowerFourth(e, 0x816532e8);
  }

  lemma Climb7(e: nat)
    requires IsPower(e, 0x816532e8)
    ensures IsPower(16 * e, 0x4630d51a)
  {
    Rise7(e);
    PowerFourth(4 * e, 0x934ee480);
  }

  lemma Climb8(e: nat)
    requires IsPower(e, 0xac7a15a7) && IsPower(256 * e, 0x4630d51a)
    ensures IsPower(257 * e, 0x316b5ba1)
  {
    PowerProduct(256 * e, 0x4630d51a, e, 0xac7a15a7);
  }

  lemma Rise9(e: nat)
    requires IsPower(e, 0x316b5ba1)
    ensures IsPower(4 * e, 0xaebf57a4)
  {
    PowerFourth(e, 0x316b5ba1);
  }

  lemma Climb9(e: nat)
    requires IsPower(e, 0x316b5ba1)
    ensures IsPower(16 * e, 0x0c283ca0)
  {
    Rise9(e);
    PowerFourth(4 * e, 0xaebf57a4);
  }

  lemma Climb10(e: nat)
    requires IsPower(e, 0x316b5ba1) && IsPower(16 * e, 0x0c283ca0)
    ensures IsPower(17 * e, 0x3d436701)
  {
    PowerProduct(16 * e, 0x0c283ca0, e, 0x316b5ba1);
  }

  lemma Climb11(e: nat)
    requires IsPower(e, 0x3d436701)
    ensures IsPower(4 * e, 0xbd436701)
  {
    PowerFourth(e, 0x3d436701);
  }

  lemma Climb12(e: nat)
    requires IsPower(e, 0x3d436701) && IsPower(4 * e, 0xbd436701)
    ensures IsPower(5 * e, 0xc736eb52)
  {
    PowerProduct(4 * e, 0xbd436701, e, 0x3d436701);
  }

  lemma Climb13(e: nat)
    requires IsPower(e, 0xc736eb52)
    ensures IsPower(3 * e, 0x80000000)
  {
    PowerSquare(e, 0xc736eb52);
    PowerProduct(2 * e, Square(0xc736eb52), e, 0xc736eb52);
  }

  // ----- Periods of the register of ones -----

  ghost predicate Period(k: nat) {
    Shifted(ONES, k) == ONES
  }

  lemma PeriodSum(a: nat, b: nat)
    requires Period(a)
    ensures Period(a + b) <==> Period(b)
  {
    ShiftsWordSplit(POLY, ONES, a, b);
  }

  lemma {:induction false} PeriodTimes(a: nat, j: nat)
    requires Period(a)
    ensures Period(a * j)
  {
    if j > 0 {
      PeriodTimes(a, j - 1);
      PeriodSum(a, a * (j - 1));
      assert a + a * (j - 1) == a * j;
    }
  }

  /** If x^e and x^(m + e) move the ones differently, m is no period. */
  lemma NoPeriod(m: nat, e: nat, a: bv32, b: bv32)
    requires IsPower(e, a) && IsPower(m + e, b) && Mul(ONES, a) != Mul(ONES, b)
    ensures !Period(m)
  {
    ShiftsWordSplit(POLY, ONES, m, e);
    ShiftIsMul(ONES, e);
    ShiftIsMul(ONES, m + e);
  }

  lemma Apart65537(m: nat, e: nat)
    requires IsPower(e, 0x40000000) && IsPower(m + e, 0x83852d0f)
    ensures !Period(m)
  {
    NoPeriod(m, e, 0x40000000, 0x83852d0f);
  }

  lemma Apart257(m: nat, e: nat)
    requires IsPower(e, 0xac7a15a7) && IsPower(m + e, 0x4630d51a)
    ensures !Period(m)
  {
    NoPeriod(m, e, 0xac7a15a7, 0x4630d51a);
  }

  lemma Apart17(m: nat, e: nat)
    requires IsPower(e, 0x316b5ba1) && IsPower(m + e, 0x0c283ca0)
    ensures !Period(m)
  {
    NoPeriod(m, e, 0x316b5ba1, 0x0c283ca0);
  }

  lemma Apart5(m: nat, e: nat)
    requires IsPower(e, 0x3d436701) && IsPower(m + e, 0xbd436701)
    ensures !Period(m)
  {
    NoPeriod(m, e, 0x3d436701, 0xbd436701);
  }

  lemma Apart3(m: nat, e: nat)
    requires IsPower(e, 0x80000000) && IsPower(m + e, 0xc736eb52)
    ensures !Period(m)
  {
    NoPeriod(m, e, 0x80000000, 0xc736eb52);
  }

  lemma Floor65537(e: nat)
    requires IsPower(e, 0x40000000)
    ensures !Period(65535 * e) && IsPower(65537 * e, 0xac7a15a7)
  {
    Climb1(e);
    Climb2(16 * e);
    Climb3(256 * e);
    Climb4(4096 * e);
    Apart65537(65535 * e, e);
    Climb5(e);
  }

  lemma Floor257(e: nat)
    requires IsPower(e, 0xac7a15a7)
    ensures !Period(255 * e) && IsPower(257 * e, 0x316b5ba1)
  {
    Climb6(e);
    Climb7(16 * e);
    Apart257(255 * e, e);
    Climb8(e);
  }

  lemma Floor17(e: nat)
    requires IsPower(e, 0x316b5ba1)
    ensures !Period(15 * e) && IsPower(17 * e, 0x3d436701)
  {
    Climb9(e);
    Apart17(15 * e, e);
    Climb10(e);
  }

  lemma Floor5(e: nat)
    requires IsPower(e, 0x3d436701)
    ensures !Period(3 * e) && IsPower(5 * e, 0xc736eb52)
  {
    Climb11(e);
    Apart5(3 * e, e);
    Climb12(e);
  }

  lemma Floor3(e: nat)
    requires IsPower(e, 0xc736eb52)
    ensures !Period(e) && Period(3 * e)
  {
    assert IsPower(0, UNIT);
    Apart3(e, 0);
    Climb13(e);
    ShiftIsMul(ONES, 3 * e);
    MulUnit(ONES);
  }

  // ----- The order -----

  /** q has no divisor but 1 and itself. */
  ghost predicate Prime(q: nat) {
    q > 1 && forall u: nat, v: nat :: u * v == q ==> u == 1 || v == 1
  }

  /** None of 2 to d divides q. */
  predicate Indivisible(q: nat, d: nat) {
    d < 2 || (q % d != 0 && Indivisible(q, d - 1))
  }

  lemma {:induction false} NotDivided(q: nat, d: nat, u: nat)
    requires Indivisible(q, d) && 2 <= u <= d
    ensures q % u != 0
  {
    if u < d {
      NotDivided(q, d - 1, u);
    }
  }

  lemma ProductGrows(u: nat, v: nat, c: nat)
    requires u >= c && v >= c
    ensures u * v >= c * c
  {
    assert u * v >= c * v;
    assert c * v >= c * c;
  }

  lemma NoFactors(q: nat, d: nat, u: nat, v: nat)
    requires Indivisible(q, d) && q < (d + 1) * (d + 1) && u * v == q && u <= v
    ensures u < 2
  {
    if u > d {
      ProductGrows(u, v, d + 1);
    } else if u >= 2 {
      ModUnique(q, u, v, 0);
      NotDivided(q, d, u);
    }
  }

  lemma PrimeBelow(q: nat, d: nat)
    requires q > 1 && Indivisible(q, d) && q < (d + 1) * (d + 1)
    ensures Prime(q)
  {
    forall u: nat, v: nat | u * v == q
      ensures u == 1 || v == 1
    {
      assert u != 0 && v != 0;
      if u <= v {
        NoFactors(q, d, u, v);
      } else {
        NoFactors(q, d, v, u);
      }
    }
  }

  lemma Undivided(q: nat, d: nat)
    requires Indivisible(q, d)
    requires q % (d + 1) != 0 && q % (d + 2) != 0 && q % (d + 3) != 0 && q % (d + 4) != 0
    requires q % (d + 5) != 0 && q % (d + 6) != 0 && q % (d + 7) != 0 && q % (d + 8) != 0
    ensures Indivisible(q, d + 8)
  {
    assert Indivisible(q, d + 2);
    assert Indivisible(q, d + 4);
    assert Indivisible(q, d + 6);
  }

  lemma Undivided64()
    ensures Indivisible(65537, 64)
  {
    assert Indivisible(65537, 8);
    Undivided(65537, 8);
    Undivided(65537, 16);
    Undivided(65537, 24);
    Undivided(65537, 32);
    Undivided(65537, 40);
    Undivided(65537, 48);
    Undivided(65537, 56);
  }

  lemma Undivided128()
    ensures Indivisible(65537, 128)
  {
    Undivided64();
    Undivided(65537, 64);
    Undivided(65537, 72);
    Undivided(65537, 80);
    Undivided(65537, 88);
    Undivided(65537, 96);
    Undivided(65537, 104);
    Undivided(65537, 112);
    Undivided(65537, 120);
  }

  lemma Undivided192()
    ensures Indivisible(65537, 192)
  {
    Undivided128();
    Undivided(65537, 128);
    Undivided(65537, 136);
    Undivided(65537, 144);
    Undivided(65537, 152);
    Undivided(65537, 160);
    Undivided(65537, 168);
    Undivided(65537, 176);
    Undivided(65537, 184);
  }

  lemma Undivided256()
    ensures Indivisible(65537, 256)
  {
    Undivided192();
    Undivided(65537, 192);
    Undivided(65537, 200);
    Undivided(65537, 208);
    Undivided(65537, 216);
    Undivided(65537, 224);
    Undivided(65537, 232);
    Undivided(65537, 240);
    Undivided(65537, 248);
  }

  lemma Primes()
    ensures Prime(3) && Prime(5) && Prime(17) && Prime(257) && Prime(65537)
  {
    PrimeBelow(3, 1);
    PrimeBelow(5, 2);
    PrimeBelow(17, 4);
    PrimeBelow(257, 16);
    Undivided256();
    PrimeBelow(65537, 256);
  }

  /** Euclid's algorithm on multiples of m that are periods. */
  lemma {:induction false} CommonPeriod(m: nat, a: nat, b: nat) returns (d: nat, u: nat, v: nat)
    requires b > 0 && Period(a * m) && Period(b * m)
    ensures a == d * u && b == d * v && Period(d * m)
    decreases a
  {
    if a == 0 {
      d, u, v := b, 0, 1;
    } else {
      var q, r := b / a, b % a;
      PeriodTimes(a * m, q);
      PeriodSum((a * m) * q, r * m);
      assert (a * m) * q + r * m == b * m by {
        assert b == a * q + r;
        assert (a * q + r) * m == (a * q) * m + r * m;
        assert (a * q) * m == (a * m) * q;
      }
      var w: nat;
      d, w, u := CommonPeriod(m, r, a);
      v := u * q + w;
      assert d * v == (d * u) * q + d * w;
    }
  }

  /** A period is a multiple of every prime whose cofactor is none. */
  lemma PrimeDivides(q: nat, m: nat, k: nat) returns (u: nat)
    requires Prime(q) && Period(q * m) && !Period(m) && Period(k)
    ensures k == q * u
  {
    PeriodTimes(k, m);
    var d, v;
    d, u, v := CommonPeriod(m, k, q);
    assert d * v == q;
  }

  /** A multiple of p and of p + 2, for odd p, is a multiple of their product. */
  lemma TwinMultiple(p: nat, k: nat, u: int, v: int) returns (w: int)
    requires p % 2 == 1 && k == p * u && k == (p + 2) * v
    ensures k == (p * (p + 2)) * w
  {
    var h := (p + 1) / 2;
    w := h * v - (h - 1) * u;
    assert p * h - (p + 2) * (h - 1) == 1;
    calc {
      (p * (p + 2)) * w;
      (p * h) * ((p + 2) * v) - ((p + 2) * (h - 1)) * (p * u);
      (p * h) * k - ((p + 2) * (h - 1)) * k;
      k;
    }
  }

  const ORDER: nat := 0xffffffff

  /** What the tower shows of the five cofactors. */
  lemma Tower()
    ensures Period(ORDER) && !Period(65535) && !Period(255 * 65537) && !Period(15 * 257 * 65537)
    ensures !Period(3 * 17 * 257 * 65537) && !Period(5 * 17 * 257 * 65537)
  {
    assert IsPower(1, X);
    Floor65537(1);
    Floor257(65537);
    Floor17(257 * 65537);
    Floor5(17 * 257 * 65537);
    Floor3(5 * 17 * 257 * 65537);
  }

  /** Main result: x has order 2^32 - 1. Shifting a register of ones k times restores it exactly when k
      is a multiple of that. */
  lemma {:induction false} OnesReturnIff(k: nat)
    ensures Period(k) <==> k % ORDER == 0
  {
    Tower();
    if k % ORDER == 0 {
      PeriodTimes(ORDER, k / ORDER);
      assert ORDER * (k / ORDER) == k;
    } else if Period(k) {
      var w := Multiple(k);
      ModUnique(k, ORDER, w, 0);
    }
  }

  lemma Combined(k: nat, a: int, b: int, c: int, d: int, e: int) returns (w: int)
    requires k == 3 * a && k == 5 * b && k == 17 * c && k == 257 * d && k == 65537 * e
    ensures k == ORDER * w
  {
    w := TwinMultiple(3, k, a, b);
    w := TwinMultiple(15, k, w, c);
    w := TwinMultiple(255, k, w, d);
    w := TwinMultiple(65535, k, w, e);
  }

  lemma Multiple(k: nat) returns (w: int)
    requires Period(k)
    ensures k == ORDER * w
  {
    Tower();
    Primes();
    var a := PrimeDivides(3, 5 * 17 * 257 * 65537, k);
    var b := PrimeDivides(5, 3 * 17 * 257 * 65537, k);
    var c := PrimeDivides(17, 15 * 257 * 65537, k);
    var d := PrimeDivides(257, 255 * 65537, k);
    var e := PrimeDivides(65537, 65535, k);
    w := Combined(k, a, b, c, d, e);
  }

  // ----- What the CRC does not notice -----

  lemma OnesShiftedIff(k: nat)
    ensures Shifts(BitsLE(POLY), Inverted(Zeros(32)), k) == Inverted(Zeros(32)) <==> k % ORDER == 0
  {
    OnesReturnIff(k);
    OnesWord();
    ShiftsWordBits(POLY, ONES, k);
    if BitsLE(Shifted(ONES, k)) == BitsLE(ONES) {
      WordExtensional(Shifted(ONES, k), ONES);
    }
  }

  /** Main result: k zero bits after an inverted CRC-32 go unnoticed exactly when k is a multiple of
      2^32 - 1, for every message and start value. */
  lemma {:induction false} TrailingBitsIff(r: seq<bool>, m: seq<bool>, k: nat)
    requires |r| == 32
    ensures var p := BitsLE(POLY);
            Run(p, r, m + Inverted(Run(p, r, m)) + Zeros(k)) == Run(p, Zeros(32), Inverted(Zeros(32))) <==> k % ORDER == 0
  {
    ConstantTerm();
    InvertedTrailingZeros(BitsLE(POLY), r, m, k);
    OnesShiftedIff(k);
  }

  /** Main result: k zero bits before a message go unnoticed from a start value of ones exactly when k
      is a multiple of 2^32 - 1, for every message. */
  lemma {:induction false} LeadingBitsIff(m: seq<bool>, k: nat)
    ensures var p, ones := BitsLE(POLY), Inverted(Zeros(32));
            Run(p, ones, Zeros(k) + m) == Run(p, ones, m) <==> k % ORDER == 0
  {
    ConstantTerm();
    LeadingZeros(BitsLE(POLY), Inverted(Zeros(32)), m, k);
    OnesShiftedIff(k);
  }

  lemma EightTimes(k: nat)
    ensures (8 * k) % ORDER == 0 <==> k % ORDER == 0
  {
    var q := k / ORDER;
    if k % ORDER == 0 {
      ModUnique(8 * k, ORDER, 8 * q, 0);
    } else if (8 * k) % ORDER == 0 {
      var p := (8 * k) / ORDER;
      assert k == ORDER * (0x2000_0000 * p - k);
      ModUnique(k, ORDER, 0x2000_0000 * p - k, 0);
    }
  }

  /** The same for zero bytes after the four bytes of an inverted CRC. */
  lemma {:induction false} TrailingBytesIff(start: bv32, m: seq<bv8>, k: nat)
    ensures CrcFrom(POLY, start, m + WordBytes(Inverse(CrcFrom(POLY, start, m)), 4) + ZeroBytes(k)) == Crc(WordBytes(0xffffffff, 4))
       <==> k % ORDER == 0
  {
    var all := CrcFrom(POLY, start, m + WordBytes(Inverse(CrcFrom(POLY, start, m)), 4) + ZeroBytes(k));
    InvertedThenZeros(start, m, k);
    ResidueBits();
    TrailingBitsIff(BitsLE(start), MessageLE(m), 8 * k);
    EightTimes(k);
    if BitsLE(all) == BitsLE(Crc(WordBytes(0xffffffff, 4))) {
      WordExtensional(all, Crc(WordBytes(0xffffffff, 4)));
    }
  }

  /** The same for zero bytes before a message. */
  lemma {:induction false} LeadingBytesIff(m: seq<bv8>, k: nat)
    ensures CrcFrom(POLY, 0xffffffff, ZeroBytes(k) + m) == CrcFrom(POLY, 0xffffffff, m) <==> k % ORDER == 0
  {
    var all := CrcFrom(POLY, 0xffffffff, ZeroBytes(k) + m);
    CrcFromBits(POLY, 0xffffffff, m);
    OnesWord();
    ZerosThenMessage(m, k);
    LeadingBitsIff(MessageLE(m), 8 * k);
    EightTimes(k);
    if BitsLE(all) == BitsLE(CrcFrom(POLY, 0xffffffff, m)) {
      WordExtensional(all, CrcFrom(POLY, 0xffffffff, m));
    }
  }
}
