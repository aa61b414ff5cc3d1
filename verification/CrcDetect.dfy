/** What a CRC detects, and the rules for appending it to a message. */
module CrcDetect {
  import opened Gf2
  import opened CrcMachine

  // ----- The shift loses nothing exactly when the divisor has a constant term -----

  lemma ShiftInjective(p: seq<bool>, a: seq<bool>, b: seq<bool>)
    requires |a| == |b| == |p| > 0 && p[|p| - 1]
    requires Shift(p, a) == Shift(p, b)
    ensures a == b
  {
    var n := |p|;
    assert Shift(p, a)[n - 1] == a[0] && Shift(p, b)[n - 1] == b[0];
    forall i | 1 <= i < n
      ensures a[i] == b[i]
    {
      assert Shift(p, a)[i - 1] == (if a[0] then a[i] != p[i - 1] else a[i]);
      assert Shift(p, b)[i - 1] == (if b[0] then b[i] != p[i - 1] else b[i]);
    }
  }

  lemma {:induction false} ShiftsInjective(p: seq<bool>, a: seq<bool>, b: seq<bool>, n: nat)
    requires |a| == |b| == |p| > 0 && p[|p| - 1]
    requires Shifts(p, a, n) == Shifts(p, b, n)
    ensures a == b
  {
    if n > 0 {
      ShiftInjective(p, Shifts(p, a, n - 1), Shifts(p, b, n - 1));
      ShiftsInjective(p, a, b, n - 1);
    }
  }

  lemma XorZero(a: seq<bool>, b: seq<bool>)
    requires |a| == |b|
    ensures XorBits(a, b) == Zeros(|a|) <==> a == b
  {
    if XorBits(a, b) == Zeros(|a|) {
      forall i | 0 <= i < |a|
        ensures a[i] == b[i]
      {
        assert !XorBits(a, b)[i];
      }
    }
  }

  // ----- Bursts -----

  /** x and y differ, and only within `width` consecutive bits from position s on. */
  ghost predicate Burst(x: seq<bool>, y: seq<bool>, s: nat, width: nat) {
    |x| == |y| && x != y && forall i :: 0 <= i < |x| && x[i] != y[i] ==> s <= i < s + width
  }

  lemma BurstShape(x: seq<bool>, y: seq<bool>, s: nat, width: nat) returns (w: seq<bool>, t: nat)
    requires Burst(x, y, s, width)
    ensures XorBits(x, y) == Zeros(s) + w + Zeros(t)
    ensures |w| <= width && true in w
  {
    var d := XorBits(x, y);
    var i :| 0 <= i < |x| && x[i] != y[i];
    assert d[i];
    var e := if s + width < |x| then s + width else |x|;
    w, t := d[s..e], |x| - e;
    assert w[i - s];
    assert d == Zeros(s) + w + Zeros(t);
  }

  lemma RunBurst(p: seq<bool>, s: nat, w: seq<bool>, t: nat)
    requires 0 < |p| && |w| <= |p|
    ensures Run(p, Zeros(|p|), Zeros(s) + w + Zeros(t)) == Shifts(p, w + Zeros(|p| - |w|), |w| + t)
  {
    var z := Zeros(|p|);
    RunSplit(p, z, Zeros(s) + w, Zeros(t));
    RunSplit(p, z, Zeros(s), w);
    RunZeros(p, z, s);
    ZeroStays(p, s);
    MergeIsRun(p, z, w);
    assert Merge(z, w) == w + Zeros(|p| - |w|);
    RunZeros(p, Run(p, z, w), t);
    ShiftsSplit(p, Merge(z, w), |w|, t);
  }

  /** Equal CRCs make the difference of the messages a multiple of the divisor. */
  lemma SameCrc(p: seq<bool>, r: seq<bool>, x: seq<bool>, y: seq<bool>)
    requires |r| == |p| > 0 && |x| == |y|
    ensures Run(p, r, x) == Run(p, r, y) <==> Run(p, Zeros(|p|), XorBits(x, y)) == Zeros(|p|)
  {
    RunLinear(p, r, r, x, y);
    XorZero(r, r);
    XorZero(Run(p, r, x), Run(p, r, y));
  }

  lemma PaddedBurst(p: seq<bool>, w: seq<bool>, n: nat)
    requires 0 < |p| && p[|p| - 1] && |w| <= |p| && true in w
    ensures Shifts(p, w + Zeros(|p| - |w|), n) != Zeros(|p|)
  {
    var padded := w + Zeros(|p| - |w|);
    var i :| 0 <= i < |w| && w[i];
    assert padded[i] && !Zeros(|p|)[i];
    ZeroStays(p, n);
    if Shifts(p, padded, n) == Zeros(|p|) {
      ShiftsInjective(p, padded, Zeros(|p|), n);
    }
  }

  /** Main result: no burst as wide as the register goes unnoticed, wherever it falls, whatever
      the message and the start value. */
  lemma {:induction false} BurstDetected(p: seq<bool>, r: seq<bool>, x: seq<bool>, y: seq<bool>, s: nat)
    requires |r| == |p| > 0 && p[|p| - 1]
    requires Burst(x, y, s, |p|)
    ensures Run(p, r, x) != Run(p, r, y)
  {
    SameCrc(p, r, x, y);
    var w, t := BurstShape(x, y, s, |p|);
    RunBurst(p, s, w, t);
    PaddedBurst(p, w, |w| + t);
  }

  ghost predicate DetectsBursts(p: seq<bool>)
    requires |p| > 0
  {
    forall r: seq<bool>, x: seq<bool>, y: seq<bool>, s: nat ::
      |r| == |p| && Burst(x, y, s, |p|) ==> Run(p, r, x) != Run(p, r, y)
  }

  /** Without a constant term there is a burst that passes. */
  lemma MissedBurst(p: seq<bool>)
    requires |p| > 0 && !p[|p| - 1]
    ensures !DetectsBursts(p)
  {
    var n := |p|;
    var x, y, z := [true] + p[..n - 1], Zeros(n), Zeros(n);
    assert x[1..] + [false] == p;
    assert Shift(p, x) == z;
    ShiftsSplit(p, x, 1, n - 1);
    assert Shifts(p, x, 1) == Shift(p, Shifts(p, x, 0));
    ZeroStays(p, n - 1);
    MergeIsRun(p, z, x);
    assert Merge(z, x) == x;
    RunZeros(p, z, n);
    ZeroStays(p, n);
    assert x[0] && !y[0];
    assert Burst(x, y, 0, n);
    assert Run(p, z, x) == Run(p, z, y);
  }

  lemma {:induction false} DetectsBurstsIff(p: seq<bool>)
    requires |p| > 0
    ensures DetectsBursts(p) <==> p[|p| - 1]
  {
    if p[|p| - 1] {
      forall r: seq<bool>, x: seq<bool>, y: seq<bool>, s: nat | |r| == |p| && Burst(x, y, s, |p|)
        ensures Run(p, r, x) != Run(p, r, y)
      {
        BurstDetected(p, r, x, y, s);
      }
    } else {
      MissedBurst(p);
    }
  }

  // ----- Appending the CRC -----

  function Inverted(r: seq<bool>): (s: seq<bool>)
    ensures |s| == |r| && forall i :: 0 <= i < |r| ==> s[i] == !r[i]
  {
    seq(|r|, i requires 0 <= i < |r| => !r[i])
  }

  lemma RunAppended(p: seq<bool>, r: seq<bool>, m: seq<bool>, c: seq<bool>)
    requires |r| == |p| == |c| > 0
    ensures Run(p, r, m + c) == Shifts(p, XorBits(Run(p, r, m), c), |p|)
  {
    RunSplit(p, r, m, c);
    MergeIsRun(p, Run(p, r, m), c);
    assert c + Zeros(0) == c;
  }

  /** Main result: the two ways of checking agree. A received CRC leaves remainder 0 exactly
      when it equals the recomputed one, for any start value. */
  lemma {:induction false} CheckByRemainder(p: seq<bool>, r: seq<bool>, m: seq<bool>, c: seq<bool>)
    requires |r| == |p| == |c| > 0 && p[|p| - 1]
    ensures Run(p, r, m + c) == Zeros(|p|) <==> c == Run(p, r, m)
  {
    RunAppended(p, r, m, c);
    XorZero(Run(p, r, m), c);
    ZeroStays(p, |p|);
    if Run(p, r, m + c) == Zeros(|p|) {
      ShiftsInjective(p, XorBits(Run(p, r, m), c), Zeros(|p|), |p|);
    }
  }

  lemma OnesResidue(p: seq<bool>)
    requires |p| > 0
    ensures Run(p, Zeros(|p|), Inverted(Zeros(|p|))) == Shifts(p, Inverted(Zeros(|p|)), |p|)
  {
    var ones := Inverted(Zeros(|p|));
    RunAppended(p, Zeros(|p|), [], ones);
    assert XorBits(Zeros(|p|), ones) == ones;
    assert [] + ones == ones;
  }

  /** Main result: an inverted CRC leaves the CRC of the inversion pattern, whatever the message
      and the start value. */
  lemma {:induction false} InvertedResidue(p: seq<bool>, r: seq<bool>, m: seq<bool>)
    requires |r| == |p| > 0
    ensures Run(p, r, m + Inverted(Run(p, r, m))) == Run(p, Zeros(|p|), Inverted(Zeros(|p|)))
  {
    var c := Run(p, r, m);
    var ones := Inverted(Zeros(|p|));
    RunAppended(p, r, m, Inverted(c));
    assert XorBits(c, Inverted(c)) == ones;
    OnesResidue(p);
  }

  /** Zero bits after a message that is already a multiple pass unnoticed. */
  lemma {:induction false} TrailingZeros(p: seq<bool>, r: seq<bool>, m: seq<bool>, k: nat)
    requires |r| == |p| > 0
    ensures Run(p, r, m + Run(p, r, m) + Zeros(k)) == Zeros(|p|)
  {
    var c := Run(p, r, m);
    RunAppended(p, r, m, c);
    assert XorBits(c, c) == Zeros(|p|);
    ZeroStays(p, |p|);
    RunSplit(p, r, m + c, Zeros(k));
    RunZeros(p, Zeros(|p|), k);
    ZeroStays(p, k);
  }

  /** Shifting n times hides whether k further shifts changed the register, and nothing else. */
  lemma ShiftsSame(p: seq<bool>, r: seq<bool>, n: nat, k: nat)
    requires |r| == |p| > 0 && p[|p| - 1]
    ensures Shifts(p, Shifts(p, r, n), k) == Shifts(p, r, n) <==> Shifts(p, r, k) == r
  {
    ShiftsSplit(p, r, n, k);
    ShiftsSplit(p, r, k, n);
    if Shifts(p, Shifts(p, r, k), n) == Shifts(p, r, n) {
      ShiftsInjective(p, Shifts(p, r, k), r, n);
    }
  }

  /** Zero bits after an inverted CRC pass unnoticed exactly when shifting them in leaves a register
      of ones unchanged, whatever the message and the start value. */
  lemma {:induction false} InvertedTrailingZeros(p: seq<bool>, r: seq<bool>, m: seq<bool>, k: nat)
    requires |r| == |p| > 0 && p[|p| - 1]
    ensures Run(p, r, m + Inverted(Run(p, r, m)) + Zeros(k)) == Run(p, Zeros(|p|), Inverted(Zeros(|p|)))
       <==> Shifts(p, Inverted(Zeros(|p|)), k) == Inverted(Zeros(|p|))
  {
    var sent := m + Inverted(Run(p, r, m));
    InvertedResidue(p, r, m);
    OnesResidue(p);
    RunSplit(p, r, sent, Zeros(k));
    RunZeros(p, Run(p, r, sent), k);
    ShiftsSame(p, Inverted(Zeros(|p|)), |p|, k);
  }

  /** Zero bits before the message are noticed exactly when they move the start value: never for
      start value 0. */
  lemma {:induction false} LeadingZeros(p: seq<bool>, r: seq<bool>, m: seq<bool>, k: nat)
    requires |r| == |p| > 0 && p[|p| - 1]
    ensures Run(p, r, Zeros(k) + m) == Run(p, r, m) <==> Shifts(p, r, k) == r
    ensures Run(p, Zeros(|p|), Zeros(k) + m) == Run(p, Zeros(|p|), m)
  {
    RunSplit(p, r, Zeros(k), m);
    RunZeros(p, r, k);
    RunSplit(p, Zeros(|p|), Zeros(k), m);
    RunZeros(p, Zeros(|p|), k);
    ZeroStays(p, k);
    if Run(p, Shifts(p, r, k), m) == Run(p, r, m) {
      RunInjective(p, Shifts(p, r, k), r, m);
    }
  }

  lemma {:induction false} RunInjective(p: seq<bool>, a: seq<bool>, b: seq<bool>, m: seq<bool>)
    requires |a| == |b| == |p| > 0 && p[|p| - 1]
    requires Run(p, a, m) == Run(p, b, m)
    ensures a == b
  {
    if m != [] {
      var init, c := m[..|m| - 1], m[|m| - 1];
      var x, y := Run(p, a, init), Run(p, b, init);
      ShiftInjective(p, x[0 := x[0] != c], y[0 := y[0] != c]);
      assert forall i :: 0 < i < |p| ==> x[0 := x[0] != c][i] == x[i] && y[0 := y[0] != c][i] == y[i];
      assert x == y;
      RunInjective(p, a, b, init);
    }
  }
}
