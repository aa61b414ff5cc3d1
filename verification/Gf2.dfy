/** Polynomials over GF(2), and division with remainder among them.

A polynomial is the finite set of the exponents whose coefficient is 1, so that addition
(and subtraction: there are no carries) is symmetric difference. This is the mathematics
that a CRC is defined by; nothing here knows about registers, shifts or masks. */
module Gf2 {

  type Poly = set<nat>

  function Add(a: Poly, b: Poly): Poly {
    (a - b) + (b - a)
  }

  /** Multiplication by x. */
  function TimesX(a: Poly): (r: Poly)
    ensures forall e: nat :: e in r <==> e > 0 && e - 1 in a
  {
    set e | e in a :: e + 1
  }

  /** The product q * p, where q lists its coefficients from the highest power down
      (Horner's rule). */
  function Product(q: seq<bool>, p: Poly): Poly {
    if q == [] then {}
    else Add(TimesX(Product(q[..|q| - 1], p)), if q[|q| - 1] then p else {})
  }

  /** The polynomial whose coefficients are the given bits, highest power first. */
  function FromBits(bits: seq<bool>): Poly {
    Product(bits, {0})
  }

  ghost predicate Below(a: Poly, d: nat) {
    forall e <- a :: e < d
  }

  /** p has degree d. */
  ghost predicate Degree(p: Poly, d: nat) {
    d in p && Below(p, d + 1)
  }

  /** r is a remainder of m on division by p, a polynomial of degree d. */
  ghost predicate IsRemainder(m: Poly, p: Poly, d: nat, r: Poly) {
    Below(r, d) && exists q: seq<bool> :: m == Add(Product(q, p), r)
  }

  lemma {:induction false} LeadingZero(q: seq<bool>, p: Poly)
    ensures Product([false] + q, p) == Product(q, p)
  {
    var fq := [false] + q;
    if q == [] {
      assert fq[..|fq| - 1] == [];
    } else {
      assert fq[..|fq| - 1] == [false] + q[..|q| - 1];
      LeadingZero(q[..|q| - 1], p);
    }
  }

  /** Quotients can be given any larger number of digits. */
  lemma {:induction false} Widen(q: seq<bool>, p: Poly, n: nat) returns (w: seq<bool>)
    requires |q| <= n
    ensures |w| == n && Product(w, p) == Product(q, p)
    decreases n - |q|
  {
    if |q| == n {
      w := q;
    } else {
      LeadingZero(q, p);
      w := Widen([false] + q, p, n);
    }
  }

  function XorBits(a: seq<bool>, b: seq<bool>): (c: seq<bool>)
    requires |a| == |b|
    ensures |c| == |a| && forall i :: 0 <= i < |c| ==> c[i] == (a[i] != b[i])
  {
    seq(|a|, i requires 0 <= i < |a| => a[i] != b[i])
  }

  lemma {:induction false} ProductAdditive(a: seq<bool>, b: seq<bool>, p: Poly)
    requires |a| == |b|
    ensures Product(XorBits(a, b), p) == Add(Product(a, p), Product(b, p))
  {
    if a != [] {
      var a', b' := a[..|a| - 1], b[..|b| - 1];
      ProductAdditive(a', b', p);
      assert XorBits(a, b)[..|a| - 1] == XorBits(a', b');
    }
  }

  /** A nonzero multiple of p is no smaller than p. */
  lemma {:induction false} MultipleReaches(q: seq<bool>, p: Poly, d: nat) returns (e: nat)
    requires Degree(p, d)
    requires true in q
    ensures e in Product(q, p) && e >= d && Below(Product(q, p), e + 1)
  {
    var q' := q[..|q| - 1];
    if true in q' {
      var e' := MultipleReaches(q', p, d);
      e := e' + 1;
    } else {
      assert q == q' + [q[|q| - 1]];
      assert q[|q| - 1];
      NoMultiple(q', p);
      e := d;
    }
  }

  lemma {:induction false} NoMultiple(q: seq<bool>, p: Poly)
    requires true !in q
    ensures Product(q, p) == {}
  {
    if q != [] {
      NoMultiple(q[..|q| - 1], p);
    }
  }

  lemma Cancel(a: Poly, b: Poly, r: Poly, s: Poly)
    requires Add(a, r) == Add(b, s)
    ensures Add(a, b) == Add(r, s)
  {
    forall e: nat
      ensures e in Add(a, b) <==> e in Add(r, s)
    {
      assert e in Add(a, r) <==> e in Add(b, s);
    }
  }

  /** The remainder is determined by dividend and divisor. */
  lemma {:induction false} RemainderUnique(m: Poly, p: Poly, d: nat, r: Poly, s: Poly)
    requires Degree(p, d)
    requires IsRemainder(m, p, d, r) && IsRemainder(m, p, d, s)
    ensures r == s
  {
    var q0: seq<bool> :| m == Add(Product(q0, p), r);
    var t0: seq<bool> :| m == Add(Product(t0, p), s);
    var n := if |q0| > |t0| then |q0| else |t0|;
    var q := Widen(q0, p, n);
    var t := Widen(t0, p, n);
    var x := XorBits(q, t);
    ProductAdditive(q, t, p);
    Cancel(Product(q, p), Product(t, p), r, s);
    if true in x {
      var e := MultipleReaches(x, p, d);
      assert false;
    } else {
      NoMultiple(x, p);
    }
  }
}
