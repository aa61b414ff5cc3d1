/** Small shared vocabulary. */
module Common {

  datatype Option<+T> = None | Some(value: T)

  function One(b: bool): int {
    if b then 1 else 0
  }

  /** Two sets that differ at most in x differ in size by x alone. */
  lemma OneMoves<T>(a: set<T>, a': set<T>, x: T)
    requires a - {x} == a' - {x}
    ensures |a'| - |a| == One(x in a') - One(x in a)
  {
    assert a == if x in a then (a - {x}) + {x} else a - {x};
    assert a' == if x in a' then (a' - {x}) + {x} else a' - {x};
  }

  // ----- Lists of numbered things -----

  ghost predicate Distinct(list: seq<nat>) {
    forall i, j :: 0 <= i < j < |list| ==> list[i] != list[j]
  }

  /** The list without the first x. */
  function Remove(list: seq<nat>, x: nat): seq<nat> {
    if list == [] then []
    else if list[0] == x then list[1..]
    else [list[0]] + Remove(list[1..], x)
  }

  lemma {:induction false} RemoveMembers(list: seq<nat>, x: nat, y: nat)
    requires Distinct(list)
    ensures y in Remove(list, x) <==> y in list && y != x
  {
    if list != [] {
      assert y in list <==> y == list[0] || y in list[1..];
      if list[0] != x {
        RemoveMembers(list[1..], x, y);
      }
    }
  }

  lemma {:induction false} RemoveDistinct(list: seq<nat>, x: nat)
    requires Distinct(list)
    ensures Distinct(Remove(list, x))
  {
    if list != [] && list[0] != x {
      RemoveDistinct(list[1..], x);
      RemoveMembers(list[1..], x, list[0]);
      assert Remove(list, x) == [list[0]] + Remove(list[1..], x);
    }
  }

  lemma {:induction false} RemoveOne(list: seq<nat>, x: nat)
    requires x in list
    ensures multiset(list) == multiset(Remove(list, x)) + multiset{x}
  {
    assert list == [list[0]] + list[1..];
    if list[0] != x {
      RemoveOne(list[1..], x);
    }
  }
}

/** Powers of two, bitwise AND on natural numbers, and remainders. */
module Bits {

  function Pow2(k: nat): (p: nat)
    ensures p > 0
  {
    if k == 0 then 1 else 2 * Pow2(k - 1)
  }

  /** Bitwise AND, bit by bit from the bottom. */
  function And(a: nat, b: nat): nat {
    if a == 0 || b == 0 then 0 else 2 * And(a / 2, b / 2) + (a % 2) * (b % 2)
  }

  lemma HalfMod(a: nat, m: nat)
    requires m > 0
    ensures a % (2 * m) == 2 * ((a / 2) % m) + a % 2
  {
    var q, r := (a / 2) / m, (a / 2) % m;
    assert a / 2 == q * m + r;
    assert a == 2 * (a / 2) + a % 2;
    assert a == (2 * m) * q + (2 * r + a % 2) by {
      assert 2 * (q * m + r) == (2 * m) * q + 2 * r;
    }
    ModUnique(a, 2 * m, q, 2 * r + a % 2);
  }

  /** Main result: masking with a power of two minus one is the remainder. */
  lemma {:induction false} AndMask(a: nat, k: nat)
    ensures And(a, Pow2(k) - 1) == a % Pow2(k)
    decreases k
  {
    if k > 0 {
      var m := Pow2(k - 1);
      AndMask(a / 2, k - 1);
      HalfMod(a, m);
      assert (2 * m - 1) / 2 == m - 1 && (2 * m - 1) % 2 == 1;
    }
  }

  lemma MultipleBounds(n: int, d: int)
    requires n > 0
    ensures d >= 1 ==> n * d >= n
    ensures d <= 0 ==> n * d <= 0
    ensures d <= -1 ==> n * d <= -n
  {
  }

  lemma ModUnique(x: int, n: int, q: int, r: int)
    requires n > 0 && 0 <= r < n && x == n * q + r
    ensures x % n == r
  {
    var q', r' := x / n, x % n;
    assert x == n * q' + r';
    assert n * (q - q') == r' - r by {
      assert n * (q - q') == n * q - n * q';
    }
    MultipleBounds(n, q - q');
  }

  /** Reducing by a multiple of n first changes nothing. */
  lemma ModMultiple(x: int, n: int, d: int)
    requires n > 0 && d > 0 && n * d > 0
    ensures (x % (n * d)) % n == x % n
  {
    var q, r := x / (n * d), x % (n * d);
    var q', r' := r / n, r % n;
    assert x == (n * d) * q + r && r == n * q' + r';
    assert x == n * (d * q + q') + r' by {
      assert (n * d) * q == n * (d * q);
      assert n * (d * q) + n * q' == n * (d * q + q');
    }
    ModUnique(x, n, d * q + q', r');
  }

  lemma ModAdd(a: int, b: int, n: int)
    requires n > 0
    ensures (a % n + b) % n == (a + b) % n
  {
    var q := a / n;
    var r, s := (a % n + b) % n, (a % n + b) / n;
    assert a + b == n * (q + s) + r by {
      assert n * q + n * s == n * (q + s);
    }
    ModUnique(a + b, n, q + s, r);
  }

  lemma ModSub(a: int, b: int, n: int)
    requires n > 0
    ensures (a % n - b % n) % n == (a - b) % n
  {
    ModAdd(a, -(b % n), n);
    var q := b / n;
    assert a - b % n == (a - b) + n * q;
    var r, s := (a - b) % n, (a - b) / n;
    assert a - b % n == n * (s + q) + r by {
      assert n * s + n * q == n * (s + q);
    }
    ModUnique(a - b % n, n, s + q, r);
  }

  /** Numbers less than n apart fall on different remainders. */
  lemma ModDistinct(a: int, b: int, n: int)
    requires n > 0 && 0 < a - b < n
    ensures a % n != b % n
  {
    if a % n == b % n {
      assert a - b == n * (a / n - b / n) by {
        assert n * (a / n) - n * (b / n) == n * (a / n - b / n);
      }
      MultipleBounds(n, a / n - b / n);
    }
  }

  lemma {:induction false} Pow2Split(k: nat, w: nat)
    requires k <= w
    ensures Pow2(w) == Pow2(k) * Pow2(w - k)
    decreases w
  {
    if w > k {
      Pow2Split(k, w - 1);
      assert 2 * (Pow2(k) * Pow2(w - 1 - k)) == Pow2(k) * (2 * Pow2(w - 1 - k));
    }
  }

  lemma Pow32()
    ensures Pow2(32) == 0x1_0000_0000
  {
    assert Pow2(8) == 256;
    Pow2Split(8, 16);
    Pow2Split(16, 32);
  }
}
