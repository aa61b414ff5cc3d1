/** Table look-up and slicing, on registers of any width. */
module CrcTables {
  import opened Gf2
  import opened CrcMachine

  /** Bits that do not reach the top within k shifts just move up. */
  lemma {:induction false} Rises(p: seq<bool>, low: seq<bool>, k: nat)
    requires |p| == k + |low| && |p| > 0
    ensures Shifts(p, Zeros(k) + low, k) == low + Zeros(k)
  {
    RisesPart(p, low, k, k);
    assert Zeros(0) + low + Zeros(k) == low + Zeros(k);
  }

  lemma {:induction false} RisesPart(p: seq<bool>, low: seq<bool>, k: nat, n: nat)
    requires |p| == k + |low| && |p| > 0 && n <= k
    ensures Shifts(p, Zeros(k) + low, n) == Zeros(k - n) + low + Zeros(n)
  {
    if n == 0 {
      assert Zeros(k) + low == Zeros(k) + low + Zeros(0);
    } else {
      RisesPart(p, low, k, n - 1);
      var s := Zeros(k - n + 1) + low + Zeros(n - 1);
      assert s[1..] + [false] == Zeros(k - n) + low + Zeros(n);
    }
  }

  lemma Halves(r: seq<bool>, k: nat)
    requires k <= |r|
    ensures r == XorBits(r[..k] + Zeros(|r| - k), Zeros(k) + r[k..])
  {
  }

  lemma XorZeros(a: seq<bool>)
    ensures XorBits(Zeros(|a|), a) == a
  {
  }

  lemma RunFromZero(p: seq<bool>, w: seq<bool>)
    requires |w| <= |p| && |p| > 0
    ensures Run(p, Zeros(|p|), w) == Shifts(p, w + Zeros(|p| - |w|), |w|)
  {
    MergeIsRun(p, Zeros(|p|), w);
    MergeZeros(|p|, w);
  }

  lemma MergeZeros(n: nat, w: seq<bool>)
    requires |w| <= n
    ensures Merge(Zeros(n), w) == w + Zeros(n - |w|)
  {
    XorZeros(w + Zeros(n - |w|));
  }

  /** k shifts are one look-up of the k deciding bits, in a table of the CRCs of k-bit messages. */
  lemma ShiftsByTable(p: seq<bool>, r: seq<bool>, k: nat)
    requires |r| == |p| > 0 && k <= |p|
    ensures Shifts(p, r, k) == XorBits(Run(p, Zeros(|p|), r[..k]), r[k..] + Zeros(k))
  {
    Halves(r, k);
    ShiftsLinear(p, r[..k] + Zeros(|p| - k), Zeros(k) + r[k..], k);
    Rises(p, r[k..], k);
    RunFromZero(p, r[..k]);
  }

  lemma MergeHalves(r: seq<bool>, w: seq<bool>)
    requires |w| <= |r|
    ensures Merge(r, w)[..|w|] == XorBits(r[..|w|], w)
    ensures Merge(r, w)[|w|..] == r[|w|..]
  {
  }

  /** Main result: consuming k bits is one look-up, for every k up to the register's width
      (8 for the 256-entry table, 4 for the 16-entry one). */
  lemma {:induction false} ChunkByTable(p: seq<bool>, r: seq<bool>, w: seq<bool>)
    requires |r| == |p| > 0 && |w| <= |p|
    ensures Run(p, r, w)
         == XorBits(Run(p, Zeros(|p|), XorBits(r[..|w|], w)), r[|w|..] + Zeros(|w|))
  {
    MergeIsRun(p, r, w);
    ShiftsByTable(p, Merge(r, w), |w|);
    MergeHalves(r, w);
  }

  // ----- Slicing -----

  function Concat(chunks: seq<seq<bool>>): seq<bool> {
    if chunks == [] then [] else chunks[0] + Concat(chunks[1..])
  }

  /** One look-up per chunk, each in the table of its own position: the CRCs of the chunk
      followed by as many zeros as there are bits after it. */
  function SliceSum(p: seq<bool>, chunks: seq<seq<bool>>): (s: seq<bool>)
    requires |p| > 0
    ensures |s| == |p|
  {
    if chunks == [] then Zeros(|p|)
    else XorBits(Run(p, Zeros(|p|), chunks[0] + Zeros(|Concat(chunks[1..])|)), SliceSum(p, chunks[1..]))
  }

  /** Main result: the look-ups are independent; their sum is the CRC of the whole. */
  lemma {:induction false} SlicesSum(p: seq<bool>, chunks: seq<seq<bool>>)
    requires |p| > 0
    ensures Run(p, Zeros(|p|), Concat(chunks)) == SliceSum(p, chunks)
  {
    if chunks != [] {
      var z, first, rest := Zeros(|p|), chunks[0], Concat(chunks[1..]);
      var a, b := first + Zeros(|rest|), Zeros(|first|) + rest;
      SlicesSum(p, chunks[1..]);
      assert XorBits(a, b) == first + rest;
      assert XorBits(z, z) == z;
      RunLinear(p, z, z, a, b);
      RunSplit(p, z, Zeros(|first|), rest);
      RunZeros(p, z, |first|);
      ZeroStays(p, |first|);
    }
  }

  /** The register can be merged into the first |p| bits of the input, whatever follows them. */
  lemma {:induction false} MergeFirst(p: seq<bool>, r: seq<bool>, w: seq<bool>, rest: seq<bool>)
    requires |r| == |p| == |w| > 0
    ensures Run(p, r, w + rest) == Run(p, Zeros(|p|), XorBits(r, w) + rest)
  {
    var x := XorBits(r, w);
    RunSplit(p, r, w, rest);
    RunSplit(p, Zeros(|p|), x, rest);
    MergeIsRun(p, r, w);
    RunFromZero(p, x);
    assert w + Zeros(0) == w && x + Zeros(0) == x;
  }
}
