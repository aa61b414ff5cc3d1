/** The table-driven algorithms on words and bytes: Sarwate's byte-at-a-time table, and slicing
    by any number of bytes from four up. */
module CrcLookup {
  import opened Gf2
  import opened CrcMachine
  import opened CrcTables
  import opened CrcWords
  import opened CrcBytes

  /** Table k: the CRC of each byte followed by k zero bytes. Table 0 is Sarwate's. */
  ghost predicate IsTable(poly: bv32, k: nat, t: seq<bv32>) {
    |t| == 256 && forall b: bv8 :: t[b as nat] == CrcFrom(poly, 0, [b] + ZeroBytes(k))
  }

  lemma OneByte(b: bv8)
    ensures MessageLE([b]) == ByteLE(b)
  {
    assert MessageLE([b]) == MessageLE([]) + ByteLE(b);
  }

  lemma EntryBits(poly: bv32, k: nat, t: seq<bv32>, b: bv8)
    requires IsTable(poly, k, t)
    ensures BitsLE(t[b as nat]) == Run(BitsLE(poly), Zeros(32), ByteLE(b) + Zeros(8 * k))
  {
    CrcFromBits(poly, 0, [b] + ZeroBytes(k));
    ZeroWord();
    MessageSplit([b], ZeroBytes(k));
    OneByte(b);
    ZeroMessage(ZeroBytes(k));
  }

  lemma XorCommutes(a: seq<bool>, b: seq<bool>)
    requires |a| == |b|
    ensures XorBits(a, b) == XorBits(b, a)
  {
  }

  // ----- Sarwate -----

  function Combine(r: bv32, entry: bv32): bv32 {
    Shr8(r) ^ entry
  }

  function SarwateStep(t: seq<bv32>, r: bv32, b: bv8): bv32
    requires |t| == 256
  {
    Combine(r, t[LowByte(r ^ Wide(b)) as nat])
  }

  lemma IndexBits(r: bv32, b: bv8)
    ensures ByteLE(LowByte(r ^ Wide(b))) == XorBits(BitsLE(r)[..8], ByteLE(b))
  {
    LowByteBits(r ^ Wide(b));
    MergeByteLE(r, b);
    MergeHalves(BitsLE(r), ByteLE(b));
  }

  lemma CombineBits(r: bv32, e: bv32)
    ensures BitsLE(Combine(r, e)) == XorBits(BitsLE(e), BitsLE(r)[8..] + Zeros(8))
  {
    Shr8Bits(r);
    XorLE(Shr8(r), e);
    XorCommutes(BitsLE(Shr8(r)), BitsLE(e));
  }

  lemma SarwateEntry(poly: bv32, t: seq<bv32>, r: bv32, b: bv8)
    requires IsTable(poly, 0, t)
    ensures BitsLE(t[LowByte(r ^ Wide(b)) as nat])
         == Run(BitsLE(poly), Zeros(32), XorBits(BitsLE(r)[..8], ByteLE(b)))
  {
    EntryBits(poly, 0, t, LowByte(r ^ Wide(b)));
    IndexBits(r, b);
    var index := ByteLE(LowByte(r ^ Wide(b)));
    assert index + Zeros(0) == index;
  }

  lemma SarwateBits(poly: bv32, t: seq<bv32>, r: bv32, b: bv8)
    requires IsTable(poly, 0, t)
    ensures BitsLE(SarwateStep(t, r, b)) == Run(BitsLE(poly), BitsLE(r), ByteLE(b))
  {
    CombineBits(r, t[LowByte(r ^ Wide(b)) as nat]);
    SarwateEntry(poly, t, r, b);
    ChunkByTable(BitsLE(poly), BitsLE(r), ByteLE(b));
  }

  /** Main result: one look-up is eight iterations of the bit loop. */
  lemma {:induction false} SarwateIsByteStep(poly: bv32, t: seq<bv32>, r: bv32, b: bv8)
    requires IsTable(poly, 0, t)
    ensures SarwateStep(t, r, b) == ByteStep(poly, r, b)
  {
    SarwateBits(poly, t, r, b);
    ByteStepBits(poly, r, b);
    WordExtensional(SarwateStep(t, r, b), ByteStep(poly, r, b));
  }

  // ----- Slicing -----

  /** Tables 0 .. n - 1. */
  ghost predicate AreTables(poly: bv32, t: seq<seq<bv32>>) {
    forall k :: 0 <= k < |t| ==> IsTable(poly, k, t[k])
  }

  /** One independent look-up per byte, each in the table of its distance from the end. */
  function SliceLookup(t: seq<seq<bv32>>, m: seq<bv8>): bv32
    requires |m| <= |t| && forall k :: 0 <= k < |t| ==> |t[k]| == 256
  {
    if m == [] then 0 else t[|m| - 1][m[0] as nat] ^ SliceLookup(t, m[1..])
  }

  function Chunks(m: seq<bv8>): seq<seq<bool>> {
    if m == [] then [] else [ByteLE(m[0])] + Chunks(m[1..])
  }

  lemma {:induction false} ChunksConcat(m: seq<bv8>)
    ensures Concat(Chunks(m)) == MessageLE(m)
  {
    if m != [] {
      ChunksConcat(m[1..]);
      MessageSplit([m[0]], m[1..]);
      OneByte(m[0]);
      assert [m[0]] + m[1..] == m;
      assert Chunks(m)[1..] == Chunks(m[1..]);
    }
  }

  lemma {:induction false} LookupBits(poly: bv32, t: seq<seq<bv32>>, m: seq<bv8>)
    requires AreTables(poly, t) && |m| <= |t|
    ensures BitsLE(SliceLookup(t, m)) == SliceSum(BitsLE(poly), Chunks(m))
  {
    if m == [] {
      ZeroWord();
    } else {
      LookupBits(poly, t, m[1..]);
      XorLE(t[|m| - 1][m[0] as nat], SliceLookup(t, m[1..]));
      EntryBits(poly, |m| - 1, t[|m| - 1], m[0]);
      assert Chunks(m)[1..] == Chunks(m[1..]);
      ChunksConcat(m[1..]);
    }
  }

  /** The sum of the look-ups is the CRC of the bytes looked up. */
  lemma {:induction false} LookupIsCrc(poly: bv32, t: seq<seq<bv32>>, m: seq<bv8>)
    requires AreTables(poly, t) && |m| <= |t|
    ensures SliceLookup(t, m) == CrcFrom(poly, 0, m)
  {
    LookupBits(poly, t, m);
    ChunksConcat(m);
    SlicesSum(BitsLE(poly), Chunks(m));
    CrcFromBits(poly, 0, m);
    ZeroWord();
    WordExtensional(SliceLookup(t, m), CrcFrom(poly, 0, m));
  }

  /** Four bytes fetched as a little-endian word. */
  function Fetch(m: seq<bv8>): bv32
    requires |m| == 4
  {
    Wide(m[0]) | (Wide(m[1]) << 8) | (Wide(m[2]) << 16) | (Wide(m[3]) << 24)
  }

  lemma FetchParts(a: bv8, b: bv8, c: bv8, d: bv8)
    ensures var x := Wide(a) | (Wide(b) << 8) | (Wide(c) << 16) | (Wide(d) << 24);
            LowByte(x) == a && Shr8(x) == Wide(b) | (Wide(c) << 8) | (Wide(d) << 16)
  {
  }

  lemma FetchBytes(m: seq<bv8>)
    requires |m| == 4
    ensures WordBytes(Fetch(m), 4) == m
  {
    FetchParts(m[0], m[1], m[2], m[3]);
    FetchParts(m[1], m[2], m[3], 0);
    FetchParts(m[2], m[3], 0, 0);
    FetchParts(m[3], 0, 0, 0);
  }

  lemma FetchBits(m: seq<bv8>)
    requires |m| == 4
    ensures BitsLE(Fetch(m)) == MessageLE(m)
  {
    FetchBytes(m);
    WordBytesBits(Fetch(m), 4);
  }

  /** The CRC merged with the first four bytes. */
  function Mixed(r: bv32, m: seq<bv8>): bv32
    requires |m| >= 4
  {
    r ^ Fetch(m[..4])
  }

  /** Slicing by |m| bytes: the first four are merged with the CRC, the others are looked up as
      they come and do not depend on it. */
  function SliceStep(t: seq<seq<bv32>>, r: bv32, m: seq<bv8>): bv32
    requires 4 <= |m| <= |t| && forall k :: 0 <= k < |t| ==> |t[k]| == 256
  {
    SliceLookup(t, WordBytes(Mixed(r, m), 4) + m[4..])
  }

  lemma MixedBits(r: bv32, m: seq<bv8>)
    requires 4 <= |m|
    ensures BitsLE(Mixed(r, m)) == XorBits(BitsLE(r), MessageLE(m[..4]))
  {
    XorLE(r, Fetch(m[..4]));
    FetchBits(m[..4]);
  }

  lemma MergedBytes(x: bv32, rest: seq<bv8>)
    ensures MessageLE(WordBytes(x, 4) + rest) == BitsLE(x) + MessageLE(rest)
  {
    MessageSplit(WordBytes(x, 4), rest);
    WordBytesBits(x, 4);
  }

  lemma SliceBits(poly: bv32, r: bv32, m: seq<bv8>)
    requires 4 <= |m|
    ensures BitsLE(CrcFrom(poly, 0, WordBytes(Mixed(r, m), 4) + m[4..]))
         == Run(BitsLE(poly), BitsLE(r), MessageLE(m))
  {
    CrcFromBits(poly, 0, WordBytes(Mixed(r, m), 4) + m[4..]);
    ZeroWord();
    MergedBytes(Mixed(r, m), m[4..]);
    MixedBits(r, m);
    MergeFirst(BitsLE(poly), BitsLE(r), MessageLE(m[..4]), MessageLE(m[4..]));
    HeadAndRest(m);
  }

  lemma HeadAndRest(m: seq<bv8>)
    requires 4 <= |m|
    ensures MessageLE(m[..4]) + MessageLE(m[4..]) == MessageLE(m)
  {
    MessageSplit(m[..4], m[4..]);
    assert m[..4] + m[4..] == m;
  }

  /** Main result: slicing by n consumes n bytes, for every n >= 4. */
  lemma {:induction false} SliceIsCrc(poly: bv32, t: seq<seq<bv32>>, r: bv32, m: seq<bv8>)
    requires AreTables(poly, t) && 4 <= |m| <= |t|
    ensures SliceStep(t, r, m) == CrcFrom(poly, r, m)
  {
    LookupIsCrc(poly, t, WordBytes(Mixed(r, m), 4) + m[4..]);
    SliceBits(poly, r, m);
    CrcFromBits(poly, r, m);
    WordExtensional(SliceStep(t, r, m), CrcFrom(poly, r, m));
  }

  lemma {:induction false} CrcFromSplit(poly: bv32, r: bv32, a: seq<bv8>, b: seq<bv8>)
    ensures CrcFrom(poly, r, a + b) == CrcFrom(poly, CrcFrom(poly, r, a), b)
  {
    if b == [] {
      assert a + b == a;
    } else {
      CrcFromSplit(poly, r, a, b[..|b| - 1]);
      assert (a + b)[..|a + b| - 1] == a + b[..|b| - 1];
    }
  }

  lemma Consumed(poly: bv32, start: bv32, m: seq<bv8>, a: nat, b: nat)
    requires a <= b <= |m|
    ensures CrcFrom(poly, CrcFrom(poly, start, m[..a]), m[a..b]) == CrcFrom(poly, start, m[..b])
  {
    CrcFromSplit(poly, start, m[..a], m[a..b]);
    assert m[..a] + m[a..b] == m[..b];
  }

  lemma SarwateNext(poly: bv32, t: seq<bv32>, start: bv32, m: seq<bv8>, at: nat)
    requires IsTable(poly, 0, t) && at < |m|
    ensures SarwateStep(t, CrcFrom(poly, start, m[..at]), m[at]) == CrcFrom(poly, start, m[..at + 1])
  {
    SarwateIsByteStep(poly, t, CrcFrom(poly, start, m[..at]), m[at]);
    assert m[..at + 1][..at] == m[..at];
  }

  /** Slices of |t| bytes while they last. */
  method SliceLoop(poly: bv32, t: seq<seq<bv32>>, start: bv32, m: seq<bv8>) returns (crc: bv32, at: nat)
    requires |t| >= 4 && AreTables(poly, t)
    ensures at <= |m| < at + |t|
    ensures crc == CrcFrom(poly, start, m[..at])
  {
    at := 0;
    crc := start;
    while at + |t| <= |m|
      invariant at <= |m|
      invariant crc == CrcFrom(poly, start, m[..at])
    {
      var slice := m[at..at + |t|];
      SliceIsCrc(poly, t, crc, slice);
      Consumed(poly, start, m, at, at + |t|);
      crc := SliceStep(t, crc, slice);
      at := at + |t|;
    }
  }

  method SarwateLoop(poly: bv32, t: seq<bv32>, start: bv32, m: seq<bv8>) returns (crc: bv32)
    requires IsTable(poly, 0, t)
    ensures crc == CrcFrom(poly, start, m)
  {
    crc := start;
    for at := 0 to |m|
      invariant crc == CrcFrom(poly, start, m[..at])
    {
      SarwateNext(poly, t, start, m, at);
      crc := SarwateStep(t, crc, m[at]);
    }
    assert m[..|m|] == m;
  }

  /** Main result: slices while they last and Sarwate's loop for the rest give the CRC of the whole
      message. */
  method SliceCrc(poly: bv32, t: seq<seq<bv32>>, start: bv32, m: seq<bv8>) returns (crc: bv32)
    requires |t| >= 4 && AreTables(poly, t)
    ensures crc == CrcFrom(poly, start, m)
  {
    var at;
    crc, at := SliceLoop(poly, t, start, m);
    Consumed(poly, start, m, at, |m|);
    assert m[..|m|] == m && m[at..|m|] == m[at..];
    crc := SarwateLoop(poly, t[0], crc, m[at..]);
  }
}
