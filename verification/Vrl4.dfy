/** The vrl4 boot image writer, against a system whose reads and writes may be short, may ask to
be retried and may fail. */
module Vrl4 {
  import opened Bits

  type Byte = x: nat | x < 256

  const ALIGN: nat := 512
  const MAX_BOOT_PROG_LEN: nat := 16 * 512
  const START_BASE: nat := 0xe55b0000
  const HDR_SIZE: nat := 344

  // ----- ROUND_UP -----

  /** (x + ALIGN - 1) & ~(ALIGN - 1) in a 64-bit size_t. */
  function RoundUp(x: nat): nat {
    And((x + ALIGN - 1) % Pow2(64), Pow2(64) - ALIGN)
  }

  lemma AndDouble(a: nat, h: nat)
    ensures And(a, 2 * h) == 2 * And(a / 2, h)
  {
    assert (2 * h) / 2 == h && (2 * h) % 2 == 0;
  }

  lemma {:induction false} AndHigh(a: nat, w: nat, k: nat)
    requires k <= w && a < Pow2(w)
    ensures Pow2(w) >= Pow2(k)
    ensures And(a, Pow2(w) - Pow2(k)) == a - a % Pow2(k)
    decreases w
  {
    if k == 0 {
      AndMask(a, w);
      ModUnique(a, Pow2(w), 0, a);
    } else {
      AndHigh(a / 2, w - 1, k - 1);
      HalfMod(a, Pow2(k - 1));
      AndDouble(a, Pow2(w - 1) - Pow2(k - 1));
    }
  }

  lemma SmallPowers()
    ensures Pow2(9) == ALIGN && Pow2(64) > 0x1_0000_0000
  {
    assert Pow2(4) == 16;
    Pow32();
    Pow2Split(32, 64);
  }

  /** Main result on ROUND_UP: the least multiple of ALIGN that is no less than x, as long as that
      fits a size_t; above, the sum wraps and the result is 0. */
  lemma {:induction false} RoundUpLeast(x: nat)
    requires x < Pow2(64)
    ensures x + ALIGN <= Pow2(64) ==> RoundUp(x) == ALIGN * ((x + ALIGN - 1) / ALIGN)
    ensures x + ALIGN <= Pow2(64) ==> RoundUp(x) % ALIGN == 0 && x <= RoundUp(x) < x + ALIGN
    ensures x + ALIGN > Pow2(64) ==> RoundUp(x) == 0
  {
    SmallPowers();
    var a := x + ALIGN - 1;
    if x + ALIGN <= Pow2(64) {
      ModUnique(a, Pow2(64), 0, a);
      AndHigh(a, 64, 9);
      assert a - a % ALIGN == ALIGN * (a / ALIGN) + 0;
      ModUnique(a - a % ALIGN, ALIGN, a / ALIGN, 0);
    } else {
      var r := a - Pow2(64);
      ModUnique(a, Pow2(64), 1, r);
      AndHigh(r, 64, 9);
      ModUnique(r, ALIGN, 0, r);
    }
  }

  // ----- The image -----

  function Le16(x: nat): (b: seq<Byte>)
    ensures |b| == 2
  {
    [x % 256, x / 256 % 256]
  }

  function Le32(x: nat): (b: seq<Byte>)
    ensures |b| == 4
  {
    Le16(x % 65536) + Le16(x / 65536 % 65536)
  }

  function Zeros(n: nat): (z: seq<Byte>)
    ensures |z| == n && forall i :: 0 <= i < n ==> z[i] == 0
  {
    seq(n, _ => 0)
  }

  /** hdr.copy_size for a boot program of n bytes. */
  function CopySize(n: nat): nat {
    RoundUp(HDR_SIZE) + RoundUp(n)
  }

  /** struct hdr in memory order. */
  function Header(n: nat): (h: seq<Byte>)
    ensures |h| == HDR_SIZE
  {
    Le32(0xea000000) + Le32(0x56) + Le32(0xe59ff008) + Le32(0) + Le16(CopySize(n)) + Le16(0) + Le32(1) +
    Le32(START_BASE + RoundUp(HDR_SIZE)) + Le32(0) + Le32(0) + Zeros(308)
  }

  function BootLength(n: nat): nat {
    if n < MAX_BOOT_PROG_LEN then n else MAX_BOOT_PROG_LEN
  }

  /** The header padded to the alignment. */
  function PaddedHeader(n: nat): (h: seq<Byte>)
    ensures |h| == ALIGN
  {
    Header(n) + Zeros(ALIGN - HDR_SIZE)
  }

  /** The image of a kernel: padded header, then the kernel unchanged. */
  function Image(kernel: seq<Byte>): seq<Byte> {
    PaddedHeader(BootLength(|kernel|)) + kernel
  }

  lemma RoundUpSmall(x: nat)
    requires x <= MAX_BOOT_PROG_LEN
    ensures RoundUp(x) % ALIGN == 0 && x <= RoundUp(x) < x + ALIGN
  {
    SmallPowers();
    RoundUpLeast(x);
  }

  lemma SumAligned(a: nat, b: nat, n: nat)
    requires a % ALIGN == 0 && HDR_SIZE <= a < HDR_SIZE + ALIGN
    requires b % ALIGN == 0 && n <= b < n + ALIGN && n <= MAX_BOOT_PROG_LEN
    ensures a == ALIGN && (a + b) % ALIGN == 0 && ALIGN + n <= a + b < ALIGN + n + ALIGN && a + b <= 8704
  {
  }

  /** The header occupies one sector, and the size for the mask ROM is 512 plus the boot program
      rounded up, which fits its 16 bits. */
  lemma {:induction false} Sizes(n: nat)
    requires n <= MAX_BOOT_PROG_LEN
    ensures RoundUp(HDR_SIZE) == ALIGN
    ensures CopySize(n) % ALIGN == 0 && ALIGN + n <= CopySize(n) < ALIGN + n + ALIGN
    ensures CopySize(n) <= 8704 < 65536
  {
    RoundUpSmall(HDR_SIZE);
    RoundUpSmall(n);
    SumAligned(RoundUp(HDR_SIZE), RoundUp(n), n);
  }

  lemma NothingRounded(n: nat, size: nat)
    requires size % ALIGN == 0 && ALIGN + n <= size < ALIGN + n + ALIGN
    ensures size == ALIGN + n <==> n % ALIGN == 0
    ensures n == 1 ==> size == 1024
  {
  }

  /** The copy size is the boot program plus ALIGN exactly when nothing had to be rounded. */
  lemma {:induction false} SizeExact(n: nat)
    requires n <= MAX_BOOT_PROG_LEN
    ensures CopySize(n) == ALIGN + n <==> n % ALIGN == 0
    ensures n == 1 ==> CopySize(n) == 1024
  {
    Sizes(n);
    NothingRounded(n, CopySize(n));
  }

  function ReadLe16(b: seq<Byte>, at: nat): nat
    requires at + 2 <= |b|
  {
    var low: nat, high: nat := b[at], b[at + 1];
    low + 256 * high
  }

  lemma Field16(b: seq<Byte>, at: nat, x: nat)
    requires at + 2 <= |b| && x < 65536 && b[at..at + 2] == Le16(x)
    ensures ReadLe16(b, at) == x
  {
    assert b[at] == b[at..at + 2][0] && b[at + 1] == b[at..at + 2][1];
  }

  lemma HeaderFields(n: nat)
    requires n <= MAX_BOOT_PROG_LEN
    ensures Header(n)[16..18] == Le16(CopySize(n))
    ensures Header(n)[24..28] == Le32(START_BASE + ALIGN)
  {
    Sizes(n);
  }

  lemma HeaderParts(n: nat)
    ensures Header(n)[0..4] == Le32(0xea000000) && Header(n)[4..8] == Le32(0x56)
    ensures Header(n)[8..12] == Le32(0xe59ff008) && Header(n)[12..16] == Le32(0)
    ensures Header(n)[18..20] == Le16(0) && Header(n)[20..24] == Le32(1)
  {
  }

  lemma ConstantBytes()
    ensures Le32(0xea000000) == [0x00, 0x00, 0x00, 0xea] && Le32(0x56) == [0x56, 0x00, 0x00, 0x00]
    ensures Le32(0xe59ff008) == [0x08, 0xf0, 0x9f, 0xe5] && Le32(0) == [0, 0, 0, 0]
    ensures Le16(0) == [0, 0] && Le32(1) == [1, 0, 0, 0]
  {
  }

  lemma HeaderWords(n: nat)
    ensures Header(n)[0..4] == [0x00, 0x00, 0x00, 0xea] && Header(n)[4..8] == [0x56, 0x00, 0x00, 0x00]
    ensures Header(n)[8..12] == [0x08, 0xf0, 0x9f, 0xe5] && Header(n)[12..16] == [0, 0, 0, 0]
    ensures Header(n)[18..20] == [0, 0] && Header(n)[20..24] == [1, 0, 0, 0]
  {
    HeaderParts(n);
    ConstantBytes();
  }

  lemma HeaderZeros(n: nat, i: nat)
    requires 28 <= i < HDR_SIZE
    ensures Header(n)[i] == 0
  {
    assert Header(n)[28..] == Le32(0) + Le32(0) + Zeros(308);
    assert Header(n)[i] == Header(n)[28..][i - 28];
  }

  lemma PaddingZeros(kernel: seq<Byte>, i: nat)
    requires 28 <= i < 512
    ensures |Image(kernel)| >= 512 && Image(kernel)[i] == 0
  {
    var n := BootLength(|kernel|);
    if i < HDR_SIZE {
      HeaderZeros(n, i);
      assert Image(kernel)[i] == PaddedHeader(n)[i] == Header(n)[i];
    } else {
      assert Image(kernel)[i] == PaddedHeader(n)[i] == Zeros(ALIGN - HDR_SIZE)[i - HDR_SIZE];
    }
  }

  lemma HeaderFirst(kernel: seq<Byte>)
    ensures Header(BootLength(|kernel|)) <= Image(kernel)
  {
  }

  lemma PartOf(image: seq<Byte>, header: seq<Byte>, a: nat, b: nat)
    requires header <= image && a <= b <= |header|
    ensures image[a..b] == header[a..b]
  {
  }

  /** The words that the mask ROM checks, and the zeros between the fields. */
  lemma ImageWords(image: seq<Byte>, n: nat)
    requires Header(n) <= image
    ensures |image| >= HDR_SIZE
    ensures image[0..4] == [0x00, 0x00, 0x00, 0xea] && image[4..8] == [0x56, 0x00, 0x00, 0x00]
    ensures image[8..12] == [0x08, 0xf0, 0x9f, 0xe5] && image[12..16] == [0, 0, 0, 0]
    ensures image[18..20] == [0, 0] && image[20..24] == [1, 0, 0, 0]
  {
    var header := Header(n);
    HeaderWords(n);
    PartOf(image, header, 0, 4);
    PartOf(image, header, 4, 8);
    PartOf(image, header, 8, 12);
    PartOf(image, header, 12, 16);
    PartOf(image, header, 18, 20);
    PartOf(image, header, 20, 24);
  }

  lemma StartAddress()
    ensures Le32(START_BASE + ALIGN) == [0x00, 0x02, 0x5b, 0xe5]
  {
  }

  lemma ImageFields(kernel: seq<Byte>)
    ensures var image, n := Image(kernel), if |kernel| < 8192 then |kernel| else 8192;
            && |image| == 512 + |kernel| && image[512..] == kernel
            && image[24..28] == [0x00, 0x02, 0x5b, 0xe5]
            && ReadLe16(image, 16) == CopySize(BootLength(|kernel|))
            && var low: nat, high: nat := image[16], image[17]; var size := low + 256 * high;
               size % 512 == 0 && 512 + n <= size < 512 + n + 512
  {
    var n, image := BootLength(|kernel|), Image(kernel);
    HeaderFields(n);
    StartAddress();
    assert image[16..18] == Header(n)[16..18] && image[24..28] == Header(n)[24..28];
    Sizes(n);
    Field16(image, 16, CopySize(n));
  }

  /** Main result on the layout, byte by byte: the words that the mask ROM checks, the copy size at
      byte 16 and the start address 0xe55b0200 at byte 24, all little-endian, zeros in between and up
      to byte 512, and from there the kernel unchanged. The copy size is a multiple of 512 that holds
      the header and the first 8192 bytes of the kernel, with less than a sector to spare. */
  lemma {:induction false} ImageLayout(kernel: seq<Byte>)
    ensures var image, n := Image(kernel), if |kernel| < 8192 then |kernel| else 8192;
            && |image| == 512 + |kernel| && image[512..] == kernel
            && image[0..4] == [0x00, 0x00, 0x00, 0xea] && image[4..8] == [0x56, 0x00, 0x00, 0x00]
            && image[8..12] == [0x08, 0xf0, 0x9f, 0xe5] && image[12..16] == [0, 0, 0, 0]
            && ReadLe16(image, 16) == CopySize(BootLength(|kernel|))
            && (var low: nat, high: nat := image[16], image[17]; var size := low + 256 * high;
                size % 512 == 0 && 512 + n <= size < 512 + n + 512)
            && image[18..20] == [0, 0] && image[20..24] == [1, 0, 0, 0]
            && image[24..28] == [0x00, 0x02, 0x5b, 0xe5]
            && forall i :: 28 <= i < 512 ==> image[i] == 0
  {
    ImageFields(kernel);
    HeaderFirst(kernel);
    ImageWords(Image(kernel), BootLength(|kernel|));
    forall i | 28 <= i < 512
      ensures Image(kernel)[i] == 0
    {
      PaddingZeros(kernel, i);
    }
  }

  lemma LimitIsWhole(len: nat)
    ensures BootLength(len) % ALIGN == 0 <==> len >= MAX_BOOT_PROG_LEN || len % ALIGN == 0
  {
  }

  /** Main result: the header holds the copy size that the file comment documents, the smaller of
      kernel and limit plus ALIGN, exactly for kernels that reach the limit or fill whole sectors.
      For a kernel of one byte it holds 1024, where the comment says 513. */
  lemma {:induction false} DocumentedSizeIff(kernel: seq<Byte>)
    ensures |Image(kernel)| >= 18
    ensures (Image(kernel)[16] as nat) + 256 * (Image(kernel)[17] as nat) == ReadLe16(Image(kernel), 16)
    ensures ReadLe16(Image(kernel), 16) == (if |kernel| < 8192 then |kernel| else 8192) + 512
       <==> |kernel| >= 8192 || |kernel| % 512 == 0
    ensures |kernel| == 1 ==> ReadLe16(Image(kernel), 16) == 1024
  {
    ImageLayout(kernel);
    SizeExact(BootLength(|kernel|));
    LimitIsWhole(|kernel|);
  }

  // ----- The system calls -----

  /** How the next system call goes: it moves at most n bytes, asks to be retried, or fails. A
      script that has run out stands for calls that move all they are asked for. */
  datatype Event = Moves(n: nat) | Again | Fails

  datatype Outcome = Moved(n: nat) | Retry | Failed

  /** A part of a part is a part of the whole. */
  lemma Within(x: seq<Byte>, a: seq<Byte>, b: seq<Byte>, c: seq<Byte>, d: seq<Byte>)
    requires x <= a + b + c
    ensures x <= a + (b + c + d)
  {
    assert a + (b + c + d) == (a + b + c) + d;
  }

  class System {
    var input: seq<Byte>     // not yet read
    var output: seq<Byte>    // written so far
    var readScript: seq<Event>
    var writeScript: seq<Event>

    constructor (kernel: seq<Byte>, rs: seq<Event>, ws: seq<Event>)
      ensures input == kernel && output == [] && readScript == rs && writeScript == ws
    {
      input, output := kernel, [];
      readScript, writeScript := rs, ws;
    }

    /** read(0, buf + offset, count): at the end of the input 0, otherwise at least one byte. */
    method Read(buf: array<Byte>, offset: nat, count: nat) returns (r: Outcome)
      requires offset + count <= buf.Length && count > 0
      modifies this`input, this`readScript, buf
      ensures r.Moved? ==> r.n <= count && r.n <= |old(input)| && (r.n == 0 <==> old(input) == [])
      ensures r.Moved? ==> input == old(input)[r.n..] && buf[offset..offset + r.n] == old(input)[..r.n]
      ensures !r.Moved? ==> input == old(input)
      ensures buf[..offset] == old(buf[..offset])
      ensures old(readScript) == [] ==> readScript == [] && r.Moved? && (r.n == count || r.n == |old(input)|)
      ensures old(readScript) != [] ==> readScript == old(readScript)[1..]
      ensures r == Failed ==> Fails in old(readScript)
    {
      var n := count;
      if readScript != [] {
        var e := readScript[0];
        readScript := readScript[1..];
        if e.Again? {
          return Retry;
        }
        if e.Fails? {
          return Failed;
        }
        n := if 1 <= e.n < count then e.n else if e.n < 1 then 1 else count;
      }
      if n > |input| {
        n := |input|;
      }
      forall i | 0 <= i < n {
        buf[offset + i] := input[i];
      }
      input := input[n..];
      return Moved(n);
    }

    /** write(1, data, |data|). */
    method Write(data: seq<Byte>) returns (r: Outcome)
      modifies this`output, this`writeScript
      ensures r.Moved? ==> r.n <= |data| && output == old(output) + data[..r.n]
      ensures !r.Moved? ==> output == old(output)
      ensures old(writeScript) == [] ==> writeScript == [] && r == Moved(|data|)
      ensures old(writeScript) != [] ==> writeScript == old(writeScript)[1..]
      ensures r == Failed ==> Fails in old(writeScript)
    {
      var n := |data|;
      if writeScript != [] {
        var e := writeScript[0];
        writeScript := writeScript[1..];
        if e.Again? {
          return Retry;
        }
        if e.Fails? {
          return Failed;
        }
        if e.n < n {
          n := e.n;
        }
      }
      output := output + data[..n];
      return Moved(n);
    }

    // ----- The program -----

    /** do_read: as much as there is, up to count bytes, whatever the splits and retries. */
    method DoRead(buf: array<Byte>, count: nat) returns (n: int)
      requires count <= buf.Length
      modifies this`input, this`readScript, buf
      ensures n < 0 ==> n == -1 && Fails in old(readScript)
      ensures n >= 0 ==> n == (if |old(input)| < count then |old(input)| else count)
      ensures n >= 0 ==> buf[..n] == old(input)[..n] && input == old(input)[n..]
      ensures forall e :: e in readScript ==> e in old(readScript)
    {
      var offset := 0;
      while offset < count
        invariant offset <= count && offset <= |old(input)|
        invariant buf[..offset] == old(input)[..offset] && input == old(input)[offset..]
        invariant forall e :: e in readScript ==> e in old(readScript)
        decreases |readScript|, count - offset
      {
        ghost var before := offset;
        var l := Read(buf, offset, count - offset);
        if l.Moved? && l.n == 0 {
          break;
        }
        if l.Retry? {
          continue;
        }
        if l.Failed? {
          return -1;
        }
        offset := offset + l.n;
        ghost var after := buf[..];
        assert after[..offset] == after[..before] + after[before..offset];
        assert old(input)[..offset] == old(input)[..before] + old(input)[before..][..l.n];
      }
      return offset;
    }

    /** do_write: all of it or failure; a failed call has written a first part. */
    method DoWrite(data: seq<Byte>) returns (ok: bool)
      modifies this`output, this`writeScript
      ensures ok ==> output == old(output) + data
      ensures !ok ==> Fails in old(writeScript) && output <= old(output) + data && |output| >= |old(output)|
      ensures forall e :: e in writeScript ==> e in old(writeScript)
    {
      var offset := 0;
      while offset < |data|
        invariant offset <= |data| && output == old(output) + data[..offset]
        invariant forall e :: e in writeScript ==> e in old(writeScript)
        decreases |writeScript|, |data| - offset
      {
        ghost var before := offset;
        var l := Write(data[offset..]);
        if l.Retry? {
          continue;
        }
        if l.Failed? {
          return false;
        }
        offset := offset + l.n;
        assert data[..offset] == data[..before] + data[before..][..l.n];
      }
      assert data[..offset] == data;
      return true;
    }

    /** write_zero. */
    method WriteZero(len: nat) returns (ok: bool)
      modifies this`output, this`writeScript
      ensures ok ==> output == old(output) + Zeros(len)
      ensures !ok ==> Fails in old(writeScript) && output <= old(output) + Zeros(len)
      ensures forall e :: e in writeScript ==> e in old(writeScript)
    {
      for i := 0 to len
        invariant output == old(output) + Zeros(i)
        invariant forall e :: e in writeScript ==> e in old(writeScript)
      {
        var sent := DoWrite([0]);
        if !sent {
          assert Zeros(len) == Zeros(i) + [0] + Zeros(len - i - 1);
          Within(output, old(output), Zeros(i), [0], Zeros(len - i - 1));
          return false;
        }
        assert Zeros(i) + [0] == Zeros(i + 1);
      }
      return true;
    }

    /** main: returns what main returns. */
    method WriteImage() returns (code: int)
      requires output == []
      modifies this
      ensures code == 0 || code == 1 || code == -1
      ensures code == 0 ==> old(input) != [] && output == Image(old(input))
      ensures old(input) == [] ==> code == -1 && output == []
      ensures old(input) != [] ==> output <= Image(old(input))
      ensures old(input) != [] && code != 0 ==> Fails in old(readScript) || Fails in old(writeScript)
      ensures code == -1 ==> |output| <= 512
      ensures code == 1 ==> |output| >= 512
    {
      ghost var kernel := input;
      var boot := new Byte[MAX_BOOT_PROG_LEN];
      var n := DoRead(boot, MAX_BOOT_PROG_LEN);
      if n <= 0 {
        return -1;
      }
      var sent := WriteHeader(n);
      if !sent {
        return -1;
      }
      code := CopyKernel(boot, n, kernel);
    }

    /** The header for a boot program of n bytes, and its padding. */
    method WriteHeader(n: nat) returns (ok: bool)
      requires output == [] && n <= MAX_BOOT_PROG_LEN
      modifies this`output, this`writeScript
      ensures ok ==> output == PaddedHeader(n)
      ensures !ok ==> output <= PaddedHeader(n) && Fails in old(writeScript)
      ensures forall e :: e in writeScript ==> e in old(writeScript)
    {
      var alignedHdrLen := RoundUp(HDR_SIZE);
      Sizes(n);
      ok := DoWrite(Header(n));
      if ok {
        ok := WriteZero(alignedHdrLen - HDR_SIZE);
      }
    }

    /** The body of main's loop: one chunk read and written. The result is the chunk's length, 0
        at the end of the input, or negative after a failure. */
    method CopyChunk(boot: array<Byte>) returns (n: int)
      requires boot.Length == MAX_BOOT_PROG_LEN
      modifies this, boot
      ensures n >= 0 ==> n <= |old(input)| && (n == 0 <==> old(input) == [])
      ensures n >= 0 ==> input == old(input)[n..] && output == old(output) + old(input)[..n]
      ensures n < 0 ==> output <= old(output) + old(input) && |output| >= |old(output)|
      ensures n < 0 ==> Fails in old(readScript) || Fails in old(writeScript)
      ensures forall e :: e in readScript ==> e in old(readScript)
      ensures forall e :: e in writeScript ==> e in old(writeScript)
    {
      n := DoRead(boot, MAX_BOOT_PROG_LEN);
      if n <= 0 {
        return;
      }
      var sent := DoWrite(boot[..n]);
      if !sent {
        assert old(input) == [] + old(input)[..n] + old(input)[n..];
        Within(output, old(output), [], old(input)[..n], old(input)[n..]);
        n := -1;
      }
    }

    /** The last part of main: the boot program, then the rest of the kernel chunk by chunk. */
    method CopyKernel(boot: array<Byte>, n: nat, ghost kernel: seq<Byte>) returns (code: int)
      requires boot.Length == MAX_BOOT_PROG_LEN && n <= boot.Length && n <= |kernel|
      requires boot[..n] == kernel[..n] && input == kernel[n..]
      modifies this, boot
      ensures code == 0 || code == 1
      ensures code == 0 ==> output == old(output) + kernel
      ensures output <= old(output) + kernel && |output| >= |old(output)|
      ensures code != 0 ==> Fails in old(readScript) || Fails in old(writeScript)
    {
      var sent := DoWrite(boot[..n]);
      assert kernel == [] + kernel[..n] + kernel[n..];
      if !sent {
        Within(output, old(output), [], kernel[..n], kernel[n..]);
        return 1;
      }
      var progLen := 1;
      while progLen != 0
        invariant progLen >= 0 && output + input == old(output) + kernel && |output| >= |old(output)|
        invariant progLen == 0 ==> input == []
        invariant forall e :: e in readScript ==> e in old(readScript)
        invariant forall e :: e in writeScript ==> e in old(writeScript)
        decreases |input|, progLen
      {
        ghost var o, i := output, input;
        progLen := CopyChunk(boot);
        if progLen < 0 {
          return 1;
        }
        assert i == i[..progLen] + i[progLen..];
        assert o + i[..progLen] + i[progLen..] == o + i;
      }
      return 0;
    }
  }
}
