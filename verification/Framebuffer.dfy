/** The cfag12864b example: a bit-packed framebuffer of 128 x 64 pixels. */
module Framebuffer {

  const WIDTH: nat := 128
  const HEIGHT: nat := 64
  const BPB: nat := 8
  const SIZE: nat := 1024

  /** CFAG12864B_ADDRESS. */
  function AddressOf(x: nat, y: nat): nat {
    y * WIDTH / BPB + x / BPB
  }

  /** CFAG12864B_BIT. */
  function BitOf(n: nat): bv8 {
    if n == 0 then 1 else if n == 1 then 2 else if n == 2 then 4 else if n == 3 then 8
    else if n == 4 then 16 else if n == 5 then 32 else if n == 6 then 64 else 128
  }

  predicate Lit(byte: bv8, n: nat) {
    byte & BitOf(n) != 0
  }

  function WithBit(byte: bv8, n: nat): bv8 {
    byte | BitOf(n)
  }

  function WithoutBit(byte: bv8, n: nat): bv8 {
    byte & !BitOf(n)
  }

  lemma SetOne(byte: bv8, n: nat, m: nat)
    requires n < 8 && m < 8
    ensures Lit(WithBit(byte, n), m) <==> m == n || Lit(byte, m)
  {
  }

  lemma UnsetOne(byte: bv8, n: nat, m: nat)
    requires n < 8 && m < 8
    ensures Lit(WithoutBit(byte, n), m) <==> m != n && Lit(byte, m)
  {
  }

  lemma AllBits(m: nat)
    requires m < 8
    ensures Lit(0xff, m) && !Lit(0, m)
  {
  }

  /** Pixel number i = y * 128 + x, as format's matrix numbers them. */
  predicate Pixel(buffer: seq<bv8>, i: nat)
    requires |buffer| == SIZE && i < WIDTH * HEIGHT
  {
    Lit(buffer[i / BPB], i % BPB)
  }

  /** The picture that a buffer shows. */
  function Picture(buffer: seq<bv8>): (m: seq<bool>)
    requires |buffer| == SIZE
    ensures |m| == WIDTH * HEIGHT && forall i :: 0 <= i < |m| ==> m[i] == Pixel(buffer, i)
  {
    seq(WIDTH * HEIGHT, i requires 0 <= i < WIDTH * HEIGHT => Pixel(buffer, i))
  }

  lemma {:induction false} PlaceOf(x: nat, y: nat)
    requires x < WIDTH && y < HEIGHT
    ensures AddressOf(x, y) == (y * WIDTH + x) / BPB < SIZE && x % BPB == (y * WIDTH + x) % BPB
    ensures AddressOf(x, y) == 16 * y + x / 8 < 1024
  {
  }

  lemma LitMask(byte: bv8)
    ensures Lit(byte, 0) == (byte & 1 != 0) && Lit(byte, 1) == (byte & 2 != 0)
    ensures Lit(byte, 2) == (byte & 4 != 0) && Lit(byte, 3) == (byte & 8 != 0)
    ensures Lit(byte, 4) == (byte & 16 != 0) && Lit(byte, 5) == (byte & 32 != 0)
    ensures Lit(byte, 6) == (byte & 64 != 0) && Lit(byte, 7) == (byte & 128 != 0)
  {
  }

  lemma EightLit(byte: bv8, x: seq<bool>)
    requires |x| == 8 && forall n :: 0 <= n < 8 ==> x[n] == Lit(byte, n)
    ensures x == [byte & 1 != 0, byte & 2 != 0, byte & 4 != 0, byte & 8 != 0,
                  byte & 16 != 0, byte & 32 != 0, byte & 64 != 0, byte & 128 != 0]
  {
    LitMask(byte);
    assert x[0] == Lit(byte, 0) && x[1] == Lit(byte, 1) && x[2] == Lit(byte, 2) && x[3] == Lit(byte, 3);
  }

  lemma ByteOfPixels(buffer: seq<bv8>, a: nat, n: nat)
    requires |buffer| == SIZE && a < SIZE && n < 8
    ensures Picture(buffer)[8 * a + n] == Lit(buffer[a], n)
  {
    assert (8 * a + n) / BPB == a && (8 * a + n) % BPB == n;
  }

  /** Which bits of which byte a row of eight pixels is, lowest bit first. */
  lemma {:induction false} EightPixels(buffer: seq<bv8>, a: nat, byte: bv8)
    requires |buffer| == SIZE && a < SIZE && byte == buffer[a]
    ensures Picture(buffer)[8 * a..8 * a + 8]
         == [byte & 1 != 0, byte & 2 != 0, byte & 4 != 0, byte & 8 != 0,
             byte & 16 != 0, byte & 32 != 0, byte & 64 != 0, byte & 128 != 0]
  {
    var x := Picture(buffer)[8 * a..8 * a + 8];
    forall n | 0 <= n < 8
      ensures x[n] == Lit(byte, n)
    {
      ByteOfPixels(buffer, a, n);
    }
    EightLit(byte, x);
  }

  /** Replacing one byte changes exactly the pixels of that byte. */
  lemma ByteWritten(buffer: seq<bv8>, a: nat, byte: bv8, i: nat)
    requires |buffer| == SIZE && a < SIZE && i < WIDTH * HEIGHT
    ensures Pixel(buffer[a := byte], i) == if i / BPB == a then Lit(byte, i % BPB) else Pixel(buffer, i)
  {
  }

  lemma SetPicture(buffer: seq<bv8>, p: nat)
    requires |buffer| == SIZE && p < WIDTH * HEIGHT
    ensures Picture(buffer[p / BPB := WithBit(buffer[p / BPB], p % BPB)]) == Picture(buffer)[p := true]
  {
    var byte := WithBit(buffer[p / BPB], p % BPB);
    forall i | 0 <= i < WIDTH * HEIGHT
      ensures Pixel(buffer[p / BPB := byte], i) == (i == p || Pixel(buffer, i))
    {
      ByteWritten(buffer, p / BPB, byte, i);
      SetOne(buffer[p / BPB], p % BPB, i % BPB);
    }
  }

  lemma UnsetPicture(buffer: seq<bv8>, p: nat)
    requires |buffer| == SIZE && p < WIDTH * HEIGHT
    ensures Picture(buffer[p / BPB := WithoutBit(buffer[p / BPB], p % BPB)]) == Picture(buffer)[p := false]
  {
    var byte := WithoutBit(buffer[p / BPB], p % BPB);
    forall i | 0 <= i < WIDTH * HEIGHT
      ensures Pixel(buffer[p / BPB := byte], i) == (i != p && Pixel(buffer, i))
    {
      ByteWritten(buffer, p / BPB, byte, i);
      UnsetOne(buffer[p / BPB], p % BPB, i % BPB);
    }
  }

  lemma SetAt(buffer: seq<bv8>, x: nat, y: nat)
    requires |buffer| == SIZE && x < WIDTH && y < HEIGHT
    ensures AddressOf(x, y) < SIZE
    ensures Picture(buffer[AddressOf(x, y) := WithBit(buffer[AddressOf(x, y)], x % BPB)])
         == Picture(buffer)[y * WIDTH + x := true]
  {
    PlaceOf(x, y);
    SetPicture(buffer, y * WIDTH + x);
  }

  lemma UnsetAt(buffer: seq<bv8>, x: nat, y: nat)
    requires |buffer| == SIZE && x < WIDTH && y < HEIGHT
    ensures AddressOf(x, y) < SIZE
    ensures Picture(buffer[AddressOf(x, y) := WithoutBit(buffer[AddressOf(x, y)], x % BPB)])
         == Picture(buffer)[y * WIDTH + x := false]
  {
    PlaceOf(x, y);
    UnsetPicture(buffer, y * WIDTH + x);
  }

  /** A picture with every pixel v. */
  function Plain(v: bool): (m: seq<bool>)
    ensures |m| == WIDTH * HEIGHT && forall i :: 0 <= i < |m| ==> m[i] == v
  {
    seq(WIDTH * HEIGHT, _ => v)
  }

  /** The byte that format builds from eight matrix entries, after the first n of them. */
  function Pack(matrix: seq<bv8>, a: nat, n: nat): bv8
    requires |matrix| == WIDTH * HEIGHT && a < SIZE && n <= BPB
  {
    if n == 0 then 0
    else if matrix[a * BPB + n - 1] != 0 then WithBit(Pack(matrix, a, n - 1), n - 1)
    else Pack(matrix, a, n - 1)
  }

  lemma {:induction false} PackBits(matrix: seq<bv8>, a: nat, n: nat, m: nat)
    requires |matrix| == WIDTH * HEIGHT && a < SIZE && n <= BPB && m < BPB
    ensures Lit(Pack(matrix, a, n), m) <==> m < n && matrix[a * BPB + m] != 0
  {
    if n == 0 {
      AllBits(m);
    } else {
      PackBits(matrix, a, n - 1, m);
      SetOne(Pack(matrix, a, n - 1), n - 1, m);
    }
  }

  /** The picture of a matrix: a pixel is on where the entry is not zero. */
  function MatrixPicture(matrix: seq<bv8>): (m: seq<bool>)
    requires |matrix| == WIDTH * HEIGHT
    ensures |m| == WIDTH * HEIGHT && forall i :: 0 <= i < |m| ==> m[i] == (matrix[i] != 0)
  {
    seq(WIDTH * HEIGHT, i requires 0 <= i < WIDTH * HEIGHT => matrix[i] != 0)
  }

  lemma PackedPicture(matrix: seq<bv8>, buffer: seq<bv8>)
    requires |matrix| == WIDTH * HEIGHT && |buffer| == SIZE
    requires forall a :: 0 <= a < SIZE ==> buffer[a] == Pack(matrix, a, BPB)
    ensures Picture(buffer) == MatrixPicture(matrix)
  {
    forall i | 0 <= i < WIDTH * HEIGHT
      ensures Pixel(buffer, i) == (matrix[i] != 0)
    {
      PackBits(matrix, i / BPB, BPB, i % BPB);
    }
  }

  // ----- Operations on a plain matrix of pixels -----

  datatype Op =
    | OpSet(x: nat, y: nat)
    | OpUnset(x: nat, y: nat)
    | OpNot(x: nat, y: nat)
    | OpFill
    | OpClear
    | OpFormat(matrix: seq<bv8>)
    | OpNegate

  predicate OnDisplay(x: nat, y: nat) {
    x < WIDTH && y < HEIGHT
  }

  predicate Legal(op: Op) {
    match op
    case OpSet(x, y) => OnDisplay(x, y)
    case OpUnset(x, y) => OnDisplay(x, y)
    case OpNot(x, y) => OnDisplay(x, y)
    case OpFormat(matrix) => |matrix| == WIDTH * HEIGHT
    case _ => true
  }

  function Negative(m: seq<bool>): (r: seq<bool>)
    ensures |r| == |m| && forall p :: 0 <= p < |m| ==> r[p] == !m[p]
  {
    seq(|m|, p requires 0 <= p < |m| => !m[p])
  }

  function OnPicture(m: seq<bool>, op: Op): (r: seq<bool>)
    requires |m| == WIDTH * HEIGHT && Legal(op)
    ensures |r| == WIDTH * HEIGHT
  {
    match op
    case OpSet(x, y) => m[y * WIDTH + x := true]
    case OpUnset(x, y) => m[y * WIDTH + x := false]
    case OpNot(x, y) => m[y * WIDTH + x := !m[y * WIDTH + x]]
    case OpFill => Plain(true)
    case OpClear => Plain(false)
    case OpFormat(matrix) => MatrixPicture(matrix)
    case OpNegate => Negative(m)
  }

  function RunPicture(m: seq<bool>, ops: seq<Op>): (r: seq<bool>)
    requires |m| == WIDTH * HEIGHT && forall i :: 0 <= i < |ops| ==> Legal(ops[i])
    ensures |r| == WIDTH * HEIGHT
  {
    if ops == [] then m else OnPicture(RunPicture(m, ops[..|ops| - 1]), ops[|ops| - 1])
  }

  lemma NextInColumn(p: nat, i: nat, j: nat)
    requires i < WIDTH
    ensures p % WIDTH == i && p < (j + 1) * WIDTH <==> p == j * WIDTH + i || (p % WIDTH == i && p < j * WIDTH)
  {
  }

  class Display {
    const buffer: array<bv8>

    constructor ()
      ensures buffer.Length == SIZE && fresh(buffer)
    {
      buffer := new bv8[SIZE];
    }

    ghost predicate Valid() {
      buffer.Length == SIZE
    }

    ghost function Shown(): seq<bool>
      requires Valid()
      reads this, buffer
    {
      Picture(buffer[..])
    }

    /** Write one byte of the buffer. */
    method Put(a: nat, byte: bv8)
      requires Valid() && a < SIZE
      modifies buffer
      ensures buffer[..] == old(buffer[..])[a := byte]
    {
      buffer[a] := byte;
    }

    method Set(x: nat, y: nat)
      requires Valid() && x < WIDTH && y < HEIGHT
      modifies buffer
      ensures Shown() == old(Shown())[y * WIDTH + x := true]
    {
      SetAt(buffer[..], x, y);
      Put(AddressOf(x, y), WithBit(buffer[AddressOf(x, y)], x % BPB));
    }

    method Unset(x: nat, y: nat)
      requires Valid() && x < WIDTH && y < HEIGHT
      modifies buffer
      ensures Shown() == old(Shown())[y * WIDTH + x := false]
    {
      UnsetAt(buffer[..], x, y);
      Put(AddressOf(x, y), WithoutBit(buffer[AddressOf(x, y)], x % BPB));
    }

    method IsSet(x: nat, y: nat) returns (r: bool)
      requires Valid() && x < WIDTH && y < HEIGHT
      ensures r == Shown()[y * WIDTH + x]
    {
      PlaceOf(x, y);
      r := Lit(buffer[AddressOf(x, y)], x % BPB);
    }

    method Not(x: nat, y: nat)
      requires Valid() && x < WIDTH && y < HEIGHT
      modifies buffer
      ensures Shown() == old(Shown())[y * WIDTH + x := !old(Shown())[y * WIDTH + x]]
    {
      var on := IsSet(x, y);
      if on {
        Unset(x, y);
      } else {
        Set(x, y);
      }
    }

    method Fill()
      requires Valid()
      modifies buffer
      ensures Shown() == Plain(true)
    {
      for i := 0 to SIZE
        invariant forall a :: 0 <= a < i ==> buffer[a] == 0xff
      {
        buffer[i] := 0xff;
      }
      forall i | 0 <= i < WIDTH * HEIGHT
        ensures Pixel(buffer[..], i)
      {
        AllBits(i % BPB);
      }
    }

    method Clear()
      requires Valid()
      modifies buffer
      ensures Shown() == Plain(false)
    {
      for i := 0 to SIZE
        invariant forall a :: 0 <= a < i ==> buffer[a] == 0
      {
        buffer[i] := 0;
      }
      forall i | 0 <= i < WIDTH * HEIGHT
        ensures !Pixel(buffer[..], i)
      {
        AllBits(i % BPB);
      }
    }

    method Format(matrix: seq<bv8>)
      requires Valid() && |matrix| == WIDTH * HEIGHT
      modifies buffer
      ensures Shown() == MatrixPicture(matrix)
      ensures forall i :: 0 <= i < 128 * 64 ==> Shown()[i] == (matrix[i] != 0)
    {
      for i := 0 to HEIGHT
        invariant forall a :: 0 <= a < i * 16 ==> buffer[a] == Pack(matrix, a, BPB)
      {
        for j := 0 to WIDTH / BPB
          invariant forall a :: 0 <= a < i * 16 + j ==> buffer[a] == Pack(matrix, a, BPB)
        {
          FormatByte(matrix, i, j);
        }
      }
      PackedPicture(matrix, buffer[..]);
    }

    /** The innermost loop of format: eight matrix entries into one byte. */
    method FormatByte(matrix: seq<bv8>, i: nat, j: nat)
      requires Valid() && |matrix| == WIDTH * HEIGHT && i < HEIGHT && j < WIDTH / BPB
      modifies buffer
      ensures buffer[i * 16 + j] == Pack(matrix, i * 16 + j, BPB)
      ensures forall a :: 0 <= a < SIZE && a != i * 16 + j ==> buffer[a] == old(buffer[a])
    {
      var a := i * WIDTH / BPB + j;
      buffer[a] := 0;
      for n := 0 to BPB
        invariant buffer[a] == Pack(matrix, a, n)
        invariant forall b :: 0 <= b < SIZE && b != a ==> buffer[b] == old(buffer[b])
      {
        if matrix[i * WIDTH + j * BPB + n] != 0 {
          buffer[a] := WithBit(buffer[a], n);
        }
      }
    }

    /** Example 6, the negative: the double loop meets every pixel exactly once. */
    method Negate()
      requires Valid()
      modifies buffer
      ensures Shown() == Negative(old(Shown()))
    {
      for i := 0 to WIDTH
        invariant forall p :: 0 <= p < WIDTH * HEIGHT ==> Shown()[p] == (old(Shown())[p] != (p % WIDTH < i))
      {
        NegateColumn(i);
      }
    }

    method NegateColumn(i: nat)
      requires Valid() && i < WIDTH
      modifies buffer
      ensures forall p :: 0 <= p < WIDTH * HEIGHT ==> Shown()[p] == (old(Shown())[p] != (p % WIDTH == i))
    {
      ghost var before := Shown();
      for j := 0 to HEIGHT
        invariant forall p :: 0 <= p < WIDTH * HEIGHT ==>
                    Shown()[p] == (before[p] != (p % WIDTH == i && p < j * WIDTH))
      {
        forall p | 0 <= p < WIDTH * HEIGHT
          ensures p % WIDTH == i && p < (j + 1) * WIDTH <==> p == j * WIDTH + i || (p % WIDTH == i && p < j * WIDTH)
        {
          NextInColumn(p, i, j);
        }
        Not(i, j);
      }
    }

    /** Main result: any sequence of operations shows the picture that the same sequence builds on
        a plain matrix. */
    method Run(ops: seq<Op>)
      requires Valid() && forall i :: 0 <= i < |ops| ==> Legal(ops[i])
      modifies buffer
      ensures Shown() == RunPicture(old(Shown()), ops)
    {
      for n := 0 to |ops|
        invariant Shown() == RunPicture(old(Shown()), ops[..n])
      {
        assert ops[..n + 1][..n] == ops[..n];
        Do(ops[n]);
      }
      assert ops[..|ops|] == ops;
    }

    method Do(op: Op)
      requires Valid() && Legal(op)
      modifies buffer
      ensures Shown() == OnPicture(old(Shown()), op)
    {
      match op
      case OpSet(x, y) => Set(x, y);
      case OpUnset(x, y) => Unset(x, y);
      case OpNot(x, y) => Not(x, y);
      case OpFill => Fill();
      case OpClear => Clear();
      case OpFormat(matrix) => Format(matrix);
      case OpNegate => Negate();
    }
  }
}
