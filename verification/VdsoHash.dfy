/** elf_hash of the reference vDSO parser, with 32-bit and 64-bit `unsigned long`. */
module VdsoHash {
  import opened Bits

  /** A C string without its terminating NUL. */
  type CString = s: seq<bv8> | forall i :: 0 <= i < |s| ==> s[i] != 0

  // ----- elf_hash -----

  /** The width of `unsigned long`. */
  datatype Class = Elf32 | Elf64

  function Low(h: bv64): bv64 {
    h & 0xffffffff
  }

  /** (h << 4) + c in an unsigned long. */
  function Shifted(cls: Class, h: bv64, c: bv8): bv64 {
    if cls.Elf32? then ((h << 4) + (c as bv64)) & 0xffffffff else (h << 4) + (c as bv64)
  }

  function Gap(h: bv64): bv64 {
    h & 0xf0000000
  }

  /** h ^= g >> 24; h &= ~g; */
  function Folded(h: bv64, g: bv64): bv64 {
    (h ^ (g >> 24)) & !g
  }

  /** if (g = h & 0xf0000000) h ^= g >> 24; h &= ~g; */
  function Fold(h: bv64): bv64 {
    var g := Gap(h);
    if g != 0 then Folded(h, g) else h & !g
  }

  function HashStep(cls: Class, h: bv64, c: bv8): bv64 {
    Fold(Shifted(cls, h, c))
  }

  function Hash(cls: Class, name: seq<bv8>): bv64 {
    if name == [] then 0 else HashStep(cls, Hash(cls, name[..|name| - 1]), name[|name| - 1])
  }

  method ElfHash(cls: Class, name: CString) returns (h: bv64)
    ensures h == Hash(cls, name)
  {
    h := 0;
    for i := 0 to |name|
      invariant h == Hash(cls, name[..i])
    {
      assert name[..i + 1][..i] == name[..i];
      h := HashStep(cls, h, name[i]);
    }
    assert name[..|name|] == name;
  }

  predicate Small(h: bv64) {
    h & 0xfffffffff0000000 == 0
  }

  lemma StepSmall(h: bv64, c: bv8)
    ensures Small(HashStep(Elf32, h, c))
  {
  }

  lemma FoldPlain(h: bv64)
    ensures Fold(h) == Folded(h, Gap(h))
  {
    FoldedNothing(h);
  }

  lemma FoldedNothing(h: bv64)
    ensures Folded(h, 0) == h & !0
  {
  }

  lemma GapLow(h: bv64)
    ensures Gap(Low(h)) == Gap(h)
  {
  }

  lemma FoldedLow(h: bv64, g: bv64)
    requires Gap(g) == g
    ensures Low(Folded(h, g)) == Folded(Low(h), g)
  {
  }

  lemma GapGap(h: bv64)
    ensures Gap(Gap(h)) == Gap(h)
  {
  }

  lemma FoldLow(h: bv64)
    ensures Low(Fold(h)) == Fold(Low(h))
  {
    FoldPlain(h);
    FoldPlain(Low(h));
    GapLow(h);
    GapGap(h);
    FoldedLow(h, Gap(h));
  }

  lemma ShiftedLow(h: bv64, c: bv8)
    ensures Low(Shifted(Elf64, h, c)) == Shifted(Elf32, Low(h), c)
  {
  }

  lemma StepLow(h: bv64, c: bv8)
    ensures Low(HashStep(Elf64, h, c)) == HashStep(Elf32, Low(h), c)
  {
    ShiftedLow(h, c);
    FoldLow(Shifted(Elf64, h, c));
  }

  lemma SmallBelow(h: bv64)
    ensures Small(h) <==> h < 0x1000_0000
  {
  }

  /** Main result: with 32 bits the hash stays below 2^28, and its value is the low half of what
      64 bits give, so a hash narrowed to a word does not depend on the width. */
  lemma {:induction false} HashWidth(name: seq<bv8>)
    ensures Small(Hash(Elf32, name)) && Hash(Elf32, name) < 0x1000_0000
    ensures Low(Hash(Elf64, name)) == Hash(Elf32, name)
  {
    SmallBelow(Hash(Elf32, name));
    if name != [] {
      var init, c := name[..|name| - 1], name[|name| - 1];
      HashWidth(init);
      StepSmall(Hash(Elf32, init), c);
      StepLow(Hash(Elf64, init), c);
    }
  }

  // ----- The hash digit by digit -----

  /** 16 h + c in an unsigned long. */
  function Next(cls: Class, h: bv64, c: bv8): bv64 {
    var x := (h << 4) + (c as bv64);
    if cls.Elf32? then x % 0x1_0000_0000 else x
  }

  lemma NextShifted(cls: Class, h: bv64, c: bv8)
    ensures Shifted(cls, h, c) == Next(cls, h, c)
  {
    LowRemainder((h << 4) + (c as bv64));
  }

  lemma LowRemainder(x: bv64)
    ensures x % 0x1_0000_0000 == x & 0xffffffff
  {
  }

  lemma LowestDigit(x: bv64)
    ensures var y := (x ^ ((x & 0xf0000000) >> 24)) & !(x & 0xf0000000); y & 0xf == x & 0xf
  {
  }

  lemma SecondDigit(x: bv64)
    ensures var y := (x ^ ((x & 0xf0000000) >> 24)) & !(x & 0xf0000000); (y >> 4) & 0xf == ((x >> 4) & 0xf) ^ ((x >> 28) & 0xf)
  {
  }

  lemma MiddleDigit(x: bv64)
    ensures var y := (x ^ ((x & 0xf0000000) >> 24)) & !(x & 0xf0000000); (y >> 8) & 0xfffff == (x >> 8) & 0xfffff
  {
  }

  lemma TopDigit(x: bv64)
    ensures var y := (x ^ ((x & 0xf0000000) >> 24)) & !(x & 0xf0000000); (y >> 28) & 0xf == 0
  {
  }

  lemma AboveDigit(x: bv64)
    ensures var y := (x ^ ((x & 0xf0000000) >> 24)) & !(x & 0xf0000000); y >> 32 == x >> 32
  {
  }

  /** y is x with the top digit of its low word moved down onto the second lowest digit. */
  predicate TopMovedDown(x: bv64, y: bv64) {
    && y & 0xf == x & 0xf
    && (y >> 4) & 0xf == ((x >> 4) & 0xf) ^ ((x >> 28) & 0xf)
    && (y >> 8) & 0xfffff == (x >> 8) & 0xfffff
    && (y >> 28) & 0xf == 0
    && y >> 32 == x >> 32
  }

  lemma FoldDigits(x: bv64, y: bv64)
    requires y == Folded(x, Gap(x))
    ensures TopMovedDown(x, y)
  {
    LowestDigit(x);
    SecondDigit(x);
    MiddleDigit(x);
    TopDigit(x);
    AboveDigit(x);
  }

  lemma FoldMoves(x: bv64, y: bv64)
    requires y == Fold(x)
    ensures TopMovedDown(x, y)
  {
    FoldPlain(x);
    FoldDigits(x, y);
  }

  /** Main result: the hash of a name, digit by digit, from that of the name without its last
      character. With x = 16 h + c, the lowest digit and the third to seventh are those of x, the second
      is xored with the eighth, the eighth is 0, and what lies above 32 bits is kept. */
  lemma {:induction false} HashDigits(cls: Class, name: seq<bv8>, c: bv8)
    ensures Hash(cls, []) == 0 && TopMovedDown(Next(cls, Hash(cls, name), c), Hash(cls, name + [c]))
  {
    NextHash(cls, name, c);
    NextShifted(cls, Hash(cls, name), c);
    FoldMoves(Next(cls, Hash(cls, name), c), Hash(cls, name + [c]));
  }

  lemma {:induction false} VersionName(cls: Class)
    ensures Hash(cls, [0x4c, 0x49, 0x4e, 0x55, 0x58, 0x5f, 0x32, 0x2e, 0x36]) == 0x3ae75f6
  {
    VersionStart(cls);
    var four: seq<bv8> := [0x4c, 0x49, 0x4e, 0x55, 0x58];
    VersionSteps(cls);
    NextHash(cls, four, 0x5f);
    NextHash(cls, four + [0x5f], 0x32);
    NextHash(cls, four + [0x5f] + [0x32], 0x2e);
    NextHash(cls, four + [0x5f] + [0x32] + [0x2e], 0x36);
    assert four + [0x5f] + [0x32] + [0x2e] + [0x36] == [0x4c, 0x49, 0x4e, 0x55, 0x58, 0x5f, 0x32, 0x2e, 0x36];
  }

  lemma VersionStart(cls: Class)
    ensures Hash(cls, [0x4c, 0x49, 0x4e, 0x55, 0x58]) == 0x50e3a8
  {
    assert HashStep(cls, 0x0, 0x4c) == 0x4c && HashStep(cls, 0x4c, 0x49) == 0x509;
    assert HashStep(cls, 0x509, 0x4e) == 0x50de && HashStep(cls, 0x50de, 0x55) == 0x50e35 && HashStep(cls, 0x50e35, 0x58) == 0x50e3a8;
    var a: seq<bv8> := [0x4c];
    NextHash(cls, [], 0x4c);
    assert [] + [0x4c] == a;
    NextHash(cls, a, 0x49);
    NextHash(cls, a + [0x49], 0x4e);
    NextHash(cls, a + [0x49] + [0x4e], 0x55);
    NextHash(cls, a + [0x49] + [0x4e] + [0x55], 0x58);
    assert a + [0x49] + [0x4e] + [0x55] + [0x58] == [0x4c, 0x49, 0x4e, 0x55, 0x58];
  }

  lemma VersionSteps(cls: Class)
    ensures HashStep(cls, 0x50e3a8, 0x5f) == 0x50e3adf
    ensures HashStep(cls, 0x50e3adf, 0x32) == 0xe3ae72
    ensures HashStep(cls, 0xe3ae72, 0x2e) == 0xe3ae74e
    ensures HashStep(cls, 0xe3ae74e, 0x36) == 0x3ae75f6
  {
  }

  // ----- When the width shows -----

  function High(h: bv64): bv64 {
    h >> 32
  }

  /** What (l << 4) + c carries out of 32 bits. */
  function Carry(l: bv64, c: bv8): bv64 {
    ((l << 4) + (c as bv64)) >> 32
  }

  function Up(u: bv64, b: bv64): bv64 {
    ((u << 4) + b) & 0xffffffff
  }

  lemma CarryBit(l: bv64, c: bv8)
    requires Small(l)
    ensures Carry(l, c) == 0 || Carry(l, c) == 1
  {
  }

  lemma FoldedHigh(h: bv64)
    ensures High(Folded(h, Gap(h))) == High(h)
  {
  }

  lemma FoldHigh(h: bv64)
    ensures High(Fold(h)) == High(h)
  {
    FoldPlain(h);
    FoldedHigh(h);
  }

  lemma ShiftedHigh(h: bv64, c: bv8)
    requires Small(Low(h))
    ensures High(Shifted(Elf64, h, c)) == Up(High(h), Carry(Low(h), c))
  {
  }

  /** u after k more characters that carry nothing. */
  function Push(u: bv64, k: nat): bv64
    decreases k
  {
    if k == 0 then u else Push(Up(u, 0), k - 1)
  }

  lemma UpFour(u: bv64)
    ensures Up(Up(Up(Up(u, 0), 0), 0), 0) == (u << 16) & 0xffffffff
  {
  }

  /** Eight characters later the upper half is forgotten. */
  lemma PushVanishes(u: bv64)
    ensures Push(u, 8) == 0
  {
    var v := Up(Up(Up(Up(u, 0), 0), 0), 0);
    assert Push(u, 8) == Push(Up(u, 0), 7);
    assert Push(Up(u, 0), 7) == Push(Up(Up(u, 0), 0), 6);
    assert Push(Up(Up(u, 0), 0), 6) == Push(Up(Up(Up(u, 0), 0), 0), 5);
    assert Push(u, 8) == Push(v, 4);
    UpFour(u);
    PushFour(v);
    UpFour(v);
    TwiceSixteen(u);
  }

  lemma PushFour(v: bv64)
    ensures Push(v, 4) == Up(Up(Up(Up(v, 0), 0), 0), 0)
  {
    assert Push(v, 4) == Push(Up(v, 0), 3);
    assert Push(Up(v, 0), 3) == Push(Up(Up(v, 0), 0), 2);
  }

  lemma TwiceSixteen(u: bv64)
    ensures (((u << 16) & 0xffffffff) << 16) & 0xffffffff == 0
  {
  }

  lemma {:induction false} PushZero(k: nat)
    ensures Push(0, k) == 0
    decreases k
  {
    if k > 0 {
      PushZero(k - 1);
    }
  }

  predicate Has(u: bv64, mask: bv64) {
    u & mask != 0
  }

  lemma UpKeeps(u: bv64, mask: bv64, next: bv64)
    requires Has(u, mask) && mask & 0x0fffffff == mask && next == mask << 4
    ensures Has(Up(u, 0), next)
  {
  }

  lemma UpSets(u: bv64)
    ensures Has(Up(u, 1), 1)
  {
  }

  /** The digit 1, d places up, for d < 8. */
  function Digit(d: nat): bv64 {
    if d == 0 then 1
    else if d == 1 then 0x10
    else if d == 2 then 0x100
    else if d == 3 then 0x1000
    else if d == 4 then 0x10000
    else if d == 5 then 0x100000
    else if d == 6 then 0x1000000
    else 0x10000000
  }

  lemma UpDigit(u: bv64, d: nat)
    requires d < 7 && Has(u, Digit(d))
    ensures Has(Up(u, 0), Digit(d + 1))
  {
    if d == 0 {
      UpKeeps(u, 1, 0x10);
    } else if d == 1 {
      UpKeeps(u, 0x10, 0x100);
    } else if d == 2 {
      UpKeeps(u, 0x100, 0x1000);
    } else if d == 3 {
      UpKeeps(u, 0x1000, 0x10000);
    } else if d == 4 {
      UpKeeps(u, 0x10000, 0x100000);
    } else if d == 5 {
      UpKeeps(u, 0x100000, 0x1000000);
    } else {
      UpKeeps(u, 0x1000000, 0x10000000);
    }
  }

  lemma HasSome(u: bv64, mask: bv64)
    requires Has(u, mask)
    ensures u != 0
  {
  }

  lemma {:induction false} PushKeeps(u: bv64, d: nat, k: nat)
    requires d + k <= 7 && Has(u, Digit(d))
    ensures Push(u, k) != 0
    decreases k
  {
    if k == 0 {
      HasSome(u, Digit(d));
    } else {
      UpDigit(u, d);
      PushKeeps(Up(u, 0), d + 1, k - 1);
    }
  }

  /** For each character, whether hashing it overflows 32 bits. */
  function Overflows(name: seq<bv8>): (f: seq<bool>)
    ensures |f| == |name|
  {
    if name == [] then []
    else
      var init := name[..|name| - 1];
      Overflows(init) + [Carry(Hash(Elf32, init), name[|name| - 1]) != 0]
  }

  /** None of the last n flags is set. */
  ghost predicate Quiet(flags: seq<bool>, n: nat) {
    forall i :: 0 <= i < |flags| && |flags| - n <= i ==> !flags[i]
  }

  lemma QuietSplit(flags: seq<bool>, last: bool, n: nat)
    requires n > 0
    ensures Quiet(flags + [last], n) <==> !last && Quiet(flags, n - 1)
  {
    var all := flags + [last];
    assert all[|flags|] == last;
    assert forall i :: 0 <= i < |flags| ==> all[i] == flags[i];
  }

  lemma HighNext(name: seq<bv8>)
    requires name != []
    ensures var init, c := name[..|name| - 1], name[|name| - 1];
            High(Hash(Elf64, name)) == Up(High(Hash(Elf64, init)), Carry(Hash(Elf32, init), c))
  {
    var init, c := name[..|name| - 1], name[|name| - 1];
    HashWidth(init);
    FoldHigh(Shifted(Elf64, Hash(Elf64, init), c));
    ShiftedHigh(Hash(Elf64, init), c);
  }

  lemma PushNext(u: bv64, b: bv64, k: nat)
    requires (b == 0 || b == 1) && k < 8
    ensures Push(Up(u, b), k) == 0 <==> b == 0 && Push(u, k + 1) == 0
  {
    if b == 1 {
      UpSets(u);
      PushKeeps(Up(u, 1), 0, k);
    }
  }

  lemma HighStep(name: seq<bv8>, k: nat)
    requires name != [] && k < 8
    ensures var init, c := name[..|name| - 1], name[|name| - 1];
            Push(High(Hash(Elf64, name)), k) == 0 <==>
              Carry(Hash(Elf32, init), c) == 0 && Push(High(Hash(Elf64, init)), k + 1) == 0
  {
    var init, c := name[..|name| - 1], name[|name| - 1];
    HighNext(name);
    HashWidth(init);
    CarryBit(Hash(Elf32, init), c);
    PushNext(High(Hash(Elf64, init)), Carry(Hash(Elf32, init), c), k);
  }

  lemma {:induction false} HighQuiet(name: seq<bv8>, k: nat)
    requires k <= 8
    ensures Push(High(Hash(Elf64, name)), k) == 0 <==> Quiet(Overflows(name), 8 - k)
  {
    if k == 8 {
      PushVanishes(High(Hash(Elf64, name)));
    } else if name == [] {
      PushZero(k);
    } else {
      var init, c := name[..|name| - 1], name[|name| - 1];
      HighStep(name, k);
      QuietSplit(Overflows(init), Carry(Hash(Elf32, init), c) != 0, 8 - k);
      HighQuiet(init, k + 1);
    }
  }

  lemma SameHalves(h: bv64, l: bv64)
    requires Low(h) == l
    ensures h == l <==> High(h) == 0
  {
  }

  /** Main result: the two widths agree on a name exactly when none of its last eight characters
      overflows 32 bits. */
  lemma {:induction false} WidthsAgree(name: seq<bv8>)
    ensures Hash(Elf64, name) == Hash(Elf32, name) <==> Quiet(Overflows(name), 8)
  {
    HashWidth(name);
    HighQuiet(name, 0);
    SameHalves(Hash(Elf64, name), Hash(Elf32, name));
  }

  lemma NextHash(cls: Class, name: seq<bv8>, c: bv8)
    ensures Hash(cls, name + [c]) == HashStep(cls, Hash(cls, name), c)
  {
    assert (name + [c])[..|name|] == name;
  }

  lemma SixSteps(cls: Class)
    ensures HashStep(cls, 0, 0xff) == 0xff && HashStep(cls, 0xff, 0x0f) == 0xfff
    ensures HashStep(cls, 0xfff, 0x0f) == 0xffff && HashStep(cls, 0xffff, 0x0f) == 0xfffff
    ensures HashStep(cls, 0xfffff, 0x0f) == 0xffffff && HashStep(cls, 0xffffff, 0x0f) == 0xfffffff
  {
  }

  lemma SixCharacters(cls: Class)
    ensures Hash(cls, [0xff, 0x0f, 0x0f, 0x0f, 0x0f, 0x0f]) == 0xfffffff
  {
    SixSteps(cls);
    var a: seq<bv8> := [0xff];
    NextHash(cls, [], 0xff);
    assert [] + [0xff] == a;
    NextHash(cls, a, 0x0f);
    NextHash(cls, a + [0x0f], 0x0f);
    NextHash(cls, a + [0x0f] + [0x0f], 0x0f);
    NextHash(cls, a + [0x0f] + [0x0f] + [0x0f], 0x0f);
    NextHash(cls, a + [0x0f] + [0x0f] + [0x0f] + [0x0f], 0x0f);
    assert a + [0x0f] + [0x0f] + [0x0f] + [0x0f] + [0x0f] == [0xff, 0x0f, 0x0f, 0x0f, 0x0f, 0x0f];
  }

  lemma LastCharacter()
    ensures HashStep(Elf32, 0xfffffff, 0x12) == 2 && HashStep(Elf64, 0xfffffff, 0x12) == 0x100000002
  {
  }

  /** A name on which the widths differ. */
  const WIDE_NAME: CString := [0xff, 0x0f, 0x0f, 0x0f, 0x0f, 0x0f, 0x12]

  lemma WidthsDiffer()
    ensures Hash(Elf32, WIDE_NAME) == 2 && Hash(Elf64, WIDE_NAME) == 0x100000002
  {
    var six: seq<bv8> := [0xff, 0x0f, 0x0f, 0x0f, 0x0f, 0x0f];
    SixCharacters(Elf32);
    SixCharacters(Elf64);
    NextHash(Elf32, six, 0x12);
    NextHash(Elf64, six, 0x12);
    LastCharacter();
    assert six + [0x12] == WIDE_NAME;
  }

  // ----- The bucket index -----

  function Half(h: bv64): bv64 {
    h >> 1
  }

  predicate Odd(h: bv64) {
    h & 1 != 0
  }

  function Masked(h: bv64, m: bv64): bv64 {
    h & m
  }

  /** The number that the low k bits of h stand for. */
  function Value(h: bv64, k: nat): nat {
    if k == 0 then 0 else (if Odd(h) then 1 else 0) + 2 * Value(Half(h), k - 1)
  }

  function Halved(h: bv64, k: nat): bv64 {
    if k == 0 then h else Halved(Half(h), k - 1)
  }

  lemma {:induction false} ValueSplit(h: bv64, j: nat, k: nat)
    ensures Value(h, j + k) == Value(h, j) + Pow2(j) * Value(Halved(h, j), k)
  {
    if j > 0 {
      ValueSplit(Half(h), j - 1, k);
      Doubled(Pow2(j - 1), Value(Halved(h, j), k));
    }
  }

  lemma Doubled(p: nat, v: nat)
    ensures 2 * (p * v) == (2 * p) * v
  {
  }

  /** m has ones in its low k bits and nothing above. */
  predicate IsMask(m: bv64, k: nat) {
    if k == 0 then m == 0 else Odd(m) && IsMask(Half(m), k - 1)
  }

  lemma HalfMasked(h: bv64, m: bv64)
    ensures Half(Masked(h, m)) == Masked(Half(h), Half(m))
  {
  }

  lemma OddMasked(h: bv64, m: bv64)
    requires Odd(m)
    ensures Odd(Masked(h, m)) == Odd(h)
  {
  }

  lemma HalfZero()
    ensures !Odd(0) && Half(0) == 0 && forall h: bv64 :: Masked(h, 0) == 0
  {
  }

  lemma {:induction false} ZeroValue(k: nat)
    ensures Value(0, k) == 0
  {
    HalfZero();
    if k > 0 {
      ZeroValue(k - 1);
    }
  }

  lemma {:induction false} MaskValue(h: bv64, m: bv64, k: nat, j: nat)
    requires IsMask(m, k)
    ensures Value(Masked(h, m), k + j) == Value(h, k)
  {
    if k == 0 {
      HalfZero();
      ZeroValue(j);
    } else {
      OddMasked(h, m);
      HalfMasked(h, m);
      MaskValue(Half(h), Half(m), k - 1, j);
    }
  }

  lemma FourOnes(m: bv64)
    requires m & 0xf == 0xf
    ensures Odd(m) && Odd(Half(m)) && Odd(Half(Half(m))) && Odd(Half(Half(Half(m))))
    ensures Half(Half(Half(Half(m)))) == m >> 4
  {
  }

  lemma MaskGrows(m: bv64, k: nat)
    requires m & 0xf == 0xf && IsMask(m >> 4, k)
    ensures IsMask(m, k + 4)
  {
    FourOnes(m);
    assert IsMask(Half(Half(Half(m))), k + 1);
    assert IsMask(Half(Half(m)), k + 2);
    assert IsMask(Half(m), k + 3);
  }

  lemma LowMask()
    ensures IsMask(0xffffffff, 32)
  {
    MaskGrows(0xf, 0);
    MaskGrows(0xff, 4);
    MaskGrows(0xfff, 8);
    MaskGrows(0xffff, 12);
    MaskGrows(0xfffff, 16);
    MaskGrows(0xffffff, 20);
    MaskGrows(0xfffffff, 24);
    MaskGrows(0xffffffff, 28);
  }

  /** elf_hash(name) % nbucket. */
  function Bucket(cls: Class, name: seq<bv8>, n: nat): (b: nat)
    requires n > 0
    ensures b < n
  {
    Value(Hash(cls, name), 64) % n
  }

  /** What the 64-bit hash has above the 32-bit one, in units of 2^32. */
  function Excess(name: seq<bv8>): nat {
    Value(Halved(Hash(Elf64, name), 32), 32)
  }

  lemma MaskSplit(h: bv64, m: bv64, k: nat, j: nat)
    requires IsMask(m, k)
    ensures Value(h, k + j) == Value(Masked(h, m), k + j) + Pow2(k) * Value(Halved(h, k), j)
  {
    MaskValue(h, m, k, j);
    ValueSplit(h, k, j);
  }

  lemma LowValue(h: bv64, l: bv64)
    requires Low(h) == l
    ensures Value(h, 64) == Value(l, 64) + Pow2(32) * Value(Halved(h, 32), 32)
  {
    LowMask();
    MaskSplit(h, 0xffffffff, 32, 32);
  }

  lemma HashValues(name: seq<bv8>)
    ensures Value(Hash(Elf64, name), 64) == Value(Hash(Elf32, name), 64) + Pow2(32) * Excess(name)
  {
    HashWidth(name);
    LowValue(Hash(Elf64, name), Hash(Elf32, name));
  }

  lemma SameRemainder(x: nat, d: nat, n: nat)
    requires n > 0
    ensures (x + d) % n == x % n <==> d % n == 0
  {
    ModAdd(d, x, n);
    ModAdd(x, d, n);
    ModSub(x + d, x, n);
  }

  /** The widths choose the same bucket exactly when the excess is a multiple of the number of
      buckets. */
  lemma {:induction false} BucketsAgree(name: seq<bv8>, n: nat)
    requires n > 0
    ensures Bucket(Elf64, name, n) == Bucket(Elf32, name, n) <==> (Pow2(32) * Excess(name)) % n == 0
  {
    HashValues(name);
    SameRemainder(Value(Hash(Elf32, name), 64), Pow2(32) * Excess(name), n);
  }

  lemma FourHalves(h: bv64)
    ensures Half(Half(Half(Half(h)))) == h >> 4
  {
  }

  lemma HalvedDigit(h: bv64, k: nat)
    requires k >= 4
    ensures Halved(h, k) == Halved(h >> 4, k - 4)
  {
    FourHalves(h);
    assert Halved(h, k) == Halved(Half(h), k - 1) == Halved(Half(Half(h)), k - 2) == Halved(Half(Half(Half(h))), k - 3);
  }

  lemma WideHalved(k: nat)
    requires k == 32
    ensures Halved(0x100000002, k) == 1
  {
    HalvedDigit(0x100000002, k);
    HalvedDigit(0x10000000, k - 4);
    HalvedDigit(0x1000000, k - 8);
    HalvedDigit(0x100000, k - 12);
    HalvedDigit(0x10000, k - 16);
    HalvedDigit(0x1000, k - 20);
    HalvedDigit(0x100, k - 24);
    HalvedDigit(0x10, k - 28);
  }

  lemma ValueOne(k: nat)
    requires k > 0
    ensures Value(1, k) == 1
  {
    ZeroValue(k - 1);
    assert Odd(1) && Half(1) == 0;
  }

  lemma WideExcess()
    ensures Excess(WIDE_NAME) == 1
  {
    WidthsDiffer();
    WideHalved(32);
    ValueOne(32);
  }

  lemma MultipleRemainder(x: nat, d: nat, n: nat)
    requires n > 0 && x % n == 0
    ensures (x * d) % n == 0
  {
    var q := x / n;
    assert x * d == n * (q * d) + 0 by {
      assert (n * q) * d == n * (q * d);
    }
    ModUnique(x * d, n, q * d, 0);
  }

  /** On the name above the widths choose the same bucket only then. */
  lemma {:induction false} BucketsDiffer(n: nat)
    requires n > 0
    ensures Bucket(Elf64, WIDE_NAME, n) == Bucket(Elf32, WIDE_NAME, n) <==> 0x1_0000_0000 % n == 0
  {
    Pow32();
    WideExcess();
    BucketsAgree(WIDE_NAME, n);
  }

  /** Main result: the width never changes a bucket exactly when the number of buckets divides
      2^32. */
  lemma {:induction false} BucketsAgreeIff(n: nat)
    requires n > 0
    ensures (forall name: CString :: Bucket(Elf64, name, n) == Bucket(Elf32, name, n)) <==> 0x1_0000_0000 % n == 0
  {
    Pow32();
    BucketsDiffer(n);
    if 0x1_0000_0000 % n == 0 {
      forall name: CString
        ensures Bucket(Elf64, name, n) == Bucket(Elf32, name, n)
      {
        BucketsAgree(name, n);
        MultipleRemainder(Pow2(32), Excess(name), n);
      }
    }
  }

  // ----- The number that a word stands for -----

  function Inc(h: bv64): bv64 {
    h + 1
  }

  lemma OddNext(h: bv64)
    requires Odd(h)
    ensures !Odd(Inc(h))
  {
  }

  lemma OddHalf(h: bv64)
    requires Odd(h) && Inc(h) != 0
    ensures Half(Inc(h)) == Inc(Half(h))
  {
  }

  lemma EvenNext(h: bv64)
    requires !Odd(h)
    ensures Odd(Inc(h))
  {
  }

  lemma EvenHalf(h: bv64)
    requires !Odd(h)
    ensures Half(Inc(h)) == Half(h)
  {
  }

  lemma HalfGrows(h: bv64)
    ensures Inc(Half(h)) != 0
  {
  }

  /** Some of the low k bits is not set. */
  predicate HasRoom(h: bv64, k: nat) {
    k > 0 && (!Odd(h) || HasRoom(Half(h), k - 1))
  }

  /** Main result: Value counts, so it is the number that the bits stand for. */
  lemma {:induction false} ValueCounts(h: bv64, k: nat)
    requires HasRoom(h, k) && Inc(h) != 0
    ensures Value(0, k) == 0 && Value(Inc(h), k) == Value(h, k) + 1
  {
    ZeroValue(k);
    if Odd(h) {
      OddNext(h);
      OddHalf(h);
      HalfGrows(h);
      ValueCounts(Half(h), k - 1);
    } else {
      EvenNext(h);
      EvenHalf(h);
    }
  }
}
