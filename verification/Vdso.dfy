/** Symbol look-up of the reference vDSO parser, on decoded tables: when the hash index stands for a
search of the whole symbol table, and when it misses symbols because the linker hashed with another
width; and the version walk, which agrees with a scan of the version definitions. */
module Vdso {
  import opened Common
  import opened Bits
  import opened VdsoHash

  // ----- Tables -----

  datatype Sym = Sym(name: CString, info: bv8, shndx: nat, value: nat)

  /** A version definition with the name of its first auxiliary entry. The entry after it starts
      `next` bytes further on; next == 0 ends the table. */
  datatype Verdef = Verdef(flags: bv16, ndx: bv16, hash: bv64, name: CString, next: nat)

  /** What the init functions leave in vdso_info. */
  datatype Info = Info(
    valid: bool,
    cls: Class,
    loadOffset: nat,
    symtab: seq<Sym>,
    bucket: seq<nat>,
    chain: seq<nat>,
    versym: Option<seq<bv16>>,
    verdef: map<nat, Verdef>)     // by byte offset in the table

  const STT_FUNC: bv8 := 2
  const STB_GLOBAL: bv8 := 1
  const STB_WEAK: bv8 := 2
  const SHN_UNDEF: nat := 0
  const STN_UNDEF: nat := 0
  const VER_FLG_BASE: bv16 := 1

  /** Every entry of the version table leads to another entry. */
  ghost predicate GoodVerdef(t: map<nat, Verdef>) {
    0 in t && forall o :: o in t && t[o].next != 0 ==> o + t[o].next in t
  }

  // ----- Version matching -----

  /** The offsets from o on. */
  ghost function Ahead(t: map<nat, Verdef>, o: nat): set<nat> {
    set x | x in t && x >= o
  }

  /** The definitions of the table in order, from offset o on. */
  ghost function Defs(t: map<nat, Verdef>, o: nat): seq<Verdef>
    requires GoodVerdef(t) && o in t
    decreases Ahead(t, o)
  {
    var d := t[o];
    if d.next == 0 then [d]
    else
      assert o in Ahead(t, o) && o !in Ahead(t, o + d.next);
      [d] + Defs(t, o + d.next)
  }

  predicate IsBase(flags: bv16) {
    flags & VER_FLG_BASE != 0
  }

  /** Bit 15 means "hidden". */
  function Index(ver: bv16): bv16 {
    ver & 0x7fff
  }

  predicate Defines(d: Verdef, ver: bv16) {
    !IsBase(d.flags) && Index(d.ndx) == Index(ver)
  }

  /** Definition j is the first with the index. */
  ghost predicate FirstAt(defs: seq<Verdef>, ver: bv16, j: nat) {
    j < |defs| && Defines(defs[j], ver) && forall i :: 0 <= i < j ==> !Defines(defs[i], ver)
  }

  /** Some definition has the index, and the first that has it carries the hash and the name. */
  ghost predicate VersionMatches(defs: seq<Verdef>, ver: bv16, name: CString, hash: bv64) {
    exists j: nat :: FirstAt(defs, ver, j) && defs[j].hash == hash && defs[j].name == name
  }

  /** In the table's own fields: bit 0 of the flags is clear, and the index is in the low 15 bits. */
  predicate HasIndex(d: Verdef, ver: bv16) {
    IsPlain(d.flags) && SameLow(d.ndx, ver)
  }

  predicate IsPlain(flags: bv16) {
    flags % 2 == 0
  }

  function Low15(a: bv16): bv16 {
    a % 0x8000
  }

  predicate SameLow(a: bv16, b: bv16) {
    Low15(a) == Low15(b)
  }

  ghost predicate FirstWithIndex(defs: seq<Verdef>, ver: bv16, j: nat) {
    j < |defs| && HasIndex(defs[j], ver) && forall i :: 0 <= i < j ==> !HasIndex(defs[i], ver)
  }

  lemma DefinesMeaning(d: Verdef, ver: bv16)
    ensures Defines(d, ver) <==> HasIndex(d, ver)
  {
    PlainMeaning(d.flags);
    LowMeaning(d.ndx, ver);
  }

  lemma PlainMeaning(flags: bv16)
    ensures IsBase(flags) <==> !IsPlain(flags)
  {
  }

  lemma LowMeaning(a: bv16, b: bv16)
    ensures Index(a) == Index(b) <==> SameLow(a, b)
  {
    IndexRemainder(a);
    IndexRemainder(b);
  }

  lemma FirstMeaning(defs: seq<Verdef>, ver: bv16, j: nat)
    ensures FirstAt(defs, ver, j) <==> FirstWithIndex(defs, ver, j)
  {
    forall i | 0 <= i < |defs|
      ensures Defines(defs[i], ver) <==> HasIndex(defs[i], ver)
    {
      DefinesMeaning(defs[i], ver);
    }
  }

  /** What a version match means: the first definition with the index carries both hash and name. */
  lemma {:induction false} VersionMeaning(defs: seq<Verdef>, ver: bv16, name: CString, hash: bv64)
    ensures VersionMatches(defs, ver, name, hash) <==>
              exists j: nat :: FirstWithIndex(defs, ver, j) && defs[j].hash == hash && defs[j].name == name
  {
    forall j: nat
      ensures FirstAt(defs, ver, j) <==> FirstWithIndex(defs, ver, j)
    {
      FirstMeaning(defs, ver, j);
    }
  }

  lemma MatchHere(defs: seq<Verdef>, ver: bv16, name: CString, hash: bv64)
    requires defs != [] && Defines(defs[0], ver)
    ensures VersionMatches(defs, ver, name, hash) <==> defs[0].hash == hash && defs[0].name == name
  {
    assert FirstAt(defs, ver, 0);
  }

  lemma FirstShifts(defs: seq<Verdef>, ver: bv16, j: nat)
    requires defs != [] && !Defines(defs[0], ver)
    ensures FirstAt(defs, ver, j + 1) <==> FirstAt(defs[1..], ver, j)
  {
    var rest := defs[1..];
    assert forall i :: 0 <= i < |rest| ==> rest[i] == defs[i + 1];
    if FirstAt(rest, ver, j) {
      forall i | 0 <= i < j + 1
        ensures !Defines(defs[i], ver)
      {
        if i > 0 {
          assert rest[i - 1] == defs[i];
        }
      }
    }
  }

  lemma MatchLater(defs: seq<Verdef>, ver: bv16, name: CString, hash: bv64)
    requires defs != [] && !Defines(defs[0], ver)
    ensures VersionMatches(defs, ver, name, hash) <==> VersionMatches(defs[1..], ver, name, hash)
  {
    if VersionMatches(defs, ver, name, hash) {
      var j: nat :| FirstAt(defs, ver, j) && defs[j].hash == hash && defs[j].name == name;
      assert j > 0;
      FirstShifts(defs, ver, j - 1);
    }
    if VersionMatches(defs[1..], ver, name, hash) {
      var j: nat :| FirstAt(defs[1..], ver, j) && defs[1..][j].hash == hash && defs[1..][j].name == name;
      FirstShifts(defs, ver, j);
    }
  }

  /** vdso_match_version: the walk ends because the offset only grows. */
  method MatchVersion(t: map<nat, Verdef>, ver: bv16, name: CString, hash: bv64) returns (ok: bool)
    requires GoodVerdef(t)
    ensures ok <==> VersionMatches(Defs(t, 0), ver, name, hash)
  {
    var wanted := Index(ver);
    var def := 0;
    while true
      invariant def in t
      invariant VersionMatches(Defs(t, 0), ver, name, hash) <==> VersionMatches(Defs(t, def), ver, name, hash)
      decreases Ahead(t, def)
    {
      if !IsBase(t[def].flags) && Index(t[def].ndx) == wanted {
        break;
      }
      MatchLater(Defs(t, def), ver, name, hash);
      if t[def].next == 0 {
        return false;
      }
      assert def in Ahead(t, def) && def !in Ahead(t, def + t[def].next);
      def := def + t[def].next;
    }
    MatchHere(Defs(t, def), ver, name, hash);
    return t[def].hash == hash && t[def].name == name;
  }

  // ----- Symbol look-up -----

  /** A defined global or weak function. */
  predicate IsFunction(s: Sym) {
    && s.info & 0xf == STT_FUNC
    && (s.info >> 4 == STB_GLOBAL || s.info >> 4 == STB_WEAK)
    && s.shndx != SHN_UNDEF
  }

  ghost predicate VersionOk(v: Info, i: nat, version: CString)
    requires v.versym.Some? ==> i < |v.versym.value| && GoodVerdef(v.verdef)
  {
    v.versym.Some? ==>
      VersionMatches(Defs(v.verdef, 0), v.versym.value[i], version, Low(Hash(v.cls, version)))
  }

  /** Table entry i is what is looked for. */
  ghost predicate Wanted(v: Info, i: nat, version: CString, name: CString)
    requires Shaped(v) && i < |v.symtab|
  {
    i != STN_UNDEF && IsFunction(v.symtab[i]) && v.symtab[i].name == name && VersionOk(v, i, version)
  }

  /** The indices stay inside the tables. */
  ghost predicate Shaped(v: Info) {
    && |v.bucket| > 0 && |v.chain| == |v.symtab| > 0
    && (forall i :: 0 <= i < |v.bucket| ==> v.bucket[i] < |v.symtab|)
    && (forall i :: 0 <= i < |v.chain| ==> v.chain[i] < |v.symtab|)
    && (v.versym.Some? ==> |v.versym.value| == |v.symtab| && GoodVerdef(v.verdef))
  }

  /** The k-th entry of the chain that starts at c. */
  ghost function Follow(v: Info, c: nat, k: nat): (i: nat)
    requires Shaped(v) && c < |v.symtab|
    ensures i < |v.symtab|
  {
    if k == 0 then c
    else
      var i := Follow(v, c, k - 1);
      if i == STN_UNDEF then STN_UNDEF else v.chain[i]
  }

  ghost predicate Ends(v: Info, c: nat)
    requires Shaped(v) && c < |v.symtab|
  {
    exists k :: Follow(v, c, k) == STN_UNDEF
  }

  ghost predicate OnChain(v: Info, c: nat, i: nat)
    requires Shaped(v) && c < |v.symtab|
  {
    exists k :: Follow(v, c, k) == i
  }

  /** Every chain ends. */
  ghost predicate Chained(v: Info) {
    Shaped(v) && forall b :: 0 <= b < |v.bucket| ==> Ends(v, v.bucket[b])
  }

  /** Every symbol is on the chain of the bucket its own name hashes to, with the hash of width
      `linker`. The linker that filled the buckets need not use the width of the program. */
  ghost predicate PlacedBy(v: Info, linker: Class)
    requires Shaped(v)
  {
    forall i :: 0 < i < |v.symtab| ==> OnChain(v, v.bucket[Bucket(linker, v.symtab[i].name, |v.bucket|)], i)
  }

  /** The symbols were placed by a hash that chooses the searched bucket for the name. */
  ghost predicate Indexed(v: Info, name: CString)
    requires Shaped(v)
  {
    exists linker :: PlacedBy(v, linker) && Bucket(linker, name, |v.bucket|) == Bucket(v.cls, name, |v.bucket|)
  }

  /** How many addresses a pointer has. */
  function Pointers(cls: Class): (n: nat)
    ensures n == Pow2(if cls.Elf32? then 32 else 64)
  {
    Pow32();
    Pow64();
    if cls.Elf32? then 0x1_0000_0000 else 0x1_0000_0000_0000_0000
  }

  lemma Pow64()
    ensures Pow2(64) == 0x1_0000_0000_0000_0000
  {
    Pow32();
    Pow2Split(32, 64);
  }

  /** The address of entry i: load offset plus value, in a pointer. */
  function Address(v: Info, i: nat): (a: nat)
    requires i < |v.symtab|
    ensures a < Pointers(v.cls) && exists k: nat :: v.loadOffset + v.symtab[i].value == a + Pointers(v.cls) * k
  {
    var sum, n := v.loadOffset + v.symtab[i].value, Pointers(v.cls);
    assert sum == sum % n + n * (sum / n);
    sum % n
  }

  // ----- What the tests of flags mean -----

  /** Type function, binding global or weak, defined. */
  lemma FunctionInfo(s: Sym)
    ensures IsFunction(s) <==> (s.info == 0x12 || s.info == 0x22) && s.shndx != 0
  {
  }

  /** Bit 15 of an index does not count. */
  lemma IndexRemainder(ver: bv16)
    ensures Index(ver) == Low15(ver)
  {
  }

  lemma BaseFlag(flags: bv16)
    ensures IsBase(flags) <==> flags % 2 != 0
  {
  }

  lemma {:induction false} StaysEnded(v: Info, c: nat, k: nat, m: nat)
    requires Shaped(v) && c < |v.symtab| && Follow(v, c, k) == STN_UNDEF && k <= m
    ensures Follow(v, c, m) == STN_UNDEF
  {
    if m > k {
      StaysEnded(v, c, k, m - 1);
    }
  }

  /** The k-th entry on the chain that vdso_sym searches for the name. */
  ghost function Entry(v: Info, k: nat, name: CString): (i: nat)
    requires Shaped(v)
    ensures i < |v.symtab|
  {
    Follow(v, v.bucket[Bucket(v.cls, name, |v.bucket|)], k)
  }

  ghost predicate NoneBefore(v: Info, k: nat, version: CString, name: CString)
    requires Shaped(v)
  {
    forall j :: 0 <= j < k ==> !Wanted(v, Entry(v, j, name), version, name)
  }

  ghost predicate FirstOnChain(v: Info, k: nat, version: CString, name: CString)
    requires Shaped(v)
  {
    Wanted(v, Entry(v, k, name), version, name) && NoneBefore(v, k, version, name)
  }

  /** The searched chain holds nothing wanted. */
  ghost predicate NoneOnChain(v: Info, version: CString, name: CString)
    requires Shaped(v)
  {
    forall k: nat :: !Wanted(v, Entry(v, k, name), version, name)
  }

  lemma {:induction false} FirstExists(v: Info, j: nat, version: CString, name: CString)
    requires Shaped(v) && Wanted(v, Entry(v, j, name), version, name)
    ensures exists k: nat :: FirstOnChain(v, k, version, name)
    decreases j
  {
    if NoneBefore(v, j, version, name) {
      assert FirstOnChain(v, j, version, name);
    } else {
      var i :| 0 <= i < j && Wanted(v, Entry(v, i, name), version, name);
      FirstExists(v, i, version, name);
    }
  }

  lemma ChainEnds(v: Info, name: CString) returns (end: nat)
    requires Chained(v)
    ensures forall k: nat :: Entry(v, k, name) != STN_UNDEF ==> k < end
  {
    var c := v.bucket[Bucket(v.cls, name, |v.bucket|)];
    assert Ends(v, c);
    end :| Follow(v, c, end) == STN_UNDEF;
    forall k: nat | Entry(v, k, name) != STN_UNDEF
      ensures k < end
    {
      if k >= end {
        StaysEnded(v, c, end, k);
      }
    }
  }

  lemma NextEntry(v: Info, k: nat, version: CString, name: CString)
    requires Shaped(v) && Entry(v, k, name) != STN_UNDEF
    requires NoneBefore(v, k, version, name) && !Wanted(v, Entry(v, k, name), version, name)
    ensures Entry(v, k + 1, name) == v.chain[Entry(v, k, name)] && NoneBefore(v, k + 1, version, name)
  {
  }

  lemma WalkedAll(v: Info, k: nat, version: CString, name: CString)
    requires Shaped(v) && Entry(v, k, name) == STN_UNDEF && NoneBefore(v, k, version, name)
    ensures NoneOnChain(v, version, name)
  {
    forall j: nat
      ensures !Wanted(v, Entry(v, j, name), version, name)
    {
      if j >= k {
        StaysEnded(v, v.bucket[Bucket(v.cls, name, |v.bucket|)], k, j);
      }
    }
  }

  // ----- What the index finds -----

  /** Main result: if the symbols were placed by a hash that chooses the searched bucket, nothing
      wanted lies outside the searched chain. */
  lemma {:induction false} MissesNothing(v: Info, version: CString, name: CString, i: nat)
    requires Shaped(v) && Indexed(v, name) && i < |v.symtab| && Wanted(v, i, version, name)
    ensures exists k: nat :: FirstOnChain(v, k, version, name)
  {
    var c := v.bucket[Bucket(v.cls, name, |v.bucket|)];
    assert OnChain(v, c, i);
    var j: nat :| Follow(v, c, j) == i;
    assert Entry(v, j, name) == i;
    FirstExists(v, j, version, name);
  }

  /** A table with one global function, placed by the 32-bit hash. */
  ghost function OneSymbol(cls: Class, name: CString, n: nat): Info
    requires n > 0
  {
    var at := Bucket(Elf32, name, n);
    Info(true, cls, 0, [Sym([], 0, 0, 0), Sym(name, 0x12, 1, 1)], seq(n, b => if b == at then 1 else 0), [0, 0], None, map[])
  }

  lemma OneSymbolChains(cls: Class, name: CString, n: nat)
    requires n > 0
    ensures var v := OneSymbol(cls, name, n);
            Chained(v) && forall b :: 0 <= b < n ==> v.bucket[b] == if b == Bucket(Elf32, name, n) then 1 else 0
  {
    var v := OneSymbol(cls, name, n);
    assert Shaped(v);
    assert Follow(v, 0, 0) == STN_UNDEF;
    assert Follow(v, 1, 0) == 1 && Follow(v, 1, 1) == STN_UNDEF;
  }

  lemma OneSymbolPlaced(cls: Class, version: CString, name: CString, n: nat)
    requires n > 0
    ensures Shaped(OneSymbol(cls, name, n))
    ensures PlacedBy(OneSymbol(cls, name, n), Elf32) && Wanted(OneSymbol(cls, name, n), 1, version, name)
  {
    var v := OneSymbol(cls, name, n);
    OneSymbolChains(cls, name, n);
    assert Follow(v, 1, 0) == 1;
    assert OnChain(v, 1, 1);
  }

  /** Wherever the widths choose different buckets, a table placed by the 32-bit hash has a wanted
      symbol that the search does not meet. */
  lemma MissedSymbol(cls: Class, version: CString, name: CString, n: nat)
    requires n > 0 && Bucket(cls, name, n) != Bucket(Elf32, name, n)
    ensures Shaped(OneSymbol(cls, name, n)) && NoneOnChain(OneSymbol(cls, name, n), version, name)
  {
    var v := OneSymbol(cls, name, n);
    OneSymbolChains(cls, name, n);
    forall k: nat
      ensures !Wanted(v, Entry(v, k, name), version, name)
    {
      StaysEnded(v, 0, 0, k);
    }
  }

  /** v has n buckets, was placed by the 32-bit hash and has what is wanted at i. */
  ghost predicate HasPlaced(v: Info, i: nat, version: CString, name: CString, n: nat) {
    |v.bucket| == n && Chained(v) && PlacedBy(v, Elf32) && i < |v.symtab| && Wanted(v, i, version, name)
  }

  /** Searching with width cls finds the name in every such table. */
  ghost predicate FindsPlaced(cls: Class, version: CString, name: CString, n: nat) {
    forall v: Info, i: nat :: v.cls == cls && HasPlaced(v, i, version, name, n) ==> !NoneOnChain(v, version, name)
  }

  /** Main result: tables placed by the 32-bit hash are searched without loss exactly for the names
      and bucket counts on which the widths choose the same bucket. */
  lemma {:induction false} FindsPlacedIff(cls: Class, version: CString, name: CString, n: nat)
    requires n > 0
    ensures FindsPlaced(cls, version, name, n) <==> Bucket(cls, name, n) == Bucket(Elf32, name, n)
  {
    if Bucket(cls, name, n) == Bucket(Elf32, name, n) {
      forall v: Info, i: nat | v.cls == cls && HasPlaced(v, i, version, name, n)
        ensures !NoneOnChain(v, version, name)
      {
        assert Indexed(v, name);
        MissesNothing(v, version, name, i);
      }
    } else {
      OneSymbolChains(cls, name, n);
      OneSymbolPlaced(cls, version, name, n);
      MissedSymbol(cls, version, name, n);
      assert HasPlaced(OneSymbol(cls, name, n), 1, version, name, n);
    }
  }

  /** Main result: a 64-bit program finds every name in such tables exactly when the number of
      buckets divides 2^32. */
  lemma {:induction false} FindsAllIff(version: CString, n: nat)
    requires n > 0
    ensures (forall name: CString :: FindsPlaced(Elf64, version, name, n)) <==> 0x1_0000_0000 % n == 0
  {
    forall name: CString
      ensures FindsPlaced(Elf64, version, name, n) <==> Bucket(Elf64, name, n) == Bucket(Elf32, name, n)
    {
      FindsPlacedIff(Elf64, version, name, n);
    }
    BucketsAgreeIff(n);
    BucketsDiffer(n);
  }

  // ----- vdso_sym -----

  /** The tests that vdso_sym makes of one entry. */
  method Check(v: Info, i: nat, version: CString, name: CString, hash: bv64) returns (ok: bool)
    requires Shaped(v) && 0 < i < |v.symtab| && hash == Low(Hash(v.cls, version))
    ensures ok <==> Wanted(v, i, version, name)
  {
    var sym := v.symtab[i];
    if !IsFunction(sym) || sym.name != name {
      return false;
    }
    if v.versym.Some? {
      ok := MatchVersion(v.verdef, v.versym.value[i], version, hash);
    } else {
      ok := true;
    }
  }

  /** The loop of vdso_sym: the first wanted entry in chain order, or STN_UNDEF if the chain holds
      none. */
  method Walk(v: Info, start: nat, version: CString, name: CString, hash: bv64) returns (chain: nat)
    requires Chained(v) && start == Entry(v, 0, name) && hash == Low(Hash(v.cls, version))
    ensures chain < |v.symtab|
    ensures chain == STN_UNDEF ==> NoneOnChain(v, version, name)
    ensures chain != STN_UNDEF ==> exists k: nat :: FirstOnChain(v, k, version, name) && chain == Entry(v, k, name)
  {
    chain := start;
    ghost var end := ChainEnds(v, name);
    ghost var k := 0;
    while chain != STN_UNDEF
      invariant k <= end && chain == Entry(v, k, name) && NoneBefore(v, k, version, name)
      decreases end - k
    {
      var wanted := Check(v, chain, version, name, hash);
      if wanted {
        assert FirstOnChain(v, k, version, name);
        return;
      }
      NextEntry(v, k, version, name);
      chain := v.chain[chain];
      k := k + 1;
    }
    WalkedAll(v, k, version, name);
  }

  /** vdso_sym: the address of the first wanted entry in chain order, or 0 if the searched chain
      holds none. When the symbols were placed by a hash that chooses the searched bucket, that is
      a search of the whole table. */
  method Lookup(v: Info, version: CString, name: CString) returns (address: nat)
    requires v.valid ==> Chained(v)
    ensures !v.valid ==> address == 0
    ensures v.valid && NoneOnChain(v, version, name) ==> address == 0
    ensures v.valid && !NoneOnChain(v, version, name) ==>
              exists k: nat :: FirstOnChain(v, k, version, name) && address == Address(v, Entry(v, k, name))
    ensures v.valid && (forall i :: 0 <= i < |v.symtab| ==> !Wanted(v, i, version, name)) ==> address == 0
    ensures v.valid && Indexed(v, name) && (exists i :: 0 <= i < |v.symtab| && Wanted(v, i, version, name)) ==>
              exists k: nat :: FirstOnChain(v, k, version, name) && address == Address(v, Entry(v, k, name))
  {
    if !v.valid {
      return 0;
    }
    var full := ElfHash(v.cls, version);
    var h := ElfHash(v.cls, name);
    var chain := Walk(v, v.bucket[Value(h, 64) % |v.bucket|], version, name, Low(full));
    address := if chain == STN_UNDEF then 0 else Address(v, chain);
    if Indexed(v, name) && exists i :: 0 <= i < |v.symtab| && Wanted(v, i, version, name) {
      ghost var i :| 0 <= i < |v.symtab| && Wanted(v, i, version, name);
      MissesNothing(v, version, name, i);
    }
  }
}
