/** The descriptor walk of mpssd's virtio_block: a chain of ring descriptors becomes a scatter
list over one contiguous range of the backend file. */
module VirtioBlock {
  datatype Desc = Desc(len: nat, flags: bv16, next: nat)

  datatype Iovec = Iovec(base: nat, len: nat)

  const VRING_DESC_F_NEXT: bv16 := 1
  const SECTOR_SIZE: nat := 512

  predicate HasNext(d: Desc) {
    d.flags & VRING_DESC_F_NEXT != 0
  }

  /** next_desc: the index of the next descriptor, or -1U at the end of a chain. */
  function NextDesc(d: Desc): nat {
    if HasNext(d) then d.next else 0xffff_ffff
  }

  /** Bit 0 of the flags is VRING_DESC_F_NEXT. */
  lemma NextFlag(d: Desc)
    ensures HasNext(d) <==> d.flags % 2 == 1
  {
  }

  /** path lists the descriptors that a request uses: from its header along the next fields to
      the first one without NEXT, all inside the ring. */
  ghost predicate IsChain(ring: seq<Desc>, head: nat, path: seq<nat>) {
    && path != [] && path[0] == head
    && (forall i :: 0 <= i < |path| ==> path[i] < |ring|)
    && (forall i :: 0 <= i < |path| - 1 ==> HasNext(ring[path[i]]) && path[i + 1] == ring[path[i]].next)
    && !HasNext(ring[path[|path| - 1]])
  }

  /** Because a chain ends, it visits no descriptor twice. */
  lemma {:induction false} NoRevisit(ring: seq<Desc>, head: nat, path: seq<nat>, i: nat, j: nat)
    requires IsChain(ring, head, path) && i < j < |path|
    ensures path[i] != path[j]
    decreases |path| - j
  {
    if path[i] == path[j] {
      if j < |path| - 1 {
        assert path[i + 1] == ring[path[i]].next == ring[path[j]].next == path[j + 1];
        NoRevisit(ring, head, path, i + 1, j + 1);
      }
    }
  }

  ghost function Below(n: nat): set<nat> {
    if n == 0 then {} else Below(n - 1) + {n - 1}
  }

  lemma {:induction false} BelowSize(n: nat, x: nat)
    ensures |Below(n)| == n
    ensures x in Below(n) <==> x < n
  {
    if n > 0 {
      BelowSize(n - 1, x);
      BelowSize(n - 1, n - 1);
    }
  }

  /** Pigeonhole: distinct members of a set are at most as many as the set has. */
  lemma {:induction false} CountDistinct(s: seq<nat>, all: set<nat>)
    requires forall i :: 0 <= i < |s| ==> s[i] in all
    requires forall i, j :: 0 <= i < j < |s| ==> s[i] != s[j]
    ensures |s| <= |all|
  {
    if s != [] {
      var init, last := s[..|s| - 1], s[|s| - 1];
      CountDistinct(init, all - {last});
      assert all == (all - {last}) + {last};
    }
  }

  /** Main result: a chain never needs more scatter entries than seg_max, the ring's size less
      header and status. */
  lemma {:induction false} ChainFits(ring: seq<Desc>, head: nat, path: seq<nat>)
    requires IsChain(ring, head, path)
    ensures |path| <= |ring|
  {
    forall i, j | 0 <= i < j < |path|
      ensures path[i] != path[j]
    {
      NoRevisit(ring, head, path, i, j);
    }
    forall i | 0 <= i < |path|
      ensures path[i] in Below(|ring|)
    {
      BelowSize(|ring|, path[i]);
    }
    BelowSize(|ring|, 0);
    CountDistinct(path, Below(|ring|));
  }

  /** The total length of the first k data descriptors, those after the header. */
  ghost function DataLength(ring: seq<Desc>, path: seq<nat>, k: nat): nat
    requires k < |path| && forall i :: 0 <= i < |path| ==> path[i] < |ring|
  {
    if k == 0 then 0 else DataLength(ring, path, k - 1) + ring[path[k]].len
  }

  /** The scatter entries for the first k data descriptors, over a range from start on. */
  ghost function Scatter(ring: seq<Desc>, path: seq<nat>, start: nat, k: nat): (s: seq<Iovec>)
    requires k < |path| && forall i :: 0 <= i < |path| ==> path[i] < |ring|
    ensures |s| == k
    ensures forall m :: 0 <= m < k ==> s[m] == Iovec(start + DataLength(ring, path, m), ring[path[m + 1]].len)
  {
    if k == 0 then []
    else Scatter(ring, path, start, k - 1) + [Iovec(start + DataLength(ring, path, k - 1), ring[path[k]].len)]
  }

  /** Entry i has the length of the i-th data descriptor, and each begins where the one before ends. */
  ghost predicate Consecutive(s: seq<Iovec>, ring: seq<Desc>, path: seq<nat>, start: nat) {
    && |s| < |path| && (forall i :: 0 <= i < |path| ==> path[i] < |ring|)
    && (forall i :: 0 <= i < |s| ==> s[i].len == ring[path[i + 1]].len)
    && (s != [] ==> s[0].base == start)
    && (forall i :: 0 < i < |s| ==> s[i].base == s[i - 1].base + s[i - 1].len)
  }

  lemma ScatterEntries(ring: seq<Desc>, path: seq<nat>, start: nat, k: nat)
    requires k < |path| && forall i :: 0 <= i < |path| ==> path[i] < |ring|
    ensures Consecutive(Scatter(ring, path, start, k), ring, path, start)
  {
  }

  lemma ChainNext(ring: seq<Desc>, head: nat, path: seq<nat>, i: nat)
    requires IsChain(ring, head, path) && i < |path| && HasNext(ring[path[i]])
    ensures i + 1 < |path| && path[i + 1] == NextDesc(ring[path[i]])
  {
  }

  /** The walk of one request. iovec is the array allocated with seg_max entries. */
  method WalkChain(ring: seq<Desc>, head: nat, sector: nat, backend: nat, iovec: array<Iovec>, ghost path: seq<nat>)
    returns (count: nat, status: nat)
    requires IsChain(ring, head, path) && HasNext(ring[head])
    requires iovec.Length == |ring| - 2
    modifies iovec
    ensures count == |path| - 2 <= iovec.Length
    ensures status == path[|path| - 1]
    ensures iovec[..count] == Scatter(ring, path, backend + sector * 512, count)
    ensures Consecutive(iovec[..count], ring, path, backend + sector * 512)
    ensures iovec[count..] == old(iovec[count..])
  {
    ChainFits(ring, head, path);
    ChainNext(ring, head, path, 0);
    var piov := 0;
    var start := backend + sector * SECTOR_SIZE;
    var fos := start;
    var descIdx := NextDesc(ring[head]);
    while HasNext(ring[descIdx])
      invariant piov + 1 < |path| && descIdx == path[piov + 1]
      invariant fos == start + DataLength(ring, path, piov)
      invariant piov <= iovec.Length && iovec[..piov] == Scatter(ring, path, start, piov)
      invariant iovec[piov..] == old(iovec[piov..])
      decreases |path| - piov
    {
      ChainNext(ring, head, path, piov + 1);
      var desc := ring[descIdx];
      iovec[piov] := Iovec(fos, desc.len);
      fos := fos + desc.len;
      descIdx := NextDesc(desc);
      piov := piov + 1;
    }
    count, status := piov, descIdx;
    ScatterEntries(ring, path, start, piov);
  }

  /** Entry k covers byte x of the backend. */
  ghost predicate Covers(iovec: seq<Iovec>, k: nat, x: nat) {
    k < |iovec| && iovec[k].base <= x < iovec[k].base + iovec[k].len
  }

  lemma {:induction false} LengthGrows(ring: seq<Desc>, path: seq<nat>, k: nat, m: nat)
    requires k <= m < |path| && forall i :: 0 <= i < |path| ==> path[i] < |ring|
    ensures DataLength(ring, path, k) <= DataLength(ring, path, m)
  {
    if k < m {
      LengthGrows(ring, path, k, m - 1);
    }
  }

  lemma {:induction false} FindEntry(ring: seq<Desc>, path: seq<nat>, n: nat, x: nat) returns (k: nat)
    requires n < |path| && forall i :: 0 <= i < |path| ==> path[i] < |ring|
    requires x < DataLength(ring, path, n)
    ensures k < n && DataLength(ring, path, k) <= x < DataLength(ring, path, k + 1)
  {
    if x < DataLength(ring, path, n - 1) {
      k := FindEntry(ring, path, n - 1, x);
    } else {
      k := n - 1;
    }
  }

  lemma EntryBounds(ring: seq<Desc>, path: seq<nat>, start: nat, n: nat, k: nat, x: nat)
    requires k < n < |path| && forall i :: 0 <= i < |path| ==> path[i] < |ring|
    ensures Covers(Scatter(ring, path, start, n), k, x) <==>
              start + DataLength(ring, path, k) <= x < start + DataLength(ring, path, k + 1)
  {
    assert Scatter(ring, path, start, n)[k] == Iovec(start + DataLength(ring, path, k), ring[path[k + 1]].len);
  }

  lemma CoveredInRange(ring: seq<Desc>, path: seq<nat>, start: nat, n: nat, k: nat, x: nat)
    requires n < |path| && forall i :: 0 <= i < |path| ==> path[i] < |ring|
    requires Covers(Scatter(ring, path, start, n), k, x)
    ensures start <= x < start + DataLength(ring, path, n)
  {
    EntryBounds(ring, path, start, n, k, x);
    LengthGrows(ring, path, k + 1, n);
  }

  lemma CoveredOnce(ring: seq<Desc>, path: seq<nat>, start: nat, n: nat, k: nat, m: nat, x: nat)
    requires n < |path| && forall i :: 0 <= i < |path| ==> path[i] < |ring|
    requires Covers(Scatter(ring, path, start, n), k, x) && Covers(Scatter(ring, path, start, n), m, x)
    ensures k == m
  {
    EntryBounds(ring, path, start, n, k, x);
    EntryBounds(ring, path, start, n, m, x);
    if k < m {
      LengthGrows(ring, path, k + 1, m);
    } else if m < k {
      LengthGrows(ring, path, m + 1, k);
    }
  }

  /** Main result: the entries tile the range that starts at the request's sector, in chain order:
      each byte of it is covered once and nothing else is covered. */
  lemma {:induction false} ScatterTiles(ring: seq<Desc>, path: seq<nat>, start: nat, n: nat, x: nat)
    requires n < |path| && forall i :: 0 <= i < |path| ==> path[i] < |ring|
    ensures var iovec := Scatter(ring, path, start, n);
            && ((exists k: nat :: Covers(iovec, k, x)) <==> start <= x < start + DataLength(ring, path, n))
            && forall k: nat, m: nat :: Covers(iovec, k, x) && Covers(iovec, m, x) ==> k == m
  {
    var iovec := Scatter(ring, path, start, n);
    if start <= x < start + DataLength(ring, path, n) {
      var k := FindEntry(ring, path, n, x - start);
      EntryBounds(ring, path, start, n, k, x);
    } else if exists k: nat :: Covers(iovec, k, x) {
      var k: nat :| Covers(iovec, k, x);
      CoveredInRange(ring, path, start, n, k, x);
    }
    forall k: nat, m: nat | Covers(iovec, k, x) && Covers(iovec, m, x)
      ensures k == m
    {
      CoveredOnce(ring, path, start, n, k, m, x);
    }
  }
}
