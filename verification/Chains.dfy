/**
  Chains of clusters and read_raw_data.  A store gives the cluster size, the allocation table and the
  bytes of each cluster; positions and sizes are the source's 32-bit unsigned numbers.
 */
module Chains {
  import opened Wrappers
  import opened Bits

  const TWO_32: nat := 0x1_0000_0000

  /** The first value that ends a chain: the bad-cluster mark, with the end marks above it. */
  const CHAIN_END: nat := 0xfff7

  /** The largest cluster, 64 KB. */
  const MAX_CLUSTER: nat := 0x1_0000

  type Byte = b: nat | b < 256

  function Wrap(n: nat): nat { n % TWO_32 }

  datatype Store = Store(size: nat, next: nat -> nat, cluster: nat -> seq<Byte>)

  ghost predicate Uniform(st: Store) {
    st.size > 0 && forall i: nat | i >= 2 :: |st.cluster(i)| == st.size
  }

  // ------------------------------------------------------------------- the chain

  /** The cluster number after `k` links from `first`. */
  function Link(st: Store, first: nat, k: nat): nat {
    if k == 0 then first else st.next(Link(st, first, k - 1))
  }

  predicate IsData(index: nat) { 2 <= index < 0xfff7 }

  /** The first `n` links are data clusters. */
  ghost predicate Linked(st: Store, first: nat, n: nat) {
    forall k | 0 <= k < n :: IsData(Link(st, first, k))
  }

  /** The chain holds exactly `n` data clusters. */
  ghost predicate Chain(st: Store, first: nat, n: nat) {
    Linked(st, first, n) && !IsData(Link(st, first, n))
  }

  /** The first `n` clusters of the chain, one after the other. */
  function ChainBytes(st: Store, first: nat, n: nat): seq<Byte> {
    if n == 0 then [] else ChainBytes(st, first, n - 1) + st.cluster(Link(st, first, n - 1))
  }

  /** Where cluster `k` of a chain starts. */
  function Start(st: Store, k: nat): nat {
    if k == 0 then 0 else Start(st, k - 1) + st.size
  }

  lemma {:induction false} StartIsProduct(st: Store, k: nat)
    ensures Start(st, k) == k * st.size
    decreases k
  {
    if k > 0 {
      StartIsProduct(st, k - 1);
      assert k * st.size == (k - 1) * st.size + st.size;
    }
  }

  lemma {:induction false} StartGrows(st: Store, j: nat, k: nat)
    requires j < k
    ensures Start(st, j) + st.size <= Start(st, k)
    decreases k
  {
    if j < k - 1 {
      StartGrows(st, j, k - 1);
    }
  }

  lemma {:induction false} ChainLength(st: Store, first: nat, n: nat)
    requires Uniform(st) && Linked(st, first, n)
    ensures |ChainBytes(st, first, n)| == Start(st, n)
    decreases n
  {
    if n > 0 {
      ChainLength(st, first, n - 1);
      assert IsData(Link(st, first, n - 1));
    }
  }

  /** Bytes `i..j` of cluster `k` are a slice of the chain. */
  lemma {:induction false} ClusterSlice(st: Store, first: nat, n: nat, k: nat, i: nat, j: nat)
    requires Uniform(st) && Linked(st, first, n) && k < n && i <= j <= st.size
    ensures Start(st, k) + st.size <= |ChainBytes(st, first, n)| == Start(st, n)
    ensures |st.cluster(Link(st, first, k))| == st.size
    ensures ChainBytes(st, first, n)[Start(st, k) + i..Start(st, k) + j] == st.cluster(Link(st, first, k))[i..j]
    decreases n
  {
    ChainLength(st, first, n);
    ChainLength(st, first, n - 1);
    StartGrows(st, k, n);
    assert IsData(Link(st, first, k));
    assert IsData(Link(st, first, n - 1));
    if k < n - 1 {
      ClusterSlice(st, first, n - 1, k, i, j);
    }
    InConcat(ChainBytes(st, first, n - 1), st.cluster(Link(st, first, n - 1)), Start(st, k) + i, Start(st, k) + j);
  }

  lemma InConcat(a: seq<Byte>, b: seq<Byte>, i: nat, j: nat)
    requires i <= j <= |a| + |b|
    ensures j <= |a| ==> (a + b)[i..j] == a[i..j]
    ensures |a| <= i ==> (a + b)[i..j] == b[i - |a|..j - |a|]
  {
  }

  lemma Adjacent(s: seq<Byte>, i: nat, j: nat, k: nat)
    requires i <= j <= k <= |s|
    ensures s[i..j] + s[j..k] == s[i..k]
  {
  }

  // ------------------------------------------------------- finite chains are short

  /** From equal links on, the chains are equal. */
  lemma {:induction false} SameTail(st: Store, first: nat, j: nat, k: nat, m: nat)
    requires Link(st, first, j) == Link(st, first, k)
    ensures Link(st, first, j + m) == Link(st, first, k + m)
    decreases m
  {
    if m > 0 {
      SameTail(st, first, j, k, m - 1);
    }
  }

  /** A chain that stops never visits a cluster twice. */
  lemma LinksDistinct(st: Store, first: nat, n: nat, j: nat, k: nat)
    requires Chain(st, first, n) && j < k < n
    ensures Link(st, first, j) != Link(st, first, k)
  {
    if Link(st, first, j) == Link(st, first, k) {
      SameTail(st, first, j, k, n - k);
    }
  }

  /** The cluster numbers of the first `n` links. */
  ghost function Visited(st: Store, first: nat, n: nat): set<nat> {
    if n == 0 then {} else Visited(st, first, n - 1) + {Link(st, first, n - 1)}
  }

  lemma {:induction false} VisitedAt(st: Store, first: nat, m: nat, x: nat)
    requires x in Visited(st, first, m)
    ensures exists k | 0 <= k < m :: Link(st, first, k) == x
    decreases m
  {
    if x != Link(st, first, m - 1) {
      VisitedAt(st, first, m - 1, x);
    }
  }

  lemma {:induction false} VisitedSize(st: Store, first: nat, n: nat, m: nat)
    requires Chain(st, first, n) && m <= n
    ensures |Visited(st, first, m)| == m && forall x | x in Visited(st, first, m) :: IsData(x)
    decreases m
  {
    if m > 0 {
      VisitedSize(st, first, n, m - 1);
      var x := Link(st, first, m - 1);
      assert IsData(x);
      if x in Visited(st, first, m - 1) {
        VisitedAt(st, first, m - 1, x);
        var j :| 0 <= j < m - 1 && Link(st, first, j) == x;
        LinksDistinct(st, first, n, j, m - 1);
      }
    }
  }

  lemma {:induction false} Bounded(s: set<nat>, lo: nat, hi: nat)
    requires lo <= hi && forall x | x in s :: lo <= x < hi
    ensures |s| <= hi - lo
    decreases hi - lo
  {
    if lo == hi {
      assert s == {};
    } else {
      Bounded(s - {hi - 1}, lo, hi - 1);
    }
  }

  /** A chain that stops has at most as many clusters as there are cluster numbers. */
  lemma ChainIsShort(st: Store, first: nat, n: nat)
    requires Chain(st, first, n)
    ensures n <= 65525
  {
    VisitedSize(st, first, n, n);
    Bounded(Visited(st, first, n), 2, CHAIN_END);
  }

  // ------------------------------------------------------------------- reading

  /** The bytes copied, a failed assertion, or a copy that leaves its cluster. */
  datatype RawRead = Bytes(data: seq<Byte>) | Stopped | Overrun

  /** A read from the first `n` clusters of a chain that either stops there or is asked for no more; the
      position is inside the chain or the chain ends with an end mark.  An empty chain is read from 0. */
  ghost predicate Readable(st: Store, first: nat, n: nat, position: nat, size: nat) {
    && Uniform(st) && Linked(st, first, n) && st.size < TWO_32
    && position < TWO_32 && size < TWO_32 && Start(st, n) < position + TWO_32
    && (!IsData(Link(st, first, n)) || position + size <= Start(st, n))
    && (if n == 0 then position == 0 else Link(st, first, n) >= 0xfff7 || position < Start(st, n))
  }

  /** A chain that stops is readable for every position and size. */
  lemma ChainReadable(st: Store, first: nat, n: nat, position: nat, size: nat)
    requires Uniform(st) && st.size <= MAX_CLUSTER && Chain(st, first, n) && position < TWO_32 && size < TWO_32
    requires if n == 0 then position == 0 else Link(st, first, n) >= 0xfff7 || position < Start(st, n)
    ensures Readable(st, first, n, position, size) && Start(st, n) < TWO_32
  {
    ChainIsShort(st, first, n);
    StartIsProduct(st, n);
    AtMost(n, st.size);
  }

  lemma AtMost(n: nat, s: nat)
    requires n <= 65525 && s <= MAX_CLUSTER
    ensures n * s < TWO_32
  {
    SmallerFactor(n, s, MAX_CLUSTER);
  }

  lemma SmallerFactor(n: nat, s: nat, c: nat)
    requires s <= c
    ensures n * s <= n * c
  {
  }

  /** The position is behind the chain. */
  ghost predicate Behind(st: Store, n: nat, position: nat) {
    n > 0 && position >= Start(st, n)
  }

  /** The sum of the first copy's offset and the size overflows, so that its size is not cut. */
  predicate Overflows(offset: nat, size: nat) {
    offset != 0 && offset + size >= TWO_32
  }

  /** Bytes are wanted behind a link that is no cluster number. */
  ghost predicate Broken(st: Store, first: nat, n: nat, position: nat, size: nat) {
    Link(st, first, n) < 2 && position + size > Start(st, n)
  }

  /** What read_raw_data gives for a position with this offset in its cluster. */
  ghost predicate ReadsAs(st: Store, first: nat, n: nat, position: nat, size: nat, offset: nat, r: RawRead) {
    && |ChainBytes(st, first, n)| == Start(st, n)
    && (r.Overrun? <==> !Behind(st, n, position) && Overflows(offset, size))
    && (r.Stopped? <==>
          Behind(st, n, position) || (!Overflows(offset, size) && Broken(st, first, n, position, size)))
    && (r.Bytes? ==>
          && position <= Start(st, n)
          && r.data == ChainBytes(st, first, n)[position..Min(position + size, Start(st, n))])
  }

  /** One of the first `count` links after the first cluster is an end mark. */
  ghost predicate HitsEnd(st: Store, first: nat, count: nat) {
    exists k | 0 < k <= count :: Link(st, first, k) >= 0xfff7
  }

  /** The skip loop: `count` links, each of which must be below the end marks. */
  method SkipClusters(st: Store, first: nat, count: nat) returns (index: Option<nat>)
    ensures index.Some? ==> index.value == Link(st, first, count)
    ensures index == None <==> HitsEnd(st, first, count)
  {
    var x := first;
    for i := 0 to count
      invariant x == Link(st, first, i)
      invariant forall k | 0 < k <= i :: Link(st, first, k) < CHAIN_END
    {
      x := st.next(x);
      if x >= CHAIN_END {
        assert Link(st, first, i + 1) >= CHAIN_END;
        return None;
      }
    }
    return Some(x);
  }

  /** The read so far is the beginning of the slice, and `k` clusters of the chain are behind it. */
  ghost predicate ReadSoFar(st: Store, first: nat, n: nat, position: nat, size: nat, buffer: seq<Byte>, k: nat) {
    && k <= n && |buffer| <= size && position + |buffer| <= |ChainBytes(st, first, n)|
    && buffer == ChainBytes(st, first, n)[position..position + |buffer|]
    && (|buffer| == size || position + |buffer| == Start(st, k))
  }

  /** Cluster and offset of a position. */
  lemma Split(st: Store, position: nat)
    requires st.size > 0
    ensures position == Start(st, position / st.size) + position % st.size && position % st.size < st.size
  {
    StartIsProduct(st, position / st.size);
  }

  /** The skip loop halts exactly when the position is behind the chain. */
  lemma SkipHalts(st: Store, first: nat, n: nat, position: nat, size: nat, count: nat, offset: nat)
    requires Readable(st, first, n, position, size) && position == Start(st, count) + offset && offset < st.size
    ensures HitsEnd(st, first, count) <==> Behind(st, n, position)
    ensures !Behind(st, n, position) ==> count < n || (n == 0 && count == 0 && offset == 0)
  {
    if n == 0 {
      assert count == 0;
    } else if count >= n {
      if count > n {
        StartGrows(st, n, count);
      }
      assert Behind(st, n, position);
      assert 0 < n <= count && Link(st, first, n) >= CHAIN_END;
    } else {
      StartGrows(st, count, n);
      forall k | 0 < k <= count ensures Link(st, first, k) < CHAIN_END {
        assert IsData(Link(st, first, k));
      }
    }
  }

  /** The copy from the middle of the first cluster. */
  lemma FirstPart(st: Store, first: nat, n: nat, position: nat, size: nat, k: nat, offset: nat, m: nat)
    requires Readable(st, first, n, position, size) && position == Start(st, k) + offset && offset < st.size && k < n
    requires m == Min(size, st.size - offset)
    ensures IsData(Link(st, first, k)) && |st.cluster(Link(st, first, k))| == st.size
    ensures ReadSoFar(st, first, n, position, size, st.cluster(Link(st, first, k))[offset..offset + m], k + 1)
  {
    ClusterSlice(st, first, n, k, offset, offset + m);
  }

  /** The copy of the first `m` bytes of a later cluster. */
  lemma NextPart(st: Store, first: nat, n: nat, position: nat, size: nat, buffer: seq<Byte>, k: nat, m: nat)
    requires Readable(st, first, n, position, size) && ReadSoFar(st, first, n, position, size, buffer, k)
    requires |buffer| < size && k < n && m == Min(size - |buffer|, st.size)
    ensures |st.cluster(Link(st, first, k))| == st.size && |buffer| + st.size < TWO_32
    ensures ReadSoFar(st, first, n, position, size, buffer + st.cluster(Link(st, first, k))[..m], k + 1)
  {
    ClusterSlice(st, first, n, k, 0, m);
    Extend(ChainBytes(st, first, n), position, buffer, st.cluster(Link(st, first, k))[..m]);
  }

  lemma Extend(s: seq<Byte>, i: nat, a: seq<Byte>, b: seq<Byte>)
    requires i + |a| + |b| <= |s| && a == s[i..i + |a|] && b == s[i + |a|..i + |a| + |b|]
    ensures a + b == s[i..i + |a + b|]
  {
  }

  /** Where the read can stand when it meets a link. */
  lemma MeetsLink(st: Store, first: nat, n: nat, position: nat, size: nat, buffer: seq<Byte>, k: nat)
    requires Readable(st, first, n, position, size) && ReadSoFar(st, first, n, position, size, buffer, k)
    requires |buffer| < size
    ensures IsData(Link(st, first, k)) ==> k < n
    ensures !IsData(Link(st, first, k)) ==> k == n && position + |buffer| == Start(st, n) == |ChainBytes(st, first, n)|
  {
    ChainLength(st, first, n);
    if k < n {
      assert IsData(Link(st, first, k));
    }
  }

  /** read_raw_data: the slice of the concatenated clusters, cut off at the end of the chain. */
  method ReadRawData(st: Store, first: nat, position: nat, size: nat, ghost n: nat) returns (r: RawRead)
    requires Readable(st, first, n, position, size)
    ensures ReadsAs(st, first, n, position, size, position % st.size, r)
  {
    var cs := st.size;
    var count, offset := position / cs, position % cs;
    Split(st, position);
    r := ReadFrom(st, first, position, size, count, offset, n);
  }

  /** The size of the first copy: cut at the end of the cluster, unless the sum overflows. */
  lemma FirstSize(offset: nat, size: nat, cs: nat)
    requires 0 < offset < cs < TWO_32 && size < TWO_32
    ensures var read := if Wrap(offset + size) <= cs then size else cs - offset;
            && (read > cs - offset <==> Overflows(offset, size))
            && (!Overflows(offset, size) ==> read == Min(size, cs - offset))
  {
  }

  /** The rest of read_raw_data, from the cluster number and offset of the position. */
  method ReadFrom(st: Store, first: nat, position: nat, size: nat, count: nat, offset: nat, ghost n: nat)
    returns (r: RawRead)
    requires Readable(st, first, n, position, size) && position == Start(st, count) + offset && offset < st.size
    ensures ReadsAs(st, first, n, position, size, offset, r)
  {
    ChainLength(st, first, n);
    SkipHalts(st, first, n, position, size, count, offset);
    var at := SkipClusters(st, first, count);
    if at == None {
      return Stopped;
    }
    if offset == 0 {
      r := ReadClusters(st, first, position, size, at.value, [], n, count, offset);
    } else {
      var read := if Wrap(offset + size) <= st.size then size else st.size - offset;
      FirstSize(offset, size, st.size);
      if read > st.size - offset {
        return Overrun;
      }
      FirstPart(st, first, n, position, size, count, offset, read);
      var buffer := st.cluster(at.value)[offset..offset + read];
      r := ReadClusters(st, first, position, size, st.next(at.value), buffer, n, count + 1, offset);
    }
  }

  /** The loop of read_raw_data over whole clusters and the last, partial one. */
  method ReadClusters(st: Store, first: nat, position: nat, size: nat, index0: nat, buffer0: seq<Byte>,
                      ghost n: nat, ghost k0: nat, ghost offset: nat)
    returns (r: RawRead)
    requires Readable(st, first, n, position, size) && !Behind(st, n, position) && !Overflows(offset, size)
    requires ReadSoFar(st, first, n, position, size, buffer0, k0) && index0 == Link(st, first, k0)
    ensures ReadsAs(st, first, n, position, size, offset, r)
  {
    ChainLength(st, first, n);
    var index, buffer, read := index0, buffer0, |buffer0|;
    ghost var k := k0;
    while read < size && index < CHAIN_END
      invariant read == |buffer| && index == Link(st, first, k)
      invariant ReadSoFar(st, first, n, position, size, buffer, k)
      decreases size - read
    {
      MeetsLink(st, first, n, position, size, buffer, k);
      if index < 2 {
        return Stopped;
      }
      ghost var m := Min(size - read, st.size);
      NextPart(st, first, n, position, size, buffer, k, m);
      k := k + 1;
      assert Wrap(read + st.size) == read + st.size;
      if Wrap(read + st.size) >= size {
        assert m == size - read;
        buffer := buffer + st.cluster(index)[..size - read];
        Finished(st, first, n, position, size, buffer, k);
        return Bytes(buffer);
      }
      assert m == st.size;
      buffer := buffer + st.cluster(index)[..st.size];
      read := Wrap(read + st.size);
      index := st.next(index);
    }
    if read < size {
      MeetsLink(st, first, n, position, size, buffer, k);
    }
    Finished(st, first, n, position, size, buffer, k);
    return Bytes(buffer);
  }

  lemma Finished(st: Store, first: nat, n: nat, position: nat, size: nat, buffer: seq<Byte>, k: nat)
    requires Readable(st, first, n, position, size) && ReadSoFar(st, first, n, position, size, buffer, k)
    requires !Behind(st, n, position) && |ChainBytes(st, first, n)| == Start(st, n)
    requires |buffer| == size || (position + |buffer| == Start(st, n) && Link(st, first, n) >= 2)
    ensures !Broken(st, first, n, position, size) && position <= Start(st, n)
    ensures buffer == ChainBytes(st, first, n)[position..Min(position + size, Start(st, n))]
  {
  }
}
