/**
  The FAT16 volume in memory at FS_BASE: where get_cluster_value and get_cluster_offset look, and what
  a file holds.  The layout follows sections "Boot Sector and BPB" and "FAT Data Structure" of the
  Microsoft FAT32 File System Specification 1.03.
 */
module Fat16 {
  import opened Bits
  import opened Wrappers
  import opened Chains

  const DIR_ENTRY_SIZE: nat := 32

  type U8 = n: nat | n < 0x100
  type U16 = n: nat | n < 0x1_0000

  datatype Bpb = Bpb(
    bytesPerSector: U16, sectorsPerCluster: U8, reserved: U16,
    fatCount: U8, rootEntries: U16, sectorsPerFat: U16)

  /** The boot sector's fields, and the memory at and after the boot sector. */
  datatype Volume = Volume(bpb: Bpb, bytes: nat -> Byte)

  // ------------------------------------------------------------------- the layout

  function ClusterSize(p: Bpb): nat {
    Wrap(p.bytesPerSector * p.sectorsPerCluster)
  }

  function FatOffset(p: Bpb): nat {
    Wrap(p.reserved * p.bytesPerSector)
  }

  /** get_cluster_value: a little-endian 16-bit entry of the first FAT. */
  function FatValue(v: Volume, index: nat): nat {
    var at := FatOffset(v.bpb) + 2 * index;
    v.bytes(at) + 256 * v.bytes(at + 1)
  }

  /** The first byte of the first FAT, right behind the reserved sectors. */
  function FatStart(p: Bpb): nat {
    NonNegative(p.reserved, p.bytesPerSector);
    p.reserved * p.bytesPerSector
  }

  /** The first FAT holds these entries, low byte first. */
  ghost predicate FatHolds(v: Volume, fat: seq<U16>) {
    forall i | 0 <= i < |fat| ::
      v.bytes(FatStart(v.bpb) + 2 * i) == fat[i] % 256 && v.bytes(FatStart(v.bpb) + 2 * i + 1) == fat[i] / 256
  }

  /** get_cluster_value reads back the entry that was written. */
  lemma FatRoundTrip(v: Volume, fat: seq<U16>, i: nat)
    requires FatHolds(v, fat) && i < |fat|
    ensures FatValue(v, i) == fat[i]
  {
    SmallProduct(v.bpb.reserved, v.bpb.bytesPerSector, 0x1_0000, 0x1_0000);
    assert v.bytes(FatStart(v.bpb) + 2 * i) == fat[i] % 256;
  }

  /** get_cluster_offset, for an index that passes its assertion. */
  function ClusterOffset(p: Bpb, index: nat): nat
    requires index >= 2
  {
    var fatSize := Wrap(Wrap(p.fatCount * p.sectorsPerFat) * p.bytesPerSector);
    Wrap(FatOffset(p) + fatSize + p.rootEntries * DIR_ENTRY_SIZE + Wrap((index - 2) * ClusterSize(p)))
  }

  /** The same sum over unbounded numbers. */
  function ExactOffset(p: Bpb, index: nat): int
    requires index >= 2
  {
    p.reserved * p.bytesPerSector + p.fatCount * p.sectorsPerFat * p.bytesPerSector
      + p.rootEntries * DIR_ENTRY_SIZE + (index - 2) * (p.bytesPerSector * p.sectorsPerCluster)
  }

  lemma SmallProduct(a: nat, b: nat, m: nat, n: nat)
    requires a < m && b < n
    ensures 0 <= a * b < m * n
  {
    assert a * b <= a * n;
    assert a * n <= m * n;
  }

  lemma ClusterSizeExact(p: Bpb)
    ensures ClusterSize(p) == p.bytesPerSector * p.sectorsPerCluster < 0x100_0000
  {
    SmallProduct(p.bytesPerSector, p.sectorsPerCluster, 0x1_0000, 0x100);
  }

  lemma WrapSmall(n: nat)
    requires n < TWO_32
    ensures Wrap(n) == n
  {
  }

  lemma NonNegative(a: nat, b: nat)
    ensures a * b >= 0
  {
  }

  /** Without overflow of the whole sum no part of it overflows. */
  lemma OffsetIsExact(p: Bpb, index: nat)
    requires index >= 2 && ExactOffset(p, index) < TWO_32
    ensures ClusterOffset(p, index) == ExactOffset(p, index)
  {
    NonNegative(p.reserved, p.bytesPerSector);
    NonNegative(p.fatCount * p.sectorsPerFat, p.bytesPerSector);
    NonNegative(index - 2, p.bytesPerSector * p.sectorsPerCluster);
    ClusterSizeExact(p);
    SmallProduct(p.fatCount, p.sectorsPerFat, 0x100, 0x1_0000);
    WrapSmall(p.fatCount * p.sectorsPerFat);
    WrapSum(p.reserved * p.bytesPerSector, p.fatCount * p.sectorsPerFat * p.bytesPerSector,
            p.rootEntries * DIR_ENTRY_SIZE, (index - 2) * (p.bytesPerSector * p.sectorsPerCluster));
  }

  lemma WrapSum(a: nat, b: nat, c: nat, d: nat)
    requires a + b + c + d < TWO_32
    ensures Wrap(Wrap(a) + Wrap(b) + c + Wrap(d)) == a + b + c + d
  {
  }

  /** The first sector of a cluster as the FAT specification defines it. */
  function SpecifiedSector(p: Bpb, index: nat): int
    requires index >= 2 && p.bytesPerSector > 0
  {
    var rootDirSectors := (p.rootEntries * 32 + (p.bytesPerSector - 1)) / p.bytesPerSector;
    p.reserved + p.fatCount * p.sectorsPerFat + rootDirSectors + (index - 2) * p.sectorsPerCluster
  }

  lemma RoundedUp(x: nat, b: nat)
    requires b > 0
    ensures (x + (b - 1)) / b * b == x <==> x % b == 0
  {
    var q, r := x / b, x % b;
    assert x == q * b + r;
    if r == 0 {
      DivModUnique(x + (b - 1), b, q, b - 1);
    } else {
      assert (q + 1) * b == q * b + b;
      DivModUnique(x + (b - 1), b, q + 1, r - 1);
    }
  }

  lemma Distribute(a: nat, b: nat, c: nat, d: nat, m: nat)
    ensures (a + b + c + d) * m == a * m + b * m + c * m + d * m
  {
  }

  /** The code finds clusters where the specification puts them exactly when the root directory fills
      whole sectors, as the specification demands of FAT16 volumes. */
  lemma OffsetIsSpecified(p: Bpb, index: nat)
    requires index >= 2 && p.bytesPerSector > 0 && ExactOffset(p, index) < TWO_32
    ensures ClusterOffset(p, index) == SpecifiedSector(p, index) * p.bytesPerSector
            <==> p.rootEntries * DIR_ENTRY_SIZE % p.bytesPerSector == 0
  {
    OffsetIsExact(p, index);
    var b, dir := p.bytesPerSector, p.rootEntries * DIR_ENTRY_SIZE;
    var root := (dir + (b - 1)) / b;
    RoundedUp(dir, b);
    Distribute(p.reserved, p.fatCount * p.sectorsPerFat, root, (index - 2) * p.sectorsPerCluster, b);
    Reorder(index - 2, p.sectorsPerCluster, b);
  }

  lemma Reorder(a: nat, s: nat, b: nat)
    ensures a * s * b == a * (b * s)
  {
  }

  /** Distinct clusters do not overlap, and none overlaps the FATs or the root directory. */
  lemma ClustersDisjoint(p: Bpb, i: nat, j: nat)
    requires 2 <= i < j && ExactOffset(p, j) < TWO_32
    ensures ClusterOffset(p, i) + ClusterSize(p) <= ClusterOffset(p, j)
    ensures p.reserved * p.bytesPerSector + p.fatCount * p.sectorsPerFat * p.bytesPerSector
            + p.rootEntries * DIR_ENTRY_SIZE <= ClusterOffset(p, i)
  {
    var cs := p.bytesPerSector * p.sectorsPerCluster;
    NonNegative(p.bytesPerSector, p.sectorsPerCluster);
    Later(i - 2, j - 2, cs);
    OffsetIsExact(p, j);
    OffsetIsExact(p, i);
    ClusterSizeExact(p);
  }

  lemma Later(a: nat, b: nat, c: nat)
    requires a < b
    ensures 0 <= a * c && a * c + c <= b * c
  {
    NonNegative(b - a - 1, c);
    assert b * c == a * c + c + (b - a - 1) * c;
  }

  // ------------------------------------------------------------------- the store

  function Slice(v: Volume, at: nat, n: nat): (s: seq<Byte>)
    ensures |s| == n && forall i | 0 <= i < n :: s[i] == v.bytes(at + i)
  {
    seq<Byte>(n, i requires 0 <= i => v.bytes(at + i))
  }

  /** The clusters and chains that the code reads from a volume. */
  function View(v: Volume): Store {
    Store(ClusterSize(v.bpb), i => FatValue(v, i),
          i => if i < 2 then [] else Slice(v, ClusterOffset(v.bpb, i), ClusterSize(v.bpb)))
  }

  // ---------------------------------------------------------- the bytes of the volume

  /** The cluster `k` links behind `first` in the FAT. */
  function Follow(fat: seq<U16>, first: nat, k: nat): Option<nat> {
    if k == 0 then Some(first)
    else
      match Follow(fat, first, k - 1)
      case None => None
      case Some(x) => if x < |fat| then Some(fat[x]) else None
  }

  /** Byte `i` of the first sector of cluster `x` and those behind it, by the FAT specification. */
  function SpecifiedByte(p: Bpb, x: nat, i: nat): (at: int)
    requires x >= 2 && p.bytesPerSector > 0
    ensures at == SpecifiedSector(p, x) * p.bytesPerSector + i
    ensures at >= 0
  {
    var dir := p.rootEntries * DIR_ENTRY_SIZE + (p.bytesPerSector - 1);
    NonNegative(p.fatCount, p.sectorsPerFat);
    NonNegative(x - 2, p.sectorsPerCluster);
    assert dir / p.bytesPerSector >= 0;
    NonNegative(SpecifiedSector(p, x), p.bytesPerSector);
    SpecifiedSector(p, x) * p.bytesPerSector + i
  }

  /** The root directory fills whole sectors. */
  predicate WholeSectors(p: Bpb) {
    p.bytesPerSector > 0 && p.rootEntries * 32 % p.bytesPerSector == 0
  }

  /** `b` is byte `q` of the file that starts at cluster `first`: it lies in the cluster that the FAT links
      lead to, at the place of the FAT specification, when that place has a 32-bit offset. */
  ghost predicate OnDisk(v: Volume, fat: seq<U16>, first: nat, q: nat, b: Byte)
    requires Mounted(v) && v.bpb.bytesPerSector > 0
  {
    var cs := ClusterBytes(v.bpb);
    OnDiskAt(v, fat, first, q / cs, q % cs, b)
  }

  /** `b` is byte `i` of the cluster `k` links behind `first`. */
  ghost predicate OnDiskAt(v: Volume, fat: seq<U16>, first: nat, k: nat, i: nat, b: Byte)
    requires v.bpb.bytesPerSector > 0
  {
    match Follow(fat, first, k)
    case None => false
    case Some(x) =>
      2 <= x < 0xfff7 && (ExactOffset(v.bpb, x) < 0x1_0000_0000 ==> b == v.bytes(SpecifiedByte(v.bpb, x, i)))
  }

  /** The cluster size without a wrap. */
  function ClusterBytes(p: Bpb): (cs: nat)
    ensures cs == p.bytesPerSector * p.sectorsPerCluster
  {
    NonNegative(p.bytesPerSector, p.sectorsPerCluster);
    p.bytesPerSector * p.sectorsPerCluster
  }

  /** Every entry of the FAT is where get_cluster_value looks. */
  lemma {:induction false} LinkFollows(v: Volume, fat: seq<U16>, first: nat, n: nat, k: nat)
    requires FatHolds(v, fat) && |fat| == 0x1_0000 && Linked(View(v), first, n) && k < n
    ensures Follow(fat, first, k) == Some(Link(View(v), first, k)) && IsData(Link(View(v), first, k))
    decreases k
  {
    if k > 0 {
      LinkFollows(v, fat, first, n, k - 1);
      FatRoundTrip(v, fat, Link(View(v), first, k - 1));
    }
  }

  /** Every byte of a chain is the byte of the volume that the FAT specification names. */
  lemma ChainOnDisk(v: Volume, fat: seq<U16>, first: nat, n: nat, q: nat)
    requires Mounted(v) && WholeSectors(v.bpb) && FatHolds(v, fat) && |fat| == 0x1_0000
    requires Linked(View(v), first, n) && q < |ChainBytes(View(v), first, n)|
    ensures OnDisk(v, fat, first, q, ChainBytes(View(v), first, n)[q])
  {
    var cs := ClusterBytes(v.bpb);
    ViewUniform(v);
    ClusterSizeExact(v.bpb);
    ByteOfCluster(View(v), first, n, q, cs);
    ClusterOnDisk(v, fat, first, n, q / cs, q % cs);
  }

  lemma ClusterOnDisk(v: Volume, fat: seq<U16>, first: nat, n: nat, k: nat, i: nat)
    requires WholeSectors(v.bpb) && FatHolds(v, fat) && |fat| == 0x1_0000
    requires Linked(View(v), first, n) && k < n && i < |View(v).cluster(Link(View(v), first, k))|
    ensures OnDiskAt(v, fat, first, k, i, View(v).cluster(Link(View(v), first, k))[i])
  {
    LinkFollows(v, fat, first, n, k);
    var x := Link(View(v), first, k);
    if ExactOffset(v.bpb, x) < TWO_32 {
      ViewByte(v, x, i);
    }
  }

  lemma ViewByte(v: Volume, x: nat, i: nat)
    requires x >= 2 && WholeSectors(v.bpb) && i < ClusterSize(v.bpb) && ExactOffset(v.bpb, x) < TWO_32
    ensures View(v).cluster(x)[i] == v.bytes(SpecifiedByte(v.bpb, x, i))
  {
    OffsetIsSpecified(v.bpb, x);
  }

  /** `bytes` are those of the file that starts at cluster `first`, from `position` on, as the FAT and the
      clusters of the volume hold them. */
  ghost predicate FromDisk(v: Volume, first: nat, position: nat, bytes: seq<Byte>) {
    Mounted(v) && WholeSectors(v.bpb) ==>
      forall fat: seq<U16>, j: nat | FatHolds(v, fat) && |fat| == 0x1_0000 && j < |bytes| ::
        OnDisk(v, fat, first, position + j, bytes[j])
  }

  /** What a read gives as data are bytes of the volume. */
  lemma DataFromDisk(v: Volume, first: nat, n: nat, position: nat, end: nat)
    requires Linked(View(v), first, n) && position <= end <= |ChainBytes(View(v), first, n)|
    ensures FromDisk(v, first, position, ChainBytes(View(v), first, n)[position..end])
  {
    var bytes := ChainBytes(View(v), first, n)[position..end];
    if Mounted(v) && WholeSectors(v.bpb) {
      forall fat: seq<U16>, j: nat | FatHolds(v, fat) && |fat| == 0x1_0000 && j < |bytes|
        ensures OnDisk(v, fat, first, position + j, bytes[j])
      {
        ChainOnDisk(v, fat, first, n, position + j);
      }
    }
  }

  /** Byte `q` of a chain is byte `q` modulo the cluster size of its cluster. */
  lemma ByteOfCluster(st: Store, first: nat, n: nat, q: nat, cs: nat)
    requires Uniform(st) && Linked(st, first, n) && q < |ChainBytes(st, first, n)| && cs == st.size
    ensures 0 <= q / cs < n && 0 <= q % cs < |st.cluster(Link(st, first, q / cs))| == cs
    ensures ChainBytes(st, first, n)[q] == st.cluster(Link(st, first, q / cs))[q % cs]
  {
    var k, i := q / cs, q % cs;
    Split(st, q);
    ChainLength(st, first, n);
    if k >= n {
      if k > n {
        StartGrows(st, n, k);
      }
      assert false;
    }
    ClusterSlice(st, first, n, k, i, i + 1);
    assert ChainBytes(st, first, n)[Start(st, k) + i..Start(st, k) + i + 1][0] == ChainBytes(st, first, n)[q];
  }

  /** A volume whose clusters have between 1 and 65536 bytes. */
  predicate Mounted(v: Volume) {
    0 < v.bpb.bytesPerSector * v.bpb.sectorsPerCluster <= MAX_CLUSTER
  }

  lemma ViewUniform(v: Volume)
    requires Mounted(v)
    ensures Uniform(View(v)) && View(v).size <= MAX_CLUSTER
  {
    ClusterSizeExact(v.bpb);
  }

  // ------------------------------------------------------------------- read_file

  /** -1, a failed assertion, a copy that leaves its cluster, or the bytes read. */
  datatype ReadResult = Refused | Halted | Overran | Data(bytes: seq<Byte>)

  /** What read_file gives for a file of this size in a chain with these bytes and clusters of `cs`
      bytes, and the position it leaves.  A broken chain ends with a link that is no cluster number. */
  function ReadAt(chain: seq<Byte>, broken: bool, fileSize: nat, cs: nat, position: nat, size: nat): (ReadResult, nat)
    requires cs > 0 && (chain == [] ==> position == 0)
  {
    ReadFromOffset(chain, broken, fileSize, position % cs, position, size)
  }

  /** The same, for a position with this offset in its cluster. */
  function ReadFromOffset(chain: seq<Byte>, broken: bool, fileSize: nat, offset: nat, position: nat, size: nat)
    : (ReadResult, nat)
    requires chain == [] ==> position == 0
  {
    if Wrap(position + size) > fileSize then (Refused, position)
    else if chain != [] && position >= |chain| then (Halted, position)
    else if Overflows(offset, size) then (Overran, position)
    else if broken && position + size > |chain| then (Halted, position)
    else
      var end := Min(position + size, |chain|);
      (Data(chain[position..end]), end)
  }

  /** What read_file is for: the bytes of the file, or a refusal behind its end.  A read of no bytes
      behind a full last cluster halts. */
  function Intended(content: seq<Byte>, capacity: nat, position: nat, size: nat): (ReadResult, nat) {
    if position + size > |content| then (Refused, position)
    else if capacity > 0 && position >= capacity then (Halted, position)
    else (Data(content[position..position + size]), position + size)
  }

  /** read_file does that if and only if the 32-bit sum of position and size does not wrap into the
      file. */
  lemma ReadIsIntended(chain: seq<Byte>, broken: bool, fileSize: nat, cs: nat, position: nat, size: nat)
    requires 0 < cs && fileSize <= |chain| < TWO_32 && (chain == [] ==> position == 0)
    requires position < TWO_32 && size < TWO_32
    ensures ReadAt(chain, broken, fileSize, cs, position, size) == Intended(chain[..fileSize], |chain|, position, size)
            <==> !(position + size >= TWO_32 && position + size - TWO_32 <= fileSize)
  {
    if position + size < TWO_32 {
      RemainderSmaller(position, cs);
      if position + size <= fileSize {
        assert chain[..fileSize][position..position + size] == chain[position..position + size];
      }
    } else {
      assert Wrap(position + size) == position + size - TWO_32;
    }
  }

  lemma RemainderSmaller(position: nat, cs: nat)
    requires cs > 0
    ensures position % cs <= position
  {
  }

  /** From position 1 of a one-byte file, a read of 2^32 - 1 bytes passes the size check and copies out of
      one cluster. */
  lemma ReadOverruns(chain: seq<Byte>)
    requires |chain| == 512
    ensures ReadAt(chain, false, 1, 512, 1, 0xffff_ffff).0 == Overran
    ensures Intended(chain[..1], 512, 1, 0xffff_ffff).0 == Refused
  {
  }

  /** The intended reads compose. */
  lemma IntendedCompose(content: seq<Byte>, capacity: nat, position: nat, a: nat, b: nat)
    requires |content| <= capacity
    ensures var (x, p) := Intended(content, capacity, position, a);
            var (y, q) := Intended(content, capacity, p, b);
            var (z, s) := Intended(content, capacity, position, a + b);
            && (x.Data? && y.Data? ==> z == Data(x.bytes + y.bytes) && s == q)
            && (z.Data? ==> x.Data? && (y.Data? || (y.Halted? && b == 0 && position + a == capacity)))
  {
    if position + a + b <= |content| {
      Adjacent(content, position, position + a, position + a + b);
    }
  }

  lemma IntendedBounds(content: seq<Byte>, capacity: nat, position: nat, size: nat)
    requires |content| <= capacity && (capacity == 0 ==> position == 0)
    ensures var (x, p) := Intended(content, capacity, position, size);
            p <= position + size && (capacity == 0 ==> p == 0)
  {
  }

  /** Two calls of read_file in a row give the bytes of one larger read and leave the same position, when
      the sum of position and sizes fits 32 bits; the larger read gives bytes exactly when both do, except
      that a second read of no bytes at the very end of the chain halts. */
  lemma ReadsCompose(chain: seq<Byte>, broken: bool, fileSize: nat, cs: nat, position: nat, a: nat, b: nat)
    requires 0 < cs && fileSize <= |chain| < TWO_32 && (chain == [] ==> position == 0)
    requires position + a + b < TWO_32
    ensures var (x, p) := ReadAt(chain, broken, fileSize, cs, position, a);
            && (chain == [] ==> p == 0)
            && var (y, q) := ReadAt(chain, broken, fileSize, cs, p, b);
               var (z, s) := ReadAt(chain, broken, fileSize, cs, position, a + b);
               && (x.Data? && y.Data? ==> z == Data(x.bytes + y.bytes) && s == q)
               && (z.Data? ==> x.Data? && (y.Data? || (y.Halted? && b == 0 && position + a == |chain|)))
  {
    var content, capacity := chain[..fileSize], |chain|;
    ReadIsIntended(chain, broken, fileSize, cs, position, a);
    ReadIsIntended(chain, broken, fileSize, cs, position, a + b);
    var (x, p) := Intended(content, capacity, position, a);
    IntendedBounds(content, capacity, position, a);
    ReadIsIntended(chain, broken, fileSize, cs, p, b);
    IntendedCompose(content, capacity, position, a, b);
  }
}
