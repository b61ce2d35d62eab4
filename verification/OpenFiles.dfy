/** open_file, close_file and the file parts of fork and wait, in place on the two tables. */
module OpenFiles {
  import opened Bits
  import opened Wrappers
  import opened FileTable
  import opened Chains
  import opened Fat16

  /** The file's clusters form a chain of exactly `n` clusters. */
  ghost predicate FileOn(st: Store, file: Meta, n: nat) {
    Uniform(st) && st.size <= MAX_CLUSTER && Chain(st, file.cluster, n)
  }

  /** The position is inside the chain, or the chain has a proper end mark; without clusters it is 0. */
  ghost predicate PositionOk(st: Store, file: Meta, n: nat, position: nat) {
    && position < TWO_32
    && if n == 0 then position == 0 else Link(st, file.cluster, n) >= 0xfff7 || position < Start(st, n)
  }

  /** The size check and the read of read_file, with the position it leaves. */
  method ReadContent(st: Store, file: Meta, position: nat, size: nat, ghost n: nat)
    returns (r: ReadResult, end: nat)
    requires FileOn(st, file, n) && PositionOk(st, file, n, position) && size < TWO_32
    ensures |ChainBytes(st, file.cluster, n)| == Start(st, n) < TWO_32
    ensures ReadGives(st, file, n, position, size, r, end)
    ensures r.Data? ==> end == position + |r.bytes|
  {
    ChainLength(st, file.cluster, n);
    ChainReadable(st, file.cluster, n, position, size);
    if Wrap(position + size) > file.size {
      RefusedGives(st, file, n, position, size);
      return Refused, position;
    }
    var raw := ReadRawData(st, file.cluster, position, size, n);
    RawGives(st, file, n, position, size, raw);
    return ResultOf(raw), EndOf(position, raw);
  }

  lemma RefusedGives(st: Store, file: Meta, n: nat, position: nat, size: nat)
    requires FileOn(st, file, n) && PositionOk(st, file, n, position) && Wrap(position + size) > file.size
    ensures ReadGives(st, file, n, position, size, Refused, position)
  {
    NotEmpty(st, file, n);
  }

  lemma NotEmpty(st: Store, file: Meta, n: nat)
    requires FileOn(st, file, n)
    ensures n > 0 <==> ChainBytes(st, file.cluster, n) != []
  {
    ChainLength(st, file.cluster, n);
    if n > 0 {
      StartGrows(st, 0, n);
    }
  }

  function ResultOf(raw: RawRead): ReadResult {
    match raw
    case Bytes(data) => Data(data)
    case Stopped => Halted
    case Overrun => Overran
  }

  /** process->file[fd]->position += read_size, over 32 bits. */
  function EndOf(position: nat, raw: RawRead): nat {
    if raw.Bytes? then Wrap(position + |raw.data|) else position
  }

  /** The outcome of read_raw_data after the size check, as the outcome of read_file. */
  lemma RawGives(st: Store, file: Meta, n: nat, position: nat, size: nat, raw: RawRead)
    requires FileOn(st, file, n) && PositionOk(st, file, n, position) && size < TWO_32
    requires Wrap(position + size) <= file.size && Start(st, n) < TWO_32
    requires ReadsAs(st, file.cluster, n, position, size, position % st.size, raw)
    ensures ReadGives(st, file, n, position, size, ResultOf(raw), EndOf(position, raw))
    ensures raw.Bytes? ==> EndOf(position, raw) == position + |raw.data|
  {
    RawResult(st, file, n, position, size, position % st.size, raw);
  }

  lemma RawResult(st: Store, file: Meta, n: nat, position: nat, size: nat, offset: nat, raw: RawRead)
    requires FileOn(st, file, n) && PositionOk(st, file, n, position) && size < TWO_32
    requires Wrap(position + size) <= file.size && Start(st, n) < TWO_32
    requires ReadsAs(st, file.cluster, n, position, size, offset, raw)
    ensures raw.Bytes? ==> EndOf(position, raw) == position + |raw.data|
    ensures var chain := ChainBytes(st, file.cluster, n);
            && (chain == [] ==> position == 0)
            && ReadFromOffset(chain, Link(st, file.cluster, n) < 2, file.size, offset, position, size)
               == (ResultOf(raw), EndOf(position, raw))
  {
    NotEmpty(st, file, n);
  }

  lemma GivenFromDisk(v: Volume, file: Meta, n: nat, position: nat, size: nat, bytes: seq<Byte>, end: nat)
    requires ReadGives(View(v), file, n, position, size, Data(bytes), end) && Linked(View(v), file.cluster, n)
    ensures FromDisk(v, file.cluster, position, bytes)
  {
    var chain := ChainBytes(View(v), file.cluster, n);
    DataFromDisk(v, file.cluster, n, position, Min(position + size, |chain|));
  }

  /** The read gives this result and leaves this position. */
  ghost predicate ReadGives(st: Store, file: Meta, n: nat, position: nat, size: nat, r: ReadResult, end: nat) {
    var chain := ChainBytes(st, file.cluster, n);
    && st.size > 0 && (chain == [] ==> position == 0)
    && ReadAt(chain, Link(st, file.cluster, n) < 2, file.size, st.size, position, size) == (r, end)
  }

  class FileSystem {
    const volume: Volume
    /** What the code reads from the volume. */
    const store: Store
    const dir: seq<DirEntry>
    const fcbs: array<Fcb>
    const descs: array<Desc>
    var files: map<Slot, Row>

    ghost function T(): Tables
      reads this, fcbs, descs
    {
      Tables(fcbs[..], descs[..], files)
    }

    ghost predicate Valid()
      reads this, fcbs, descs
    {
      && |dir| <= fcbs.Length && Counted(T(), dir)
      && store == View(volume) && Uniform(store) && store.size <= MAX_CLUSTER
    }

    /** init_fs: both tables zeroed, every process without files. */
    constructor (v: Volume, dir: seq<DirEntry>, procs: set<Slot>, nfcbs: nat, ndescs: nat)
      requires |dir| <= nfcbs && Mounted(v)
      ensures Valid() && fresh(fcbs) && fresh(descs) && this.dir == dir && volume == v
      ensures T() == Booted(procs, nfcbs, ndescs)
    {
      this.dir := dir;
      volume, store := v, View(v);
      fcbs := new Fcb[nfcbs](_ => Fcb(Meta(seq(8, _ => 0), seq(3, _ => 0), 0, 0), 0, 0));
      descs := new Desc[ndescs](_ => Desc(None, 0, 0));
      files := map p | p in procs :: EmptyRow();
      new;
      assert fcbs[..] == Booted(procs, nfcbs, ndescs).fcbs;
      assert descs[..] == Booted(procs, nfcbs, ndescs).descs;
      BootCounted(procs, dir, nfcbs, ndescs);
      ViewUniform(v);
    }

    /** The first NULL in the file array of a process. */
    method FreeSlot(p: Slot) returns (fd: Option<nat>)
      requires p in files
      ensures fd == First(files[p], (o: Option<nat>) => o == None)
    {
      var i := 0;
      while i < FDS && files[p][i] != None
        invariant i <= FDS
        invariant FirstFrom(files[p], (o: Option<nat>) => o == None, 0) ==
                  FirstFrom(files[p], (o: Option<nat>) => o == None, i)
      {
        i := i + 1;
      }
      return if i < FDS then Some(i) else None;
    }

    /** The first descriptor without a control block. */
    method FreeDesc() returns (d: Option<nat>)
      ensures d == First(descs[..], (x: Desc) => x.fcb == None)
    {
      var i := 0;
      while i < descs.Length && descs[i].fcb != None
        invariant i <= descs.Length
        invariant FirstFrom(descs[..], (x: Desc) => x.fcb == None, 0) ==
                  FirstFrom(descs[..], (x: Desc) => x.fcb == None, i)
      {
        i := i + 1;
      }
      return if i < descs.Length then Some(i) else None;
    }

    /** search_file: the first usable directory entry of that name. */
    method SearchFile(key: Key) returns (f: Option<nat>)
      ensures f == First(dir, (e: DirEntry) => Matches(e, key))
    {
      var i := 0;
      while i < |dir| && !Matches(dir[i], key)
        invariant i <= |dir|
        invariant FirstFrom(dir, (e: DirEntry) => Matches(e, key), 0) ==
                  FirstFrom(dir, (e: DirEntry) => Matches(e, key), i)
      {
        i := i + 1;
      }
      return if i < |dir| then Some(i) else None;
    }

    method OpenFile(p: Slot, key: Option<Key>) returns (fd: int)
      requires Valid() && p in files
      modifies this, fcbs, descs
      ensures Valid()
      ensures T() == Open(old(T()), dir, p, key).0
      ensures match Open(old(T()), dir, p, key).1 case None => fd == -1 case Some(i) => fd == i
    {
      OpenCounted(T(), dir, p, key);
      var slot := FreeSlot(p);
      if slot == None {
        return -1;
      }
      var d := FreeDesc();
      if d == None || key == None {
        return -1;
      }
      var f := SearchFile(key.value);
      if f == None {
        return -1;
      }
      GetFcb(f.value);
      descs[d.value] := Desc(Some(f.value), 0, 1);
      files := files[p := files[p][slot.value := d]];
      return slot.value;
    }

    method GetFcb(f: nat)
      requires f < |dir| <= fcbs.Length
      modifies fcbs
      ensures fcbs[..] == old(fcbs[..])[f := Loaded(old(fcbs[f]), dir[f], f)]
    {
      if fcbs[f].count == 0 {
        fcbs[f] := Fcb(dir[f].meta, f, fcbs[f].count);
      }
      fcbs[f] := fcbs[f].(count := fcbs[f].count + 1);
    }

    /** The assertion of put_fcb never fails. */
    method CloseFile(p: Slot, fd: nat)
      requires Valid() && At(T(), Ref(p, fd)).Some?
      modifies this, fcbs, descs
      ensures Valid() && Close(old(T()), Ref(p, fd)) == Some(T()) && Closed(old(T()), T(), Ref(p, fd))
    {
      ghost var r := Ref(p, fd);
      RefLive(T(), dir, r);
      CloseCounted(T(), dir, r);
      CloseResult(T(), dir, r);
      var d := files[p][fd].value;
      Release(d);
      files := files[p := files[p][fd := None]];
    }

    /** One reference less: the control block, then the descriptor, which may become free. */
    method Release(d: nat)
      requires Usable(T(), d)
      modifies fcbs, descs
      ensures fcbs[..] == Bump(old(fcbs[..]), old(descs[d].fcb.value), -1)
      ensures var ds := BumpDesc(old(descs[..]), d, -1);
              descs[..] == if ds[d].count == 0 then ds[d := ds[d].(fcb := None)] else ds
    {
      var f := descs[d].fcb.value;
      fcbs[f] := fcbs[f].(count := fcbs[f].count - 1);
      descs[d] := descs[d].(count := descs[d].count - 1);
      if descs[d].count == 0 {
        descs[d] := descs[d].(fcb := None);
      }
    }

    /** read_file. */
    method ReadFile(p: Slot, fd: nat, size: nat, ghost n: nat) returns (r: ReadResult)
      requires Valid() && At(T(), Ref(p, fd)).Some? && Usable(T(), files[p][fd].value)
      requires var d := files[p][fd].value;
               && FileOn(store, fcbs[descs[d].fcb.value].meta, n) && size < TWO_32
               && PositionOk(store, fcbs[descs[d].fcb.value].meta, n, descs[d].position)
      modifies descs
      ensures Valid() && Usable(T(), files[p][fd].value)
      ensures var d := files[p][fd].value;
              ReadGives(store, old(fcbs[descs[d].fcb.value].meta), n, old(descs[d].position), size,
                        r, descs[d].position)
      ensures var d := files[p][fd].value;
              r.Data? ==> FromDisk(volume, old(fcbs[descs[d].fcb.value].meta).cluster, old(descs[d].position), r.bytes)
      ensures T() == if r.Data? then Advance(old(T()), Ref(p, fd), |r.bytes|).value else old(T())
    {
      var d := files[p][fd].value;
      var end;
      r, end := ReadContent(store, fcbs[descs[d].fcb.value].meta, descs[d].position, size, n);
      if r.Data? {
        GivenFromDisk(volume, fcbs[descs[d].fcb.value].meta, n, descs[d].position, size, r.bytes, end);
        AdvanceCounted(T(), dir, Ref(p, fd), |r.bytes|);
        descs[d] := descs[d].(position := end);
      }
    }

    /** The file part of fork: the array is copied whole, then every copied slot is counted. */
    method ForkFiles(parent: Slot, child: Slot)
      requires Valid() && Legal(T(), ForkOp(parent, child))
      modifies this, fcbs, descs
      ensures Valid() && ForkFrom(old(T()), child, old(files)[parent], FDS) == Some(T())
      ensures files == old(files)[child := old(files)[parent]]
    {
      ghost var t := T();
      ghost var row := files[parent];
      files := files[child := files[parent]];
      for i := 0 to FDS
        invariant files == t.files[child := row]
        invariant var s := ForkFrom(t, child, row, i); s.Some? && fcbs[..] == s.value.fcbs && descs[..] == s.value.descs
      {
        ForkCounted(t, dir, parent, child, i);
        ForkCounted(t, dir, parent, child, i + 1);
        if files[child][i] != None {
          Retain(files[child][i].value);
        }
      }
      ForkCounted(t, dir, parent, child, FDS);
      ForkedFiles(t, T(), ForkFrom(t, child, row, FDS).value, child, row);
    }

    method Retain(d: nat)
      requires Usable(T(), d)
      modifies fcbs, descs
      ensures fcbs[..] == Bump(old(fcbs[..]), old(descs[d].fcb.value), 1) && descs[..] == BumpDesc(old(descs[..]), d, 1)
    {
      descs[d] := descs[d].(count := descs[d].count + 1);
      var f := descs[d].fcb.value;
      fcbs[f] := fcbs[f].(count := fcbs[f].count + 1);
    }

    /** The file part of wait: every slot is released, then the whole entry is cleared. */
    method ReapFiles(p: Slot)
      requires Valid() && p in files
      modifies this, fcbs, descs
      ensures Valid() && ReapFrom(old(T()), p, FDS) == Some(T()) && files == old(files)[p := EmptyRow()]
    {
      ghost var t := T();
      for i := 0 to FDS
        invariant files == t.files
        invariant var s := ReapFrom(t, p, i); s.Some? && fcbs[..] == s.value.fcbs && descs[..] == s.value.descs
      {
        ReapCounted(t, dir, p, i);
        ReapCounted(t, dir, p, i + 1);
        assert At(ReapFrom(t, p, i).value, Ref(p, i)) == At(t, Ref(p, i));
        if files[p][i] != None {
          Release(files[p][i].value);
        }
      }
      files := files[p := EmptyRow()];
      ReapCounted(t, dir, p, FDS);
      ReapedFiles(t, T(), ReapFrom(t, p, FDS).value, p);
    }
  }

  lemma ForkedFiles(t: Tables, u: Tables, s: Tables, child: Slot, row: Row)
    requires child in t.files && u.files == t.files[child := row] && CopiedSlots(t, s, child, row, FDS)
    ensures s.files == u.files
  {
    forall q ensures At(s, q) == At(u, q) {
    }
    SameFiles(u, s);
  }

  lemma ReapedFiles(t: Tables, u: Tables, s: Tables, p: Slot)
    requires p in t.files && u.files == t.files[p := EmptyRow()] && DroppedSlots(t, s, p, FDS)
    ensures s.files == u.files
  {
    forall q ensures At(s, q) == At(u, q) {
    }
    SameFiles(u, s);
  }
}
