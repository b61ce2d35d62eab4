/**
  Open files: the file slots of every process refer to entries of file_desc_table, and those refer
  to entries of fcb_table.  Both tables count references, and no lock protects them, so open_file,
  close_file and the file parts of fork and wait are atomic steps here.
 */
module FileTable {
  import opened Wrappers
  import Scheduler

  type Slot = Scheduler.Slot

  const FDS: nat := 100

  type Name = n: seq<nat> | |n| == 8 witness seq(8, _ => 0)
  type Ext = e: seq<nat> | |e| == 3 witness seq(3, _ => 0)

  const ENTRY_EMPTY: nat := 0
  const ENTRY_DELETED: nat := 0xe5
  const LONG_NAME: nat := 0xf

  datatype Meta = Meta(name: Name, ext: Ext, cluster: nat, size: nat)

  /** An entry of the root directory. */
  datatype DirEntry = DirEntry(meta: Meta, attributes: nat)

  datatype Fcb = Fcb(meta: Meta, dirIndex: nat, count: int)

  datatype Desc = Desc(fcb: Option<nat>, position: nat, count: int)

  /** The file array of a process: indices into file_desc_table. */
  type Row = r: seq<Option<nat>> | |r| == FDS witness seq(FDS, _ => None)

  datatype Tables = Tables(fcbs: seq<Fcb>, descs: seq<Desc>, files: map<Slot, Row>)

  datatype Ref = Ref(proc: Slot, fd: nat)

  // ------------------------------------------------------------- the references

  ghost predicate IsRef(t: Tables, r: Ref) {
    r.proc in t.files && r.fd < FDS
  }

  function At(t: Tables, r: Ref): Option<nat> {
    if r.proc in t.files && r.fd < FDS then t.files[r.proc][r.fd] else None
  }

  function FcbOf(t: Tables, d: nat): Option<nat> {
    if d < |t.descs| then t.descs[d].fcb else None
  }

  /** The file slots that point to descriptor `d`. */
  ghost function Refs(t: Tables, d: nat): set<Ref> {
    set p, i | p in t.files && 0 <= i < FDS && t.files[p][i] == Some(d) :: Ref(p, i)
  }

  /** The file slots that reach control block `f` through their descriptor. */
  ghost function FcbRefs(t: Tables, f: nat): set<Ref> {
    set p, i | p in t.files && 0 <= i < FDS && t.files[p][i].Some? && FcbOf(t, t.files[p][i].value) == Some(f)
      :: Ref(p, i)
  }

  lemma InRefs(t: Tables, d: nat, r: Ref)
    ensures r in Refs(t, d) <==> At(t, r) == Some(d)
  {
  }

  lemma InFcbRefs(t: Tables, f: nat, r: Ref)
    ensures r in FcbRefs(t, f) <==> At(t, r).Some? && FcbOf(t, At(t, r).value) == Some(f)
  {
  }

  // ---------------------------------------------------------------- the invariant

  /** A descriptor counts the slots pointing to it and is free exactly when there are none. */
  ghost predicate DescOk(t: Tables, d: nat)
    requires d < |t.descs|
  {
    && t.descs[d].count == |Refs(t, d)|
    && (t.descs[d].fcb == None <==> Refs(t, d) == {})
    && (t.descs[d].fcb.Some? ==> t.descs[d].fcb.value < |t.fcbs|)
  }

  /** A control block counts the slots that reach it and, while used, repeats its directory entry. */
  ghost predicate FcbOk(t: Tables, dir: seq<DirEntry>, f: nat)
    requires f < |t.fcbs|
  {
    && t.fcbs[f].count == |FcbRefs(t, f)|
    && (t.fcbs[f].count > 0 ==> f < |dir| && t.fcbs[f].meta == dir[f].meta && t.fcbs[f].dirIndex == f)
  }

  ghost predicate RefOk(t: Tables, r: Ref) {
    At(t, r).Some? ==> At(t, r).value < |t.descs|
  }

  ghost predicate Counted(t: Tables, dir: seq<DirEntry>) {
    && (forall d | 0 <= d < |t.descs| :: DescOk(t, d))
    && (forall f | 0 <= f < |t.fcbs| :: FcbOk(t, dir, f))
    && (forall r :: RefOk(t, r))
  }

  /** A slot in use leads to a used descriptor and control block. */
  lemma RefLive(t: Tables, dir: seq<DirEntry>, r: Ref)
    requires Counted(t, dir) && At(t, r).Some?
    ensures var d := At(t, r).value;
            && d < |t.descs| && t.descs[d].count > 0
            && t.descs[d].fcb.Some? && t.descs[d].fcb.value < |t.fcbs| && t.fcbs[t.descs[d].fcb.value].count > 0
  {
    assert RefOk(t, r);
    var d := At(t, r).value;
    assert DescOk(t, d);
    InRefs(t, d, r);
    var f := t.descs[d].fcb.value;
    assert FcbOk(t, dir, f);
    InFcbRefs(t, f, r);
  }

  // --------------------------------------------------------- adding one reference

  function WithSlot(t: Tables, r: Ref, o: Option<nat>): Tables
    requires r.proc in t.files && r.fd < FDS
  {
    t.(files := t.files[r.proc := t.files[r.proc][r.fd := o]])
  }

  function Bump(fcbs: seq<Fcb>, f: nat, n: int): seq<Fcb>
    requires f < |fcbs|
  {
    fcbs[f := fcbs[f].(count := fcbs[f].count + n)]
  }

  function BumpDesc(descs: seq<Desc>, d: nat, n: int): seq<Desc>
    requires d < |descs|
  {
    descs[d := descs[d].(count := descs[d].count + n)]
  }

  /** One round of the loop in fork, with the slot it accounts for. */
  function AddRef(t: Tables, r: Ref, d: nat): Tables
    requires r.proc in t.files && r.fd < FDS && d < |t.descs|
    requires t.descs[d].fcb.Some? && t.descs[d].fcb.value < |t.fcbs|
  {
    WithSlot(t, r, Some(d)).(fcbs := Bump(t.fcbs, t.descs[d].fcb.value, 1), descs := BumpDesc(t.descs, d, 1))
  }

  lemma AtWithSlot(t: Tables, r: Ref, o: Option<nat>, q: Ref)
    requires r.proc in t.files && r.fd < FDS
    ensures At(WithSlot(t, r, o), q) == if q == r then o else At(t, q)
  {
  }

  /** Two tables whose slots and descriptor targets agree except at `r`. */
  ghost predicate DiffersAt(t: Tables, t': Tables, r: Ref) {
    forall q | q != r :: At(t', q) == At(t, q)
  }

  lemma RefsGain(t: Tables, t': Tables, r: Ref, d: nat)
    requires DiffersAt(t, t', r) && At(t, r) == None
    ensures Refs(t', d) == if At(t', r) == Some(d) then Refs(t, d) + {r} else Refs(t, d)
    ensures r !in Refs(t, d)
  {
    forall q ensures q in Refs(t', d) <==> q in Refs(t, d) || (q == r && At(t', r) == Some(d)) {
      InRefs(t', d, q);
      InRefs(t, d, q);
    }
  }

  lemma FcbRefsGain(t: Tables, t': Tables, r: Ref, f: nat)
    requires DiffersAt(t, t', r) && At(t, r) == None && SameTargets(t, t')
    ensures FcbRefs(t', f) ==
            if At(t', r).Some? && FcbOf(t', At(t', r).value) == Some(f) then FcbRefs(t, f) + {r} else FcbRefs(t, f)
    ensures r !in FcbRefs(t, f)
  {
    forall q
      ensures q in FcbRefs(t', f) <==>
              q in FcbRefs(t, f) || (q == r && At(t', r).Some? && FcbOf(t', At(t', r).value) == Some(f))
    {
      InFcbRefs(t', f, q);
      InFcbRefs(t, f, q);
      if At(t, q).Some? {
        assert q in Refs(t, At(t, q).value);
      }
    }
  }

  /** Descriptors that some slot points to keep their control block. */
  ghost predicate SameTargets(t: Tables, t': Tables) {
    forall d: nat | Refs(t, d) != {} :: FcbOf(t', d) == FcbOf(t, d)
  }

  /** The counts after a slot was filled: only its descriptor and control block gain one. */
  lemma GainCounted(t: Tables, t': Tables, dir: seq<DirEntry>, r: Ref, d: nat, f: nat)
    requires Counted(t, dir) && DiffersAt(t, t', r) && At(t, r) == None && At(t', r) == Some(d)
    requires |t'.descs| == |t.descs| && |t'.fcbs| == |t.fcbs| && d < |t.descs| && f < |t.fcbs|
    requires t'.descs[d].fcb == Some(f) && t'.descs[d].count == t.descs[d].count + 1 && SameTargets(t, t')
    requires forall e | 0 <= e < |t.descs| && e != d :: t'.descs[e] == t.descs[e]
    requires t'.fcbs[f].count == t.fcbs[f].count + 1
    requires f < |dir| && t'.fcbs[f].meta == dir[f].meta && t'.fcbs[f].dirIndex == f
    requires forall g | 0 <= g < |t.fcbs| && g != f :: t'.fcbs[g] == t.fcbs[g]
    ensures Counted(t', dir)
  {
    forall e | 0 <= e < |t'.descs| ensures DescOk(t', e) {
      assert DescOk(t, e);
      RefsGain(t, t', r, e);
    }
    forall g | 0 <= g < |t'.fcbs| ensures FcbOk(t', dir, g) {
      assert FcbOk(t, dir, g);
      FcbRefsGain(t, t', r, g);
    }
    forall q ensures RefOk(t', q) {
      assert RefOk(t, q);
    }
  }

  lemma AddRefCounted(t: Tables, dir: seq<DirEntry>, r: Ref, d: nat)
    requires Counted(t, dir) && IsRef(t, r) && At(t, r) == None && d < |t.descs| && t.descs[d].fcb.Some?
    ensures t.descs[d].fcb.value < |t.fcbs|
    ensures Counted(AddRef(t, r, d), dir)
  {
    assert DescOk(t, d);
    var f := t.descs[d].fcb.value;
    var t' := AddRef(t, r, d);
    forall q | q != r ensures At(t', q) == At(t, q) {
      AtWithSlot(t, r, Some(d), q);
    }
    var q :| q in Refs(t, d);
    RefLive(t, dir, q);
    assert FcbOk(t, dir, f);
    GainCounted(t, t', dir, r, d, f);
  }

  // -------------------------------------------------------- dropping one reference

  /** close_file, and one round of the loop in wait with the slot it accounts for. */
  function DropRef(t: Tables, r: Ref): Tables
    requires At(t, r).Some? && At(t, r).value < |t.descs|
    requires var d := At(t, r).value; t.descs[d].fcb.Some? && t.descs[d].fcb.value < |t.fcbs|
  {
    var d := At(t, r).value;
    var descs := BumpDesc(t.descs, d, -1);
    WithSlot(t, r, None).(
      fcbs := Bump(t.fcbs, t.descs[d].fcb.value, -1),
      descs := if descs[d].count == 0 then descs[d := descs[d].(fcb := None)] else descs)
  }

  lemma RefsLose(t: Tables, t': Tables, r: Ref, d: nat)
    requires DiffersAt(t, t', r) && At(t', r) == None
    ensures Refs(t', d) == Refs(t, d) - {r}
    ensures r in Refs(t, d) <==> At(t, r) == Some(d)
  {
    RefsGain(t', t, r, d);
  }

  lemma FcbRefsLose(t: Tables, t': Tables, r: Ref, f: nat)
    requires DiffersAt(t, t', r) && At(t', r) == None && SameTargets(t', t)
    ensures FcbRefs(t', f) == FcbRefs(t, f) - {r}
    ensures r in FcbRefs(t, f) <==> At(t, r).Some? && FcbOf(t, At(t, r).value) == Some(f)
  {
    FcbRefsGain(t', t, r, f);
  }

  lemma DropDescs(t: Tables, dir: seq<DirEntry>, r: Ref, d: nat)
    requires Counted(t, dir) && At(t, r) == Some(d) && Usable(t, d)
    ensures var t' := DropRef(t, r);
            && DiffersAt(t, t', r) && At(t', r) == None && SameTargets(t', t)
            && forall e | 0 <= e < |t'.descs| :: DescOk(t', e)
  {
    var t' := DropRef(t, r);
    forall q | q != r ensures At(t', q) == At(t, q) {
      AtWithSlot(t, r, None, q);
    }
    AtWithSlot(t, r, None, r);
    forall e | 0 <= e < |t'.descs| ensures DescOk(t', e) {
      assert DescOk(t, e);
      RefsLose(t, t', r, e);
    }
    forall e: nat | Refs(t', e) != {} ensures FcbOf(t, e) == FcbOf(t', e) {
      if e < |t'.descs| {
        assert DescOk(t', e);
      }
    }
  }

  lemma DropRefCounted(t: Tables, dir: seq<DirEntry>, r: Ref)
    requires Counted(t, dir) && At(t, r).Some?
    ensures At(t, r).value < |t.descs|
    ensures var d := At(t, r).value; t.descs[d].fcb.Some? && t.descs[d].fcb.value < |t.fcbs|
    ensures Counted(DropRef(t, r), dir)
  {
    RefLive(t, dir, r);
    var t', d := DropRef(t, r), At(t, r).value;
    DropDescs(t, dir, r, d);
    forall g | 0 <= g < |t'.fcbs| ensures FcbOk(t', dir, g) {
      assert FcbOk(t, dir, g);
      FcbRefsLose(t, t', r, g);
    }
    forall q ensures RefOk(t', q) {
      assert RefOk(t, q);
    }
  }

  // --------------------------------------------------------------- the operations

  /** A path after split_path, with name and extension padded. */
  datatype Key = Key(name: Name, ext: Ext)

  predicate Matches(e: DirEntry, key: Key) {
    && e.meta.name[0] != ENTRY_EMPTY && e.meta.name[0] != ENTRY_DELETED && e.attributes != LONG_NAME
    && e.meta.name == key.name && e.meta.ext == key.ext
  }

  /** The entry is that of a file with these 8 name and 3 extension bytes: it is not empty, not deleted and
      no part of a long name. */
  ghost predicate Names(e: DirEntry, key: Key) {
    && e.meta.name[0] != 0 && e.meta.name[0] != 0xe5 && e.attributes != 0xf
    && (forall i | 0 <= i < 8 :: e.meta.name[i] == key.name[i])
    && (forall i | 0 <= i < 3 :: e.meta.ext[i] == key.ext[i])
  }

  lemma MatchesNames(e: DirEntry, key: Key)
    ensures Matches(e, key) <==> Names(e, key)
  {
    if Names(e, key) {
      assert e.meta.name == key.name;
      assert e.meta.ext == key.ext;
    }
  }

  /** The first index from `i` on that satisfies `p`, or the length. */
  function FirstFrom<T>(xs: seq<T>, p: T -> bool, i: nat): (r: nat)
    requires i <= |xs|
    ensures i <= r <= |xs| && (r < |xs| ==> p(xs[r])) && forall j | i <= j < r :: !p(xs[j])
    decreases |xs| - i
  {
    if i == |xs| || p(xs[i]) then i else FirstFrom(xs, p, i + 1)
  }

  function First<T>(xs: seq<T>, p: T -> bool): Option<nat> {
    var r := FirstFrom(xs, p, 0);
    if r < |xs| then Some(r) else None
  }

  /** get_fcb: load the directory entry on first use and count the new user. */
  function Loaded(fcb: Fcb, e: DirEntry, f: nat): Fcb {
    if fcb.count == 0 then Fcb(e.meta, f, 1) else fcb.(count := fcb.count + 1)
  }

  /** open_file: the tables and the new file number, if there is one. */
  function Open(t: Tables, dir: seq<DirEntry>, p: Slot, key: Option<Key>): (Tables, Option<nat>)
    requires p in t.files && |dir| <= |t.fcbs|
  {
    var fd := First(t.files[p], (o: Option<nat>) => o == None);
    var d := First(t.descs, (x: Desc) => x.fcb == None);
    if fd == None || d == None || key == None then (t, None)
    else
      var f := First(dir, (e: DirEntry) => Matches(e, key.value));
      if f == None then (t, None)
      else (OpenAt(t, dir, Ref(p, fd.value), d.value, f.value), fd)
  }

  function OpenAt(t: Tables, dir: seq<DirEntry>, r: Ref, d: nat, f: nat): Tables
    requires r.proc in t.files && r.fd < FDS && d < |t.descs| && f < |dir| <= |t.fcbs|
  {
    WithSlot(t, r, Some(d)).(
      fcbs := t.fcbs[f := Loaded(t.fcbs[f], dir[f], f)],
      descs := t.descs[d := Desc(Some(f), 0, 1)])
  }

  /** A descriptor that may be followed to its control block. */
  predicate Usable(t: Tables, d: nat) {
    d < |t.descs| && t.descs[d].fcb.Some? && t.descs[d].fcb.value < |t.fcbs|
  }

  /** Following an empty slot, a free descriptor or a failed assertion of put_fcb gives None. */
  function Close(t: Tables, r: Ref): Option<Tables> {
    if At(t, r).Some? && Usable(t, At(t, r).value) && t.fcbs[t.descs[At(t, r).value].fcb.value].count > 0
    then Some(DropRef(t, r)) else None
  }

  /** The loop of fork over the first `k` slots of the copied array. */
  function ForkFrom(t: Tables, child: Slot, row: Row, k: nat): Option<Tables>
    requires child in t.files && k <= FDS
    decreases k
  {
    if k == 0 then Some(t)
    else
      match ForkFrom(t, child, row, k - 1)
      case None => None
      case Some(s) =>
        if row[k - 1] == None then Some(s)
        else if child in s.files && Usable(s, row[k - 1].value) then
          Some(AddRef(s, Ref(child, k - 1), row[k - 1].value))
        else None
  }

  /** The loop of wait over the first `k` slots, with the final clearing of those slots. */
  function ReapFrom(t: Tables, p: Slot, k: nat): Option<Tables>
    decreases k
  {
    if k == 0 then Some(t)
    else
      match ReapFrom(t, p, k - 1)
      case None => None
      case Some(s) =>
        if At(s, Ref(p, k - 1)) == None then Some(s)
        else if Usable(s, At(s, Ref(p, k - 1)).value) then Some(DropRef(s, Ref(p, k - 1)))
        else None
  }

  /** read_file moves the position. */
  function Advance(t: Tables, r: Ref, n: nat): Option<Tables> {
    if At(t, r).Some? && At(t, r).value < |t.descs| then
      var d := At(t, r).value;
      Some(t.(descs := t.descs[d := t.descs[d].(position := t.descs[d].position + n)]))
    else None
  }

  datatype Op =
    | OpenOp(p: Slot, key: Option<Key>)
    | CloseOp(r: Ref)
    | AdvanceOp(r: Ref, n: nat)
    | ForkOp(parent: Slot, child: Slot)
    | ReapOp(p: Slot)

  function EmptyRow(): (r: Row)
    ensures forall i | 0 <= i < FDS :: r[i] == None
  {
    seq(FDS, _ => None)
  }

  /** What a caller owes: an open file number, and for fork an unused entry for the child. */
  predicate Legal(t: Tables, op: Op) {
    match op
    case OpenOp(p, _) => p in t.files
    case CloseOp(r) => At(t, r).Some?
    case AdvanceOp(r, _) => At(t, r).Some?
    case ForkOp(parent, child) => parent in t.files && child in t.files && t.files[child] == EmptyRow()
    case ReapOp(p) => p in t.files
  }

  function Do(t: Tables, dir: seq<DirEntry>, op: Op): Option<Tables>
    requires Legal(t, op) && |dir| <= |t.fcbs|
  {
    match op
    case OpenOp(p, key) => Some(Open(t, dir, p, key).0)
    case CloseOp(r) => Close(t, r)
    case AdvanceOp(r, n) => Advance(t, r, n)
    case ForkOp(parent, child) => ForkFrom(t, child, t.files[parent], FDS)
    case ReapOp(p) => ReapFrom(t, p, FDS)
  }

  // --------------------------------------------------- every operation keeps the counts

  lemma OpenCounted(t: Tables, dir: seq<DirEntry>, p: Slot, key: Option<Key>)
    requires Counted(t, dir) && p in t.files && |dir| <= |t.fcbs|
    ensures Counted(Open(t, dir, p, key).0, dir)
  {
    var fd := First(t.files[p], (o: Option<nat>) => o == None);
    var d := First(t.descs, (x: Desc) => x.fcb == None);
    if fd.Some? && d.Some? && key.Some? {
      var f := First(dir, (e: DirEntry) => Matches(e, key.value));
      if f.Some? {
        OpenAtCounted(t, dir, Ref(p, fd.value), d.value, f.value);
      }
    }
  }

  ghost predicate Fails(t: Tables, dir: seq<DirEntry>, p: Slot, key: Option<Key>)
    requires p in t.files
  {
    || (forall i | 0 <= i < 100 :: t.files[p][i].Some?)
    || (forall d | 0 <= d < |t.descs| :: t.descs[d].fcb.Some?)
    || key == None || (forall j | 0 <= j < |dir| :: !Names(dir[j], key.value))
  }

  /** The slot `r` now leads through a fresh descriptor at position 0 to the control block of the first
      directory entry of that name, and nothing else changed. */
  ghost predicate Opened(t: Tables, t': Tables, dir: seq<DirEntry>, r: Ref, key: Key, d: nat, f: nat) {
    && |t'.descs| == |t.descs| && |t'.fcbs| == |t.fcbs| && d < |t.descs| && f < |dir| <= |t.fcbs|
    && At(t, r) == None && At(t', r) == Some(d) && DiffersAt(t, t', r)
    && t.descs[d].fcb == None && t'.descs[d] == Desc(Some(f), 0, 1)
    && (forall e | 0 <= e < |t.descs| && e != d :: t'.descs[e] == t.descs[e])
    && Names(dir[f], key) && (forall j | 0 <= j < f :: !Names(dir[j], key))
    && t'.fcbs[f] == Fcb(dir[f].meta, f, t.fcbs[f].count + 1)
    && (forall g | 0 <= g < |t.fcbs| && g != f :: t'.fcbs[g] == t.fcbs[g])
  }

  /** open_file fails exactly when a slot, a descriptor or the file is missing, and then changes nothing;
      otherwise it opens the file under the lowest free number. */
  lemma OpenResult(t: Tables, dir: seq<DirEntry>, p: Slot, key: Option<Key>)
    requires Counted(t, dir) && p in t.files && |dir| <= |t.fcbs|
    ensures var (t', fd) := Open(t, dir, p, key);
            && (fd == None <==> Fails(t, dir, p, key))
            && (fd == None ==> t' == t)
            && (fd.Some? ==>
                  && fd.value < 100 && (forall i | 0 <= i < fd.value :: t.files[p][i].Some?)
                  && key.Some? && exists d, f :: Opened(t, t', dir, Ref(p, fd.value), key.value, d, f))
  {
    var fd := First(t.files[p], (o: Option<nat>) => o == None);
    var d := First(t.descs, (x: Desc) => x.fcb == None);
    if fd.Some? && d.Some? && key.Some? {
      var f := First(dir, (e: DirEntry) => Matches(e, key.value));
      forall e ensures Matches(e, key.value) <==> Names(e, key.value) {
        MatchesNames(e, key.value);
      }
      if f.Some? {
        assert FcbOk(t, dir, f.value);
        forall q ensures At(Open(t, dir, p, key).0, q) == if q == Ref(p, fd.value) then d else At(t, q) {
          AtWithSlot(t, Ref(p, fd.value), d, q);
        }
        assert Opened(t, Open(t, dir, p, key).0, dir, Ref(p, fd.value), key.value, d.value, f.value);
      }
    }
  }

  lemma OpenAtCounted(t: Tables, dir: seq<DirEntry>, r: Ref, d: nat, f: nat)
    requires Counted(t, dir) && IsRef(t, r) && At(t, r) == None && d < |t.descs| && t.descs[d].fcb == None
    requires f < |dir| <= |t.fcbs|
    ensures Counted(OpenAt(t, dir, r, d, f), dir)
  {
    var t' := OpenAt(t, dir, r, d, f);
    assert DescOk(t, d);
    assert FcbOk(t, dir, f);
    forall q ensures At(t', q) == if q == r then Some(d) else At(t, q) {
      AtWithSlot(t, r, Some(d), q);
    }
    GainCounted(t, t', dir, r, d, f);
  }

  lemma CloseCounted(t: Tables, dir: seq<DirEntry>, r: Ref)
    requires Counted(t, dir) && At(t, r).Some?
    ensures Close(t, r).Some? && Counted(Close(t, r).value, dir)
  {
    RefLive(t, dir, r);
    DropRefCounted(t, dir, r);
  }

  lemma AdvanceCounted(t: Tables, dir: seq<DirEntry>, r: Ref, n: nat)
    requires Counted(t, dir) && At(t, r).Some?
    ensures Advance(t, r, n).Some? && Counted(Advance(t, r, n).value, dir)
  {
    RefLive(t, dir, r);
    var t' := Advance(t, r, n).value;
    forall d: nat ensures Refs(t', d) == Refs(t, d) && FcbRefs(t', d) == FcbRefs(t, d) {
    }
    forall d | 0 <= d < |t'.descs| ensures DescOk(t', d) {
      assert DescOk(t, d);
    }
    forall f | 0 <= f < |t'.fcbs| ensures FcbOk(t', dir, f) {
      assert FcbOk(t, dir, f);
    }
    forall q ensures RefOk(t', q) {
      assert RefOk(t, q);
    }
  }

  /** The copied slots so far hold what the parent's hold; all other slots are as before. */
  ghost predicate CopiedSlots(t: Tables, s: Tables, child: Slot, row: Row, k: nat)
    requires k <= FDS
  {
    && SameButCounts(t, s)
    && (forall d: nat :: FcbOf(s, d) == FcbOf(t, d))
    && s.files.Keys == t.files.Keys
    && forall q :: At(s, q) == if q.proc == child && q.fd < k then row[q.fd] else At(t, q)
  }

  /** Nothing but counts and the descriptors' targets differs. */
  ghost predicate SameButCounts(t: Tables, s: Tables) {
    && |s.descs| == |t.descs| && |s.fcbs| == |t.fcbs|
    && (forall d | 0 <= d < |t.descs| :: s.descs[d].position == t.descs[d].position)
    && (forall f | 0 <= f < |t.fcbs| :: s.fcbs[f].meta == t.fcbs[f].meta && s.fcbs[f].dirIndex == t.fcbs[f].dirIndex)
  }

  lemma {:induction false} ForkCounted(t: Tables, dir: seq<DirEntry>, parent: Slot, child: Slot, k: nat)
    requires Counted(t, dir) && parent in t.files && child in t.files && t.files[child] == EmptyRow() && k <= FDS
    ensures var s := ForkFrom(t, child, t.files[parent], k);
            s.Some? && Counted(s.value, dir) && CopiedSlots(t, s.value, child, t.files[parent], k)
    decreases k
  {
    var row := t.files[parent];
    if k > 0 {
      ForkCounted(t, dir, parent, child, k - 1);
      var s := ForkFrom(t, child, row, k - 1).value;
      if row[k - 1].Some? {
        ForkStep(t, s, dir, parent, child, k);
      }
    }
  }

  lemma ForkStep(t: Tables, s: Tables, dir: seq<DirEntry>, parent: Slot, child: Slot, k: nat)
    requires Counted(t, dir) && Counted(s, dir) && parent in t.files && child in t.files && t.files[child] == EmptyRow()
    requires 0 < k <= FDS && t.files[parent][k - 1].Some? && CopiedSlots(t, s, child, t.files[parent], k - 1)
    ensures var row := t.files[parent];
            && child in s.files && Usable(s, row[k - 1].value)
            && var s' := AddRef(s, Ref(child, k - 1), row[k - 1].value);
               Counted(s', dir) && CopiedSlots(t, s', child, row, k)
  {
    var r, d := Ref(child, k - 1), t.files[parent][k - 1].value;
    assert At(t, Ref(parent, k - 1)) == Some(d);
    RefLive(t, dir, Ref(parent, k - 1));
    assert FcbOf(s, d) == FcbOf(t, d);
    assert At(s, r) == At(t, r) == None;
    AddRefCounted(s, dir, r, d);
    forall q ensures At(AddRef(s, r, d), q) == if q == r then Some(d) else At(s, q) {
      AtWithSlot(s, r, Some(d), q);
    }
  }

  /** The slots so far are empty; all others are as before, and descriptors only lose their target. */
  ghost predicate DroppedSlots(t: Tables, s: Tables, p: Slot, k: nat) {
    && SameButCounts(t, s) && s.files.Keys == t.files.Keys
    && (forall q :: At(s, q) == if q.proc == p && q.fd < k then None else At(t, q))
    && (forall d: nat :: FcbOf(s, d) == None || FcbOf(s, d) == FcbOf(t, d))
  }

  lemma {:induction false} ReapCounted(t: Tables, dir: seq<DirEntry>, p: Slot, k: nat)
    requires Counted(t, dir) && p in t.files && k <= FDS
    ensures var s := ReapFrom(t, p, k); s.Some? && Counted(s.value, dir) && DroppedSlots(t, s.value, p, k)
    decreases k
  {
    if k > 0 {
      ReapCounted(t, dir, p, k - 1);
      var s := ReapFrom(t, p, k - 1).value;
      var r := Ref(p, k - 1);
      if At(s, r).Some? {
        DropRefCounted(s, dir, r);
        ReapStep(t, s, p, k);
      }
    }
  }

  lemma ReapStep(t: Tables, s: Tables, p: Slot, k: nat)
    requires 0 < k <= FDS && DroppedSlots(t, s, p, k - 1)
    requires At(s, Ref(p, k - 1)).Some? && Usable(s, At(s, Ref(p, k - 1)).value)
    ensures DroppedSlots(t, DropRef(s, Ref(p, k - 1)), p, k)
  {
    var r := Ref(p, k - 1);
    forall q ensures At(DropRef(s, r), q) == if q == r then None else At(s, q) {
      AtWithSlot(s, r, None, q);
    }
  }

  /** No legal operation follows a null pointer or fails an assertion, and all keep the counts. */
  lemma DoCounted(t: Tables, dir: seq<DirEntry>, op: Op)
    requires Counted(t, dir) && Legal(t, op) && |dir| <= |t.fcbs|
    ensures Do(t, dir, op).Some? && Counted(Do(t, dir, op).value, dir) && |Do(t, dir, op).value.fcbs| == |t.fcbs|
  {
    match op
    case OpenOp(p, key) => OpenCounted(t, dir, p, key);
    case CloseOp(r) => CloseCounted(t, dir, r);
    case AdvanceOp(r, n) => AdvanceCounted(t, dir, r, n);
    case ForkOp(parent, child) => ForkCounted(t, dir, parent, child, FDS);
    case ReapOp(p) => ReapCounted(t, dir, p, FDS);
  }

  // ------------------------------------------------------------------------- runs

  /** The zeroed tables of init_fs and process_table. */
  function Booted(procs: set<Slot>, fcbs: nat, descs: nat): Tables {
    Tables(seq(fcbs, _ => Fcb(Meta(seq(8, _ => 0), seq(3, _ => 0), 0, 0), 0, 0)),
           seq(descs, _ => Desc(None, 0, 0)),
           map p | p in procs :: EmptyRow())
  }

  lemma BootCounted(procs: set<Slot>, dir: seq<DirEntry>, fcbs: nat, descs: nat)
    ensures Counted(Booted(procs, fcbs, descs), dir)
  {
    var t := Booted(procs, fcbs, descs);
    forall q ensures At(t, q) == None {
    }
    forall d: nat ensures Refs(t, d) == {} && FcbRefs(t, d) == {} {
    }
  }

  /** The tables after a run, or None once an operation was illegal or crashed. */
  function Run(t: Tables, dir: seq<DirEntry>, ops: seq<Op>): Option<Tables>
    decreases |ops|
  {
    if ops == [] then Some(t)
    else
      match Run(t, dir, ops[..|ops| - 1])
      case None => None
      case Some(s) => var op := ops[|ops| - 1];
                      if Legal(s, op) && |dir| <= |s.fcbs| then Do(s, dir, op) else None
  }

  ghost predicate LegalRun(t: Tables, dir: seq<DirEntry>, ops: seq<Op>)
    decreases |ops|
  {
    ops == [] ||
    (var n := |ops| - 1;
     LegalRun(t, dir, ops[..n]) && (Run(t, dir, ops[..n]).Some? ==> Legal(Run(t, dir, ops[..n]).value, ops[n])))
  }

  /** Every run of open, close, read, fork and reap keeps both levels of counts exact. */
  lemma {:induction false} RunCounted(procs: set<Slot>, dir: seq<DirEntry>, fcbs: nat, descs: nat, ops: seq<Op>)
    requires |dir| <= fcbs && LegalRun(Booted(procs, fcbs, descs), dir, ops)
    ensures var t := Run(Booted(procs, fcbs, descs), dir, ops);
            t.Some? && |t.value.fcbs| == fcbs && Counted(t.value, dir)
    decreases |ops|
  {
    if ops == [] {
      BootCounted(procs, dir, fcbs, descs);
    } else {
      RunCounted(procs, dir, fcbs, descs, ops[..|ops| - 1]);
      DoCounted(Run(Booted(procs, fcbs, descs), dir, ops[..|ops| - 1]).value, dir, ops[|ops| - 1]);
    }
  }

  // ---------------------------------------------------------- what the counts mean

  /** The sum of the counts of the first `n` descriptors of control block `f`. */
  function SumCounts(t: Tables, f: nat, n: nat): int
    requires n <= |t.descs|
  {
    if n == 0 then 0
    else SumCounts(t, f, n - 1) + if t.descs[n - 1].fcb == Some(f) then t.descs[n - 1].count else 0
  }

  ghost function FcbRefsBelow(t: Tables, f: nat, n: nat): set<Ref> {
    set r | r in FcbRefs(t, f) && At(t, r).Some? && At(t, r).value < n
  }

  lemma {:induction false} SumIsBelow(t: Tables, dir: seq<DirEntry>, f: nat, n: nat)
    requires Counted(t, dir) && n <= |t.descs|
    ensures SumCounts(t, f, n) == |FcbRefsBelow(t, f, n)|
    decreases n
  {
    if n == 0 {
      assert FcbRefsBelow(t, f, 0) == {};
    } else {
      SumIsBelow(t, dir, f, n - 1);
      assert DescOk(t, n - 1);
      BelowStep(t, f, n);
    }
  }

  lemma BelowStep(t: Tables, f: nat, n: nat)
    requires 0 < n <= |t.descs|
    ensures |FcbRefsBelow(t, f, n)| ==
            |FcbRefsBelow(t, f, n - 1)| + if t.descs[n - 1].fcb == Some(f) then |Refs(t, n - 1)| else 0
  {
    var a, b := FcbRefsBelow(t, f, n - 1), if t.descs[n - 1].fcb == Some(f) then Refs(t, n - 1) else {};
    forall r ensures (r in FcbRefsBelow(t, f, n) <==> r in a || r in b) && !(r in a && r in b) {
      InRefs(t, n - 1, r);
      InFcbRefs(t, f, r);
    }
    assert FcbRefsBelow(t, f, n) == a + b;
  }

  /** The count of a control block is the sum of the counts of its descriptors. */
  lemma FcbCountIsSum(t: Tables, dir: seq<DirEntry>, f: nat)
    requires Counted(t, dir) && f < |t.fcbs|
    ensures t.fcbs[f].count == SumCounts(t, f, |t.descs|)
  {
    SumIsBelow(t, dir, f, |t.descs|);
    assert FcbOk(t, dir, f);
    forall r ensures r in FcbRefs(t, f) <==> r in FcbRefsBelow(t, f, |t.descs|) {
      InFcbRefs(t, f, r);
      assert RefOk(t, r);
    }
    assert FcbRefs(t, f) == FcbRefsBelow(t, f, |t.descs|);
  }

  lemma SameFiles(t: Tables, u: Tables)
    requires t.files.Keys == u.files.Keys && forall q :: At(u, q) == At(t, q)
    ensures u.files == t.files
  {
    forall p | p in t.files ensures u.files[p] == t.files[p] {
      forall i | 0 <= i < FDS ensures u.files[p][i] == t.files[p][i] {
        assert At(u, Ref(p, i)) == At(t, Ref(p, i));
      }
    }
  }

  /** The counts follow from the slots and the descriptors' targets. */
  lemma CountsDetermined(t: Tables, u: Tables, dir: seq<DirEntry>)
    requires Counted(t, dir) && Counted(u, dir) && |u.descs| == |t.descs| && |u.fcbs| == |t.fcbs|
    requires forall q :: At(u, q) == At(t, q)
    requires forall d: nat | Refs(t, d) != {} :: FcbOf(u, d) == FcbOf(t, d)
    ensures forall d | 0 <= d < |t.descs| :: u.descs[d].count == t.descs[d].count && u.descs[d].fcb == t.descs[d].fcb
    ensures forall f | 0 <= f < |t.fcbs| :: u.fcbs[f].count == t.fcbs[f].count
  {
    forall d | 0 <= d < |t.descs| ensures u.descs[d].count == t.descs[d].count && u.descs[d].fcb == t.descs[d].fcb {
      SameRefs(t, u, d);
      assert DescOk(t, d) && DescOk(u, d);
      assert FcbOf(u, d) == u.descs[d].fcb && FcbOf(t, d) == t.descs[d].fcb;
    }
    forall f | 0 <= f < |t.fcbs| ensures u.fcbs[f].count == t.fcbs[f].count {
      SameFcbRefs(t, u, f);
      assert FcbOk(t, dir, f) && FcbOk(u, dir, f);
    }
  }

  lemma SameRefs(t: Tables, u: Tables, d: nat)
    requires forall q :: At(u, q) == At(t, q)
    ensures Refs(u, d) == Refs(t, d)
  {
    forall q ensures q in Refs(u, d) <==> q in Refs(t, d) {
      InRefs(t, d, q);
      InRefs(u, d, q);
    }
  }

  lemma SameFcbRefs(t: Tables, u: Tables, f: nat)
    requires forall q :: At(u, q) == At(t, q)
    requires forall d: nat | Refs(t, d) != {} :: FcbOf(u, d) == FcbOf(t, d)
    ensures FcbRefs(u, f) == FcbRefs(t, f)
  {
    forall q ensures q in FcbRefs(u, f) <==> q in FcbRefs(t, f) {
      InFcbRefs(t, f, q);
      InFcbRefs(u, f, q);
      if At(t, q).Some? {
        assert q in Refs(t, At(t, q).value);
      }
    }
  }

  /** Reaping a freshly forked child restores the tables exactly. */
  lemma ForkThenReap(t: Tables, dir: seq<DirEntry>, parent: Slot, child: Slot)
    requires Counted(t, dir) && Legal(t, ForkOp(parent, child))
    ensures var s := ForkFrom(t, child, t.files[parent], FDS);
            s.Some? && ReapFrom(s.value, child, FDS) == Some(t)
  {
    ForkCounted(t, dir, parent, child, FDS);
    var s := ForkFrom(t, child, t.files[parent], FDS).value;
    ReapCounted(s, dir, child, FDS);
    var u := ReapFrom(s, child, FDS).value;
    forall q ensures At(u, q) == At(t, q) {
      if q.proc == child {
        assert At(t, q) == None;
      }
    }
    forall d: nat | Refs(t, d) != {} ensures FcbOf(u, d) == FcbOf(t, d) {
      SameRefs(t, u, d);
      var q :| q in Refs(u, d);
      RefLive(u, dir, q);
    }
    CountsDetermined(t, u, dir);
    SameFiles(t, u);
    assert u.descs == t.descs;
    assert u.fcbs == t.fcbs;
  }

  /** Closing the file number that open returned restores slots, counts and targets. */
  lemma OpenThenClose(t: Tables, dir: seq<DirEntry>, p: Slot, key: Option<Key>)
    requires Counted(t, dir) && p in t.files && |dir| <= |t.fcbs| && Open(t, dir, p, key).1.Some?
    ensures var (t', fd) := Open(t, dir, p, key);
            var u := Close(t', Ref(p, fd.value));
            && u.Some? && u.value.files == t.files && |u.value.descs| == |t.descs| && |u.value.fcbs| == |t.fcbs|
            && (forall d | 0 <= d < |t.descs| ::
                  u.value.descs[d].count == t.descs[d].count && u.value.descs[d].fcb == t.descs[d].fcb)
            && (forall f | 0 <= f < |t.fcbs| :: u.value.fcbs[f].count == t.fcbs[f].count)
  {
    var (t', fd) := Open(t, dir, p, key);
    var r := Ref(p, fd.value);
    OpenCounted(t, dir, p, key);
    assert At(t', r).Some?;
    CloseCounted(t', dir, r);
    var u := Close(t', r).value;
    var d := At(t', r).value;
    forall q ensures At(u, q) == At(t, q) {
      AtWithSlot(t, r, Some(d), q);
      AtWithSlot(t', r, None, q);
    }
    assert DescOk(t, d);
    forall e: nat | Refs(t, e) != {} ensures FcbOf(u, e) == FcbOf(t, e) {
      assert e != d;
    }
    CountsDetermined(t, u, dir);
    SameFiles(t, u);
  }

  // ------------------------------------------------- what a file number stands for

  /** The file and the position behind a file number. */
  datatype OpenFile = OpenFile(meta: Meta, dirIndex: nat, position: nat)

  function Seen(t: Tables, r: Ref): Option<OpenFile> {
    match At(t, r)
    case None => None
    case Some(d) =>
      match FcbOf(t, d)
      case None => None
      case Some(f) =>
        if f < |t.fcbs| then Some(OpenFile(t.fcbs[f].meta, t.fcbs[f].dirIndex, t.descs[d].position)) else None
  }

  /** Two file numbers share one position. */
  predicate Shares(t: Tables, q: Ref, r: Ref) {
    At(t, q).Some? && At(t, q) == At(t, r)
  }

  /** Each operation as its caller understands it: file numbers are opened at position 0, closed, copied or
      moved, and no other file number changes its file or its position. */
  ghost predicate ActsAs(t: Tables, dir: seq<DirEntry>, op: Op, t': Tables) {
    match op
    case OpenOp(p, key) =>
      || (forall q :: Seen(t', q) == Seen(t, q) && At(t', q) == At(t, q))
      || exists fd: nat, f: nat :: fd < FDS && f < |dir| && Opens(t, dir, Ref(p, fd), f, t')
    case CloseOp(r) => forall q :: Seen(t', q) == (if q == r then None else Seen(t, q))
    case AdvanceOp(r, n) =>
      forall q :: Seen(t', q) == if Shares(t, q, r) then Moved(Seen(t, q), n) else Seen(t, q)
    case ForkOp(parent, child) =>
      forall q :: Seen(t', q) == (if q.proc == child then Seen(t, Ref(parent, q.fd)) else Seen(t, q))
                  && (q.proc == child ==> At(t', q) == At(t, Ref(parent, q.fd)))
    case ReapOp(p) => forall q :: Seen(t', q) == (if q.proc == p then None else Seen(t, q))
  }

  /** The file number `r` was unused and stands for entry `f` of the directory, sharing its position with no
      other. */
  ghost predicate Opens(t: Tables, dir: seq<DirEntry>, r: Ref, f: nat, t': Tables)
    requires f < |dir|
  {
    && At(t, r) == None
    && forall q :: Seen(t', q) == (if q == r then Some(OpenFile(dir[f].meta, f, 0)) else Seen(t, q))
                   && (q != r ==> !Shares(t', q, r))
  }

  function Moved(o: Option<OpenFile>, n: nat): Option<OpenFile> {
    match o case None => None case Some(x) => Some(x.(position := x.position + n))
  }

  lemma OpenSeen(t: Tables, dir: seq<DirEntry>, p: Slot, key: Option<Key>)
    requires Counted(t, dir) && p in t.files && |dir| <= |t.fcbs|
    ensures ActsAs(t, dir, OpenOp(p, key), Open(t, dir, p, key).0)
  {
    OpenResult(t, dir, p, key);
    var (t', fd) := Open(t, dir, p, key);
    if fd.Some? {
      var r := Ref(p, fd.value);
      var d, f :| Opened(t, t', dir, r, key.value, d, f);
      OpenedSeen(t, t', dir, r, key.value, d, f);
      assert Opens(t, dir, r, f, t');
    }
  }

  lemma OpenedSeen(t: Tables, t': Tables, dir: seq<DirEntry>, r: Ref, key: Key, d: nat, f: nat)
    requires Counted(t, dir) && Opened(t, t', dir, r, key, d, f)
    ensures f < |dir| && Opens(t, dir, r, f, t')
  {
    forall q
      ensures Seen(t', q) == if q == r then Some(OpenFile(dir[f].meta, f, 0)) else Seen(t, q)
      ensures q != r ==> !Shares(t', q, r)
    {
      if q != r && At(t, q).Some? {
        RefLive(t, dir, q);
        FcbRepeats(t, dir, q, f);
      }
    }
  }

  /** A control block in use repeats its directory entry. */
  lemma FcbRepeats(t: Tables, dir: seq<DirEntry>, q: Ref, f: nat)
    requires Counted(t, dir) && At(t, q).Some? && f < |dir| <= |t.fcbs|
    ensures FcbOf(t, At(t, q).value) == Some(f) ==> t.fcbs[f].meta == dir[f].meta && t.fcbs[f].dirIndex == f
  {
    RefLive(t, dir, q);
    assert FcbOk(t, dir, f);
  }

  /** close_file: the slot is empty, the descriptor keeps its position and loses one count, and its target
      at zero; the control block loses one user; nothing else changes. */
  ghost predicate Closed(t: Tables, t': Tables, r: Ref) {
    && |t'.descs| == |t.descs| && |t'.fcbs| == |t.fcbs| && t'.files.Keys == t.files.Keys
    && At(t, r).Some? && Usable(t, At(t, r).value) && At(t', r) == None && DiffersAt(t, t', r)
    && var d := At(t, r).value;
       var f := t.descs[d].fcb.value;
       && t'.descs[d].position == t.descs[d].position && t'.descs[d].count == t.descs[d].count - 1
       && t'.descs[d].fcb == (if t.descs[d].count == 1 then None else Some(f))
       && (forall e | 0 <= e < |t.descs| && e != d :: t'.descs[e] == t.descs[e])
       && t'.fcbs[f] == t.fcbs[f].(count := t.fcbs[f].count - 1)
       && (forall g | 0 <= g < |t.fcbs| && g != f :: t'.fcbs[g] == t.fcbs[g])
  }

  lemma CloseResult(t: Tables, dir: seq<DirEntry>, r: Ref)
    requires Counted(t, dir) && At(t, r).Some?
    ensures Close(t, r).Some? && Closed(t, Close(t, r).value, r)
    ensures ActsAs(t, dir, CloseOp(r), Close(t, r).value)
  {
    CloseCounted(t, dir, r);
    var t' := Close(t, r).value;
    forall q ensures At(t', q) == if q == r then None else At(t, q) {
      AtWithSlot(t, r, None, q);
    }
    forall q ensures Seen(t', q) == if q == r then None else Seen(t, q) {
      if At(t', q).Some? {
        RefLive(t', dir, q);
      }
    }
  }

  lemma AdvanceSeen(t: Tables, dir: seq<DirEntry>, r: Ref, n: nat)
    requires Counted(t, dir) && At(t, r).Some?
    ensures Advance(t, r, n).Some? && ActsAs(t, dir, AdvanceOp(r, n), Advance(t, r, n).value)
  {
    AdvanceCounted(t, dir, r, n);
    var t' := Advance(t, r, n).value;
    forall q ensures Seen(t', q) == if Shares(t, q, r) then Moved(Seen(t, q), n) else Seen(t, q) {
      assert At(t', q) == At(t, q);
    }
  }

  lemma ForkSeen(t: Tables, dir: seq<DirEntry>, parent: Slot, child: Slot)
    requires Counted(t, dir) && Legal(t, ForkOp(parent, child))
    ensures var s := ForkFrom(t, child, t.files[parent], FDS);
            s.Some? && ActsAs(t, dir, ForkOp(parent, child), s.value)
  {
    ForkCounted(t, dir, parent, child, FDS);
    var s := ForkFrom(t, child, t.files[parent], FDS).value;
    forall q
      ensures Seen(s, q) == if q.proc == child then Seen(t, Ref(parent, q.fd)) else Seen(t, q)
      ensures q.proc == child ==> At(s, q) == At(t, Ref(parent, q.fd))
    {
      assert q.proc == child && q.fd >= FDS ==> At(s, q) == None == At(t, Ref(parent, q.fd));
    }
  }

  lemma ReapSeen(t: Tables, dir: seq<DirEntry>, p: Slot)
    requires Counted(t, dir) && p in t.files
    ensures var s := ReapFrom(t, p, FDS); s.Some? && ActsAs(t, dir, ReapOp(p), s.value)
  {
    ReapCounted(t, dir, p, FDS);
    var s := ReapFrom(t, p, FDS).value;
    forall q ensures Seen(s, q) == if q.proc == p then None else Seen(t, q) {
      if At(s, q).Some? {
        RefLive(s, dir, q);
      }
    }
  }

  /** The two tables with their counts implement what each process sees: every legal operation changes the
      files and positions behind file numbers as its caller understands it, and no others. */
  lemma DoActsAs(t: Tables, dir: seq<DirEntry>, op: Op)
    requires Counted(t, dir) && Legal(t, op) && |dir| <= |t.fcbs|
    ensures Do(t, dir, op).Some? && ActsAs(t, dir, op, Do(t, dir, op).value)
  {
    match op
    case OpenOp(p, key) => OpenSeen(t, dir, p, key);
    case CloseOp(r) => CloseResult(t, dir, r);
    case AdvanceOp(r, n) => AdvanceSeen(t, dir, r, n);
    case ForkOp(parent, child) => ForkSeen(t, dir, parent, child);
    case ReapOp(p) => ReapSeen(t, dir, p);
  }
}
