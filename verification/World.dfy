/**
  The scheduler, the memory of processes and their open files as one system.  A step of the scheduler
  that forks has the effects of `Processes.Fork` and `FileSystem.ForkFiles`, a step that reaps has those
  of `Processes.Reap` and `FileSystem.ReapFiles`, and between steps processes may execute programs, write
  to their program page and open, read and close files.  The effects say which kallocs, kfrees and stores
  happen; that memory stays sound is proved from them.
 */
module World {
  import opened Wrappers
  import opened Pages
  import opened Scheduler
  import opened SchedulerInvariant
  import opened SchedulerRuns
  import opened SchedulerChildren
  import opened SchedulerTheorems
  import opened PageMapping
  import ProcessSpaces
  import FileTable

  datatype World = World(sys: Sys, memory: ProcessSpaces.State, tables: FileTable.Tables)

  /** Exactly the live processes own memory; every entry has a file array, empty for unused entries. */
  ghost predicate Fits(ps: Table, spaces: ProcessSpaces.Spaces, files: map<Slot, FileTable.Row>) {
    && (forall s :: s in spaces <==> Alive(ps, s))
    && (forall s :: s in files <==> s in ps)
    && (forall s | s in ps && s.index > 0 && !Alive(ps, s) :: files[s] == FileTable.EmptyRow())
  }

  ghost predicate WorldInv(w: World, dir: seq<FileTable.DirEntry>) {
    && Inv(w.sys) && ProcessSpaces.StateOk(w.memory)
    && FileTable.Counted(w.tables, dir) && |dir| <= |w.tables.fcbs|
    && Fits(w.sys.procs, w.memory.spaces, w.tables.files)
  }

  // -------------------------------------------------------------------- the steps

  /** A fork whose source, the current process of core 0, is a user process. */
  ghost predicate ForkStep(w: World, a: Action, w': World, dir: seq<FileTable.DirEntry>)
    requires Shape(w.sys) && |dir| <= |w.tables.fcbs|
  {
    var parent, child := w.sys.cores[0].current, Child(w.sys);
    && ProcessSpaces.ForkEffect(w.memory, w'.memory, parent, child)
    && FileTable.Legal(w.tables, FileTable.ForkOp(parent, child))
    && FileTable.Do(w.tables, dir, FileTable.ForkOp(parent, child)) == Some(w'.tables)
  }

  ghost predicate ReapStep(w: World, a: Action, w': World, dir: seq<FileTable.DirEntry>)
    requires Shape(w.sys) && |dir| <= |w.tables.fcbs| && a.core < MAXCORES && Reaps(w.sys, a.core)
  {
    var s := Reaped(w.sys, a.core);
    && ProcessSpaces.ReapEffect(w.memory, w'.memory, s)
    && FileTable.Legal(w.tables, FileTable.ReapOp(s))
    && FileTable.Do(w.tables, dir, FileTable.ReapOp(s)) == Some(w'.tables)
  }

  /** A step of one core. */
  ghost predicate CoreStep(w: World, a: Action, w': World, dir: seq<FileTable.DirEntry>) {
    && |dir| <= |w.tables.fcbs| && Next(w.sys, a, w'.sys)
    && if Forks(w.sys, a.core) then ForkStep(w, a, w', dir)
       else if Reaps(w.sys, a.core) then ReapStep(w, a, w', dir)
       else w'.memory == w.memory && w'.tables == w.tables
  }

  /** exec, open, read, close or a store by process `s`: its program page may get new contents, and one
      operation on its files may happen. */
  ghost predicate UserStep(w: World, s: Slot, w': World, dir: seq<FileTable.DirEntry>) {
    && w'.sys == w.sys && |dir| <= |w.tables.fcbs| && Alive(w.sys.procs, s)
    && (w'.memory == w.memory || ProcessSpaces.WriteEffect(w.memory, w'.memory, s))
    && (w'.tables == w.tables || exists op :: FileStep(w.tables, s, op, w'.tables, dir))
  }

  ghost predicate FileStep(t: FileTable.Tables, s: Slot, op: FileTable.Op, t': FileTable.Tables,
                           dir: seq<FileTable.DirEntry>)
    requires |dir| <= |t.fcbs|
  {
    && FileTable.Legal(t, op) && FileTable.Do(t, dir, op) == Some(t')
    && match op
       case OpenOp(p, _) => p == s
       case CloseOp(r) => r.proc == s
       case AdvanceOp(r, _) => r.proc == s
       case _ => false
  }

  datatype Label = CoreLabel(a: Action) | UserLabel(s: Slot)

  ghost predicate WorldStep(w: World, l: Label, w': World, dir: seq<FileTable.DirEntry>) {
    match l
    case CoreLabel(a) => CoreStep(w, a, w', dir)
    case UserLabel(s) => UserStep(w, s, w', dir)
  }

  ghost predicate WorldRun(ws: seq<World>, ls: seq<Label>, dir: seq<FileTable.DirEntry>) {
    && |ws| == |ls| + 1 && Initial(ws[0].sys) && WorldInv(ws[0], dir)
    && forall i: nat | i < |ls| :: StepsAt(ws, ls, dir, i)
  }

  ghost predicate StepsAt(ws: seq<World>, ls: seq<Label>, dir: seq<FileTable.DirEntry>, i: nat) {
    i < |ls| && i + 1 < |ws| && WorldStep(ws[i], ls[i], ws[i + 1], dir)
  }

  // ------------------------------------------------------------------ the invariant

  lemma FitsQuiet(ps: Table, ps': Table, spaces: ProcessSpaces.Spaces, files: map<Slot, FileTable.Row>)
    requires Fits(ps, spaces, files) && SameAlive(ps, ps') && forall s :: s in ps' <==> s in ps
    ensures Fits(ps', spaces, files)
  {
  }

  lemma FitsBorn(ps: Table, spaces: ProcessSpaces.Spaces, files: map<Slot, FileTable.Row>, child: Slot, p: Proc,
                 spaces': ProcessSpaces.Spaces, files': map<Slot, FileTable.Row>)
    requires Fits(ps, spaces, files) && child in ps && child.index > 0 && p.state != Unused
    requires spaces'.Keys == spaces.Keys + {child} && files'.Keys == files.Keys
    requires forall s | s in files && s != child :: files'[s] == files[s]
    ensures Fits(ps[child := p], spaces', files')
  {
    forall s ensures s in spaces' <==> Alive(ps[child := p], s) {
      assert s in spaces' <==> s in spaces'.Keys;
      assert s in spaces <==> s in spaces.Keys;
    }
    forall s ensures s in files' <==> s in files {
      assert s in files'.Keys <==> s in files.Keys;
    }
  }

  lemma FitsReaped(ps: Table, spaces: ProcessSpaces.Spaces, files: map<Slot, FileTable.Row>, k: Slot,
                   files': map<Slot, FileTable.Row>)
    requires Fits(ps, spaces, files) && k in ps && k.index > 0
    requires files'.Keys == files.Keys && k in files' && files'[k] == FileTable.EmptyRow()
    requires forall s | s in files && s != k :: files'[s] == files[s]
    ensures Fits(ps[k := ZEROED], spaces - {k}, files')
  {
    forall s ensures s in files' <==> s in files {
      assert s in files'.Keys <==> s in files.Keys;
    }
  }

  /** The rows of the file arrays that an operation leaves alone. */
  lemma RowsKept(t: FileTable.Tables, dir: seq<FileTable.DirEntry>, op: FileTable.Op, t': FileTable.Tables, p: Slot)
    requires FileTable.Counted(t, dir) && |dir| <= |t.fcbs| && FileTable.Legal(t, op)
    requires FileTable.Do(t, dir, op) == Some(t')
    requires p == match op case OpenOp(q, _) => q case CloseOp(r) => r.proc case AdvanceOp(r, _) => r.proc
                           case ForkOp(_, c) => c case ReapOp(q) => q
    ensures t'.files.Keys == t.files.Keys && forall s | s in t.files && s != p :: t'.files[s] == t.files[s]
    ensures op.ReapOp? ==> t'.files[p] == FileTable.EmptyRow()
  {
    match op
    case OpenOp(q, key) =>
    case CloseOp(r) =>
    case AdvanceOp(r, n) =>
    case ForkOp(parent, child) =>
      FileTable.ForkCounted(t, dir, parent, child, FileTable.FDS);
      SameRows(t, t', p);
    case ReapOp(q) =>
      FileTable.ReapCounted(t, dir, q, FileTable.FDS);
      SameRows(t, t', p);
      forall i | 0 <= i < FileTable.FDS ensures t'.files[p][i] == None {
        assert FileTable.At(t', FileTable.Ref(p, i)) == None;
      }
  }

  lemma SameRows(t: FileTable.Tables, t': FileTable.Tables, p: Slot)
    requires t'.files.Keys == t.files.Keys
    requires forall q: FileTable.Ref | q.proc != p :: FileTable.At(t', q) == FileTable.At(t, q)
    ensures forall s | s in t.files && s != p :: t'.files[s] == t.files[s]
  {
    forall s | s in t.files && s != p ensures t'.files[s] == t.files[s] {
      forall i | 0 <= i < FileTable.FDS ensures t'.files[s][i] == t.files[s][i] {
        assert FileTable.At(t', FileTable.Ref(s, i)) == FileTable.At(t, FileTable.Ref(s, i));
      }
    }
  }

  lemma ForkInv(w: World, a: Action, w': World, dir: seq<FileTable.DirEntry>)
    requires WorldInv(w, dir) && CoreStep(w, a, w', dir) && Forks(w.sys, a.core)
    ensures ProcessSpaces.StateOk(w'.memory)
    ensures FileTable.Counted(w'.tables, dir) && |w'.tables.fcbs| == |w.tables.fcbs|
    ensures Fits(w'.sys.procs, w'.memory.spaces, w'.tables.files)
  {
    var parent, child := w.sys.cores[0].current, Child(w.sys);
    var op := FileTable.ForkOp(parent, child);
    ForkAlive(w.sys, a);
    ProcessSpaces.ForkKeeps(w.memory, w'.memory, parent, child);
    FileTable.DoCounted(w.tables, dir, op);
    RowsKept(w.tables, dir, op, w'.tables, child);
    SpacesBorn(w.memory.spaces, w'.memory.spaces, child);
    FitsBorn(w.sys.procs, w.memory.spaces, w.tables.files, child, Proc(Ready, w.sys.nextPid, 0, AtPstart),
             w'.memory.spaces, w'.tables.files);
  }

  lemma SpacesBorn(ps: ProcessSpaces.Spaces, ps': ProcessSpaces.Spaces, child: Slot)
    requires ProcessSpaces.Joined(ps, ps', child)
    ensures ps'.Keys == ps.Keys + {child}
  {
  }

  lemma ReapInv(w: World, a: Action, w': World, dir: seq<FileTable.DirEntry>)
    requires WorldInv(w, dir) && CoreStep(w, a, w', dir) && !Forks(w.sys, a.core) && Reaps(w.sys, a.core)
    ensures ProcessSpaces.StateOk(w'.memory)
    ensures FileTable.Counted(w'.tables, dir) && |w'.tables.fcbs| == |w.tables.fcbs|
    ensures Fits(w'.sys.procs, w'.memory.spaces, w'.tables.files)
  {
    var s := Reaped(w.sys, a.core);
    var op := FileTable.ReapOp(s);
    ReapAlive(w.sys, a);
    ProcessSpaces.ReapKeeps(w.memory, w'.memory, s);
    FileTable.DoCounted(w.tables, dir, op);
    RowsKept(w.tables, dir, op, w'.tables, s);
    FitsReaped(w.sys.procs, w.memory.spaces, w.tables.files, s, w'.tables.files);
  }

  lemma CoreStepInv(w: World, a: Action, w': World, dir: seq<FileTable.DirEntry>)
    requires WorldInv(w, dir) && CoreStep(w, a, w', dir)
    ensures WorldInv(w', dir)
  {
    NextInv(w.sys, a, w'.sys);
    if Forks(w.sys, a.core) {
      ForkInv(w, a, w', dir);
    } else if Reaps(w.sys, a.core) {
      ReapInv(w, a, w', dir);
    } else {
      QuietAlive(w.sys, a);
      SameEntries(w.sys, w'.sys);
      FitsQuiet(w.sys.procs, w'.sys.procs, w.memory.spaces, w.tables.files);
    }
  }

  lemma SameEntries(sys: Sys, sys': Sys)
    requires Inv(sys) && Inv(sys')
    ensures forall s :: s in sys'.procs <==> s in sys.procs
  {
  }

  lemma UserStepInv(w: World, s: Slot, w': World, dir: seq<FileTable.DirEntry>)
    requires WorldInv(w, dir) && UserStep(w, s, w', dir)
    ensures WorldInv(w', dir)
  {
    if w'.memory != w.memory {
      ProcessSpaces.WriteKeeps(w.memory, w'.memory, s);
    }
    if w'.tables != w.tables {
      var op :| FileStep(w.tables, s, op, w'.tables, dir);
      FileStepInv(w, s, op, w'.tables, dir);
    }
  }

  lemma FileStepInv(w: World, s: Slot, op: FileTable.Op, t': FileTable.Tables, dir: seq<FileTable.DirEntry>)
    requires WorldInv(w, dir) && Alive(w.sys.procs, s) && FileStep(w.tables, s, op, t', dir)
    ensures FileTable.Counted(t', dir) && |t'.fcbs| == |w.tables.fcbs|
    ensures Fits(w.sys.procs, w.memory.spaces, t'.files)
  {
    FileTable.DoCounted(w.tables, dir, op);
    RowsKept(w.tables, dir, op, t', s);
    FitsRow(w.sys.procs, w.memory.spaces, w.tables.files, t'.files, s);
  }

  lemma FitsRow(ps: Table, spaces: ProcessSpaces.Spaces, files: map<Slot, FileTable.Row>,
                files': map<Slot, FileTable.Row>, p: Slot)
    requires Fits(ps, spaces, files) && Alive(ps, p) && files'.Keys == files.Keys
    requires forall s | s in files && s != p :: files'[s] == files[s]
    ensures Fits(ps, spaces, files')
  {
    forall s ensures s in files' <==> s in files {
      assert s in files'.Keys <==> s in files.Keys;
    }
  }

  lemma WorldStepInv(w: World, l: Label, w': World, dir: seq<FileTable.DirEntry>)
    requires WorldInv(w, dir) && WorldStep(w, l, w', dir)
    ensures WorldInv(w', dir)
  {
    match l
    case CoreLabel(a) => CoreStepInv(w, a, w', dir);
    case UserLabel(s) => UserStepInv(w, s, w', dir);
  }

  lemma {:induction false} WorldReachable(ws: seq<World>, ls: seq<Label>, dir: seq<FileTable.DirEntry>, n: nat)
    requires WorldRun(ws, ls, dir) && n < |ws|
    ensures WorldInv(ws[n], dir)
    decreases n
  {
    if n > 0 {
      WorldReachable(ws, ls, dir, n - 1);
      StepInvAt(ws, ls, dir, n - 1);
    }
  }

  lemma StepInvAt(ws: seq<World>, ls: seq<Label>, dir: seq<FileTable.DirEntry>, i: nat)
    requires i < |ls| && i + 1 < |ws| && WorldInv(ws[i], dir) && StepsAt(ws, ls, dir, i)
    ensures WorldInv(ws[i + 1], dir)
  {
    WorldStepInv(ws[i], ls[i], ws[i + 1], dir);
  }

  // -------------------------------------------------------------------- the results

  /** In every reachable state, the process that a core runs and the process whose stack it is on own
      memory, and every page of theirs is allocated, in no free block and owned by no other process. */
  lemma RunningPages(ws: seq<World>, ls: seq<Label>, dir: seq<FileTable.DirEntry>, n: nat, c: nat, s: Slot, x: nat)
    requires WorldRun(ws, ls, dir) && n < |ws| && c < MAXCORES && c < |ws[n].sys.cores|
    requires s.index > 0 && (s == ws[n].sys.cores[c].current || s == OnStack(ws[n].sys.cores[c]))
    ensures s in ws[n].memory.spaces
    ensures ProcessSpaces.Owns(ws[n].memory.mem, ws[n].memory.spaces[s], x) ==>
              ProcessSpaces.PageIsOwn(ws[n].memory, s, x)
  {
    WorldReachable(ws, ls, dir, n);
    var w := ws[n];
    assert HomeAt(w.sys, c);
    RunnersAlive(w.sys.cores[c], w.sys.procs, c);
    if ProcessSpaces.Owns(w.memory.mem, w.memory.spaces[s], x) {
      ProcessSpaces.OwnedInState(w.memory, s, x);
    }
  }

  /** The number of forks among the first `n` steps. */
  ghost function ForkCount(ws: seq<World>, ls: seq<Label>, n: nat): nat
    requires n <= |ls| < |ws|
  {
    if n == 0 then 0
    else ForkCount(ws, ls, n - 1) + if IsFork(ws[n - 1], ls[n - 1]) then 1 else 0
  }

  ghost predicate IsFork(w: World, l: Label) {
    l.CoreLabel? && l.a.core < |w.sys.cores| && Forks(w.sys, l.a.core)
  }

  lemma BornStep(w: World, l: Label, w': World, dir: seq<FileTable.DirEntry>)
    requires WorldInv(w, dir) && WorldStep(w, l, w', dir)
    ensures w'.memory.size == w.memory.size
    ensures w'.memory.born == w.memory.born + if IsFork(w, l) then 1 else 0
  {
  }

  lemma BornAt(ws: seq<World>, ls: seq<Label>, dir: seq<FileTable.DirEntry>, i: nat)
    requires WorldRun(ws, ls, dir) && i < |ls|
    ensures ws[i + 1].memory.size == ws[i].memory.size
    ensures ws[i + 1].memory.born == ws[i].memory.born + if IsFork(ws[i], ls[i]) then 1 else 0
  {
    WorldReachable(ws, ls, dir, i);
    assert StepsAt(ws, ls, dir, i);
    BornStep(ws[i], ls[i], ws[i + 1], dir);
  }

  lemma {:induction false} BornCount(ws: seq<World>, ls: seq<Label>, dir: seq<FileTable.DirEntry>, n: nat)
    requires WorldRun(ws, ls, dir) && n < |ws|
    ensures ws[n].memory.size == ws[0].memory.size
    ensures ws[n].memory.born == ws[0].memory.born + ForkCount(ws, ls, n)
    decreases n
  {
    if n > 0 {
      BornCount(ws, ls, dir, n - 1);
      BornAt(ws, ls, dir, n - 1);
    }
  }

  /** Over a whole run the pages of the region allow at most a fifth as many forks, whatever is reaped. */
  lemma ForksAreBounded(ws: seq<World>, ls: seq<Label>, dir: seq<FileTable.DirEntry>, n: nat)
    requires WorldRun(ws, ls, dir) && n < |ws|
    ensures 5 * (ws[0].memory.born + ForkCount(ws, ls, n)) <= ws[0].memory.size / PAGE_SIZE
  {
    WorldReachable(ws, ls, dir, n);
    BornCount(ws, ls, dir, n);
    ProcessSpaces.BirthsAreBounded(ws[n].memory);
  }

  /** A fork copies core 0's current process: that is the caller exactly when the call is made on core 0.
      Caller and copied process own memory, unless core 0 is idle. */
  lemma ForkSourceIsCaller(ws: seq<World>, ls: seq<Label>, dir: seq<FileTable.DirEntry>, n: nat, c: nat)
    requires WorldRun(ws, ls, dir) && n < |ws| && c < MAXCORES == |ws[n].sys.cores| && Forks(ws[n].sys, c)
    ensures var (w, source, caller) := (ws[n], ws[n].sys.cores[0].current, ws[n].sys.cores[c].current);
            && (source == caller <==> c == 0)
            && caller in w.memory.spaces && (source in w.memory.spaces <==> source.index > 0)
  {
    WorldReachable(ws, ls, dir, n);
    var w := ws[n];
    CurrentHome(w, dir, 0);
    CurrentHome(w, dir, c);
    CallerIsUser(w.sys, c);
  }

  /** The child of a fork has the program page contents and the file array of the process that core 0 ran. */
  lemma ForkCopies(ws: seq<World>, ls: seq<Label>, dir: seq<FileTable.DirEntry>, n: nat)
    requires WorldRun(ws, ls, dir) && n < |ls| && IsFork(ws[n], ls[n])
    ensures Shape(ws[n].sys)
    ensures var (w, w') := (ws[n], ws[n + 1]); var (source, child) := (w.sys.cores[0].current, Child(w.sys));
            && source in w.memory.spaces && child !in w.memory.spaces && child in w'.memory.spaces
            && ProcessSpaces.Copied(w.memory.mem, w'.memory.mem, w.memory.spaces[source], w'.memory.spaces[child])
            && source in w.tables.files && child in w'.tables.files && w'.tables.files[child] == w.tables.files[source]
  {
    WorldReachable(ws, ls, dir, n);
    assert StepsAt(ws, ls, dir, n);
    ForkCopy(ws[n], ls[n].a, ws[n + 1], dir);
  }

  lemma ForkCopy(w: World, a: Action, w': World, dir: seq<FileTable.DirEntry>)
    requires WorldInv(w, dir) && ForkStep(w, a, w', dir)
    ensures var source, child := w.sys.cores[0].current, Child(w.sys);
            && source in w.memory.spaces && child !in w.memory.spaces && child in w'.memory.spaces
            && ProcessSpaces.Copied(w.memory.mem, w'.memory.mem, w.memory.spaces[source], w'.memory.spaces[child])
            && source in w.tables.files && child in w'.tables.files && w'.tables.files[child] == w.tables.files[source]
  {
    var source, child := w.sys.cores[0].current, Child(w.sys);
    ProcessSpaces.ForkKeeps(w.memory, w'.memory, source, child);
    FileTable.ForkSeen(w.tables, dir, source, child);
    RowsKept(w.tables, dir, FileTable.ForkOp(source, child), w'.tables, child);
    RowCopied(w.tables, w'.tables, source, child);
  }

  lemma RowCopied(t: FileTable.Tables, t': FileTable.Tables, source: Slot, child: Slot)
    requires source in t.files && child in t.files && t'.files.Keys == t.files.Keys
    requires forall q: FileTable.Ref | q.proc == child ::
               FileTable.At(t', q) == FileTable.At(t, FileTable.Ref(source, q.fd))
    ensures child in t'.files && t'.files[child] == t.files[source]
  {
    assert child in t'.files.Keys;
    forall i | 0 <= i < FileTable.FDS ensures t'.files[child][i] == t.files[source][i] {
      assert FileTable.At(t', FileTable.Ref(child, i)) == FileTable.At(t, FileTable.Ref(source, i));
    }
  }

  /** The current process of a core is at home there, and owns memory unless it is the idle process. */
  lemma CurrentHome(w: World, dir: seq<FileTable.DirEntry>, c: nat)
    requires WorldInv(w, dir) && c < MAXCORES
    ensures var s := w.sys.cores[c].current; s.core == c && (s in w.memory.spaces <==> s.index > 0)
  {
    assert HomeAt(w.sys, c);
    RunnersAlive(w.sys.cores[c], w.sys.procs, c);
  }

  lemma CallerIsUser(sys: Sys, c: nat)
    requires Inv(sys) && c < MAXCORES && Forks(sys, c)
    ensures sys.cores[c].current.index > 0
  {
    assert HomeAt(sys, c);
    assert CurrentOk(sys.cores[c], sys.procs);
  }

  // ---------------------------------------------------------------------- isolation

  /** The step is not one of process `s`, and does not reap it. */
  ghost predicate LeavesAlone(w: World, l: Label, s: Slot) {
    match l
    case UserLabel(p) => p != s
    case CoreLabel(a) => !ReapsIt(w.sys, a.core, s)
  }

  /** The process has the same stack, page map, pages, page contents, translations and file array. */
  ghost predicate Kept(w: World, w': World, s: Slot) {
    ProcessSpaces.SpaceKept(w.memory, w'.memory, s) && RowKept(w.tables.files, w'.tables.files, s)
  }

  ghost predicate RowKept(files: map<Slot, FileTable.Row>, files': map<Slot, FileTable.Row>, s: Slot) {
    s in files && s in files' && files'[s] == files[s]
  }

  lemma LiveHasRow(ps: Table, spaces: ProcessSpaces.Spaces, files: map<Slot, FileTable.Row>, s: Slot)
    requires Fits(ps, spaces, files) && s in spaces
    ensures Alive(ps, s) && s in files
  {
  }

  lemma RowSpared(w: World, op: FileTable.Op, t': FileTable.Tables, dir: seq<FileTable.DirEntry>, p: Slot, s: Slot)
    requires WorldInv(w, dir) && s in w.memory.spaces && s != p
    requires FileTable.Legal(w.tables, op) && FileTable.Do(w.tables, dir, op) == Some(t')
    requires p == match op case OpenOp(q, _) => q case CloseOp(r) => r.proc case AdvanceOp(r, _) => r.proc
                           case ForkOp(_, c) => c case ReapOp(q) => q
    ensures RowKept(w.tables.files, t'.files, s)
  {
    LiveHasRow(w.sys.procs, w.memory.spaces, w.tables.files, s);
    RowsKept(w.tables, dir, op, t', p);
    assert s in t'.files.Keys;
  }

  lemma KeptSame(w: World, w': World, dir: seq<FileTable.DirEntry>, s: Slot)
    requires WorldInv(w, dir) && s in w.memory.spaces && w'.memory == w.memory && w'.tables == w.tables
    ensures Kept(w, w', s)
  {
    ProcessSpaces.UntouchedRefl(w.memory.mem, w.memory.spaces);
    LiveHasRow(w.sys.procs, w.memory.spaces, w.tables.files, s);
  }

  lemma KeptTrans(w: World, w1: World, w2: World, s: Slot)
    requires Kept(w, w1, s) && Kept(w1, w2, s)
    ensures Kept(w, w2, s)
  {
    ProcessSpaces.UntouchedOneTrans(w.memory.mem, w1.memory.mem, w2.memory.mem, w.memory.spaces[s]);
  }

  lemma ForkLeaves(w: World, a: Action, w': World, dir: seq<FileTable.DirEntry>, s: Slot)
    requires WorldInv(w, dir) && Shape(w.sys) && ForkStep(w, a, w', dir) && s in w.memory.spaces
    requires !Alive(w.sys.procs, Child(w.sys))
    ensures Kept(w, w', s)
  {
    var parent, child := w.sys.cores[0].current, Child(w.sys);
    LiveHasRow(w.sys.procs, w.memory.spaces, w.tables.files, s);
    ProcessSpaces.ForkSpares(w.memory, w'.memory, parent, child, s);
    RowSpared(w, FileTable.ForkOp(parent, child), w'.tables, dir, child, s);
  }

  lemma ReapLeaves(w: World, a: Action, w': World, dir: seq<FileTable.DirEntry>, s: Slot)
    requires WorldInv(w, dir) && Shape(w.sys) && a.core < MAXCORES && Reaps(w.sys, a.core)
    requires ReapStep(w, a, w', dir) && s in w.memory.spaces && s != Reaped(w.sys, a.core)
    ensures Kept(w, w', s)
  {
    var k := Reaped(w.sys, a.core);
    ProcessSpaces.ReapSpares(w.memory, w'.memory, k, s);
    RowSpared(w, FileTable.ReapOp(k), w'.tables, dir, k, s);
  }

  lemma UserLeaves(w: World, p: Slot, w': World, dir: seq<FileTable.DirEntry>, s: Slot)
    requires WorldInv(w, dir) && UserStep(w, p, w', dir) && s in w.memory.spaces && s != p
    ensures Kept(w, w', s)
  {
    KeptSame(w, w, dir, s);
    if w'.memory != w.memory {
      ProcessSpaces.WriteSpares(w.memory, w'.memory, p, s);
    }
    if w'.tables != w.tables {
      var op :| FileStep(w.tables, p, op, w'.tables, dir);
      RowSpared(w, op, w'.tables, dir, p, s);
    }
  }

  lemma StepLeaves(w: World, l: Label, w': World, dir: seq<FileTable.DirEntry>, s: Slot)
    requires WorldInv(w, dir) && WorldStep(w, l, w', dir) && s in w.memory.spaces && LeavesAlone(w, l, s)
    ensures Kept(w, w', s)
  {
    match l
    case UserLabel(p) => UserLeaves(w, p, w', dir, s);
    case CoreLabel(a) =>
      if Forks(w.sys, a.core) {
        ForkAlive(w.sys, a);
        ForkLeaves(w, a, w', dir, s);
      } else if Reaps(w.sys, a.core) {
        ReapLeaves(w, a, w', dir, s);
      } else {
        KeptSame(w, w', dir, s);
      }
  }

  ghost predicate AloneAt(ws: seq<World>, ls: seq<Label>, i: nat, s: Slot) {
    i < |ls| && i < |ws| && LeavesAlone(ws[i], ls[i], s)
  }

  lemma LeavesAt(ws: seq<World>, ls: seq<Label>, dir: seq<FileTable.DirEntry>, i: nat, s: Slot)
    requires WorldRun(ws, ls, dir) && i < |ls| && s in ws[i].memory.spaces && AloneAt(ws, ls, i, s)
    ensures Kept(ws[i], ws[i + 1], s)
  {
    WorldReachable(ws, ls, dir, i);
    assert StepsAt(ws, ls, dir, i);
    StepLeaves(ws[i], ls[i], ws[i + 1], dir, s);
  }

  /** Isolation over every run: whatever all other processes and cores do, a process that takes no step of
      its own and is not reaped keeps its pages, their contents, its translations and its file array. */
  lemma {:induction false} Isolation(ws: seq<World>, ls: seq<Label>, dir: seq<FileTable.DirEntry>, m: nat, n: nat,
                                     s: Slot)
    requires WorldRun(ws, ls, dir) && m <= n < |ws| && s in ws[m].memory.spaces
    requires forall i: nat | m <= i < n :: AloneAt(ws, ls, i, s)
    ensures Kept(ws[m], ws[n], s)
    decreases n
  {
    if m == n {
      WorldReachable(ws, ls, dir, m);
      KeptSame(ws[m], ws[m], dir, s);
    } else {
      Isolation(ws, ls, dir, m, n - 1, s);
      LeavesAt(ws, ls, dir, n - 1, s);
      KeptTrans(ws[m], ws[n - 1], ws[n], s);
    }
  }

  /** The process has the same stack, page map, pages and translations. */
  ghost predicate Placed(w: World, w': World, s: Slot) {
    && s in w.memory.spaces && s in w'.memory.spaces && w'.memory.spaces[s] == w.memory.spaces[s]
    && (forall x :: ProcessSpaces.Owns(w'.memory.mem, w.memory.spaces[s], x) <==>
                      ProcessSpaces.Owns(w.memory.mem, w.memory.spaces[s], x))
    && SameWalks(w.memory.mem, w'.memory.mem, w.memory.spaces[s].root)
  }

  lemma OwnStep(w: World, s: Slot, w': World, dir: seq<FileTable.DirEntry>)
    requires WorldInv(w, dir) && UserStep(w, s, w', dir)
    ensures Placed(w, w', s)
  {
    if w'.memory != w.memory {
      ProcessSpaces.WriteKeeps(w.memory, w'.memory, s);
    }
  }

  ghost predicate OwnStepAt(ls: seq<Label>, i: nat, s: Slot) {
    i < |ls| && ls[i] == UserLabel(s)
  }

  lemma PlacedAt(ws: seq<World>, ls: seq<Label>, dir: seq<FileTable.DirEntry>, i: nat, s: Slot)
    requires WorldRun(ws, ls, dir) && i < |ls| && s in ws[i].memory.spaces
    requires OwnStepAt(ls, i, s) || AloneAt(ws, ls, i, s)
    ensures Placed(ws[i], ws[i + 1], s)
  {
    if OwnStepAt(ls, i, s) {
      OwnStepPlaced(ws, ls, dir, i, s);
    } else {
      LeavesAt(ws, ls, dir, i, s);
      KeptIsPlaced(ws[i], ws[i + 1], s);
    }
  }

  lemma OwnStepPlaced(ws: seq<World>, ls: seq<Label>, dir: seq<FileTable.DirEntry>, i: nat, s: Slot)
    requires WorldRun(ws, ls, dir) && i < |ls| && ls[i] == UserLabel(s)
    ensures Placed(ws[i], ws[i + 1], s)
  {
    WorldReachable(ws, ls, dir, i);
    assert StepsAt(ws, ls, dir, i);
    OwnStep(ws[i], s, ws[i + 1], dir);
  }

  lemma KeptIsPlaced(w: World, w': World, s: Slot)
    requires Kept(w, w', s)
    ensures Placed(w, w', s)
  {
  }

  /** Until it is reaped, a process keeps its stack, its page map, exactly its pages and its translations,
      whatever it and the others do. */
  lemma {:induction false} PlacedForLife(ws: seq<World>, ls: seq<Label>, dir: seq<FileTable.DirEntry>, m: nat, n: nat,
                                         s: Slot)
    requires WorldRun(ws, ls, dir) && m <= n < |ws| && s in ws[m].memory.spaces
    requires forall i: nat | m <= i < n :: OwnStepAt(ls, i, s) || AloneAt(ws, ls, i, s)
    ensures Placed(ws[m], ws[n], s)
    decreases n
  {
    if m < n {
      PlacedForLife(ws, ls, dir, m, n - 1, s);
      PlacedAt(ws, ls, dir, n - 1, s);
      PlacedTrans(ws[m], ws[n - 1], ws[n], s);
    }
  }

  lemma PlacedTrans(w: World, w1: World, w2: World, s: Slot)
    requires Placed(w, w1, s) && Placed(w1, w2, s)
    ensures Placed(w, w2, s)
  {
    SameWalksTrans(w.memory.mem, w1.memory.mem, w2.memory.mem, w.memory.spaces[s].root);
  }

  // --------------------------------------------------------------------- the start

  /** The processes that init_process makes: test4 on every core, and init on core 0. */
  const FIRST_PROCESSES: seq<Slot> := [Slot(0, 1), Slot(0, 2), Slot(1, 1), Slot(2, 1), Slot(3, 1)]

  function Entries(): set<Slot> {
    set c: nat, i: nat | c < MAXCORES && i < NUM_PROC :: Slot(c, i)
  }

  lemma FirstAlive(s: Slot)
    ensures Alive(Booted().procs, s) <==> s in FIRST_PROCESSES
  {
    BootedScene();
    assert s in Booted().procs ==> Booted().procs[s] == BootProc(s);
    assert s in FIRST_PROCESSES <==>
      s == Slot(0, 1) || s == Slot(0, 2) || s == Slot(1, 1) || s == Slot(2, 1) || s == Slot(3, 1);
  }

  lemma FirstFits(spaces: ProcessSpaces.Spaces, files: map<Slot, FileTable.Row>)
    requires forall s :: s in spaces <==> s in FIRST_PROCESSES
    requires files.Keys == Entries() && forall s | s in files :: files[s] == FileTable.EmptyRow()
    ensures Fits(Booted().procs, spaces, files)
  {
    BootedScene();
    forall s ensures s in spaces <==> Alive(Booted().procs, s) {
      FirstAlive(s);
    }
    forall s ensures s in files <==> s in Booted().procs {
      assert s in files <==> s in Entries();
    }
  }

  /** The memory that creating these processes leaves, the booted scheduler and the file tables that loading
      their programs leaves, counted and with no file open, are a start of the runs. */
  lemma FirstWorld(v: ProcessSpaces.State, t: FileTable.Tables, dir: seq<FileTable.DirEntry>)
    requires ProcessSpaces.StateOk(v) && forall s :: s in v.spaces <==> s in FIRST_PROCESSES
    requires FileTable.Counted(t, dir) && |dir| <= |t.fcbs|
    requires t.files.Keys == Entries() && forall s | s in t.files :: t.files[s] == FileTable.EmptyRow()
    ensures WorldRun([World(Booted(), v, t)], [], dir)
  {
    BootedIsInitial();
    InitialInv(Booted());
    FirstFits(v.spaces, t.files);
  }
}
