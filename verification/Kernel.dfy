/**
  The whole kernel in place: the scheduler's state, the processes over their machine and the file tables,
  driven together.  Every step of the scheduler that is enabled happens here, with the memory and file
  parts of fork and wait done by their routines, and is a step of `World`.
 */
module Kernel {
  import opened Wrappers
  import opened Scheduler
  import SchedulerRuns
  import opened SchedulerChildren
  import opened World
  import KernelMemory
  import ProcessSpaces
  import ProcessMemory
  import FileTable
  import OpenFiles

  class Kernel {
    var sys: Sys
    const processes: ProcessMemory.Processes
    const files: OpenFiles.FileSystem

    ghost function W(): World
      reads this, processes, processes.machine, files, files.fcbs, files.descs
    {
      World(sys, processes.V(), files.T())
    }

    ghost predicate Valid()
      reads this, processes, processes.machine, files, files.fcbs, files.descs
    {
      processes.Valid() && files.Valid() && WorldInv(W(), files.dir)
    }

    /** The kernel in any state that keeps the invariant, such as the one that init_process leaves
        (`StartInv`). */
    constructor (start: Sys, processes: ProcessMemory.Processes, files: OpenFiles.FileSystem)
      requires processes.Valid() && files.Valid()
      requires WorldInv(World(start, processes.V(), files.T()), files.dir)
      ensures Valid() && this.processes == processes && this.files == files && sys == start
    {
      sys := start;
      this.processes := processes;
      this.files := files;
    }

    /** One step of a core.  It fails exactly for a fork without five free pages, which halts. */
    method Step(a: Action) returns (ok: bool)
      requires Valid() && Shape(sys) && Enabled(sys, a)
      modifies this, processes, processes.machine, files, files.fcbs, files.descs
      ensures ok <==> (Forks(old(sys), a.core) ==> KernelMemory.FreePages(old(processes.machine.heap)) >= 5)
      ensures ok ==> Valid() && sys == Scheduler.Step(old(sys), a) && CoreStep(old(W()), a, W(), files.dir)
    {
      ghost var w := W();
      ok := Parts(a);
      if ok {
        sys := Scheduler.Step(sys, a);
        StepDone(w, a, W(), files.dir);
      }
    }

    /** The memory and file parts of the step. */
    method Parts(a: Action) returns (ok: bool)
      requires Valid() && Shape(sys) && Enabled(sys, a)
      modifies processes, processes.machine, files, files.fcbs, files.descs
      ensures ok <==> (Forks(sys, a.core) ==> KernelMemory.FreePages(old(processes.machine.heap)) >= 5)
      ensures ok ==> processes.Valid() && files.Valid() && PartsDone(old(W()), a, W(), files.dir)
    {
      if sys.cores[a.core].at == Inside(Fork) {
        ok := ForkParts(a);
      } else if Reaps(sys, a.core) {
        ReapParts(a);
        ok := true;
      } else {
        ok := true;
      }
    }

    method ForkParts(a: Action) returns (ok: bool)
      requires Valid() && Shape(sys) && Enabled(sys, a) && Forks(sys, a.core)
      modifies processes, processes.machine, files, files.fcbs, files.descs
      ensures ok <==> KernelMemory.FreePages(old(processes.machine.heap)) >= 5
      ensures ok ==> processes.Valid() && files.Valid() && PartsDone(old(W()), a, W(), files.dir)
    {
      ForkLegal(W(), a, files.dir);
      ok := ForkBoth(sys.cores[0].current, Child(sys));
    }

    /** fork: the space, then the file array. */
    method ForkBoth(parent: Slot, child: Slot) returns (ok: bool)
      requires processes.Valid() && files.Valid() && parent in processes.spaces && child !in processes.spaces
      requires FileTable.Legal(files.T(), FileTable.ForkOp(parent, child))
      modifies processes, processes.machine, files, files.fcbs, files.descs
      ensures ok <==> KernelMemory.FreePages(old(processes.machine.heap)) >= 5
      ensures ok ==> processes.Valid() && files.Valid()
      ensures ok ==> ProcessSpaces.ForkEffect(old(processes.V()), processes.V(), parent, child)
      ensures ok ==> FileTable.ForkFrom(old(files.T()), child, old(files.T()).files[parent], FileTable.FDS)
                     == Some(files.T())
    {
      ok := processes.Fork(parent, child);
      if ok {
        files.ForkFiles(parent, child);
      }
    }

    method ReapParts(a: Action)
      requires Valid() && Shape(sys) && Enabled(sys, a) && Reaps(sys, a.core)
      modifies processes, processes.machine, files, files.fcbs, files.descs
      ensures processes.Valid() && files.Valid() && PartsDone(old(W()), a, W(), files.dir)
    {
      ghost var w := W();
      ReapLegal(w, a, files.dir);
      ReapBoth(Reaped(sys, a.core));
      ReapPartsDone(w, a, W(), files.dir);
    }

    /** wait: the space, then the file array. */
    method ReapBoth(s: Slot)
      requires processes.Valid() && files.Valid() && s in processes.spaces && s in files.files
      modifies processes, processes.machine, files, files.fcbs, files.descs
      ensures processes.Valid() && files.Valid()
      ensures ProcessSpaces.ReapEffect(old(processes.V()), processes.V(), s)
      ensures FileTable.ReapFrom(old(files.T()), s, FileTable.FDS) == Some(files.T())
    {
      processes.Reap(s);
      files.ReapFiles(s);
    }
  }

  /** The parts of a step of `World` other than the scheduler's own. */
  ghost predicate PartsDone(w: World, a: Action, w': World, dir: seq<FileTable.DirEntry>)
    requires Shape(w.sys) && a.core < MAXCORES
  {
    |dir| <= |w.tables.fcbs| &&
    if Forks(w.sys, a.core) then ForkStep(w, a, w', dir)
    else if Reaps(w.sys, a.core) then ReapStep(w, a, w', dir)
    else w'.memory == w.memory && w'.tables == w.tables
  }

  lemma ReapPartsDone(w: World, a: Action, w': World, dir: seq<FileTable.DirEntry>)
    requires Shape(w.sys) && a.core < MAXCORES && Reaps(w.sys, a.core) && |dir| <= |w.tables.fcbs|
    requires var s := Reaped(w.sys, a.core);
             && s in w.tables.files && ProcessSpaces.ReapEffect(w.memory, w'.memory, s)
             && FileTable.ReapFrom(w.tables, s, FileTable.FDS) == Some(w'.tables)
    ensures PartsDone(w, a, w', dir)
  {
  }

  lemma StepDone(w: World, a: Action, w': World, dir: seq<FileTable.DirEntry>)
    requires WorldInv(w, dir) && Enabled(w.sys, a) && w'.sys == Scheduler.Step(w.sys, a)
    requires PartsDone(w, a, World(w.sys, w'.memory, w'.tables), dir)
    ensures CoreStep(w, a, w', dir) && WorldInv(w', dir)
  {
    CoreStepInv(w, a, w', dir);
  }

  lemma StartInv(v: ProcessSpaces.State, t: FileTable.Tables, dir: seq<FileTable.DirEntry>)
    requires ProcessSpaces.StateOk(v) && forall s :: s in v.spaces <==> s in FIRST_PROCESSES
    requires FileTable.Counted(t, dir) && |dir| <= |t.fcbs|
    requires t.files.Keys == Entries() && forall s | s in t.files :: t.files[s] == FileTable.EmptyRow()
    ensures WorldInv(World(SchedulerRuns.Booted(), v, t), dir)
  {
    FirstWorld(v, t, dir);
  }

  lemma ForkLegal(w: World, a: Action, dir: seq<FileTable.DirEntry>)
    requires WorldInv(w, dir) && Enabled(w.sys, a) && Forks(w.sys, a.core)
    ensures var parent, child := w.sys.cores[0].current, Child(w.sys);
            && parent in w.memory.spaces && child !in w.memory.spaces
            && FileTable.Legal(w.tables, FileTable.ForkOp(parent, child))
  {
    CurrentHome(w, dir, 0);
    ForkAlive(w.sys, a);
    LiveHasRow(w.sys.procs, w.memory.spaces, w.tables.files, w.sys.cores[0].current);
  }

  lemma ReapLegal(w: World, a: Action, dir: seq<FileTable.DirEntry>)
    requires WorldInv(w, dir) && Enabled(w.sys, a) && Reaps(w.sys, a.core)
    ensures Reaped(w.sys, a.core) in w.memory.spaces && Reaped(w.sys, a.core) in w.tables.files
  {
    ReapAlive(w.sys, a);
    LiveHasRow(w.sys.procs, w.memory.spaces, w.tables.files, Reaped(w.sys, a.core));
  }
}
