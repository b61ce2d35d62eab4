/**
  The scheduler and the process lifecycle of src/process.c as a transition system over the cores.

  Kernel code runs with interrupts masked, so a core is at one control point at a time and the
  processes of one core do not interleave inside the kernel.  Taking process_lock, a critical
  section, releasing the lock and `swap` are separate steps; steps of different cores interleave
  freely.  Everything between two lock operations touches shared lists only with the lock held.
 */
module Scheduler {
  import opened Seqs

  const MAXCORES: nat := 4
  const NUM_PROC: nat := 30
  const FIRST_PID: int := 4

  // The wait channels used by the callers of sleep and wake_up.
  const TICK: int := -1
  const KEY: int := -2
  const CHILD: int := -3

  /** An entry of process_table.  Entry 0 of each core is its idle process. */
  datatype Slot = Slot(core: nat, index: nat)

  /** PROC_INIT is seen only inside the critical section of fork. */
  datatype PState = Unused | Running | Ready | Sleep | Killed

  /** The function whose frame a sleeping context returns to. */
  datatype Caller = Timed | Keyboard | Reaping(pid: int)

  /** Where a saved context continues when `swap` loads it. */
  datatype Ctx = Unsaved | AtPstart | InYield | InSleep(caller: Caller) | InExit

  datatype Proc = Proc(state: PState, pid: int, wait: int, ctx: Ctx)

  datatype Waker = Timer | Uart | Exiting

  /** A critical section of process_lock. */
  datatype Op =
    | Yield
    | SleepOn(wait: int, caller: Caller)
    | WakeUp(wait: int, waker: Waker)
    | ExitList
    | ExitSchedule
    | Wait(pid: int)
    | Fork
    | ListProcesses

  /** Where control goes after a spin_unlock. */
  datatype Goto = ToUser | ToYield | ToExitWake | ToExitSchedule | ToSleep(pid: int) | Slept(caller: Caller)

  /** The control point of a core.  `Swap` is the switch from `prev` to the core's current process,
      still on the stack of `prev`; `Wild` is a jump to a context that must not be resumed. */
  datatype Point =
    | User
    | Mark
    | Acquire(op: Op)
    | Inside(op: Op)
    | Release(next: Goto)
    | Swap(prev: Slot, save: Ctx)
    | Wild

  /** struct ProcessControl with the control point and the number of locks minus unlocks of
      process_lock that this core has executed. */
  datatype Core = Core(current: Slot, ready: seq<Slot>, waiting: seq<Slot>, killed: seq<Slot>, at: Point, held: int)

  type Table = map<Slot, Proc>

  /** `freed` lists the pids whose stack and page map wait() has freed, in order. */
  datatype Sys = Sys(locked: bool, cores: seq<Core>, procs: Table, nextPid: int, freed: seq<int>)

  /** What makes a core leave user mode, what a resumed sys_sleep decides, or that an allocation inside
      fork fails. */
  datatype Trap =
    | Tick | Key | SysSleep | SysRead | SysExit | SysWait(pid: int) | SysFork | SysPs
    | SleepMore
    | NoMemory

  datatype Action = Act(core: nat, trap: Trap)

  // ------------------------------------------------------------ the operations

  /** schedule(): pick the head of the ready list, or the idle process.  `save` is where the
      present context would resume; `back` is where schedule returns without a switch. */
  function Schedule(k: Core, ps: Table, c: nat, save: Ctx, back: Point): (Core, Table)
    requires Slot(c, 0) in ps && (k.ready != [] ==> k.ready[0] in ps)
  {
    var next := if k.ready == [] then Slot(c, 0) else k.ready[0];
    var rest := if k.ready == [] then [] else k.ready[1..];
    var ps' := ps[next := ps[next].(state := Running)];
    if next == k.current then (k.(ready := rest, at := back), ps')
    else (k.(ready := rest, current := next, at := Swap(k.current, save)), ps')
  }

  function DoYield(k: Core, ps: Table, c: nat): (Core, Table)
    requires Slot(c, 0) in ps && k.current in ps && (forall s | s in k.ready :: s in ps)
  {
    if k.ready == [] then (k.(at := Release(ToUser)), ps)
    else
      var p := ps[k.current];
      var k' := if p.pid >= FIRST_PID then k.(ready := k.ready + [k.current]) else k;
      Schedule(k', ps[k.current := p.(state := Ready)], c, InYield, Release(ToUser))
  }

  function DoSleep(k: Core, ps: Table, c: nat, wait: int, caller: Caller): (Core, Table)
    requires Slot(c, 0) in ps && k.current in ps && (forall s | s in k.ready :: s in ps)
  {
    Schedule(k.(waiting := k.waiting + [k.current]),
             ps[k.current := ps[k.current].(state := Sleep, wait := wait)],
             c, InSleep(caller), Release(Slept(caller)))
  }

  function DoExitSchedule(k: Core, ps: Table, c: nat): (Core, Table)
    requires Slot(c, 0) in ps && (forall s | s in k.ready :: s in ps)
  {
    Schedule(k, ps, c, InExit, Wild)
  }

  /** The processes asleep on a channel. */
  function Sleepers(ps: Table, wait: int): set<Slot> {
    set s | s in ps && ps[s].wait == wait
  }

  /** wake_up's effect on one core's lists. */
  function WakeLists(k: Core, woken: set<Slot>): Core {
    k.(ready := k.ready + Keep(k.waiting, woken), waiting := Drop(k.waiting, woken))
  }

  predicate OnSomeWaitList(cores: seq<Core>, s: Slot) {
    exists i | 0 <= i < |cores| :: s in cores[i].waiting
  }

  function WakeTable(cores: seq<Core>, ps: Table, woken: set<Slot>): Table {
    map s | s in ps :: if s in woken && OnSomeWaitList(cores, s) then ps[s].(state := Ready) else ps[s]
  }

  function AfterWake(waker: Waker): Goto {
    match waker case Timer => ToYield case Uart => ToUser case Exiting => ToExitSchedule
  }

  /** The position that remove_list finds for `wait`, or the length of the list. */
  function FirstWaiting(l: seq<Slot>, ps: Table, wait: int): (i: nat)
    requires forall s | s in l :: s in ps
    ensures i <= |l|
    ensures i < |l| ==> ps[l[i]].wait == wait
    ensures forall j | 0 <= j < i :: ps[l[j]].wait != wait
  {
    if l == [] then 0
    else if ps[l[0]].wait == wait then 0
    else
      assert forall j | 0 < j < |l| :: l[j] == l[1..][j - 1];
      1 + FirstWaiting(l[1..], ps, wait)
  }

  const ZEROED := Proc(Unused, 0, 0, Unsaved)

  /** find_unused_process: the first unused entry above the idle one, or NUM_PROC. */
  function FirstUnused(ps: Table, c: nat, i: nat): (r: nat)
    requires i <= NUM_PROC && forall j: nat | j < NUM_PROC :: Slot(c, j) in ps
    ensures i <= r <= NUM_PROC
    ensures r < NUM_PROC ==> ps[Slot(c, r)].state == Unused
    ensures forall j: nat | i <= j < r :: ps[Slot(c, j)].state != Unused
    decreases |ps|, NUM_PROC - i
  {
    if i == NUM_PROC || ps[Slot(c, i)].state == Unused then i else FirstUnused(ps, c, i + 1)
  }

  /** Where a loaded context continues. */
  function Resume(ctx: Ctx): Point {
    match ctx
    case AtPstart => Release(ToUser)
    case InYield => Release(ToUser)
    case InSleep(caller) => Release(Slept(caller))
    case Unsaved => Wild
    case InExit => Wild
  }

  function TrapTarget(trap: Trap): Point {
    match trap
    case Tick => Acquire(WakeUp(TICK, Timer))
    case Key => Acquire(WakeUp(KEY, Uart))
    case SysSleep => Acquire(SleepOn(TICK, Timed))
    case SysRead => Acquire(SleepOn(KEY, Keyboard))
    case SysExit => Mark
    case SysWait(pid) => Acquire(Wait(pid))
    case SysFork => Acquire(Fork)
    case SysPs => Acquire(ListProcesses)
    case SleepMore => User
    case NoMemory => User
  }

  function AfterRelease(next: Goto, trap: Trap): Point {
    match next
    case ToUser => User
    case ToYield => Acquire(Yield)
    case ToExitWake => Acquire(WakeUp(CHILD, Exiting))
    case ToExitSchedule => Acquire(ExitSchedule)
    case ToSleep(pid) => Acquire(SleepOn(CHILD, Reaping(pid)))
    case Slept(Timed) => if trap == SleepMore then Acquire(SleepOn(TICK, Timed)) else User
    case Slept(Keyboard) => User
    case Slept(Reaping(pid)) => Acquire(Wait(pid))
  }

  // ------------------------------------------------------------------ the steps

  ghost predicate Shape(sys: Sys) {
    && |sys.cores| == MAXCORES
    && (forall s :: s in sys.procs <==> s.core < MAXCORES && s.index < NUM_PROC)
    && forall c: nat | c < MAXCORES :: CoreShape(sys, c)
  }

  /** The processes a core refers to are entries of the process table. */
  ghost predicate CoreShape(sys: Sys, c: nat) {
    && c < |sys.cores|
    && sys.cores[c].current in sys.procs
    && (forall s | s in sys.cores[c].ready :: s in sys.procs)
    && (forall s | s in sys.cores[c].waiting :: s in sys.procs)
    && (forall s | s in sys.cores[c].killed :: s in sys.procs)
    && (sys.cores[c].at.Swap? ==> sys.cores[c].at.prev in sys.procs)
  }

  /** Whether a core can take a step.  A spin_lock waits for the lock word to be zero; fork halts on
      an assertion when it runs out of process slots or of memory, and faults on the idle process's page
      map while core 0, whose current process it copies, is idle; the idle process only takes interrupts. */
  ghost predicate Enabled(sys: Sys, a: Action)
    requires Shape(sys)
  {
    && a.core < MAXCORES
    && match sys.cores[a.core].at
       case User =>
         a.trap == Tick || a.trap == Key
         || (a.trap != SleepMore && a.trap != NoMemory && sys.cores[a.core].current.index > 0)
       case Acquire(_) => !sys.locked
       case Inside(Fork) =>
         sys.cores[0].current.index > 0 && FirstUnused(sys.procs, 0, 1) < NUM_PROC && a.trap != NoMemory
       case Wild => false
       case _ => true
  }

  function SetCore(sys: Sys, c: nat, k: Core, ps: Table): Sys
    requires c < |sys.cores|
  {
    sys.(cores := sys.cores[c := k], procs := ps)
  }

  function SetPoint(sys: Sys, c: nat, at: Point): Sys
    requires c < |sys.cores|
  {
    sys.(cores := sys.cores[c := sys.cores[c].(at := at)])
  }

  /** The unlocked stores at the start of exit(). */
  function DoMark(ps: Table, s: Slot): Table
    requires s in ps
  {
    ps[s := ps[s].(state := Killed, wait := ps[s].pid)]
  }

  function DoWake(sys: Sys, c: nat, wait: int, waker: Waker): Sys
    requires c < |sys.cores|
  {
    var woken := Sleepers(sys.procs, wait);
    var cores := seq(|sys.cores|, i requires 0 <= i < |sys.cores| => WakeLists(sys.cores[i], woken));
    SetPoint(sys.(cores := cores, procs := WakeTable(sys.cores, sys.procs, woken)), c, Release(AfterWake(waker)))
  }

  function DoWait(sys: Sys, c: nat, pid: int): Sys
    requires Shape(sys) && c < MAXCORES
  {
    assert CoreShape(sys, c);
    var k := sys.cores[c];
    var i := FirstWaiting(k.killed, sys.procs, pid);
    if i == |k.killed| then SetPoint(sys, c, Release(ToSleep(pid)))
    else
      var s := k.killed[i];
      SetCore(sys, c, k.(killed := Without(k.killed, i), at := Release(ToUser)), sys.procs[s := ZEROED])
      .(freed := sys.freed + [sys.procs[s].pid])
  }

  /** fork() as written: the new process goes to core 0, whichever core calls. */
  function DoFork(sys: Sys, c: nat): Sys
    requires Shape(sys) && c < MAXCORES && FirstUnused(sys.procs, 0, 1) < NUM_PROC
  {
    var s := Slot(0, FirstUnused(sys.procs, 0, 1));
    var k0 := sys.cores[0];
    var sys1 := SetCore(sys, 0, k0.(ready := k0.ready + [s]), sys.procs[s := Proc(Ready, sys.nextPid, 0, AtPstart)]);
    SetPoint(sys1.(nextPid := sys.nextPid + 1), c, Release(ToUser))
  }

  function DoInside(sys: Sys, c: nat, op: Op): Sys
    requires Shape(sys) && c < MAXCORES
    requires op.Fork? ==> FirstUnused(sys.procs, 0, 1) < NUM_PROC
  {
    assert CoreShape(sys, c);
    var k, ps := sys.cores[c], sys.procs;
    match op
    case Yield => var (k', ps') := DoYield(k, ps, c); SetCore(sys, c, k', ps')
    case SleepOn(wait, caller) => var (k', ps') := DoSleep(k, ps, c, wait, caller); SetCore(sys, c, k', ps')
    case WakeUp(wait, waker) => DoWake(sys, c, wait, waker)
    case ExitList => SetCore(sys, c, k.(killed := k.killed + [k.current], at := Release(ToExitWake)), ps)
    case ExitSchedule => var (k', ps') := DoExitSchedule(k, ps, c); SetCore(sys, c, k', ps')
    case Wait(pid) => DoWait(sys, c, pid)
    case Fork => DoFork(sys, c)
    case ListProcesses => SetPoint(sys, c, Release(ToUser))
  }

  function Step(sys: Sys, a: Action): Sys
    requires Shape(sys) && Enabled(sys, a)
  {
    assert CoreShape(sys, a.core);
    var c, k := a.core, sys.cores[a.core];
    match k.at
    case User => SetPoint(sys, c, TrapTarget(a.trap))
    case Mark => SetPoint(sys.(procs := DoMark(sys.procs, k.current)), c, Acquire(ExitList))
    case Acquire(op) => SetCore(sys, c, k.(at := Inside(op), held := k.held + 1), sys.procs).(locked := true)
    case Inside(op) => DoInside(sys, c, op)
    case Release(next) =>
      SetCore(sys, c, k.(at := AfterRelease(next, a.trap), held := k.held - 1), sys.procs).(locked := false)
    case Swap(prev, save) =>
      SetPoint(sys.(procs := sys.procs[prev := sys.procs[prev].(ctx := save)]), c, Resume(sys.procs[k.current].ctx))
    case Wild => sys
  }
}
