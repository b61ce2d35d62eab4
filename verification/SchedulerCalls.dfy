/**
  What one process does in the kernel, seen from the process: the critical sections that it runs between
  leaving user mode and returning to it, whatever the other processes and cores do in between.
 */
module SchedulerCalls {
  import opened Scheduler
  import opened SchedulerInvariant
  import opened SchedulerRuns
  import opened SchedulerChildren

  // ------------------------------------------------------------ the calls as written

  /** The critical sections of a call may begin with `h`.  wait looks, sleeps and looks again. */
  ghost predicate Begins(t: Trap, h: seq<Op>) {
    match t
    case Tick => h <= [WakeUp(-1, Timer), Yield]
    case Key => h <= [WakeUp(-2, Uart)]
    case SysSleep => forall i | 0 <= i < |h| :: h[i] == SleepOn(-1, Timed)
    case SysRead => h <= [SleepOn(-2, Keyboard)]
    case SysExit => h <= [ExitList, WakeUp(-3, Exiting), ExitSchedule]
    case SysWait(pid) =>
      forall i | 0 <= i < |h| :: h[i] == if i % 2 == 0 then Wait(pid) else SleepOn(-3, Reaping(pid))
    case SysFork => h <= [Fork]
    case SysPs => h <= [ListProcesses]
    case _ => false
  }

  /** The call is over after `h`.  exit never returns, and wait returns only from a section that reaped. */
  ghost predicate Whole(t: Trap, h: seq<Op>, mine: seq<int>) {
    mine == (if t.SysWait? then [t.pid] else []) &&
    match t
    case Tick => h == [WakeUp(-1, Timer), Yield]
    case Key => h == [WakeUp(-2, Uart)]
    case SysSleep => h != [] && Begins(t, h)
    case SysRead => h == [SleepOn(-2, Keyboard)]
    case SysExit => false
    case SysWait(pid) => Begins(t, h) && |h| % 2 == 1
    case SysFork => h == [Fork]
    case SysPs => h == [ListProcesses]
    case _ => false
  }

  // ------------------------------------------------------- where a process stands

  /** The control point of a process: that of its core while it runs, and otherwise the one at which its
      saved context continues. */
  function Stands(k: Core, ps: Table, s: Slot): Point
    requires s in ps
  {
    if s == k.current && !k.at.Swap? then k.at else Resume(Context(k, ps, s))
  }

  /** The process with this pid is in this entry. */
  ghost predicate Present(r: Sys, s: Slot, pid: int) {
    s in r.procs && r.procs[s].pid == pid && (s.index == 0 || r.procs[s].state != Unused)
  }

  /** The step is one of process `s`. */
  ghost predicate Own(r: Sys, a: Action, s: Slot) {
    a.core == s.core < |r.cores| && r.cores[s.core].current == s && !r.cores[s.core].at.Swap?
  }

  ghost predicate InUser(r: Sys, s: Slot) {
    s.core < |r.cores| && r.cores[s.core].current == s && r.cores[s.core].at == User
  }

  /** The control point after a step of the process. */
  ghost function Onward(r: Sys, c: nat, trap: Trap): Point
    requires Shape(r) && c < MAXCORES
  {
    match r.cores[c].at
    case User => TrapTarget(trap)
    case Mark => Acquire(ExitList)
    case Acquire(op) => Inside(op)
    case Release(next) => AfterRelease(next, trap)
    case Inside(Yield) => Release(ToUser)
    case Inside(SleepOn(_, caller)) => Release(Slept(caller))
    case Inside(WakeUp(_, waker)) => Release(AfterWake(waker))
    case Inside(ExitList) => Release(ToExitWake)
    case Inside(Wait(pid)) => Release(if Reaps(r, c) then ToUser else ToSleep(pid))
    case Inside(Fork) => Release(ToUser)
    case Inside(ListProcesses) => Release(ToUser)
    case _ => Wild
  }

  // ------------------------------------------------------------- one step, one process

  /** A switch from the current process to another changes where no process stands, except that the
      outgoing one continues at its saved context. */
  lemma SwitchStands(k: Core, ps: Table, k': Core, ps': Table, save: Ctx, s: Slot)
    requires !k.at.Swap? && k'.at == Swap(k.current, save) && k'.current != k.current
    requires s in ps && s in ps' && ps'[s].ctx == ps[s].ctx
    ensures Stands(k', ps', s) == if s == k.current then Resume(save) else Stands(k, ps, s)
  {
  }

  lemma SwapApart(k: Core, ps: Table, c: nat)
    requires Home(k, ps, c) && k.at.Swap?
    ensures k.at.prev != k.current
  {
    assert SwapOk(k, ps, c);
  }

  lemma YieldStands(k: Core, ps: Table, c: nat, s: Slot)
    requires Home(k, ps, c) && k.at == Inside(Yield) && PidsInRange(ps, c) && s in ps
    ensures var (k', ps') := DoYield(k, ps, c);
            s in ps' && Stands(k', ps', s) == if s == k.current then Release(ToUser) else Stands(k, ps, s)
  {
    if k.ready != [] {
      var (k', ps') := DoYield(k, ps, c);
      YieldHome(k, ps, c);
      SwapApart(k', ps', c);
      SwitchStands(k, ps, k', ps', InYield, s);
    }
  }

  lemma SleepStands(k: Core, ps: Table, c: nat, wait: int, caller: Caller, s: Slot)
    requires Home(k, ps, c) && k.at == Inside(SleepOn(wait, caller)) && s in ps
    ensures var (k', ps') := DoSleep(k, ps, c, wait, caller);
            s in ps' && Stands(k', ps', s) == if s == k.current then Release(Slept(caller)) else Stands(k, ps, s)
  {
    var (k', ps') := DoSleep(k, ps, c, wait, caller);
    SleepHome(k, ps, c, wait, caller);
    SwapApart(k', ps', c);
    SwitchStands(k, ps, k', ps', InSleep(caller), s);
  }

  lemma ExitStands(k: Core, ps: Table, c: nat, s: Slot)
    requires Home(k, ps, c) && k.at == Inside(ExitSchedule) && s in ps
    ensures var (k', ps') := DoExitSchedule(k, ps, c);
            s in ps' && Stands(k', ps', s) == if s == k.current then Wild else Stands(k, ps, s)
  {
    var (k', ps') := DoExitSchedule(k, ps, c);
    ExitScheduleHome(k, ps, c);
    SwapApart(k', ps', c);
    SwitchStands(k, ps, k', ps', InExit, s);
  }

  /** swap itself changes where no process stands. */
  lemma SwapStands(k: Core, ps: Table, c: nat, s: Slot)
    requires Home(k, ps, c) && k.at.Swap? && s in ps
    ensures var k' := k.(at := Resume(ps[k.current].ctx));
            var ps' := ps[k.at.prev := ps[k.at.prev].(ctx := k.at.save)];
            Stands(k', ps', s) == Stands(k, ps, s)
  {
    SwapApart(k, ps, c);
    SwapHome(k, ps, c);
  }

  // ------------------------------------------------------------- one step, all cores

  /** The idle process, or a process in use. */
  ghost predicate InUse(ps: Table, s: Slot) {
    s in ps && (s.index == 0 || ps[s].state != Unused)
  }

  lemma WakeStands(sys: Sys, c: nat, wait: int, waker: Waker, s: Slot)
    requires Inv(sys) && c < MAXCORES && sys.cores[c].at == Inside(WakeUp(wait, waker)) && InUse(sys.procs, s)
    ensures var r := DoWake(sys, c, wait, waker);
            && s in r.procs && |r.cores| == MAXCORES && s.core < MAXCORES
            && Stands(r.cores[s.core], r.procs, s) ==
               if s.core == c && s == sys.cores[c].current then Release(AfterWake(waker))
               else Stands(sys.cores[s.core], sys.procs, s)
  {
  }

  lemma WaitStands(sys: Sys, c: nat, pid: int, s: Slot)
    requires Inv(sys) && c < MAXCORES && sys.cores[c].at == Inside(Wait(pid)) && InUse(sys.procs, s)
    requires !ReapsIt(sys, c, s)
    ensures var r := DoWait(sys, c, pid);
            && s in r.procs && |r.cores| == MAXCORES && s.core < MAXCORES
            && Stands(r.cores[s.core], r.procs, s) ==
               if s.core == c && s == sys.cores[c].current then Onward(sys, c, Tick)
               else Stands(sys.cores[s.core], sys.procs, s)
  {
    assert HomeAt(sys, c) && CoreShape(sys, c);
  }

  /** The critical sections other than the switching ones and fork. */
  lemma PlainStands(sys: Sys, c: nat, op: Op, s: Slot)
    requires Inv(sys) && c < MAXCORES && sys.cores[c].at == Inside(op) && InUse(sys.procs, s) && !ReapsIt(sys, c, s)
    requires op.WakeUp? || op.ExitList? || op.Wait? || op.ListProcesses?
    ensures var r := DoInside(sys, c, op);
            && s in r.procs && |r.cores| == MAXCORES && s.core < MAXCORES
            && Stands(r.cores[s.core], r.procs, s) ==
               if s.core == c && s == sys.cores[c].current then Onward(sys, c, Tick)
               else Stands(sys.cores[s.core], sys.procs, s)
  {
    match op {
      case WakeUp(wait, waker) => WakeStands(sys, c, wait, waker, s);
      case Wait(pid) => WaitStands(sys, c, pid, s);
      case _ =>
    }
  }

  lemma ForkStands(sys: Sys, c: nat, s: Slot)
    requires Inv(sys) && c < MAXCORES && sys.cores[c].at == Inside(Fork) && InUse(sys.procs, s)
    requires FirstUnused(sys.procs, 0, 1) < NUM_PROC
    ensures var r := DoFork(sys, c);
            && s in r.procs && |r.cores| == MAXCORES && s.core < MAXCORES
            && Stands(r.cores[s.core], r.procs, s) ==
               if s.core == c && s == sys.cores[c].current then Release(ToUser)
               else Stands(sys.cores[s.core], sys.procs, s)
  {
  }

  /** A switching section on core `c` leaves the processes of other cores alone. */
  lemma SwitchingElsewhere(sys: Sys, c: nat, op: Op, s: Slot)
    requires Inv(sys) && c < MAXCORES && sys.cores[c].at == Inside(op) && InUse(sys.procs, s) && s.core != c
    requires op.Yield? || op.SleepOn? || op.ExitSchedule?
    ensures var r := DoInside(sys, c, op);
            && s in r.procs && |r.cores| == MAXCORES && s.core < MAXCORES
            && r.procs[s] == sys.procs[s] && r.cores[s.core] == sys.cores[s.core]
  {
    assert HomeAt(sys, c);
    var k, ps := sys.cores[c], sys.procs;
    match op {
      case Yield => YieldPeople(k, ps, c);
      case SleepOn(wait, caller) => SleepPeople(k, ps, c, wait, caller);
      case ExitSchedule => SchedulePeople(k, ps, ps, c, InExit, Wild);
    }
  }

  lemma SwitchingAtHome(sys: Sys, c: nat, op: Op, s: Slot)
    requires Inv(sys) && c < MAXCORES && sys.cores[c].at == Inside(op) && InUse(sys.procs, s)
    requires op.Yield? || op.SleepOn? || op.ExitSchedule?
    ensures var r := DoInside(sys, c, op);
            && s in r.procs && |r.cores| == MAXCORES
            && Stands(r.cores[c], r.procs, s) ==
               if s == sys.cores[c].current then Onward(sys, c, Tick) else Stands(sys.cores[c], sys.procs, s)
  {
    assert HomeAt(sys, c);
    var k, ps := sys.cores[c], sys.procs;
    match op {
      case Yield => YieldStands(k, ps, c, s);
      case SleepOn(wait, caller) => SleepStands(k, ps, c, wait, caller, s);
      case ExitSchedule => ExitStands(k, ps, c, s);
    }
  }

  /** A switching section on core `c`. */
  lemma SwitchingStands(sys: Sys, c: nat, op: Op, s: Slot)
    requires Inv(sys) && c < MAXCORES && sys.cores[c].at == Inside(op) && InUse(sys.procs, s)
    requires op.Yield? || op.SleepOn? || op.ExitSchedule?
    ensures var r := DoInside(sys, c, op);
            && s in r.procs && |r.cores| == MAXCORES && s.core < MAXCORES
            && Stands(r.cores[s.core], r.procs, s) ==
               if s.core == c && s == sys.cores[c].current then Onward(sys, c, Tick)
               else Stands(sys.cores[s.core], sys.procs, s)
  {
    if s.core == c {
      SwitchingAtHome(sys, c, op, s);
    } else {
      SwitchingElsewhere(sys, c, op, s);
    }
  }

  lemma SwappingStands(sys: Sys, a: Action, s: Slot)
    requires Inv(sys) && Enabled(sys, a) && sys.cores[a.core].at.Swap? && InUse(sys.procs, s)
    ensures var r := Step(sys, a);
            && s in r.procs && |r.cores| == MAXCORES && s.core < MAXCORES
            && Stands(r.cores[s.core], r.procs, s) == Stands(sys.cores[s.core], sys.procs, s)
  {
    assert HomeAt(sys, a.core);
    if s.core == a.core {
      SwapStands(sys.cores[a.core], sys.procs, a.core, s);
    } else {
      assert SwapOk(sys.cores[a.core], sys.procs, a.core);
    }
  }

  /** A step moves the process that takes it to its next control point, and no other process. */
  lemma StandsStep(sys: Sys, a: Action, s: Slot)
    requires Inv(sys) && Enabled(sys, a) && InUse(sys.procs, s) && !ReapsIt(sys, a.core, s)
    ensures var r := Step(sys, a);
            && s in r.procs && |r.cores| == MAXCORES && s.core < MAXCORES
            && Stands(r.cores[s.core], r.procs, s) ==
               if Own(sys, a, s) then Onward(sys, a.core, a.trap) else Stands(sys.cores[s.core], sys.procs, s)
  {
    match sys.cores[a.core].at {
      case Swap(_, _) => SwappingStands(sys, a, s);
      case Inside(op) =>
        if op.Fork? {
          ForkStands(sys, a.core, s);
        } else if op.Yield? || op.SleepOn? || op.ExitSchedule? {
          SwitchingStands(sys, a.core, op, s);
        } else {
          PlainStands(sys, a.core, op, s);
        }
      case _ =>
    }
  }

  /** A step keeps a process in its entry or, as a reaping wait does, records its pid as freed. */
  lemma PresentStep(sys: Sys, a: Action, s: Slot, pid: int)
    requires Inv(sys) && Enabled(sys, a) && Present(sys, s, pid)
    ensures if ReapsIt(sys, a.core, s) then pid in Step(sys, a).freed else Present(Step(sys, a), s, pid)
    ensures sys.freed <= Step(sys, a).freed
  {
    if Forks(sys, a.core) {
      ForkAlive(sys, a);
    } else if Reaps(sys, a.core) {
      ReapAlive(sys, a);
    } else {
      QuietAlive(sys, a);
    }
    StepInv(sys, a);
    if s.index == 0 {
      IdlePid(sys, s);
      IdlePid(Step(sys, a), s);
    }
  }

  /** The pid of an idle process is the number of its core. */
  lemma IdlePid(sys: Sys, s: Slot)
    requires Inv(sys) && s.core < MAXCORES && s.index == 0
    ensures s in sys.procs && sys.procs[s].pid == s.core
  {
    assert HomeAt(sys, s.core);
    assert SlotOk(sys.cores[s.core], sys.procs, Slot(s.core, 0));
  }

  // ------------------------------------------------------------- one call over a run

  /** A process that took the trap `t`, has run the critical sections `h` since and has freed the processes
      `mine` may stand at `p`. */
  ghost predicate Told(t: Trap, h: seq<Op>, mine: seq<int>, p: Point) {
    (mine != [] ==> p == User || p == Release(ToUser)) &&
    match p
    case User => Whole(t, h, mine)
    case Mark => t == SysExit && h == []
    case Acquire(op) => Begins(t, h + [op])
    case Inside(op) => Begins(t, h + [op])
    case Release(ToUser) => Whole(t, h, mine)
    case Release(ToYield) => Begins(t, h + [Yield])
    case Release(ToExitWake) => Begins(t, h + [WakeUp(CHILD, Exiting)])
    case Release(ToExitSchedule) => Begins(t, h + [ExitSchedule])
    case Release(ToSleep(pid)) => Begins(t, h + [SleepOn(CHILD, Reaping(pid))])
    case Release(Slept(Reaping(pid))) => Begins(t, h + [Wait(pid)])
    case Release(Slept(Timed)) => t == SysSleep && Whole(t, h, mine)
    case Release(Slept(Keyboard)) => t == SysRead && Whole(t, h, mine)
    case Swap(_, _) => false
    case Wild => t == SysExit && h == [ExitList, WakeUp(-3, Exiting), ExitSchedule]
  }

  /** The section that this step runs as process `s`, if it does. */
  ghost function OwnSection(r: Sys, a: Action, s: Slot): seq<Op> {
    if Own(r, a, s) && r.cores[s.core].at.Inside? then [r.cores[s.core].at.op] else []
  }

  /** The pid that this step frees as process `s`, if it does. */
  ghost function OwnFreed(r: Sys, a: Action, s: Slot): seq<int> {
    if Own(r, a, s) && Shape(r) && a.core < MAXCORES && Reaps(r, a.core) then [r.cores[a.core].at.op.pid] else []
  }

  /** The critical sections that process `s` runs in the steps `m .. n`, in order. */
  ghost function Sections(rs: seq<Sys>, acts: seq<Action>, s: Slot, m: nat, n: nat): seq<Op>
    requires m <= n <= |acts| < |rs|
    decreases n
  {
    if m == n then [] else Sections(rs, acts, s, m, n - 1) + OwnSection(rs[n - 1], acts[n - 1], s)
  }

  /** The pids that process `s` frees in them, in order. */
  ghost function Frees(rs: seq<Sys>, acts: seq<Action>, s: Slot, m: nat, n: nat): seq<int>
    requires m <= n <= |acts| < |rs|
    decreases n
  {
    if m == n then [] else Frees(rs, acts, s, m, n - 1) + OwnFreed(rs[n - 1], acts[n - 1], s)
  }

  lemma SleepsGrow(h: seq<Op>)
    requires Begins(SysSleep, h)
    ensures Begins(SysSleep, h + [SleepOn(-1, Timed)])
  {
  }

  /** wait looks again after each sleep. */
  lemma WaitGrows(pid: int, h: seq<Op>, op: Op)
    requires Begins(SysWait(pid), h + [op])
    ensures Begins(SysWait(pid), h) && op == if |h| % 2 == 0 then Wait(pid) else SleepOn(-3, Reaping(pid))
    ensures op.Wait? ==> Begins(SysWait(pid), h + [op] + [SleepOn(-3, Reaping(pid))])
    ensures op.SleepOn? ==> Begins(SysWait(pid), h + [op] + [Wait(pid)])
  {
    assert (h + [op])[|h|] == op;
    forall i | 0 <= i < |h| ensures h[i] == (h + [op])[i] {
    }
  }

  /** From the end of a critical section the call continues as written. */
  lemma ToldInside(t: Trap, h: seq<Op>, op: Op, reaps: bool, next: Goto)
    requires Begins(t, h + [op]) && op != ExitSchedule && (reaps ==> op.Wait?)
    requires next == match op case Yield => ToUser case SleepOn(_, caller) => Slept(caller)
                              case WakeUp(_, waker) => AfterWake(waker) case ExitList => ToExitWake
                              case Wait(pid) => (if reaps then ToUser else ToSleep(pid))
                              case _ => ToUser
    ensures Told(t, h + [op], if reaps then [op.pid] else [], Release(next))
  {
    assert (h + [op])[|h|] == op;
    if t.SysWait? {
      WaitGrows(t.pid, h, op);
    }
  }

  lemma ToldRelease(t: Trap, h: seq<Op>, mine: seq<int>, next: Goto, trap: Trap)
    requires Told(t, h, mine, Release(next))
    ensures Told(t, h, mine, AfterRelease(next, trap))
  {
    if next == Slept(Timed) {
      SleepsGrow(h);
    }
  }

  /** The process was freed, or it is in its entry and stands where the call allows. */
  ghost predicate Follows(r: Sys, s: Slot, pid: int, t: Trap, h: seq<Op>, mine: seq<int>) {
    || pid in r.freed
    || (Present(r, s, pid) && s.core < |r.cores| && Told(t, h, mine, Stands(r.cores[s.core], r.procs, s))
        && forall q | q in mine :: q in r.freed)
  }

  lemma OwnStep(r: Sys, a: Action, s: Slot, t: Trap, h: seq<Op>, mine: seq<int>)
    requires Inv(r) && Enabled(r, a) && Own(r, a, s) && !InUser(r, s) && Told(t, h, mine, r.cores[s.core].at)
    ensures Told(t, h + OwnSection(r, a, s), mine + OwnFreed(r, a, s), Onward(r, a.core, a.trap))
  {
    var c := a.core;
    match r.cores[c].at {
      case Inside(op) =>
        if op != ExitSchedule {
          ToldInside(t, h, op, Reaps(r, c), Onward(r, c, a.trap).next);
          assert mine + OwnFreed(r, a, s) == OwnFreed(r, a, s);
        } else {
          assert (h + [op])[|h|] == op;
        }
      case Release(next) =>
        ToldRelease(t, h, mine, next, a.trap);
        NothingAdded(h, mine);
      case _ =>
        NothingAdded(h, mine);
    }
  }

  lemma NothingAdded(h: seq<Op>, mine: seq<int>)
    ensures h + [] == h && mine + [] == mine
  {
  }

  lemma FollowStep(r: Sys, a: Action, s: Slot, pid: int, t: Trap, h: seq<Op>, mine: seq<int>)
    requires Inv(r) && Enabled(r, a) && Follows(r, s, pid, t, h, mine) && (pid in r.freed || !InUser(r, s))
    ensures Follows(Step(r, a), s, pid, t, h + OwnSection(r, a, s), mine + OwnFreed(r, a, s))
  {
    FreedStays(r, a);
    if pid !in r.freed {
      PresentStep(r, a, s, pid);
      if !ReapsIt(r, a.core, s) {
        StandsStep(r, a, s);
        if Own(r, a, s) {
          OwnStep(r, a, s, t, h, mine);
          FreedIsFreed(r, a, s);
        } else {
          NothingAdded(h, mine);
        }
      }
    }
  }

  lemma FreedIsFreed(r: Sys, a: Action, s: Slot)
    requires Inv(r) && Enabled(r, a)
    ensures forall q | q in OwnFreed(r, a, s) :: q in Step(r, a).freed
  {
    if Reaps(r, a.core) {
      ReapAlive(r, a);
    }
  }

  lemma FreedStays(r: Sys, a: Action)
    requires Inv(r) && Enabled(r, a)
    ensures r.freed <= Step(r, a).freed
  {
    if Forks(r, a.core) {
      ForkAlive(r, a);
    } else if Reaps(r, a.core) {
      ReapAlive(r, a);
    } else {
      QuietAlive(r, a);
    }
  }

  /** Process `s` with this pid leaves user mode by the step `m` and has not come back before state `n`. */
  ghost predicate InCall(rs: seq<Sys>, acts: seq<Action>, s: Slot, pid: int, m: nat, n: nat) {
    && m < n < |rs| == |acts| + 1 && InUser(rs[m], s) && Own(rs[m], acts[m], s) && Present(rs[m], s, pid)
    && forall j | m < j < n :: !InUser(rs[j], s)
  }

  /** The trap itself. */
  lemma CallStarts(r: Sys, a: Action, r': Sys, s: Slot, pid: int)
    requires Inv(r) && Next(r, a, r') && InUser(r, s) && Own(r, a, s) && Present(r, s, pid)
    ensures Follows(r', s, pid, a.trap, OwnSection(r, a, s), OwnFreed(r, a, s))
  {
    PresentStep(r, a, s, pid);
    StandsStep(r, a, s);
  }

  lemma CallGoesOn(r: Sys, a: Action, r': Sys, s: Slot, pid: int, t: Trap, h: seq<Op>, mine: seq<int>)
    requires Inv(r) && Next(r, a, r') && !InUser(r, s) && Follows(r, s, pid, t, h, mine)
    ensures Follows(r', s, pid, t, h + OwnSection(r, a, s), mine + OwnFreed(r, a, s))
  {
    FollowStep(r, a, s, pid, t, h, mine);
  }

  lemma {:induction false} CallFollows(rs: seq<Sys>, acts: seq<Action>, s: Slot, pid: int, m: nat, n: nat)
    requires IsRun(rs, acts) && InCall(rs, acts, s, pid, m, n)
    ensures Follows(rs[n], s, pid, acts[m].trap, Sections(rs, acts, s, m, n), Frees(rs, acts, s, m, n))
    decreases n
  {
    if n == m + 1 {
      StepOfRun(rs, acts, m);
      CallStarts(rs[m], acts[m], rs[n], s, pid);
      NothingBefore(OwnSection(rs[m], acts[m], s), OwnFreed(rs[m], acts[m], s));
    } else {
      CallFollows(rs, acts, s, pid, m, n - 1);
      StepOfRun(rs, acts, n - 1);
      CallGoesOn(rs[n - 1], acts[n - 1], rs[n], s, pid, acts[m].trap, Sections(rs, acts, s, m, n - 1),
                 Frees(rs, acts, s, m, n - 1));
    }
  }

  lemma StepOfRun(rs: seq<Sys>, acts: seq<Action>, i: nat)
    requires IsRun(rs, acts) && i < |acts|
    ensures Inv(rs[i]) && Next(rs[i], acts[i], rs[i + 1])
  {
    ReachableInv(rs, acts, i);
    assert StepAt(rs, acts, i);
  }

  lemma NothingBefore(h: seq<Op>, mine: seq<int>)
    ensures [] + h == h && [] + mine == mine
  {
  }

  /** Over every run and interleaving: from the trap that takes a process out of user mode until it is there
      again, the critical sections it runs are those of its call in their order, and when it is back they
      are all of them; a wait(q) has then itself freed q, and nothing else was freed by the call. */
  lemma CallRuns(rs: seq<Sys>, acts: seq<Action>, s: Slot, pid: int, m: nat, n: nat)
    requires IsRun(rs, acts) && InCall(rs, acts, s, pid, m, n) && Present(rs[n], s, pid)
    ensures Begins(acts[m].trap, Sections(rs, acts, s, m, n))
    ensures InUser(rs[n], s) ==> Whole(acts[m].trap, Sections(rs, acts, s, m, n), Frees(rs, acts, s, m, n))
    ensures forall q | q in Frees(rs, acts, s, m, n) :: q in rs[n].freed
  {
    CallFollows(rs, acts, s, pid, m, n);
    ReachableInv(rs, acts, n);
    NotFreed(rs[n], s, pid);
    ToldBegins(acts[m].trap, Sections(rs, acts, s, m, n), Frees(rs, acts, s, m, n),
               Stands(rs[n].cores[s.core], rs[n].procs, s));
  }

  lemma NotFreed(r: Sys, s: Slot, pid: int)
    requires Inv(r) && Present(r, s, pid) && s.core < MAXCORES
    ensures pid !in r.freed
  {
    if s.index == 0 {
      IdlePid(r, s);
    } else {
      assert Alive(r.procs, s);
    }
  }

  lemma ToldBegins(t: Trap, h: seq<Op>, mine: seq<int>, p: Point)
    requires Told(t, h, mine, p)
    ensures Begins(t, h)
  {
    if p.Acquire? || p.Inside? {
      BeginsPrefix(t, h, p.op);
    } else if p == Release(ToYield) {
      BeginsPrefix(t, h, Yield);
    } else if p == Release(ToExitWake) {
      BeginsPrefix(t, h, WakeUp(CHILD, Exiting));
    } else if p == Release(ToExitSchedule) {
      BeginsPrefix(t, h, ExitSchedule);
    } else if p.Release? && p.next.ToSleep? {
      BeginsPrefix(t, h, SleepOn(CHILD, Reaping(p.next.pid)));
    } else if p.Release? && p.next.Slept? && p.next.caller.Reaping? {
      BeginsPrefix(t, h, Wait(p.next.caller.pid));
    }
  }

  lemma BeginsPrefix(t: Trap, h: seq<Op>, op: Op)
    requires Begins(t, h + [op])
    ensures Begins(t, h)
  {
    forall i | 0 <= i < |h| ensures h[i] == (h + [op])[i] {
    }
  }

  // -------------------------------------------------------------- wait looks again

  /** Inside wait(pid): about to look, looking, about to sleep, or asleep and about to look again. */
  ghost predicate InWait(p: Point, pid: int) {
    || p == Acquire(Wait(pid)) || p == Inside(Wait(pid)) || p == Release(ToSleep(pid))
    || p == Acquire(SleepOn(-3, Reaping(pid))) || p == Inside(SleepOn(-3, Reaping(pid)))
    || p == Release(Slept(Reaping(pid)))
  }

  /** The step frees `q`, as process `s`. */
  ghost predicate Collects(r: Sys, a: Action, s: Slot, q: int) {
    OwnFreed(r, a, s) == [q]
  }

  /** The process is inside wait(q). */
  ghost predicate Waits(r: Sys, s: Slot, q: int) {
    s in r.procs && s.core < |r.cores| && InWait(Stands(r.cores[s.core], r.procs, s), q)
  }

  ghost predicate CollectsAt(rs: seq<Sys>, acts: seq<Action>, s: Slot, q: int, j: nat) {
    j < |acts| && j < |rs| && Collects(rs[j], acts[j], s, q)
  }

  /** Some step between the states `m` and `n` frees `q`, as process `s`. */
  ghost predicate CollectsBetween(rs: seq<Sys>, acts: seq<Action>, s: Slot, q: int, m: nat, n: nat) {
    exists j | m <= j < n :: CollectsAt(rs, acts, s, q, j)
  }

  lemma Longer(rs: seq<Sys>, acts: seq<Action>, s: Slot, q: int, m: nat, n: nat)
    requires m <= n
    ensures CollectsBetween(rs, acts, s, q, m, n + 1) <==>
              CollectsBetween(rs, acts, s, q, m, n) || CollectsAt(rs, acts, s, q, n)
  {
  }

  /** The process was itself freed, or it is in its entry and inside wait(q). */
  ghost predicate StillWaits(r: Sys, s: Slot, pid: int, q: int) {
    pid in r.freed || (Present(r, s, pid) && Waits(r, s, q))
  }

  lemma WaitsOn(r: Sys, a: Action, r': Sys, s: Slot, pid: int, q: int)
    requires Inv(r) && Next(r, a, r') && s.core < MAXCORES && StillWaits(r, s, pid, q)
    ensures StillWaits(r', s, pid, q) || Collects(r, a, s, q)
  {
    FreedStays(r, a);
    if pid !in r.freed {
      PresentStep(r, a, s, pid);
      if !ReapsIt(r, a.core, s) {
        StandsStep(r, a, s);
      }
    }
  }

  lemma {:induction false} StillWaiting(rs: seq<Sys>, acts: seq<Action>, s: Slot, pid: int, q: int, m: nat, n: nat)
    requires IsRun(rs, acts) && m <= n < |rs| && s.core < MAXCORES && StillWaits(rs[m], s, pid, q)
    ensures CollectsBetween(rs, acts, s, q, m, n) || StillWaits(rs[n], s, pid, q)
    decreases n
  {
    if m < n {
      StillWaiting(rs, acts, s, pid, q, m, n - 1);
      StepOfRun(rs, acts, n - 1);
      StillWaitsNext(rs, acts, s, pid, q, m, n - 1);
    }
  }

  lemma StillWaitsNext(rs: seq<Sys>, acts: seq<Action>, s: Slot, pid: int, q: int, m: nat, n: nat)
    requires m <= n < |acts| && n + 1 < |rs| && Inv(rs[n]) && Next(rs[n], acts[n], rs[n + 1]) && s.core < MAXCORES
    requires CollectsBetween(rs, acts, s, q, m, n) || StillWaits(rs[n], s, pid, q)
    ensures CollectsBetween(rs, acts, s, q, m, n + 1) || StillWaits(rs[n + 1], s, pid, q)
  {
    Longer(rs, acts, s, q, m, n);
    if StillWaits(rs[n], s, pid, q) {
      WaitsOn(rs[n], acts[n], rs[n + 1], s, pid, q);
    }
  }

  /** A process that is looking for a killed child in wait(q) and is later in user mode has freed q in
      between: whatever wakes it, it looks again until it finds q. */
  lemma WaitCollects(rs: seq<Sys>, acts: seq<Action>, s: Slot, pid: int, q: int, m: nat, n: nat)
    requires IsRun(rs, acts) && m <= n < |rs| && s.core < MAXCORES
    requires Present(rs[m], s, pid) && rs[m].cores[s.core].current == s && rs[m].cores[s.core].at == Inside(Wait(q))
    requires Present(rs[n], s, pid) && InUser(rs[n], s)
    ensures CollectsBetween(rs, acts, s, q, m, n)
  {
    StillWaiting(rs, acts, s, pid, q, m, n);
    ReachableInv(rs, acts, n);
    NotFreed(rs[n], s, pid);
  }
}
