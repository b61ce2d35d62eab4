/** Which processes a step makes and unmakes, and which child a wait can find. */
module SchedulerChildren {
  import opened Seqs
  import opened Scheduler
  import opened SchedulerInvariant
  import opened SchedulerRuns

  // --------------------------------------------------------- births and deaths

  /** The same processes are alive, under the same pids. */
  ghost predicate SameAlive(ps: Table, ps': Table) {
    forall s :: (Alive(ps', s) <==> Alive(ps, s)) && (Alive(ps, s) ==> ps'[s].pid == ps[s].pid)
  }

  /** The entry that a wait(pid) on core `c` reaps, if its kill list has one. */
  function Reapable(sys: Sys, c: nat, pid: int): (i: nat)
    requires Shape(sys) && c < MAXCORES
    ensures i <= |sys.cores[c].killed|
  {
    assert CoreShape(sys, c);
    FirstWaiting(sys.cores[c].killed, sys.procs, pid)
  }

  predicate Reaps(sys: Sys, c: nat)
    requires Shape(sys) && c < MAXCORES
  {
    && sys.cores[c].at.Inside? && sys.cores[c].at.op.Wait?
    && Reapable(sys, c, sys.cores[c].at.op.pid) < |sys.cores[c].killed|
  }

  predicate Forks(sys: Sys, c: nat)
    requires c < |sys.cores|
  {
    sys.cores[c].at == Inside(Fork)
  }

  lemma SwitchAlive(ps: Table, ps': Table, c: nat)
    requires SamePeople(ps, ps', c)
    ensures SameAlive(ps, ps')
  {
  }

  lemma WakeAlive(cores: seq<Core>, ps: Table, woken: set<Slot>)
    requires forall i, s | 0 <= i < |cores| && s in cores[i].waiting :: s in ps ==> ps[s].state == Sleep
    ensures SameAlive(ps, WakeTable(cores, ps, woken))
  {
  }

  lemma InsideAlive(sys: Sys, c: nat, op: Op)
    requires Inv(sys) && c < MAXCORES && sys.cores[c].at == Inside(op) && !op.Fork? && !Reaps(sys, c)
    ensures SameAlive(sys.procs, DoInside(sys, c, op).procs) && DoInside(sys, c, op).freed == sys.freed
  {
    assert HomeAt(sys, c);
    var k, ps := sys.cores[c], sys.procs;
    match op {
      case Yield => YieldPeople(k, ps, c); SwitchAlive(ps, DoYield(k, ps, c).1, c);
      case SleepOn(wait, caller) =>
        SleepPeople(k, ps, c, wait, caller);
        SwitchAlive(ps, DoSleep(k, ps, c, wait, caller).1, c);
      case ExitSchedule =>
        SchedulePeople(k, ps, ps, c, InExit, Wild);
        SwitchAlive(ps, DoExitSchedule(k, ps, c).1, c);
      case WakeUp(wait, waker) =>
        forall i, s | 0 <= i < |sys.cores| && s in sys.cores[i].waiting ensures s in ps ==> ps[s].state == Sleep {
          assert HomeAt(sys, i);
        }
        WakeAlive(sys.cores, ps, Sleepers(ps, wait));
      case _ =>
    }
  }

  /** A step that neither forks nor reaps changes neither who is alive nor what was freed. */
  lemma QuietAlive(sys: Sys, a: Action)
    requires Inv(sys) && Enabled(sys, a) && !Forks(sys, a.core) && !Reaps(sys, a.core)
    ensures SameAlive(sys.procs, Step(sys, a).procs) && Step(sys, a).freed == sys.freed
    ensures Step(sys, a).nextPid == sys.nextPid
  {
    assert HomeAt(sys, a.core);
    match sys.cores[a.core].at {
      case Inside(op) => InsideAlive(sys, a.core, op);
      case Swap(prev, save) => assert SwapOk(sys.cores[a.core], sys.procs, a.core);
      case Mark => assert CurrentOk(sys.cores[a.core], sys.procs);
      case _ =>
    }
  }

  /** The entry that fork fills. */
  function Child(sys: Sys): Slot
    requires Shape(sys)
  {
    Slot(0, FirstUnused(sys.procs, 0, 1))
  }

  /** fork makes exactly one process, on core 0 and under the next pid. */
  lemma ForkAlive(sys: Sys, a: Action)
    requires Inv(sys) && Enabled(sys, a) && Forks(sys, a.core)
    ensures Child(sys) in sys.procs && Child(sys).index > 0 && !Alive(sys.procs, Child(sys))
    ensures Step(sys, a).procs == sys.procs[Child(sys) := Proc(Ready, sys.nextPid, 0, AtPstart)]
    ensures Step(sys, a).freed == sys.freed && Step(sys, a).nextPid == sys.nextPid + 1
    ensures Step(sys, a).cores[0].ready == sys.cores[0].ready + [Child(sys)]
  {
  }

  /** The entry that a reaping wait clears. */
  function Reaped(sys: Sys, c: nat): Slot
    requires Shape(sys) && c < MAXCORES && Reaps(sys, c)
  {
    sys.cores[c].killed[Reapable(sys, c, sys.cores[c].at.op.pid)]
  }

  /** Core `c` is about to reap process `s`. */
  ghost predicate ReapsIt(sys: Sys, c: nat, s: Slot) {
    Shape(sys) && c < MAXCORES && Reaps(sys, c) && Reaped(sys, c) == s
  }

  /** A reaping wait unmakes exactly one process, of its own core and of the pid it was given. */
  lemma ReapAlive(sys: Sys, a: Action)
    requires Inv(sys) && Enabled(sys, a) && Reaps(sys, a.core)
    ensures var s, pid := Reaped(sys, a.core), sys.cores[a.core].at.op.pid;
            && Alive(sys.procs, s) && s.core == a.core && sys.procs[s].pid == pid
            && Step(sys, a).procs == sys.procs[s := ZEROED] && Step(sys, a).freed == sys.freed + [pid]
  {
    var c := a.core;
    assert HomeAt(sys, c) && CoreShape(sys, c);
    var s := Reaped(sys, c);
    assert s in sys.cores[c].killed;
    assert SlotOk(sys.cores[c], sys.procs, Slot(c, s.index));
  }

  // ------------------------------------------------------------ a pid stays put

  /** The process `pid` is alive in entry `s`, or was freed. */
  ghost predicate Settled(sys: Sys, s: Slot, pid: int) {
    (Alive(sys.procs, s) && sys.procs[s].pid == pid) || pid in sys.freed
  }

  lemma SettledStep(sys: Sys, a: Action, s: Slot, pid: int)
    requires Inv(sys) && Enabled(sys, a) && Settled(sys, s, pid)
    ensures Settled(Step(sys, a), s, pid)
  {
    if Forks(sys, a.core) {
      ForkAlive(sys, a);
    } else if Reaps(sys, a.core) {
      ReapAlive(sys, a);
    } else {
      QuietAlive(sys, a);
    }
  }

  lemma {:induction false} SettledRun(rs: seq<Sys>, acts: seq<Action>, m: nat, n: nat, s: Slot, pid: int)
    requires IsRun(rs, acts) && m <= n < |rs| && Settled(rs[m], s, pid)
    ensures Settled(rs[n], s, pid)
    decreases n
  {
    if m < n {
      SettledRun(rs, acts, m, n - 1, s, pid);
      ReachableInv(rs, acts, n - 1);
      assert StepAt(rs, acts, n - 1);
      SettledStep(rs[n - 1], acts[n - 1], s, pid);
    }
  }

  // -------------------------------------------------------- what a wait can find

  /** wait(pid) reaps exactly when a process with that pid is on the kill list of its own core. */
  lemma WaitLooksAtHome(rs: seq<Sys>, acts: seq<Action>, n: nat, c: nat, pid: int)
    requires IsRun(rs, acts) && n < |rs| && c < MAXCORES && rs[n].cores[c].at == Inside(Wait(pid))
    ensures Shape(rs[n]) && CoreShape(rs[n], c)
    ensures Reaps(rs[n], c) <==> exists s | s in rs[n].cores[c].killed :: rs[n].procs[s].pid == pid
  {
    ReachableInv(rs, acts, n);
    var r := rs[n];
    assert HomeAt(r, c) && CoreShape(r, c);
    var l := r.cores[c].killed;
    var i := Reapable(r, c, pid);
    forall s | s in l ensures r.procs[s].wait == r.procs[s].pid {
      assert SlotOk(r.cores[c], r.procs, Slot(c, s.index));
    }
    if i < |l| {
      assert l[i] in l;
    }
  }

  /** Once a process is at home on another core, a wait for it never reaps: it goes to sleep again. */
  lemma OtherCoreNeverReaped(rs: seq<Sys>, acts: seq<Action>, m: nat, n: nat, c: nat, s: Slot, pid: int)
    requires IsRun(rs, acts) && m <= n < |rs| && c < MAXCORES && s.core != c
    requires Alive(rs[m].procs, s) && rs[m].procs[s].pid == pid && rs[n].cores[c].at == Inside(Wait(pid))
    ensures Shape(rs[n]) && !Reaps(rs[n], c)
    ensures DoWait(rs[n], c, pid) == SetPoint(rs[n], c, Release(ToSleep(pid)))
  {
    SettledRun(rs, acts, m, n, s, pid);
    ReachableInv(rs, acts, n);
    var a := Act(c, Tick);
    if Reaps(rs[n], c) {
      ReapAlive(rs[n], a);
    }
  }

  /** On core 0, a wait for a live process of core 0 reaps exactly when that process is killed. */
  lemma HomeReaped(r: Sys, pid: int, s: Slot)
    requires Inv(r) && r.cores[0].at == Inside(Wait(pid)) && s.core == 0 && Alive(r.procs, s) && r.procs[s].pid == pid
    ensures Reaps(r, 0) <==> r.procs[s].state == Killed
  {
    assert HomeAt(r, 0) && CoreShape(r, 0);
    assert SlotOk(r.cores[0], r.procs, Slot(0, s.index));
    assert CurrentOk(r.cores[0], r.procs);
    if Reaps(r, 0) {
      ReapAlive(r, Act(0, Tick));
    }
  }

  lemma FreedNotReaped(r: Sys, c: nat, pid: int)
    requires Inv(r) && c < MAXCORES && r.cores[c].at == Inside(Wait(pid)) && pid in r.freed
    ensures !Reaps(r, c)
  {
    if Reaps(r, c) {
      ReapAlive(r, Act(c, Tick));
    }
  }

  /** After a fork by core c, a wait of that core for the child reaps if and only if the core is 0, the child
      is killed and it was not freed yet: every other core loses its children. */
  lemma LostChild(rs: seq<Sys>, acts: seq<Action>, m: nat, n: nat, c: nat)
    requires IsRun(rs, acts) && m < n < |rs| && acts[m].core == c < MAXCORES && Forks(rs[m], c)
    requires rs[n].cores[c].at == Inside(Wait(rs[m].nextPid))
    ensures Shape(rs[m]) && Shape(rs[n]) && Child(rs[m]) in rs[n].procs
    ensures Reaps(rs[n], c) <==>
              c == 0 && rs[n].procs[Child(rs[m])].state == Killed && rs[m].nextPid !in rs[n].freed
  {
    ReachableInv(rs, acts, m);
    ReachableInv(rs, acts, n);
    assert StepAt(rs, acts, m);
    ForkAlive(rs[m], acts[m]);
    SettledRun(rs, acts, m + 1, n, Child(rs[m]), rs[m].nextPid);
    if rs[m].nextPid in rs[n].freed {
      FreedNotReaped(rs[n], c, rs[m].nextPid);
    } else if c == 0 {
      HomeReaped(rs[n], rs[m].nextPid, Child(rs[m]));
    } else {
      OtherCoreNeverReaped(rs, acts, m + 1, n, c, Child(rs[m]), rs[m].nextPid);
    }
  }

  // ------------------------------------------------------------ a run that shows it

  /** The state in which core `c` of `cores` has become `k`. */
  function Scene(cores: seq<Core>, c: nat, k: Core, ps: Table, locked: bool, nextPid: int): Sys
    requires c < |cores|
  {
    Sys(locked, cores[c := k], ps, nextPid, [])
  }

  ghost predicate Reachable(sys: Sys) {
    exists rs, acts :: IsRun(rs, acts) && rs[|acts|] == sys
  }

  /** A set of well-formed states that steps do not leave. */
  ghost predicate Closed(r: Sys -> bool) {
    && (forall sys | r(sys) :: Shape(sys))
    && (forall sys, a, sys' | r(sys) && Next(sys, a, sys') :: r(sys'))
  }

  lemma ReachableStep(sys: Sys, a: Action, sys': Sys)
    requires Reachable(sys) && Next(sys, a, sys')
    ensures Reachable(sys')
  {
    var rs, acts :| IsRun(rs, acts) && rs[|acts|] == sys;
    ReachableInv(rs, acts, |acts|);
    StepInv(sys, a);
    ExtendRun(rs, acts, a, sys');
  }

  lemma ExtendRun(rs: seq<Sys>, acts: seq<Action>, a: Action, sys': Sys)
    requires IsRun(rs, acts) && Next(rs[|acts|], a, sys') && |sys'.cores| == MAXCORES
    ensures IsRun(rs + [sys'], acts + [a]) && (rs + [sys'])[|acts + [a]|] == sys'
  {
    var rs', acts' := rs + [sys'], acts + [a];
    forall j: nat | j < |acts'| ensures StepAt(rs', acts', j) {
      if j < |acts| {
        assert StepAt(rs, acts, j);
      }
    }
  }

  lemma ReachableShape(sys: Sys)
    requires Reachable(sys)
    ensures Shape(sys)
  {
    var rs, acts :| IsRun(rs, acts) && rs[|acts|] == sys;
    ReachableInv(rs, acts, |acts|);
  }

  lemma Go(r: Sys -> bool, sys: Sys, a: Action, sys': Sys)
    requires Closed(r) && r(sys) && (Shape(sys) ==> Next(sys, a, sys'))
    ensures r(sys')
  {
  }

  /** Core `c` leaves user mode. */
  lemma GoTrap(r: Sys -> bool, cs: seq<Core>, c: nat, k: Core, ps: Table, nextPid: int, trap: Trap)
    requires |cs| == MAXCORES && c < |cs| && Closed(r) && r(Scene(cs, c, k, ps, false, nextPid)) && k.at == User
    requires trap == Tick || (k.current.index > 0 && (trap == SysFork || trap.SysWait?))
    ensures r(Scene(cs, c, k.(at := TrapTarget(trap)), ps, false, nextPid))
  {
    var k' := k.(at := TrapTarget(trap));
    assert cs[c := k][c := k'] == cs[c := k'];
    Go(r, Scene(cs, c, k, ps, false, nextPid), Act(c, trap), Scene(cs, c, k', ps, false, nextPid));
  }

  lemma GoAcquire(r: Sys -> bool, cs: seq<Core>, c: nat, k: Core, ps: Table, nextPid: int)
    requires |cs| == MAXCORES && c < |cs| && Closed(r) && r(Scene(cs, c, k, ps, false, nextPid)) && k.at.Acquire?
    ensures r(Scene(cs, c, k.(at := Inside(k.at.op), held := k.held + 1), ps, true, nextPid))
  {
    var k' := k.(at := Inside(k.at.op), held := k.held + 1);
    assert cs[c := k][c := k'] == cs[c := k'];
    Go(r, Scene(cs, c, k, ps, false, nextPid), Act(c, Tick), Scene(cs, c, k', ps, true, nextPid));
  }

  lemma GoRelease(r: Sys -> bool, cs: seq<Core>, c: nat, k: Core, ps: Table, nextPid: int)
    requires |cs| == MAXCORES && c < |cs| && Closed(r) && r(Scene(cs, c, k, ps, true, nextPid)) && k.at.Release?
    ensures r(Scene(cs, c, k.(at := AfterRelease(k.at.next, Tick), held := k.held - 1), ps, false, nextPid))
  {
    var k' := k.(at := AfterRelease(k.at.next, Tick), held := k.held - 1);
    assert cs[c := k][c := k'] == cs[c := k'];
    Go(r, Scene(cs, c, k, ps, true, nextPid), Act(c, Tick), Scene(cs, c, k', ps, false, nextPid));
  }

  /** A critical section other than fork. */
  lemma GoInside(r: Sys -> bool, cs: seq<Core>, c: nat, k: Core, ps: Table, nextPid: int, sys': Sys)
    requires |cs| == MAXCORES && c < |cs| && Closed(r) && r(Scene(cs, c, k, ps, true, nextPid))
    requires k.at.Inside? && !k.at.op.Fork?
    requires var sys := Scene(cs, c, k, ps, true, nextPid); Shape(sys) ==> sys' == DoInside(sys, c, k.at.op)
    ensures r(sys')
  {
    Go(r, Scene(cs, c, k, ps, true, nextPid), Act(c, Tick), sys');
  }

  ghost predicate NobodyWaits(cs: seq<Core>) {
    forall i | 0 <= i < |cs| :: cs[i].waiting == []
  }

  /** With empty wait lists wake_up changes nothing but the control point. */
  lemma NobodyWakes(cs: seq<Core>, c: nat, k: Core, ps: Table, nextPid: int)
    requires c < |cs| && NobodyWaits(cs) && k.waiting == []
    ensures DoWake(Scene(cs, c, k, ps, true, nextPid), c, TICK, Timer)
            == Scene(cs, c, k.(at := Release(ToYield)), ps, true, nextPid)
  {
    var sys := Scene(cs, c, k, ps, true, nextPid);
    var woken := Sleepers(sys.procs, TICK);
    forall i | 0 <= i < |cs| ensures WakeLists(sys.cores[i], woken) == sys.cores[i] {
      assert sys.cores[i].waiting == [];
      assert Keep(sys.cores[i].waiting, woken) == [] && Drop(sys.cores[i].waiting, woken) == [];
    }
    assert WakeTable(sys.cores, sys.procs, woken) == sys.procs;
    assert DoWake(sys, c, TICK, Timer).cores == Scene(cs, c, k.(at := Release(ToYield)), ps, true, nextPid).cores;
  }

  /** A timer tick on a core, up to the critical section of its yield. */
  lemma TickReached(r: Sys -> bool, cs: seq<Core>, c: nat, k0: Core, ps: Table, nextPid: int)
    requires |cs| == MAXCORES && c < |cs| && NobodyWaits(cs) && k0.waiting == [] && k0.at == User && k0.held == 0
    requires Closed(r) && r(Scene(cs, c, k0, ps, false, nextPid))
    ensures r(Scene(cs, c, k0.(at := Inside(Yield), held := 1), ps, true, nextPid))
  {
    var k := k0;
    GoTrap(r, cs, c, k, ps, nextPid, Tick);
    k := k.(at := Acquire(WakeUp(TICK, Timer)));
    GoAcquire(r, cs, c, k, ps, nextPid);
    k := k.(at := Inside(WakeUp(TICK, Timer)), held := 1);
    NobodyWakes(cs, c, k, ps, nextPid);
    GoInside(r, cs, c, k, ps, nextPid, Scene(cs, c, k.(at := Release(ToYield)), ps, true, nextPid));
    GoRelease(r, cs, c, k.(at := Release(ToYield)), ps, nextPid);
    GoAcquire(r, cs, c, k.(at := Acquire(Yield), held := 0), ps, nextPid);
  }

  /** A core that runs its first user process. */
  function FirstRuns(c: nat, rest: seq<Slot>, at: Point, held: int): Core {
    Core(Slot(c, 1), rest, [], [], at, held)
  }

  /** The table after the first switch of core `c` from idle to its first user process. */
  function Switched(ps: Table, c: nat): Table
    requires Slot(c, 0) in ps && Slot(c, 1) in ps
  {
    ps[Slot(c, 0) := ps[Slot(c, 0)].(state := Ready, ctx := InYield)]
      [Slot(c, 1) := ps[Slot(c, 1)].(state := Running)]
  }

  /** The yield of an idle core switches to its first user process. */
  lemma YieldReached(r: Sys -> bool, cs: seq<Core>, c: nat, k: Core, rest: seq<Slot>, ps: Table, nextPid: int)
    requires |cs| == MAXCORES && c < |cs| && k == Core(Slot(c, 0), [Slot(c, 1)] + rest, [], [], Inside(Yield), 1)
    requires Closed(r) && r(Scene(cs, c, k, ps, true, nextPid))
    requires Slot(c, 0) in ps && ps[Slot(c, 0)].pid < FIRST_PID && Slot(c, 1) in ps
    ensures var ps1 := ps[Slot(c, 0) := ps[Slot(c, 0)].(state := Ready)]
                         [Slot(c, 1) := ps[Slot(c, 1)].(state := Running)];
            r(Scene(cs, c, FirstRuns(c, rest, Swap(Slot(c, 0), InYield), 1), ps1, true, nextPid))
  {
    var idle, user := Slot(c, 0), Slot(c, 1);
    var ps1 := ps[idle := ps[idle].(state := Ready)][user := ps[user].(state := Running)];
    var k1 := FirstRuns(c, rest, Swap(idle, InYield), 1);
    assert k.ready[1..] == rest;
    assert Shape(Scene(cs, c, k, ps, true, nextPid)) ==> DoYield(k, ps, c) == (k1, ps1) by {
      if Shape(Scene(cs, c, k, ps, true, nextPid)) {
        assert CoreShape(Scene(cs, c, k, ps, true, nextPid), c);
      }
    }
    assert cs[c := k][c := k1] == cs[c := k1];
    GoInside(r, cs, c, k, ps, nextPid, Scene(cs, c, k1, ps1, true, nextPid));
  }

  /** The switch and the unlock in pstart. */
  lemma SwapReached(r: Sys -> bool, cs: seq<Core>, c: nat, rest: seq<Slot>, ps: Table, nextPid: int)
    requires |cs| == MAXCORES && c < |cs| && Closed(r)
    requires r(Scene(cs, c, FirstRuns(c, rest, Swap(Slot(c, 0), InYield), 1), ps, true, nextPid))
    requires Slot(c, 0) in ps && Slot(c, 1) in ps && ps[Slot(c, 1)].ctx == AtPstart
    ensures var ps2 := ps[Slot(c, 0) := ps[Slot(c, 0)].(ctx := InYield)];
            r(Scene(cs, c, FirstRuns(c, rest, User, 0), ps2, false, nextPid))
  {
    var k1, k2 := FirstRuns(c, rest, Swap(Slot(c, 0), InYield), 1), FirstRuns(c, rest, Release(ToUser), 1);
    var ps2 := ps[Slot(c, 0) := ps[Slot(c, 0)].(ctx := InYield)];
    assert cs[c := k1][c := k2] == cs[c := k2];
    Go(r, Scene(cs, c, k1, ps, true, nextPid), Act(c, Tick), Scene(cs, c, k2, ps2, true, nextPid));
    GoRelease(r, cs, c, k2, ps2, nextPid);
  }

  /** A tick switches an idle core to its first user process. */
  lemma FirstReached(r: Sys -> bool, cs: seq<Core>, c: nat, rest: seq<Slot>, ps: Table, nextPid: int)
    requires |cs| == MAXCORES && c < |cs| && NobodyWaits(cs)
    requires Closed(r) && r(Scene(cs, c, Core(Slot(c, 0), [Slot(c, 1)] + rest, [], [], User, 0), ps, false, nextPid))
    requires Slot(c, 0) in ps && ps[Slot(c, 0)].pid < FIRST_PID
    requires Slot(c, 1) in ps && ps[Slot(c, 1)].ctx == AtPstart
    ensures r(Scene(cs, c, FirstRuns(c, rest, User, 0), Switched(ps, c), false, nextPid))
  {
    var k := Core(Slot(c, 0), [Slot(c, 1)] + rest, [], [], User, 0);
    TickReached(r, cs, c, k, ps, nextPid);
    YieldReached(r, cs, c, k.(at := Inside(Yield), held := 1), rest, ps, nextPid);
    var ps1 := ps[Slot(c, 0) := ps[Slot(c, 0)].(state := Ready)][Slot(c, 1) := ps[Slot(c, 1)].(state := Running)];
    SwapReached(r, cs, c, rest, ps1, nextPid);
    assert ps1[Slot(c, 0) := ps1[Slot(c, 0)].(ctx := InYield)] == Switched(ps, c);
  }

  /** The user process of core 1 forks while core 0 runs a user process. */
  lemma ForkReached(r: Sys -> bool, cs: seq<Core>, ps: Table, nextPid: int)
    requires |cs| == MAXCORES && cs[0].current.index > 0 && Closed(r)
    requires r(Scene(cs, 1, FirstRuns(1, [], User, 0), ps, false, nextPid))
    requires (forall i: nat | i < NUM_PROC :: Slot(0, i) in ps) && FirstUnused(ps, 0, 1) < NUM_PROC
    ensures var child := Slot(0, FirstUnused(ps, 0, 1));
            r(Scene(cs[0 := cs[0].(ready := cs[0].ready + [child])], 1, FirstRuns(1, [], User, 0),
                    ps[child := Proc(Ready, nextPid, 0, AtPstart)], false, nextPid + 1))
  {
    GoTrap(r, cs, 1, FirstRuns(1, [], User, 0), ps, nextPid, SysFork);
    GoAcquire(r, cs, 1, FirstRuns(1, [], Acquire(Fork), 0), ps, nextPid);
    var child := Slot(0, FirstUnused(ps, 0, 1));
    var cs', ps' := cs[0 := cs[0].(ready := cs[0].ready + [child])], ps[child := Proc(Ready, nextPid, 0, AtPstart)];
    var k, k' := FirstRuns(1, [], Inside(Fork), 1), FirstRuns(1, [], Release(ToUser), 1);
    var sys := Scene(cs, 1, k, ps, true, nextPid);
    assert sys.cores[0 := sys.cores[0].(ready := sys.cores[0].ready + [child])][1 := k'] == cs'[1 := k'];
    Go(r, sys, Act(1, Tick), Scene(cs', 1, k', ps', true, nextPid + 1));
    GoRelease(r, cs', 1, k', ps', nextPid + 1);
  }

  lemma WaitReached(r: Sys -> bool, cs: seq<Core>, ps: Table, nextPid: int, pid: int)
    requires |cs| == MAXCORES && Closed(r) && r(Scene(cs, 1, FirstRuns(1, [], User, 0), ps, false, nextPid))
    ensures r(Scene(cs, 1, FirstRuns(1, [], Inside(Wait(pid)), 1), ps, true, nextPid))
  {
    GoTrap(r, cs, 1, FirstRuns(1, [], User, 0), ps, nextPid, SysWait(pid));
    GoAcquire(r, cs, 1, FirstRuns(1, [], Acquire(Wait(pid)), 0), ps, nextPid);
  }

  lemma BootedReachable()
    ensures Reachable(Booted())
  {
    BootedIsInitial();
    var acts: seq<Action> := [];
    assert IsRun([Booted()], acts) && [Booted()][|acts|] == Booted();
  }

  function BootCores(): seq<Core> {
    [BootCore(0), BootCore(1), BootCore(2), BootCore(3)]
  }

  lemma BootedScene()
    ensures Booted() == Sys(false, BootCores(), Booted().procs, FIRST_PID + 5, [])
    ensures BootTable(Booted().procs)
  {
    assert Booted().cores == BootCores();
  }

  /** Core 1 waits for `child`, which is alive on core 0 and was forked last. */
  ghost predicate WaitsInVain(sys: Sys, child: Slot) {
    && |sys.cores| == MAXCORES && child.core == 0 && Alive(sys.procs, child)
    && sys.cores[1].at == Inside(Wait(sys.procs[child].pid)) && sys.procs[child].pid == sys.nextPid - 1
  }

  /** Cores 0 and 1 switch to their first user processes. */
  lemma BothRun(r: Sys -> bool, ps: Table)
    requires Closed(r) && BootTable(ps) && r(Sys(false, BootCores(), ps, FIRST_PID + 5, []))
    ensures var cs := BootCores()[0 := FirstRuns(0, [Slot(0, 2)], User, 0)];
            r(Scene(cs, 1, FirstRuns(1, [], User, 0), Switched(Switched(ps, 0), 1), false, FIRST_PID + 5))
  {
    var cs, n := BootCores(), FIRST_PID + 5;
    assert BootCore(0).ready == [Slot(0, 1)] + [Slot(0, 2)];
    assert cs[0 := BootCore(0)] == cs;
    FirstReached(r, cs, 0, [Slot(0, 2)], ps, n);
    var cs1, ps1 := cs[0 := FirstRuns(0, [Slot(0, 2)], User, 0)], Switched(ps, 0);
    assert BootCore(1).ready == [Slot(1, 1)] + [];
    assert cs1[1 := BootCore(1)] == cs1;
    FirstReached(r, cs1, 1, [], ps1, n);
  }

  lemma VainScene(r: Sys -> bool, ps: Table) returns (sys: Sys, child: Slot)
    requires Closed(r) && BootTable(ps) && r(Sys(false, BootCores(), ps, FIRST_PID + 5, []))
    ensures r(sys) && WaitsInVain(sys, child)
  {
    BothRun(r, ps);
    var cs, n := BootCores()[0 := FirstRuns(0, [Slot(0, 2)], User, 0)], FIRST_PID + 5;
    var ps2 := Switched(Switched(ps, 0), 1);
    assert ps2[Slot(0, 3)].state == Unused;
    assert FirstUnused(ps2, 0, 1) < NUM_PROC;
    ForkReached(r, cs, ps2, n);
    child := Slot(0, FirstUnused(ps2, 0, 1));
    var cs', ps' := cs[0 := cs[0].(ready := cs[0].ready + [child])], ps2[child := Proc(Ready, n, 0, AtPstart)];
    WaitReached(r, cs', ps', n + 1, n);
    sys := Scene(cs', 1, FirstRuns(1, [], Inside(Wait(n)), 1), ps', true, n + 1);
  }

  /** There is a reachable state in which core 1 waits for the child it forked, which is on core 0. */
  lemma LostChildReachable() returns (sys: Sys, child: Slot)
    ensures Reachable(sys) && WaitsInVain(sys, child)
  {
    ghost var r := (s: Sys) => Reachable(s);
    assert Closed(r) by {
      forall s | r(s) ensures Shape(s) {
        ReachableShape(s);
      }
      forall s, a, s' | r(s) && Next(s, a, s') ensures r(s') {
        ReachableStep(s, a, s');
      }
    }
    BootedReachable();
    BootedScene();
    sys, child := VainScene(r, Booted().procs);
  }
}
