/** Every run of the scheduler's transition system keeps the invariant. */
module SchedulerRuns {
  import opened Seqs
  import opened Scheduler
  import opened SchedulerInvariant

  // --------------------------------------------------------------- initial states

  /** After init_process has finished on every core: the idle processes run, the processes built so
      far are ready with a context at pstart, and every other entry is unused. */
  ghost predicate Initial(sys: Sys) {
    && !sys.locked && sys.freed == []
    && Shape(sys)
    && PidsOk(sys.procs, sys.nextPid, sys.freed)
    && forall c | 0 <= c < MAXCORES ::
         var k := sys.cores[c];
         && k.current == Slot(c, 0) && k.waiting == [] && k.killed == [] && k.at == User && k.held == 0
         && Queue(k.ready, sys.procs, c, Ready)
         && sys.procs[Slot(c, 0)] == Proc(Running, c, 0, Unsaved)
         && forall i: nat | 0 < i < NUM_PROC ::
              var p := sys.procs[Slot(c, i)];
              p.state == Unused || (p.state == Ready && Slot(c, i) in k.ready && p.ctx == AtPstart)
  }

  /** An entry of process_table after init_process: an idle process, test4 and on core 0 also init. */
  function BootProc(s: Slot): Proc {
    if s.index == 0 then Proc(Running, s.core, 0, Unsaved)
    else if s.index == 1 then Proc(Ready, if s.core == 0 then FIRST_PID else FIRST_PID + 1 + s.core, 0, AtPstart)
    else if s == Slot(0, 2) then Proc(Ready, FIRST_PID + 1, 0, AtPstart)
    else Proc(Unused, 0, 0, Unsaved)
  }

  function BootCore(c: nat): Core {
    Core(Slot(c, 0), if c == 0 then [Slot(0, 1), Slot(0, 2)] else [Slot(c, 1)], [], [], User, 0)
  }

  /** The state that init_process leaves when the cores run it one after the other. */
  function Booted(): Sys {
    Sys(false, seq(MAXCORES, c requires 0 <= c => BootCore(c)),
        map s: Slot | s in (set c: nat, i: nat | c < MAXCORES && i < NUM_PROC :: Slot(c, i)) :: BootProc(s),
        FIRST_PID + 5, [])
  }

  ghost predicate BootTable(ps: Table) {
    && (forall s :: s in ps <==> s.core < MAXCORES && s.index < NUM_PROC)
    && forall s | s in ps :: ps[s] == BootProc(s)
  }

  lemma BootPids(ps: Table)
    requires BootTable(ps)
    ensures PidsOk(ps, FIRST_PID + 5, [])
  {
    forall s | Alive(ps, s) ensures s.index == 1 || s == Slot(0, 2) {
    }
  }

  lemma BootHome(ps: Table, c: nat)
    requires BootTable(ps) && c < MAXCORES
    ensures var k := BootCore(c);
            && k.current in ps && (forall s | s in k.ready :: s in ps)
            && Queue(k.ready, ps, c, Ready) && ps[Slot(c, 0)] == Proc(Running, c, 0, Unsaved)
            && forall i: nat | 0 < i < NUM_PROC ::
                 var p := ps[Slot(c, i)];
                 p.state == Unused || (p.state == Ready && Slot(c, i) in k.ready && p.ctx == AtPstart)
  {
    var k := BootCore(c);
    assert k.ready[0] == Slot(c, 1);
    assert c == 0 ==> k.ready[1] == Slot(0, 2);
  }

  lemma BootedIsInitial()
    ensures Initial(Booted())
  {
    var sys := Booted();
    assert BootTable(sys.procs);
    BootPids(sys.procs);
    forall c: nat | c < MAXCORES ensures sys.cores[c] == BootCore(c) && CoreShape(sys, c) {
      BootHome(sys.procs, c);
    }
    forall c | 0 <= c < MAXCORES
      ensures Queue(sys.cores[c].ready, sys.procs, c, Ready) && sys.procs[Slot(c, 0)] == Proc(Running, c, 0, Unsaved)
      ensures forall i: nat | 0 < i < NUM_PROC ::
                var p := sys.procs[Slot(c, i)];
                p.state == Unused || (p.state == Ready && Slot(c, i) in sys.cores[c].ready && p.ctx == AtPstart)
    {
      BootHome(sys.procs, c);
    }
  }

  /** test4 and init on core 0 have pids 4 and 5, and the test4 of core c has 5 + c. */
  lemma BootedPids(s: Slot)
    requires Alive(Booted().procs, s)
    ensures Booted().procs[s].pid == (if s == Slot(0, 1) then 4 else if s == Slot(0, 2) then 5 else 5 + s.core)
    ensures s == Slot(0, 1) || s == Slot(0, 2) || (0 < s.core < 4 && s.index == 1)
    ensures Booted().nextPid == 9
  {
    assert BootTable(Booted().procs);
  }

  lemma InitialInv(sys: Sys)
    requires Initial(sys)
    ensures Inv(sys)
  {
    forall c: nat | c < MAXCORES ensures HomeAt(sys, c) {
      var k := sys.cores[c];
      forall i: nat | i < NUM_PROC ensures SlotOk(k, sys.procs, Slot(c, i)) {
      }
    }
  }

  // ------------------------------------------------------------------ one step

  /** A step that rewrites one core's record and process entries. */
  lemma OneCore(sys: Sys, sys': Sys, c: nat)
    requires Inv(sys) && c < MAXCORES && |sys'.cores| == MAXCORES
    requires forall d | 0 <= d < MAXCORES && d != c :: sys'.cores[d] == sys.cores[d]
    requires sys'.procs.Keys == sys.procs.Keys
    requires forall s: Slot | s in sys.procs && s.core != c :: sys'.procs[s] == sys.procs[s]
    requires Home(sys'.cores[c], sys'.procs, c)
    requires sys'.locked ==
             (if Holding(sys'.cores[c].at) then true else if Holding(sys.cores[c].at) then false else sys.locked)
    requires Holding(sys'.cores[c].at) && !Holding(sys.cores[c].at) ==> !sys.locked
    requires PidsOk(sys'.procs, sys'.nextPid, sys'.freed)
    ensures Inv(sys')
  {
    HomesKept(sys, sys', c);
    LockStep(sys, sys', c);
    ShapeFromHome(sys');
  }

  lemma HomesKept(sys: Sys, sys': Sys, c: nat)
    requires c < MAXCORES && |sys.cores| == |sys'.cores| == MAXCORES
    requires forall d: nat | d < MAXCORES :: HomeAt(sys, d)
    requires forall d | 0 <= d < MAXCORES && d != c :: sys'.cores[d] == sys.cores[d]
    requires sys'.procs.Keys == sys.procs.Keys
    requires forall s: Slot | s in sys.procs && s.core != c :: sys'.procs[s] == sys.procs[s]
    requires Home(sys'.cores[c], sys'.procs, c)
    ensures forall d: nat | d < MAXCORES :: HomeAt(sys', d)
  {
    forall d: nat | d < MAXCORES ensures HomeAt(sys', d) {
      if d != c {
        assert HomeAt(sys, d);
        assert SameHome(sys.procs, sys'.procs, d);
        HomeFrame(sys.cores[d], sys.procs, sys'.procs, d);
      }
    }
  }

  lemma LockStep(sys: Sys, sys': Sys, c: nat)
    requires LockOk(sys) && c < |sys.cores| == |sys'.cores|
    requires forall d | 0 <= d < |sys.cores| && d != c :: Holding(sys'.cores[d].at) == Holding(sys.cores[d].at)
    requires sys'.locked ==
             (if Holding(sys'.cores[c].at) then true else if Holding(sys.cores[c].at) then false else sys.locked)
    requires Holding(sys'.cores[c].at) && !Holding(sys.cores[c].at) ==> !sys.locked
    ensures LockOk(sys')
  {
    if Holding(sys'.cores[c].at) {
      forall d | 0 <= d < |sys.cores| && d != c ensures !Holding(sys'.cores[d].at) {
      }
    } else if Holding(sys.cores[c].at) {
      forall d | 0 <= d < |sys.cores| && d != c ensures !Holding(sys'.cores[d].at) {
      }
    } else if sys.locked {
      var d :| 0 <= d < |sys.cores| && Holding(sys.cores[d].at);
      assert Holding(sys'.cores[d].at);
    }
  }

  lemma SamePids(ps: Table, ps': Table, nextPid: int, freed: seq<int>)
    requires PidsOk(ps, nextPid, freed) && ps'.Keys == ps.Keys
    requires forall s | s in ps :: Alive(ps', s) == Alive(ps, s) && ps'[s].pid == ps[s].pid
    ensures PidsOk(ps', nextPid, freed)
  {
  }

  /** A step that only moves the control point. */
  lemma QuietStep(sys: Sys, sys': Sys, c: nat)
    requires Inv(sys) && c < MAXCORES && |sys'.cores| == MAXCORES
    requires sys'.cores == sys.cores[c := sys'.cores[c]]
    requires sys' == sys.(cores := sys'.cores, locked := sys'.locked)
    requires Home(sys'.cores[c], sys.procs, c)
    requires sys'.locked ==
             (if Holding(sys'.cores[c].at) then true else if Holding(sys.cores[c].at) then false else sys.locked)
    requires Holding(sys'.cores[c].at) && !Holding(sys.cores[c].at) ==> !sys.locked
    ensures Inv(sys')
  {
    OneCore(sys, sys', c);
  }

  /** The end of a critical section without a switch. */
  lemma MoveTo(sys: Sys, c: nat, next: Goto)
    requires Inv(sys) && c < MAXCORES && sys.cores[c].at.Inside?
    requires var at := sys.cores[c].at;
             && Exits(at) == Exits(Release(next)) && !Listing(at) && (next.ToSleep? || next.Slept? ==> NeedsProcess(at))
    requires CoreShape(sys, c)
    requires BeforeExitWake(sys.cores[c].at) ==>
               forall s | s in sys.cores[c].waiting :: !WillReap(Context(sys.cores[c], sys.procs, s))
    requires next.ToSleep? ==> NoneKilled(sys.cores[c], sys.procs, next.pid)
    ensures Inv(SetPoint(sys, c, Release(next)))
  {
    var k := sys.cores[c];
    assert HomeAt(sys, c);
    QuietHome(k, sys.procs, c, k.(at := Release(next)));
    QuietStep(sys, SetPoint(sys, c, Release(next)), c);
  }

  lemma TrapStep(sys: Sys, a: Action)
    requires Inv(sys) && Enabled(sys, a) && sys.cores[a.core].at.User?
    ensures Inv(Step(sys, a))
  {
    var c := a.core;
    var sys' := Step(sys, a);
    assert HomeAt(sys, c);
    QuietHome(sys.cores[c], sys.procs, c, sys'.cores[c]);
    QuietStep(sys, sys', c);
  }

  lemma MarkStep(sys: Sys, a: Action)
    requires Inv(sys) && Enabled(sys, a) && sys.cores[a.core].at.Mark?
    ensures Inv(Step(sys, a))
  {
    var c := a.core;
    var sys' := Step(sys, a);
    assert HomeAt(sys, c);
    MarkHome(sys.cores[c], sys.procs, c);
    SamePids(sys.procs, sys'.procs, sys.nextPid, sys.freed);
    OneCore(sys, sys', c);
  }

  lemma AcquireStep(sys: Sys, a: Action)
    requires Inv(sys) && Enabled(sys, a) && sys.cores[a.core].at.Acquire?
    ensures Inv(Step(sys, a))
  {
    var c := a.core;
    var sys' := Step(sys, a);
    assert HomeAt(sys, c);
    QuietHome(sys.cores[c], sys.procs, c, sys'.cores[c]);
    QuietStep(sys, sys', c);
  }

  lemma ReleaseStep(sys: Sys, a: Action)
    requires Inv(sys) && Enabled(sys, a) && sys.cores[a.core].at.Release?
    ensures Inv(Step(sys, a))
  {
    var c := a.core;
    var sys' := Step(sys, a);
    assert HomeAt(sys, c);
    QuietHome(sys.cores[c], sys.procs, c, sys'.cores[c]);
    QuietStep(sys, sys', c);
  }

  /** schedule() changes state and wait fields of its own core's processes only. */
  ghost predicate SamePeople(ps: Table, ps': Table, c: nat) {
    && ps'.Keys == ps.Keys
    && (forall s: Slot | s in ps && s.core != c :: ps'[s] == ps[s])
    && (forall s | s in ps :: Alive(ps', s) == Alive(ps, s) && ps'[s].pid == ps[s].pid)
  }

  lemma SchedulePeople(k: Core, ps0: Table, ps: Table, c: nat, save: Ctx, back: Point)
    requires Slot(c, 0) in ps && (forall s | s in k.ready :: s in ps && s.core == c && ps[s].state == Ready)
    requires SamePeople(ps0, ps, c)
    ensures SamePeople(ps0, Schedule(k, ps, c, save, back).1, c)
  {
    if k.ready != [] {
      assert k.ready[0] in k.ready;
    }
  }

  lemma YieldPeople(k: Core, ps: Table, c: nat)
    requires Home(k, ps, c) && !Exits(k.at)
    ensures SamePeople(ps, DoYield(k, ps, c).1, c)
  {
    if k.ready != [] {
      var p := ps[k.current];
      var k1 := if p.pid >= FIRST_PID then k.(ready := k.ready + [k.current]) else k;
      SchedulePeople(k1, ps, ps[k.current := p.(state := Ready)], c, InYield, Release(ToUser));
    }
  }

  lemma SleepPeople(k: Core, ps: Table, c: nat, wait: int, caller: Caller)
    requires Home(k, ps, c) && !Exits(k.at)
    ensures SamePeople(ps, DoSleep(k, ps, c, wait, caller).1, c)
  {
    var ps1 := ps[k.current := ps[k.current].(state := Sleep, wait := wait)];
    SchedulePeople(k.(waiting := k.waiting + [k.current]), ps, ps1, c, InSleep(caller), Release(Slept(caller)));
  }

  /** A step that ends in a switch on core `c`. */
  lemma SwitchStep(sys: Sys, c: nat, k': Core, ps': Table)
    requires Inv(sys) && c < MAXCORES && Holding(sys.cores[c].at)
    requires Home(k', ps', c) && Holding(k'.at) && SamePeople(sys.procs, ps', c)
    ensures Inv(SetCore(sys, c, k', ps'))
  {
    SamePids(sys.procs, ps', sys.nextPid, sys.freed);
    OneCore(sys, SetCore(sys, c, k', ps'), c);
  }

  lemma YieldStep(sys: Sys, c: nat)
    requires Inv(sys) && c < MAXCORES && sys.cores[c].at == Inside(Yield)
    ensures Inv(DoInside(sys, c, Yield))
  {
    var k, ps := sys.cores[c], sys.procs;
    if k.ready == [] {
      assert DoInside(sys, c, Yield) == SetPoint(sys, c, Release(ToUser));
      MoveTo(sys, c, ToUser);
    } else {
      assert HomeAt(sys, c);
      YieldHome(k, ps, c);
      YieldPeople(k, ps, c);
      var (k', ps') := DoYield(k, ps, c);
      SwitchStep(sys, c, k', ps');
    }
  }

  lemma SleepStep(sys: Sys, c: nat, wait: int, caller: Caller)
    requires Inv(sys) && c < MAXCORES && sys.cores[c].at == Inside(SleepOn(wait, caller))
    ensures Inv(DoInside(sys, c, SleepOn(wait, caller)))
  {
    var k, ps := sys.cores[c], sys.procs;
    assert HomeAt(sys, c);
    SleepHome(k, ps, c, wait, caller);
    SleepPeople(k, ps, c, wait, caller);
    var (k', ps') := DoSleep(k, ps, c, wait, caller);
    SwitchStep(sys, c, k', ps');
  }

  lemma ExitScheduleStep(sys: Sys, c: nat)
    requires Inv(sys) && c < MAXCORES && sys.cores[c].at == Inside(ExitSchedule)
    ensures Inv(DoInside(sys, c, ExitSchedule))
  {
    var k, ps := sys.cores[c], sys.procs;
    assert HomeAt(sys, c);
    ExitScheduleHome(k, ps, c);
    SchedulePeople(k, ps, ps, c, InExit, Wild);
    var (k', ps') := DoExitSchedule(k, ps, c);
    SwitchStep(sys, c, k', ps');
  }

  lemma ExitListStep(sys: Sys, c: nat)
    requires Inv(sys) && c < MAXCORES && sys.cores[c].at == Inside(ExitList)
    ensures Inv(DoInside(sys, c, ExitList))
  {
    assert HomeAt(sys, c);
    ExitListHome(sys.cores[c], sys.procs, c);
    OneCore(sys, DoInside(sys, c, ExitList), c);
  }

  /** Zeroing the entry of a live process and recording its pid as freed. */
  lemma ReapPids(ps: Table, nextPid: int, freed: seq<int>, s: Slot)
    requires PidsOk(ps, nextPid, freed) && Alive(ps, s)
    ensures PidsOk(ps[s := ZEROED], nextPid, freed + [ps[s].pid])
  {
    var ps' := ps[s := ZEROED];
    NoDupSnoc(freed, ps[s].pid);
    assert forall t | Alive(ps', t) :: Alive(ps, t) && t != s;
  }

  lemma NoneFound(k: Core, ps: Table, pid: int)
    requires forall s | s in k.killed :: s in ps
    requires FirstWaiting(k.killed, ps, pid) == |k.killed|
    ensures NoneKilled(k, ps, pid)
  {
    forall s | s in k.killed ensures ps[s].wait != pid {
      var j :| 0 <= j < |k.killed| && k.killed[j] == s;
    }
  }

  lemma WaitStep(sys: Sys, c: nat, pid: int)
    requires Inv(sys) && c < MAXCORES && sys.cores[c].at == Inside(Wait(pid))
    ensures Inv(DoWait(sys, c, pid))
  {
    assert CoreShape(sys, c);
    var k := sys.cores[c];
    var i := FirstWaiting(k.killed, sys.procs, pid);
    if i == |k.killed| {
      NoneFound(k, sys.procs, pid);
      MoveTo(sys, c, ToSleep(pid));
    } else {
      ReapStep(sys, c, pid);
    }
  }

  lemma ReapStep(sys: Sys, c: nat, pid: int)
    requires Inv(sys) && c < MAXCORES && sys.cores[c].at == Inside(Wait(pid))
    requires CoreShape(sys, c) && FirstWaiting(sys.cores[c].killed, sys.procs, pid) < |sys.cores[c].killed|
    ensures Inv(DoWait(sys, c, pid))
  {
    var i := FirstWaiting(sys.cores[c].killed, sys.procs, pid);
    var s := sys.cores[c].killed[i];
    assert HomeAt(sys, c);
    assert s in sys.cores[c].killed;
    ReapHome(sys.cores[c], sys.procs, c, i);
    ReapPids(sys.procs, sys.nextPid, sys.freed, s);
    OneCore(sys, DoWait(sys, c, pid), c);
  }

  lemma ListStep(sys: Sys, c: nat)
    requires Inv(sys) && c < MAXCORES && sys.cores[c].at == Inside(ListProcesses)
    ensures Inv(DoInside(sys, c, ListProcesses))
  {
    PlainEnd(sys, c, ToUser);
  }

  lemma ForkPids(ps: Table, nextPid: int, freed: seq<int>, s: Slot)
    requires PidsOk(ps, nextPid, freed) && s in ps && ps[s].state == Unused
    ensures PidsOk(ps[s := Proc(Ready, nextPid, 0, AtPstart)], nextPid + 1, freed)
  {
    var ps' := ps[s := Proc(Ready, nextPid, 0, AtPstart)];
    assert forall t | Alive(ps', t) :: t == s || Alive(ps, t);
  }

  /** The part of fork that touches core 0. */
  lemma ForkedInv(sys: Sys, c: nat, s: Slot)
    requires Inv(sys) && c < MAXCORES && sys.cores[c].at == Inside(Fork)
    requires s.core == 0 && 0 < s.index < NUM_PROC && sys.procs[s].state == Unused
    ensures Inv(Forked(sys, s))
  {
    NotSwapping(sys, c, 0);
    assert HomeAt(sys, 0);
    ForkHome(sys.cores[0], sys.procs, 0, s, sys.nextPid);
    ForkPids(sys.procs, sys.nextPid, sys.freed, s);
    OneCore(sys, Forked(sys, s), 0);
  }

  ghost function Forked(sys: Sys, s: Slot): Sys
    requires |sys.cores| == MAXCORES
  {
    var k0 := sys.cores[0];
    SetCore(sys, 0, k0.(ready := k0.ready + [s]), sys.procs[s := Proc(Ready, sys.nextPid, 0, AtPstart)])
    .(nextPid := sys.nextPid + 1)
  }

  lemma ForkSplit(sys: Sys, c: nat)
    requires Shape(sys) && c < MAXCORES && FirstUnused(sys.procs, 0, 1) < NUM_PROC
    ensures DoFork(sys, c) == SetPoint(Forked(sys, Slot(0, FirstUnused(sys.procs, 0, 1))), c, Release(ToUser))
    ensures Forked(sys, Slot(0, FirstUnused(sys.procs, 0, 1))).cores[c].at == sys.cores[c].at
  {
  }

  lemma ForkStep(sys: Sys, c: nat)
    requires Inv(sys) && c < MAXCORES && sys.cores[c].at == Inside(Fork) && FirstUnused(sys.procs, 0, 1) < NUM_PROC
    ensures Inv(DoFork(sys, c))
  {
    var s := Slot(0, FirstUnused(sys.procs, 0, 1));
    ForkedInv(sys, c, s);
    ForkSplit(sys, c);
    PlainEnd(Forked(sys, s), c, ToUser);
  }

  /** The end of a critical section that is no part of exit and intends no sleep. */
  lemma PlainEnd(sys: Sys, c: nat, next: Goto)
    requires Inv(sys) && c < MAXCORES && sys.cores[c].at.Inside? && !Exits(sys.cores[c].at)
    requires next == ToUser || next == ToYield
    ensures Inv(SetPoint(sys, c, Release(next)))
  {
    MoveTo(sys, c, next);
  }

  /** wake_up before the control point moves. */
  ghost function Woken(sys: Sys, woken: set<Slot>): Sys {
    sys.(cores := seq(|sys.cores|, i requires 0 <= i < |sys.cores| => WakeLists(sys.cores[i], woken)),
         procs := WakeTable(sys.cores, sys.procs, woken))
  }

  lemma WokenHomes(sys: Sys, c: nat, woken: set<Slot>)
    requires Inv(sys) && c < MAXCORES && sys.cores[c].at.Inside?
    ensures forall d: nat | d < MAXCORES :: HomeAt(Woken(sys, woken), d)
  {
    var sys' := Woken(sys, woken);
    forall d: nat | d < MAXCORES ensures HomeAt(sys', d) {
      assert HomeAt(sys, d);
      NotSwapping(sys, c, d);
      WokeTable(sys, d, woken);
      WakeHome(sys.cores[d], sys.procs, sys'.procs, d, woken);
    }
  }

  lemma WokenPids(sys: Sys, woken: set<Slot>)
    requires Inv(sys)
    ensures PidsOk(Woken(sys, woken).procs, sys.nextPid, sys.freed)
  {
    var ps' := Woken(sys, woken).procs;
    forall s | s in sys.procs ensures Alive(ps', s) == Alive(sys.procs, s) && ps'[s].pid == sys.procs[s].pid {
      if OnSomeWaitList(sys.cores, s) {
        var i :| 0 <= i < |sys.cores| && s in sys.cores[i].waiting;
        assert HomeAt(sys, i);
      }
    }
    SamePids(sys.procs, ps', sys.nextPid, sys.freed);
  }

  lemma WokenInv(sys: Sys, c: nat, woken: set<Slot>)
    requires Inv(sys) && c < MAXCORES && sys.cores[c].at.Inside?
    ensures Inv(Woken(sys, woken))
  {
    WokenHomes(sys, c, woken);
    WokenPids(sys, woken);
    ShapeFromHome(Woken(sys, woken));
    LockStep(sys, Woken(sys, woken), c);
  }

  lemma WakeStep(sys: Sys, c: nat, wait: int, waker: Waker)
    requires Inv(sys) && c < MAXCORES && sys.cores[c].at == Inside(WakeUp(wait, waker))
    requires waker.Exiting? ==> wait == CHILD
    ensures Inv(DoWake(sys, c, wait, waker))
  {
    var woken := Sleepers(sys.procs, wait);
    var sys1 := Woken(sys, woken);
    WokenInv(sys, c, woken);
    assert DoWake(sys, c, wait, waker) == SetPoint(sys1, c, Release(AfterWake(waker)));
    assert sys1.cores[c].at == sys.cores[c].at;
    if waker.Exiting? {
      NobodyReaps(sys, c, woken);
      MoveTo(sys1, c, ToExitSchedule);
    } else {
      PlainEnd(sys1, c, AfterWake(waker));
    }
  }

  lemma NotSwapping(sys: Sys, c: nat, d: nat)
    requires LockOk(sys) && c < |sys.cores| && d < |sys.cores| && sys.cores[c].at.Inside?
    ensures !sys.cores[d].at.Swap?
  {
    if sys.cores[d].at.Swap? {
      assert Holding(sys.cores[c].at) && Holding(sys.cores[d].at);
    }
  }

  lemma WokeTable(sys: Sys, d: nat, woken: set<Slot>)
    requires Inv(sys) && d < MAXCORES
    ensures Woke(sys.cores[d], sys.procs, WakeTable(sys.cores, sys.procs, woken), d, woken)
  {
    forall s: Slot | s.core == d ensures OnSomeWaitList(sys.cores, s) <==> s in sys.cores[d].waiting {
      if OnSomeWaitList(sys.cores, s) {
        var i :| 0 <= i < |sys.cores| && s in sys.cores[i].waiting;
        assert HomeAt(sys, i);
      }
    }
  }

  /** After wake_up(-3) nobody on the core still sleeps inside wait(). */
  lemma NobodyReaps(sys: Sys, c: nat, woken: set<Slot>)
    requires Inv(sys) && c < MAXCORES && sys.cores[c].at == Inside(WakeUp(CHILD, Exiting))
    requires woken == Sleepers(sys.procs, CHILD)
    ensures var k, ps' := Woken(sys, woken).cores[c], Woken(sys, woken).procs;
            forall s | s in k.waiting :: s in ps' && !WillReap(Context(k, ps', s))
  {
    var k, ps' := Woken(sys, woken).cores[c], Woken(sys, woken).procs;
    forall s | s in k.waiting ensures s in ps' && !WillReap(Context(k, ps', s)) {
      DropMember(sys.cores[c].waiting, woken, s);
      assert HomeAt(sys, c);
      assert SlotOk(sys.cores[c], sys.procs, Slot(c, s.index));
    }
  }

  lemma ShapeFromHome(sys: Sys)
    requires |sys.cores| == MAXCORES
    requires forall s :: s in sys.procs <==> s.core < MAXCORES && s.index < NUM_PROC
    requires forall c: nat | c < MAXCORES :: HomeAt(sys, c)
    ensures Shape(sys)
  {
    forall c: nat | c < MAXCORES ensures CoreShape(sys, c) {
      assert HomeAt(sys, c);
    }
  }

  lemma SwapStep(sys: Sys, a: Action)
    requires Inv(sys) && Enabled(sys, a) && sys.cores[a.core].at.Swap?
    ensures Inv(Step(sys, a))
    ensures Step(sys, a).cores[a.core].at.Release?
  {
    var c := a.core;
    var sys' := Step(sys, a);
    assert HomeAt(sys, c);
    SwapHome(sys.cores[c], sys.procs, c);
    SamePids(sys.procs, sys'.procs, sys.nextPid, sys.freed);
    OneCore(sys, sys', c);
  }

  /** Every step of every core keeps the invariant. */
  lemma StepInv(sys: Sys, a: Action)
    requires Inv(sys) && Enabled(sys, a)
    ensures Inv(Step(sys, a))
  {
    var c := a.core;
    match sys.cores[c].at {
      case Swap(_, _) => SwapStep(sys, a);
      case Inside(op) =>
        match op {
          case Yield => YieldStep(sys, c);
          case SleepOn(wait, caller) => SleepStep(sys, c, wait, caller);
          case ExitSchedule => ExitScheduleStep(sys, c);
          case WakeUp(wait, waker) =>
            assert HomeAt(sys, c);
            WakeStep(sys, c, wait, waker);
          case ExitList => ExitListStep(sys, c);
          case Wait(pid) => WaitStep(sys, c, pid);
          case Fork => ForkStep(sys, c);
          case ListProcesses => ListStep(sys, c);
        }
      case User => TrapStep(sys, a);
      case Mark => MarkStep(sys, a);
      case Acquire(_) => AcquireStep(sys, a);
      case Release(_) => ReleaseStep(sys, a);
      case Wild =>
    }
  }

  // -------------------------------------------------------------------- runs

  ghost predicate Next(sys: Sys, a: Action, sys': Sys) {
    Shape(sys) && Enabled(sys, a) && sys' == Step(sys, a)
  }

  ghost predicate StepAt(rs: seq<Sys>, acts: seq<Action>, j: nat) {
    j < |acts| && j + 1 < |rs| && Next(rs[j], acts[j], rs[j + 1])
  }

  /** `rs` are the states of a run that takes the actions `acts`, in any interleaving of cores. */
  ghost predicate IsRun(rs: seq<Sys>, acts: seq<Action>) {
    && |rs| == |acts| + 1
    && Initial(rs[0])
    && (forall j | 0 <= j < |rs| :: |rs[j].cores| == MAXCORES)
    && forall j: nat | j < |acts| :: StepAt(rs, acts, j)
  }

  lemma NextInv(sys: Sys, a: Action, sys': Sys)
    requires Inv(sys) && Next(sys, a, sys')
    ensures Inv(sys')
  {
    StepInv(sys, a);
  }

  lemma {:induction false} ReachableInv(rs: seq<Sys>, acts: seq<Action>, n: nat)
    requires IsRun(rs, acts) && n < |rs|
    ensures Inv(rs[n])
  {
    if n == 0 {
      InitialInv(rs[0]);
    } else {
      ReachableInv(rs, acts, n - 1);
      assert StepAt(rs, acts, n - 1);
      NextInv(rs[n - 1], acts[n - 1], rs[n]);
    }
  }
}
