/** The inductive invariant of the scheduler's transition system. */
module SchedulerInvariant {
  import opened Seqs
  import opened Scheduler

  // --------------------------------------------------------- control points

  /** The points between a spin_lock of process_lock and the matching spin_unlock. */
  predicate Holding(at: Point) {
    at.Inside? || at.Release? || at.Swap?
  }

  predicate AtOp(at: Point, op: Op) {
    at == Acquire(op) || at == Inside(op)
  }

  /** exit() before its append to the kill list. */
  predicate Listing(at: Point) {
    AtOp(at, ExitList)
  }

  /** exit() between its append to the kill list and the end of its wake_up. */
  predicate BeforeExitWake(at: Point) {
    at == Release(ToExitWake) || AtOp(at, WakeUp(CHILD, Exiting))
  }

  /** All of exit() after its unlocked stores. */
  predicate Exits(at: Point) {
    Listing(at) || BeforeExitWake(at) || at == Release(ToExitSchedule) || AtOp(at, ExitSchedule)
  }

  /** The points that only a user process reaches, never the idle loop. */
  predicate NeedsProcess(at: Point) {
    || at.Mark?
    || ((at.Acquire? || at.Inside?) && (at.op.SleepOn? || at.op.Wait? || at.op.Fork?))
    || (at.Release? && (at.next.Slept? || at.next.ToSleep?))
  }

  predicate WellFormed(at: Point) {
    && !at.Wild?
    && ((at.Acquire? || at.Inside?) && at.op.SleepOn? && at.op.caller.Reaping? ==> at.op.wait == CHILD)
    && ((at.Acquire? || at.Inside?) && at.op.WakeUp? && at.op.waker.Exiting? ==> at.op.wait == CHILD)
  }

  // ---------------------------------------------------------------- one core

  predicate Releases(ctx: Ctx) {
    ctx.AtPstart? || ctx.InYield? || ctx.InSleep?
  }

  /** The context that a process of this core will be resumed with: during a switch away from it,
      the one `swap` is about to save. */
  function Context(k: Core, ps: Table, s: Slot): Ctx
    requires s in ps
  {
    if k.at.Swap? && k.at.prev == s then k.at.save else ps[s].ctx
  }

  ghost predicate Queue(l: seq<Slot>, ps: Table, c: nat, state: PState) {
    NoDup(l) && forall s | s in l :: s in ps && s.core == c && 0 < s.index < NUM_PROC && ps[s].state == state
  }

  predicate SleepsAs(ctx: Ctx, wait: int) {
    ctx.InSleep? && (ctx.caller.Reaping? ==> wait == CHILD)
  }

  /** What the state field says about where a process is and how it will be resumed. */
  ghost predicate SlotOk(k: Core, ps: Table, s: Slot)
    requires s in ps
  {
    var p := ps[s];
    if s.index == 0 then
      && p.pid == s.core
      && (p.state == Running || p.state == Ready)
      && (p.state == Running <==> s == k.current)
      && (s != k.current ==> Context(k, ps, s) == InYield)
    else
      match p.state
      case Unused => true
      case Running => s == k.current
      case Ready => s in k.ready && Releases(Context(k, ps, s))
      case Sleep => s in k.waiting && SleepsAs(Context(k, ps, s), p.wait)
      case Killed => p.wait == p.pid && (s in k.killed || (s == k.current && Listing(k.at)))
  }

  ghost predicate CurrentOk(k: Core, ps: Table)
    requires k.current in ps
  {
    && (Exits(k.at) ==>
          && k.current.index > 0 && ps[k.current].state == Killed
          && (k.current in k.killed <==> !Listing(k.at)))
    && (!Exits(k.at) ==> ps[k.current].state == Running)
    && (NeedsProcess(k.at) ==> k.current.index > 0)
  }

  /** During a switch: the incoming context releases the lock, and the outgoing one is filed
      according to the reason for the switch. */
  ghost predicate SwapOk(k: Core, ps: Table, c: nat)
    requires k.current in ps
  {
    k.at.Swap? ==>
      var prev, save := k.at.prev, k.at.save;
      && prev in ps && prev.core == c && prev != k.current
      && Releases(ps[k.current].ctx) && (k.current.index == 0 ==> ps[k.current].ctx == InYield)
      && ((save == InYield && ps[prev].state == Ready)
          || (prev.index > 0 && ps[prev].state == Sleep && SleepsAs(save, ps[prev].wait))
          || (save == InExit && prev.index > 0 && ps[prev].state == Killed))
  }

  /** No process on the kill list can be reaped under `pid`. */
  ghost predicate NoneKilled(k: Core, ps: Table, pid: int) {
    forall s | s in k.killed :: s in ps ==> ps[s].wait != pid
  }

  predicate WillReap(ctx: Ctx) { ctx.InSleep? && ctx.caller.Reaping? }

  /** No lost wake-up. */
  ghost predicate WakeOk(k: Core, ps: Table)
    requires forall s | s in k.waiting :: s in ps
  {
    && (k.at.Release? && k.at.next.ToSleep? ==> NoneKilled(k, ps, k.at.next.pid))
    && ((k.at.Acquire? || k.at.Inside?) && k.at.op.SleepOn? && k.at.op.caller.Reaping? ==>
          NoneKilled(k, ps, k.at.op.caller.pid))
    && forall s | s in k.waiting && WillReap(Context(k, ps, s)) ::
         BeforeExitWake(k.at) || NoneKilled(k, ps, Context(k, ps, s).caller.pid)
  }

  ghost predicate Home(k: Core, ps: Table, c: nat) {
    && (forall i: nat | i < NUM_PROC :: Slot(c, i) in ps)
    && k.current.core == c && k.current.index < NUM_PROC
    && WellFormed(k.at)
    && k.held == (if Holding(k.at) then 1 else 0)
    && Queue(k.ready, ps, c, Ready) && Queue(k.waiting, ps, c, Sleep) && Queue(k.killed, ps, c, Killed)
    && CurrentOk(k, ps)
    && SwapOk(k, ps, c)
    && (forall i: nat | i < NUM_PROC :: SlotOk(k, ps, Slot(c, i)))
    && WakeOk(k, ps)
  }

  // ------------------------------------------------------------------- global

  ghost predicate LockOk(sys: Sys) {
    && (forall c, d | 0 <= c < |sys.cores| && 0 <= d < |sys.cores| ::
          Holding(sys.cores[c].at) && Holding(sys.cores[d].at) ==> c == d)
    && (sys.locked <==> exists c | 0 <= c < |sys.cores| :: Holding(sys.cores[c].at))
  }

  predicate Alive(ps: Table, s: Slot) {
    s in ps && s.index > 0 && ps[s].state != Unused
  }

  /** Pids of live processes are in range, distinct, and were not freed; no pid was freed twice. */
  ghost predicate PidsOk(ps: Table, nextPid: int, freed: seq<int>) {
    && FIRST_PID <= nextPid
    && (forall s | Alive(ps, s) :: FIRST_PID <= ps[s].pid < nextPid && ps[s].pid !in freed)
    && (forall s, t | Alive(ps, s) && Alive(ps, t) && ps[s].pid == ps[t].pid :: s == t)
    && (forall p | p in freed :: FIRST_PID <= p < nextPid)
    && NoDup(freed)
  }

  ghost predicate HomeAt(sys: Sys, c: nat) {
    c < |sys.cores| && Home(sys.cores[c], sys.procs, c)
  }

  ghost predicate Inv(sys: Sys) {
    && Shape(sys)
    && LockOk(sys)
    && PidsOk(sys.procs, sys.nextPid, sys.freed)
    && forall c: nat | c < MAXCORES :: HomeAt(sys, c)
  }

  // ------------------------------------------------------------------ framing

  ghost predicate SameHome(ps: Table, ps': Table, d: nat) {
    forall s: Slot | s.core == d :: (s in ps <==> s in ps') && (s in ps ==> ps'[s] == ps[s])
  }

  /** A core whose record and process entries are untouched keeps its invariant. */
  lemma HomeFrame(k: Core, ps: Table, ps': Table, d: nat)
    requires Home(k, ps, d) && SameHome(ps, ps', d)
    ensures Home(k, ps', d)
  {
    forall i: nat | i < NUM_PROC ensures SlotOk(k, ps', Slot(d, i)) {
      assert SlotOk(k, ps, Slot(d, i));
    }
    forall s | s in k.waiting && WillReap(Context(k, ps', s))
      ensures BeforeExitWake(k.at) || NoneKilled(k, ps', Context(k, ps', s).caller.pid)
    {
      assert Context(k, ps', s) == Context(k, ps, s);
    }
  }

  // ----------------------------------------------------- steps of one core

  ghost predicate Intends(at: Point, pid: int) {
    || at == Release(ToSleep(pid))
    || ((at.Acquire? || at.Inside?) && at.op.SleepOn? && at.op.caller == Reaping(pid))
  }

  lemma QuietHome(k: Core, ps: Table, c: nat, k': Core)
    requires Home(k, ps, c)
    requires k' == k.(at := k'.at, held := k'.held) && k'.held == (if Holding(k'.at) then 1 else 0)
    requires WellFormed(k'.at) && !k.at.Swap? && !k'.at.Swap?
    requires Exits(k.at) == Exits(k'.at) && Listing(k.at) == Listing(k'.at)
    requires BeforeExitWake(k.at) ==>
               BeforeExitWake(k'.at) || forall s | s in k.waiting :: s in ps && !WillReap(Context(k, ps, s))
    requires NeedsProcess(k'.at) ==> k.current.index > 0
    requires forall pid :: Intends(k'.at, pid) ==> NoneKilled(k, ps, pid)
    ensures Home(k', ps, c)
  {
    forall i: nat | i < NUM_PROC ensures SlotOk(k', ps, Slot(c, i)) {
      assert SlotOk(k, ps, Slot(c, i));
    }
    if k'.at.Release? && k'.at.next.ToSleep? {
      assert Intends(k'.at, k'.at.next.pid);
    }
    if (k'.at.Acquire? || k'.at.Inside?) && k'.at.op.SleepOn? && k'.at.op.caller.Reaping? {
      assert Intends(k'.at, k'.at.op.caller.pid);
    }
    forall s | s in k.waiting && WillReap(Context(k', ps, s))
      ensures BeforeExitWake(k'.at) || NoneKilled(k', ps, Context(k', ps, s).caller.pid)
    {
      assert Context(k', ps, s) == Context(k, ps, s);
      assert NoneKilled(k, ps, Context(k, ps, s).caller.pid) || BeforeExitWake(k.at);
    }
  }

  lemma MarkHome(k: Core, ps: Table, c: nat)
    requires Home(k, ps, c) && k.at.Mark?
    ensures Home(k.(at := Acquire(ExitList)), DoMark(ps, k.current), c)
  {
    var k', ps' := k.(at := Acquire(ExitList)), DoMark(ps, k.current);
    forall i: nat | i < NUM_PROC ensures SlotOk(k', ps', Slot(c, i)) {
      assert SlotOk(k, ps, Slot(c, i));
    }
    SameWakes(k, ps, k', ps');
  }

  /** WakeOk carries over when the sleepers keep their contexts and the kill list does not grow. */
  lemma SameWakes(k: Core, ps: Table, k': Core, ps': Table)
    requires forall s | s in k.waiting :: s in ps
    requires forall s | s in k'.waiting :: s in ps'
    requires WakeOk(k, ps)
    requires forall s | s in k'.waiting && WillReap(Context(k', ps', s)) ::
               s in k.waiting && Context(k', ps', s) == Context(k, ps, s)
    requires forall s | s in k'.killed :: s in k.killed && s in ps && (s in ps' ==> ps'[s].wait == ps[s].wait)
    requires BeforeExitWake(k.at) ==> BeforeExitWake(k'.at)
    requires forall pid :: Intends(k'.at, pid) ==> NoneKilled(k', ps', pid)
    ensures WakeOk(k', ps')
  {
    if k'.at.Release? && k'.at.next.ToSleep? {
      assert Intends(k'.at, k'.at.next.pid);
    }
    if (k'.at.Acquire? || k'.at.Inside?) && k'.at.op.SleepOn? && k'.at.op.caller.Reaping? {
      assert Intends(k'.at, k'.at.op.caller.pid);
    }
    forall s | s in k'.waiting && WillReap(Context(k', ps', s))
      ensures BeforeExitWake(k'.at) || NoneKilled(k', ps', Context(k', ps', s).caller.pid)
    {
      assert BeforeExitWake(k.at) || NoneKilled(k, ps, Context(k, ps, s).caller.pid);
    }
  }

  // ------------------------------------------------------------- the switch

  /** A process entry while no process of the core counts as running: the outgoing process is
      filed and will be resumed with `save`. */
  ghost predicate SlotOff(k: Core, ps: Table, s: Slot, save: Ctx)
    requires s in ps
  {
    var ctx := if s == k.current then save else ps[s].ctx;
    if s.index == 0 then ps[s].pid == s.core && ps[s].state == Ready && ctx == InYield
    else
      match ps[s].state
      case Unused => true
      case Running => false
      case Ready => s in k.ready && Releases(ctx)
      case Sleep => s in k.waiting && SleepsAs(ctx, ps[s].wait)
      case Killed => ps[s].wait == ps[s].pid && s in k.killed
  }

  ghost predicate SwitchedOff(k: Core, ps: Table, c: nat, save: Ctx) {
    && (forall i: nat | i < NUM_PROC :: Slot(c, i) in ps)
    && k.current.core == c && k.current.index < NUM_PROC
    && Queue(k.ready, ps, c, Ready) && Queue(k.waiting, ps, c, Sleep) && Queue(k.killed, ps, c, Killed)
    && (forall i: nat | i < NUM_PROC :: SlotOff(k, ps, Slot(c, i), save))
    && (forall s | s in k.waiting ::
          var ctx := if s == k.current then save else ps[s].ctx;
          WillReap(ctx) ==> NoneKilled(k, ps, ctx.caller.pid))
    && ((save == InYield && ps[k.current].state == Ready)
        || (k.current.index > 0 && ps[k.current].state == Sleep && SleepsAs(save, ps[k.current].wait))
        || (save == InExit && k.current.index > 0 && ps[k.current].state == Killed))
  }

  lemma ScheduleSlot(k: Core, ps: Table, c: nat, save: Ctx, back: Point, i: nat)
    requires SwitchedOff(k, ps, c, save) && i < NUM_PROC
    requires k.current != if k.ready == [] then Slot(c, 0) else k.ready[0]
    ensures var (k', ps') := Schedule(k, ps, c, save, back);
            Slot(c, i) in ps' && SlotOk(k', ps', Slot(c, i))
  {
    assert SlotOff(k, ps, Slot(c, i), save);
    if k.ready != [] {
      NoDupTail(k.ready);
      assert k.ready == [k.ready[0]] + k.ready[1..];
    }
  }

  lemma ScheduleHome(k: Core, ps: Table, c: nat, save: Ctx, back: Point)
    requires SwitchedOff(k, ps, c, save) && k.held == 1
    requires k.current != if k.ready == [] then Slot(c, 0) else k.ready[0]
    ensures var (k', ps') := Schedule(k, ps, c, save, back);
            Home(k', ps', c) && k'.at == Swap(k.current, save)
  {
    var next := if k.ready == [] then Slot(c, 0) else k.ready[0];
    var (k', ps') := Schedule(k, ps, c, save, back);
    assert SlotOff(k, ps, Slot(c, next.index), save);
    if k.ready != [] {
      NoDupTail(k.ready);
      assert k.ready == [next] + k.ready[1..];
    }
    forall i: nat | i < NUM_PROC ensures SlotOk(k', ps', Slot(c, i)) {
      ScheduleSlot(k, ps, c, save, back, i);
    }
    forall s | s in k'.waiting && WillReap(Context(k', ps', s))
      ensures NoneKilled(k', ps', Context(k', ps', s).caller.pid)
    {
      var ctx := if s == k.current then save else ps[s].ctx;
      assert Context(k', ps', s) == ctx;
      assert NoneKilled(k, ps, ctx.caller.pid);
    }
  }

  lemma YieldHome(k: Core, ps: Table, c: nat)
    requires Home(k, ps, c) && k.at == Inside(Yield) && k.ready != [] && PidsInRange(ps, c)
    ensures var (k', ps') := DoYield(k, ps, c);
            Home(k', ps', c) && k'.at == Swap(k.current, InYield)
  {
    var p := ps[k.current];
    var k1 := if p.pid >= FIRST_PID then k.(ready := k.ready + [k.current]) else k;
    var ps1 := ps[k.current := p.(state := Ready)];
    assert SlotOk(k, ps, Slot(c, k.current.index));
    assert k.ready[0] in k.ready;
    assert k.current !in k.ready;
    if p.pid >= FIRST_PID {
      NoDupSnoc(k.ready, k.current);
    }
    forall i: nat | i < NUM_PROC ensures SlotOff(k1, ps1, Slot(c, i), InYield) {
      assert SlotOk(k, ps, Slot(c, i));
    }
    forall s | s in k1.waiting ensures
      var ctx := if s == k1.current then InYield else ps1[s].ctx;
      WillReap(ctx) ==> NoneKilled(k1, ps1, ctx.caller.pid)
    {
      var ctx := Context(k, ps, s);
      assert WillReap(ctx) ==> NoneKilled(k, ps, ctx.caller.pid);
    }
    ScheduleHome(k1, ps1, c, InYield, Release(ToUser));
  }

  /** The pid test of yield tells the idle process from the others. */
  ghost predicate PidsInRange(ps: Table, c: nat) {
    c < MAXCORES && forall s | Alive(ps, s) :: ps[s].pid >= FIRST_PID
  }

  lemma SleepHome(k: Core, ps: Table, c: nat, wait: int, caller: Caller)
    requires Home(k, ps, c) && k.at == Inside(SleepOn(wait, caller))
    ensures var (k', ps') := DoSleep(k, ps, c, wait, caller);
            Home(k', ps', c) && k'.at == Swap(k.current, InSleep(caller))
  {
    var k1 := k.(waiting := k.waiting + [k.current]);
    var ps1 := ps[k.current := ps[k.current].(state := Sleep, wait := wait)];
    assert SlotOk(k, ps, Slot(c, k.current.index));
    NoDupSnoc(k.waiting, k.current);
    forall i: nat | i < NUM_PROC ensures SlotOff(k1, ps1, Slot(c, i), InSleep(caller)) {
      assert SlotOk(k, ps, Slot(c, i));
    }
    forall s | s in k1.waiting ensures
      var ctx := if s == k1.current then InSleep(caller) else ps1[s].ctx;
      WillReap(ctx) ==> NoneKilled(k1, ps1, ctx.caller.pid)
    {
      if s != k.current {
        var ctx := Context(k, ps, s);
        assert WillReap(ctx) ==> NoneKilled(k, ps, ctx.caller.pid);
      }
    }
    assert k1.current != if k1.ready == [] then Slot(c, 0) else k1.ready[0] by {
      if k1.ready != [] {
        assert k1.ready[0] in k.ready;
      }
    }
    ScheduleHome(k1, ps1, c, InSleep(caller), Release(Slept(caller)));
  }

  lemma ExitScheduleHome(k: Core, ps: Table, c: nat)
    requires Home(k, ps, c) && k.at == Inside(ExitSchedule)
    ensures var (k', ps') := DoExitSchedule(k, ps, c);
            Home(k', ps', c) && k'.at == Swap(k.current, InExit)
  {
    forall i: nat | i < NUM_PROC ensures SlotOff(k, ps, Slot(c, i), InExit) {
      assert SlotOk(k, ps, Slot(c, i));
    }
    forall s | s in k.waiting ensures
      var ctx := if s == k.current then InExit else ps[s].ctx;
      WillReap(ctx) ==> NoneKilled(k, ps, ctx.caller.pid)
    {
      var ctx := Context(k, ps, s);
      assert WillReap(ctx) ==> NoneKilled(k, ps, ctx.caller.pid);
    }
    if k.ready != [] {
      assert k.ready[0] in k.ready;
    }
    ScheduleHome(k, ps, c, InExit, Wild);
  }

  /** swap: the outgoing context is saved and the incoming one continues at an unlock. */
  lemma SwapHome(k: Core, ps: Table, c: nat)
    requires Home(k, ps, c) && k.at.Swap?
    ensures Home(k.(at := Resume(ps[k.current].ctx)), ps[k.at.prev := ps[k.at.prev].(ctx := k.at.save)], c)
    ensures Resume(ps[k.current].ctx).Release?
  {
    var k' := k.(at := Resume(ps[k.current].ctx));
    var ps' := ps[k.at.prev := ps[k.at.prev].(ctx := k.at.save)];
    forall i: nat | i < NUM_PROC ensures SlotOk(k', ps', Slot(c, i)) {
      assert SlotOk(k, ps, Slot(c, i));
      assert Context(k', ps', Slot(c, i)) == Context(k, ps, Slot(c, i));
    }
    SameWakes(k, ps, k', ps');
  }

  // ----------------------------------------------------------- exit and wait

  lemma ExitListHome(k: Core, ps: Table, c: nat)
    requires Home(k, ps, c) && k.at == Inside(ExitList)
    ensures Home(k.(killed := k.killed + [k.current], at := Release(ToExitWake)), ps, c)
  {
    var k' := k.(killed := k.killed + [k.current], at := Release(ToExitWake));
    NoDupSnoc(k.killed, k.current);
    forall i: nat | i < NUM_PROC ensures SlotOk(k', ps, Slot(c, i)) {
      assert SlotOk(k, ps, Slot(c, i));
    }
  }

  lemma ReapHome(k: Core, ps: Table, c: nat, i: nat)
    requires Home(k, ps, c) && k.at.Inside? && k.at.op.Wait? && i < |k.killed|
    ensures Home(k.(killed := Without(k.killed, i), at := Release(ToUser)), ps[k.killed[i] := ZEROED], c)
  {
    var s := k.killed[i];
    var k', ps' := k.(killed := Without(k.killed, i), at := Release(ToUser)), ps[s := ZEROED];
    forall t ensures t in k'.killed <==> t in k.killed && t != s {
      WithoutMember(k.killed, i, t);
    }
    WithoutMember(k.killed, i, s);
    assert s in k.killed;
    forall j: nat | j < NUM_PROC ensures SlotOk(k', ps', Slot(c, j)) {
      assert SlotOk(k, ps, Slot(c, j));
    }
    SameWakes(k, ps, k', ps');
  }

  lemma ForkHome(k: Core, ps: Table, c: nat, s: Slot, pid: int)
    requires Home(k, ps, c) && !k.at.Swap? && s in ps && s.core == c && 0 < s.index < NUM_PROC && ps[s].state == Unused
    ensures Home(k.(ready := k.ready + [s]), ps[s := Proc(Ready, pid, 0, AtPstart)], c)
  {
    var k', ps' := k.(ready := k.ready + [s]), ps[s := Proc(Ready, pid, 0, AtPstart)];
    assert s !in k.ready && s !in k.waiting && s !in k.killed && s != k.current;
    NoDupSnoc(k.ready, s);
    forall j: nat | j < NUM_PROC ensures SlotOk(k', ps', Slot(c, j)) {
      assert SlotOk(k, ps, Slot(c, j));
    }
    forall t | t in k'.waiting && WillReap(Context(k', ps', t))
      ensures BeforeExitWake(k'.at) || NoneKilled(k', ps', Context(k', ps', t).caller.pid)
    {
      assert Context(k', ps', t) == Context(k, ps, t);
      assert BeforeExitWake(k.at) || NoneKilled(k, ps, Context(k, ps, t).caller.pid);
    }
  }

  // ------------------------------------------------------------------ wake_up

  /** The entries of core `d` after wake_up: its listed sleepers in `woken` are ready. */
  ghost predicate Woke(k: Core, ps: Table, ps': Table, d: nat, woken: set<Slot>) {
    forall s: Slot | s.core == d ::
      && (s in ps <==> s in ps')
      && (s in ps ==> ps'[s] == if s in k.waiting && s in woken then ps[s].(state := Ready) else ps[s])
  }

  lemma WakeHome(k: Core, ps: Table, ps': Table, d: nat, woken: set<Slot>)
    requires Home(k, ps, d) && !k.at.Swap? && Woke(k, ps, ps', d, woken)
    ensures Home(WakeLists(k, woken), ps', d)
  {
    var k' := WakeLists(k, woken);
    forall s ensures s in k'.waiting <==> s in k.waiting && s !in woken {
      DropMember(k.waiting, woken, s);
    }
    forall s ensures s in k'.ready <==> s in k.ready || (s in k.waiting && s in woken) {
      KeepMember(k.waiting, woken, s);
    }
    WakeQueues(k, ps, d, woken);
    forall j: nat | j < NUM_PROC ensures SlotOk(k', ps', Slot(d, j)) {
      assert SlotOk(k, ps, Slot(d, j));
    }
    forall s | s in k'.waiting && WillReap(Context(k', ps', s))
      ensures BeforeExitWake(k'.at) || NoneKilled(k', ps', Context(k', ps', s).caller.pid)
    {
      assert Context(k', ps', s) == Context(k, ps, s);
      assert BeforeExitWake(k.at) || NoneKilled(k, ps, Context(k, ps, s).caller.pid);
    }
  }

  lemma WakeQueues(k: Core, ps: Table, d: nat, woken: set<Slot>)
    requires Home(k, ps, d)
    ensures NoDup(WakeLists(k, woken).ready) && NoDup(WakeLists(k, woken).waiting)
  {
    DropNoDup(k.waiting, woken);
    KeepNoDup(k.waiting, woken);
    forall s | s in k.ready ensures s !in Keep(k.waiting, woken) {
      KeepMember(k.waiting, woken, s);
    }
    NoDupConcat(k.ready, Keep(k.waiting, woken));
  }
}
