/** What holds in every reachable state of the scheduler, over all interleavings of the cores. */
module SchedulerTheorems {
  import opened Seqs
  import opened Scheduler
  import opened SchedulerInvariant
  import opened SchedulerRuns

  // ------------------------------------------------------- one place per process

  /** How often a process appears on one core: on its lists and as its current process. */
  function Appearances(k: Core, s: Slot): nat {
    multiset(k.ready)[s] + multiset(k.waiting)[s] + multiset(k.killed)[s] + (if k.current == s then 1 else 0)
  }

  function Places(cores: seq<Core>, s: Slot): nat {
    if cores == [] then 0 else Places(cores[..|cores| - 1], s) + Appearances(cores[|cores| - 1], s)
  }

  /** The process is in exit(), between its append to the kill list and its last schedule. */
  predicate LeavingCore(k: Core, s: Slot) {
    k.current == s && Exits(k.at) && !Listing(k.at)
  }

  lemma {:induction false} NoDupCount<T>(xs: seq<T>, x: T)
    requires NoDup(xs)
    ensures multiset(xs)[x] == if x in xs then 1 else 0
  {
    if xs != [] {
      NoDupTail(xs);
      NoDupCount(xs[1..], x);
      assert xs == [xs[0]] + xs[1..];
    }
  }

  /** On its home core, the state field of a process says exactly where it is. */
  lemma StateTellsPlace(k: Core, ps: Table, c: nat, s: Slot)
    requires Home(k, ps, c) && s.core == c && 0 < s.index < NUM_PROC
    ensures s in k.ready <==> ps[s].state == Ready
    ensures s in k.waiting <==> ps[s].state == Sleep
    ensures s in k.killed <==> ps[s].state == Killed && !(s == k.current && Listing(k.at))
    ensures s == k.current <==> ps[s].state == Running || (ps[s].state == Killed && s == k.current && Exits(k.at))
    ensures Appearances(k, s) == (if ps[s].state == Unused then 0 else 1) + (if LeavingCore(k, s) then 1 else 0)
  {
    assert SlotOk(k, ps, Slot(c, s.index));
    NoDupCount(k.ready, s);
    NoDupCount(k.waiting, s);
    NoDupCount(k.killed, s);
  }

  lemma ElsewhereAbsent(k: Core, ps: Table, d: nat, s: Slot)
    requires Home(k, ps, d) && s.core != d
    ensures Appearances(k, s) == 0
  {
    NoDupCount(k.ready, s);
    NoDupCount(k.waiting, s);
    NoDupCount(k.killed, s);
  }

  lemma {:induction false} OnlyAtHome(sys: Sys, s: Slot, n: nat)
    requires Inv(sys) && n <= |sys.cores|
    ensures Places(sys.cores[..n], s) == if s.core < n then Appearances(sys.cores[s.core], s) else 0
  {
    if n > 0 {
      OnlyAtHome(sys, s, n - 1);
      assert sys.cores[..n][..n - 1] == sys.cores[..n - 1];
      if s.core != n - 1 {
        assert HomeAt(sys, n - 1);
        ElsewhereAbsent(sys.cores[n - 1], sys.procs, n - 1, s);
      }
    }
  }

  /** In every reachable state each process entry is in exactly one place over all cores (current,
      or on one list of its home core) or unused.  Only a process inside exit() is in two places. */
  lemma OnePlace(rs: seq<Sys>, acts: seq<Action>, n: nat, s: Slot)
    requires IsRun(rs, acts) && n < |rs| && s.core < 4 && 0 < s.index < 30
    ensures Shape(rs[n])
    ensures var r := rs[n];
            && Places(r.cores, s) ==
               (if r.procs[s].state == Unused then 0 else 1) + (if LeavingCore(r.cores[s.core], s) then 1 else 0)
            && (s in r.cores[s.core].ready <==> r.procs[s].state == Ready)
            && (s in r.cores[s.core].waiting <==> r.procs[s].state == Sleep)
            && (s in r.cores[s.core].killed ==> r.procs[s].state == Killed)
            && (r.procs[s].state == Running ==> r.cores[s.core].current == s)
  {
    ReachableInv(rs, acts, n);
    var r := rs[n];
    assert HomeAt(r, s.core);
    StateTellsPlace(r.cores[s.core], r.procs, s.core, s);
    OnlyAtHome(r, s, |r.cores|);
    assert r.cores[..|r.cores|] == r.cores;
  }

  /** An idle process is never on a list, and is ready exactly while it is not current. */
  lemma IdleNeverListed(rs: seq<Sys>, acts: seq<Action>, n: nat, c: nat)
    requires IsRun(rs, acts) && n < |rs| && c < MAXCORES
    ensures Shape(rs[n])
    ensures var r := rs[n];
            && Places(r.cores, Slot(c, 0)) == (if r.cores[c].current == Slot(c, 0) then 1 else 0)
            && (r.procs[Slot(c, 0)].state == Running <==> r.cores[c].current == Slot(c, 0))
            && (r.procs[Slot(c, 0)].state == Ready <==> r.cores[c].current != Slot(c, 0))
  {
    ReachableInv(rs, acts, n);
    var r := rs[n];
    var k := r.cores[c];
    assert HomeAt(r, c);
    assert SlotOk(k, r.procs, Slot(c, 0));
    NoDupCount(k.ready, Slot(c, 0));
    NoDupCount(k.waiting, Slot(c, 0));
    NoDupCount(k.killed, Slot(c, 0));
    OnlyAtHome(r, Slot(c, 0), |r.cores|);
    assert r.cores[..|r.cores|] == r.cores;
  }

  // ----------------------------------------------------------------- the lock

  /** Lock hand-off: at most one core is between lock and unlock, exactly then the lock word is
      set, and each core has locked once more than it unlocked exactly at those points, so no core
      is in user mode with the lock. */
  lemma LockHandOff(rs: seq<Sys>, acts: seq<Action>, n: nat, c: nat, d: nat)
    requires IsRun(rs, acts) && n < |rs| && c < MAXCORES && d < MAXCORES
    ensures Shape(rs[n])
    ensures var r := rs[n];
            && (r.cores[c].held == 1 && r.cores[d].held == 1 ==> c == d)
            && (r.cores[c].held == 1 || r.cores[c].held == 0)
            && (r.cores[c].held == 1 ==> r.locked)
            && (r.cores[c].at.User? || r.cores[c].at.Acquire? ==> r.cores[c].held == 0)
            && (r.locked ==> exists h: nat | h < MAXCORES :: r.cores[h].held == 1)
            && !r.cores[c].at.Wild?
  {
    ReachableInv(rs, acts, n);
    var r := rs[n];
    assert HomeAt(r, c) && HomeAt(r, d);
    if r.locked {
      var h :| 0 <= h < |r.cores| && Holding(r.cores[h].at);
      assert HomeAt(r, h);
    }
  }

  /** Whatever `swap` resumes continues at an unlock of process_lock, in yield, sleep or pstart, and
      an idle context is resumed only after a yield saved it. */
  lemma SwapResumesAtUnlock(rs: seq<Sys>, acts: seq<Action>, n: nat, a: Action)
    requires IsRun(rs, acts) && n < |rs| && a.core < MAXCORES
    ensures Shape(rs[n]) && CoreShape(rs[n], a.core)
    ensures var r := rs[n];
            var k := r.cores[a.core];
            k.at.Swap? ==>
              && Enabled(r, a)
              && Releases(r.procs[k.current].ctx)
              && (k.current.index == 0 ==> r.procs[k.current].ctx == InYield)
              && Step(r, a).cores[a.core].at.Release?
              && k.at.prev != k.current && r.procs[k.at.prev].state != Running
  {
    ReachableInv(rs, acts, n);
    var r := rs[n];
    var k := r.cores[a.core];
    assert HomeAt(r, a.core);
    if k.at.Swap? {
      assert SwapOk(k, r.procs, a.core);
      SwapStep(r, a);
    }
  }

  // ------------------------------------------------------------------- reaping

  /** The process whose kernel stack a core is executing on. */
  function OnStack(k: Core): Slot {
    if k.at.Swap? then k.at.prev else k.current
  }

  /** wait(): the process it frees is on the kill list in state PROC_KILLED, is current on no core,
      is executing on no core, and was not freed before. */
  lemma ReapIsSafe(rs: seq<Sys>, acts: seq<Action>, n: nat, c: nat, pid: int, d: nat)
    requires IsRun(rs, acts) && n < |rs| && c < MAXCORES && d < MAXCORES
    ensures Shape(rs[n]) && CoreShape(rs[n], c)
    ensures var r := rs[n];
            var i := FirstWaiting(r.cores[c].killed, r.procs, pid);
            r.cores[c].at == Inside(Wait(pid)) && i < |r.cores[c].killed| ==>
              var s := r.cores[c].killed[i];
              && r.procs[s].state == Killed && r.procs[s].pid == pid && s.core == c
              && r.cores[d].current != s && OnStack(r.cores[d]) != s
              && pid !in r.freed
              && DoWait(r, c, pid).freed == r.freed + [pid]
              && DoWait(r, c, pid).procs[s] == ZEROED
  {
    ReachableInv(rs, acts, n);
    var r := rs[n];
    assert CoreShape(r, c);
    var i := FirstWaiting(r.cores[c].killed, r.procs, pid);
    if r.cores[c].at == Inside(Wait(pid)) && i < |r.cores[c].killed| {
      KilledIsIdle(r, c, r.cores[c].killed[i], d);
    }
  }

  /** While a core is inside wait(), a process on its kill list is not running anywhere. */
  lemma KilledIsIdle(r: Sys, c: nat, s: Slot, d: nat)
    requires Inv(r) && c < MAXCORES && d < MAXCORES
    requires r.cores[c].at.Inside? && r.cores[c].at.op.Wait? && s in r.cores[c].killed && s in r.procs
    ensures r.procs[s].state == Killed && r.procs[s].wait == r.procs[s].pid && s.core == c
    ensures r.cores[d].current != s && OnStack(r.cores[d]) != s
    ensures r.procs[s].pid !in r.freed
  {
    NotSwapping(r, c, d);
    assert HomeAt(r, c) && HomeAt(r, d);
    assert SlotOk(r.cores[c], r.procs, Slot(c, s.index));
    assert Alive(r.procs, s);
  }

  /** Nothing runs on freed memory: in every reachable state, no pid was freed twice, and no core
      has a process with a freed pid as its current process or under its stack pointer. */
  lemma FreedOnceNeverRuns(rs: seq<Sys>, acts: seq<Action>, n: nat, d: nat)
    requires IsRun(rs, acts) && n < |rs| && d < MAXCORES
    ensures Shape(rs[n]) && CoreShape(rs[n], d) && OnStack(rs[n].cores[d]) in rs[n].procs
    ensures var r := rs[n];
            && NoDup(r.freed)
            && (r.cores[d].current.index > 0 ==> r.procs[r.cores[d].current].pid !in r.freed)
            && (OnStack(r.cores[d]).index > 0 ==> r.procs[OnStack(r.cores[d])].pid !in r.freed)
  {
    ReachableInv(rs, acts, n);
    var r := rs[n];
    assert HomeAt(r, d);
    RunnersAlive(r.cores[d], r.procs, d);
  }

  lemma RunnersAlive(k: Core, ps: Table, c: nat)
    requires Home(k, ps, c)
    ensures k.current.index > 0 ==> Alive(ps, k.current)
    ensures OnStack(k).index > 0 ==> Alive(ps, OnStack(k))
  {
    assert SwapOk(k, ps, c);
  }

  // ---------------------------------------------------------- no lost wake-up

  /** In every reachable state, if a process sleeps inside wait(pid) and no exit on its core is
      between its append to the kill list and its wake_up(-3), then no process with that pid is on
      the core's kill list. */
  lemma NoLostWakeUp(rs: seq<Sys>, acts: seq<Action>, n: nat, c: nat, s: Slot, pid: int)
    requires IsRun(rs, acts) && n < |rs| && c < MAXCORES
    ensures Shape(rs[n]) && CoreShape(rs[n], c)
    ensures var r := rs[n];
            && s in r.cores[c].waiting && Context(r.cores[c], r.procs, s) == InSleep(Reaping(pid))
            && !BeforeExitWake(r.cores[c].at)
            ==> forall t | t in r.cores[c].killed :: r.procs[t].pid != pid
  {
    ReachableInv(rs, acts, n);
    var r := rs[n];
    assert HomeAt(r, c) && CoreShape(r, c);
    var k := r.cores[c];
    if s in k.waiting && Context(k, r.procs, s) == InSleep(Reaping(pid)) && !BeforeExitWake(k.at) {
      NotOnKillList(r.cores[c], r.procs, c, s, pid);
    }
  }

  lemma NotOnKillList(k: Core, ps: Table, c: nat, s: Slot, pid: int)
    requires Home(k, ps, c) && s in k.waiting && Context(k, ps, s) == InSleep(Reaping(pid)) && !BeforeExitWake(k.at)
    ensures forall t | t in k.killed :: t in ps && ps[t].pid != pid
  {
    assert WillReap(Context(k, ps, s));
    assert NoneKilled(k, ps, pid);
    forall t | t in k.killed ensures ps[t].pid != pid {
      assert SlotOk(k, ps, Slot(c, t.index));
    }
  }

  /** wake_up wakes every process asleep on its channel, on all cores, and no other. */
  lemma WakesAll(rs: seq<Sys>, acts: seq<Action>, n: nat, s: Slot, wait: int, waker: Waker)
    requires IsRun(rs, acts) && n < |acts| && acts[n].core < MAXCORES && s.core < MAXCORES && 0 < s.index < NUM_PROC
    requires rs[n].cores[acts[n].core].at == Inside(WakeUp(wait, waker))
    ensures s in rs[n].procs && s in rs[n + 1].procs
    ensures var p, p' := rs[n].procs[s], rs[n + 1].procs[s];
            p' == if p.state == Sleep && p.wait == wait then p.(state := Ready) else p
    ensures rs[n].procs[s].state == Sleep && rs[n].procs[s].wait == wait ==> s in rs[n + 1].cores[s.core].ready
  {
    ReachableInv(rs, acts, n);
    ReachableInv(rs, acts, n + 1);
    assert StepAt(rs, acts, n);
    WakeEntry(rs[n], acts[n], rs[n + 1], s, wait, waker);
    assert HomeAt(rs[n + 1], s.core);
    StateTellsPlace(rs[n + 1].cores[s.core], rs[n + 1].procs, s.core, s);
  }

  lemma WakeEntry(r: Sys, a: Action, r': Sys, s: Slot, wait: int, waker: Waker)
    requires Inv(r) && Next(r, a, r') && r.cores[a.core].at == Inside(WakeUp(wait, waker))
    requires s.core < MAXCORES && 0 < s.index < NUM_PROC
    ensures s in r.procs && s in r'.procs
    ensures var p := r.procs[s];
            r'.procs[s] == if p.state == Sleep && p.wait == wait then p.(state := Ready) else p
  {
    assert HomeAt(r, s.core);
    StateTellsPlace(r.cores[s.core], r.procs, s.core, s);
    WokeTable(r, s.core, Sleepers(r.procs, wait));
  }

  /** A process that sleeps is filed under its channel, on the wait list of its core. */
  lemma SleepFiles(rs: seq<Sys>, acts: seq<Action>, n: nat, wait: int, caller: Caller)
    requires IsRun(rs, acts) && n < |acts| && acts[n].core < MAXCORES
    requires rs[n].cores[acts[n].core].at == Inside(SleepOn(wait, caller))
    ensures var c := acts[n].core; var s := rs[n].cores[c].current;
            && s in rs[n + 1].procs && rs[n + 1].procs[s].state == Sleep && rs[n + 1].procs[s].wait == wait
            && s in rs[n + 1].cores[c].waiting && rs[n + 1].cores[c].current != s
  {
    ReachableInv(rs, acts, n);
    ReachableInv(rs, acts, n + 1);
    assert StepAt(rs, acts, n);
    var c := acts[n].core;
    SleepEntry(rs[n], c, wait, caller);
    assert HomeAt(rs[n + 1], c);
    StateTellsPlace(rs[n + 1].cores[c], rs[n + 1].procs, c, rs[n].cores[c].current);
  }

  lemma SleepEntry(r: Sys, c: nat, wait: int, caller: Caller)
    requires Inv(r) && c < MAXCORES && r.cores[c].at == Inside(SleepOn(wait, caller))
    ensures var s := r.cores[c].current; var r' := DoInside(r, c, SleepOn(wait, caller));
            && s in r'.procs && s.core == c && 0 < s.index < NUM_PROC
            && r'.procs[s].state == Sleep && r'.procs[s].wait == wait
  {
    assert HomeAt(r, c);
    SleepHome(r.cores[c], r.procs, c, wait, caller);
    assert CurrentOk(r.cores[c], r.procs);
    var k := r.cores[c];
    if k.ready != [] {
      assert k.ready[0] in k.ready;
    }
  }

  // ---------------------------------------------------------- bounded waiting

  /** This step is a schedule on core `c` that takes the head of its ready list. */
  ghost predicate Picks(sys: Sys, a: Action, c: nat)
    requires c < |sys.cores|
  {
    && a.core == c && sys.cores[c].ready != [] && sys.cores[c].at.Inside?
    && (sys.cores[c].at.op.Yield? || sys.cores[c].at.op.SleepOn? || sys.cores[c].at.op.ExitSchedule?)
  }

  /** One step appends to a ready list or, when it picks, takes the head, which becomes current. */
  lemma ReadyStep(sys: Sys, a: Action, c: nat)
    requires Inv(sys) && Enabled(sys, a) && c < MAXCORES
    ensures var q, k' := sys.cores[c].ready, Step(sys, a).cores[c];
            if Picks(sys, a, c) then q != [] && q[1..] <= k'.ready && k'.current == q[0] else q <= k'.ready
  {
    assert HomeAt(sys, c);
    if a.core == c && sys.cores[c].at.Inside? && sys.cores[c].ready != [] {
      assert sys.cores[c].ready[0] in sys.cores[c].ready;
    }
  }

  /** A queue after one step: it may grow at its end, and it loses its head when that is picked. */
  ghost predicate QueueStep(q: seq<Slot>, q': seq<Slot>, picked: bool) {
    if picked then q != [] && q[1..] <= q' else q <= q'
  }

  function Count(picked: seq<bool>): nat {
    if picked == [] then 0 else Count(picked[..|picked| - 1]) + if picked[|picked| - 1] then 1 else 0
  }

  ghost predicate QueueRun(qs: seq<seq<Slot>>, picked: seq<bool>) {
    |qs| == |picked| + 1 && forall j: nat | j < |picked| :: QueueStep(qs[j], qs[j + 1], picked[j])
  }

  lemma {:induction false} QueuePosition(qs: seq<seq<Slot>>, picked: seq<bool>, i: nat)
    requires QueueRun(qs, picked) && i < |qs[0]| && Count(picked) <= i
    ensures var q := qs[|picked|]; i - Count(picked) < |q| && q[i - Count(picked)] == qs[0][i]
    decreases |picked|
  {
    if picked != [] {
      var n := |picked| - 1;
      assert QueueRun(qs[..n + 1], picked[..n]) by {
        forall j: nat | j < n ensures QueueStep(qs[..n + 1][j], qs[..n + 1][j + 1], picked[..n][j]) {
          assert QueueStep(qs[j], qs[j + 1], picked[j]);
        }
      }
      QueuePosition(qs[..n + 1], picked[..n], i);
      assert QueueStep(qs[n], qs[n + 1], picked[n]);
    }
  }

  /** The ready list of core `c` in states `m .. n`, and which of the steps between are picks on it. */
  ghost function ReadyLists(rs: seq<Sys>, c: nat, m: nat, n: nat): seq<seq<Slot>>
    requires m <= n < |rs| && forall j | m <= j <= n :: c < |rs[j].cores|
  {
    seq(n - m + 1, j requires 0 <= j <= n - m => rs[m + j].cores[c].ready)
  }

  ghost function PickFlags(rs: seq<Sys>, acts: seq<Action>, c: nat, m: nat, n: nat): seq<bool>
    requires m <= n < |rs| && |rs| == |acts| + 1 && forall j | m <= j <= n :: c < |rs[j].cores|
  {
    seq(n - m, j requires 0 <= j < n - m => Picks(rs[m + j], acts[m + j], c))
  }

  lemma NextReady(sys: Sys, a: Action, sys': Sys, c: nat)
    requires Inv(sys) && Next(sys, a, sys') && c < MAXCORES && |sys'.cores| == MAXCORES
    ensures QueueStep(sys.cores[c].ready, sys'.cores[c].ready, Picks(sys, a, c))
    ensures Picks(sys, a, c) ==> sys'.cores[c].current == sys.cores[c].ready[0]
  {
    ReadyStep(sys, a, c);
  }

  lemma ReadyQueueRun(rs: seq<Sys>, acts: seq<Action>, c: nat, m: nat, n: nat)
    requires IsRun(rs, acts) && c < MAXCORES && m <= n < |rs|
    ensures QueueRun(ReadyLists(rs, c, m, n), PickFlags(rs, acts, c, m, n))
  {
    var qs, picked := ReadyLists(rs, c, m, n), PickFlags(rs, acts, c, m, n);
    forall j: nat | j < |picked| ensures QueueStep(qs[j], qs[j + 1], picked[j]) {
      ReachableInv(rs, acts, m + j);
      assert StepAt(rs, acts, m + j);
      NextReady(rs[m + j], acts[m + j], rs[m + j + 1], c);
    }
  }

  /** Bounded waiting: between states `m` and `n` of any run, while at most `i` picks happen on its
      core, a process at index `i` of the ready list moves to index `i - picks`, whatever sleeps,
      wakes, forks and exits happen; and pick number `i + 1` makes it the current process. */
  lemma BoundedWaiting(rs: seq<Sys>, acts: seq<Action>, c: nat, m: nat, n: nat, i: nat)
    requires IsRun(rs, acts) && c < MAXCORES && m <= n < |rs|
    requires i < |rs[m].cores[c].ready| && Count(PickFlags(rs, acts, c, m, n)) <= i
    ensures var p := Count(PickFlags(rs, acts, c, m, n));
            i - p < |rs[n].cores[c].ready| && rs[n].cores[c].ready[i - p] == rs[m].cores[c].ready[i]
    ensures Count(PickFlags(rs, acts, c, m, n)) == i && n < |acts| && Picks(rs[n], acts[n], c) ==>
              rs[n + 1].cores[c].current == rs[m].cores[c].ready[i]
  {
    ReadyQueueRun(rs, acts, c, m, n);
    QueuePosition(ReadyLists(rs, c, m, n), PickFlags(rs, acts, c, m, n), i);
    if n < |acts| {
      ReachableInv(rs, acts, n);
      assert StepAt(rs, acts, n);
      NextReady(rs[n], acts[n], rs[n + 1], c);
    }
  }

  // ----------------------------------------------------------------- progress

  /** Upper bound on the steps a core still takes with the lock held. */
  function StepsToUnlock(at: Point): nat {
    match at
    case Inside(_) => 3
    case Swap(_, _) => 2
    case Release(_) => 1
    case _ => 0
  }

  /** fork never ends when core 0, whose current process it copies, is idle, when core 0 has no unused
      process entry, or when an allocation fails. */
  ghost predicate ForkHalts(sys: Sys, a: Action)
    requires Shape(sys) && a.core < MAXCORES
  {
    && sys.cores[a.core].at == Inside(Fork)
    && (sys.cores[0].current.index == 0 || a.trap == NoMemory
        || forall j: nat | 0 < j < 30 :: sys.procs[Slot(0, j)].state != Unused)
  }

  /** A core that holds the lock can step exactly when it is not halted in fork, and every step brings it
      nearer to the unlock; steps of other cores do not move it. */
  lemma HolderAdvances(sys: Sys, a: Action, c: nat)
    requires Inv(sys) && c < MAXCORES && Holding(sys.cores[c].at)
    ensures a.core == c ==> (Enabled(sys, a) <==> !ForkHalts(sys, a))
    ensures Enabled(sys, a) && a.core == c ==>
              StepsToUnlock(Step(sys, a).cores[c].at) < StepsToUnlock(sys.cores[c].at)
    ensures Enabled(sys, a) && a.core != c ==> Step(sys, a).cores[c].at == sys.cores[c].at
  {
    if a.core == c && sys.cores[c].at == Inside(Fork) {
      var j := FirstUnused(sys.procs, 0, 1);
      assert j < NUM_PROC ==> sys.procs[Slot(0, j)].state == Unused;
    }
    if Enabled(sys, a) {
      if a.core == c {
        HolderNearer(sys, a);
      } else {
        HolderStays(sys, a, c);
      }
    }
  }

  lemma HolderNearer(sys: Sys, a: Action)
    requires Inv(sys) && Enabled(sys, a) && Holding(sys.cores[a.core].at)
    ensures StepsToUnlock(Step(sys, a).cores[a.core].at) < StepsToUnlock(sys.cores[a.core].at)
  {
    match sys.cores[a.core].at {
      case Swap(_, _) => SwapStep(sys, a);
      case Inside(op) => InsideNearer(sys, a, op);
      case Release(_) => ReleaseNearer(sys, a);
    }
  }

  lemma InsideNearer(sys: Sys, a: Action, op: Op)
    requires Inv(sys) && Enabled(sys, a) && sys.cores[a.core].at == Inside(op)
    ensures StepsToUnlock(Step(sys, a).cores[a.core].at) < 3
  {
    InsideAdvances(sys, a.core, op);
  }

  lemma ReleaseNearer(sys: Sys, a: Action)
    requires Inv(sys) && Enabled(sys, a) && sys.cores[a.core].at.Release?
    ensures StepsToUnlock(Step(sys, a).cores[a.core].at) == 0
  {
  }

  lemma HolderStays(sys: Sys, a: Action, c: nat)
    requires Inv(sys) && Enabled(sys, a) && c < MAXCORES && a.core != c
    ensures Step(sys, a).cores[c].at == sys.cores[c].at
  {
    assert HomeAt(sys, a.core);
  }

  lemma InsideAdvances(sys: Sys, c: nat, op: Op)
    requires Inv(sys) && c < MAXCORES && sys.cores[c].at == Inside(op)
    requires op.Fork? ==> FirstUnused(sys.procs, 0, 1) < NUM_PROC
    ensures var at' := DoInside(sys, c, op).cores[c].at; at'.Release? || at'.Swap?
  {
    assert HomeAt(sys, c);
    var k, ps := sys.cores[c], sys.procs;
    match op {
      case Yield => if k.ready != [] { YieldHome(k, ps, c); }
      case SleepOn(wait, caller) => SleepHome(k, ps, c, wait, caller);
      case ExitSchedule => ExitScheduleHome(k, ps, c);
      case _ =>
    }
  }

  /** No deadlock on process_lock: in every reachable state in which some core spins, the one core
      that holds the lock can step, unless it is halted on fork's assertion. */
  lemma SpinnersWaitForAMover(rs: seq<Sys>, acts: seq<Action>, n: nat, c: nat, trap: Trap)
    requires IsRun(rs, acts) && n < |rs| && c < MAXCORES
    ensures Shape(rs[n])
    ensures rs[n].cores[c].at.Acquire? && !Enabled(rs[n], Act(c, trap)) ==>
            exists h: nat | h < MAXCORES && h != c ::
              rs[n].cores[h].held == 1 && forall t :: Enabled(rs[n], Act(h, t)) || ForkHalts(rs[n], Act(h, t))
  {
    ReachableInv(rs, acts, n);
    var r := rs[n];
    if r.locked {
      var h: nat :| h < |r.cores| && Holding(r.cores[h].at);
      assert HomeAt(r, h);
      forall t ensures Enabled(r, Act(h, t)) || ForkHalts(r, Act(h, t)) {
        HolderAdvances(r, Act(h, t), h);
      }
      assert r.cores[h].held == 1;
    }
  }

  /** Which of the steps `m .. n` are taken by core `c`. */
  ghost function OwnSteps(acts: seq<Action>, c: nat, m: nat, n: nat): seq<bool>
    requires m <= n <= |acts|
  {
    seq(n - m, j requires 0 <= j < n - m => acts[m + j].core == c)
  }

  ghost function Distances(rs: seq<Sys>, c: nat, m: nat, n: nat): seq<int>
    requires m <= n < |rs| && forall j | m <= j <= n :: c < |rs[j].cores|
  {
    seq(n - m + 1, j requires 0 <= j <= n - m => StepsToUnlock(rs[m + j].cores[c].at))
  }

  ghost predicate CountsDown(xs: seq<int>, own: seq<bool>) {
    |xs| == |own| + 1 && forall j: nat | j < |own| :: xs[j + 1] + (if own[j] then 1 else 0) <= xs[j]
  }

  lemma {:induction false} CountDown(xs: seq<int>, own: seq<bool>)
    requires CountsDown(xs, own)
    ensures Count(own) + xs[|own|] <= xs[0]
    decreases |own|
  {
    if own != [] {
      var n := |own| - 1;
      CountDown(xs[..n + 1], own[..n]);
      assert xs[n + 1] + (if own[n] then 1 else 0) <= xs[n];
    }
  }

  lemma NextAdvances(sys: Sys, a: Action, sys': Sys, c: nat)
    requires Inv(sys) && Next(sys, a, sys') && c < MAXCORES && |sys'.cores| == MAXCORES && Holding(sys.cores[c].at)
    ensures StepsToUnlock(sys'.cores[c].at) + (if a.core == c then 1 else 0) <= StepsToUnlock(sys.cores[c].at)
  {
    HolderAdvances(sys, a, c);
  }

  lemma HoldStep(rs: seq<Sys>, acts: seq<Action>, c: nat, j: nat)
    requires IsRun(rs, acts) && c < MAXCORES && j < |acts|
    requires |rs[j].cores| == |rs[j + 1].cores| == MAXCORES && Holding(rs[j].cores[c].at)
    ensures StepsToUnlock(rs[j + 1].cores[c].at) + (if acts[j].core == c then 1 else 0) <=
            StepsToUnlock(rs[j].cores[c].at)
  {
    ReachableInv(rs, acts, j);
    assert StepAt(rs, acts, j);
    NextAdvances(rs[j], acts[j], rs[j + 1], c);
  }

  lemma HoldCountsDown(rs: seq<Sys>, acts: seq<Action>, c: nat, m: nat, n: nat)
    requires IsRun(rs, acts) && c < MAXCORES && m <= n < |rs|
    requires forall j | m <= j <= n :: Holding(rs[j].cores[c].at)
    ensures CountsDown(Distances(rs, c, m, n), OwnSteps(acts, c, m, n))
  {
    var xs, own := Distances(rs, c, m, n), OwnSteps(acts, c, m, n);
    forall j: nat | j < |own| ensures xs[j + 1] + (if own[j] then 1 else 0) <= xs[j] {
      HoldStep(rs, acts, c, m + j);
    }
  }

  /** A core that holds the lock from state `m` to state `n` of a run has taken at most two steps
      of its own in between, however the other cores interleave. */
  lemma HoldIsBounded(rs: seq<Sys>, acts: seq<Action>, c: nat, m: nat, n: nat)
    requires IsRun(rs, acts) && c < MAXCORES && m <= n < |rs|
    requires forall j | m <= j <= n :: Holding(rs[j].cores[c].at)
    ensures Count(OwnSteps(acts, c, m, n)) <= 2
  {
    HoldCountsDown(rs, acts, c, m, n);
    CountDown(Distances(rs, c, m, n), OwnSteps(acts, c, m, n));
    var xs := Distances(rs, c, m, n);
    assert xs[0] == StepsToUnlock(rs[m].cores[c].at) && xs[n - m] == StepsToUnlock(rs[n].cores[c].at);
    assert Holding(rs[n].cores[c].at);
  }
}
