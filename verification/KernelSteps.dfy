/** The relinking critical sections do what the transition system says, list by list and entry by entry. */
module KernelSteps {
  import opened Seqs
  import opened Scheduler
  import opened KernelLists

  /** The heap objects of core `c` represent its part of a state of the transition system. */
  ghost predicate Agrees(pc: ProcessControl, k: Core, ps: Table, c: nat)
    reads pc, pc.ready, pc.waiting, pc.killed, pc.table
  {
    && pc.Valid() && pc.idle.slot == Slot(c, 0) && k.current == pc.current.slot
    && k.ready == Slots(pc.ready.items) && k.waiting == Slots(pc.waiting.items) && k.killed == Slots(pc.killed.items)
    && EntriesAgree(pc.table, ps, c)
  }

  ghost predicate EntriesAgree(table: set<Process>, ps: Table, c: nat)
    reads table
  {
    && (forall p | p in table :: p.slot in ps && p.slot.core == c && EntryAgrees(p, ps[p.slot]))
    && (forall p, q | p in table && q in table && p.slot == q.slot :: p == q)
  }

  ghost predicate EntryAgrees(p: Process, e: Proc)
    reads p
  {
    e.state == p.state && e.wait == p.wait && e.pid == p.pid
  }

  lemma {:induction false} SlotsAt(xs: seq<Process>, i: nat)
    requires i < |xs|
    ensures |Slots(xs)| == |xs| && Slots(xs)[i] == xs[i].slot
  {
    if |xs| > 1 {
      SlotsAt(xs[1..], if i == 0 then 0 else i - 1);
    }
  }

  lemma {:induction false} SlotsLength(xs: seq<Process>)
    ensures |Slots(xs)| == |xs|
  {
    if xs != [] {
      SlotsLength(xs[1..]);
    }
  }

  lemma SlotsMember(xs: seq<Process>, s: Slot)
    ensures s in Slots(xs) <==> exists p | p in xs :: p.slot == s
  {
    SlotsLength(xs);
    if s in Slots(xs) {
      var i :| 0 <= i < |xs| && Slots(xs)[i] == s;
      SlotsAt(xs, i);
      assert xs[i] in xs;
    }
    if p :| p in xs && p.slot == s {
      var i :| 0 <= i < |xs| && xs[i] == p;
      SlotsAt(xs, i);
    }
  }

  lemma SlotsTail(xs: seq<Process>)
    requires xs != []
    ensures Slots(xs) == [xs[0].slot] + Slots(xs[1..])
    ensures Slots(xs)[0] == xs[0].slot && Slots(xs)[1..] == Slots(xs[1..])
  {
  }

  lemma SlotsWithout(xs: seq<Process>, k: nat)
    requires k < |xs|
    ensures k < |Slots(xs)| && Slots(Without(xs, k)) == Without(Slots(xs), k)
  {
    SlotsAt(xs, k);
    SlotsAppend(xs[..k], xs[k + 1..]);
    SlotsAppend(xs[..k], xs[k..]);
    assert xs[..k] + xs[k..] == xs;
    SlotsLength(xs[..k]);
    SlotsTail(xs[k..]);
    assert xs[k..][1..] == xs[k + 1..];
  }

  /** The premises of the functions of the transition system. */
  lemma InTable(pc: ProcessControl, k: Core, ps: Table, c: nat)
    requires Agrees(pc, k, ps, c)
    ensures Slot(c, 0) in ps && k.current in ps
    ensures forall s | s in k.ready || s in k.waiting || s in k.killed :: s in ps
  {
    forall s | s in k.ready || s in k.waiting || s in k.killed ensures s in ps {
      SlotsMember(pc.ready.items, s);
      SlotsMember(pc.waiting.items, s);
      SlotsMember(pc.killed.items, s);
    }
  }

  /** The current process is on no list: before any critical section but those at the end of exit. */
  ghost predicate Unlisted(pc: ProcessControl)
    reads pc, pc.ready, pc.waiting, pc.killed
  {
    pc.current !in pc.ready.items && pc.current !in pc.waiting.items && pc.current !in pc.killed.items
  }

  lemma NotReady(pc: ProcessControl, k: Core, ps: Table, c: nat)
    requires Agrees(pc, k, ps, c) && Unlisted(pc)
    ensures k.current !in k.ready
  {
    SlotsMember(pc.ready.items, k.current);
  }

  /** What a yield with a non-empty ready list does, written out. */
  lemma YieldValue(k: Core, ps: Table, c: nat)
    requires Slot(c, 0) in ps && k.current in ps && (forall s | s in k.ready :: s in ps)
    requires k.ready != [] && k.current !in k.ready
    ensures var next, tail := k.ready[0], if ps[k.current].pid >= FIRST_PID then [k.current] else [];
            DoYield(k, ps, c) ==
            (k.(ready := k.ready[1..] + tail, current := next, at := Swap(k.current, InYield)),
             ps[k.current := ps[k.current].(state := Ready)][next := ps[next].(state := Running)])
  {
    assert (k.ready + [k.current])[1..] == k.ready[1..] + [k.current];
    assert k.ready[1..] + [] == k.ready[1..];
    assert k.ready[0] in k.ready;
  }

  method Yield(pc: ProcessControl, ghost k: Core, ghost ps: Table, ghost c: nat)
    requires Agrees(pc, k, ps, c) && Unlisted(pc)
    modifies pc`current, pc.ready, pc.table
    ensures Slot(c, 0) in ps && k.current in ps && forall s | s in k.ready :: s in ps
    ensures var (k', ps') := DoYield(k, ps, c); Agrees(pc, k', ps', c)
  {
    InTable(pc, k, ps, c);
    NotReady(pc, k, ps, c);
    ghost var items, prev := pc.ready.items, pc.current;
    SlotsLength(items);
    if items != [] {
      SlotsTail(items);
      SlotsAppend(items[1..], if prev.pid >= FIRST_PID then [prev] else []);
      assert items[0] in items;
      YieldValue(k, ps, c);
    }
    pc.Yield();
    ghost var ps' := DoYield(k, ps, c).1;
    forall p | p in pc.table ensures p.slot in ps' && EntryAgrees(p, ps'[p.slot]) {
      assert old(EntryAgrees(p, ps[p.slot]));
    }
  }

  /** What a sleep does, written out. */
  lemma SleepValue(k: Core, ps: Table, c: nat, wait: int, caller: Caller)
    requires Slot(c, 0) in ps && k.current in ps && (forall s | s in k.ready :: s in ps)
    requires k.current !in k.ready && k.current != Slot(c, 0)
    ensures var next := if k.ready == [] then Slot(c, 0) else k.ready[0];
            DoSleep(k, ps, c, wait, caller) ==
            (k.(ready := if k.ready == [] then [] else k.ready[1..], waiting := k.waiting + [k.current],
                current := next, at := Swap(k.current, InSleep(caller))),
             ps[k.current := ps[k.current].(state := PState.Sleep, wait := wait)][next := ps[next].(state := Running)])
  {
    assert k.ready != [] ==> k.ready[0] in k.ready;
  }

  method Sleep(pc: ProcessControl, wait: int, ghost k: Core, ghost ps: Table, ghost c: nat, ghost caller: Caller)
    requires Agrees(pc, k, ps, c) && Unlisted(pc) && pc.current != pc.idle
    modifies pc`current, pc.ready, pc.waiting, pc.table
    ensures Slot(c, 0) in ps && k.current in ps && forall s | s in k.ready :: s in ps
    ensures var (k', ps') := DoSleep(k, ps, c, wait, caller); Agrees(pc, k', ps', c)
  {
    InTable(pc, k, ps, c);
    NotReady(pc, k, ps, c);
    ghost var items, prev := pc.ready.items, pc.current;
    ghost var next := if items == [] then pc.idle else items[0];
    SlotsLength(items);
    SlotsAppend(pc.waiting.items, [prev]);
    if items != [] {
      SlotsTail(items);
      assert items[0] in items;
    }
    assert next in pc.table && next != prev;
    pc.Sleep(wait);
    SleepValue(k, ps, c, wait, caller);
    ghost var ps' := DoSleep(k, ps, c, wait, caller).1;
    assert ps' == ps[prev.slot := ps[prev.slot].(state := PState.Sleep, wait := wait)]
                    [next.slot := ps[next.slot].(state := Running)];
    forall p | p in pc.table ensures p.slot in ps' && EntryAgrees(p, ps'[p.slot]) {
      assert old(EntryAgrees(p, ps[p.slot]));
    }
  }

  method ListKilled(pc: ProcessControl, ghost k: Core, ghost ps: Table, ghost c: nat)
    requires Agrees(pc, k, ps, c) && Unlisted(pc)
    modifies pc.killed, pc.table`next
    ensures Agrees(pc, k.(killed := k.killed + [k.current], at := Release(ToExitWake)), ps, c)
  {
    SlotsAppend(pc.killed.items, [pc.current]);
    pc.ListKilled();
  }

  lemma {:induction false} FirstAgrees(xs: seq<Process>, ps: Table, wait: int, i: nat)
    requires i <= |xs| && forall p | p in xs :: p.slot in ps && ps[p.slot].wait == p.wait
    ensures |Slots(xs[i..])| == |xs| - i && forall s | s in Slots(xs[i..]) :: s in ps
    ensures i + FirstWaiting(Slots(xs[i..]), ps, wait) == HeadList.FirstFrom(xs, wait, i)
    decreases |xs| - i
  {
    SlotsLength(xs[i..]);
    forall s | s in Slots(xs[i..]) ensures s in ps {
      SlotsMember(xs[i..], s);
    }
    if i < |xs| {
      SlotsTail(xs[i..]);
      assert xs[i..][1..] == xs[i + 1..];
      assert xs[i] in xs;
      FirstAgrees(xs, ps, wait, i + 1);
    }
  }

  /** What the critical section of wait does to its core and the process table, written out. */
  lemma WaitValue(sys: Sys, c: nat, pid: int, i: nat)
    requires Shape(sys) && c < MAXCORES && CoreShape(sys, c)
    requires i == FirstWaiting(sys.cores[c].killed, sys.procs, pid)
    ensures var k, s' := sys.cores[c], DoWait(sys, c, pid);
            if i == |k.killed| then
              s'.cores[c] == k.(at := Release(ToSleep(pid))) && s'.procs == sys.procs && s'.freed == sys.freed
            else
              && s'.cores[c] == k.(killed := Without(k.killed, i), at := Release(ToUser))
              && s'.procs == sys.procs[k.killed[i] := ZEROED] && |s'.freed| == |sys.freed| + 1
  {
  }

  method Reap(pc: ProcessControl, pid: int, ghost sys: Sys, ghost c: nat) returns (p: Process?)
    requires Shape(sys) && c < MAXCORES && Agrees(pc, sys.cores[c], sys.procs, c) && pc.current !in pc.killed.items
    modifies pc.killed, pc.table
    ensures Agrees(pc, DoWait(sys, c, pid).cores[c], DoWait(sys, c, pid).procs, c)
    ensures p == null <==> DoWait(sys, c, pid).freed == sys.freed
  {
    ghost var items := pc.killed.items;
    assert CoreShape(sys, c);
    assert items[0..] == items;
    FirstAgrees(items, sys.procs, pid, 0);
    ghost var i := pc.killed.First(pid);
    WaitValue(sys, c, pid, i);
    if i < |items| {
      SlotsWithout(items, i);
      SlotsAt(items, i);
      assert items[i] in items;
    }
    p := pc.Reap(pid);
    ghost var ps' := DoWait(sys, c, pid).procs;
    forall q | q in pc.table ensures q.slot in ps' && EntryAgrees(q, ps'[q.slot]) {
      assert old(EntryAgrees(q, sys.procs[q.slot]));
    }
  }

  /** The last schedule of exit, with the current process on the kill list. */
  method ExitSchedule(pc: ProcessControl, ghost k: Core, ghost ps: Table, ghost c: nat)
    requires Agrees(pc, k, ps, c) && pc.current in pc.killed.items && pc.current != pc.idle
    modifies pc`current, pc.ready, pc.table`state
    ensures Slot(c, 0) in ps && forall s | s in k.ready :: s in ps
    ensures var (k', ps') := DoExitSchedule(k, ps, c); Agrees(pc, k', ps', c)
  {
    InTable(pc, k, ps, c);
    SlotsMember(pc.ready.items, k.current);
    ghost var items := pc.ready.items;
    SlotsLength(items);
    if items != [] {
      SlotsTail(items);
      assert items[0] in items;
    }
    var _ := pc.Schedule();
    ghost var ps' := DoExitSchedule(k, ps, c).1;
    forall p | p in pc.table ensures p.slot in ps' && EntryAgrees(p, ps'[p.slot]) {
      assert old(EntryAgrees(p, ps[p.slot]));
    }
  }

  // ------------------------------------------------------------- wake_up on all cores

  /** Every core agrees, and each slot belongs to the core it names. */
  ghost predicate AllAgree(pcs: seq<ProcessControl>, sys: Sys)
    reads pcs, set pc | pc in pcs :: pc.ready, set pc | pc in pcs :: pc.waiting, set pc | pc in pcs :: pc.killed
    reads set pc, p | pc in pcs && p in pc.table :: p
  {
    |pcs| == |sys.cores| && forall c: nat | c < |pcs| :: Agrees(pcs[c], sys.cores[c], sys.procs, c)
  }

  /** A process is woken in the transition system exactly when its own core's wait list has it. */
  lemma WokenAtHome(pcs: seq<ProcessControl>, sys: Sys, c: nat, p: Process, wait: int)
    requires AllAgree(pcs, sys) && c < |pcs| && p in pcs[c].table
    ensures p.slot in Sleepers(sys.procs, wait) && OnSomeWaitList(sys.cores, p.slot)
            <==> p in pcs[c].waiting.items && p.wait == wait
  {
    var k := sys.cores[c];
    assert Agrees(pcs[c], k, sys.procs, c);
    SlotsMember(pcs[c].waiting.items, p.slot);
    assert EntryAgrees(p, sys.procs[p.slot]);
    forall i: nat | i < |sys.cores| && p.slot in sys.cores[i].waiting ensures i == c {
      assert Agrees(pcs[i], sys.cores[i], sys.procs, i);
      SlotsMember(pcs[i].waiting.items, p.slot);
    }
  }

  /** A core's view represents its part of a state, and its own sleepers are the ones woken there. */
  ghost predicate ViewAgrees(v: CoreView, sys: Sys, c: nat, wait: int)
    requires c < |sys.cores|
  {
    && sys.cores[c].ready == Slots(v.ready) && sys.cores[c].waiting == Slots(v.waiting)
    && (forall p | p in v.waiting :: p in v.entries)
    && (forall p | p in v.entries :: p.slot in sys.procs && Matches(v.entries[p], sys.procs[p.slot]))
    && (forall p | p in v.entries ::
          p.slot in Sleepers(sys.procs, wait) && OnSomeWaitList(sys.cores, p.slot) <==> p in Asleep(v, wait))
  }

  predicate Matches(e: Entry, p: Proc) {
    e.state == p.state && e.wait == p.wait && e.pid == p.pid
  }

  lemma WokenView(v: CoreView, sys: Sys, c: nat, wait: int)
    requires c < |sys.cores| && ViewAgrees(v, sys, c, wait)
    ensures var woken, v' := Sleepers(sys.procs, wait), Woken(v, wait);
            && WakeLists(sys.cores[c], woken).ready == Slots(v'.ready)
            && WakeLists(sys.cores[c], woken).waiting == Slots(v'.waiting)
            && forall p | p in v'.entries ::
                 p.slot in sys.procs && Matches(v'.entries[p], WakeTable(sys.cores, sys.procs, woken)[p.slot])
  {
    WakeAgrees(v, sys.cores[c], sys.procs, wait);
  }

  lemma ViewOf(pcs: seq<ProcessControl>, sys: Sys, c: nat, wait: int)
    requires AllAgree(pcs, sys) && c < |pcs|
    ensures ViewAgrees(pcs[c].View(), sys, c, wait) && pcs[c].Valid()
  {
    assert Agrees(pcs[c], sys.cores[c], sys.procs, c);
    var v := pcs[c].View();
    forall p | p in v.entries
      ensures p.slot in sys.procs && Matches(v.entries[p], sys.procs[p.slot])
      ensures p.slot in Sleepers(sys.procs, wait) && OnSomeWaitList(sys.cores, p.slot) <==> p in Asleep(v, wait)
    {
      assert EntryAgrees(p, sys.procs[p.slot]);
      WokenAtHome(pcs, sys, c, p, wait);
    }
  }

  ghost predicate KilledApart(pcs: seq<ProcessControl>, d: nat)
    requires d < |pcs|
    reads pcs
  {
    forall pc | pc in pcs :: pcs[d].killed != pc.ready && pcs[d].killed != pc.waiting
  }

  /** wake_up leaves every kill list alone. */
  lemma KillListsApart(pcs: seq<ProcessControl>, d: nat)
    requires Separate(pcs) && d < |pcs| && forall pc | pc in pcs :: pc.Valid()
    ensures KilledApart(pcs, d)
  {
    forall pc | pc in pcs ensures pcs[d].killed != pc.ready && pcs[d].killed != pc.waiting {
      var i :| 0 <= i < |pcs| && pcs[i] == pc;
      var a, b := if i < d then i else d, if i < d then d else i;
      if a < b {
        var la, lb := {pcs[a].ready, pcs[a].waiting, pcs[a].killed}, {pcs[b].ready, pcs[b].waiting, pcs[b].killed};
        assert la !! lb;
        assert pc.ready in (if i < d then la else lb) && pc.waiting in (if i < d then la else lb);
        assert pcs[d].killed in (if i < d then lb else la);
      }
    }
  }

  /** wake_up on all cores. */
  method WakeAll(pcs: seq<ProcessControl>, wait: int, ghost sys: Sys)
    requires Separate(pcs) && AllAgree(pcs, sys)
    modifies set pc | pc in pcs :: pc.ready, set pc | pc in pcs :: pc.waiting
    modifies set pc, p | pc in pcs && p in pc.table :: p
    ensures |pcs| == |sys.cores|
    ensures var woken := Sleepers(sys.procs, wait);
            forall d: nat | d < |pcs| ::
              Agrees(pcs[d], WakeLists(sys.cores[d], woken), WakeTable(sys.cores, sys.procs, woken), d)
  {
    forall d: nat | d < |pcs| ensures pcs[d].Valid() && ViewAgrees(pcs[d].View(), sys, d, wait) {
      ViewOf(pcs, sys, d, wait);
    }
    forall d: nat | d < |pcs| ensures KilledApart(pcs, d) {
      KillListsApart(pcs, d);
    }
    KernelLists.WakeUp(pcs, wait);
    forall d: nat | d < |pcs|
      ensures Agrees(pcs[d], WakeLists(sys.cores[d], Sleepers(sys.procs, wait)),
                     WakeTable(sys.cores, sys.procs, Sleepers(sys.procs, wait)), d)
    {
      assert pcs[d] in pcs && old(Agrees(pcs[d], sys.cores[d], sys.procs, d));
      WokenView(old(pcs[d].View()), sys, d, wait);
      assert old(KilledApart(pcs, d));
      AgreesByView(pcs[d], WakeLists(sys.cores[d], Sleepers(sys.procs, wait)),
                   WakeTable(sys.cores, sys.procs, Sleepers(sys.procs, wait)), d);
    }
  }

  lemma AgreesByView(pc: ProcessControl, k: Core, ps: Table, c: nat)
    requires pc.Valid() && pc.idle.slot == Slot(c, 0) && k.current == pc.current.slot
    requires k.ready == Slots(pc.View().ready) && k.waiting == Slots(pc.View().waiting)
    requires k.killed == Slots(pc.killed.items)
    requires forall p | p in pc.View().entries :: p.slot in ps && Matches(pc.View().entries[p], ps[p.slot])
    requires forall p | p in pc.table :: p.slot.core == c
    requires forall p, q | p in pc.table && q in pc.table && p.slot == q.slot :: p == q
    ensures Agrees(pc, k, ps, c)
  {
    forall p | p in pc.table ensures p.slot in ps && EntryAgrees(p, ps[p.slot]) {
      assert p in pc.View().entries;
    }
  }
}
