/**
  The intrusive head/tail lists of src/lib.c and the critical sections of src/process.c that work on
  them, over heap objects that are relinked in place.  Every list is accessed with process_lock held.
 */
module KernelLists {
  import opened Seqs
  import opened Scheduler

  /** struct Process, as far as the lists and the scheduler use it. */
  class Process {
    const slot: Slot
    var next: Process?
    var pid: int
    var state: PState
    var wait: int

    constructor (slot: Slot, pid: int)
      ensures this.slot == slot && this.pid == pid && state == Unused && wait == 0
    {
      this.slot := slot;
      this.pid := pid;
      next, state, wait := null, Unused, 0;
    }
  }

  /** The `k`-th node of a list, or NULL past its end. */
  ghost function Link(xs: seq<Process>, k: nat): Process? {
    if k < |xs| then xs[k] else null
  }

  ghost predicate Joined(xs: seq<Process>, i: nat)
    requires i < |xs|
    reads xs
  {
    xs[i].next == Link(xs, i + 1)
  }

  /** struct HeadList. */
  class HeadList {
    var next: Process?
    var tail: Process?
    ghost var items: seq<Process>

    ghost predicate Valid()
      reads this, items
    {
      && NoDup(items)
      && next == Link(items, 0)
      && (items != [] ==> tail == items[|items| - 1])
      && forall i: nat | i < |items| :: Joined(items, i)
    }

    constructor ()
      ensures Valid() && items == []
    {
      next, tail, items := null, null, [];
    }

    /** append_list_tail. */
    method Append(item: Process)
      requires Valid() && item !in items
      modifies this, item`next, items`next
      ensures Valid() && items == old(items) + [item]
    {
      item.next := null;
      label cleared:
      assert forall i: nat | i < |items| :: Joined(items, i);
      if next == null {
        next := item;
        tail := item;
      } else {
        tail.next := item;
        tail := item;
      }
      items := items + [item];
      forall i: nat | i < |items| ensures Joined(items, i) {
        if i + 1 < |old(items)| {
          assert old@cleared(Joined(items, i));
        }
      }
    }

    /** remove_list_head: None leaves the list as it is. */
    method RemoveHead() returns (item: Process?)
      requires Valid()
      modifies this
      ensures Valid()
      ensures if old(items) == [] then item == null && items == []
              else item == old(items)[0] && items == old(items)[1..]
    {
      if next == null {
        return null;
      }
      NoDupTail(items);
      assert Joined(items, 0);
      item := next;
      next := item.next;
      if next == null {
        tail := null;
      }
      items := items[1..];
      forall i: nat | i < |items| ensures Joined(items, i) {
        assert Joined(old(items), i + 1);
      }
    }

    /** get_list_count. */
    method Count() returns (count: nat)
      requires Valid()
      ensures count == |items|
    {
      count := 0;
      var current := next;
      while current != null
        invariant count <= |items|
        invariant current == Link(items, count)
        decreases |items| - count
      {
        assert Joined(items, count);
        current := current.next;
        count := count + 1;
      }
    }

    /** The position of the first process with this wait value, or the length of the list. */
    ghost function First(wait: int): (k: nat)
      requires Valid()
      reads this, items
      ensures k <= |items|
      ensures k < |items| ==> items[k].wait == wait
      ensures forall i: nat | i < k :: items[i].wait != wait
    {
      FirstFrom(items, wait, 0)
    }

    static ghost function FirstFrom(xs: seq<Process>, wait: int, i: nat): (k: nat)
      requires i <= |xs|
      reads xs
      ensures i <= k <= |xs|
      ensures k < |xs| ==> xs[k].wait == wait
      ensures forall j: nat | i <= j < k :: xs[j].wait != wait
      decreases |xs| - i
    {
      if i == |xs| || xs[i].wait == wait then i else FirstFrom(xs, wait, i + 1)
    }

    /** remove_list: unlink the first process with this wait value. */
    method Remove(wait: int) returns (item: Process?)
      requires Valid()
      modifies this, items`next
      ensures Valid()
      ensures var k := old(First(wait));
              if k == |old(items)| then item == null && items == old(items)
              else item == old(items)[k] && items == Without(old(items), k)
    {
      var current := next;
      var prev: Process? := null;
      ghost var k := 0;
      while current != null
        invariant k <= |items| && First(wait) == FirstFrom(items, wait, k)
        invariant current == Link(items, k)
        invariant prev == if k == 0 then null else items[k - 1]
        decreases |items| - k
      {
        if current.wait == wait {
          Unlink(prev, current, k);
          return current;
        }
        assert Joined(items, k);
        prev := current;
        current := current.next;
        k := k + 1;
      }
      return null;
    }

    /** The stores of remove_list.  A null `prev` stands for the head, whose first field is `next`. */
    method Unlink(prev: Process?, current: Process, ghost k: nat)
      requires Valid() && k < |items| && items[k] == current
      requires prev == if k == 0 then null else items[k - 1]
      modifies this, items`next
      ensures Valid() && items == Without(old(items), k)
    {
      ghost var rest := Without(items, k);
      WithoutMember(items, k, items[k]);
      assert Joined(items, k);
      if prev == null {
        next := current.next;
      } else {
        prev.next := current.next;
      }
      if next == null {
        tail := null;
      } else if current.next == null {
        tail := prev;
      }
      items := rest;
      forall i: nat | i < |rest| ensures Joined(rest, i) {
        assert old(Joined(items, if i < k then i else i + 1));
      }
    }
  }

  /** A list whose head and whose processes' links did not change is still well linked. */
  twostate lemma Untouched(l: HeadList)
    requires old(l.Valid()) && unchanged(l) && forall p | p in l.items :: old(allocated(p)) && p.next == old(p.next)
    ensures l.Valid()
  {
    forall i: nat | i < |l.items| ensures Joined(l.items, i) {
      assert old(Joined(l.items, i));
    }
  }

  // ------------------------------------------------------- one core's control block

  datatype Entry = Entry(state: PState, wait: int, pid: int)

  /** What a core's ready and wait lists hold, and its process entries. */
  datatype CoreView = CoreView(ready: seq<Process>, waiting: seq<Process>, entries: map<Process, Entry>)

  function Asleep(v: CoreView, wait: int): set<Process> {
    set p | p in v.waiting && p in v.entries && v.entries[p].wait == wait
  }

  /** wake_up on one core. */
  function Woken(v: CoreView, wait: int): CoreView {
    var woken := Asleep(v, wait);
    CoreView(v.ready + Keep(v.waiting, woken), Drop(v.waiting, woken),
             map p | p in v.entries :: if p in woken then v.entries[p].(state := Ready) else v.entries[p])
  }

  /** struct ProcessControl, with the core's row of the process table. */
  class ProcessControl {
    var current: Process
    const idle: Process
    const ready: HeadList
    const waiting: HeadList
    const killed: HeadList
    ghost const table: set<Process>

    constructor (idle: Process, ghost table: set<Process>)
      requires idle in table
      ensures Valid() && current == this.idle == idle && this.table == table
      ensures ready.items == waiting.items == killed.items == []
      ensures fresh(ready) && fresh(waiting) && fresh(killed)
    {
      this.idle := idle;
      this.table := table;
      current := idle;
      ready := new HeadList();
      waiting := new HeadList();
      killed := new HeadList();
    }

    /** Three separate, well-linked lists of the core's processes with no process in common. */
    ghost predicate Valid()
      reads this, ready, waiting, killed, table
    {
      && ready != waiting && ready != killed && waiting != killed
      && current in table && idle in table
      && (forall p | p in ready.items :: p in table && p !in waiting.items && p !in killed.items)
      && (forall p | p in waiting.items :: p in table && p !in killed.items)
      && (forall p | p in killed.items :: p in table)
      && ready.Valid() && waiting.Valid() && killed.Valid()
    }

    ghost function View(): CoreView
      reads this, ready, waiting, table
    {
      CoreView(ready.items, waiting.items, map p | p in table :: Entry(p.state, p.wait, p.pid))
    }

    ghost function Sleepers(wait: int): set<Process>
      reads waiting, waiting.items
    {
      set p | p in waiting.items && p.wait == wait
    }

    /** One core's part of wake_up. */
    method Wake(wait: int)
      requires Valid()
      modifies waiting, ready, table
      ensures Valid() && View() == Woken(old(View()), wait)
    {
      assert Asleep(View(), wait) == Sleepers(wait);
      MoveSleepers(wait);
    }

    /** The sleepers move to the ready list in their order. */
    method MoveSleepers(wait: int)
      requires Valid()
      modifies waiting, ready, table
      ensures Valid()
      ensures ready.items == old(ready.items) + Keep(old(waiting.items), old(Sleepers(wait)))
      ensures waiting.items == Drop(old(waiting.items), old(Sleepers(wait)))
      ensures forall p | p in table ::
                && p.wait == old(p.wait) && p.pid == old(p.pid)
                && p.state == if p in old(Sleepers(wait)) then Ready else old(p.state)
    {
      ghost var woken := Sleepers(wait);
      var p := TakeSleeper(wait, woken);
      while p != null
        invariant Moving(p, wait, woken)
        invariant Drop(waiting.items, woken) == Drop(old(waiting.items), woken)
        invariant Passed(p, woken) == old(ready.items) + Keep(old(waiting.items), woken)
        invariant forall x | x in table ::
                    && x.wait == old(x.wait) && x.pid == old(x.pid)
                    && x.state == if x in woken && x !in waiting.items && x != p then Ready else old(x.state)
        decreases |waiting.items| + if p == null then 0 else 1
      {
        p := MoveSleeper(p, wait, woken);
      }
      KeepNone(waiting.items, woken);
    }

    /** The ready list as it will be once `p` and the sleepers still listed have moved over. */
    ghost function Passed(p: Process?, woken: set<Process>): seq<Process>
      reads ready, waiting
    {
      ready.items + ((if p == null then [] else [p]) + Keep(waiting.items, woken))
    }

    /** wake_up holds the sleeper `p`, which is on no list, or has found no further one. */
    ghost predicate Moving(p: Process?, wait: int, woken: set<Process>)
      reads this, ready, waiting, killed, table
    {
      && Valid()
      && (forall x | x in waiting.items :: x in woken <==> x.wait == wait)
      && (p == null ==> forall x | x in waiting.items :: x !in woken)
      && (p != null ==> p in table && p in woken && p !in ready.items && p !in waiting.items && p !in killed.items)
    }

    /** One round of the loop of wake_up. */
    method MoveSleeper(p: Process, wait: int, ghost woken: set<Process>) returns (q: Process?)
      requires Moving(p, wait, woken)
      modifies p, ready, waiting, ready.items`next, waiting.items`next
      ensures Moving(q, wait, woken) && Passed(q, woken) == old(Passed(p, woken))
      ensures p.state == Ready && p.wait == old(p.wait) && p.pid == old(p.pid)
      ensures Drop(waiting.items, woken) == Drop(old(waiting.items), woken)
      ensures q == null ==> waiting.items == old(waiting.items)
      ensures q != null ==>
                && |waiting.items| == |old(waiting.items)| - 1
                && (forall x :: x in waiting.items <==> x in old(waiting.items) && x != q)
                && q in old(waiting.items)
    {
      MakeReady(p);
      ghost var r1 := ready.items;
      q := TakeSleeper(wait, woken);
      ghost var kept := (if q == null then [] else [q]) + Keep(waiting.items, woken);
      assert kept == Keep(old(waiting.items), woken) by {
        if q == null {
          KeepNone(waiting.items, woken);
        }
      }
      assert r1 + kept == old(ready.items) + ([p] + kept);
    }

    method MakeReady(p: Process)
      requires Valid() && p in table && p !in ready.items && p !in waiting.items && p !in killed.items
      modifies p, ready, ready.items`next
      ensures Valid() && ready.items == old(ready.items) + [p]
      ensures p.state == Ready && p.wait == old(p.wait) && p.pid == old(p.pid)
    {
      p.state := Ready;
      Untouched(ready);
      ready.Append(p);
      Untouched(waiting);
      Untouched(killed);
    }

    /** remove_list on the wait list, with its effect on the two filters. */
    method TakeSleeper(wait: int, ghost woken: set<Process>) returns (p: Process?)
      requires Valid() && forall x | x in waiting.items :: x in woken <==> x.wait == wait
      modifies waiting, waiting.items`next
      ensures Valid() && Drop(waiting.items, woken) == Drop(old(waiting.items), woken)
      ensures p == null ==> waiting.items == old(waiting.items) && forall x | x in waiting.items :: x !in woken
      ensures p != null ==>
                && p in woken && p in old(waiting.items) && |waiting.items| == |old(waiting.items)| - 1
                && (forall x :: x in waiting.items <==> x in old(waiting.items) && x != p)
                && [p] + Keep(waiting.items, woken) == Keep(old(waiting.items), woken)
    {
      ghost var k := waiting.First(wait);
      ghost var w0 := waiting.items;
      if k < |w0| {
        KeepFirst(w0, woken, k);
        forall x ensures x in Without(w0, k) <==> x in w0 && x != w0[k] {
          WithoutMember(w0, k, x);
        }
      } else {
        forall x | x in w0 ensures x !in woken {
          var i: nat :| i < |w0| && w0[i] == x;
        }
      }
      p := waiting.Remove(wait);
      Untouched(ready);
      Untouched(killed);
    }

    /** schedule(): the head of the ready list, or the idle process, becomes current and running. */
    method Schedule() returns (prev: Process)
      requires Valid()
      modifies this`current, ready, table`state
      ensures Valid() && prev == old(current)
      ensures current == if old(ready.items) == [] then idle else old(ready.items)[0]
      ensures ready.items == if old(ready.items) == [] then [] else old(ready.items)[1..]
      ensures current.state == Running && forall p | p in table && p != current :: p.state == old(p.state)
    {
      prev := current;
      var next: Process;
      if ready.next == null {
        next := idle;
      } else {
        var head := ready.RemoveHead();
        next := head;
        assert next in old(ready.items);
      }
      label picked:
      next.state := Running;
      current := next;
      Untouched@picked(ready);
      Untouched(waiting);
      Untouched(killed);
    }

    /** The locked part of yield(). */
    method Yield()
      requires Valid() && current !in ready.items && current !in waiting.items && current !in killed.items
      modifies this`current, ready, table
      ensures Valid()
      ensures old(ready.items) == [] ==>
                current == old(current) && ready.items == [] && current.state == old(current.state)
      ensures old(ready.items) != [] ==>
                && current == old(ready.items)[0] && current.state == Running && old(current).state == Ready
                && ready.items == old(ready.items)[1..] + (if old(current.pid) >= FIRST_PID then [old(current)] else [])
      ensures forall p | p in table && p != old(current) && p != current :: p.state == old(p.state)
      ensures forall p | p in table :: p.wait == old(p.wait) && p.pid == old(p.pid)
    {
      if ready.next == null {
        return;
      }
      assert ready.items[0] in ready.items;
      current.state := Ready;
      Untouched(ready);
      Untouched(waiting);
      Untouched(killed);
      if current.pid >= FIRST_PID {
        label filed:
        ready.Append(current);
        Untouched@filed(waiting);
        Untouched@filed(killed);
      }
      var _ := Schedule();
    }

    /** The locked part of sleep(). */
    method Sleep(wait: int)
      requires Valid() && current != idle
      requires current !in ready.items && current !in waiting.items && current !in killed.items
      modifies this`current, ready, waiting, table
      ensures Valid()
      ensures waiting.items == old(waiting.items) + [old(current)]
      ensures old(current).state == PState.Sleep && old(current).wait == wait
      ensures current == (if old(ready.items) == [] then idle else old(ready.items)[0]) && current.state == Running
      ensures ready.items == if old(ready.items) == [] then [] else old(ready.items)[1..]
      ensures forall p | p in table && p != old(current) ::
                p.wait == old(p.wait) && (p != current ==> p.state == old(p.state))
      ensures forall p | p in table :: p.pid == old(p.pid)
    {
      current.state := PState.Sleep;
      current.wait := wait;
      Untouched(ready);
      Untouched(waiting);
      Untouched(killed);
      label filed:
      waiting.Append(current);
      Untouched@filed(ready);
      Untouched@filed(killed);
      assert ready.items != [] ==> ready.items[0] in ready.items;
      var _ := Schedule();
    }

    /** The first locked part of exit(), after its stores to state and wait. */
    method ListKilled()
      requires Valid() && current !in ready.items && current !in waiting.items && current !in killed.items
      modifies killed, table`next
      ensures Valid() && killed.items == old(killed.items) + [current]
    {
      killed.Append(current);
      Untouched(ready);
      Untouched(waiting);
    }

    /** The locked part of wait(pid) as far as the kill list: the first process killed under `pid`,
        whose entry is zeroed. */
    method Reap(pid: int) returns (p: Process?)
      requires Valid() && current !in killed.items
      modifies killed, table
      ensures Valid()
      ensures var k := old(killed.First(pid));
              if k == |old(killed.items)| then p == null && killed.items == old(killed.items)
              else p == old(killed.items)[k] && killed.items == Without(old(killed.items), k)
                   && p.state == Unused && p.pid == 0 && p.wait == 0
      ensures forall x | x in table && x != p :: x.state == old(x.state) && x.pid == old(x.pid) && x.wait == old(x.wait)
    {
      ghost var k := killed.First(pid);
      if k < |killed.items| {
        forall x ensures x in Without(killed.items, k) <==> x in killed.items && x != killed.items[k] {
          WithoutMember(killed.items, k, x);
        }
      }
      p := killed.Remove(pid);
      Untouched(ready);
      Untouched(waiting);
      if p != null {
        label found:
        p.state, p.pid, p.wait, p.next := Unused, 0, 0, null;
        Untouched@found(ready);
        Untouched@found(waiting);
        Untouched@found(killed);
      }
    }
  }

  // ------------------------------------------------------------------ all cores

  /** Each core has its own lists and its own row of the process table. */
  ghost predicate Separate(pcs: seq<ProcessControl>)
    reads pcs
  {
    forall i, j | 0 <= i < j < |pcs| ::
      && pcs[i] != pcs[j]
      && {pcs[i].ready, pcs[i].waiting, pcs[i].killed} !! {pcs[j].ready, pcs[j].waiting, pcs[j].killed}
      && pcs[i].table !! pcs[j].table
  }

  /** wake_up(wait): on every core the wait list loses exactly the sleepers of that channel and the
      ready list gains them at its end, in their original order. */
  method WakeUp(pcs: seq<ProcessControl>, wait: int)
    requires Separate(pcs) && forall pc | pc in pcs :: pc.Valid()
    modifies set pc | pc in pcs :: pc.ready, set pc | pc in pcs :: pc.waiting
    modifies set pc, p | pc in pcs && p in pc.table :: p
    ensures forall pc | pc in pcs :: pc.Valid() && pc.View() == Woken(old(pc.View()), wait)
  {
    for i := 0 to |pcs|
      invariant forall j | 0 <= j < |pcs| :: pcs[j].Valid()
      invariant forall j | 0 <= j < i :: pcs[j].View() == Woken(old(pcs[j].View()), wait)
      invariant forall j | i <= j < |pcs| :: pcs[j].View() == old(pcs[j].View())
    {
      assert pcs[i] in pcs;
      WakeAt(pcs, i, wait);
    }
  }

  method WakeAt(pcs: seq<ProcessControl>, i: nat, wait: int)
    requires Separate(pcs) && i < |pcs| && forall j | 0 <= j < |pcs| :: pcs[j].Valid()
    modifies pcs[i].ready, pcs[i].waiting, pcs[i].table
    ensures forall j | 0 <= j < |pcs| :: pcs[j].Valid()
    ensures forall j | 0 <= j < |pcs| ::
              pcs[j].View() == if j == i then Woken(old(pcs[j].View()), wait) else old(pcs[j].View())
  {
    pcs[i].Wake(wait);
    forall j | 0 <= j < |pcs| && j != i ensures pcs[j].Valid() && pcs[j].View() == old(pcs[j].View()) {
      assert {pcs[i].ready, pcs[i].waiting, pcs[i].killed} !! {pcs[j].ready, pcs[j].waiting, pcs[j].killed};
      assert pcs[i].table !! pcs[j].table;
    }
  }

  // ------------------------------------------- agreement with the transition system

  function Slots(xs: seq<Process>): seq<Slot> {
    if xs == [] then [] else [xs[0].slot] + Slots(xs[1..])
  }

  lemma {:induction false} SlotsAppend(xs: seq<Process>, ys: seq<Process>)
    ensures Slots(xs + ys) == Slots(xs) + Slots(ys)
  {
    if xs == [] {
      assert xs + ys == ys;
    } else {
      assert (xs + ys)[1..] == xs[1..] + ys;
      SlotsAppend(xs[1..], ys);
    }
  }

  lemma {:induction false} SlotsFilter(xs: seq<Process>, woken: set<Process>, slots: set<Slot>)
    requires forall p | p in xs :: p in woken <==> p.slot in slots
    ensures Slots(Keep(xs, woken)) == Keep(Slots(xs), slots)
    ensures Slots(Drop(xs, woken)) == Drop(Slots(xs), slots)
  {
    if xs != [] {
      SlotsFilter(xs[1..], woken, slots);
      SlotsAppend([xs[0]], Keep(xs[1..], woken));
      SlotsAppend([xs[0]], Drop(xs[1..], woken));
      assert xs[0] in xs;
      assert forall p | p in xs[1..] :: p in xs;
    }
  }

  /** The relinking wake_up and the wake_up of the transition system move the same slots. */
  lemma WakeAgrees(v: CoreView, k: Core, ps: Table, wait: int)
    requires k.ready == Slots(v.ready) && k.waiting == Slots(v.waiting)
    requires forall p | p in v.waiting :: p in v.entries && p.slot in ps && ps[p.slot].wait == v.entries[p].wait
    ensures var k' := WakeLists(k, Scheduler.Sleepers(ps, wait));
            k'.ready == Slots(Woken(v, wait).ready) && k'.waiting == Slots(Woken(v, wait).waiting)
  {
    var woken := Asleep(v, wait);
    SlotsFilter(v.waiting, woken, Scheduler.Sleepers(ps, wait));
    SlotsAppend(v.ready, Keep(v.waiting, woken));
  }
}
