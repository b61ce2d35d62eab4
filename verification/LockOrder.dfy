/**
  The order of the five spin locks.  Each core runs kernel code as a sequence of lock operations; a
  switch between processes changes which process runs that code, not the order of the core's own lock
  operations, because the resumed context releases process_lock where the suspended one would have.
  The lock words are plain: an unlock clears the word whoever set it, and remove_list_head unlocks
  list_lock twice when it empties a list.
 */
module LockOrder {
  import Scheduler
  import SchedulerCalls

  datatype Lock = ProcessLock | PidLock | AllocatorLock | PrintLock | ListLock

  /** Locks are taken in this order; those of rank 2 are never held together. */
  function Rank(l: Lock): (r: nat)
    ensures r <= 2
  {
    match l
    case ProcessLock => 0
    case PidLock => 1
    case _ => 2
  }

  datatype Instr = Take(l: Lock) | Drop(l: Lock)

  // ------------------------------------------------------- the lock code of the kernel

  function Section(l: Lock): seq<Instr> { [Take(l), Drop(l)] }

  function Repeat(code: seq<Instr>, n: nat): seq<Instr> {
    if n == 0 then [] else code + Repeat(code, n - 1)
  }

  function Under(l: Lock, code: seq<Instr>): seq<Instr> { [Take(l)] + code + [Drop(l)] }

  function AppendTail(): seq<Instr> { Section(ListLock) }

  function RemoveHead(last: bool): seq<Instr> {
    if last then [Take(ListLock), Drop(ListLock), Drop(ListLock)] else Section(ListLock)
  }

  /** schedule with an empty ready list, or one with one or more processes. */
  datatype Ready = NoneReady | OneReady | MoreReady

  function Pick(ready: Ready): seq<Instr> {
    match ready
    case NoneReady => []
    case OneReady => RemoveHead(true)
    case MoreReady => RemoveHead(false)
  }

  function Printk(): seq<Instr> { Section(PrintLock) }

  function AllocNewProcess(): seq<Instr> {
    Under(PidLock, Repeat(Section(AllocatorLock), 2) + Printk())
  }

  datatype Call =
    | Yield(user: bool, ready: Ready)
    | Sleep(ready: Ready)
    | WakeUp(n: nat)
    | ExitCall(n: nat, ready: Ready)
    | WaitFound(frees: nat)
    | WaitNone(ready: Ready)
    | ForkCall(kallocs: nat)
    | ListProcesses
    | Print
    | Memory

  /** What a core does with the locks in one call, for every outcome of its loops and branches. */
  function Code(call: Call): seq<Instr> {
    match call
    case Yield(user, ready) =>
      Under(ProcessLock, if ready.NoneReady? then [] else (if user then AppendTail() else []) + Pick(ready))
    case Sleep(ready) => Under(ProcessLock, AppendTail() + Pick(ready))
    case WakeUp(n) => Under(ProcessLock, Repeat(AppendTail(), n))
    case ExitCall(n, ready) =>
      Under(ProcessLock, AppendTail()) + (Under(ProcessLock, Repeat(AppendTail(), n)) + Under(ProcessLock, Pick(ready)))
    case WaitFound(frees) => Under(ProcessLock, Repeat(Section(AllocatorLock), frees))
    case WaitNone(ready) => Section(ProcessLock) + Under(ProcessLock, AppendTail() + Pick(ready))
    case ForkCall(kallocs) =>
      Printk() + Under(ProcessLock,
        AllocNewProcess() + (Printk() + (Repeat(Section(AllocatorLock), kallocs) + (AppendTail() + Printk()))))
    case ListProcesses => Section(ProcessLock)
    case Print => Printk()
    case Memory => Section(AllocatorLock)
  }

  // ---------------------------------------------------------------- the discipline

  datatype Held = Bad | Locks(locks: set<Lock>)

  /** Locks are taken in order, and list_lock only inside process_lock. */
  predicate MayTake(h: set<Lock>, l: Lock) {
    (forall k | k in h :: Rank(k) < Rank(l)) && (l == ListLock ==> ProcessLock in h)
  }

  /** A lock is dropped by its holder; list_lock may be dropped once more, inside process_lock. */
  predicate MayDrop(h: set<Lock>, l: Lock) {
    (l in h || (l == ListLock && ProcessLock in h)) && (l == ProcessLock ==> ListLock !in h)
  }

  /** The locks held after running `code`, or Bad when it breaks one of these rules. */
  function After(code: seq<Instr>, h: set<Lock>): Held {
    if code == [] then Locks(h)
    else
      match code[0]
      case Take(l) => if MayTake(h, l) then After(code[1..], h + {l}) else Bad
      case Drop(l) => if MayDrop(h, l) then After(code[1..], h - {l}) else Bad
  }

  lemma {:induction false} AfterConcat(a: seq<Instr>, b: seq<Instr>, h: set<Lock>)
    ensures After(a + b, h) == match After(a, h) case Bad => Bad case Locks(k) => After(b, k)
    decreases |a|
  {
    if a == [] {
      assert a + b == b;
    } else {
      assert (a + b)[0] == a[0] && (a + b)[1..] == a[1..] + b;
      match a[0]
      case Take(l) => AfterConcat(a[1..], b, h + {l});
      case Drop(l) => AfterConcat(a[1..], b, h - {l});
    }
  }

  lemma TakeFirst(l: Lock, code: seq<Instr>, h: set<Lock>)
    requires MayTake(h, l)
    ensures After([Take(l)] + code, h) == After(code, h + {l})
  {
    assert ([Take(l)] + code)[1..] == code;
  }

  lemma DropOne(l: Lock, h: set<Lock>)
    requires MayDrop(h, l)
    ensures After([Drop(l)], h) == Locks(h - {l})
  {
    assert [Drop(l)][1..] == [];
  }

  /** Balanced code keeps the locks that are held when it starts. */
  ghost predicate Balanced(code: seq<Instr>, h: set<Lock>) {
    After(code, h) == Locks(h)
  }

  lemma BalancedConcat(a: seq<Instr>, b: seq<Instr>, h: set<Lock>)
    requires Balanced(a, h) && Balanced(b, h)
    ensures Balanced(a + b, h)
  {
    AfterConcat(a, b, h);
  }

  lemma {:induction false} BalancedRepeat(code: seq<Instr>, n: nat, h: set<Lock>)
    requires Balanced(code, h)
    ensures Balanced(Repeat(code, n), h)
    decreases n
  {
    if n > 0 {
      BalancedRepeat(code, n - 1, h);
      BalancedConcat(code, Repeat(code, n - 1), h);
    }
  }

  lemma BalancedUnder(l: Lock, code: seq<Instr>, h: set<Lock>)
    requires MayTake(h, l) && l !in h && ListLock !in h && Balanced(code, h + {l})
    ensures Balanced(Under(l, code), h)
  {
    assert Under(l, code) == [Take(l)] + (code + [Drop(l)]);
    TakeFirst(l, code + [Drop(l)], h);
    AfterConcat(code, [Drop(l)], h + {l});
    DropOne(l, h + {l});
    assert h + {l} - {l} == h;
  }

  lemma BalancedSection(l: Lock, h: set<Lock>)
    requires MayTake(h, l) && l !in h && ListLock !in h
    ensures Balanced(Section(l), h)
  {
    assert Section(l) == Under(l, []);
    BalancedUnder(l, [], h);
  }

  /** The second unlock of remove_list_head does no harm to the order. */
  lemma BalancedRemoveHead(last: bool, h: set<Lock>)
    requires MayTake(h, ListLock) && ListLock !in h
    ensures Balanced(RemoveHead(last), h)
  {
    BalancedSection(ListLock, h);
    if last {
      assert RemoveHead(true) == Section(ListLock) + [Drop(ListLock)];
      AfterConcat(Section(ListLock), [Drop(ListLock)], h);
      DropOne(ListLock, h);
      assert h - {ListLock} == h;
    }
  }

  lemma BalancedPick(ready: Ready, h: set<Lock>)
    requires MayTake(h, ListLock) && ListLock !in h
    ensures Balanced(Pick(ready), h)
  {
    BalancedRemoveHead(true, h);
    BalancedRemoveHead(false, h);
  }

  /** Every call takes locks in order, none twice, and ends with none. */
  lemma CodeBalanced(call: Call)
    ensures Balanced(Code(call), {})
  {
    var p := {} + {ProcessLock};
    BalancedSection(ListLock, p);
    BalancedSection(AllocatorLock, p);
    BalancedSection(PrintLock, p);
    match call
    case Yield(user, ready) =>
      BalancedPick(ready, p);
      BalancedConcat(if user then AppendTail() else [], Pick(ready), p);
      var code := if ready.NoneReady? then [] else (if user then AppendTail() else []) + Pick(ready);
      BalancedUnder(ProcessLock, code, {});
    case Sleep(ready) =>
      BalancedPick(ready, p);
      BalancedConcat(AppendTail(), Pick(ready), p);
      BalancedUnder(ProcessLock, AppendTail() + Pick(ready), {});
    case WakeUp(n) =>
      WakeUpBalanced(n);
    case ExitCall(n, ready) =>
      BalancedPick(ready, p);
      WakeUpBalanced(n);
      BalancedUnder(ProcessLock, AppendTail(), {});
      BalancedUnder(ProcessLock, Pick(ready), {});
      BalancedConcat(Under(ProcessLock, Repeat(AppendTail(), n)), Under(ProcessLock, Pick(ready)), {});
      BalancedConcat(Under(ProcessLock, AppendTail()),
                     Under(ProcessLock, Repeat(AppendTail(), n)) + Under(ProcessLock, Pick(ready)), {});
    case WaitFound(frees) =>
      BalancedRepeat(Section(AllocatorLock), frees, p);
      BalancedUnder(ProcessLock, Repeat(Section(AllocatorLock), frees), {});
    case WaitNone(ready) =>
      BalancedPick(ready, p);
      BalancedConcat(AppendTail(), Pick(ready), p);
      BalancedUnder(ProcessLock, AppendTail() + Pick(ready), {});
      BalancedSection(ProcessLock, {});
      BalancedConcat(Section(ProcessLock), Under(ProcessLock, AppendTail() + Pick(ready)), {});
    case ForkCall(kallocs) => ForkBalanced(kallocs);
    case ListProcesses => BalancedSection(ProcessLock, {});
    case Print => BalancedSection(PrintLock, {});
    case Memory => BalancedSection(AllocatorLock, {});
  }

  lemma WakeUpBalanced(n: nat)
    ensures Balanced(Under(ProcessLock, Repeat(AppendTail(), n)), {})
  {
    var p := {} + {ProcessLock};
    BalancedSection(ListLock, p);
    BalancedRepeat(AppendTail(), n, p);
    BalancedUnder(ProcessLock, Repeat(AppendTail(), n), {});
  }

  lemma AllocBalanced(h: set<Lock>)
    requires h == {ProcessLock}
    ensures Balanced(AllocNewProcess(), h)
  {
    var q := h + {PidLock};
    BalancedSection(AllocatorLock, q);
    BalancedRepeat(Section(AllocatorLock), 2, q);
    BalancedSection(PrintLock, q);
    BalancedConcat(Repeat(Section(AllocatorLock), 2), Printk(), q);
    BalancedUnder(PidLock, Repeat(Section(AllocatorLock), 2) + Printk(), h);
  }

  lemma ForkBalanced(kallocs: nat)
    ensures Balanced(Code(ForkCall(kallocs)), {})
  {
    var p := {} + {ProcessLock};
    BalancedSection(PrintLock, p);
    BalancedSection(PrintLock, {});
    BalancedSection(ListLock, p);
    BalancedSection(AllocatorLock, p);
    BalancedRepeat(Section(AllocatorLock), kallocs, p);
    AllocBalanced(p);
    var c := AppendTail() + Printk();
    BalancedConcat(AppendTail(), Printk(), p);
    var d := Repeat(Section(AllocatorLock), kallocs) + c;
    BalancedConcat(Repeat(Section(AllocatorLock), kallocs), c, p);
    BalancedConcat(Printk(), d, p);
    BalancedConcat(AllocNewProcess(), Printk() + d, p);
    BalancedUnder(ProcessLock, AllocNewProcess() + (Printk() + d), {});
    BalancedConcat(Printk(), Under(ProcessLock, AllocNewProcess() + (Printk() + d)), {});
  }

  // ------------------------------------------------ which locks a call takes, and how often

  /** How often the code takes a lock. */
  function Takes(code: seq<Instr>, l: Lock): nat {
    if code == [] then 0 else (if code[0] == Take(l) then 1 else 0) + Takes(code[1..], l)
  }

  lemma {:induction false} TakesConcat(a: seq<Instr>, b: seq<Instr>, l: Lock)
    ensures Takes(a + b, l) == Takes(a, l) + Takes(b, l)
    decreases |a|
  {
    if a == [] {
      assert a + b == b;
    } else {
      assert (a + b)[0] == a[0] && (a + b)[1..] == a[1..] + b;
      TakesConcat(a[1..], b, l);
    }
  }

  lemma TakesSection(k: Lock, l: Lock)
    ensures Takes(Section(k), l) == if k == l then 1 else 0
  {
    assert Section(k)[1..] == [Drop(k)] && [Drop(k)][1..] == [];
  }

  lemma {:induction false} TakesRepeat(k: Lock, n: nat, l: Lock)
    ensures Takes(Repeat(Section(k), n), l) == if k == l then n else 0
    decreases n
  {
    if n > 0 {
      TakesRepeat(k, n - 1, l);
      TakesConcat(Section(k), Repeat(Section(k), n - 1), l);
      TakesSection(k, l);
    }
  }

  lemma TakesUnder(k: Lock, code: seq<Instr>, l: Lock)
    ensures Takes(Under(k, code), l) == (if k == l then 1 else 0) + Takes(code, l)
  {
    assert Under(k, code) == [Take(k)] + (code + [Drop(k)]);
    assert ([Take(k)] + (code + [Drop(k)]))[1..] == code + [Drop(k)];
    TakesConcat(code, [Drop(k)], l);
    assert [Drop(k)][1..] == [];
  }

  /** remove_list_head takes list_lock once, and schedule does so when a process is ready. */
  lemma TakesPick(ready: Ready, l: Lock)
    ensures Takes(Pick(ready), l) == if l == ListLock && !ready.NoneReady? then 1 else 0
  {
    TakesSection(ListLock, l);
    assert RemoveHead(true) == Section(ListLock) + [Drop(ListLock)];
    TakesConcat(Section(ListLock), [Drop(ListLock)], l);
    assert [Drop(ListLock)][1..] == [];
  }

  /** How often each call takes each lock. */
  function Sections(call: Call, l: Lock): nat {
    match l
    case ProcessLock =>
      (match call case ExitCall(_, _) => 3 case WaitNone(_) => 2 case Print => 0 case Memory => 0 case _ => 1)
    case PidLock => (match call case ForkCall(_) => 1 case _ => 0)
    case AllocatorLock =>
      (match call case ForkCall(kallocs) => 2 + kallocs case WaitFound(frees) => frees case Memory => 1 case _ => 0)
    case PrintLock => (match call case ForkCall(_) => 4 case Print => 1 case _ => 0)
    case ListLock =>
      match call
      case Yield(user, ready) => if ready.NoneReady? then 0 else if user then 2 else 1
      case Sleep(ready) => if ready.NoneReady? then 1 else 2
      case WakeUp(n) => n
      case ExitCall(n, ready) => if ready.NoneReady? then n + 1 else n + 2
      case WaitNone(ready) => if ready.NoneReady? then 1 else 2
      case ForkCall(_) => 1
      case _ => 0
  }

  lemma AllocTakes(l: Lock)
    ensures Takes(AllocNewProcess(), l) ==
            match l case PidLock => 1 case AllocatorLock => 2 case PrintLock => 1 case _ => 0
  {
    var kalloc := Repeat(Section(AllocatorLock), 2);
    TakesRepeat(AllocatorLock, 2, l);
    TakesSection(PrintLock, l);
    TakesConcat(kalloc, Printk(), l);
    TakesUnder(PidLock, kalloc + Printk(), l);
  }

  lemma ForkTakes(kallocs: nat, l: Lock)
    ensures Takes(Code(ForkCall(kallocs)), l) == Sections(ForkCall(kallocs), l)
  {
    TakesRepeat(AllocatorLock, kallocs, l);
    TakesSection(PrintLock, l);
    TakesSection(ListLock, l);
    AllocTakes(l);
    var c := AppendTail() + Printk();
    TakesConcat(AppendTail(), Printk(), l);
    var d := Repeat(Section(AllocatorLock), kallocs) + c;
    TakesConcat(Repeat(Section(AllocatorLock), kallocs), c, l);
    TakesConcat(Printk(), d, l);
    TakesConcat(AllocNewProcess(), Printk() + d, l);
    TakesUnder(ProcessLock, AllocNewProcess() + (Printk() + d), l);
    TakesConcat(Printk(), Under(ProcessLock, AllocNewProcess() + (Printk() + d)), l);
  }

  lemma SleepTakes(ready: Ready, l: Lock)
    ensures Takes(Under(ProcessLock, AppendTail() + Pick(ready)), l) == Sections(Sleep(ready), l)
  {
    TakesSection(ListLock, l);
    TakesPick(ready, l);
    TakesConcat(AppendTail(), Pick(ready), l);
    TakesUnder(ProcessLock, AppendTail() + Pick(ready), l);
  }

  lemma ExitTakes(n: nat, ready: Ready, l: Lock)
    ensures Takes(Code(ExitCall(n, ready)), l) == Sections(ExitCall(n, ready), l)
  {
    TakesSection(ListLock, l);
    TakesPick(ready, l);
    TakesRepeat(ListLock, n, l);
    TakesUnder(ProcessLock, AppendTail(), l);
    TakesUnder(ProcessLock, Repeat(AppendTail(), n), l);
    TakesUnder(ProcessLock, Pick(ready), l);
    TakesConcat(Under(ProcessLock, Repeat(AppendTail(), n)), Under(ProcessLock, Pick(ready)), l);
    TakesConcat(Under(ProcessLock, AppendTail()),
                Under(ProcessLock, Repeat(AppendTail(), n)) + Under(ProcessLock, Pick(ready)), l);
  }

  /** Every call takes every lock exactly as often as its list operations, allocations and messages say. */
  lemma CodeTakes(call: Call, l: Lock)
    ensures Takes(Code(call), l) == Sections(call, l)
  {
    TakesSection(ListLock, l);
    TakesSection(ProcessLock, l);
    TakesSection(PrintLock, l);
    TakesSection(AllocatorLock, l);
    match call
    case Yield(user, ready) =>
      TakesPick(ready, l);
      TakesConcat(if user then AppendTail() else [], Pick(ready), l);
      TakesUnder(ProcessLock, if ready.NoneReady? then [] else (if user then AppendTail() else []) + Pick(ready), l);
    case Sleep(ready) => SleepTakes(ready, l);
    case WakeUp(n) =>
      TakesRepeat(ListLock, n, l);
      TakesUnder(ProcessLock, Repeat(AppendTail(), n), l);
    case ExitCall(n, ready) => ExitTakes(n, ready, l);
    case WaitFound(frees) =>
      TakesRepeat(AllocatorLock, frees, l);
      TakesUnder(ProcessLock, Repeat(Section(AllocatorLock), frees), l);
    case WaitNone(ready) =>
      SleepTakes(ready, l);
      TakesConcat(Section(ProcessLock), Under(ProcessLock, AppendTail() + Pick(ready)), l);
    case ForkCall(kallocs) => ForkTakes(kallocs, l);
    case _ =>
  }

  /** The critical sections of the scheduler's transition system that a call stands for. */
  function Script(call: Call, op: Scheduler.Op): seq<Scheduler.Op> {
    match call
    case Yield(_, _) => [Scheduler.Yield]
    case Sleep(_) => [op]
    case WakeUp(_) => [op]
    case ExitCall(_, _) => [Scheduler.ExitList, Scheduler.WakeUp(-3, Scheduler.Exiting), Scheduler.ExitSchedule]
    case WaitFound(_) => [op]
    case WaitNone(_) => if op.Wait? then [op, Scheduler.SleepOn(-3, Scheduler.Reaping(op.pid))] else []
    case ForkCall(_) => [Scheduler.Fork]
    case ListProcesses => [Scheduler.ListProcesses]
    case _ => []
  }

  /** Each call takes process_lock once for each critical section it has there: a timer tick is a wake_up and
      a yield, and a wait some vain rounds and one that finds the child. */
  lemma CodeAsScheduled(call: Call, op: Scheduler.Op)
    requires call.WaitNone? ==> op.Wait?
    ensures Takes(Code(call), ProcessLock) == |Script(call, op)|
  {
    CodeTakes(call, ProcessLock);
  }

  lemma ScriptsAreCalls(n: nat, user: bool, ready: Ready, kallocs: nat, frees: nat, pid: int)
    ensures SchedulerCalls.Whole(Scheduler.Tick, Script(WakeUp(n), Scheduler.WakeUp(-1, Scheduler.Timer))
                                                 + Script(Yield(user, ready), Scheduler.Yield), [])
    ensures SchedulerCalls.Whole(Scheduler.Key, Script(WakeUp(n), Scheduler.WakeUp(-2, Scheduler.Uart)), [])
    ensures SchedulerCalls.Whole(Scheduler.SysSleep, Script(Sleep(ready), Scheduler.SleepOn(-1, Scheduler.Timed)), [])
    ensures SchedulerCalls.Whole(Scheduler.SysRead, Script(Sleep(ready), Scheduler.SleepOn(-2, Scheduler.Keyboard)), [])
    ensures SchedulerCalls.Begins(Scheduler.SysExit, Script(ExitCall(n, ready), Scheduler.ExitList))
    ensures SchedulerCalls.Whole(Scheduler.SysFork, Script(ForkCall(kallocs), Scheduler.Fork), [])
    ensures SchedulerCalls.Whole(Scheduler.SysPs, Script(ListProcesses, Scheduler.ListProcesses), [])
    ensures SchedulerCalls.Whole(Scheduler.SysWait(pid), Script(WaitFound(frees), Scheduler.Wait(pid)), [pid])
    ensures SchedulerCalls.Whole(Scheduler.SysWait(pid), Script(WaitNone(ready), Scheduler.Wait(pid))
                                                         + Script(WaitFound(frees), Scheduler.Wait(pid)), [pid])
  {
  }

  // ---------------------------------------------------------------------- the cores

  /** The code a core has still to run and the locks it has taken and not dropped. */
  datatype Core = Core(code: seq<Instr>, held: set<Lock>)

  /** `locked` are the locks whose word is 1. */
  datatype Sys = Sys(locked: set<Lock>, cores: seq<Core>)

  datatype Act = Start(core: nat, call: Call) | Run(core: nat)

  predicate Spins(s: Sys, c: nat)
    requires c < |s.cores|
  {
    var code := s.cores[c].code;
    code != [] && code[0].Take? && code[0].l in s.locked
  }

  predicate CanMove(s: Sys, c: nat)
    requires c < |s.cores|
  {
    s.cores[c].code != [] && !Spins(s, c)
  }

  predicate Enabled(s: Sys, a: Act) {
    && a.core < |s.cores|
    && (a.Start? ==> s.cores[a.core].code == [])
    && (a.Run? ==> CanMove(s, a.core))
  }

  function Do(s: Sys, a: Act): Sys
    requires Enabled(s, a)
  {
    var k := s.cores[a.core];
    match a
    case Start(c, call) => s.(cores := s.cores[c := k.(code := Code(call))])
    case Run(c) =>
      match k.code[0]
      case Take(l) => Sys(s.locked + {l}, s.cores[c := Core(k.code[1..], k.held + {l})])
      case Drop(l) => Sys(s.locked - {l}, s.cores[c := Core(k.code[1..], k.held - {l})])
  }

  ghost predicate Goes(s: Sys, a: Act, s': Sys) {
    Enabled(s, a) && s' == Do(s, a)
  }

  ghost predicate IsRun(rs: seq<Sys>, acts: seq<Act>) {
    && |rs| == |acts| + 1
    && rs[0].locked == {} && (forall c | 0 <= c < |rs[0].cores| :: rs[0].cores[c] == Core([], {}))
    && forall i | 0 <= i < |acts| :: Goes(rs[i], acts[i], rs[i + 1])
  }

  /** The rest of the code keeps the rules and ends without locks. */
  ghost predicate Ordered(k: Core) {
    After(k.code, k.held) == Locks({}) && (ListLock in k.held ==> ProcessLock in k.held)
  }

  ghost predicate HasHolder(s: Sys, l: Lock) {
    exists c | 0 <= c < |s.cores| :: l in s.cores[c].held
  }

  /** A core that holds a lock is the only one, and the word is set. */
  ghost predicate SoleHolder(s: Sys, l: Lock) {
    && (forall c | 0 <= c < |s.cores| && l in s.cores[c].held :: l in s.locked)
    && (forall c, d | 0 <= c < |s.cores| && 0 <= d < |s.cores| && l in s.cores[c].held && l in s.cores[d].held ::
          c == d)
  }

  ghost predicate Inv(s: Sys) {
    && (forall c | 0 <= c < |s.cores| :: Ordered(s.cores[c]))
    && (forall l | l in s.locked :: HasHolder(s, l))
    && (forall l :: SoleHolder(s, l))
  }

  lemma OrderedStep(k: Core)
    requires Ordered(k) && k.code != []
    ensures k.code[0].Take? ==> MayTake(k.held, k.code[0].l) && Ordered(Core(k.code[1..], k.held + {k.code[0].l}))
    ensures k.code[0].Drop? ==> MayDrop(k.held, k.code[0].l) && Ordered(Core(k.code[1..], k.held - {k.code[0].l}))
  {
  }

  lemma RunInv(s: Sys, c: nat)
    requires Inv(s) && c < |s.cores| && CanMove(s, c)
    ensures Inv(Do(s, Run(c)))
  {
    var s', k := Do(s, Run(c)), s.cores[c];
    var m := k.code[0].l;
    assert Ordered(k);
    OrderedStep(k);
    forall d | 0 <= d < |s'.cores| ensures Ordered(s'.cores[d]) {
      assert d != c ==> Ordered(s.cores[d]);
    }
    forall l | l in s'.locked ensures HasHolder(s', l) {
      if l == m {
        assert l in s'.cores[c].held;
      } else {
        var d :| 0 <= d < |s.cores| && l in s.cores[d].held;
        assert l in s'.cores[d].held;
      }
    }
    forall l ensures SoleHolder(s', l) {
      assert SoleHolder(s, l) && SoleHolder(s, ProcessLock);
      forall d | 0 <= d < |s.cores| && d != c && l == ListLock && m == ListLock && k.code[0].Drop?
        ensures l !in s.cores[d].held
      {
        assert Ordered(s.cores[d]);
      }
    }
  }

  lemma StartInv(s: Sys, c: nat, call: Call)
    requires Inv(s) && Enabled(s, Start(c, call))
    ensures Inv(Do(s, Start(c, call)))
  {
    var s' := Do(s, Start(c, call));
    assert Ordered(s.cores[c]);
    CodeBalanced(call);
    forall d | 0 <= d < |s'.cores| ensures Ordered(s'.cores[d]) {
      assert d != c ==> Ordered(s.cores[d]);
    }
    forall l | l in s'.locked ensures HasHolder(s', l) {
      var d :| 0 <= d < |s.cores| && l in s.cores[d].held;
      assert l in s'.cores[d].held;
    }
    forall l ensures SoleHolder(s', l) {
      assert SoleHolder(s, l);
    }
  }

  lemma {:induction false} ReachableInv(rs: seq<Sys>, acts: seq<Act>, i: nat)
    requires IsRun(rs, acts) && i < |rs|
    ensures Inv(rs[i])
    decreases i
  {
    if i > 0 {
      ReachableInv(rs, acts, i - 1);
      assert Goes(rs[i - 1], acts[i - 1], rs[i]);
      match acts[i - 1]
      case Start(c, call) => StartInv(rs[i - 1], c, call);
      case Run(c) => RunInv(rs[i - 1], c);
    }
  }

  /** Follow the holders: each spins for a lock of higher rank, so the chain ends at a core that moves. */
  lemma {:induction false} SomeHolderMoves(s: Sys, c: nat)
    requires Inv(s) && c < |s.cores| && Spins(s, c)
    ensures exists d | 0 <= d < |s.cores| :: CanMove(s, d)
    decreases 2 - Rank(s.cores[c].code[0].l)
  {
    var l := s.cores[c].code[0].l;
    assert HasHolder(s, l);
    var d :| 0 <= d < |s.cores| && l in s.cores[d].held;
    assert Ordered(s.cores[d]);
    if !CanMove(s, d) {
      OrderedStep(s.cores[d]);
      SomeHolderMoves(s, d);
    }
  }

  /** No deadlock: in every reachable state with a spinning core some core can move; locks are taken in
      order and none twice by one core; and every lock excludes, list_lock because of process_lock. */
  lemma NoDeadlock(rs: seq<Sys>, acts: seq<Act>, i: nat, c: nat)
    requires IsRun(rs, acts) && i < |rs| && c < |rs[i].cores| && rs[i].cores[c].code != []
    ensures exists d | 0 <= d < |rs[i].cores| :: CanMove(rs[i], d)
    ensures var k := rs[i].cores[c]; k.code[0].Take? ==> MayTake(k.held, k.code[0].l) && k.code[0].l !in k.held
    ensures forall l :: SoleHolder(rs[i], l)
  {
    ReachableInv(rs, acts, i);
    assert Ordered(rs[i].cores[c]);
    OrderedStep(rs[i].cores[c]);
    if Spins(rs[i], c) {
      SomeHolderMoves(rs[i], c);
    } else {
      assert CanMove(rs[i], c);
    }
  }
}
