/**
  spin_lock and spin_unlock as single memory accesses: an exclusive load, the test of its result, an
  exclusive store that succeeds only while the core's monitor is set, and the plain store of the
  release.  Any store to the lock word clears every monitor, and an exclusive store may also fail
  for no reason (Arm DDI 0487, chapter B2, "Synchronization and semaphores").
 */
module SpinLock {
  /** `Loaded` is between the exclusive load and its test, `Storing` before the exclusive store. */
  datatype Point = Outside | Spinning | Loaded(w: nat) | Storing | Inside

  datatype Core = Core(at: Point, monitor: bool)

  datatype Word = Word(value: nat, cores: seq<Core>)

  datatype Step = Call | Load | Test | StoreOk | StoreFail | Unlock

  function Cleared(cores: seq<Core>): (r: seq<Core>)
    ensures |r| == |cores| && forall i | 0 <= i < |r| :: r[i] == cores[i].(monitor := false)
  {
    seq(|cores|, i requires 0 <= i < |cores| => cores[i].(monitor := false))
  }

  predicate Enabled(s: Word, c: nat, step: Step) {
    c < |s.cores| &&
    match step
    case Call => s.cores[c].at.Outside?
    case Load => s.cores[c].at.Spinning?
    case Test => s.cores[c].at.Loaded?
    case StoreOk => s.cores[c].at.Storing? && s.cores[c].monitor
    case StoreFail => s.cores[c].at.Storing?
    case Unlock => s.cores[c].at.Inside?
  }

  function Do(s: Word, c: nat, step: Step): Word
    requires Enabled(s, c, step)
  {
    match step
    case Call => s.(cores := s.cores[c := s.cores[c].(at := Spinning)])
    case Load => s.(cores := s.cores[c := Core(Loaded(s.value), true)])
    case Test => s.(cores := s.cores[c := s.cores[c].(at := if s.cores[c].at.w == 0 then Storing else Spinning)])
    case StoreOk => Word(1, Cleared(s.cores)[c := Core(Inside, false)])
    case StoreFail => s.(cores := s.cores[c := Core(Spinning, false)])
    case Unlock => Word(0, Cleared(s.cores)[c := Core(Outside, false)])
  }

  datatype Act = Act(core: nat, step: Step)

  /** A run from the unlocked word with every core outside. */
  ghost predicate IsRun(rs: seq<Word>, acts: seq<Act>) {
    && |rs| == |acts| + 1
    && rs[0].value == 0 && (forall c | 0 <= c < |rs[0].cores| :: rs[0].cores[c] == Core(Outside, false))
    && forall i | 0 <= i < |acts| :: Goes(rs[i], acts[i], rs[i + 1])
  }

  ghost predicate Goes(s: Word, a: Act, s': Word) {
    Enabled(s, a.core, a.step) && s' == Do(s, a.core, a.step)
  }

  // ---------------------------------------------------------------- the invariant

  /** A set monitor after reading 0 means that the word is still 0. */
  ghost predicate Fresh(s: Word, c: nat)
    requires c < |s.cores|
  {
    s.cores[c].monitor && (s.cores[c].at == Storing || s.cores[c].at == Loaded(0)) ==> s.value == 0
  }

  ghost predicate Exclusion(s: Word) {
    && s.value <= 1
    && (forall c | 0 <= c < |s.cores| && s.cores[c].at.Inside? :: s.value == 1)
    && (s.value == 1 ==> exists c | 0 <= c < |s.cores| :: s.cores[c].at.Inside?)
    && (forall c, d | 0 <= c < |s.cores| && 0 <= d < |s.cores| && s.cores[c].at.Inside? && s.cores[d].at.Inside? ::
          c == d)
  }

  ghost predicate Inv(s: Word) {
    Exclusion(s) && forall c | 0 <= c < |s.cores| :: Fresh(s, c)
  }

  /** Leaving a point other than Inside for another such point changes nothing for exclusion. */
  lemma Moves(s: Word, c: nat, k: Core)
    requires Inv(s) && c < |s.cores| && !s.cores[c].at.Inside? && !k.at.Inside?
    ensures Exclusion(s.(cores := s.cores[c := k]))
  {
    var s' := s.(cores := s.cores[c := k]);
    if s.value == 1 {
      var d :| 0 <= d < |s.cores| && s.cores[d].at.Inside?;
      assert s'.cores[d].at.Inside?;
    }
  }

  lemma StepInv(s: Word, c: nat, step: Step)
    requires Inv(s) && Enabled(s, c, step)
    ensures Inv(Do(s, c, step))
    ensures step == StoreOk ==> s.value == 0 && forall d | 0 <= d < |s.cores| :: !s.cores[d].at.Inside?
  {
    var s' := Do(s, c, step);
    assert Fresh(s, c);
    if step == StoreOk {
      assert s'.cores[c].at.Inside?;
    } else if step != Unlock {
      Moves(s, c, s'.cores[c]);
    }
    forall d | 0 <= d < |s'.cores| ensures Fresh(s', d) {
      assert Fresh(s, d);
    }
  }

  /** In every run at most one core is between spin_lock and spin_unlock, the word is 1 exactly while
      one is, and a successful exclusive store finds the word 0: spin_lock is an atomic test and set. */
  lemma {:induction false} RunExclusion(rs: seq<Word>, acts: seq<Act>, i: nat)
    requires IsRun(rs, acts) && i < |rs|
    ensures Inv(rs[i])
    ensures i < |acts| && acts[i].step == StoreOk ==> rs[i].value == 0
    decreases i
  {
    if i > 0 {
      RunExclusion(rs, acts, i - 1);
      assert Goes(rs[i - 1], acts[i - 1], rs[i]);
      StepInv(rs[i - 1], acts[i - 1].core, acts[i - 1].step);
    }
    if i < |acts| && acts[i].step == StoreOk {
      assert Goes(rs[i], acts[i], rs[i + 1]);
      assert Fresh(rs[i], acts[i].core);
    }
  }

  // ------------------------------------------------------------------- progress

  /** The state after these steps, if each is enabled. */
  function After(s: Word, steps: seq<Act>): (r: Word)
    requires Possible(s, steps)
    ensures |r.cores| == |s.cores|
    decreases |steps|
  {
    if steps == [] then s else After(Do(s, steps[0].core, steps[0].step), steps[1..])
  }

  predicate Possible(s: Word, steps: seq<Act>)
    decreases |steps|
  {
    steps == [] || (Enabled(s, steps[0].core, steps[0].step)
                    && Possible(Do(s, steps[0].core, steps[0].step), steps[1..]))
  }

  /** With the word 0 a spinning core gets inside by its own load, test and store; the word is then 1. */
  lemma EntersWhenFree(s: Word, c: nat)
    requires c < |s.cores| && s.cores[c].at == Spinning && s.value == 0
    ensures var steps := [Act(c, Load), Act(c, Test), Act(c, StoreOk)];
            Possible(s, steps) && After(s, steps).cores[c].at == Inside && After(s, steps).value == 1
  {
    var s1 := Do(s, c, Load);
    var s2 := Do(s1, c, Test);
    StepFirst(s2, c, StoreOk, []);
    StepFirst(s1, c, Test, [Act(c, StoreOk)]);
    StepFirst(s, c, Load, [Act(c, Test), Act(c, StoreOk)]);
    assert [Act(c, Load)] + [Act(c, Test), Act(c, StoreOk)] == [Act(c, Load), Act(c, Test), Act(c, StoreOk)];
    assert [Act(c, Test)] + [Act(c, StoreOk)] == [Act(c, Test), Act(c, StoreOk)];
    assert [Act(c, StoreOk)] + [] == [Act(c, StoreOk)];
  }

  lemma StepFirst(s: Word, c: nat, step: Step, rest: seq<Act>)
    requires Enabled(s, c, step) && Possible(Do(s, c, step), rest)
    ensures Possible(s, [Act(c, step)] + rest)
    ensures After(s, [Act(c, step)] + rest) == After(Do(s, c, step), rest)
  {
    assert ([Act(c, step)] + rest)[1..] == rest;
  }

  /** From every reachable state a spinning core can get inside, after at most the unlock of the core that
      is inside: no lock word stays set without a holder that can clear it. */
  lemma CanEnter(rs: seq<Word>, acts: seq<Act>, i: nat, c: nat)
    requires IsRun(rs, acts) && i < |rs| && c < |rs[i].cores| && rs[i].cores[c].at == Spinning
    ensures exists h :: EntersAfter(rs[i], c, h)
  {
    RunExclusion(rs, acts, i);
    var s := rs[i];
    if s.value == 0 {
      EntersWhenFree(s, c);
      assert [] + [Act(c, Load), Act(c, Test), Act(c, StoreOk)] == [Act(c, Load), Act(c, Test), Act(c, StoreOk)];
      assert EntersAfter(s, c, []);
    } else {
      var d: nat :| d < |s.cores| && s.cores[d].at.Inside?;
      var s' := Do(s, d, Unlock);
      EntersWhenFree(s', c);
      var own := [Act(c, Load), Act(c, Test), Act(c, StoreOk)];
      StepFirst(s, d, Unlock, own);
      assert EntersAfter(s, c, [Act(d, Unlock)]);
    }
  }

  /** After the steps `first`, none or an unlock, core `c` gets inside by three steps of its own. */
  ghost predicate EntersAfter(s: Word, c: nat, first: seq<Act>) {
    var steps := first + [Act(c, Load), Act(c, Test), Act(c, StoreOk)];
    && (first == [] || (|first| == 1 && first[0].step == Unlock))
    && Possible(s, steps) && c < |After(s, steps).cores| && After(s, steps).cores[c].at == Inside
  }
}
