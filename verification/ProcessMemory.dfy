/**
  The memory parts of process creation, fork, exec and wait, over the machine: each has the effect that
  the specification gives it and keeps the pages of distinct processes apart.
 */
module ProcessMemory {
  import opened Wrappers
  import opened Seqs
  import opened PageTables
  import opened PageTree
  import opened PageMapping
  import opened PageTeardown
  import opened KernelMemory
  import opened ProcessSpaces
  import Scheduler

  /** The spaces are those of the first `i` slots. */
  ghost predicate HasFirst(ps: Spaces, slots: seq<Scheduler.Slot>, i: nat) {
    i <= |slots| && forall s :: s in ps <==> s in slots[..i]
  }

  lemma NextIsNew(ps: Spaces, slots: seq<Scheduler.Slot>, i: nat)
    requires NoDup(slots) && i < |slots| && HasFirst(ps, slots, i)
    ensures slots[i] !in ps
  {
  }

  lemma FirstGrow(ps: Spaces, ps': Spaces, slots: seq<Scheduler.Slot>, i: nat)
    requires i < |slots| && HasFirst(ps, slots, i) && Joined(ps, ps', slots[i])
    ensures HasFirst(ps', slots, i + 1)
  {
    assert slots[..i + 1] == slots[..i] + [slots[i]];
  }

  /** The process of entry `j` has its program in its user page. */
  ghost predicate LoadedAt(m: Memory, ps: Spaces, slots: seq<Scheduler.Slot>, images: seq<Page>, j: nat) {
    j < |slots| && j < |images| && slots[j] in ps && Loaded(m, ps[slots[j]], images[j])
  }

  lemma NextLoaded(m: Memory, m': Memory, ps: Spaces, ps': Spaces, slots: seq<Scheduler.Slot>, images: seq<Page>,
                   i: nat)
    requires i < |slots| == |images| && slots[i] !in ps && Joined(ps, ps', slots[i]) && AllUntouched(m, m', ps)
    requires (forall j: nat | j < i :: LoadedAt(m, ps, slots, images, j)) && Loaded(m', ps'[slots[i]], images[i])
    ensures forall j: nat | j < i + 1 :: LoadedAt(m', ps', slots, images, j)
  {
    forall j: nat | j < i ensures LoadedAt(m', ps', slots, images, j) {
      assert LoadedAt(m, ps, slots, images, j);
      EarlierLoaded(m, m', ps, ps', slots[i], slots, images, j);
    }
    assert LoadedAt(m', ps', slots, images, i);
  }

  lemma EarlierLoaded(m: Memory, m': Memory, ps: Spaces, ps': Spaces, k: Scheduler.Slot, slots: seq<Scheduler.Slot>,
                      images: seq<Page>, j: nat)
    requires LoadedAt(m, ps, slots, images, j) && AllUntouched(m, m', ps) && k !in ps && Joined(ps, ps', k)
    ensures LoadedAt(m', ps', slots, images, j)
  {
    JoinedKeeps(ps, ps', k, slots[j]);
    assert Untouched(m, m', ps[slots[j]]);
    LoadedKept(m, m', ps[slots[j]], images[j]);
  }

  class Processes {
    const machine: Machine
    /** The processes whose stack and page map are set up. */
    var spaces: Spaces
    /** The number of processes made so far. */
    ghost var born: nat

    ghost predicate Valid()
      reads this, machine
    {
      StateOk(V())
    }

    ghost function V(): State
      reads this, machine
    {
      State(machine.heap, machine.size, machine.mem, machine.trace, spaces, born)
    }

    constructor (machine: Machine)
      requires machine.Valid()
      ensures Valid() && spaces == map[] && born == 0 && this.machine == machine
    {
      this.machine := machine;
      spaces := map[];
      born := 0;
    }

    /** Pages of a process are allocated, not free, and belong to no other process. */
    lemma OwnedPages(k: Scheduler.Slot, x: nat)
      requires Valid() && k in spaces && Owns(machine.mem, spaces[k], x)
      ensures KernelPage(x) && PageIsOwn(V(), k, x)
    {
      OwnedInState(V(), k, x);
      KeyIsPage(machine.heap, machine.size, machine.mem.Keys, |machine.trace|, x);
    }

    /** The memory part of alloc_new_process; false stands for a failed assertion. */
    method AllocNewProcess(ghost k: Scheduler.Slot) returns (ok: bool, s: Space)
      requires Valid() && k !in spaces
      modifies machine
      ensures ok ==> machine.Valid() && machine.trace == old(machine.trace)
      ensures ok ==> Grew(old(machine.heap), old(machine.mem), machine.heap, machine.mem)
      ensures ok ==> machine.mem == WithSpace(old(machine.mem), s)
      ensures ok ==> Sound(machine.mem, spaces[k := s]) && AllUntouched(old(machine.mem), machine.mem, spaces)
      ensures ok ==> FreshSpaceIn(old(machine.mem), machine.mem, s)
      ensures ok <==> FreePages(old(machine.heap)) >= 2
      ensures ok ==> Spent(old(machine.heap), machine.heap, 2)
    {
      ghost var m0 := machine.mem;
      s := Space(0, 0);
      var stack := machine.Kalloc();
      if stack == None {
        return false, s;
      }
      ghost var h1, m1 := machine.heap, machine.mem;
      var root := machine.Kalloc();
      if root == None {
        return false, s;
      }
      GrewTrans(old(machine.heap), m0, h1, m1, machine.heap, machine.mem);
      ok, s := true, Space(stack.value, root.value);
      NewSpace(m0, machine.mem, spaces, k, s);
    }

    /** init_user_process and its siblings: a new process with the program `image` in its user page. */
    method CreateUser(k: Scheduler.Slot, image: Option<Page>) returns (ok: bool)
      requires Valid() && k !in spaces
      modifies this, machine
      ensures ok ==> Valid() && Joined(old(spaces), spaces, k) && born == old(born) + 1
      ensures ok ==> AllUntouched(old(machine.mem), machine.mem, old(spaces))
      ensures ok ==> image.Some? && Loaded(machine.mem, spaces[k], image.value)
      ensures ok <==> image.Some? && FreePages(old(machine.heap)) >= 5
      ensures ok ==> Spent(old(machine.heap), machine.heap, 5)
    {
      var s;
      ok, s := LoadNew(k, image);
      if ok {
        ghost var page :| Made(old(machine.mem), machine.mem, s, page, image.value);
        MadeSound(old(machine.mem), machine.mem, spaces, k, s, page, image.value);
        JoinOne(spaces, k, s);
        spaces := spaces[k := s];
        born := born + 1;
      }
    }

    /** init_process on all cores: the processes of these entries, one after the other, each with its own
        program. */
    method CreateAll(slots: seq<Scheduler.Slot>, images: seq<Page>) returns (ok: bool)
      requires Valid() && spaces == map[] && NoDup(slots) && |images| == |slots|
      modifies this, machine
      ensures ok ==> Valid() && forall s :: s in spaces <==> s in slots
      ensures ok ==> forall j: nat | j < |slots| :: LoadedAt(machine.mem, spaces, slots, images, j)
      ensures ok <==> FreePages(old(machine.heap)) >= 5 * |slots|
    {
      ok := true;
      var i := 0;
      while i < |slots|
        invariant i <= |slots| && Valid() && ok && HasFirst(spaces, slots, i)
        invariant Spent(old(machine.heap), machine.heap, 5 * i)
        invariant forall j: nat | j < i :: LoadedAt(machine.mem, spaces, slots, images, j)
      {
        NextIsNew(spaces, slots, i);
        ghost var before, m0 := spaces, machine.mem;
        ok := CreateUser(slots[i], Some(images[i]));
        if !ok {
          return;
        }
        NextLoaded(m0, machine.mem, before, spaces, slots, images, i);
        FirstGrow(before, spaces, slots, i);
        i := i + 1;
      }
      assert slots[..i] == slots;
    }

    method LoadNew(ghost k: Scheduler.Slot, image: Option<Page>) returns (ok: bool, s: Space)
      requires Valid() && k !in spaces
      modifies machine
      ensures ok ==> machine.Valid() && machine.trace == old(machine.trace) && image.Some?
      ensures ok ==> exists x :: Made(old(machine.mem), machine.mem, s, x, image.value)
      ensures ok <==> image.Some? && FreePages(old(machine.heap)) >= 5
      ensures ok ==> Spent(old(machine.heap), machine.heap, 5)
    {
      ok, s := AllocNewProcess(k);
      if ok {
        assert SpaceOk(machine.mem, spaces[k := s][k]);
        ghost var page;
        ok, page := machine.SetupUvm(s.root, image);
        assert ok ==> Made(old(machine.mem), machine.mem, s, page, image.value);
      }
    }

    /** The memory part of fork: the child gets a fresh copy of the user page of the parent, and the
        parent keeps all its pages, their contents and its translations. */
    method Fork(parent: Scheduler.Slot, child: Scheduler.Slot) returns (ok: bool)
      requires Valid() && parent in spaces && child !in spaces
      modifies this, machine
      ensures ok ==> Valid() && ForkEffect(old(V()), V(), parent, child)
      ensures ok ==> AllUntouched(old(machine.mem), machine.mem, old(spaces))
      ensures ok ==> Copied(old(machine.mem), machine.mem, old(spaces)[parent], spaces[child])
      ensures ok <==> FreePages(old(machine.heap)) >= 5
      ensures ok ==> Spent(old(machine.heap), machine.heap, 5)
    {
      var s;
      ok, s := CopyNew(parent, child);
      if ok {
        JoinOne(spaces, child, s);
        spaces := spaces[child := s];
        born := born + 1;
        ForkKeeps(old(V()), V(), parent, child);
      }
    }

    method CopyNew(parent: Scheduler.Slot, ghost child: Scheduler.Slot) returns (ok: bool, s: Space)
      requires Valid() && parent in spaces && child !in spaces
      modifies machine
      ensures ok ==> machine.trace == old(machine.trace)
      ensures ok ==> Grew(old(machine.heap), old(machine.mem), machine.heap, machine.mem)
      ensures ok ==> exists x :: CopyMade(old(machine.mem), machine.mem, spaces[parent], s, x)
      ensures ok <==> FreePages(old(machine.heap)) >= 5
      ensures ok ==> Spent(old(machine.heap), machine.heap, 5)
    {
      ok, s := AllocNewProcess(child);
      if ok {
        ghost var h1, m1 := machine.heap, machine.mem;
        ghost var page;
        ForkReady(old(machine.mem), m1, spaces, parent, child, s);
        ok, page := machine.CopyUvm(s.root, spaces[parent].root);
        GrewTrans(old(machine.heap), old(machine.mem), h1, m1, machine.heap, machine.mem);
        assert ok ==> CopyMade(old(machine.mem), machine.mem, spaces[parent], s, page);
      }
    }

    /** The memory part of exec.  `found` says whether the program file was found and `image` is what
        reading it puts into the cleared user page, or None when that fails.  After a failure exec
        calls exit; the page is then as it was, or cleared. */
    method Exec(k: Scheduler.Slot, found: bool, image: Option<Page>) returns (ok: bool)
      requires Valid() && k in spaces
      modifies machine
      ensures Valid() && AllUntouched(old(machine.mem), machine.mem, spaces - {k})
      ensures SameWalks(old(machine.mem), machine.mem, spaces[k].root)
      ensures ok <==> found && image.Some?
      ensures if !found then V() == old(V()) else WriteEffect(old(V()), V(), k)
      ensures found ==> UserContents(machine.mem, spaces[k]) == Some(if ok then image.value else ZeroPage())
    {
      if !found {
        UntouchedRefl(machine.mem, spaces - {k});
        return false;
      }
      LoadProgram(k, image);
      WriteKeeps(old(V()), V(), k);
      return image.Some?;
    }

    /** memset of the user page and the read into it. */
    method LoadProgram(k: Scheduler.Slot, image: Option<Page>)
      requires Valid() && k in spaces
      modifies machine
      ensures Valid() && WriteEffect(old(V()), V(), k)
      ensures UserContents(machine.mem, spaces[k]) == Some(if image.Some? then image.value else ZeroPage())
    {
      ghost var m0 := machine.mem;
      ghost var page := FillUser(k, ZeroPage());
      if image.Some? {
        ghost var m1 := machine.mem;
        ghost var again := FillUser(k, image.value);
        WrittenTwice(m0, m1, machine.mem, spaces[k], page, again, ZeroPage(), image.value);
      }
    }

    /** Writing the user page through the process's own translation. */
    method FillUser(k: Scheduler.Slot, contents: Page) returns (ghost page: nat)
      requires Valid() && k in spaces
      modifies machine
      ensures Valid() && V() == old(V()).(mem := machine.mem)
      ensures Written(old(machine.mem), machine.mem, spaces[k], page, contents)
      ensures Node(machine.mem, spaces[k].root, LeafPath(USER_PAGE)) == Some(page)
    {
      assert SpaceOk(machine.mem, spaces[k]) && Mapped(machine.mem, spaces[k]);
      var x := machine.UserPage(spaces[k].root);
      page := x;
      ghost var m0 := machine.mem;
      machine.FillPage(x, contents);
      WrittenSound(m0, machine.mem, spaces, k, page, contents);
    }

    /** The memory part of wait: exactly the pages of the process are freed, each once. */
    method Reap(k: Scheduler.Slot)
      requires Valid() && k in spaces
      modifies this, machine
      ensures Valid() && ReapEffect(old(V()), V(), k)
      ensures AllUntouched(old(machine.mem), machine.mem, spaces)
      ensures Removed(old(machine.mem), machine.mem, old(spaces)[k])
      ensures FreedPages(old(machine.trace), machine.trace, old(machine.mem), old(spaces)[k])
    {
      FreeSpace(k);
      spaces := spaces - {k};
      ReapKeeps(old(V()), V(), k);
    }

    method FreeSpace(k: Scheduler.Slot)
      requires Valid() && k in spaces
      modifies machine
      ensures exists l :: ReapList(old(machine.mem), spaces[k], l) && ReapBy(old(V()), V(), l)
    {
      ghost var m0 := machine.mem;
      var s := spaces[k];
      assert SpaceOk(m0, s);
      ReapPages(m0, m0 - {s.stack}, s);
      machine.Kfree(s.stack);
      ghost var h1 := machine.heap;
      machine.FreeVm(s.root);
      ReapedBy(old(V()), V(), s, h1);
    }
  }
}
