/**
  The physical pages of processes: every process owns a stack, the tables of its page map and the
  blocks mapped there.  What creation, fork, exec and reaping do to memory keeps the pages of distinct
  processes apart.
 */
module ProcessSpaces {
  import opened Wrappers
  import opened Bits
  import opened Pages
  import opened Seqs
  import opened PageTables
  import opened PageTree
  import opened PageTeardown
  import opened PageMapping
  import opened KernelMemory
  import Buddy
  import BuddyRuns
  import Scheduler

  /** The stack and page_map fields of a process. */
  datatype Space = Space(stack: nat, root: nat)

  type Spaces = map<Scheduler.Slot, Space>

  ghost predicate Owns(m: Memory, s: Space, x: nat) {
    x == s.stack || InTree(m, s.root, x)
  }

  ghost predicate SpaceOk(m: Memory, s: Space) {
    TablesOk(m, s.root) && Exclusive(m, s.root) && s.stack in m && !InTree(m, s.root, s.stack)
  }

  /** No page belongs to both. */
  ghost predicate Apart(m: Memory, a: Space, b: Space) {
    forall x | Owns(m, a, x) :: !Owns(m, b, x)
  }

  ghost predicate Sound(m: Memory, ps: Spaces) {
    && (forall k | k in ps :: SpaceOk(m, ps[k]))
    && (forall j, k | j in ps && k in ps && j != k :: Apart(m, ps[j], ps[k]))
  }

  /** The program page is mapped. */
  ghost predicate Mapped(m: Memory, s: Space) {
    Node(m, s.root, LeafPath(USER_PAGE)).Some?
  }

  ghost predicate AllMapped(m: Memory, ps: Spaces) {
    forall k | k in ps :: Mapped(m, ps[k])
  }

  ghost predicate SamePages(m: Memory, m': Memory, s: Space) {
    forall x :: (Owns(m', s, x) <==> Owns(m, s, x)) && (Owns(m, s, x) ==> x in m && x in m' && m'[x] == m[x])
  }

  /** The process keeps its pages, their contents and its translations. */
  ghost predicate Untouched(m: Memory, m': Memory, s: Space) {
    && SpaceOk(m', s) && SamePages(m, m', s) && SameWalks(m, m', s.root)
    && Node(m', s.root, LeafPath(USER_PAGE)) == Node(m, s.root, LeafPath(USER_PAGE))
  }

  /** Every listed process is untouched. */
  ghost predicate AllUntouched(m: Memory, m': Memory, ps: Spaces) {
    forall k | k in ps :: Untouched(m, m', ps[k])
  }

  // ------------------------------------------------------------------- framing

  lemma OwnedIsAllocated(m: Memory, s: Space, x: nat)
    requires SpaceOk(m, s) && Owns(m, s, x)
    ensures x in m
  {
  }

  /** A process is untouched when none of its pages changes. */
  lemma SpaceFrame(m: Memory, m': Memory, s: Space)
    requires SpaceOk(m, s) && forall x | Owns(m, s, x) :: x in m && x in m' && m'[x] == m[x]
    ensures Untouched(m, m', s)
  {
    forall p | IsTable(m, s.root, p)
      ensures var t := Node(m, s.root, p).value; t in m && t in m' && m'[t] == m[t]
    {
      InTreeBy(m, s.root, Node(m, s.root, p).value, p);
      assert Owns(m, s, Node(m, s.root, p).value);
    }
    TablesFrame(m, m', s.root);
    TreeFrame(m, m', s);
  }

  lemma TreeFrame(m: Memory, m': Memory, s: Space)
    requires SpaceOk(m, s) && forall x | Owns(m, s, x) :: x in m && x in m' && m'[x] == m[x]
    requires forall q | IsPath(q) :: Node(m', s.root, q) == Node(m, s.root, q)
    ensures SameTree(m, m', s.root) && Exclusive(m', s.root) && SamePages(m, m', s)
  {
    forall p | IsPath(p) && Node(m', s.root, p).Some? ensures Node(m', s.root, p).value in m' {
      InTreeBy(m, s.root, Node(m, s.root, p).value, p);
      assert Owns(m, s, Node(m, s.root, p).value);
    }
  }

  lemma ApartFrame(m: Memory, m': Memory, a: Space, b: Space)
    requires Apart(m, a, b) && SamePages(m, m', a) && SamePages(m, m', b)
    ensures Apart(m', a, b)
  {
  }

  lemma AllFrame(m: Memory, m': Memory, ps: Spaces)
    requires Sound(m, ps) && AllUntouched(m, m', ps)
    ensures Sound(m', ps)
  {
    forall j, k | j in ps && k in ps && j != k ensures Apart(m', ps[j], ps[k]) {
      assert Untouched(m, m', ps[j]) && Untouched(m, m', ps[k]);
      ApartFrame(m, m', ps[j], ps[k]);
    }
  }

  // ------------------------------------------------------------ a new process

  lemma {:induction false} EmptyPath(m: Memory, root: nat, p: Path)
    requires root in m && m[root] == ZeroPage() && IsPath(p) && p != []
    ensures Node(m, root, p) == None
    decreases |p|
  {
    if |p| == 1 {
      ZeroHasNoChildren(m, root, p[0]);
    } else {
      EmptyPath(m, root, p[..|p| - 1]);
    }
  }

  /** A cleared page is the root of an empty space. */
  lemma EmptySpace(m: Memory, root: nat)
    requires root in m && m[root] == ZeroPage()
    ensures TablesOk(m, root) && Exclusive(m, root) && forall w: nat :: Leaf(m, root, w) == None
    ensures (forall y :: InTree(m, root, y) <==> y == root) && Missing(m, root, USER_PAGE) == 2
  {
    ValidIsOdd(0);
    assert Node(m, root, []) == Some(root);
    forall p | IsPath(p) && p != [] ensures Node(m, root, p) == None {
      EmptyPath(m, root, p);
    }
    forall w: nat ensures Leaf(m, root, w) == None {
      UnmappedPath(m, root, w);
    }
  }

  /** The space was allocated between `m` and `m'` and is empty. */
  ghost predicate FreshSpaceIn(m: Memory, m': Memory, s: Space) {
    && s.stack !in m && s.root !in m && s.stack in m' && s.root in m' && s.stack != s.root && m.Keys <= m'.Keys
    && (forall y :: InTree(m', s.root, y) <==> y == s.root)
    && (forall w: nat :: Leaf(m', s.root, w) == None) && Missing(m', s.root, USER_PAGE) == 2
  }

  /** Two cleared pages, a stack and an empty page map. */
  function WithSpace(m: Memory, s: Space): Memory {
    m[s.stack := ZeroPage()][s.root := ZeroPage()]
  }

  /** alloc_new_process: two fresh pages, a stack and an empty page map. */
  lemma NewSpace(m: Memory, m': Memory, ps: Spaces, k: Scheduler.Slot, s: Space)
    requires Sound(m, ps) && k !in ps && s.stack !in m && s.root !in m && s.stack != s.root
    requires m' == WithSpace(m, s)
    ensures Sound(m', ps[k := s]) && AllUntouched(m, m', ps) && FreshSpaceIn(m, m', s)
  {
    EmptySpace(m', s.root);
    OldKept(m, m', ps);
    AllFrame(m, m', ps);
    forall j | j in ps ensures Apart(m', ps[j], s) && Apart(m', s, ps[j]) {
      assert Untouched(m, m', ps[j]);
      NewApart(m, m', ps[j], s);
    }
    JoinSpace(m', ps, k, s);
  }

  /** Newly allocated pages touch no process. */
  lemma OldKept(m: Memory, m': Memory, ps: Spaces)
    requires Sound(m, ps) && forall x | x in m :: x in m' && m'[x] == m[x]
    ensures AllUntouched(m, m', ps)
  {
    forall j | j in ps ensures Untouched(m, m', ps[j]) {
      forall x | Owns(m, ps[j], x) ensures x in m && m'[x] == m[x] {
        OwnedIsAllocated(m, ps[j], x);
      }
      SpaceFrame(m, m', ps[j]);
    }
  }

  lemma NewApart(m: Memory, m': Memory, a: Space, s: Space)
    requires SpaceOk(m, a) && SamePages(m, m', a) && forall x | Owns(m', s, x) :: x !in m
    ensures Apart(m', a, s) && Apart(m', s, a)
  {
  }

  ghost predicate ApartFromAll(m: Memory, ps: Spaces, s: Space) {
    forall j | j in ps :: Apart(m, ps[j], s) && Apart(m, s, ps[j])
  }

  lemma JoinSpace(m: Memory, ps: Spaces, k: Scheduler.Slot, s: Space)
    requires Sound(m, ps) && SpaceOk(m, s) && k !in ps && ApartFromAll(m, ps, s)
    ensures Sound(m, ps[k := s])
  {
  }

  lemma WithoutOne(m: Memory, ps: Spaces, k: Scheduler.Slot)
    requires Sound(m, ps) && k in ps
    ensures Sound(m, ps - {k}) && ApartFromAll(m, ps - {k}, ps[k]) && (ps - {k})[k := ps[k]] == ps
  {
    var others := ps - {k};
    assert forall j | j in others :: j in ps && others[j] == ps[j];
  }

  /** Everything but process `k` is untouched, and `k` is sound and apart from the others. */
  lemma ReplaceSound(m: Memory, m': Memory, ps: Spaces, k: Scheduler.Slot)
    requires Sound(m, ps) && k in ps && AllUntouched(m, m', ps - {k})
    requires SpaceOk(m', ps[k]) && ApartFromAll(m', ps - {k}, ps[k])
    ensures Sound(m', ps)
  {
    WithoutOne(m, ps, k);
    AllFrame(m, m', ps - {k});
    JoinSpace(m', ps - {k}, k, ps[k]);
  }

  // --------------------------------------------------- the user page of a process

  /** Giving one process its user page leaves all others untouched. */
  lemma AttachSound(m: Memory, m': Memory, ps: Spaces, k: Scheduler.Slot, x: nat, contents: Page)
    requires Sound(m, ps) && k in ps && Attached(m, m', ps[k].root, x, contents)
    ensures Sound(m', ps) && AllUntouched(m, m', ps - {k}) && Mapped(m', ps[k])
  {
    WithoutOne(m, ps, k);
    AttachOwner(m, m', ps[k], x, contents);
    AttachOthers(m, m', ps - {k}, ps[k], x, contents);
    ReplaceSound(m, m', ps, k);
  }

  lemma AttachOthers(m: Memory, m': Memory, others: Spaces, s: Space, x: nat, contents: Page)
    requires Sound(m, others) && ApartFromAll(m, others, s)
    requires Attached(m, m', s.root, x, contents) && OwnsGains(m, m', s)
    ensures AllUntouched(m, m', others) && ApartFromAll(m', others, s)
  {
    forall j | j in others ensures Untouched(m, m', others[j]) && Apart(m', others[j], s) && Apart(m', s, others[j]) {
      assert Apart(m, others[j], s);
      AttachOther(m, m', s, others[j], x, contents);
      AttachApart(m, m', s, others[j]);
    }
  }

  /** The process gains exactly the newly allocated pages. */
  ghost predicate OwnsGains(m: Memory, m': Memory, s: Space) {
    forall y :: Owns(m', s, y) <==> Owns(m, s, y) || (y in m' && y !in m)
  }

  lemma AttachOther(m: Memory, m': Memory, s: Space, a: Space, x: nat, contents: Page)
    requires SpaceOk(m, a) && Apart(m, a, s) && Attached(m, m', s.root, x, contents)
    ensures Untouched(m, m', a)
  {
    forall y | Owns(m, a, y) ensures y in m && y in m' && m'[y] == m[y] {
      OwnedIsAllocated(m, a, y);
      assert !Owns(m, s, y);
    }
    SpaceFrame(m, m', a);
  }

  lemma AttachOwner(m: Memory, m': Memory, s: Space, x: nat, contents: Page)
    requires SpaceOk(m, s) && Attached(m, m', s.root, x, contents)
    ensures SpaceOk(m', s) && Mapped(m', s)
    ensures OwnsGains(m, m', s)
  {
  }

  lemma AttachApart(m: Memory, m': Memory, s: Space, a: Space)
    requires SpaceOk(m, a) && Apart(m, a, s) && SamePages(m, m', a)
    requires OwnsGains(m, m', s)
    ensures Apart(m', a, s) && Apart(m', s, a)
  {
    forall y | Owns(m', a, y) ensures !Owns(m', s, y) {
      OwnedIsAllocated(m, a, y);
    }
  }

  /** exec writes only the page mapped at the user address. */
  lemma FillSound(m: Memory, ps: Spaces, k: Scheduler.Slot, x: nat, contents: Page)
    requires Sound(m, ps) && k in ps && Node(m, ps[k].root, LeafPath(USER_PAGE)) == Some(x)
    ensures var m' := m[x := contents];
            && Sound(m', ps) && AllUntouched(m, m', ps - {k})
            && SameWalks(m, m', ps[k].root) && Node(m', ps[k].root, LeafPath(USER_PAGE)) == Some(x)
            && SameTree(m, m', ps[k].root)
  {
    var m' := m[x := contents];
    WithoutOne(m, ps, k);
    UserPageFill(m, ps[k].root, x, contents);
    InTreeBy(m, ps[k].root, x, LeafPath(USER_PAGE));
    FillOthers(m, m', ps - {k}, ps[k], x);
    assert SpaceOk(m', ps[k]);
    ReplaceSound(m, m', ps, k);
  }

  lemma FillOthers(m: Memory, m': Memory, others: Spaces, s: Space, x: nat)
    requires Sound(m, others) && ApartFromAll(m, others, s) && Owns(m, s, x) && SameTree(m, m', s.root)
    requires forall y | y in m && y != x :: y in m' && m'[y] == m[y]
    ensures AllUntouched(m, m', others) && ApartFromAll(m', others, s)
  {
    forall j | j in others ensures Untouched(m, m', others[j]) && Apart(m', others[j], s) && Apart(m', s, others[j]) {
      assert Apart(m, others[j], s);
      FillOther(m, m', s, others[j], x);
      FillApart(m, m', s, others[j]);
    }
  }

  lemma FillOther(m: Memory, m': Memory, s: Space, a: Space, x: nat)
    requires SpaceOk(m, a) && Apart(m, a, s) && Owns(m, s, x)
    requires forall y | y in m && y != x :: y in m' && m'[y] == m[y]
    ensures Untouched(m, m', a)
  {
    forall y | Owns(m, a, y) ensures y in m && y in m' && m'[y] == m[y] {
      OwnedIsAllocated(m, a, y);
    }
    SpaceFrame(m, m', a);
  }

  lemma FillApart(m: Memory, m': Memory, s: Space, a: Space)
    requires Apart(m, a, s) && SamePages(m, m', a) && SameTree(m, m', s.root)
    ensures Apart(m', a, s) && Apart(m', s, a)
  {
  }

  // -------------------------------------------------------------------- reaping

  /** Freeing the pages of one process leaves all others untouched. */
  lemma ReapSound(m: Memory, m': Memory, ps: Spaces, k: Scheduler.Slot)
    requires Sound(m, ps) && k in ps
    requires forall y | y in m && !Owns(m, ps[k], y) :: y in m' && m'[y] == m[y]
    ensures Sound(m', ps - {k}) && AllUntouched(m, m', ps - {k})
  {
    var s, others := ps[k], ps - {k};
    forall j | j in others ensures Untouched(m, m', others[j]) {
      assert Apart(m, ps[j], s);
      forall y | Owns(m, ps[j], y) ensures y in m && y in m' && m'[y] == m[y] {
        OwnedIsAllocated(m, ps[j], y);
      }
      SpaceFrame(m, m', ps[j]);
    }
    AllFrame(m, m', others);
  }

  /** `l` lists every page of the process once and nothing else. */
  ghost predicate ListsPages(m: Memory, s: Space, l: seq<nat>) {
    NoDup(l) && forall x :: x in l <==> Owns(m, s, x)
  }

  /** Since `trace`, exactly the pages of the process were freed, each once. */
  ghost predicate FreedPages(trace: seq<nat>, trace': seq<nat>, m: Memory, s: Space) {
    exists l :: trace' == trace + l && ListsPages(m, s, l)
  }

  /** `m'` is `m` without the pages of the process. */
  ghost predicate Removed(m: Memory, m': Memory, s: Space) {
    forall x :: (x in m' <==> x in m && !Owns(m, s, x)) && (x in m' ==> m'[x] == m[x])
  }

  /** What kfree(stack) and free_vm(page_map) free together. */
  lemma ReapPages(m: Memory, m1: Memory, s: Space)
    requires SpaceOk(m, s) && m1 == m - {s.stack}
    ensures TablesOk(m1, s.root) && Exclusive(m1, s.root) && s.root in PageFreed(m1, s.root, USER_PAGE)
    ensures ListsPages(m, s, [s.stack] + VmList(m1, s.root))
    ensures Removed(m, Minus(m1, VmList(m1, s.root)), s)
  {
    OutsideTree(m, m1, s.root, s.stack);
    VmListOnce(m1, s.root);
    var l := VmList(m1, s.root);
    forall x ensures x in l <==> InTree(m, s.root, x) {
      VmListIsTree(m1, s.root, x);
    }
    NoDupConcat([s.stack], l);
  }

  // ------------------------------------------------------------------ the kernel

  /** The memory of the machine and of all processes, as a value. */
  datatype State = State(heap: BuddyRuns.Heap, size: nat, mem: Memory, trace: seq<nat>, spaces: Spaces, born: nat)

  ghost predicate StateOk(v: State) {
    && MachineOk(v.heap, v.size, v.mem, v.trace) && Sound(v.mem, v.spaces) && AllMapped(v.mem, v.spaces)
    && 5 * v.born <= |v.mem.Keys| + |v.trace|
  }

  /** The page is allocated, none of its bytes is in a free block, and only process `k` may own it. */
  ghost predicate PageIsOwn(v: State, k: Scheduler.Slot, x: nat) {
    && x in v.mem && (forall p: nat | x <= p < x + PAGE_SIZE :: Buddy.FreeCount(v.heap.lists, p) == 0)
    && forall j | j in v.spaces && j != k :: !Owns(v.mem, v.spaces[j], x)
  }

  lemma OwnedInState(v: State, k: Scheduler.Slot, x: nat)
    requires StateOk(v) && k in v.spaces && Owns(v.mem, v.spaces[k], x)
    ensures PageIsOwn(v, k, x)
  {
    OwnedIsAllocated(v.mem, v.spaces[k], x);
    AllocatedIsNotFree(v.heap, v.size, v.mem, v.trace, x);
    forall j | j in v.spaces && j != k ensures !Owns(v.mem, v.spaces[j], x) {
      assert Apart(v.mem, v.spaces[k], v.spaces[j]);
    }
  }

  /** Every process takes five pages that are never handed out again, so the pages of the region bound the
      number of processes that can ever be made. */
  lemma BirthsAreBounded(v: State)
    requires StateOk(v)
    ensures 5 * v.born <= v.size / PAGE_SIZE
  {
  }

  /** The process table gains one process. */
  ghost predicate Joined(ps: Spaces, ps': Spaces, k: Scheduler.Slot) {
    k in ps' && ps' == ps[k := ps'[k]]
  }

  lemma JoinOne(ps: Spaces, k: Scheduler.Slot, s: Space)
    requires k !in ps
    ensures Joined(ps, ps[k := s], k) && ps[k := s] - {k} == ps
  {
  }

  lemma SameKeys(m: Memory, m': Memory, x: nat, contents: Page)
    requires x in m && m' == m[x := contents]
    ensures m'.Keys == m.Keys
  {
  }

  /** The space maps exactly the 2 MB at 0x400000, to a page with these contents, as a block that user code
      may access. */
  ghost predicate Loaded(m: Memory, s: Space, contents: Page) {
    exists x ::
      && Node(m, s.root, LeafPath(USER_PAGE)) == Some(x) && x in m && m[x] == contents
      && MapsOnly(m, s.root, x) && UserBlock(Leaf(m, s.root, 0x40_0000))
  }

  lemma LoadedKept(m: Memory, m': Memory, s: Space, contents: Page)
    requires Untouched(m, m', s) && Loaded(m, s, contents)
    ensures Loaded(m', s, contents)
  {
    var x :| Node(m, s.root, LeafPath(USER_PAGE)) == Some(x) && x in m && m[x] == contents
             && MapsOnly(m, s.root, x) && UserBlock(Leaf(m, s.root, 0x40_0000));
    UserPageKept(m, m', s, x);
    MappingKept(m, m', s.root, x);
  }

  lemma UserPageKept(m: Memory, m': Memory, s: Space, x: nat)
    requires SamePages(m, m', s) && Node(m, s.root, LeafPath(USER_PAGE)) == Some(x) && x in m
    ensures x in m' && m'[x] == m[x]
  {
    InTreeBy(m, s.root, x, LeafPath(USER_PAGE));
    assert Owns(m, s, x);
  }

  lemma MappingKept(m: Memory, m': Memory, root: nat, x: nat)
    requires SameWalks(m, m', root) && MapsOnly(m, root, x)
    ensures MapsOnly(m', root, x) && Leaf(m', root, 0x40_0000) == Leaf(m, root, 0x40_0000)
  {
    forall w: nat | UserAddress(w)
      ensures Walk(m', root, w) == if 0x40_0000 <= w < 0x60_0000 then Some(V2P(x) + (w - 0x40_0000)) else None
    {
      SameWalk(m, m', root, w);
    }
  }

  lemma SameWalk(m: Memory, m': Memory, root: nat, w: nat)
    requires SameWalks(m, m', root)
    ensures Walk(m', root, w) == Walk(m, root, w)
  {
    assert Leaf(m', root, w) == Leaf(m, root, w);
  }

  /** Those addresses translate into `x` and no other address translates. */
  ghost predicate MapsOnly(m: Memory, root: nat, x: nat) {
    forall w: nat | UserAddress(w) ::
      Walk(m, root, w) == if 0x40_0000 <= w < 0x60_0000 then Some(V2P(x) + (w - 0x40_0000)) else None
  }

  /** The descriptor bits of section D8.3 of Arm DDI 0487: a block (bits 1:0), memory attribute index 1 (bits
      4:2), access from user mode (bits 7:6) and the access flag (bit 10). */
  predicate UserBlock(e: Option<nat>) {
    e.Some? && e.value % 4 == 1 && e.value / 4 % 8 == 1 && e.value / 64 % 4 == 1 && e.value / 1024 % 2 == 1
  }

  /** The child maps exactly the user page, to a page not allocated before, with the bytes that the
      parent's user page had. */
  ghost predicate Copied(m: Memory, m': Memory, parent: Space, child: Space) {
    && Mapped(m, parent) && Mapped(m', child)
    && Node(m', child.root, LeafPath(USER_PAGE)).value !in m
    && var x := Node(m, parent.root, LeafPath(USER_PAGE)).value; x in m && Loaded(m', child, m[x])
  }

  lemma StillMapped(m: Memory, m': Memory, ps: Spaces)
    requires AllUntouched(m, m', ps) && AllMapped(m, ps)
    ensures AllMapped(m', ps)
  {
    forall k | k in ps ensures Mapped(m', ps[k]) {
      assert Untouched(m, m', ps[k]);
    }
  }

  lemma OthersMapped(m: Memory, m': Memory, ps: Spaces, k: Scheduler.Slot)
    requires AllUntouched(m, m', ps - {k}) && AllMapped(m, ps) && k in ps && Mapped(m', ps[k])
    ensures AllMapped(m', ps)
  {
    forall j | j in ps ensures Mapped(m', ps[j]) {
      if j != k {
        assert j in ps - {k} && Untouched(m, m', (ps - {k})[j]);
      }
    }
  }

  lemma UntouchedRefl(m: Memory, ps: Spaces)
    requires forall k | k in ps :: SpaceOk(m, ps[k])
    ensures AllUntouched(m, m, ps)
  {
    forall k | k in ps ensures Untouched(m, m, ps[k]) {
      forall x | Owns(m, ps[k], x) ensures x in m {
        OwnedIsAllocated(m, ps[k], x);
      }
    }
  }

  lemma UntouchedTrans(m: Memory, m1: Memory, m2: Memory, ps: Spaces)
    requires AllUntouched(m, m1, ps) && AllUntouched(m1, m2, ps)
    ensures AllUntouched(m, m2, ps)
  {
    forall k | k in ps ensures Untouched(m, m2, ps[k]) {
      UntouchedOneTrans(m, m1, m2, ps[k]);
    }
  }

  lemma UntouchedOneTrans(m: Memory, m1: Memory, m2: Memory, s: Space)
    requires Untouched(m, m1, s) && Untouched(m1, m2, s)
    ensures Untouched(m, m2, s)
  {
    SameWalksTrans(m, m1, m2, s.root);
  }

  lemma ParentReady(m0: Memory, m1: Memory, ps: Spaces, parent: Scheduler.Slot)
    requires AllUntouched(m0, m1, ps) && parent in ps && SpaceOk(m0, ps[parent]) && Mapped(m0, ps[parent])
    ensures SpaceOk(m1, ps[parent]) && Mapped(m1, ps[parent])
    ensures var x := Node(m0, ps[parent].root, LeafPath(USER_PAGE)).value;
            x in m0 && x in m1 && m1[x] == m0[x] && Node(m1, ps[parent].root, LeafPath(USER_PAGE)) == Some(x)
  {
    assert Untouched(m0, m1, ps[parent]);
    var x := Node(m0, ps[parent].root, LeafPath(USER_PAGE)).value;
    InTreeBy(m0, ps[parent].root, x, LeafPath(USER_PAGE));
    assert Owns(m0, ps[parent], x);
  }

  /** Before copy_uvm: the child is empty and the parent as it was. */
  lemma ForkReady(m0: Memory, m1: Memory, ps: Spaces, parent: Scheduler.Slot, child: Scheduler.Slot, s: Space)
    requires Sound(m0, ps) && AllMapped(m0, ps) && parent in ps && child !in ps
    requires Sound(m1, ps[child := s]) && AllUntouched(m0, m1, ps)
    ensures TablesOk(m1, s.root) && Exclusive(m1, s.root)
    ensures TablesOk(m1, ps[parent].root) && Exclusive(m1, ps[parent].root)
    ensures Node(m1, ps[parent].root, LeafPath(USER_PAGE)).Some?
  {
    assert SpaceOk(m1, ps[child := s][child]);
    ParentReady(m0, m1, ps, parent);
  }

  /** A process made in two steps: its empty space, then its user page. */
  lemma Created(m0: Memory, m1: Memory, m2: Memory, ps: Spaces, k: Scheduler.Slot, s: Space, x: nat, contents: Page)
    requires Sound(m0, ps) && k !in ps && AllMapped(m0, ps) && FreshSpaceIn(m0, m1, s)
    requires Sound(m1, ps[k := s]) && AllUntouched(m0, m1, ps)
    requires Attached(m1, m2, s.root, x, contents)
    ensures Sound(m2, ps[k := s]) && AllUntouched(m0, m2, ps) && Loaded(m2, s, contents)
    ensures AllMapped(m2, ps[k := s])
    ensures Node(m2, s.root, LeafPath(USER_PAGE)) == Some(x) && x !in m0
  {
    CreatedSound(m1, m2, ps, k, s, x, contents);
    UntouchedTrans(m0, m1, m2, ps);
    StillMapped(m0, m2, ps);
    JoinMapped(m2, ps, k, s);
    LoadedBy(m1, m2, s, x, contents);
  }

  lemma CreatedSound(m1: Memory, m2: Memory, ps: Spaces, k: Scheduler.Slot, s: Space, x: nat, contents: Page)
    requires k !in ps && Sound(m1, ps[k := s]) && Attached(m1, m2, s.root, x, contents)
    ensures Sound(m2, ps[k := s]) && AllUntouched(m1, m2, ps) && Mapped(m2, s)
  {
    AttachSound(m1, m2, ps[k := s], k, x, contents);
    JoinOne(ps, k, s);
  }

  lemma JoinMapped(m: Memory, ps: Spaces, k: Scheduler.Slot, s: Space)
    requires AllMapped(m, ps) && Mapped(m, s)
    ensures AllMapped(m, ps[k := s])
  {
  }

  /** A process with its user page takes five pages: stack, three tables and the page. */
  lemma FivePages(m0: Memory, m1: Memory, m2: Memory, s: Space, x: nat, contents: Page)
    requires FreshSpaceIn(m0, m1, s) && Attached(m1, m2, s.root, x, contents)
    ensures |m2.Keys| >= |m0.Keys| + 5
  {
    FiveAlong(m0, m1, m2, s, x, LeafPath(USER_PAGE));
  }

  lemma FiveAlong(m0: Memory, m1: Memory, m2: Memory, s: Space, x: nat, leaf: Path)
    requires FreshSpaceIn(m0, m1, s)
    requires Exclusive(m2, s.root) && TreeGains(m1, m2, s.root) && OutsideKept(m1, m2, s.root)
    requires IsPath(leaf) && |leaf| == 3 && Node(m2, s.root, leaf) == Some(x)
    ensures |m2.Keys| >= |m0.Keys| + 5
  {
    var p1, p2 := leaf[..1], leaf[..2];
    PrefixNode(m2, s.root, leaf, 1);
    PrefixNode(m2, s.root, leaf, 2);
    FourNodes(m1, m2, s, p1, p2, leaf);
    KeysKept(m1, m2, s.root);
    FiveMore(m0.Keys, m2.Keys, s.stack, s.root, Node(m2, s.root, p1).value, Node(m2, s.root, p2).value, x);
  }

  /** The two tables and the block of the new path are fresh and different. */
  lemma FourNodes(m1: Memory, m2: Memory, s: Space, p1: Path, p2: Path, p3: Path)
    requires Exclusive(m2, s.root) && TreeGains(m1, m2, s.root) && forall y :: InTree(m1, s.root, y) <==> y == s.root
    requires IsPath(p1) && IsPath(p2) && IsPath(p3) && |p1| == 1 && |p2| == 2 && |p3| == 3
    requires Node(m2, s.root, p1).Some? && Node(m2, s.root, p2).Some? && Node(m2, s.root, p3).Some?
    ensures var t1, t2, x := Node(m2, s.root, p1).value, Node(m2, s.root, p2).value, Node(m2, s.root, p3).value;
            && t1 != t2 && t1 != x && t2 != x
            && t1 in m2 && t2 in m2 && x in m2 && t1 !in m1 && t2 !in m1 && x !in m1
  {
    TablesFresh(m1, m2, s, p1);
    TablesFresh(m1, m2, s, p2);
    TablesFresh(m1, m2, s, p3);
    NodesDiffer(m2, s.root, p1, p2);
    NodesDiffer(m2, s.root, p1, p3);
    NodesDiffer(m2, s.root, p2, p3);
  }

  lemma KeysKept(m: Memory, m': Memory, root: nat)
    requires OutsideKept(m, m', root)
    ensures m.Keys <= m'.Keys
  {
  }

  lemma NodesDiffer(m: Memory, root: nat, p: Path, q: Path)
    requires Exclusive(m, root) && IsPath(p) && IsPath(q) && |p| != |q| && Node(m, root, p).Some?
    ensures Node(m, root, p) != Node(m, root, q)
  {
  }

  /** A table below a fresh root was allocated after it. */
  lemma TablesFresh(m1: Memory, m2: Memory, s: Space, p: Path)
    requires Exclusive(m2, s.root) && TreeGains(m1, m2, s.root) && forall y :: InTree(m1, s.root, y) <==> y == s.root
    requires IsPath(p) && p != [] && Node(m2, s.root, p).Some?
    ensures Node(m2, s.root, p).value in m2 && Node(m2, s.root, p).value !in m1
  {
    var t := Node(m2, s.root, p).value;
    InTreeBy(m2, s.root, t, p);
    assert Node(m2, s.root, []) == Some(s.root);
    assert t != s.root;
  }

  lemma FiveMore(a: set<nat>, b: set<nat>, v: nat, w: nat, x: nat, y: nat, z: nat)
    requires a <= b && v in b && w in b && x in b && y in b && z in b
    requires v !in a && w !in a && x !in a && y !in a && z !in a
    requires v != w && v != x && v != y && v != z && w != x && w != y && w != z && x != y && x != z && y != z
    ensures |b| >= |a| + 5
  {
    var c := a + {v} + {w} + {x} + {y} + {z};
    assert |c| == |a| + 5;
    SubsetSize(c, b);
  }

  lemma {:induction false} SubsetSize(a: set<nat>, b: set<nat>)
    requires a <= b
    ensures |a| <= |b|
    decreases |a|
  {
    if x :| x in a {
      SubsetSize(a - {x}, b - {x});
    }
  }

  /** What freeing all pages of process `k` leaves. */
  lemma SpaceFreed(m: Memory, m': Memory, ps: Spaces, k: Scheduler.Slot, l: seq<nat>)
    requires Sound(m, ps) && AllMapped(m, ps) && k in ps && Removed(m, m', ps[k]) && ListsPages(m, ps[k], l)
    ensures Sound(m', ps - {k}) && AllMapped(m', ps - {k}) && AllUntouched(m, m', ps - {k})
    ensures |m'.Keys| + |l| == |m.Keys|
  {
    ReapSound(m, m', ps, k);
    StillMapped(m, m', ps - {k});
    SpaceCounts(m, m', ps[k], l);
  }

  /** Pages go from memory to the trace one by one. */
  lemma SpaceCounts(m: Memory, m': Memory, s: Space, l: seq<nat>)
    requires SpaceOk(m, s) && Removed(m, m', s) && ListsPages(m, s, l)
    ensures |m'.Keys| + |l| == |m.Keys|
  {
    forall x | x in l ensures x in m {
      OwnedIsAllocated(m, s, x);
    }
    forall x ensures x in m'.Keys <==> x in m.Keys && x !in l {
      assert x in l <==> Owns(m, s, x);
    }
    KeysLess(m.Keys, m'.Keys, l);
  }

  lemma KeysLess(a: set<nat>, b: set<nat>, l: seq<nat>)
    requires NoDup(l) && (forall x | x in l :: x in a) && forall x :: x in b <==> x in a && x !in l
    ensures |b| + |l| == |a|
  {
    var pages := Members(l);
    MembersSize(l);
    forall x ensures x in pages <==> x in l {
      MembersIn(l, x);
    }
    assert b == a - pages && pages <= a;
  }

  lemma LoadedBy(m1: Memory, m2: Memory, s: Space, x: nat, contents: Page)
    requires Attached(m1, m2, s.root, x, contents) && forall w: nat :: Leaf(m1, s.root, w) == None
    ensures Loaded(m2, s, contents)
  {
    UserLeaf(m1, m2, s.root, x);
    assert MapsOnly(m2, s.root, x);
  }

  lemma UserLeaf(m1: Memory, m2: Memory, root: nat, x: nat)
    requires MapsOnePage(m1, m2, root, USER_PAGE, Descriptor(V2P(x), USER_ATTRIBUTE)) && KernelPage(x)
    requires forall w: nat :: Leaf(m1, root, w) == None
    ensures MapsOnly(m2, root, x) && UserBlock(Leaf(m2, root, 0x40_0000))
  {
    forall w: nat | UserAddress(w)
      ensures Walk(m2, root, w) == if 0x40_0000 <= w < 0x60_0000 then Some(V2P(x) + (w - 0x40_0000)) else None
    {
      assert Leaf(m1, root, w) == None;
      UserWalk(m1, m2, root, x, w);
    }
    MappedLeaf(m1, m2, root, USER_PAGE, V2P(x), USER_ATTRIBUTE);
    UserBits(x);
  }

  lemma UserWalk(m1: Memory, m2: Memory, root: nat, x: nat, w: nat)
    requires MapsOnePage(m1, m2, root, USER_PAGE, Descriptor(V2P(x), USER_ATTRIBUTE)) && KernelPage(x)
    requires UserAddress(w) && Leaf(m1, root, w) == None
    ensures Walk(m2, root, w) == if 0x40_0000 <= w < 0x60_0000 then Some(V2P(x) + (w - 0x40_0000)) else None
  {
    PhysicalPage(x);
    MapsTranslates(m1, m2, root, USER_PAGE, V2P(x), USER_ATTRIBUTE, w);
    UserRange(w);
  }

  lemma PhysicalPage(x: nat)
    requires KernelPage(x)
    ensures V2P(x) % PAGE_SIZE == 0 && V2P(x) < 0x1_0000_0000_0000
  {
    KernelOffset(x);
    KernelAddress(x);
  }

  lemma UserRange(w: nat)
    ensures SamePage(USER_PAGE, w) <==> 0x40_0000 <= w < 0x60_0000
    ensures SamePage(USER_PAGE, w) ==> w % PAGE_SIZE == w - 0x40_0000
  {
  }

  lemma UserBits(x: nat)
    requires KernelPage(x)
    ensures UserBlock(Some(V2P(x) + USER_ATTRIBUTE))
  {
    KernelOffset(x);
    AlignedDown(V2P(x));
    LowFields(V2P(x) / 0x1000);
  }

  lemma LowFields(k: nat)
    ensures UserBlock(Some(k * 0x1000 + USER_ATTRIBUTE))
  {
    var e := k * 0x1000 + USER_ATTRIBUTE;
    DivModUnique(e, 4, 0x400 * k + 0x111, 1);
    DivModUnique(e / 4, 8, 0x80 * k + 34, 1);
    DivModUnique(e, 64, 0x40 * k + 17, 5);
    DivModUnique(e / 64, 4, 0x10 * k + 4, 1);
    DivModUnique(e, 1024, 4 * k + 1, 69);
    DivModUnique(e / 1024, 2, 2 * k, 1);
  }

  // ------------------------------------------------- fork, reaping and exec on values

  /** A new process: a stack and a page map that were not allocated, then its user page `x`. */
  ghost predicate Made(m: Memory, m': Memory, s: Space, x: nat, contents: Page) {
    && s.stack !in m && s.root !in m && s.stack != s.root
    && Attached(WithSpace(m, s), m', s.root, x, contents)
  }

  lemma MadeSound(m: Memory, m': Memory, ps: Spaces, k: Scheduler.Slot, s: Space, x: nat, contents: Page)
    requires Sound(m, ps) && AllMapped(m, ps) && k !in ps && Made(m, m', s, x, contents)
    ensures Sound(m', ps[k := s]) && AllMapped(m', ps[k := s]) && AllUntouched(m, m', ps)
    ensures Loaded(m', s, contents) && Node(m', s.root, LeafPath(USER_PAGE)) == Some(x) && x !in m
    ensures |m'.Keys| >= |m.Keys| + 5
  {
    var m1 := WithSpace(m, s);
    NewSpace(m, m1, ps, k, s);
    Created(m, m1, m', ps, k, s, x, contents);
    FivePages(m, m1, m', s, x, contents);
  }

  /** The contents of the user page of a process. */
  ghost function UserContents(m: Memory, s: Space): Option<Page> {
    var leaf := Node(m, s.root, LeafPath(USER_PAGE));
    if leaf.Some? && leaf.value in m then Some(m[leaf.value]) else None
  }

  /** The new process with space `s` is a copy of `parent`. */
  ghost predicate CopyMade(m: Memory, m': Memory, parent: Space, s: Space, x: nat) {
    UserContents(m, parent).Some? && Made(m, m', s, x, UserContents(m, parent).value)
  }

  /** What a successful fork does to memory: some kallocs, whose pages are those of the child. */
  ghost predicate ForkEffect(v: State, v': State, parent: Scheduler.Slot, child: Scheduler.Slot) {
    && parent in v.spaces && child !in v.spaces
    && Grew(v.heap, v.mem, v'.heap, v'.mem)
    && v'.size == v.size && v'.trace == v.trace && v'.born == v.born + 1
    && Joined(v.spaces, v'.spaces, child)
    && exists x :: CopyMade(v.mem, v'.mem, v.spaces[parent], v'.spaces[child], x)
  }

  lemma GrewOk(v: State, v': State)
    requires MachineOk(v.heap, v.size, v.mem, v.trace) && Grew(v.heap, v.mem, v'.heap, v'.mem)
    requires v'.size == v.size && v'.trace == v.trace
    ensures MachineOk(v'.heap, v'.size, v'.mem, v'.trace)
  {
    var pages :| GrewBy(v.heap, v.mem, v'.heap, v'.mem, pages);
    TakesOk(v.heap, v.size, v.mem.Keys, |v.trace|, pages, v'.heap);
  }

  /** fork keeps the state sound, gives the child its own copy and touches no other process. */
  lemma ForkKeeps(v: State, v': State, parent: Scheduler.Slot, child: Scheduler.Slot)
    requires StateOk(v) && ForkEffect(v, v', parent, child)
    ensures StateOk(v') && AllUntouched(v.mem, v'.mem, v.spaces)
    ensures Copied(v.mem, v'.mem, v.spaces[parent], v'.spaces[child])
  {
    var s := v'.spaces[child];
    var x :| CopyMade(v.mem, v'.mem, v.spaces[parent], s, x);
    MadeSound(v.mem, v'.mem, v.spaces, child, s, x, UserContents(v.mem, v.spaces[parent]).value);
    GrewOk(v, v');
  }

  /** What wait gives to kfree and free_vm, in order. */
  ghost predicate ReapList(m: Memory, s: Space, l: seq<nat>) {
    var m1 := m - {s.stack};
    && Exclusive(m1, s.root) && s.root in PageFreed(m1, s.root, USER_PAGE)
    && l == [s.stack] + VmList(m1, s.root)
  }

  /** What reaping does to memory: a kfree for every page of that list. */
  ghost predicate ReapEffect(v: State, v': State, k: Scheduler.Slot) {
    && k in v.spaces && v'.spaces == v.spaces - {k} && v'.size == v.size && v'.born == v.born
    && exists l :: ReapList(v.mem, v.spaces[k], l) && ReapBy(v, v', l)
  }

  ghost predicate ReapBy(v: State, v': State, l: seq<nat>) {
    BuddyRuns.Frees(v.heap, l, v'.heap) && v'.mem == Minus(v.mem, l) && v'.trace == v.trace + l
  }

  /** Reaping keeps the state sound, frees exactly the pages of the process, each once, and touches no
      other process. */
  lemma ReapKeeps(v: State, v': State, k: Scheduler.Slot)
    requires StateOk(v) && ReapEffect(v, v', k)
    ensures StateOk(v') && AllUntouched(v.mem, v'.mem, v'.spaces)
    ensures Removed(v.mem, v'.mem, v.spaces[k]) && FreedPages(v.trace, v'.trace, v.mem, v.spaces[k])
  {
    var l :| ReapList(v.mem, v.spaces[k], l) && ReapBy(v, v', l);
    ReapListed(v.mem, v.spaces[k], l);
    SpaceFreed(v.mem, v'.mem, v.spaces, k, l);
    FreesOk(v.heap, v.size, v.mem.Keys, |v.trace|, l, v'.heap);
    MinusKeys(v.mem, l);
  }

  lemma ReapListed(m: Memory, s: Space, l: seq<nat>)
    requires SpaceOk(m, s) && ReapList(m, s, l)
    ensures ListsPages(m, s, l) && Removed(m, Minus(m, l), s)
  {
    var m1 := m - {s.stack};
    ReapPages(m, m1, s);
    MinusAppend(m, [s.stack], VmList(m1, s.root));
    BlockEntryFreed(m, [], s.stack);
  }

  lemma MinusKeys(m: Memory, l: seq<nat>)
    ensures Minus(m, l).Keys == m.Keys - Members(l)
  {
    forall x ensures x in Minus(m, l).Keys <==> x in m.Keys - Members(l) {
      MembersIn(l, x);
    }
  }

  /** What exec, or any other write of process `k` to its program page, does to memory. */
  ghost predicate WriteEffect(v: State, v': State, k: Scheduler.Slot) {
    && k in v.spaces && v' == v.(mem := v'.mem)
    && exists x, contents: Page :: Written(v.mem, v'.mem, v.spaces[k], x, contents)
  }

  /** The page `x` mapped at the user address gets new contents. */
  ghost predicate Written(m: Memory, m': Memory, s: Space, x: nat, contents: Page) {
    Node(m, s.root, LeafPath(USER_PAGE)) == Some(x) && m' == m[x := contents]
  }

  /** Such a write keeps the state sound, every translation and every other process. */
  lemma WriteKeeps(v: State, v': State, k: Scheduler.Slot)
    requires StateOk(v) && WriteEffect(v, v', k)
    ensures StateOk(v') && AllUntouched(v.mem, v'.mem, v.spaces - {k})
    ensures SameWalks(v.mem, v'.mem, v.spaces[k].root) && SameTree(v.mem, v'.mem, v.spaces[k].root)
  {
    var x, contents: Page :| Written(v.mem, v'.mem, v.spaces[k], x, contents);
    WrittenSound(v.mem, v'.mem, v.spaces, k, x, contents);
  }

  lemma WrittenSound(m: Memory, m': Memory, ps: Spaces, k: Scheduler.Slot, x: nat, contents: Page)
    requires Sound(m, ps) && AllMapped(m, ps) && k in ps && Written(m, m', ps[k], x, contents)
    ensures Sound(m', ps) && AllMapped(m', ps) && AllUntouched(m, m', ps - {k}) && m'.Keys == m.Keys
    ensures SameWalks(m, m', ps[k].root) && Node(m', ps[k].root, LeafPath(USER_PAGE)) == Some(x)
    ensures SameTree(m, m', ps[k].root)
  {
    FillSound(m, ps, k, x, contents);
    OthersMapped(m, m', ps, k);
    assert SpaceOk(m, ps[k]);
    SameKeys(m, m', x, contents);
  }

  lemma WrittenTwice(m: Memory, m1: Memory, m2: Memory, s: Space, x: nat, y: nat, a: Page, b: Page)
    requires Written(m, m1, s, x, a) && Node(m1, s.root, LeafPath(USER_PAGE)) == Some(x) && Written(m1, m2, s, y, b)
    ensures Written(m, m2, s, x, b)
  {
    assert m2 == m[x := b];
  }

  /** kfree(stack) and then free_vm(page_map). */
  lemma ReapedBy(v: State, v': State, s: Space, h1: BuddyRuns.Heap)
    requires SpaceOk(v.mem, s)
    requires var m1 := v.mem - {s.stack};
             && Exclusive(m1, s.root) && s.root in PageFreed(m1, s.root, USER_PAGE)
             && BuddyRuns.Frees(v.heap, [s.stack], h1) && BuddyRuns.Frees(h1, VmList(m1, s.root), v'.heap)
             && v'.mem == Minus(m1, VmList(m1, s.root)) && v'.trace == v.trace + [s.stack] + VmList(m1, s.root)
    ensures exists l :: ReapList(v.mem, s, l) && ReapBy(v, v', l)
  {
    var l := VmList(v.mem - {s.stack}, s.root);
    BuddyRuns.FreesConcat(v.heap, [s.stack], h1, l, v'.heap);
    BlockEntryFreed(v.mem, [], s.stack);
    MinusAppend(v.mem, [s.stack], l);
    assert v.trace + [s.stack] + l == v.trace + ([s.stack] + l);
    assert ReapList(v.mem, s, [s.stack] + l);
  }

  /** The process has the same stack, page map, pages, page contents and translations. */
  ghost predicate SpaceKept(v: State, v': State, s: Scheduler.Slot) {
    && s in v.spaces && s in v'.spaces && v'.spaces[s] == v.spaces[s]
    && Untouched(v.mem, v'.mem, v.spaces[s])
  }

  lemma ForkSpares(v: State, v': State, parent: Scheduler.Slot, child: Scheduler.Slot, s: Scheduler.Slot)
    requires StateOk(v) && ForkEffect(v, v', parent, child) && s in v.spaces
    ensures SpaceKept(v, v', s)
  {
    ForkKeeps(v, v', parent, child);
    JoinedKeeps(v.spaces, v'.spaces, child, s);
  }

  lemma JoinedKeeps(ps: Spaces, ps': Spaces, k: Scheduler.Slot, s: Scheduler.Slot)
    requires Joined(ps, ps', k) && s in ps && k !in ps
    ensures s in ps' && ps'[s] == ps[s]
  {
  }

  lemma ReapSpares(v: State, v': State, k: Scheduler.Slot, s: Scheduler.Slot)
    requires StateOk(v) && ReapEffect(v, v', k) && s in v.spaces && s != k
    ensures SpaceKept(v, v', s)
  {
    ReapKeeps(v, v', k);
    OtherUntouched(v.mem, v'.mem, v.spaces, k, s);
  }

  lemma WriteSpares(v: State, v': State, k: Scheduler.Slot, s: Scheduler.Slot)
    requires StateOk(v) && WriteEffect(v, v', k) && s in v.spaces && s != k
    ensures SpaceKept(v, v', s)
  {
    WriteKeeps(v, v', k);
    OtherUntouched(v.mem, v'.mem, v.spaces, k, s);
  }

  lemma OtherUntouched(m: Memory, m': Memory, ps: Spaces, k: Scheduler.Slot, s: Scheduler.Slot)
    requires AllUntouched(m, m', ps - {k}) && s in ps && s != k
    ensures Untouched(m, m', ps[s])
  {
    assert s in ps - {k};
  }
}
