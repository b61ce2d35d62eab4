/**
  kalloc, kfree and the page-table routines of src/memory.c over one allocator and one memory.  Only
  allocated pages have contents: kfree takes a page's contents away, because the allocator reuses
  its first words as list links, so no routine can depend on a freed page.
 */
module KernelMemory {
  import opened Wrappers
  import opened Pages
  import opened Seqs
  import opened PageTables
  import opened PageTree
  import opened PageTeardown
  import opened PageMapping
  import Buddy
  import BuddyRuns

  const MEMORY_END: nat := KERNEL_BASE + 0x3000_0000

  /** The pages in the free lists. */
  ghost function FreePages(h: BuddyRuns.Heap): nat {
    Buddy.FreeTotal(h.lists)
  }

  /** From `h` to `h'`, `n` pages were taken off the free lists. */
  ghost predicate Spent(h: BuddyRuns.Heap, h': BuddyRuns.Heap, n: nat) {
    FreePages(h') + n == FreePages(h)
  }

  /** The allocator keeps its invariant, its live pages are the allocated pages `keys`, and every page ever
      handed out is allocated or one of the `freed` freed ones. */
  ghost predicate KeysOk(heap: BuddyRuns.Heap, size: nat, keys: set<nat>, freed: nat) {
    && BuddyRuns.Base(heap, size) && BuddyRuns.Guard(heap, size)
    && heap.live == multiset(keys)
    && heap.granted == |keys| + freed
    && Buddy.FreeTotal(heap.lists) + heap.granted == size / PAGE_SIZE
    && KERNEL_BASE <= heap.start && heap.start + size <= MEMORY_END
  }

  ghost predicate MachineOk(heap: BuddyRuns.Heap, size: nat, mem: Memory, trace: seq<nat>) {
    KeysOk(heap, size, mem.Keys, |trace|)
  }

  /** An allocated page lies in the memory above the kernel image, at a multiple of 2 MB. */
  lemma KeyIsPage(heap: BuddyRuns.Heap, size: nat, keys: set<nat>, freed: nat, x: nat)
    requires KeysOk(heap, size, keys, freed) && x in keys
    ensures KernelPage(x) && heap.start <= x && x + PAGE_SIZE <= MEMORY_END
    ensures V2P(x) % PAGE_SIZE == 0 && V2P(x) + PAGE_SIZE <= 0x3000_0000 && P2V(V2P(x)) == x
  {
    assert x in heap.live;
    BuddyRuns.LiveInside(heap, size, x);
    BuddyRuns.SmallSizes();
    WholePage(heap.start, size, x);
    KernelAddress(x);
    KernelOffset(x);
  }

  lemma WholePage(start: nat, size: nat, v: nat)
    requires start % PAGE_SIZE == 0 && v % PAGE_SIZE == 0 && v < start + size / PAGE_SIZE * PAGE_SIZE
    ensures v + PAGE_SIZE <= start + size
  {
  }

  /** kalloc. */
  lemma TakeOk(heap: BuddyRuns.Heap, size: nat, keys: set<nat>, freed: nat, b: nat)
    requires KeysOk(heap, size, keys, freed) && Buddy.Alloc(heap.lists, 0).0 == Some(b)
    ensures b !in keys && KeysOk(BuddyRuns.Do(heap, BuddyRuns.KAlloc), size, keys + {b}, freed)
    ensures Spent(heap, BuddyRuns.Do(heap, BuddyRuns.KAlloc), 1)
  {
    BuddyRuns.AllocFresh(heap, size);
    BuddyRuns.AllocBase(heap, size);
    BuddyRuns.AllocGuard(heap, size);
    BuddyRuns.StepBudget(heap, BuddyRuns.KAlloc);
  }

  /** kfree. */
  lemma FreeOk(heap: BuddyRuns.Heap, size: nat, keys: set<nat>, freed: nat, v: nat)
    requires KeysOk(heap, size, keys, freed) && v in keys
    ensures BuddyRuns.Legal(heap, BuddyRuns.KFree(v))
    ensures KeysOk(BuddyRuns.Do(heap, BuddyRuns.KFree(v)), size, keys - {v}, freed + 1)
  {
    KeyIsPage(heap, size, keys, freed, v);
    BuddyRuns.FreeInv(heap, size, v);
    BuddyRuns.StepBudget(heap, BuddyRuns.KFree(v));
  }

  /** Several kallocs return distinct pages that were not allocated. */
  lemma {:induction false} TakesOk(heap: BuddyRuns.Heap, size: nat, keys: set<nat>, freed: nat, ps: seq<nat>,
                                   heap': BuddyRuns.Heap)
    requires KeysOk(heap, size, keys, freed) && BuddyRuns.Takes(heap, ps, heap')
    ensures KeysOk(heap', size, keys + Members(ps), freed)
    ensures NoDup(ps) && forall x | x in ps :: x !in keys
    decreases |ps|
  {
    BuddyRuns.TakesHead(heap, ps, heap');
    if ps == [] {
      assert keys + Members(ps) == keys;
    } else {
      var b, next := ps[0], BuddyRuns.Do(heap, BuddyRuns.KAlloc);
      TakeOk(heap, size, keys, freed, b);
      TakesOk(next, size, keys + {b}, freed, ps[1..], heap');
      assert keys + {b} + Members(ps[1..]) == keys + Members(ps);
      NoDupCons(b, ps[1..]);
      assert [b] + ps[1..] == ps;
    }
  }

  /** Several kfrees take distinct allocated pages away. */
  lemma {:induction false} FreesOk(heap: BuddyRuns.Heap, size: nat, keys: set<nat>, freed: nat, l: seq<nat>,
                                   heap': BuddyRuns.Heap)
    requires KeysOk(heap, size, keys, freed) && BuddyRuns.Frees(heap, l, heap')
    ensures KeysOk(heap', size, keys - Members(l), freed + |l|)
    decreases |l|
  {
    BuddyRuns.FreesHead(heap, l, heap');
    if l == [] {
      assert keys - Members(l) == keys;
    } else {
      var v, next := l[0], BuddyRuns.Do(heap, BuddyRuns.KFree(l[0]));
      FreeOk(heap, size, keys, freed, v);
      FreesOk(next, size, keys - {v}, freed + 1, l[1..], heap');
      assert keys - {v} - Members(l[1..]) == keys - Members(l);
    }
  }

  /** No byte of an allocated page is in a free block. */
  lemma AllocatedIsNotFree(heap: BuddyRuns.Heap, size: nat, mem: Memory, trace: seq<nat>, x: nat)
    requires MachineOk(heap, size, mem, trace) && x in mem
    ensures forall p: nat | x <= p < x + PAGE_SIZE :: Buddy.FreeCount(heap.lists, p) == 0
  {
    assert x in heap.live;
    forall p: nat | x <= p < x + PAGE_SIZE ensures Buddy.FreeCount(heap.lists, p) == 0 {
      BuddyRuns.LiveBytes(heap, size, x, p);
    }
  }

  lemma UserPageMappable()
    ensures UserAddress(USER_PAGE) && Attribute(USER_ATTRIBUTE)
    ensures USER_PAGE - USER_PAGE % PAGE_SIZE + PAGE_SIZE < MEMORY_END
  {
  }

  /** Only kallocs happened: the pages they returned, in order, joined the allocated pages. */
  ghost predicate Grew(h: BuddyRuns.Heap, m: Memory, h': BuddyRuns.Heap, m': Memory) {
    exists pages: seq<nat> :: GrewBy(h, m, h', m', pages)
  }

  ghost predicate GrewBy(h: BuddyRuns.Heap, m: Memory, h': BuddyRuns.Heap, m': Memory, pages: seq<nat>) {
    BuddyRuns.Takes(h, pages, h') && m'.Keys == m.Keys + Members(pages)
  }

  lemma GrewNone(h: BuddyRuns.Heap, m: Memory, m': Memory)
    requires m'.Keys == m.Keys
    ensures Grew(h, m, h, m')
  {
    BuddyRuns.TakesNone(h);
    assert GrewBy(h, m, h, m', []);
  }

  lemma GrewOne(h: BuddyRuns.Heap, m: Memory, b: nat, contents: Page)
    requires Buddy.Alloc(h.lists, 0).0 == Some(b)
    ensures Grew(h, m, BuddyRuns.Do(h, BuddyRuns.KAlloc), m[b := contents])
  {
    BuddyRuns.TakesOne(h, b);
    assert [b][1..] == [];
    assert GrewBy(h, m, BuddyRuns.Do(h, BuddyRuns.KAlloc), m[b := contents], [b]);
  }

  lemma GrewTrans(h: BuddyRuns.Heap, m: Memory, h1: BuddyRuns.Heap, m1: Memory, h2: BuddyRuns.Heap, m2: Memory)
    requires Grew(h, m, h1, m1) && Grew(h1, m1, h2, m2)
    ensures Grew(h, m, h2, m2)
  {
    var p :| GrewBy(h, m, h1, m1, p);
    var q :| GrewBy(h1, m1, h2, m2, q);
    BuddyRuns.TakesConcat(h, p, h1, q, h2);
    MembersConcat(p, q);
    assert GrewBy(h, m, h2, m2, p + q);
  }

  lemma StoreKeys(m: Memory, t: nat, i: nat, e: nat)
    requires t in m && i < ENTRIES
    ensures Store(m, t, i, e).Keys == m.Keys
  {
  }

  /** A store into an allocated page after that. */
  lemma GrewStore(h: BuddyRuns.Heap, m: Memory, h1: BuddyRuns.Heap, m1: Memory, m2: Memory)
    requires Grew(h, m, h1, m1) && m2.Keys == m1.Keys
    ensures Grew(h, m, h1, m2)
  {
    var p :| GrewBy(h, m, h1, m1, p);
    assert GrewBy(h, m, h1, m2, p);
  }

  lemma BothGrow(h: BuddyRuns.Heap, m: Memory, h1: BuddyRuns.Heap, m1: Memory, h2: BuddyRuns.Heap, m2: Memory,
                 root: nat)
    requires Grows(m, m1, root) && Grows(m1, m2, root) && Grew(h, m, h1, m1) && Grew(h1, m1, h2, m2)
    ensures Grows(m, m2, root) && Grew(h, m, h2, m2)
  {
    GrowsTrans(m, m1, m2, root);
    GrewTrans(h, m, h1, m1, h2, m2);
  }

  /** Without a level-1 table there is no last-level table. */
  lemma NoLeafTable(m: Memory, root: nat, v: nat)
    ensures Node(m, root, [Index(v, 0)]) == None ==> Node(m, root, LeafTable(v)) == None
  {
    NodeStep(m, root, [Index(v, 0)], Index(v, 1));
    assert [Index(v, 0)] + [Index(v, 1)] == LeafTable(v);
  }

  /** Freeing `sub` and then `c`, on all three parts of the machine. */
  lemma EntryDone(h: BuddyRuns.Heap, m: Memory, trace: seq<nat>, sub: seq<nat>, c: nat, h1: BuddyRuns.Heap,
                  h2: BuddyRuns.Heap)
    requires BuddyRuns.Frees(h, sub, h1) && BuddyRuns.Frees(h1, [c], h2)
    ensures Minus(m, sub) - {c} == Minus(m, sub + [c]) && trace + sub + [c] == trace + (sub + [c])
    ensures BuddyRuns.Frees(h, sub + [c], h2)
  {
    EntryFreed(m, trace, sub, c);
    BuddyRuns.FreesConcat(h, sub, h1, [c], h2);
  }

  lemma BlockEntryFreed(m: Memory, trace: seq<nat>, c: nat)
    ensures Minus(m, [c]) == m - {c}
  {
    NothingFreed(m, trace);
    EntryFreed(m, trace, [], c);
    assert [] + [c] == [c];
  }

  lemma VmHeap(m0: Memory, m1: Memory, root: nat, h0: BuddyRuns.Heap, h1: BuddyRuns.Heap, h2: BuddyRuns.Heap,
               h3: BuddyRuns.Heap)
    requires Exclusive(m0, root) && m1 == PageFreed(m0, root, USER_PAGE) && root in m1
    requires BuddyRuns.Frees(h0, PageList(m0, root, USER_PAGE), h1)
    requires BuddyRuns.Frees(h1, Rounds(m1, root, 0, ENTRIES), h2) && BuddyRuns.Frees(h2, [root], h3)
    ensures BuddyRuns.Frees(h0, VmList(m0, root), h3)
  {
    BuddyRuns.FreesConcat(h1, Rounds(m1, root, 0, ENTRIES), h2, [root], h3);
    BuddyRuns.FreesConcat(h0, PageList(m0, root, USER_PAGE), h1, TreeList(m1, root), h3);
  }

  /** The fresh cleared page `x` hangs at entry `i` of the table `t`, and nothing else changed. */
  ghost predicate Linked(m: Memory, m': Memory, t: nat, i: nat, x: nat, attribute: nat)
    requires i < ENTRIES
  {
    t in m && m' == Store(m[x := ZeroPage()], t, i, TableEntry(x, attribute))
  }

  class Machine {
    var heap: BuddyRuns.Heap
    var mem: Memory
    const size: nat
    /** The pages given to kfree, in order. */
    ghost var trace: seq<nat>

    ghost predicate Valid()
      reads this
    {
      MachineOk(heap, size, mem, trace)
    }

    /** init_memory. */
    constructor (start: nat, size: nat)
      requires Buddy.Aligned(start, 0) && BuddyRuns.GoodStart(start, size)
      requires KERNEL_BASE <= start && start + size <= MEMORY_END
      ensures Valid() && mem == map[] && trace == []
    {
      heap := BuddyRuns.Boot(start, size);
      mem := map[];
      this.size := size;
      trace := [];
      BuddyRuns.BootInv(start, size);
      BuddyRuns.BootBase(start, size);
    }

    method Kalloc() returns (r: Option<nat>)
      requires Valid()
      modifies this
      ensures Valid() && trace == old(trace)
      ensures r == None ==> mem == old(mem) && heap == old(heap)
      ensures r.Some? ==> r.value !in old(mem) && mem == old(mem)[r.value := ZeroPage()] && KernelPage(r.value)
      ensures Grew(old(heap), old(mem), heap, mem)
      ensures r == None <==> FreePages(old(heap)) == 0
      ensures r.Some? ==> Spent(old(heap), heap, 1)
    {
      GrewNone(heap, mem, mem);
      BuddyRuns.AllocNone(heap.lists);
      var (b, lists) := Buddy.Alloc(heap.lists, 0);
      if b == None {
        return None;
      }
      TakeOk(heap, size, mem.Keys, |trace|, b.value);
      GrewOne(heap, mem, b.value, ZeroPage());
      ghost var before := mem.Keys;
      heap := BuddyRuns.Do(heap, BuddyRuns.KAlloc);
      mem := mem[b.value := ZeroPage()];
      assert mem.Keys == before + {b.value};
      KeyIsPage(heap, size, mem.Keys, |trace|, b.value);
      return Some(b.value);
    }

    method Kfree(v: nat)
      requires Valid() && v in mem
      modifies this
      ensures Valid() && mem == old(mem) - {v} && trace == old(trace) + [v]
      ensures BuddyRuns.Frees(old(heap), [v], heap)
    {
      FreeOk(heap, size, mem.Keys, |trace|, v);
      BuddyRuns.FreesOne(heap, v);
      ghost var before := mem.Keys;
      heap := BuddyRuns.Do(heap, BuddyRuns.KFree(v));
      mem := mem - {v};
      assert mem.Keys == before - {v};
      trace := trace + [v];
    }

    /** table[i] = e. */
    method SetEntry(t: nat, i: nat, e: nat)
      requires Valid() && t in mem && i < ENTRIES
      modifies this
      ensures Valid() && trace == old(trace) && heap == old(heap) && mem == Store(old(mem), t, i, e)
    {
      ghost var keys := mem.Keys;
      mem := Store(mem, t, i, e);
      assert mem.Keys == keys;
    }

    /** find_pgd_entry: the level-1 table for `v`, added when asked for and missing. */
    method FindPgdEntry(root: nat, v: nat, alloc: bool, attribute: nat) returns (r: Option<nat>)
      requires Valid() && TablesOk(mem, root) && (alloc ==> Attribute(attribute))
      modifies this
      ensures Valid() && trace == old(trace) && Grows(old(mem), mem, root)
      ensures !alloc || r == None ==> mem == old(mem) && heap == old(heap)
      ensures r == Node(mem, root, [Index(v, 0)]) && Grew(old(heap), old(mem), heap, mem)
      ensures Node(mem, root, LeafTable(v)) == Node(old(mem), root, LeafTable(v))
      ensures alloc ==> (r == None <==> Node(old(mem), root, [Index(v, 0)]) == None && FreePages(old(heap)) == 0)
      ensures r.Some? && Node(old(mem), root, [Index(v, 0)]) == None ==>
                Linked(old(mem), mem, root, Index(v, 0), r.value, attribute)
      ensures r.Some? ==> Spent(old(heap), heap, if Node(old(mem), root, [Index(v, 0)]) == None then 1 else 0)
    {
      var i := Index(v, 0);
      NodeStep(mem, root, [], i);
      assert [] + [i] == [i];
      assert IsTable(mem, root, []) && TableOk(mem, root, 0);
      GrowsRefl(mem, root);
      GrewNone(heap, mem, mem);
      if IsValid(mem[root][i]) {
        return Some(ChildAddr(mem[root][i]));
      }
      if !alloc {
        return None;
      }
      r := AddTable(root, [], root, i, attribute);
      if r == None {
        NodeStep(mem, root, [], i);
      }
    }

    /** The allocating branch shared by find_pgd_entry and find_pud_entry. */
    method AddTable(root: nat, ghost p: Path, t: nat, i: nat, attribute: nat) returns (r: Option<nat>)
      requires Valid() && TablesOk(mem, root) && Attribute(attribute)
      requires IsTable(mem, root, p) && |p| < 2 && Node(mem, root, p) == Some(t) && t in mem
      requires i < ENTRIES && !IsValid(mem[t][i])
      modifies this
      ensures Valid() && trace == old(trace) && Grows(old(mem), mem, root)
      ensures r == None ==> mem == old(mem) && heap == old(heap)
      ensures r.Some? ==> IsPath(p + [i]) && Node(mem, root, p + [i]) == r
      ensures r.Some? ==> forall q | IsPath(q) && q != p + [i] :: Node(mem, root, q) == Node(old(mem), root, q)
      ensures r.Some? ==> Linked(old(mem), mem, t, i, r.value, attribute)
      ensures Grew(old(heap), old(mem), heap, mem)
      ensures r == None <==> FreePages(old(heap)) == 0
      ensures r.Some? ==> Spent(old(heap), heap, 1)
    {
      ghost var m0 := mem;
      GrowsRefl(mem, root);
      r := NewTable(t, i, attribute);
      if r.Some? {
        TableAdded(m0, root, p, t, i, attribute, r.value);
      }
    }

    /** A fresh page and its entry in the table `t`. */
    method NewTable(t: nat, i: nat, attribute: nat) returns (r: Option<nat>)
      requires Valid() && t in mem && i < ENTRIES
      modifies this
      ensures Valid() && trace == old(trace) && Grew(old(heap), old(mem), heap, mem)
      ensures r == None ==> mem == old(mem) && heap == old(heap)
      ensures r.Some? ==> r.value !in old(mem) && KernelPage(r.value)
      ensures r.Some? ==> Linked(old(mem), mem, t, i, r.value, attribute)
      ensures r == None <==> FreePages(old(heap)) == 0
      ensures r.Some? ==> Spent(old(heap), heap, 1)
    {
      r := Kalloc();
      if r.Some? {
        ghost var m1 := mem;
        StoreKeys(mem, t, i, TableEntry(r.value, attribute));
        SetEntry(t, i, TableEntry(r.value, attribute));
        GrewStore(old(heap), old(mem), heap, m1, mem);
      }
    }

    /** find_pud_entry: the last-level table for `v`, with missing tables added when asked for. */
    method FindPudEntry(root: nat, v: nat, alloc: bool, attribute: nat) returns (r: Option<nat>)
      requires Valid() && TablesOk(mem, root) && (alloc ==> Attribute(attribute))
      modifies this
      ensures Valid() && trace == old(trace) && Grows(old(mem), mem, root)
      ensures !alloc ==> mem == old(mem) && heap == old(heap)
      ensures r == Node(mem, root, LeafTable(v)) && Grew(old(heap), old(mem), heap, mem)
      ensures alloc ==> (r == None <==> FreePages(old(heap)) < Missing(old(mem), root, v))
      ensures alloc && r.Some? ==> Spent(old(heap), heap, Missing(old(mem), root, v))
    {
      NoLeafTable(mem, root, v);
      var t := FindPgdEntry(root, v, alloc, attribute);
      ghost var h1, m1 := heap, mem;
      if t == None {
        NoLeafTable(mem, root, v);
        return None;
      }
      r := FindInTable(root, t.value, v, alloc, attribute);
      BothGrow(old(heap), old(mem), h1, m1, heap, mem, root);
    }

    /** The second half of find_pud_entry, in the level-1 table `t`. */
    method FindInTable(root: nat, t: nat, v: nat, alloc: bool, attribute: nat) returns (r: Option<nat>)
      requires Valid() && TablesOk(mem, root) && (alloc ==> Attribute(attribute))
      requires Node(mem, root, [Index(v, 0)]) == Some(t)
      modifies this
      ensures Valid() && trace == old(trace) && Grows(old(mem), mem, root)
      ensures !alloc ==> mem == old(mem) && heap == old(heap)
      ensures r == Node(mem, root, LeafTable(v)) && Grew(old(heap), old(mem), heap, mem)
      ensures alloc ==> (r == None <==> Node(old(mem), root, LeafTable(v)) == None && FreePages(old(heap)) == 0)
      ensures r.Some? ==> Spent(old(heap), heap, if Node(old(mem), root, LeafTable(v)) == None then 1 else 0)
      ensures r.Some? && Node(old(mem), root, LeafTable(v)) == None ==>
                Linked(old(mem), mem, t, Index(v, 1), r.value, attribute)
    {
      var j := Index(v, 1);
      ghost var i := Index(v, 0);
      NodeStep(mem, root, [i], j);
      assert [i] + [j] == LeafTable(v);
      assert IsTable(mem, root, [i]) && TableOk(mem, t, 1);
      GrowsRefl(mem, root);
      GrewNone(heap, mem, mem);
      if IsValid(mem[t][j]) {
        return Some(ChildAddr(mem[t][j]));
      }
      if !alloc {
        return None;
      }
      r := AddTable(root, [i], t, j, attribute);
      if r == None {
        NodeStep(mem, root, [i], j);
      }
    }

    /** map_page.  On success exactly the page of `v` is mapped, to `pa`; on failure no translation
        changes, even when an upper table was added. */
    method MapPage(root: nat, v: nat, pa: nat, attribute: nat) returns (ok: bool)
      requires Valid() && TablesOk(mem, root) && Attribute(attribute)
      requires v - v % PAGE_SIZE + PAGE_SIZE < MEMORY_END && UserAddress(v)
      requires pa % PAGE_SIZE == 0 && pa + PAGE_SIZE <= 0x3000_0000
      requires Walk(mem, root, v) == None
      modifies this
      ensures Valid() && trace == old(trace)
      ensures ok ==> Maps(old(mem), mem, root, v, pa, attribute) && Leaf(mem, root, v) == Some(pa + attribute)
      ensures !ok ==> Grows(old(mem), mem, root)
      ensures Grew(old(heap), old(mem), heap, mem)
      ensures ok <==> FreePages(old(heap)) >= Missing(old(mem), root, v)
      ensures ok ==> Spent(old(heap), heap, Missing(old(mem), root, v))
    {
      var vstart := PaDown(v);
      ok := MapStart(root, vstart, pa, attribute);
      if ok {
        MapsPageDown(old(mem), mem, root, v, vstart, pa, attribute);
        MappedLeaf(old(mem), mem, root, v, pa, attribute);
      }
    }

    /** PA_DOWN: the start of the page, which has the same indices. */
    static method PaDown(v: nat) returns (d: nat)
      requires UserAddress(v)
      ensures d % PAGE_SIZE == 0 && d <= v && SamePage(v, d) && UserAddress(d)
      ensures LeafTable(d) == LeafTable(v) && LeafPath(d) == LeafPath(v)
      ensures forall m, root :: Walk(m, root, v) == None ==> Walk(m, root, d) == None
      ensures forall m, root :: Missing(m, root, d) == Missing(m, root, v)
    {
      d := v - v % PAGE_SIZE;
      SamePageIndices(v);
    }

    /** The rest of map_page, from the rounded-down address. */
    method MapStart(root: nat, vstart: nat, pa: nat, attribute: nat) returns (ok: bool)
      requires Valid() && TablesOk(mem, root) && Attribute(attribute) && UserAddress(vstart)
      requires pa % PAGE_SIZE == 0 && pa + PAGE_SIZE <= 0x3000_0000
      requires Walk(mem, root, vstart) == None
      modifies this
      ensures Valid() && trace == old(trace)
      ensures ok ==> Maps(old(mem), mem, root, vstart, pa, attribute)
      ensures !ok ==> Grows(old(mem), mem, root)
      ensures Grew(old(heap), old(mem), heap, mem)
      ensures ok <==> FreePages(old(heap)) >= Missing(old(mem), root, vstart)
      ensures ok ==> Spent(old(heap), heap, Missing(old(mem), root, vstart))
    {
      var t := FindPudEntry(root, vstart, true, attribute);
      if t == None {
        return false;
      }
      ghost var m1 := mem;
      BlockStored(old(mem), mem, root, vstart, pa, attribute, t.value);
      SetEntry(t.value, Index(vstart, 2), BlockEntry(pa, attribute));
      GrewStore(old(heap), old(mem), heap, m1, mem);
      return true;
    }

    /** free_table: children first, then the child table or block, never a page already freed. */
    method FreeTable(table: nat, level: nat)
      requires Valid() && Freeable(mem, table, level)
      modifies this
      ensures Valid()
      ensures trace == old(trace) + Rounds(old(mem), table, level, ENTRIES)
      ensures mem == Minus(old(mem), Rounds(old(mem), table, level, ENTRIES))
      ensures BuddyRuns.Frees(old(heap), Rounds(old(mem), table, level, ENTRIES), heap)
      decreases 2 - level, 2
    {
      ghost var m0 := mem;
      NoRounds(m0, table, level);
      BuddyRuns.FreesNone(heap);
      for i := 0 to ENTRIES
        invariant Valid()
        invariant trace == old(trace) + Rounds(m0, table, level, i)
        invariant mem == Minus(m0, Rounds(m0, table, level, i))
        invariant BuddyRuns.Frees(old(heap), Rounds(m0, table, level, i), heap)
      {
        TableIntact(m0, table, level, i, mem);
        var e := mem[table][i];
        Round(m0, table, level, i, mem, e);
        Assoc(old(trace), Rounds(m0, table, level, i), FreedEntry(m0, e, level), Rounds(m0, table, level, i + 1));
        ghost var h1 := heap;
        FreeEntry(m0, e, level);
        BuddyRuns.FreesConcat(old(heap), Rounds(m0, table, level, i), h1, FreedEntry(m0, e, level), heap);
      }
    }

    /** One round of free_table. */
    method FreeEntry(ghost m0: Memory, e: nat, level: nat)
      requires Valid() && level <= 2 && Intact(m0, mem, FreedEntry(m0, e, level))
      modifies this
      ensures Valid()
      ensures trace == old(trace) + FreedEntry(m0, e, level) && mem == Minus(old(mem), FreedEntry(m0, e, level))
      ensures BuddyRuns.Frees(old(heap), FreedEntry(m0, e, level), heap)
      decreases 2 - level, 1
    {
      if IsValid(e) {
        assert ChildAddr(e) in FreedEntry(m0, e, level);
        if level < 2 {
          FreeSubtree(m0, e, level);
        } else {
          BlockEntryFreed(old(mem), old(trace), ChildAddr(e));
          Kfree(ChildAddr(e));
        }
      } else {
        NothingFreed(mem, trace);
        BuddyRuns.FreesNone(heap);
      }
    }

    /** A valid entry above the last level: the entries of the child table, then the table. */
    method FreeSubtree(ghost m0: Memory, e: nat, level: nat)
      requires Valid() && level < 2 && Intact(m0, mem, FreedEntry(m0, e, level))
      requires IsValid(e) && ChildAddr(e) in FreedEntry(m0, e, level)
      modifies this
      ensures Valid()
      ensures trace == old(trace) + FreedEntry(m0, e, level) && mem == Minus(old(mem), FreedEntry(m0, e, level))
      ensures BuddyRuns.Frees(old(heap), FreedEntry(m0, e, level), heap)
      decreases 2 - level, 0
    {
      var c := ChildAddr(e);
      ChildFreeable(m0, mem, e, level);
      ghost var sub := Rounds(mem, c, level + 1, ENTRIES);
      FreeTable(c, level + 1);
      ghost var h1 := heap;
      Kfree(c);
      EntryDone(old(heap), old(mem), old(trace), sub, c, h1, heap);
    }

    /** free_page. */
    method FreePage(root: nat, v: nat)
      requires Valid() && TablesOk(mem, root) && Exclusive(mem, root)
      modifies this
      ensures Valid() && mem == PageFreed(old(mem), root, v) && trace == old(trace) + PageList(old(mem), root, v)
      ensures BuddyRuns.Frees(old(heap), PageList(old(mem), root, v), heap)
    {
      var i := Index(v, 2);
      BuddyRuns.FreesNone(heap);
      var t := FindPudEntry(root, v, false, 0);
      NodeStep(mem, root, LeafTable(v), i);
      assert LeafTable(v) + [i] == LeafPath(v);
      if t.Some? {
        LeafBlock(mem, root, v);
        var e := mem[t.value][i];
        if IsValid(e) {
          assert LeafTable(v) != LeafPath(v);
          Kfree(P2V(PteAddr(e)));
          SetEntry(t.value, i, 0);
        }
      }
    }

    /** free_vm: every page of the address space, each once, children before parents. */
    method FreeVm(root: nat)
      requires Valid() && TablesOk(mem, root) && Exclusive(mem, root)
      modifies this
      ensures Valid() && root in PageFreed(old(mem), root, USER_PAGE)
      ensures trace == old(trace) + VmList(old(mem), root)
      ensures mem == Minus(old(mem), VmList(old(mem), root))
      ensures BuddyRuns.Frees(old(heap), VmList(old(mem), root), heap)
    {
      ghost var m0 := mem;
      RootStays(m0, root);
      FreePage(root, USER_PAGE);
      PageFreedPaths(m0, root, USER_PAGE);
      TreeFreeable(mem, root);
      ghost var h1, m1 := heap, mem;
      FreeTable(root, 0);
      TableOutlives(m1, root);
      ghost var h2 := heap;
      Kfree(root);
      VmDone(m0, m1, root, old(trace), trace, mem);
      VmHeap(m0, m1, root, old(heap), h1, h2, heap);
    }

    /** map_page of an allocated page at the user address. */
    method MapUser(root: nat, page: nat) returns (ok: bool)
      requires Valid() && TablesOk(mem, root) && Walk(mem, root, USER_PAGE) == None && page in mem
      modifies this
      ensures Valid() && trace == old(trace) && P2V(V2P(page)) == page
      ensures ok ==> Maps(old(mem), mem, root, USER_PAGE, V2P(page), USER_ATTRIBUTE)
      ensures !ok ==> Grows(old(mem), mem, root)
      ensures Grew(old(heap), old(mem), heap, mem)
      ensures ok <==> FreePages(old(heap)) >= Missing(old(mem), root, USER_PAGE)
      ensures ok ==> Spent(old(heap), heap, Missing(old(mem), root, USER_PAGE))
    {
      KeyIsPage(heap, size, mem.Keys, |trace|, page);
      UserPageMappable();
      ok := MapPage(root, USER_PAGE, V2P(page), USER_ATTRIBUTE);
    }

    /** memcpy or a file read into a whole page. */
    method FillPage(page: nat, contents: Page)
      requires Valid() && page in mem
      modifies this
      ensures Valid() && trace == old(trace) && heap == old(heap) && mem == old(mem)[page := contents]
    {
      ghost var keys := mem.Keys;
      mem := mem[page := contents];
      assert mem.Keys == keys;
    }

    /** The kernel address of the page mapped at the user address. */
    method UserPage(root: nat) returns (page: nat)
      requires Valid() && TablesOk(mem, root) && Node(mem, root, LeafPath(USER_PAGE)).Some?
      modifies this
      ensures Valid() && trace == old(trace) && heap == old(heap) && mem == old(mem)
      ensures Node(mem, root, LeafPath(USER_PAGE)) == Some(page)
    {
      var pd := FindPudEntry(root, USER_PAGE, false, 0);
      LeafIsBlock(mem, root, USER_PAGE);
      LeafBlock(mem, root, USER_PAGE);
      page := P2V(PteAddr(mem[pd.value][Index(USER_PAGE, 2)]));
    }

    /** The part of copy_uvm before map_page: a fresh page with the bytes of the user page. */
    method CopyOfUserPage(src: nat) returns (r: Option<nat>)
      requires Valid() && TablesOk(mem, src) && Exclusive(mem, src) && Node(mem, src, LeafPath(USER_PAGE)).Some?
      modifies this
      ensures Valid() && trace == old(trace)
      ensures r == None ==> mem == old(mem)
      ensures r.Some? ==> r.value !in old(mem) && mem == WithCopy(old(mem), src, r.value) && KernelPage(r.value)
      ensures Grew(old(heap), old(mem), heap, mem)
      ensures r == None <==> FreePages(old(heap)) == 0
      ensures r.Some? ==> Spent(old(heap), heap, 1)
    {
      ghost var m0 := mem;
      r := Kalloc();
      if r.Some? {
        FreshFrame(m0, ZeroPage(), src, r.value);
        var from := UserPage(src);
        CopyValue(m0, mem, src, r.value, from);
        ghost var m1 := mem;
        FillPage(r.value, mem[from]);
        GrewStore(old(heap), m0, heap, m1, mem);
      }
    }

    /** copy_uvm for a whole page: `dst` gains at the user address a fresh copy of the user page of `src`. */
    method CopyUvm(dst: nat, src: nat) returns (ok: bool, ghost page: nat)
      requires Valid() && TablesOk(mem, dst) && TablesOk(mem, src) && Exclusive(mem, dst) && Exclusive(mem, src)
      requires Node(mem, src, LeafPath(USER_PAGE)).Some? && Walk(mem, dst, USER_PAGE) == None
      modifies this
      ensures Valid() && trace == old(trace) && Grew(old(heap), old(mem), heap, mem)
      ensures ok ==> Attached(old(mem), mem, dst, page, old(mem)[Node(old(mem), src, LeafPath(USER_PAGE)).value])
      ensures !ok ==> mem == old(mem) || (page !in old(mem) && Grows(WithCopy(old(mem), src, page), mem, dst))
      ensures ok <==> FreePages(old(heap)) >= 1 + Missing(old(mem), dst, USER_PAGE)
      ensures ok ==> Spent(old(heap), heap, 1 + Missing(old(mem), dst, USER_PAGE))
    {
      ghost var m0 := mem;
      var r := CopyOfUserPage(src);
      if r == None {
        return false, 0;
      }
      page := r.value;
      ghost var h1, m1 := heap, mem;
      FreshFrame(m0, m1[page], dst, page);
      ok := MapUser(dst, r.value);
      GrewTrans(old(heap), m0, h1, m1, heap, mem);
      if ok {
        MapsAttaches(m0, m1, mem, dst, page, m1[page]);
      }
    }

    /** setup_uvm: `image` is what opening and reading the program file puts into the page, or None
        when either fails.  A failure after the first kalloc frees the whole space and nothing else. */
    method SetupUvm(root: nat, image: Option<Page>) returns (ok: bool, ghost page: nat)
      requires Valid() && TablesOk(mem, root) && Exclusive(mem, root) && Walk(mem, root, USER_PAGE) == None
      modifies this
      ensures Valid()
      ensures ok ==> image.Some? && Attached(old(mem), mem, root, page, image.value) && trace == old(trace)
      ensures !ok ==> mem == old(mem) || Undone(old(mem), mem, root)
      ensures ok <==> image.Some? && FreePages(old(heap)) >= 1 + Missing(old(mem), root, USER_PAGE)
      ensures ok ==> Spent(old(heap), heap, 1 + Missing(old(mem), root, USER_PAGE))
    {
      ghost var m0 := mem;
      var r := Kalloc();
      if r == None {
        return false, 0;
      }
      page := r.value;
      ghost var m1 := mem;
      FreshFrame(m0, ZeroPage(), root, page);
      ok := MapUser(root, r.value);
      ghost var m2 := mem;
      if ok {
        MapsAttaches(m0, m1, m2, root, page, ZeroPage());
        if image == None {
          ok := false;
          VmUndone(mem, root);
          FreeVm(root);
          GainsUndone(m0, m2, mem, root);
        } else {
          AttachedFill(m0, m2, root, page, ZeroPage(), image.value);
          FillPage(r.value, image.value);
        }
      } else {
        GrownUndone(m0, m1, m2, root, page, ZeroPage());
        Kfree(r.value);
        VmUndone(mem, root);
        FreeVm(root);
        GainsUndone(m0, m2 - {page}, mem, root);
      }
    }
  }
}
