/** Page tables as trees, the hardware's walk, and what adding one entry does to them. */
module PageTree {
  import opened Wrappers
  import opened Pages
  import opened Bits
  import opened PageTables

  /** Entry indices from the root: a path of length 1 or 2 leads to a table, of length 3 to a block. */
  type Path = seq<nat>

  predicate IsPath(p: Path) {
    |p| <= 3 && forall i | 0 <= i < |p| :: p[i] < ENTRIES
  }

  function Child(mem: Memory, t: nat, i: nat): Option<nat>
    requires i < ENTRIES
  {
    if t in mem && IsValid(mem[t][i]) then Some(ChildAddr(mem[t][i])) else None
  }

  /** The page that a path leads to, following valid entries as find_pgd_entry and find_pud_entry do. */
  function Node(mem: Memory, root: nat, p: Path): Option<nat>
    requires IsPath(p)
  {
    if p == [] then Some(root)
    else
      match Node(mem, root, p[..|p| - 1])
      case None => None
      case Some(t) => Child(mem, t, p[|p| - 1])
  }

  /** The entry is of the descriptor type its level calls for; a block's address has both masks. */
  predicate Typed(e: nat, level: nat) {
    if level < 2 then TableDescriptor(e) else BlockDescriptor(e) && PteAddr(e) == PdeAddr(e)
  }

  ghost predicate TableOk(mem: Memory, t: nat, level: nat) {
    t in mem && forall i | 0 <= i < ENTRIES && IsValid(mem[t][i]) :: Typed(mem[t][i], level)
  }

  ghost predicate IsTable(mem: Memory, root: nat, p: Path) {
    IsPath(p) && |p| <= 2 && Node(mem, root, p).Some?
  }

  /** The tables under `root` are allocated and form a tree: no table is reached by two paths. */
  ghost predicate TablesOk(mem: Memory, root: nat) {
    && (forall p | IsTable(mem, root, p) :: TableOk(mem, Node(mem, root, p).value, |p|))
    && (forall p, q | IsTable(mem, root, p) && IsTable(mem, root, q) && Node(mem, root, p) == Node(mem, root, q) ::
          p == q)
  }

  // ------------------------------------------------------------ the hardware walk

  function NextTable(mem: Memory, t: nat, i: nat): Option<nat>
    requires i < ENTRIES
  {
    if t in mem && TableDescriptor(mem[t][i]) then Some(P2V(PdeAddr(mem[t][i]))) else None
  }

  /** The block descriptor that three indices lead to, or None for a fault at some level. */
  function LeafEntry(mem: Memory, root: nat, i: nat, j: nat, k: nat): Option<nat>
    requires i < ENTRIES && j < ENTRIES && k < ENTRIES
  {
    match NextTable(mem, root, i)
    case None => None
    case Some(t1) =>
      match NextTable(mem, t1, j)
      case None => None
      case Some(t2) => if t2 in mem && BlockDescriptor(mem[t2][k]) then Some(mem[t2][k]) else None
  }

  /** The block descriptor that the hardware reads for a virtual address, or None for a fault. */
  function Leaf(mem: Memory, root: nat, v: nat): Option<nat> {
    LeafEntry(mem, root, Index(v, 0), Index(v, 1), Index(v, 2))
  }

  /** Translation of a virtual address by the descriptors in memory, or None for a fault. */
  function Walk(mem: Memory, root: nat, v: nat): Option<nat> {
    match Leaf(mem, root, v)
    case None => None
    case Some(e) => Some(PteAddr(e) + v % PAGE_SIZE)
  }

  predicate UserAddress(v: nat) { v < 0x1_0000_0000_0000 }

  predicate SamePage(v: nat, w: nat) { v / PAGE_SIZE == w / PAGE_SIZE }

  lemma PathStep(p: Path, i: nat)
    requires IsPath(p) && |p| <= 2 && i < ENTRIES
    ensures IsPath(p + [i]) && (p + [i])[..|p + [i]| - 1] == p && (p + [i])[|p + [i]| - 1] == i
  {
  }

  /** One step along a path, for a table known to be well formed. */
  lemma StepIsDescriptor(mem: Memory, t: nat, level: nat, i: nat)
    requires TableOk(mem, t, level) && level < 2 && i < ENTRIES
    ensures NextTable(mem, t, i) == Child(mem, t, i)
  {
    DescriptorIsValid(mem[t][i]);
  }

  lemma NodeStep(mem: Memory, root: nat, p: Path, i: nat)
    requires IsPath(p) && |p| <= 2 && i < ENTRIES
    ensures IsPath(p + [i])
    ensures Node(mem, root, p + [i]) ==
            match Node(mem, root, p) case None => None case Some(t) => Child(mem, t, i)
  {
    PathStep(p, i);
  }

  /** The entry at index `k` of the table at `p`, if valid. */
  function EntryAt(mem: Memory, root: nat, p: Path, k: nat): Option<nat>
    requires IsPath(p) && k < ENTRIES
  {
    match Node(mem, root, p)
    case None => None
    case Some(t) => if t in mem && IsValid(mem[t][k]) then Some(mem[t][k]) else None
  }

  /** On well-formed tables the hardware walk reads the entry that the software's paths lead to. */
  lemma LeafByPath(mem: Memory, root: nat, i: nat, j: nat, k: nat)
    requires TablesOk(mem, root) && i < ENTRIES && j < ENTRIES && k < ENTRIES
    ensures LeafEntry(mem, root, i, j, k) == EntryAt(mem, root, [i, j], k)
  {
    NodeStep(mem, root, [], i);
    assert [] + [i] == [i];
    NodeStep(mem, root, [i], j);
    assert [i] + [j] == [i, j];
    assert IsTable(mem, root, []);
    StepIsDescriptor(mem, root, 0, i);
    if IsTable(mem, root, [i]) {
      StepIsDescriptor(mem, Node(mem, root, [i]).value, 1, j);
      if IsTable(mem, root, [i, j]) {
        BlockIsValid(mem, Node(mem, root, [i, j]).value, k);
      }
    }
  }

  lemma BlockIsValid(mem: Memory, t: nat, k: nat)
    requires TableOk(mem, t, 2) && k < ENTRIES
    ensures BlockDescriptor(mem[t][k]) <==> IsValid(mem[t][k])
  {
    DescriptorIsValid(mem[t][k]);
  }

  /** Three nine-bit indices identify a 2 MB page of the 48-bit address space. */
  lemma IndicesIdentifyPage(v: nat, w: nat)
    requires UserAddress(v) && UserAddress(w)
    ensures SamePage(v, w) <==> Index(v, 0) == Index(w, 0) && Index(v, 1) == Index(w, 1) && Index(v, 2) == Index(w, 2)
  {
    IndexDigits(v);
    IndexDigits(w);
    if Index(v, 0) == Index(w, 0) && Index(v, 1) == Index(w, 1) && Index(v, 2) == Index(w, 2) {
      DigitsIdentify(v / PAGE_SIZE, w / PAGE_SIZE);
    }
  }

  lemma DigitsIdentify(m: nat, n: nat)
    requires m / 0x40000 == n / 0x40000 && m / 512 % 512 == n / 512 % 512 && m % 512 == n % 512
    ensures m == n
  {
    HalfDivs(m);
    HalfDivs(n);
  }

  lemma HalfDivs(m: nat)
    ensures m / 0x40000 == m / 512 / 512
  {
    DivModUnique(m, 0x40000, m / 512 / 512, m / 512 % 512 * 512 + m % 512);
  }

  lemma IndexDigits(v: nat)
    requires UserAddress(v)
    ensures var n := v / PAGE_SIZE;
            Index(v, 0) == n / 0x40000 && Index(v, 1) == n / 512 % 512 && Index(v, 2) == n % 512
  {
    IndexValue(v, 0);
    IndexValue(v, 1);
    IndexValue(v, 2);
    HighPowers();
    DigitsOf(v);
  }

  /** The indices are bits 47:39, 38:30 and 29:21 of the address. */
  lemma IndexBits(v: nat)
    ensures Index(v, 0) == v / 0x80_0000_0000 % 512
    ensures Index(v, 1) == v / 0x4000_0000 % 512
    ensures Index(v, 2) == v / 0x20_0000 % 512
  {
    IndexValue(v, 0);
    IndexValue(v, 1);
    IndexValue(v, 2);
    HighPowers();
  }

  lemma HighPowers()
    ensures Pow2(21) == PAGE_SIZE && Pow2(30) == PAGE_SIZE * 512 && Pow2(39) == PAGE_SIZE * 0x40000
  {
    Powers();
    Pow2Add(21, 9);
    Pow2Add(30, 9);
  }

  lemma DigitsOf(v: nat)
    requires UserAddress(v)
    ensures v / (PAGE_SIZE * 512) == v / PAGE_SIZE / 512
    ensures v / (PAGE_SIZE * 0x40000) % 512 == v / PAGE_SIZE / 0x40000
  {
    var n, r := v / PAGE_SIZE, v % PAGE_SIZE;
    DivModUnique(v, PAGE_SIZE * 512, n / 512, n % 512 * PAGE_SIZE + r);
    DivModUnique(v, PAGE_SIZE * 0x40000, n / 0x40000, n % 0x40000 * PAGE_SIZE + r);
  }

  // -------------------------------------------------------------- adding an entry

  /** A page cleared by memset. */
  function ZeroPage(): (p: Page)
    ensures forall i | 0 <= i < WORDS :: p[i] == 0
  {
    seq(WORDS, _ => 0)
  }

  /** Memory after storing `e` at index `i` of table `t`. */
  function Store(mem: Memory, t: nat, i: nat, e: nat): Memory
    requires t in mem && i < WORDS
  {
    mem[t := mem[t][i := e]]
  }

  lemma ZeroHasNoChildren(mem: Memory, t: nat, i: nat)
    requires t in mem && mem[t] == ZeroPage() && i < ENTRIES
    ensures Child(mem, t, i) == None
  {
    ValidIsOdd(0);
  }

  /** The new entry `e` at index `i` of the table at path `p` leads to `x`, an empty table if the
      level is not the last. */
  ghost predicate Adds(mem: Memory, mem': Memory, root: nat, p: Path, i: nat, e: nat, x: nat) {
    IsTable(mem, root, p) && AddsAt(mem, mem', Node(mem, root, p).value, |p|, i, e, x)
  }

  ghost predicate AddsAt(mem: Memory, mem': Memory, t: nat, level: nat, i: nat, e: nat, x: nat) {
    && t in mem && i < ENTRIES
    && !IsValid(mem[t][i]) && IsValid(e) && Typed(e, level) && ChildAddr(e) == x
    && (level < 2 ==> x !in mem && mem' == Store(mem[x := ZeroPage()], t, i, e))
    && (level == 2 ==> mem' == Store(mem, t, i, e))
  }

  /** Entries other than the added one read the same. */
  lemma OtherChildren(mem: Memory, mem': Memory, t: nat, level: nat, i: nat, e: nat, x: nat, t0: nat, j: nat)
    requires AddsAt(mem, mem', t, level, i, e, x) && t0 in mem && level <= 2 && j < ENTRIES
    ensures Child(mem', t0, j) == if t0 == t && j == i then Some(x) else Child(mem, t0, j)
  {
  }

  /** Adding an entry adds exactly one path and leaves every other path as it was. */
  lemma {:induction false} AddedPaths(mem: Memory, mem': Memory, root: nat, p: Path, i: nat, e: nat, x: nat, q: Path)
    requires TablesOk(mem, root) && Adds(mem, mem', root, p, i, e, x) && IsPath(q)
    ensures Node(mem', root, q) == if q == p + [i] then Some(x) else Node(mem, root, q)
    decreases |q|
  {
    var t := Node(mem, root, p).value;
    if q != [] {
      var q0, j := q[..|q| - 1], q[|q| - 1];
      assert q == q0 + [j];
      AddedPaths(mem, mem', root, p, i, e, x, q0);
      if q0 == p + [i] {
        ZeroHasNoChildren(mem', x, j);
        NodeStep(mem, root, p, i);
      } else if IsTable(mem, root, q0) {
        var t0 := Node(mem, root, q0).value;
        assert TableOk(mem, t0, |q0|);
        OtherChildren(mem, mem', t, |p|, i, e, x, t0, j);
        if t0 == t {
          assert q0 == p;
        }
      }
    }
  }

  lemma AddedTablesOk(mem: Memory, mem': Memory, root: nat, p: Path, i: nat, e: nat, x: nat)
    requires TablesOk(mem, root) && Adds(mem, mem', root, p, i, e, x)
    ensures TablesOk(mem', root)
  {
    var t := Node(mem, root, p).value;
    forall q | IsTable(mem', root, q) ensures TableOk(mem', Node(mem', root, q).value, |q|) {
      AddedPaths(mem, mem', root, p, i, e, x, q);
      if q == p + [i] {
        ValidIsOdd(0);
      } else {
        var t0 := Node(mem, root, q).value;
        assert IsTable(mem, root, q);
        assert TableOk(mem, t0, |q|);
        if t0 == t {
          assert q == p;
        }
      }
    }
    forall q, r | IsTable(mem', root, q) && IsTable(mem', root, r) && Node(mem', root, q) == Node(mem', root, r)
      ensures q == r
    {
      AddedPaths(mem, mem', root, p, i, e, x, q);
      AddedPaths(mem, mem', root, p, i, e, x, r);
      assert q != p + [i] ==> IsTable(mem, root, q);
      assert r != p + [i] ==> IsTable(mem, root, r);
    }
  }

  /** Adding an empty upper table changes no last-level entry. */
  lemma GrowKeepsEntries(mem: Memory, mem': Memory, root: nat, p: Path, i: nat, e: nat, x: nat, q: Path, k: nat)
    requires TablesOk(mem, root) && Adds(mem, mem', root, p, i, e, x) && |p| < 2
    requires IsPath(q) && |q| == 2 && k < ENTRIES
    ensures EntryAt(mem', root, q, k) == EntryAt(mem, root, q, k)
  {
    AddedPaths(mem, mem', root, p, i, e, x, q);
    if q == p + [i] {
      NodeStep(mem, root, p, i);
      ValidIsOdd(0);
    } else if IsTable(mem, root, q) {
      assert TableOk(mem, Node(mem, root, q).value, 2);
      assert q != p;
    }
  }

  /** Adding a last-level entry sets exactly that entry. */
  lemma MapSetsOneEntry(mem: Memory, mem': Memory, root: nat, p: Path, i: nat, e: nat, x: nat, q: Path, k: nat)
    requires TablesOk(mem, root) && Adds(mem, mem', root, p, i, e, x) && |p| == 2
    requires IsPath(q) && |q| == 2 && k < ENTRIES
    ensures EntryAt(mem', root, q, k) == if q == p && k == i then Some(e) else EntryAt(mem, root, q, k)
  {
    AddedPaths(mem, mem', root, p, i, e, x, q);
    if IsTable(mem, root, q) {
      assert TableOk(mem, Node(mem, root, q).value, 2);
      if Node(mem, root, q) == Node(mem, root, p) {
        assert q == p;
      }
    }
  }

  lemma GrowKeepsLeaf(mem: Memory, mem': Memory, root: nat, p: Path, i: nat, e: nat, x: nat, a: nat, b: nat, c: nat)
    requires TablesOk(mem, root) && Adds(mem, mem', root, p, i, e, x) && |p| < 2
    requires a < ENTRIES && b < ENTRIES && c < ENTRIES
    ensures LeafEntry(mem', root, a, b, c) == LeafEntry(mem, root, a, b, c)
  {
    AddedTablesOk(mem, mem', root, p, i, e, x);
    LeafByPath(mem, root, a, b, c);
    LeafByPath(mem', root, a, b, c);
    GrowKeepsEntries(mem, mem', root, p, i, e, x, [a, b], c);
  }

  lemma MapSetsOneLeaf(mem: Memory, mem': Memory, root: nat, p: Path, i: nat, e: nat, x: nat, a: nat, b: nat, c: nat)
    requires TablesOk(mem, root) && Adds(mem, mem', root, p, i, e, x) && |p| == 2
    requires a < ENTRIES && b < ENTRIES && c < ENTRIES
    ensures LeafEntry(mem', root, a, b, c) ==
            if a == p[0] && b == p[1] && c == i then Some(e) else LeafEntry(mem, root, a, b, c)
  {
    AddedTablesOk(mem, mem', root, p, i, e, x);
    LeafByPath(mem, root, a, b, c);
    LeafByPath(mem', root, a, b, c);
    MapSetsOneEntry(mem, mem', root, p, i, e, x, [a, b], c);
    assert [a, b] == p <==> a == p[0] && b == p[1];
  }

  lemma GrowKeepsTranslations(mem: Memory, mem': Memory, root: nat, p: Path, i: nat, e: nat, x: nat, v: nat)
    requires TablesOk(mem, root) && Adds(mem, mem', root, p, i, e, x) && |p| < 2
    ensures Leaf(mem', root, v) == Leaf(mem, root, v)
  {
    GrowKeepsLeaf(mem, mem', root, p, i, e, x, Index(v, 0), Index(v, 1), Index(v, 2));
  }

  /** The new translation function as a finite-map update: the page of `v` has the descriptor `e`. */
  ghost predicate MapsOnePage(mem: Memory, mem': Memory, root: nat, v: nat, e: nat) {
    forall w: nat | UserAddress(w) ::
      Leaf(mem', root, w) == if SamePage(v, w) then Some(e) else Leaf(mem, root, w)
  }

  /** Adding a block maps exactly its page and changes no other translation. */
  lemma MapSetsOnePage(mem: Memory, mem': Memory, root: nat, v: nat, e: nat, x: nat)
    requires TablesOk(mem, root) && UserAddress(v)
    requires Adds(mem, mem', root, [Index(v, 0), Index(v, 1)], Index(v, 2), e, x)
    ensures MapsOnePage(mem, mem', root, v, e)
  {
    forall w: nat | UserAddress(w)
      ensures Leaf(mem', root, w) == if SamePage(v, w) then Some(e) else Leaf(mem, root, w)
    {
      IndicesIdentifyPage(v, w);
      LeafUpdate(mem, mem', root, Index(v, 0), Index(v, 1), Index(v, 2), e, x, w, SamePage(v, w));
    }
  }

  lemma LeafUpdate(mem: Memory, mem': Memory, root: nat, i: nat, j: nat, k: nat, e: nat, x: nat, w: nat, same: bool)
    requires TablesOk(mem, root) && i < ENTRIES && j < ENTRIES && k < ENTRIES
    requires Adds(mem, mem', root, [i, j], k, e, x)
    requires same <==> i == Index(w, 0) && j == Index(w, 1) && k == Index(w, 2)
    ensures Leaf(mem', root, w) == if same then Some(e) else Leaf(mem, root, w)
  {
    MapSetsOneLeaf(mem, mem', root, [i, j], k, e, x, Index(w, 0), Index(w, 1), Index(w, 2));
  }

  // ------------------------------------------------------------------- framing

  /** The tables under `root` read the same in both memories. */
  ghost predicate SameTables(m: Memory, m': Memory, root: nat) {
    forall p | IsTable(m, root, p) :: var t := Node(m, root, p).value; t in m && t in m' && m'[t] == m[t]
  }

  lemma {:induction false} NodeFrame(m: Memory, m': Memory, root: nat, q: Path)
    requires SameTables(m, m', root) && IsPath(q)
    ensures Node(m', root, q) == Node(m, root, q)
    decreases |q|
  {
    if q != [] {
      var q0 := q[..|q| - 1];
      NodeFrame(m, m', root, q0);
      if Node(m, root, q0).Some? {
        assert IsTable(m, root, q0);
      }
    }
  }

  /** Only the tables under a root matter to its address space. */
  lemma TablesFrame(m: Memory, m': Memory, root: nat)
    requires SameTables(m, m', root)
    ensures forall q | IsPath(q) :: Node(m', root, q) == Node(m, root, q)
    ensures TablesOk(m, root) ==> TablesOk(m', root) && forall w: nat :: Leaf(m', root, w) == Leaf(m, root, w)
  {
    forall q | IsPath(q) ensures Node(m', root, q) == Node(m, root, q) {
      NodeFrame(m, m', root, q);
    }
    if TablesOk(m, root) {
      TablesOkFrame(m, m', root);
      forall w: nat ensures Leaf(m', root, w) == Leaf(m, root, w) {
        LeafFrame(m, m', root, Index(w, 0), Index(w, 1), Index(w, 2));
      }
    }
  }

  lemma TablesOkFrame(m: Memory, m': Memory, root: nat)
    requires SameTables(m, m', root) && TablesOk(m, root)
    requires forall q | IsPath(q) :: Node(m', root, q) == Node(m, root, q)
    ensures TablesOk(m', root)
  {
    forall p | IsTable(m', root, p) ensures TableOk(m', Node(m', root, p).value, |p|) {
      assert IsTable(m, root, p);
    }
    forall p, q | IsTable(m', root, p) && IsTable(m', root, q) && Node(m', root, p) == Node(m', root, q)
      ensures p == q
    {
      assert IsTable(m, root, p) && IsTable(m, root, q);
    }
  }

  lemma LeafFrame(m: Memory, m': Memory, root: nat, i: nat, j: nat, k: nat)
    requires SameTables(m, m', root) && TablesOk(m, root) && TablesOk(m', root)
    requires i < ENTRIES && j < ENTRIES && k < ENTRIES
    ensures LeafEntry(m', root, i, j, k) == LeafEntry(m, root, i, j, k)
  {
    LeafByPath(m, root, i, j, k);
    LeafByPath(m', root, i, j, k);
    NodeFrame(m, m', root, [i, j]);
    assert Node(m, root, [i, j]).Some? ==> IsTable(m, root, [i, j]);
  }
}
