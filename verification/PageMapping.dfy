/** What map_page, free_vm and copy_uvm do to the page-table trees, as relations between memories. */
module PageMapping {
  import opened Wrappers
  import opened Pages
  import opened PageTables
  import opened PageTree
  import opened PageTeardown

  /** Every address has the same translation, with the same attributes. */
  ghost predicate SameWalks(m: Memory, m': Memory, root: nat) {
    forall w: nat :: Leaf(m', root, w) == Leaf(m, root, w)
  }

  /** ENTRY_V | USER | NORMAL_MEMORY | ENTRY_ACCESSED */
  const USER_ATTRIBUTE: nat := 0x445

  ghost predicate IsTablePage(m: Memory, root: nat, x: nat) {
    exists p | IsTable(m, root, p) :: Node(m, root, p) == Some(x)
  }

  /** Only table pages of `root` change. */
  ghost predicate OtherPagesSame(m: Memory, m': Memory, root: nat) {
    forall x | x in m :: x in m' && (IsTablePage(m, root, x) || m'[x] == m[x])
  }

  /** Old paths stay, and new ones lead to freshly allocated tables. */
  ghost predicate PathsGrow(m: Memory, m': Memory, root: nat) {
    && (forall q | IsPath(q) && Node(m, root, q).Some? :: Node(m', root, q) == Node(m, root, q))
    && (forall q | IsPath(q) && Node(m', root, q).Some? && Node(m, root, q) == None ::
          |q| <= 2 && Node(m', root, q).value !in m && Node(m', root, q).value in m')
  }

  /** Every page allocated on the way is a table of `root`. */
  ghost predicate NewPagesLinked(m: Memory, m': Memory, root: nat) {
    forall x | x in m' && x !in m :: IsTablePage(m', root, x)
  }

  /** `m'` is `m` with empty upper tables added under `root`: no translation and no other page changes. */
  ghost predicate Grows(m: Memory, m': Memory, root: nat) {
    && TablesOk(m', root) && SameWalks(m, m', root) && OtherPagesSame(m, m', root)
    && PathsGrow(m, m', root) && NewPagesLinked(m, m', root)
  }

  lemma GrowsRefl(m: Memory, root: nat)
    requires TablesOk(m, root)
    ensures Grows(m, m, root)
  {
  }

  lemma StillNoTable(m: Memory, m': Memory, root: nat, x: nat)
    requires PathsGrow(m, m', root) && x in m && !IsTablePage(m, root, x)
    ensures !IsTablePage(m', root, x)
  {
    forall p | IsTable(m', root, p) ensures Node(m', root, p) != Some(x) {
      if Node(m, root, p).Some? {
        assert IsTable(m, root, p);
      }
    }
  }

  lemma OtherPagesTrans(m: Memory, m1: Memory, m2: Memory, root: nat)
    requires OtherPagesSame(m, m1, root) && PathsGrow(m, m1, root) && OtherPagesSame(m1, m2, root)
    ensures OtherPagesSame(m, m2, root)
  {
    forall x | x in m ensures x in m2 && (IsTablePage(m, root, x) || m2[x] == m[x]) {
      if !IsTablePage(m, root, x) {
        StillNoTable(m, m1, root, x);
      }
    }
  }

  lemma SameWalksTrans(m: Memory, m1: Memory, m2: Memory, root: nat)
    requires SameWalks(m, m1, root) && SameWalks(m1, m2, root)
    ensures SameWalks(m, m2, root)
  {
    forall w: nat ensures Leaf(m2, root, w) == Leaf(m, root, w) {
      assert Leaf(m1, root, w) == Leaf(m, root, w);
    }
  }

  lemma PathsGrowTrans(m: Memory, m1: Memory, m2: Memory, root: nat)
    requires PathsGrow(m, m1, root) && PathsGrow(m1, m2, root) && m.Keys <= m1.Keys <= m2.Keys
    ensures PathsGrow(m, m2, root)
  {
  }

  /** Table pages stay table pages when no path is lost. */
  lemma StillTable(m: Memory, m': Memory, root: nat, x: nat)
    requires forall q | IsPath(q) && Node(m, root, q).Some? :: Node(m', root, q) == Node(m, root, q)
    requires IsTablePage(m, root, x)
    ensures IsTablePage(m', root, x)
  {
    var p :| IsTable(m, root, p) && Node(m, root, p) == Some(x);
    assert IsTable(m', root, p);
  }

  lemma LinkedTrans(m: Memory, m1: Memory, m2: Memory, root: nat)
    requires forall q | IsPath(q) && Node(m1, root, q).Some? :: Node(m2, root, q) == Node(m1, root, q)
    requires NewPagesLinked(m, m1, root) && NewPagesLinked(m1, m2, root)
    ensures NewPagesLinked(m, m2, root)
  {
    forall x | x in m2 && x !in m ensures IsTablePage(m2, root, x) {
      if x in m1 {
        StillTable(m1, m2, root, x);
      }
    }
  }

  lemma GrowsTrans(m: Memory, m1: Memory, m2: Memory, root: nat)
    requires Grows(m, m1, root) && Grows(m1, m2, root)
    ensures Grows(m, m2, root)
  {
    SameWalksTrans(m, m1, m2, root);
    OtherPagesTrans(m, m1, m2, root);
    KeysGrow(m, m1, root);
    KeysGrow(m1, m2, root);
    PathsGrowTrans(m, m1, m2, root);
    LinkedTrans(m, m1, m2, root);
  }

  lemma KeysGrow(m: Memory, m': Memory, root: nat)
    requires OtherPagesSame(m, m', root)
    ensures m.Keys <= m'.Keys
  {
  }

  lemma AddGrows(m: Memory, m': Memory, root: nat, p: Path, i: nat, e: nat, x: nat)
    requires TablesOk(m, root) && Adds(m, m', root, p, i, e, x) && |p| < 2
    ensures Grows(m, m', root)
    ensures IsPath(p + [i]) && Node(m', root, p + [i]) == Some(x)
  {
    AddedTablesOk(m, m', root, p, i, e, x);
    NodeStep(m, root, p, i);
    forall w: nat ensures Leaf(m', root, w) == Leaf(m, root, w) {
      GrowKeepsTranslations(m, m', root, p, i, e, x, w);
    }
    forall q | IsPath(q) ensures Node(m', root, q) == if q == p + [i] then Some(x) else Node(m, root, q) {
      AddedPaths(m, m', root, p, i, e, x, q);
    }
    assert IsTablePage(m, root, Node(m, root, p).value);
    assert IsTable(m', root, p + [i]);
  }

  /** How many of the two tables on the way to the block entry of `v` are missing. */
  function Missing(m: Memory, root: nat, v: nat): nat {
    if Node(m, root, [Index(v, 0)]) == None then 2
    else if Node(m, root, LeafTable(v)) == None then 1
    else 0
  }

  /** Linking the fresh page `x` as an empty table. */
  lemma TableAdded(m: Memory, root: nat, p: Path, t: nat, i: nat, attribute: nat, x: nat)
    requires TablesOk(m, root) && IsTable(m, root, p) && |p| < 2 && Node(m, root, p) == Some(t) && t in m
    requires i < ENTRIES && !IsValid(m[t][i]) && Attribute(attribute) && KernelPage(x) && x !in m
    ensures var m' := Store(m[x := ZeroPage()], t, i, TableEntry(x, attribute));
            && m'.Keys == m.Keys + {x}
            && Grows(m, m', root) && IsPath(p + [i]) && Node(m', root, p + [i]) == Some(x)
            && forall q | IsPath(q) && q != p + [i] :: Node(m', root, q) == Node(m, root, q)
  {
    TableRoundTrip(x, attribute);
    var e := TableEntry(x, attribute);
    var m' := Store(m[x := ZeroPage()], t, i, e);
    AddGrows(m, m', root, p, i, e, x);
    forall q | IsPath(q) && q != p + [i] ensures Node(m', root, q) == Node(m, root, q) {
      AddedPaths(m, m', root, p, i, e, x, q);
    }
  }

  /** Old paths stay; the path of `v` leads to `x`; other new paths lead to freshly allocated tables. */
  ghost predicate PathsMapped(m: Memory, m': Memory, root: nat, v: nat, x: nat) {
    && (forall q | IsPath(q) && Node(m, root, q).Some? :: Node(m', root, q) == Node(m, root, q))
    && Node(m', root, LeafPath(v)) == Some(x)
    && (forall q | IsPath(q) && Node(m', root, q).Some? && Node(m, root, q) == None && q != LeafPath(v) ::
          |q| <= 2 && Node(m', root, q).value !in m && Node(m', root, q).value in m')
  }

  /** The address `pa` with attribute bits below it. */
  function Descriptor(pa: nat, attribute: nat): nat { pa + attribute }

  /** The effect of a successful map_page: for the page of `v` the hardware reads the address `pa` with the
      bits of `attribute` below it, and for every other page what it read before. */
  ghost predicate Maps(m: Memory, m': Memory, root: nat, v: nat, pa: nat, attribute: nat) {
    && TablesOk(m', root) && MapsOnePage(m, m', root, v, Descriptor(pa, attribute)) && OtherPagesSame(m, m', root)
    && PathsMapped(m, m', root, v, P2V(pa)) && NewPagesLinked(m, m', root)
  }

  /** So the page translates to `pa` and all others as before. */
  lemma MapsTranslates(m: Memory, m': Memory, root: nat, v: nat, pa: nat, attribute: nat, w: nat)
    requires MapsOnePage(m, m', root, v, Descriptor(pa, attribute)) && UserAddress(w) && Attribute(attribute)
    requires pa % PAGE_SIZE == 0 && pa < 0x1_0000_0000_0000
    ensures Walk(m', root, w) == if SamePage(v, w) then Some(pa + w % PAGE_SIZE) else Walk(m, root, w)
  {
    DescriptorAddress(pa, attribute);
    assert Leaf(m', root, w) == if SamePage(v, w) then Some(Descriptor(pa, attribute)) else Leaf(m, root, w);
  }

  lemma MappedLeaf(m: Memory, m': Memory, root: nat, v: nat, pa: nat, attribute: nat)
    requires MapsOnePage(m, m', root, v, Descriptor(pa, attribute)) && UserAddress(v)
    ensures Leaf(m', root, v) == Some(pa + attribute)
  {
  }

  lemma DescriptorAddress(pa: nat, attribute: nat)
    requires pa % PAGE_SIZE == 0 && pa < 0x1_0000_0000_0000 && Attribute(attribute)
    ensures PteAddr(Descriptor(pa, attribute)) == pa
  {
    BlockField(pa, attribute);
  }

  /** The assertion of map_page: an unmapped page has no valid leaf entry. */
  lemma UnmappedEntry(m: Memory, root: nat, v: nat)
    requires TablesOk(m, root) && Walk(m, root, v) == None
    requires Node(m, root, LeafTable(v)).Some?
    ensures var t := Node(m, root, LeafTable(v)).value; t in m && !IsValid(m[t][Index(v, 2)])
  {
    LeafByPath(m, root, Index(v, 0), Index(v, 1), Index(v, 2));
    assert IsTable(m, root, LeafTable(v));
  }

  lemma UnmappedPath(m: Memory, root: nat, v: nat)
    requires TablesOk(m, root)
    ensures Walk(m, root, v) == None <==> Node(m, root, LeafPath(v)) == None
  {
    LeafByPath(m, root, Index(v, 0), Index(v, 1), Index(v, 2));
    NodeStep(m, root, LeafTable(v), Index(v, 2));
    assert LeafTable(v) + [Index(v, 2)] == LeafPath(v);
  }

  /** The block entry that map_page stores. */
  lemma BlockAdds(m: Memory, m': Memory, root: nat, v: nat, pa: nat, attribute: nat)
    requires IsTable(m, root, LeafTable(v)) && Attribute(attribute)
    requires pa % PAGE_SIZE == 0 && pa + PAGE_SIZE <= 0x3000_0000
    requires var t := Node(m, root, LeafTable(v)).value;
             t in m && !IsValid(m[t][Index(v, 2)]) && m' == Store(m, t, Index(v, 2), BlockEntry(pa, attribute))
    ensures Adds(m, m', root, LeafTable(v), Index(v, 2), BlockEntry(pa, attribute), P2V(pa))
    ensures BlockEntry(pa, attribute) == Descriptor(pa, attribute)
  {
    BlockRoundTrip(pa, attribute);
    AlignedDown(pa);
    EntryValue(pa, attribute, BLOCK_ENTRY);
    AttributeBits(attribute);
  }

  lemma BlockMaps(m: Memory, m': Memory, root: nat, v: nat, pa: nat, attribute: nat)
    requires TablesOk(m, root) && UserAddress(v)
    requires Adds(m, m', root, LeafTable(v), Index(v, 2), Descriptor(pa, attribute), P2V(pa))
    ensures Maps(m, m', root, v, pa, attribute) && m'.Keys == m.Keys
  {
    var e := Descriptor(pa, attribute);
    MapSetsOnePage(m, m', root, v, e, P2V(pa));
    AddedTablesOk(m, m', root, LeafTable(v), Index(v, 2), e, P2V(pa));
    assert LeafTable(v) + [Index(v, 2)] == LeafPath(v);
    forall q | IsPath(q) ensures Node(m', root, q) == if q == LeafPath(v) then Some(P2V(pa)) else Node(m, root, q) {
      AddedPaths(m, m', root, LeafTable(v), Index(v, 2), e, P2V(pa), q);
    }
    NodeStep(m, root, LeafTable(v), Index(v, 2));
    assert IsTablePage(m, root, Node(m, root, LeafTable(v)).value);
  }

  /** A block added after upper tables were added. */
  lemma MapsAfterGrowth(m: Memory, m1: Memory, m2: Memory, root: nat, v: nat, pa: nat, attribute: nat)
    requires Grows(m, m1, root) && Maps(m1, m2, root, v, pa, attribute) && m2.Keys == m1.Keys
    requires Node(m, root, LeafPath(v)) == None
    ensures Maps(m, m2, root, v, pa, attribute)
  {
    MapsOverGrown(m, m1, m2, root, v, Descriptor(pa, attribute));
    OtherPagesTrans(m, m1, m2, root);
    KeysGrow(m, m1, root);
    PathsOverGrown(m, m1, m2, root, v, P2V(pa));
    LinkedTrans(m, m1, m2, root);
  }

  lemma PathsOverGrown(m: Memory, m1: Memory, m2: Memory, root: nat, v: nat, x: nat)
    requires PathsGrow(m, m1, root) && PathsMapped(m1, m2, root, v, x) && m.Keys <= m1.Keys == m2.Keys
    ensures PathsMapped(m, m2, root, v, x)
  {
  }

  lemma MapsOverGrown(m: Memory, m1: Memory, m2: Memory, root: nat, v: nat, e: nat)
    requires SameWalks(m, m1, root) && MapsOnePage(m1, m2, root, v, e)
    ensures MapsOnePage(m, m2, root, v, e)
  {
    forall w: nat | UserAddress(w)
      ensures Leaf(m2, root, w) == if SamePage(v, w) then Some(e) else Leaf(m, root, w)
    {
      assert Leaf(m1, root, w) == Leaf(m, root, w);
    }
  }

  lemma UnmappedAfterGrowth(m: Memory, m1: Memory, root: nat, v: nat)
    requires TablesOk(m, root) && Grows(m, m1, root) && Walk(m, root, v) == None
    requires Node(m1, root, LeafTable(v)).Some?
    ensures Node(m, root, LeafPath(v)) == None
    ensures var t := Node(m1, root, LeafTable(v)).value; t in m1 && !IsValid(m1[t][Index(v, 2)])
  {
    UnmappedPath(m, root, v);
    assert Leaf(m1, root, v) == Leaf(m, root, v);
    UnmappedEntry(m1, root, v);
  }

  /** The store of map_page after the tables were found or added. */
  lemma BlockStored(m: Memory, m1: Memory, root: nat, v: nat, pa: nat, attribute: nat, t: nat)
    requires TablesOk(m, root) && Grows(m, m1, root) && Walk(m, root, v) == None && UserAddress(v)
    requires Attribute(attribute) && pa % PAGE_SIZE == 0 && pa + PAGE_SIZE <= 0x3000_0000
    requires Node(m1, root, LeafTable(v)) == Some(t)
    ensures t in m1
    ensures var m2 := Store(m1, t, Index(v, 2), BlockEntry(pa, attribute));
            Maps(m, m2, root, v, pa, attribute) && m2.Keys == m1.Keys
  {
    UnmappedAfterGrowth(m, m1, root, v);
    var m2 := Store(m1, t, Index(v, 2), BlockEntry(pa, attribute));
    BlockAdds(m1, m2, root, v, pa, attribute);
    BlockMaps(m1, m2, root, v, pa, attribute);
    MapsAfterGrowth(m, m1, m2, root, v, pa, attribute);
  }

  /** PA_DOWN does not change the indices. */
  lemma SamePageIndices(v: nat)
    requires UserAddress(v)
    ensures var d := v - v % PAGE_SIZE; LeafTable(d) == LeafTable(v) && Index(d, 2) == Index(v, 2)
  {
    IndicesIdentifyPage(v - v % PAGE_SIZE, v);
  }

  lemma MapsPageDown(m: Memory, m': Memory, root: nat, v: nat, d: nat, pa: nat, attribute: nat)
    requires SamePage(v, d) && LeafPath(d) == LeafPath(v) && Maps(m, m', root, d, pa, attribute)
    ensures Maps(m, m', root, v, pa, attribute)
  {
    forall w: nat | UserAddress(w)
      ensures Leaf(m', root, w) == if SamePage(v, w) then Some(Descriptor(pa, attribute)) else Leaf(m, root, w)
    {
      assert SamePage(d, w) <==> SamePage(v, w);
    }
  }

  /** A last-level entry leads to the same block through both address masks. */
  lemma LeafBlock(m: Memory, root: nat, v: nat)
    requires TablesOk(m, root) && Node(m, root, LeafTable(v)).Some?
    ensures Node(m, root, LeafTable(v)).value in m
    ensures var e := m[Node(m, root, LeafTable(v)).value][Index(v, 2)]; IsValid(e) ==> P2V(PteAddr(e)) == ChildAddr(e)
  {
    assert IsTable(m, root, LeafTable(v));
    assert TableOk(m, Node(m, root, LeafTable(v)).value, 2);
  }

  lemma TableOutlives(m: Memory, table: nat)
    requires Freeable(m, table, 0)
    ensures table in Minus(m, Rounds(m, table, 0, ENTRIES))
  {
  }

  lemma VmTrace(m0: Memory, m1: Memory, root: nat, trace: seq<nat>)
    requires Exclusive(m0, root) && m1 == PageFreed(m0, root, USER_PAGE) && root in m1
    ensures trace + PageList(m0, root, USER_PAGE) + Rounds(m1, root, 0, ENTRIES) + [root] == trace + VmList(m0, root)
  {
    var a, b, c := PageList(m0, root, USER_PAGE), Rounds(m1, root, 0, ENTRIES), [root];
    assert trace + a + b + c == trace + (a + (b + c));
  }

  /** The entry that free_page clears lies in a table that free_vm frees. */
  lemma VmMemory(m: Memory, root: nat)
    requires Exclusive(m, root)
    ensures root in PageFreed(m, root, USER_PAGE)
    ensures var m1 := PageFreed(m, root, USER_PAGE); Minus(m1, TreeList(m1, root)) == Minus(m, VmList(m, root))
  {
    RootStays(m, root);
    var m1 := PageFreed(m, root, USER_PAGE);
    var a, b := PageList(m, root, USER_PAGE), TreeList(m1, root);
    PageFreedMemory(m, root, USER_PAGE);
    PageFreedPaths(m, root, USER_PAGE);
    MinusAppend(m, a, b);
    forall x | x in Minus(m1, b) ensures m1[x] == m[x] {
      TreeListIsTree(m1, root, x);
    }
    assert Minus(m1, b).Keys == Minus(m, a + b).Keys;
  }

  lemma VmDone(m0: Memory, m1: Memory, root: nat, before: seq<nat>, after: seq<nat>, m: Memory)
    requires Exclusive(m0, root) && m1 == PageFreed(m0, root, USER_PAGE) && root in m1
    requires after == before + PageList(m0, root, USER_PAGE) + Rounds(m1, root, 0, ENTRIES) + [root]
    requires m == Minus(m1, Rounds(m1, root, 0, ENTRIES)) - {root}
    ensures after == before + VmList(m0, root) && m == Minus(m0, VmList(m0, root))
  {
    VmTrace(m0, m1, root, before);
    VmMemory(m0, root);
    MinusAppend(m1, Rounds(m1, root, 0, ENTRIES), [root]);
    assert Rounds(m1, root, 0, ENTRIES) + [root] == TreeList(m1, root);
    assert (set x | x in [root]) == {root};
  }

  // ------------------------------------------------- which pages the tree holds

  /** Growing a tree adds to it exactly the newly allocated pages. */
  lemma GrownTree(m: Memory, m': Memory, root: nat)
    requires Exclusive(m, root) && Grows(m, m', root)
    ensures Exclusive(m', root)
    ensures TreeGains(m, m', root)
  {
    GrownExclusive(m, m', root);
    forall y ensures InTree(m', root, y) <==> InTree(m, root, y) || (y in m' && y !in m) {
      if p :| IsPath(p) && Node(m, root, p) == Some(y) {
        InTreeBy(m', root, y, p);
      }
      if p :| IsPath(p) && Node(m', root, p) == Some(y) && Node(m, root, p).Some? {
        InTreeBy(m, root, y, p);
      }
    }
  }

  lemma GrownExclusive(m: Memory, m': Memory, root: nat)
    requires Exclusive(m, root) && Grows(m, m', root)
    ensures Exclusive(m', root)
  {
    forall p, q | IsPath(p) && IsPath(q) && Node(m', root, p).Some? && Node(m', root, p) == Node(m', root, q)
      ensures p == q
    {
      if Node(m, root, p) == None && Node(m, root, q) == None {
        assert IsTable(m', root, p) && IsTable(m', root, q);
      }
    }
  }

  /** The space of `root` gains exactly the newly allocated pages. */
  ghost predicate TreeGains(m: Memory, m': Memory, root: nat) {
    forall y :: InTree(m', root, y) <==> InTree(m, root, y) || (y in m' && y !in m)
  }

  /** The space of `root` gains exactly `x` and the newly allocated pages. */
  ghost predicate TreeGainsAlso(m: Memory, m': Memory, root: nat, x: nat) {
    forall y :: InTree(m', root, y) <==> InTree(m, root, y) || y == x || (y in m' && y !in m)
  }

  /** Mapping adds to a tree exactly the mapped block and the newly allocated tables. */
  lemma MappedTree(m: Memory, m': Memory, root: nat, v: nat, pa: nat, attribute: nat)
    requires Exclusive(m, root) && Maps(m, m', root, v, pa, attribute) && Node(m, root, LeafPath(v)) == None
    requires P2V(pa) in m && !InTree(m, root, P2V(pa))
    ensures Exclusive(m', root)
    ensures TreeGainsAlso(m, m', root, P2V(pa))
  {
    MappedExclusive(m, m', root, v, pa, attribute);
    InTreeBy(m', root, P2V(pa), LeafPath(v));
    forall y ensures InTree(m', root, y) <==> InTree(m, root, y) || y == P2V(pa) || (y in m' && y !in m) {
      if p :| IsPath(p) && Node(m, root, p) == Some(y) {
        InTreeBy(m', root, y, p);
      }
      if p :| IsPath(p) && Node(m', root, p) == Some(y) && Node(m, root, p).Some? {
        InTreeBy(m, root, y, p);
      }
    }
  }

  lemma MappedExclusive(m: Memory, m': Memory, root: nat, v: nat, pa: nat, attribute: nat)
    requires Exclusive(m, root) && Maps(m, m', root, v, pa, attribute) && Node(m, root, LeafPath(v)) == None
    requires P2V(pa) in m && !InTree(m, root, P2V(pa))
    ensures Exclusive(m', root)
  {
    forall p, q | IsPath(p) && IsPath(q) && Node(m', root, p).Some? && Node(m', root, p) == Node(m', root, q)
      ensures p == q
    {
      if Node(m, root, p) == None && Node(m, root, q) == None {
        if p != LeafPath(v) && q != LeafPath(v) {
          assert IsTable(m', root, p) && IsTable(m', root, q);
        }
      } else if Node(m, root, p).Some? && Node(m, root, q) == None && q == LeafPath(v) {
        InTreeBy(m, root, P2V(pa), p);
      } else if Node(m, root, q).Some? && Node(m, root, p) == None && p == LeafPath(v) {
        InTreeBy(m, root, P2V(pa), q);
      }
    }
  }

  /** A page outside the tree can be added, changed or removed without touching the tree. */
  lemma OutsideFrame(m: Memory, m': Memory, root: nat, x: nat)
    requires TablesOk(m, root) && !InTree(m, root, x) && forall y | y in m && y != x :: y in m' && m'[y] == m[y]
    ensures SameTables(m, m', root) && TablesOk(m', root) && SameWalks(m, m', root)
    ensures forall q | IsPath(q) :: Node(m', root, q) == Node(m, root, q)
    ensures Exclusive(m, root) ==> Exclusive(m', root)
    ensures forall y :: InTree(m', root, y) <==> InTree(m, root, y)
  {
    forall p | IsTable(m, root, p) ensures var t := Node(m, root, p).value; t in m && t in m' && m'[t] == m[t] {
      InTreeBy(m, root, Node(m, root, p).value, p);
      assert TableOk(m, Node(m, root, p).value, |p|);
    }
    TablesFrame(m, m', root);
    if Exclusive(m, root) {
      forall p | IsPath(p) && Node(m', root, p).Some? ensures Node(m', root, p).value in m' {
        InTreeBy(m, root, Node(m, root, p).value, p);
      }
    }
  }

  /** The two memories hold the same space under `root`. */
  ghost predicate SameTree(m: Memory, m': Memory, root: nat) {
    forall y :: InTree(m', root, y) <==> InTree(m, root, y)
  }

  lemma OutsideTree(m: Memory, m': Memory, root: nat, x: nat)
    requires TablesOk(m, root) && Exclusive(m, root) && !InTree(m, root, x)
    requires forall y | y in m && y != x :: y in m' && m'[y] == m[y]
    ensures TablesOk(m', root) && Exclusive(m', root) && SameWalks(m, m', root) && SameTree(m, m', root)
  {
    OutsideFrame(m, m', root, x);
  }

  lemma FreshOutside(m: Memory, root: nat, x: nat)
    requires Exclusive(m, root) && x !in m
    ensures !InTree(m, root, x)
  {
  }

  /** A fresh page leaves an address space as it was. */
  lemma FreshFrame(m: Memory, contents: Page, root: nat, x: nat)
    requires Exclusive(m, root) && TablesOk(m, root) && x !in m
    ensures var m' := m[x := contents];
            && TablesOk(m', root) && Exclusive(m', root) && Walk(m', root, USER_PAGE) == Walk(m, root, USER_PAGE)
            && Node(m', root, LeafPath(USER_PAGE)) == Node(m, root, LeafPath(USER_PAGE)) != Some(x)
            && Missing(m', root, USER_PAGE) == Missing(m, root, USER_PAGE)
  {
    FreshOutside(m, root, x);
    OutsideFrame(m, m[x := contents], root, x);
    SameMissing(m, m[x := contents], root, USER_PAGE);
  }

  lemma SameMissing(m: Memory, m': Memory, root: nat, v: nat)
    requires forall q | IsPath(q) :: Node(m', root, q) == Node(m, root, q)
    ensures Missing(m', root, v) == Missing(m, root, v)
  {
  }

  /** The fresh page `x` holds the bytes of the user page of `src`. */
  function WithCopy(m: Memory, src: nat, x: nat): Memory
  {
    match Node(m, src, LeafPath(USER_PAGE))
    case None => m
    case Some(from) => if from in m then m[x := m[from]] else m
  }

  lemma CopyValue(m0: Memory, m1: Memory, src: nat, x: nat, from: nat)
    requires x !in m0 && m1 == m0[x := ZeroPage()]
    requires Exclusive(m0, src) && Node(m0, src, LeafPath(USER_PAGE)) == Some(from)
    ensures from in m1 && m1[x := m1[from]] == WithCopy(m0, src, x)
  {
  }

  // --------------------------------------------------- giving a space its user page

  /** From `m` to `m'` the space of `root` gains the fresh page `x`, holding `contents`, at the user
      address, together with the tables that lead to it; pages outside the space are as before. */
  ghost predicate Attached(m: Memory, m': Memory, root: nat, x: nat, contents: Page) {
    && x !in m && x in m' && m'[x] == contents && KernelPage(x)
    && TablesOk(m', root) && Exclusive(m', root)
    && Node(m', root, LeafPath(USER_PAGE)) == Some(x)
    && MapsOnePage(m, m', root, USER_PAGE, Descriptor(V2P(x), USER_ATTRIBUTE))
    && TreeGains(m, m', root) && OutsideKept(m, m', root)
  }

  /** Allocated pages stay allocated, and those outside the space of `root` are unchanged. */
  ghost predicate OutsideKept(m: Memory, m': Memory, root: nat) {
    forall y | y in m :: y in m' && (InTree(m, root, y) || m'[y] == m[y])
  }

  lemma TablesInTree(m: Memory, root: nat, x: nat)
    requires IsTablePage(m, root, x)
    ensures InTree(m, root, x)
  {
  }

  /** A fresh page outside the tree. */
  lemma FreshSpace(m: Memory, m1: Memory, root: nat, x: nat, contents: Page)
    requires TablesOk(m, root) && Exclusive(m, root) && x !in m && m1 == m[x := contents]
    ensures TablesOk(m1, root) && Exclusive(m1, root) && SameWalks(m, m1, root) && SameTree(m, m1, root)
    ensures !InTree(m, root, x) && !InTree(m1, root, x) && m1.Keys == m.Keys + {x}
  {
    FreshOutside(m, root, x);
    OutsideTree(m, m1, root, x);
  }

  lemma StillUnmapped(m: Memory, m1: Memory, root: nat, v: nat)
    requires TablesOk(m1, root) && SameWalks(m, m1, root) && Walk(m, root, v) == None
    ensures Node(m1, root, LeafPath(v)) == None
  {
    assert Walk(m1, root, v) == None;
    UnmappedPath(m1, root, v);
  }

  lemma MapsAttaches(m: Memory, m1: Memory, m2: Memory, root: nat, x: nat, contents: Page)
    requires TablesOk(m, root) && Exclusive(m, root) && Walk(m, root, USER_PAGE) == None && x !in m
    requires m1 == m[x := contents] && P2V(V2P(x)) == x && KernelPage(x)
    requires Maps(m1, m2, root, USER_PAGE, V2P(x), USER_ATTRIBUTE)
    ensures Attached(m, m2, root, x, contents)
  {
    FreshSpace(m, m1, root, x, contents);
    StillUnmapped(m, m1, root, USER_PAGE);
    MappedTree(m1, m2, root, USER_PAGE, V2P(x), USER_ATTRIBUTE);
    OutsideAfterMap(m, m1, m2, root, x);
    MapsOverGrown(m, m1, m2, root, USER_PAGE, Descriptor(V2P(x), USER_ATTRIBUTE));
    GainsFresh(m, m1, m2, root, x);
  }

  lemma GainsFresh(m: Memory, m1: Memory, m2: Memory, root: nat, x: nat)
    requires m1.Keys == m.Keys + {x} && x !in m && x in m2
    requires SameTree(m, m1, root) && TreeGainsAlso(m1, m2, root, x)
    ensures TreeGains(m, m2, root)
  {
  }

  lemma OutsideAfterMap(m: Memory, m1: Memory, m2: Memory, root: nat, x: nat)
    requires x !in m && x in m1 && m1 == m[x := m1[x]] && OtherPagesSame(m1, m2, root)
    requires !InTree(m, root, x) && SameTree(m, m1, root)
    ensures OutsideKept(m, m2, root) && x in m2 && m2[x] == m1[x]
  {
    forall y | y in m1 && !InTree(m, root, y) ensures y in m2 && m2[y] == m1[y] {
      if IsTablePage(m1, root, y) {
        TablesInTree(m1, root, y);
      }
    }
  }

  /** Writing to the user page leaves the tree alone. */
  lemma UserPageFill(m: Memory, root: nat, x: nat, contents: Page)
    requires TablesOk(m, root) && Exclusive(m, root) && Node(m, root, LeafPath(USER_PAGE)) == Some(x)
    ensures var m' := m[x := contents];
            && SameTables(m, m', root) && TablesOk(m', root) && Exclusive(m', root) && SameWalks(m, m', root)
            && (forall q | IsPath(q) :: Node(m', root, q) == Node(m, root, q))
            && forall y :: InTree(m', root, y) <==> InTree(m, root, y)
  {
    var m' := m[x := contents];
    forall p | IsTable(m, root, p) ensures var t := Node(m, root, p).value; t in m && t in m' && m'[t] == m[t] {
      assert p != LeafPath(USER_PAGE);
    }
    TablesFrame(m, m', root);
  }

  lemma AttachedFill(m: Memory, m1: Memory, root: nat, x: nat, old_: Page, contents: Page)
    requires Attached(m, m1, root, x, old_)
    ensures Attached(m, m1[x := contents], root, x, contents)
  {
    UserPageFill(m1, root, x, contents);
    MapsOnward(m, m1, m1[x := contents], root, USER_PAGE, Descriptor(V2P(x), USER_ATTRIBUTE));
    FillKeeps(m, m1, root, x, contents);
  }

  lemma FillKeeps(m: Memory, m1: Memory, root: nat, x: nat, contents: Page)
    requires TreeGains(m, m1, root) && OutsideKept(m, m1, root) && x !in m && x in m1
    requires SameTree(m1, m1[x := contents], root)
    ensures TreeGains(m, m1[x := contents], root) && OutsideKept(m, m1[x := contents], root)
  {
  }

  lemma MapsOnward(m: Memory, m1: Memory, m2: Memory, root: nat, v: nat, e: nat)
    requires MapsOnePage(m, m1, root, v, e) && SameWalks(m1, m2, root)
    ensures MapsOnePage(m, m2, root, v, e)
  {
    forall w: nat | UserAddress(w)
      ensures Leaf(m2, root, w) == if SamePage(v, w) then Some(e) else Leaf(m, root, w)
    {
      assert Leaf(m2, root, w) == Leaf(m1, root, w);
    }
  }

  /** free_page undoes map_page: every translation is again what it was. */
  lemma MapThenFreePage(m: Memory, m': Memory, root: nat, v: nat, pa: nat, attribute: nat, w: nat)
    requires Maps(m, m', root, v, pa, attribute) && Exclusive(m', root) && UserAddress(v) && Walk(m, root, v) == None
    requires UserAddress(w)
    ensures Leaf(PageFreed(m', root, v), root, w) == Leaf(m, root, w)
  {
    PageFreedUnmaps(m', root, v);
    if SamePage(v, w) {
      SamePageUnmapped(m, root, v, w);
    }
    assert Leaf(m', root, w) == if SamePage(v, w) then Some(Descriptor(pa, attribute)) else Leaf(m, root, w);
  }

  lemma SamePageUnmapped(m: Memory, root: nat, v: nat, w: nat)
    requires UserAddress(v) && UserAddress(w) && SamePage(v, w) && Walk(m, root, v) == None
    ensures Leaf(m, root, w) == None
  {
    IndicesIdentifyPage(v, w);
  }

  // --------------------------------------------------------- taking a space away

  /** `m'` is `m` without the pages of the space of `root`. */
  ghost predicate Undone(m: Memory, m': Memory, root: nat) {
    forall y :: (y in m' <==> y in m && !InTree(m, root, y)) && (y in m' ==> m'[y] == m[y])
  }

  lemma VmUndone(m: Memory, root: nat)
    requires Exclusive(m, root)
    ensures root in PageFreed(m, root, USER_PAGE)
    ensures Undone(m, Minus(m, VmList(m, root)), root)
  {
    VmListOnce(m, root);
    var l := VmList(m, root);
    forall y ensures y in l <==> InTree(m, root, y) {
      VmListIsTree(m, root, y);
    }
  }

  /** Failing after the page was mapped: free_vm also takes the page and the new tables. */
  lemma GainsUndone(m: Memory, m1: Memory, m2: Memory, root: nat)
    requires TreeGains(m, m1, root) && OutsideKept(m, m1, root) && Undone(m1, m2, root)
    ensures Undone(m, m2, root)
  {
  }

  /** Failing before: the page is freed, then free_vm takes the new tables. */
  lemma GrownUndone(m: Memory, m1: Memory, m2: Memory, root: nat, x: nat, contents: Page)
    requires TablesOk(m, root) && Exclusive(m, root) && x !in m && m1 == m[x := contents] && Grows(m1, m2, root)
    ensures TablesOk(m2 - {x}, root) && Exclusive(m2 - {x}, root) && x in m2
    ensures TreeGains(m, m2 - {x}, root) && OutsideKept(m, m2 - {x}, root)
  {
    FreshSpace(m, m1, root, x, contents);
    GrownTree(m1, m2, root);
    OutsideAfterMap(m, m1, m2, root, x);
    PageGone(m1, m2, root, x);
    GainsWithout(m, m1, m2, root, x);
  }

  lemma PageGone(m1: Memory, m2: Memory, root: nat, x: nat)
    requires TreeGains(m1, m2, root) && x in m1 && !InTree(m1, root, x) && TablesOk(m2, root) && Exclusive(m2, root)
    ensures TablesOk(m2 - {x}, root) && Exclusive(m2 - {x}, root) && SameTree(m2, m2 - {x}, root)
  {
    OutsideTree(m2, m2 - {x}, root, x);
  }

  lemma GainsWithout(m: Memory, m1: Memory, m2: Memory, root: nat, x: nat)
    requires m1.Keys == m.Keys + {x} && x !in m && x in m2 && !InTree(m, root, x)
    requires SameTree(m, m1, root)
    requires TreeGains(m1, m2, root) && OutsideKept(m, m2, root)
    requires SameTree(m2, m2 - {x}, root)
    ensures TreeGains(m, m2 - {x}, root) && OutsideKept(m, m2 - {x}, root)
  {
  }
}
