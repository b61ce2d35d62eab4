/**
  The buddy allocator of src/memory.c as functions on its nine free lists.  A free list is the
  sequence of block addresses met when walking it from its head.  Addresses and sizes are bytes.
 */
module Buddy {
  import opened Wrappers
  import opened Pages
  import opened Bits

  const MAX_ORDER: nat := 9

  type FreeLists = fl: seq<seq<nat>> | |fl| == MAX_ORDER witness seq(MAX_ORDER, _ => [])

  function BlockSize(order: nat): (r: nat)
    ensures r > 0
  {
    PAGE_SIZE * Pow2(order)
  }

  predicate Aligned(addr: nat, order: nat) {
    addr % BlockSize(order) == 0
  }

  // ---------------------------------------------------------------- buddy_init

  predicate Fits(current: nat, remaining: nat, order: nat) {
    remaining >= BlockSize(order) && Aligned(current, order)
  }

  /** The scan of buddy_init from `order` downwards: the first order that fits. */
  function BestOrder(current: nat, remaining: nat, order: nat): (i: nat)
    requires Fits(current, remaining, 0)
    ensures i <= order && Fits(current, remaining, i)
    ensures forall j :: i < j <= order ==> !Fits(current, remaining, j)
  {
    if Fits(current, remaining, order) then order else BestOrder(current, remaining, order - 1)
  }

  /** The carving loop of buddy_init. */
  function Carve(current: nat, remaining: nat, fl: FreeLists): FreeLists
    requires Aligned(current, 0)
    decreases remaining
  {
    if remaining < PAGE_SIZE then fl
    else
      var i := BestOrder(current, remaining, MAX_ORDER - 1);
      AlignedStep(current, i);
      Carve(current + BlockSize(i), remaining - BlockSize(i), fl[i := [current] + fl[i]])
  }

  function NoBlocks(): FreeLists {
    seq(MAX_ORDER, _ => [])
  }

  // --------------------------------------------------------------- buddy_alloc

  /** The first order from `i` upwards whose list is not empty, or MAX_ORDER. */
  function SmallestOrder(fl: FreeLists, i: nat): (r: nat)
    requires i <= MAX_ORDER
    ensures i <= r <= MAX_ORDER
    ensures r < MAX_ORDER ==> fl[r] != []
    ensures forall j :: i <= j < r ==> fl[j] == []
    decreases |fl| - i
  {
    if i == MAX_ORDER || fl[i] != [] then i else SmallestOrder(fl, i + 1)
  }

  /** The splitting loop: each upper half goes to the front of its list. */
  function Split(fl: FreeLists, block: nat, i: nat, order: nat): FreeLists
    requires order <= i <= MAX_ORDER
    decreases i
  {
    if i == order then fl
    else Split(fl[i - 1 := [block + BlockSize(i - 1)] + fl[i - 1]], block, i - 1, order)
  }

  function Alloc(fl: FreeLists, order: nat): (Option<nat>, FreeLists)
    requires order < MAX_ORDER
  {
    var i := SmallestOrder(fl, order);
    if i == MAX_ORDER then (None, fl)
    else (Some(fl[i][0]), Split(fl[i := fl[i][1..]], fl[i][0], i, order))
  }

  // ---------------------------------------------------------------- buddy_free

  function RemoveFirst(l: seq<nat>, x: nat): (r: seq<nat>)
    requires x in l
    ensures |r| == |l| - 1
    ensures multiset(l) == multiset(r) + multiset{x}
  {
    if l[0] == x then
      assert l == [x] + l[1..];
      l[1..]
    else
      assert l == [l[0]] + l[1..];
      [l[0]] + RemoveFirst(l[1..], x)
  }

  /** The buddy that buddy_free looks for: bit `order` of the offset from `start` is flipped. */
  function RelBuddy(start: nat, addr: nat, order: nat): (b: nat)
    requires start <= addr
    ensures start <= b
  {
    start + Xor(addr - start, Pow2(order + PAGE_SHIFT))
  }

  /** The merging loop of buddy_free from order `i`, as written: a merged block goes back on the
      list of its own order, and a block whose buddy is not free is dropped. */
  function Free(fl: FreeLists, start: nat, addr: nat, i: nat): FreeLists
    requires start <= addr && i < MAX_ORDER
    decreases |fl| - i
  {
    if i == MAX_ORDER - 1 then fl
    else
      var b := RelBuddy(start, addr, i);
      if b in fl[i] then
        Free(fl[i := [Min(addr, b)] + RemoveFirst(fl[i], b)], start, Min(addr, b), i + 1)
      else fl
  }

  // ------------------------------------------------------ what the lists cover

  /** How many times the byte `p` is covered: by a block, by a list of blocks of one order, and by
      the lists below order `k`. */
  function Has(block: nat, order: nat, p: nat): nat {
    if block <= p < block + BlockSize(order) then 1 else 0
  }

  function ListCount(l: seq<nat>, order: nat, p: nat): nat {
    if l == [] then 0 else Has(l[0], order, p) + ListCount(l[1..], order, p)
  }

  function CountBelow(fl: FreeLists, k: nat, p: nat): nat
    requires k <= |fl|
  {
    if k == 0 then 0 else CountBelow(fl, k - 1, p) + ListCount(fl[k - 1], k - 1, p)
  }

  /** In how many free blocks the byte `p` lies. */
  function FreeCount(fl: FreeLists, p: nat): nat {
    CountBelow(fl, |fl|, p)
  }

  /** The number of free 2 MB pages on the lists below order `k`. */
  function PagesBelow(fl: FreeLists, k: nat): nat
    requires k <= |fl|
  {
    if k == 0 then 0 else PagesBelow(fl, k - 1) + |fl[k - 1]| * Pow2(k - 1)
  }

  function FreeTotal(fl: FreeLists): nat {
    PagesBelow(fl, |fl|)
  }

  /** Membership of the byte `p` in the whole pages of a region. */
  function InRegion(start: nat, size: nat, p: nat): nat {
    if start <= p < start + size / PAGE_SIZE * PAGE_SIZE then 1 else 0
  }

  ghost predicate AllAligned(fl: FreeLists) {
    forall i: nat, b: nat | i < MAX_ORDER && b in fl[i] :: Aligned(b, i)
  }

  // -------------------------------------------------------------------- lemmas

  lemma AlignedStep(addr: nat, order: nat)
    requires Aligned(addr, order)
    ensures Aligned(addr + BlockSize(order), order)
    ensures Aligned(addr, 0) && Aligned(addr + BlockSize(order), 0)
  {
    var m := BlockSize(order);
    AddMod(addr, m);
    AlignedDown(addr, order, 0);
    AlignedDown(addr + m, order, 0);
  }

  lemma AddMod(x: nat, m: nat)
    requires m > 0
    ensures (x + m) % m == x % m
  {
    assert x + m == (x / m + 1) * m + x % m;
    DivModUnique(x + m, m, x / m + 1, x % m);
  }

  /** A block address is aligned to every smaller order. */
  lemma {:induction false} AlignedDown(addr: nat, hi: nat, lo: nat)
    requires Aligned(addr, hi) && lo <= hi
    ensures Aligned(addr, lo)
  {
    if lo < hi {
      var m := BlockSize(hi - 1);
      assert BlockSize(hi) == 2 * m;
      var q := addr / (2 * m);
      assert addr == (2 * q) * m + 0;
      DivModUnique(addr, m, 2 * q, 0);
      AlignedDown(addr, hi - 1, lo);
    }
  }

  /** Both halves of a block are aligned to the half's order. */
  lemma AlignedHalves(addr: nat, order: nat)
    requires order > 0 && Aligned(addr, order)
    ensures Aligned(addr, order - 1) && Aligned(addr + BlockSize(order - 1), order - 1)
  {
    AlignedDown(addr, order, order - 1);
    AddMod(addr, BlockSize(order - 1));
  }

  /** Replacing one list exchanges what it covers and how many pages it holds. */
  lemma {:induction false} CountUpdate(fl: FreeLists, i: nat, l: seq<nat>, k: nat, p: nat)
    requires i < |fl| && k <= |fl|
    ensures CountBelow(fl[i := l], k, p) ==
            CountBelow(fl, k, p) + if i < k then ListCount(l, i, p) - ListCount(fl[i], i, p) else 0
  {
    if k > 0 {
      CountUpdate(fl, i, l, k - 1, p);
    }
  }

  lemma {:induction false} PagesUpdate(fl: FreeLists, i: nat, l: seq<nat>, k: nat)
    requires i < |fl| && k <= |fl|
    ensures PagesBelow(fl[i := l], k) ==
            PagesBelow(fl, k) + if i < k then |l| * Pow2(i) - |fl[i]| * Pow2(i) else 0
  {
    if k > 0 {
      PagesUpdate(fl, i, l, k - 1);
    }
  }

  /** Pushing a block on list `i` adds its bytes. */
  lemma PushCount(fl: FreeLists, i: nat, b: nat, p: nat)
    requires i < MAX_ORDER
    ensures FreeCount(fl[i := [b] + fl[i]], p) == FreeCount(fl, p) + Has(b, i, p)
  {
    var l := [b] + fl[i];
    CountUpdate(fl, i, l, |fl|, p);
    assert l[1..] == fl[i];
  }

  lemma MulStep(n: nat, m: nat)
    ensures (n + 1) * m == n * m + m
  {
  }

  lemma PushPages(fl: FreeLists, i: nat, b: nat)
    requires i < MAX_ORDER
    ensures FreeTotal(fl[i := [b] + fl[i]]) == FreeTotal(fl) + Pow2(i)
  {
    var n, m := |fl[i]|, Pow2(i);
    PagesUpdate(fl, i, [b] + fl[i], |fl|);
    MulStep(n, m);
  }

  lemma PopPages(fl: FreeLists, i: nat)
    requires i < MAX_ORDER && fl[i] != []
    ensures FreeTotal(fl[i := fl[i][1..]]) == FreeTotal(fl) - Pow2(i)
  {
    var n, m := |fl[i]|, Pow2(i);
    PagesUpdate(fl, i, fl[i][1..], |fl|);
    MulStep(n - 1, m);
  }

  lemma {:induction false} RemoveCount(l: seq<nat>, x: nat, order: nat, p: nat)
    requires x in l
    ensures ListCount(l, order, p) == ListCount(RemoveFirst(l, x), order, p) + Has(x, order, p)
  {
    if l[0] != x {
      RemoveCount(l[1..], x, order, p);
      var r := [l[0]] + RemoveFirst(l[1..], x);
      assert r[1..] == RemoveFirst(l[1..], x);
    }
  }

  lemma {:induction false} ListCountBelow(fl: FreeLists, i: nat, k: nat, p: nat)
    requires i < k <= |fl|
    ensures ListCount(fl[i], i, p) <= CountBelow(fl, k, p)
  {
    if i < k - 1 {
      ListCountBelow(fl, i, k - 1, p);
    }
  }

  /** The bytes of a listed block are free. */
  lemma BlockIsFree(fl: FreeLists, i: nat, b: nat, p: nat)
    requires i < MAX_ORDER && b in fl[i]
    ensures Has(b, i, p) <= FreeCount(fl, p)
  {
    RemoveCount(fl[i], b, i, p);
    ListCountBelow(fl, i, |fl|, p);
  }

  // ------------------------------------------------------- results: buddy_init

  /** Carving adds to the lists exactly the whole pages of the region, each byte once. */
  lemma {:induction false} CarveTiles(current: nat, remaining: nat, fl: FreeLists, p: nat)
    requires Aligned(current, 0)
    ensures FreeCount(Carve(current, remaining, fl), p) == FreeCount(fl, p) + InRegion(current, remaining, p)
    decreases remaining
  {
    if remaining >= PAGE_SIZE {
      var i := BestOrder(current, remaining, MAX_ORDER - 1);
      AlignedStep(current, i);
      PushCount(fl, i, current, p);
      CarveTiles(current + BlockSize(i), remaining - BlockSize(i), fl[i := [current] + fl[i]], p);
      RegionStep(current, remaining, i, p);
    }
  }

  lemma RegionStep(current: nat, remaining: nat, i: nat, p: nat)
    requires remaining >= BlockSize(i)
    ensures InRegion(current, remaining, p) ==
            Has(current, i, p) + InRegion(current + BlockSize(i), remaining - BlockSize(i), p)
  {
    PagesLeft(remaining, i);
  }

  lemma PagesLeft(remaining: nat, i: nat)
    requires remaining >= BlockSize(i)
    ensures (remaining - BlockSize(i)) / PAGE_SIZE == remaining / PAGE_SIZE - Pow2(i)
  {
  }

  lemma {:induction false} CarvePages(current: nat, remaining: nat, fl: FreeLists)
    requires Aligned(current, 0)
    ensures FreeTotal(Carve(current, remaining, fl)) == FreeTotal(fl) + remaining / PAGE_SIZE
    decreases remaining
  {
    if remaining >= PAGE_SIZE {
      var i := BestOrder(current, remaining, MAX_ORDER - 1);
      AlignedStep(current, i);
      PushPages(fl, i, current);
      CarvePages(current + BlockSize(i), remaining - BlockSize(i), fl[i := [current] + fl[i]]);
      PagesLeft(remaining, i);
    }
  }

  lemma {:induction false} CarveAligned(current: nat, remaining: nat, fl: FreeLists)
    requires Aligned(current, 0) && AllAligned(fl)
    ensures AllAligned(Carve(current, remaining, fl))
    decreases remaining
  {
    if remaining >= PAGE_SIZE {
      var i := BestOrder(current, remaining, MAX_ORDER - 1);
      AlignedStep(current, i);
      CarveAligned(current + BlockSize(i), remaining - BlockSize(i), fl[i := [current] + fl[i]]);
    }
  }

  /** A block was not carved larger because it has the top order, is not aligned to the next
      order, or would run past `end` in the next order. */
  predicate CarvedMaximal(b: nat, i: nat, end: nat) {
    && b + BlockSize(i) <= end
    && (i < MAX_ORDER - 1 && Aligned(b, i + 1) ==> b + BlockSize(i + 1) > end)
  }

  ghost predicate Maximal(fl: FreeLists, end: nat) {
    forall i: nat, b: nat | i < MAX_ORDER && b in fl[i] :: CarvedMaximal(b, i, end)
  }

  lemma {:induction false} CarveMaximal(current: nat, remaining: nat, fl: FreeLists)
    requires Aligned(current, 0) && Maximal(fl, current + remaining)
    ensures Maximal(Carve(current, remaining, fl), current + remaining)
    decreases remaining
  {
    if remaining >= PAGE_SIZE {
      var i := BestOrder(current, remaining, MAX_ORDER - 1);
      AlignedStep(current, i);
      assert CarvedMaximal(current, i, current + remaining) by {
        if i < MAX_ORDER - 1 {
          assert !Fits(current, remaining, i + 1);
        }
      }
      CarveMaximal(current + BlockSize(i), remaining - BlockSize(i), fl[i := [current] + fl[i]]);
    }
  }

  /** buddy_init: the blocks are aligned to their own size, tile exactly the whole pages of the
      region, and no two absolute buddies below the top order are both free. */
  lemma InitResult(start: nat, size: nat)
    requires Aligned(start, 0)
    ensures var fl := Carve(start, size, NoBlocks());
            && |fl| == 9 && AllAligned(fl)
            && (forall p :: FreeCount(fl, p) == InRegion(start, size, p))
            && FreeTotal(fl) == size / PAGE_SIZE
            && (forall i: nat, b: nat | i < 8 && b in fl[i] && Aligned(b, i + 1) :: b + BlockSize(i) !in fl[i])
  {
    var fl := Carve(start, size, NoBlocks());
    CarveAligned(start, size, NoBlocks());
    CarveMaximal(start, size, NoBlocks());
    CarvePages(start, size, NoBlocks());
    NoBlocksCount(|NoBlocks()|, 0);
    forall p ensures FreeCount(fl, p) == InRegion(start, size, p) {
      CarveTiles(start, size, NoBlocks(), p);
      NoBlocksCount(|NoBlocks()|, p);
    }
    forall i: nat, b: nat | i < MAX_ORDER - 1 && b in fl[i] && Aligned(b, i + 1)
      ensures b + BlockSize(i) !in fl[i]
    {
      assert BlockSize(i + 1) == 2 * BlockSize(i);
      assert CarvedMaximal(b, i, start + size);
      assert !CarvedMaximal(b + BlockSize(i), i, start + size);
    }
  }

  lemma {:induction false} NoBlocksCount(k: nat, p: nat)
    requires k <= |NoBlocks()|
    ensures CountBelow(NoBlocks(), k, p) == 0 && PagesBelow(NoBlocks(), k) == 0
  {
    if k > 0 {
      NoBlocksCount(k - 1, p);
    }
  }

  // ------------------------------------------------------ results: buddy_alloc

  /** Closed form of the splitting loop, list by list. */
  lemma {:induction false} SplitList(fl: FreeLists, block: nat, i: nat, order: nat, j: nat)
    requires order <= i <= MAX_ORDER && j < MAX_ORDER
    ensures Split(fl, block, i, order)[j] ==
            if order <= j < i then [block + BlockSize(j)] + fl[j] else fl[j]
    decreases i
  {
    if i > order {
      SplitList(fl[i - 1 := [block + BlockSize(i - 1)] + fl[i - 1]], block, i - 1, order, j);
    }
  }

  lemma {:induction false} SplitTiles(fl: FreeLists, block: nat, i: nat, order: nat, p: nat)
    requires order <= i < MAX_ORDER
    ensures FreeCount(Split(fl, block, i, order), p) + Has(block, order, p) == FreeCount(fl, p) + Has(block, i, p)
    decreases i
  {
    if i > order {
      var half := block + BlockSize(i - 1);
      PushCount(fl, i - 1, half, p);
      SplitTiles(fl[i - 1 := [half] + fl[i - 1]], block, i - 1, order, p);
      HasHalves(block, i, p);
    }
  }

  lemma HasHalves(block: nat, i: nat, p: nat)
    requires i > 0
    ensures Has(block, i, p) == Has(block, i - 1, p) + Has(block + BlockSize(i - 1), i - 1, p)
  {
  }

  lemma {:induction false} SplitPages(fl: FreeLists, block: nat, i: nat, order: nat)
    requires order <= i < MAX_ORDER
    ensures FreeTotal(Split(fl, block, i, order)) + Pow2(order) == FreeTotal(fl) + Pow2(i)
    decreases i
  {
    if i > order {
      var half := block + BlockSize(i - 1);
      PushPages(fl, i - 1, half);
      SplitPages(fl[i - 1 := [half] + fl[i - 1]], block, i - 1, order);
    }
  }

  /** The block was taken from the front of list `i`, the smallest sufficient non-empty one; the
      lists in between receive exactly the upper halves and every other list is untouched. */
  ghost predicate TakenFrom(fl: FreeLists, order: nat, block: nat, r: FreeLists, i: nat) {
    && order <= i < MAX_ORDER
    && fl[i] != [] && block == fl[i][0]
    && (forall j :: order <= j < i ==> fl[j] == [])
    && forall j :: 0 <= j < MAX_ORDER ==>
         r[j] == if j == i then fl[i][1..] else if order <= j < i then [block + BlockSize(j)] else fl[j]
  }

  /** buddy_alloc takes from the smallest sufficient non-empty list, and returns None exactly when
      every list of that order or above is empty. */
  lemma AllocLists(fl: FreeLists, order: nat)
    requires order < MAX_ORDER
    ensures var (b, r) := Alloc(fl, order);
            && (b == None <==> forall j :: order <= j < MAX_ORDER ==> fl[j] == [])
            && (b == None ==> r == fl)
            && (b.Some? ==> TakenFrom(fl, order, b.value, r, SmallestOrder(fl, order)))
  {
    var i := SmallestOrder(fl, order);
    if i < MAX_ORDER {
      forall j | 0 <= j < MAX_ORDER
        ensures Alloc(fl, order).1[j] ==
                if j == i then fl[i][1..] else if order <= j < i then [fl[i][0] + BlockSize(j)] else fl[j]
      {
        SplitList(fl[i := fl[i][1..]], fl[i][0], i, order, j);
      }
    }
  }

  /** buddy_alloc: the block is aligned, and with the new free blocks it tiles the old free set. */
  lemma AllocTiles(fl: FreeLists, order: nat, p: nat)
    requires order < MAX_ORDER && Alloc(fl, order).0.Some?
    ensures var (b, r) := Alloc(fl, order);
            && FreeCount(fl, p) == FreeCount(r, p) + Has(b.value, order, p)
            && FreeTotal(fl) == FreeTotal(r) + Pow2(order)
  {
    var i := SmallestOrder(fl, order);
    var b := fl[i][0];
    SplitTiles(fl[i := fl[i][1..]], b, i, order, p);
    SplitPages(fl[i := fl[i][1..]], b, i, order);
    CountUpdate(fl, i, fl[i][1..], |fl|, p);
    PopPages(fl, i);
  }

  lemma AllocAligned(fl: FreeLists, order: nat)
    requires order < MAX_ORDER && AllAligned(fl)
    ensures var (b, r) := Alloc(fl, order);
            AllAligned(r) && (b.Some? ==> Aligned(b.value, order))
  {
    var i := SmallestOrder(fl, order);
    if i < MAX_ORDER {
      var b := fl[i][0];
      AllocLists(fl, order);
      AlignedDown(b, i, order);
      var r := Alloc(fl, order).1;
      forall j: nat, c: nat | j < MAX_ORDER && c in r[j] ensures Aligned(c, j) {
        if order <= j < i {
          AlignedDown(b, i, j + 1);
          AlignedHalves(b, j + 1);
        }
      }
    }
  }

  // ------------------------------------------------------- results: buddy_free

  /** As written, buddy_free changes the length of no free list, when the lists are taken as sequences. */
  lemma {:induction false} FreeKeepsLengths(fl: FreeLists, start: nat, addr: nat, i: nat)
    requires start <= addr && i < MAX_ORDER
    ensures forall j :: 0 <= j < MAX_ORDER ==> |Free(fl, start, addr, i)[j]| == |fl[j]|
    ensures forall j :: 0 <= j < i ==> Free(fl, start, addr, i)[j] == fl[j]
    decreases |fl| - i
  {
    if i < MAX_ORDER - 1 {
      var b := RelBuddy(start, addr, i);
      if b in fl[i] {
        FreeKeepsLengths(fl[i := [Min(addr, b)] + RemoveFirst(fl[i], b)], start, Min(addr, b), i + 1);
      }
    }
  }

  lemma {:induction false} SameLengthsSamePages(fl: FreeLists, fl': FreeLists, k: nat)
    requires k <= |fl| && forall j :: 0 <= j < MAX_ORDER ==> |fl[j]| == |fl'[j]|
    ensures PagesBelow(fl, k) == PagesBelow(fl', k)
  {
    if k > 0 {
      SameLengthsSamePages(fl, fl', k - 1);
    }
  }

  /** The arithmetic form of the relative buddy. */
  lemma RelBuddyValue(start: nat, addr: nat, order: nat)
    requires start <= addr
    ensures var x, m := addr - start, BlockSize(order);
            RelBuddy(start, addr, order) == if x / m % 2 == 0 then addr + m else addr - m
  {
    PageShift();
    Pow2Add(order, PAGE_SHIFT);
    Commute(Pow2(order), PAGE_SIZE);
    XorBit(addr - start, order + PAGE_SHIFT, BlockSize(order), (addr - start) / BlockSize(order));
  }

  lemma Commute(a: nat, b: nat)
    ensures a * b == b * a
  {
  }

  lemma PageShift()
    ensures Pow2(PAGE_SHIFT) == PAGE_SIZE
  {
    assert Pow2(5) == 32;
    Pow2Add(5, 5);
    Pow2Add(10, 10);
    Pow2Add(20, 1);
  }
}
