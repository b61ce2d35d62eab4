/**
  Whole runs of kalloc and kfree from buddy_init.  A run is legal when every kfree is given a live
  page, one that an earlier kalloc returned and that was not freed since.
 */
module BuddyRuns {
  import opened Wrappers
  import opened Pages
  import opened Bits
  import opened Buddy

  datatype Op = KAlloc | KFree(page: nat)

  /** The allocator with the pages handed out (`live`) and the number of successful kallocs. */
  datatype Heap = Heap(start: nat, lists: FreeLists, live: multiset<nat>, granted: nat)

  function Boot(start: nat, size: nat): Heap
    requires Aligned(start, 0)
  {
    Heap(start, Carve(start, size, NoBlocks()), multiset{}, 0)
  }

  /** kfree gets a live page that passes its lower-bound assertion. */
  predicate Legal(h: Heap, op: Op) {
    op.KFree? ==> op.page in h.live && h.start <= op.page
  }

  function Do(h: Heap, op: Op): Heap
    requires Legal(h, op)
  {
    match op
    case KAlloc =>
      var (b, r) := Alloc(h.lists, 0);
      if b == None then h
      else h.(lists := r, live := h.live + multiset{b.value}, granted := h.granted + 1)
    case KFree(v) =>
      h.(lists := Free(h.lists, h.start, v, 0), live := h.live - multiset{v})
  }

  predicate LegalRun(h: Heap, ops: seq<Op>)
    decreases |ops|, 0
  {
    ops == [] || (LegalRun(h, ops[..|ops| - 1]) && Legal(Run(h, ops[..|ops| - 1]), ops[|ops| - 1]))
  }

  function Run(h: Heap, ops: seq<Op>): Heap
    requires LegalRun(h, ops)
    decreases |ops|, 1
  {
    if ops == [] then h else Do(Run(h, ops[..|ops| - 1]), ops[|ops| - 1])
  }

  function PageOf(p: nat): nat { p - p % PAGE_SIZE }

  /** No byte lies in two free blocks, in two live pages, or in a free block and a live page. */
  ghost predicate Sound(h: Heap) {
    forall p: nat :: FreeCount(h.lists, p) + h.live[PageOf(p)] <= 1
  }

  // ------------------------------------------------------------ the invariant

  /** Free blocks and live pages are disjoint parts of the region. */
  ghost predicate Base(h: Heap, size: nat) {
    && Aligned(h.start, 0)
    && AllAligned(h.lists)
    && (forall v: nat | v in h.live :: Aligned(v, 0))
    && forall p: nat :: FreeCount(h.lists, p) + h.live[PageOf(p)] <= InRegion(h.start, size, p)
  }

  predicate UpperHalf(b: nat) { b % (4 * PAGE_SIZE) == 2 * PAGE_SIZE }

  /** The last 4 MB block of the region, carved at a multiple of 8 MB, is still the first of its
      list, so nothing below it was handed out. */
  ghost predicate TailFirst(h: Heap, size: nat) {
    && h.lists[1] != []
    && h.lists[1][0] % (4 * PAGE_SIZE) == 0
    && (forall b | b in h.lists[1][1..] :: UpperHalf(b))
    && (forall v: nat | v in h.live || v in h.lists[0] :: v >= h.lists[1][0] + 2 * PAGE_SIZE)
    && h.start + size / PAGE_SIZE * PAGE_SIZE <= h.lists[1][0] + 3 * PAGE_SIZE
  }

  /** What the start address must add for a merge above order 0 to be harmless. */
  ghost predicate Guard(h: Heap, size: nat) {
    && (h.start % (4 * PAGE_SIZE) == 0 ==> size < 4 * PAGE_SIZE)
    && (UpperHalf(h.start) ==> (forall b | b in h.lists[1] :: UpperHalf(b)) || TailFirst(h, size))
  }

  predicate GoodStart(start: nat, size: nat) {
    start % 0x80_0000 != 0 || size < 0x80_0000
  }

  // ---------------------------------------------------------------------- boot

  lemma {:induction false} BlockSizeMono(i: nat, j: nat)
    requires i <= j
    ensures BlockSize(i) <= BlockSize(j)
  {
    if i < j {
      BlockSizeMono(i, j - 1);
    }
  }

  lemma SmallSizes()
    ensures BlockSize(0) == PAGE_SIZE && BlockSize(1) == 2 * PAGE_SIZE && BlockSize(2) == 4 * PAGE_SIZE
  {
    assert Pow2(1) == 2 * Pow2(0);
    assert Pow2(2) == 2 * Pow2(1);
  }

  /** The order carved next is at least `j` exactly when order `j` fits. */
  lemma OrderAtLeast(current: nat, remaining: nat, j: nat)
    requires Fits(current, remaining, 0) && j < MAX_ORDER
    ensures BestOrder(current, remaining, MAX_ORDER - 1) >= j <==> Fits(current, remaining, j)
  {
    var i := BestOrder(current, remaining, MAX_ORDER - 1);
    if i >= j {
      AlignedDown(current, i, j);
      BlockSizeMono(j, i);
    }
  }

  /** The order carved next, as far as orders 0 and 1 are concerned. */
  lemma NextOrder(current: nat, remaining: nat)
    requires current % PAGE_SIZE == 0 && remaining >= PAGE_SIZE
    ensures Fits(current, remaining, 0)
    ensures var i := BestOrder(current, remaining, MAX_ORDER - 1);
            && (i >= 2 <==> remaining >= 4 * PAGE_SIZE && current % (4 * PAGE_SIZE) == 0)
            && (i >= 1 <==> remaining >= 2 * PAGE_SIZE && current % (2 * PAGE_SIZE) == 0)
  {
    SmallSizes();
    OrderAtLeast(current, remaining, 1);
    OrderAtLeast(current, remaining, 2);
  }

  lemma BigStep(current: nat, i: nat)
    requires current % (4 * PAGE_SIZE) == 0 && Aligned(current, i) && i >= 2
    ensures (current + BlockSize(i)) % (4 * PAGE_SIZE) == 0 && BlockSize(i) % (4 * PAGE_SIZE) == 0
  {
    SmallSizes();
    AlignedStep(current, i);
    AlignedDown(current + BlockSize(i), i, 2);
    ModDifference(current, BlockSize(i));
  }

  lemma ModDifference(a: nat, b: nat)
    requires a % (4 * PAGE_SIZE) == 0 && (a + b) % (4 * PAGE_SIZE) == 0
    ensures b % (4 * PAGE_SIZE) == 0
  {
  }

  /** The part of the tail, `q` bytes from `t`, that goes to lists 1 and 0. */
  function TailPair(t: nat, q: nat): seq<nat> {
    if q >= 2 * PAGE_SIZE then [t] else []
  }

  function TailPage(t: nat, q: nat): seq<nat> {
    if q >= 3 * PAGE_SIZE then [t + 2 * PAGE_SIZE]
    else if PAGE_SIZE <= q < 2 * PAGE_SIZE then [t]
    else []
  }

  /** `r` is `fl` with the tail of `q` bytes at `t` added to its two lowest lists. */
  ghost predicate TailAdded(r: FreeLists, fl: FreeLists, t: nat, q: nat) {
    r[1] == TailPair(t, q) + fl[1] && r[0] == TailPage(t, q) + fl[0]
  }

  /** What carving from a multiple of 8 MB adds to the two lowest lists: only the tail. */
  lemma {:induction false} CarveLow(current: nat, remaining: nat, fl: FreeLists)
    requires current % (4 * PAGE_SIZE) == 0
    ensures Aligned(current, 0)
    ensures var q := remaining % (4 * PAGE_SIZE);
            TailAdded(Carve(current, remaining, fl), fl, current + remaining - q, q)
    decreases remaining
  {
    SmallSizes();
    DivisibleDown(current);
    if remaining >= 4 * PAGE_SIZE {
      NextOrder(current, remaining);
      var i := BestOrder(current, remaining, MAX_ORDER - 1);
      BigStep(current, i);
      ModStep(remaining, BlockSize(i));
      CarveStep(current, remaining, fl);
      CarveLow(current + BlockSize(i), remaining - BlockSize(i), fl[i := [current] + fl[i]]);
    } else {
      DivModUnique(remaining, 4 * PAGE_SIZE, 0, remaining);
      CarveTail(current, remaining, fl);
    }
  }

  lemma CarveStep(current: nat, remaining: nat, fl: FreeLists)
    requires Aligned(current, 0) && remaining >= PAGE_SIZE
    ensures var i := BestOrder(current, remaining, MAX_ORDER - 1);
            && Aligned(current + BlockSize(i), 0)
            && Carve(current, remaining, fl) ==
               Carve(current + BlockSize(i), remaining - BlockSize(i), fl[i := [current] + fl[i]])
  {
    AlignedStep(current, BestOrder(current, remaining, MAX_ORDER - 1));
  }

  lemma ModStep(r: nat, b: nat)
    requires b <= r && b % (4 * PAGE_SIZE) == 0
    ensures (r - b) % (4 * PAGE_SIZE) == r % (4 * PAGE_SIZE)
  {
  }

  lemma CarveTail(current: nat, remaining: nat, fl: FreeLists)
    requires current % (4 * PAGE_SIZE) == 0 && remaining < 4 * PAGE_SIZE
    ensures Aligned(current, 0)
    ensures TailAdded(Carve(current, remaining, fl), fl, current, remaining)
  {
    SmallSizes();
    DivisibleDown(current);
    if remaining >= 2 * PAGE_SIZE {
      NextOrder(current, remaining);
      CarveStep(current, remaining, fl);
      CarveLast(current + 2 * PAGE_SIZE, remaining - 2 * PAGE_SIZE, fl[1 := [current] + fl[1]]);
    } else {
      CarveLast(current, remaining, fl);
    }
  }

  lemma DivisibleDown(x: nat)
    requires x % (4 * PAGE_SIZE) == 0
    ensures x % (2 * PAGE_SIZE) == 0 && x % PAGE_SIZE == 0 && (x + 2 * PAGE_SIZE) % PAGE_SIZE == 0
  {
    var k := x / (4 * PAGE_SIZE);
    DivModUnique(x, 2 * PAGE_SIZE, 2 * k, 0);
    DivModUnique(x, PAGE_SIZE, 4 * k, 0);
    DivModUnique(x + 2 * PAGE_SIZE, PAGE_SIZE, 4 * k + 2, 0);
  }

  lemma CarveLast(current: nat, remaining: nat, fl: FreeLists)
    requires current % PAGE_SIZE == 0 && remaining < 2 * PAGE_SIZE
    ensures Aligned(current, 0)
    ensures Carve(current, remaining, fl) == if remaining < PAGE_SIZE then fl else fl[0 := [current] + fl[0]]
  {
    SmallSizes();
    if remaining >= PAGE_SIZE {
      NextOrder(current, remaining);
    }
  }

  lemma BootInv(start: nat, size: nat)
    requires Aligned(start, 0) && GoodStart(start, size)
    ensures Base(Boot(start, size), size) && Guard(Boot(start, size), size)
  {
    BootBase(start, size);
    if UpperHalf(start) {
      if size >= 2 * PAGE_SIZE {
        BootUpper(start, size);
      } else {
        CarveLast(start, size, NoBlocks());
      }
    }
  }

  /** From an odd multiple of 4 MB the first block has order 1 and the rest is carved from a
      multiple of 8 MB. */
  lemma BootUpper(start: nat, size: nat)
    requires UpperHalf(start) && size >= 2 * PAGE_SIZE && Aligned(start, 0)
    ensures Guard(Boot(start, size), size)
  {
    var c, r := start + 2 * PAGE_SIZE, size - 2 * PAGE_SIZE;
    FirstPair(start, size);
    CarveLow(c, r, NoBlocks()[1 := [start]]);
    UpperTail(Boot(start, size), size, r % (4 * PAGE_SIZE));
  }

  lemma FirstPair(start: nat, size: nat)
    requires UpperHalf(start) && size >= 2 * PAGE_SIZE && Aligned(start, 0)
    ensures (start + 2 * PAGE_SIZE) % (4 * PAGE_SIZE) == 0 && Aligned(start + 2 * PAGE_SIZE, 0)
    ensures Boot(start, size).lists == Carve(start + 2 * PAGE_SIZE, size - 2 * PAGE_SIZE, NoBlocks()[1 := [start]])
  {
    SmallSizes();
    UpperNext(start);
    NextOrder(start, size);
    CarveStep(start, size, NoBlocks());
    assert [start] + NoBlocks()[1] == [start];
  }

  lemma UpperNext(start: nat)
    requires UpperHalf(start)
    ensures (start + 2 * PAGE_SIZE) % (4 * PAGE_SIZE) == 0 && start % (2 * PAGE_SIZE) == 0
    ensures start % (4 * PAGE_SIZE) != 0 && start % PAGE_SIZE == 0
  {
    var k := start / (4 * PAGE_SIZE);
    DivModUnique(start, 2 * PAGE_SIZE, 2 * k + 1, 0);
    DivModUnique(start, PAGE_SIZE, 4 * k + 2, 0);
  }

  lemma UpperNumbers(start: nat, size: nat, q: nat)
    requires UpperHalf(start) && size >= 2 * PAGE_SIZE && q == (size - 2 * PAGE_SIZE) % (4 * PAGE_SIZE)
    ensures (start + size - q) % (4 * PAGE_SIZE) == 0
    ensures size / PAGE_SIZE * PAGE_SIZE <= size - q + 3 * PAGE_SIZE
  {
    var k := (size - 2 * PAGE_SIZE) / (4 * PAGE_SIZE);
    var j := start / (4 * PAGE_SIZE);
    assert size == (4 * k + 2) * PAGE_SIZE + q;
    DivModUnique(start + size - q, 4 * PAGE_SIZE, k + j + 1, 0);
    assert size / PAGE_SIZE == 4 * k + 2 + q / PAGE_SIZE by {
      DivModUnique(size, PAGE_SIZE, 4 * k + 2 + q / PAGE_SIZE, q % PAGE_SIZE);
    }
  }

  lemma UpperTail(h: Heap, size: nat, q: nat)
    requires UpperHalf(h.start) && size >= 2 * PAGE_SIZE && q == (size - 2 * PAGE_SIZE) % (4 * PAGE_SIZE)
    requires h.live == multiset{}
    requires h.lists[1] == TailPair(h.start + size - q, q) + [h.start]
    requires h.lists[0] == TailPage(h.start + size - q, q)
    ensures Guard(h, size)
  {
    var t := h.start + size - q;
    UpperNumbers(h.start, size, q);
    if q >= 2 * PAGE_SIZE {
      assert h.lists[1] == [t, h.start];
      assert TailFirst(h, size);
    }
  }

  lemma BootBase(start: nat, size: nat)
    requires Aligned(start, 0)
    ensures Base(Boot(start, size), size)
    ensures FreeTotal(Boot(start, size).lists) == size / PAGE_SIZE
  {
    InitResult(start, size);
  }

  // -------------------------------------------------------------------- kalloc

  lemma AllocBase(h: Heap, size: nat)
    requires Base(h, size)
    ensures Base(Do(h, KAlloc), size)
  {
    AllocAligned(h.lists, 0);
    SmallSizes();
    var (b, r) := Alloc(h.lists, 0);
    if b.Some? {
      var h' := Do(h, KAlloc);
      forall p: nat ensures FreeCount(r, p) + h'.live[PageOf(p)] <= InRegion(h.start, size, p) {
        AllocTiles(h.lists, 0, p);
      }
    }
  }

  /** An upper half of order 1 lies at an odd multiple of 4 MB. */
  lemma SplitUpper(b: nat, i: nat)
    requires Aligned(b, i) && i >= 2
    ensures BlockSize(1) == 2 * PAGE_SIZE && UpperHalf(b + 2 * PAGE_SIZE)
  {
    SmallSizes();
    AlignedDown(b, i, 2);
  }

  lemma AllocGuard(h: Heap, size: nat)
    requires Base(h, size) && Guard(h, size)
    ensures Guard(Do(h, KAlloc), size)
  {
    AllocLists(h.lists, 0);
    var (b, r) := Alloc(h.lists, 0);
    if UpperHalf(h.start) && b.Some? {
      var h' := Do(h, KAlloc);
      var i := SmallestOrder(h.lists, 0);
      if i >= 2 {
        SplitUpper(b.value, i);
        assert r[1] == [b.value + 2 * PAGE_SIZE];
      } else if i == 1 {
        assert r[1] == h.lists[1][1..];
      } else if TailFirst(h, size) {
        assert r[1] == h.lists[1] && r[0] == h.lists[0][1..];
        assert TailFirst(h', size);
      } else {
        assert r[1] == h.lists[1];
      }
    }
  }

  // --------------------------------------------------------------------- kfree

  /** Flipping the bit worth `k` bytes of the offset from `s`. */
  function Flip(s: nat, a: nat, k: nat): int
    requires s <= a && k > 0
  {
    if (a - s) / k % 2 == 0 then a + k else a - k
  }

  /** The relative buddy at the three lowest orders. */
  lemma LowBuddies(start: nat, addr: nat)
    requires start <= addr
    ensures RelBuddy(start, addr, 0) == Flip(start, addr, PAGE_SIZE)
    ensures RelBuddy(start, addr, 1) == Flip(start, addr, 2 * PAGE_SIZE)
    ensures RelBuddy(start, addr, 2) == Flip(start, addr, 4 * PAGE_SIZE)
  {
    SmallSizes();
    RelBuddyValue(start, addr, 0);
    RelBuddyValue(start, addr, 1);
    RelBuddyValue(start, addr, 2);
  }

  /** A page and its order-0 buddy make a pair whose offset from `s` is a multiple of 4 MB. */
  lemma PairFacts(s: nat, v: nat, b0: int)
    requires s <= v && s % PAGE_SIZE == 0 && v % PAGE_SIZE == 0 && b0 == Flip(s, v, PAGE_SIZE)
    ensures b0 >= s
    ensures var m := Min(v, b0);
            && s <= m && (m - s) % (2 * PAGE_SIZE) == 0
            && ((v == m && b0 == m + PAGE_SIZE) || (b0 == m && v == m + PAGE_SIZE))
  {
    var x := v - s;
    assert x % PAGE_SIZE == 0;
    assert x == x / PAGE_SIZE * PAGE_SIZE;
  }

  /** The order-1 buddy of such a pair. */
  lemma SecondFacts(s: nat, m: nat, b1: int)
    requires s <= m && (m - s) % (2 * PAGE_SIZE) == 0 && b1 == Flip(s, m, 2 * PAGE_SIZE)
    ensures b1 == m + 2 * PAGE_SIZE || b1 == m - 2 * PAGE_SIZE
    ensures b1 >= s
    ensures b1 % (2 * PAGE_SIZE) == s % (2 * PAGE_SIZE)
    ensures UpperHalf(s) && b1 > m ==> b1 % (4 * PAGE_SIZE) == 0
    ensures UpperHalf(s) && b1 < m ==> UpperHalf(b1)
  {
    var k := (m - s) / (2 * PAGE_SIZE);
    if k % 2 == 0 {
      OddMultiple(s, k + 1);
    } else {
      EvenMultiple(s, k - 1);
    }
  }

  lemma OddMultiple(s: nat, k: nat)
    requires k % 2 == 1
    ensures (s + k * (2 * PAGE_SIZE)) % (2 * PAGE_SIZE) == s % (2 * PAGE_SIZE)
    ensures UpperHalf(s) ==> (s + k * (2 * PAGE_SIZE)) % (4 * PAGE_SIZE) == 0
  {
    PlusMultiple(s, k, 2 * PAGE_SIZE);
    PlusMultiple(s + 2 * PAGE_SIZE, k / 2, 4 * PAGE_SIZE);
  }

  lemma EvenMultiple(s: nat, k: nat)
    requires k % 2 == 0
    ensures (s + k * (2 * PAGE_SIZE)) % (2 * PAGE_SIZE) == s % (2 * PAGE_SIZE)
    ensures UpperHalf(s) ==> UpperHalf(s + k * (2 * PAGE_SIZE))
  {
    PlusMultiple(s, k, 2 * PAGE_SIZE);
    PlusMultiple(s, k / 2, 4 * PAGE_SIZE);
  }

  lemma PlusMultiple(x: nat, k: nat, d: nat)
    requires d > 0
    ensures (x + k * d) % d == x % d
  {
    assert x + k * d == (x / d + k) * d + x % d;
    DivModUnique(x + k * d, d, x / d + k, x % d);
  }

  /** The order-2 buddy of a block that sits at an odd multiple of 4 MB, like `s`. */
  lemma ThirdFacts(s: nat, a: nat)
    requires s <= a && UpperHalf(s) && UpperHalf(a)
    ensures Flip(s, a, 4 * PAGE_SIZE) % (4 * PAGE_SIZE) != 0
  {
  }

  /** A free block lies inside the region. */
  lemma FreeBlockInside(h: Heap, size: nat, i: nat, b: nat, p: nat)
    requires Base(h, size) && i < MAX_ORDER && b in h.lists[i] && b <= p < b + BlockSize(i)
    ensures h.start <= p < h.start + size / PAGE_SIZE * PAGE_SIZE
    ensures h.live[PageOf(p)] == 0
  {
    BlockIsFree(h.lists, i, b, p);
  }

  /** A merge at order 0 shows that the carved tail has been handed out. */
  lemma MergeMeansNoTail(h: Heap, size: nat, v: nat)
    requires Base(h, size) && Guard(h, size) && v in h.live && h.start <= v && UpperHalf(h.start)
    requires RelBuddy(h.start, v, 0) in h.lists[0]
    ensures forall b | b in h.lists[1] :: UpperHalf(b)
  {
    if TailFirst(h, size) {
      var t := h.lists[1][0];
      var b0 := RelBuddy(h.start, v, 0);
      SmallSizes();
      LiveInside(h, size, v);
      FreeBlockInside(h, size, 0, b0, b0);
      LowBuddies(h.start, v);
      NoRoomForPair(h.start, v, t, h.start + size / PAGE_SIZE * PAGE_SIZE);
    }
  }

  lemma OnlyPage(t: nat, v: nat)
    requires t % (4 * PAGE_SIZE) == 0 && v % PAGE_SIZE == 0 && t + 2 * PAGE_SIZE <= v < t + 3 * PAGE_SIZE
    ensures v == t + 2 * PAGE_SIZE
  {
    DivModUnique(v, PAGE_SIZE, t / (4 * PAGE_SIZE) * 4 + 2, v - t - 2 * PAGE_SIZE);
  }

  lemma NoRoomForPair(s: nat, v: nat, t: nat, end: nat)
    requires UpperHalf(s) && t % (4 * PAGE_SIZE) == 0 && v % PAGE_SIZE == 0
    requires s <= v && t + 2 * PAGE_SIZE <= v < end <= t + 3 * PAGE_SIZE
    ensures Flip(s, v, PAGE_SIZE) >= end
  {
    OnlyPage(t, v);
    DivModUnique(v - s, PAGE_SIZE, 4 * (t / (4 * PAGE_SIZE) - s / (4 * PAGE_SIZE)), 0);
  }

  lemma NoRoomForTwo(s: nat, size: nat, m: nat, b1: nat)
    requires s % (4 * PAGE_SIZE) == 0 && size < 4 * PAGE_SIZE && (m - s) % (2 * PAGE_SIZE) == 0
    requires s <= m && s <= b1 && (b1 == m + 2 * PAGE_SIZE || b1 == m - 2 * PAGE_SIZE)
    ensures b1 + PAGE_SIZE >= s + size / PAGE_SIZE * PAGE_SIZE || m + PAGE_SIZE >= s + size / PAGE_SIZE * PAGE_SIZE
  {
  }

  /** The numbers of a merge at order 0: the pair `m` and its order-1 buddy. */
  lemma MergedPair(h: Heap, size: nat, v: nat)
    requires Base(h, size) && v in h.live && h.start <= v
    ensures var b0 := RelBuddy(h.start, v, 0);
            var m := Min(v, b0);
            var b1 := RelBuddy(h.start, m, 1);
            && h.start % PAGE_SIZE == 0 && (m - h.start) % (2 * PAGE_SIZE) == 0
            && ((v == m && b0 == m + PAGE_SIZE) || (b0 == m && v == m + PAGE_SIZE))
            && b1 == Flip(h.start, m, 2 * PAGE_SIZE)
  {
    SmallSizes();
    LiveInside(h, size, v);
    LowBuddies(h.start, v);
    PairFacts(h.start, v, RelBuddy(h.start, v, 0));
    LowBuddies(h.start, Min(v, RelBuddy(h.start, v, 0)));
  }

  /** From a multiple of 8 MB with less than 8 MB, no order-1 buddy of a merged pair is free. */
  lemma TinyRegion(h: Heap, size: nat, v: nat, m: nat, b1: nat)
    requires Base(h, size) && v in h.live && h.start % (4 * PAGE_SIZE) == 0 && size < 4 * PAGE_SIZE
    requires v == m || v == m + PAGE_SIZE
    requires m + PAGE_SIZE in h.lists[0] || v == m + PAGE_SIZE
    requires h.start <= m && (m - h.start) % (2 * PAGE_SIZE) == 0
    requires h.start <= b1 && (b1 == m + 2 * PAGE_SIZE || b1 == m - 2 * PAGE_SIZE)
    ensures b1 !in h.lists[1]
  {
    if b1 in h.lists[1] {
      SmallSizes();
      LiveInside(h, size, v);
      if m + PAGE_SIZE in h.lists[0] {
        FreeBlockInside(h, size, 0, m + PAGE_SIZE, m + PAGE_SIZE);
      }
      FreeBlockInside(h, size, 1, b1, b1 + PAGE_SIZE);
      NoRoomForTwo(h.start, size, m, b1);
    }
  }

  /** After a merge at order 0 into the pair at `m`, the order-1 buddy of `m` is not free, or it is
      the lower one and lies at an odd multiple of 4 MB. */
  lemma OrderOneBuddy(h: Heap, size: nat, v: nat)
    requires Base(h, size) && Guard(h, size) && v in h.live && h.start <= v
    requires RelBuddy(h.start, v, 0) in h.lists[0]
    ensures var m := Min(v, RelBuddy(h.start, v, 0));
            var b1 := RelBuddy(h.start, m, 1);
            b1 in h.lists[1] ==> UpperHalf(h.start) && b1 < m && UpperHalf(b1)
  {
    var s := h.start;
    var m := Min(v, RelBuddy(s, v, 0));
    var b1 := RelBuddy(s, m, 1);
    MergedPair(h, size, v);
    SecondFacts(s, m, b1);
    if b1 in h.lists[1] {
      if s % (4 * PAGE_SIZE) == 0 {
        TinyRegion(h, size, v, m, b1);
      } else if UpperHalf(s) {
        MergeMeansNoTail(h, size, v);
      } else {
        OddStart(s);
        SmallSizes();
      }
    }
  }

  lemma OddStart(s: nat)
    requires s % (4 * PAGE_SIZE) != 0 && !UpperHalf(s) && s % PAGE_SIZE == 0
    ensures s % (2 * PAGE_SIZE) != 0
  {
  }

  lemma LiveInside(h: Heap, size: nat, v: nat)
    requires Base(h, size) && v in h.live
    ensures Aligned(v, 0) && h.start <= v < h.start + size / PAGE_SIZE * PAGE_SIZE
    ensures FreeCount(h.lists, v) == 0
  {
    SmallSizes();
    assert PageOf(v) == v;
    assert FreeCount(h.lists, v) + h.live[PageOf(v)] <= InRegion(h.start, size, v);
  }

  /** No byte of a live page is free. */
  lemma LiveBytes(h: Heap, size: nat, v: nat, p: nat)
    requires Base(h, size) && v in h.live && v <= p < v + PAGE_SIZE
    ensures FreeCount(h.lists, p) == 0
  {
    LiveInside(h, size, v);
    SmallSizes();
    DivModUnique(p, PAGE_SIZE, v / PAGE_SIZE, p - v);
    assert PageOf(p) == v;
    assert FreeCount(h.lists, p) + h.live[PageOf(p)] <= InRegion(h.start, size, p);
  }

  /** List `i` with block `x` exchanged for `y`, which goes to the front. */
  function Swapped(fl: FreeLists, i: nat, x: nat, y: nat): FreeLists
    requires i < MAX_ORDER && x in fl[i]
  {
    fl[i := [y] + RemoveFirst(fl[i], x)]
  }

  lemma NoOrderTwo(h: Heap, size: nat, b1: nat)
    requires Base(h, size) && UpperHalf(h.start) && UpperHalf(b1) && h.start <= b1
    ensures RelBuddy(h.start, b1, 2) !in h.lists[2]
  {
    SmallSizes();
    LowBuddies(h.start, b1);
    ThirdFacts(h.start, b1);
    assert !Aligned(RelBuddy(h.start, b1, 2), 2);
  }

  /** What kfree leaves when the order-0 buddy is free: one order-0 block exchanged, and possibly
      the order-1 list with one of its own blocks moved to the front. */
  lemma FreeMerges(h: Heap, size: nat, v: nat)
    requires Base(h, size) && Guard(h, size) && v in h.live && h.start <= v
    requires RelBuddy(h.start, v, 0) in h.lists[0]
    ensures var b0 := RelBuddy(h.start, v, 0);
            var fl1 := Swapped(h.lists, 0, b0, Min(v, b0));
            var b1 := RelBuddy(h.start, Min(v, b0), 1);
            Free(h.lists, h.start, v, 0) == if b1 in fl1[1] then Swapped(fl1, 1, b1, b1) else fl1
  {
    var s := h.start;
    var b0 := RelBuddy(s, v, 0);
    var m := Min(v, b0);
    var fl1 := Swapped(h.lists, 0, b0, m);
    var b1 := RelBuddy(s, m, 1);
    OrderOneBuddy(h, size, v);
    assert Free(h.lists, s, v, 0) == Free(fl1, s, m, 1);
    if b1 in fl1[1] {
      var fl2 := Swapped(fl1, 1, b1, b1);
      assert Min(m, b1) == b1;
      assert Free(fl1, s, m, 1) == Free(fl2, s, b1, 2);
      NoOrderTwo(h, size, b1);
      assert fl2[2] == h.lists[2];
      assert Free(fl2, s, b1, 2) == fl2;
    }
  }

  /** Exchanging block `x` for block `y` of the same order. */
  lemma SwapCount(fl: FreeLists, i: nat, x: nat, y: nat, p: nat)
    requires i < MAX_ORDER && x in fl[i]
    ensures FreeCount(Swapped(fl, i, x, y), p) + Has(x, i, p) == FreeCount(fl, p) + Has(y, i, p)
  {
    var l := [y] + RemoveFirst(fl[i], x);
    CountUpdate(fl, i, l, |fl|, p);
    RemoveCount(fl[i], x, i, p);
    assert l[1..] == RemoveFirst(fl[i], x);
  }

  lemma SwapMembers(fl: FreeLists, i: nat, x: nat, y: nat, z: nat)
    requires i < MAX_ORDER && x in fl[i] && z in Swapped(fl, i, x, y)[i]
    ensures z == y || z in fl[i]
  {
    if z != y {
      assert z in RemoveFirst(fl[i], x);
      assert z in multiset(RemoveFirst(fl[i], x));
      assert z in multiset(fl[i]);
    }
  }

  lemma FreeCounts(h: Heap, size: nat, v: nat, p: nat)
    requires Base(h, size) && Guard(h, size) && v in h.live && h.start <= v
    ensures var r := Free(h.lists, h.start, v, 0);
            FreeCount(r, p) <= FreeCount(h.lists, p) + Has(v, 0, p)
  {
    var b0 := RelBuddy(h.start, v, 0);
    if b0 in h.lists[0] {
      FreeMerges(h, size, v);
      var m := Min(v, b0);
      var fl1 := Swapped(h.lists, 0, b0, m);
      SwapCount(h.lists, 0, b0, m, p);
      var b1 := RelBuddy(h.start, m, 1);
      if b1 in fl1[1] {
        SwapCount(fl1, 1, b1, b1, p);
      }
    }
  }

  lemma FreeAligned(h: Heap, size: nat, v: nat)
    requires Base(h, size) && Guard(h, size) && v in h.live && h.start <= v
    ensures AllAligned(Free(h.lists, h.start, v, 0))
    ensures forall b | b in Free(h.lists, h.start, v, 0)[1] :: b in h.lists[1]
  {
    LiveInside(h, size, v);
    var b0 := RelBuddy(h.start, v, 0);
    if b0 in h.lists[0] {
      FreeMerges(h, size, v);
      var m := Min(v, b0);
      var fl1 := Swapped(h.lists, 0, b0, m);
      forall z | z in fl1[0] ensures z == m || z in h.lists[0] {
        SwapMembers(h.lists, 0, b0, m, z);
      }
      assert AllAligned(fl1);
      var b1 := RelBuddy(h.start, m, 1);
      if b1 in fl1[1] {
        forall z | z in Swapped(fl1, 1, b1, b1)[1] ensures z in fl1[1] {
          SwapMembers(fl1, 1, b1, b1, z);
        }
      }
    }
  }

  lemma HasPage(v: nat, p: nat)
    requires v % PAGE_SIZE == 0
    ensures Has(v, 0, p) == if PageOf(p) == v then 1 else 0
  {
    SmallSizes();
  }

  lemma FreeInv(h: Heap, size: nat, v: nat)
    requires Base(h, size) && Guard(h, size) && v in h.live && h.start <= v
    ensures Base(Do(h, KFree(v)), size) && Guard(Do(h, KFree(v)), size)
  {
    var h' := Do(h, KFree(v));
    FreeAligned(h, size, v);
    LiveInside(h, size, v);
    SmallSizes();
    forall p: nat ensures FreeCount(h'.lists, p) + h'.live[PageOf(p)] <= InRegion(h.start, size, p) {
      FreeCounts(h, size, v, p);
      HasPage(v, p);
    }
    if UpperHalf(h.start) {
      if RelBuddy(h.start, v, 0) in h.lists[0] {
        MergeMeansNoTail(h, size, v);
      }
    }
  }

  // ------------------------------------------------------------------ the runs

  lemma {:induction false} RunInv(h: Heap, size: nat, ops: seq<Op>)
    requires LegalRun(h, ops) && Base(h, size) && Guard(h, size)
    ensures Base(Run(h, ops), size) && Guard(Run(h, ops), size)
    decreases |ops|
  {
    if ops != [] {
      var n := |ops| - 1;
      RunInv(h, size, ops[..n]);
      StepInv(Run(h, ops[..n]), size, ops[n]);
    }
  }

  lemma StepInv(h: Heap, size: nat, op: Op)
    requires Legal(h, op) && Base(h, size) && Guard(h, size)
    ensures Base(Do(h, op), size) && Guard(Do(h, op), size)
  {
    if op.KAlloc? {
      AllocBase(h, size);
      AllocGuard(h, size);
    } else {
      FreeInv(h, size, op.page);
    }
  }

  /** The page kalloc returns is not live. */
  lemma AllocFresh(h: Heap, size: nat)
    requires Base(h, size) && Alloc(h.lists, 0).0.Some?
    ensures Alloc(h.lists, 0).0.value !in h.live
  {
    var b := Alloc(h.lists, 0).0.value;
    AllocTiles(h.lists, 0, b);
    if b in h.live {
      LiveInside(h, size, b);
    }
  }

  lemma BaseIsSound(h: Heap, size: nat)
    requires Base(h, size)
    ensures Sound(h)
  {
  }

  /** From a good start address every legal run keeps free blocks aligned, pairwise disjoint and
      disjoint from the live pages, so that kalloc never returns a live page. */
  lemma GoodStartIsSound(start: nat, size: nat, ops: seq<Op>)
    requires Aligned(start, 0) && GoodStart(start, size)
    requires LegalRun(Boot(start, size), ops)
    ensures var h := Run(Boot(start, size), ops);
            && Sound(h) && AllAligned(h.lists)
            && (Alloc(h.lists, 0).0.Some? ==> Alloc(h.lists, 0).0.value !in h.live)
  {
    BootInv(start, size);
    RunInv(Boot(start, size), size, ops);
    var h := Run(Boot(start, size), ops);
    BaseIsSound(h, size);
    if Alloc(h.lists, 0).0.Some? {
      AllocFresh(h, size);
    }
  }

  lemma OddIsGood(start: nat, size: nat)
    requires start % (2 * PAGE_SIZE) != 0
    ensures GoodStart(start, size) && !UpperHalf(start)
  {
    if start % (4 * PAGE_SIZE) == 0 {
      DivModUnique(start, 2 * PAGE_SIZE, start / (4 * PAGE_SIZE) * 2, 0);
    } else if UpperHalf(start) {
      DivModUnique(start, 2 * PAGE_SIZE, start / (4 * PAGE_SIZE) * 2 + 1, 0);
    }
  }

  lemma {:induction false} RunStart(h: Heap, ops: seq<Op>)
    requires LegalRun(h, ops)
    ensures Run(h, ops).start == h.start
    decreases |ops|
  {
    if ops != [] {
      RunStart(h, ops[..|ops| - 1]);
    }
  }

  ghost predicate MergesOnce(h: Heap, v: nat)
    requires h.start <= v
  {
    var b0 := RelBuddy(h.start, v, 0);
    Free(h.lists, h.start, v, 0) == if b0 in h.lists[0] then Swapped(h.lists, 0, b0, Min(v, b0)) else h.lists
  }

  lemma NotUpperMergesOnce(h: Heap, size: nat, v: nat)
    requires Base(h, size) && Guard(h, size) && v in h.live && h.start <= v && !UpperHalf(h.start)
    ensures MergesOnce(h, v)
  {
    if RelBuddy(h.start, v, 0) in h.lists[0] {
      FreeMerges(h, size, v);
      OrderOneBuddy(h, size, v);
    }
  }

  /** From a start at an odd multiple of 2 MB, no kfree in any run merges above order 0: it exchanges
      one order-0 block when the buddy is free and otherwise changes nothing. */
  lemma OddStartMergesOnce(start: nat, size: nat, ops: seq<Op>, v: nat)
    requires Aligned(start, 0) && start % (2 * PAGE_SIZE) != 0 && LegalRun(Boot(start, size), ops)
    requires Legal(Run(Boot(start, size), ops), KFree(v))
    ensures MergesOnce(Run(Boot(start, size), ops), v)
  {
    OddIsGood(start, size);
    BootInv(start, size);
    RunInv(Boot(start, size), size, ops);
    RunStart(Boot(start, size), ops);
    NotUpperMergesOnce(Run(Boot(start, size), ops), size, v);
  }

  // ------------------------------------------------------- the bad start address

  function Allocs(k: nat): seq<Op> {
    seq(k, _ => KAlloc)
  }

  lemma Extend(h: Heap, ops: seq<Op>, op: Op)
    requires LegalRun(h, ops) && Legal(Run(h, ops), op)
    ensures LegalRun(h, ops + [op]) && Run(h, ops + [op]) == Do(Run(h, ops), op)
  {
    var all := ops + [op];
    assert all[..|all| - 1] == ops;
  }

  /** One more kalloc at the end of `k` kallocs. */
  lemma OneMore(h: Heap, k: nat)
    requires LegalRun(h, Allocs(k))
    ensures LegalRun(h, Allocs(k + 1)) && Run(h, Allocs(k + 1)) == Do(Run(h, Allocs(k)), KAlloc)
  {
    Extend(h, Allocs(k), KAlloc);
    assert Allocs(k) + [KAlloc] == Allocs(k + 1);
  }

  /** While the two lowest lists hold pages, each kalloc takes one of them. */
  lemma DrainStep(h: Heap, size: nat)
    requires Base(h, size) && |h.lists[0]| + 2 * |h.lists[1]| > 0
    ensures var r := Do(h, KAlloc);
            && Base(r, size) && r.start == h.start
            && |r.lists[0]| + 2 * |r.lists[1]| + 1 == |h.lists[0]| + 2 * |h.lists[1]|
            && FreeTotal(r.lists) + 1 == FreeTotal(h.lists)
  {
    AllocBase(h, size);
    AllocLists(h.lists, 0);
    AllocTiles(h.lists, 0, 0);
    assert SmallestOrder(h.lists, 0) <= 1;
  }

  lemma {:induction false} Drain(h: Heap, size: nat, k: nat)
    requires Base(h, size) && k <= |h.lists[0]| + 2 * |h.lists[1]|
    ensures LegalRun(h, Allocs(k))
    ensures var r := Run(h, Allocs(k));
            && Base(r, size) && r.start == h.start
            && |r.lists[0]| + 2 * |r.lists[1]| + k == |h.lists[0]| + 2 * |h.lists[1]|
            && FreeTotal(r.lists) + k == FreeTotal(h.lists)
  {
    if k == 0 {
      assert Allocs(0) == [];
    } else {
      Drain(h, size, k - 1);
      DrainStep(Run(h, Allocs(k - 1)), size);
      OneMore(h, k - 1);
    }
  }

  lemma {:induction false} TwoLists(fl: FreeLists, k: nat, p: nat)
    requires 2 <= k <= |fl|
    ensures CountBelow(fl, k, p) >= ListCount(fl[0], 0, p) + ListCount(fl[1], 1, p)
  {
    if k > 2 {
      TwoLists(fl, k - 1, p);
    } else {
      assert CountBelow(fl, 2, p) == CountBelow(fl, 1, p) + ListCount(fl[1], 1, p);
      assert CountBelow(fl, 1, p) == CountBelow(fl, 0, p) + ListCount(fl[0], 0, p);
    }
  }

  /** With both low lists empty, a kalloc splits a larger block. */
  lemma SplitLarge(h: Heap, size: nat) returns (v: nat)
    requires Base(h, size) && h.lists[0] == [] && h.lists[1] == [] && FreeTotal(h.lists) > 0
    ensures var h1 := Do(h, KAlloc);
            && v in h1.live && h.start <= v && v % (4 * PAGE_SIZE) == 0 && h1.start == h.start
            && h1.lists[0] == [v + PAGE_SIZE] && h1.lists[1] == [v + 2 * PAGE_SIZE]
  {
    AllocNone(h.lists);
    AllocLists(h.lists, 0);
    AllocBase(h, size);
    v := Alloc(h.lists, 0).0.value;
    SmallSizes();
    AlignedDown(v, SmallestOrder(h.lists, 0), 2);
    LiveInside(Do(h, KAlloc), size, v);
  }

  /** Freeing the page that a split returned merges it twice and leaves it on list 0 and on list 1. */
  lemma DoubleMerge(h: Heap, v: nat)
    requires h.start % (4 * PAGE_SIZE) == 0 && v % (4 * PAGE_SIZE) == 0 && h.start <= v && v in h.live
    requires h.lists[0] == [v + PAGE_SIZE] && h.lists[1] == [v + 2 * PAGE_SIZE]
    ensures !Sound(Do(h, KFree(v)))
  {
    LowBuddies(h.start, v);
    FirstFlips(h.start, v);
    var s := h.start;
    var fl1 := Swapped(h.lists, 0, v + PAGE_SIZE, v);
    assert fl1[0] == [v];
    var fl2 := Swapped(fl1, 1, v + 2 * PAGE_SIZE, v);
    assert fl2[1] == [v];
    assert Free(h.lists, s, v, 0) == Free(fl1, s, v, 1);
    assert Free(fl1, s, v, 1) == Free(fl2, s, v, 2);
    FreeKeepsLengths(fl2, s, v, 2);
    var r := Free(fl2, s, v, 2);
    assert r[0] == [v] && r[1] == [v];
    TwoLists(r, |r|, v);
    assert FreeCount(r, v) >= 2;
  }

  lemma FirstFlips(s: nat, v: nat)
    requires s % (4 * PAGE_SIZE) == 0 && v % (4 * PAGE_SIZE) == 0 && s <= v
    ensures Flip(s, v, PAGE_SIZE) == v + PAGE_SIZE && Flip(s, v, 2 * PAGE_SIZE) == v + 2 * PAGE_SIZE
  {
    var k := (v - s) / (4 * PAGE_SIZE);
    DivModUnique(v - s, PAGE_SIZE, 4 * k, 0);
    DivModUnique(v - s, 2 * PAGE_SIZE, 2 * k, 0);
  }

  /** kalloc fails exactly when no page is free. */
  lemma AllocNone(fl: FreeLists)
    ensures Alloc(fl, 0).0 == None <==> FreeTotal(fl) == 0
  {
    AllocLists(fl, 0);
    if Alloc(fl, 0).0 == None {
      EmptyPages(fl, |fl|);
    } else {
      AllocTiles(fl, 0, 0);
    }
  }

  lemma {:induction false} EmptyPages(fl: FreeLists, k: nat)
    requires k <= |fl| && forall j :: 0 <= j < MAX_ORDER ==> fl[j] == []
    ensures PagesBelow(fl, k) == 0
  {
    if k > 0 {
      EmptyPages(fl, k - 1);
    }
  }

  /** The page `v` was split off a larger block, whose other parts are alone on lists 0 and 1. */
  ghost predicate SplitOff(h: Heap, v: nat) {
    && h.start % (4 * PAGE_SIZE) == 0 && v % (4 * PAGE_SIZE) == 0 && h.start <= v && v in h.live
    && h.lists[0] == [v + PAGE_SIZE] && h.lists[1] == [v + 2 * PAGE_SIZE]
  }

  /** Every bad region has a run of kallocs that ends with such a split. */
  lemma BadStartSplits(start: nat, size: nat) returns (ops: seq<Op>, v: nat)
    requires Aligned(start, 0) && !GoodStart(start, size)
    ensures LegalRun(Boot(start, size), ops) && SplitOff(Run(Boot(start, size), ops), v)
  {
    var h := Boot(start, size);
    BootBase(start, size);
    CarveLow(start, size, NoBlocks());
    var k := |h.lists[0]| + 2 * |h.lists[1]|;
    assert k <= 3;
    Drain(h, size, k);
    v := SplitLarge(Run(h, Allocs(k)), size);
    OneMore(h, k);
    ops := Allocs(k + 1);
  }

  lemma BadStartIsUnsound(start: nat, size: nat) returns (ops: seq<Op>)
    requires Aligned(start, 0) && !GoodStart(start, size)
    ensures LegalRun(Boot(start, size), ops) && !Sound(Run(Boot(start, size), ops))
  {
    var allocs, v := BadStartSplits(start, size);
    var h := Run(Boot(start, size), allocs);
    DoubleMerge(h, v);
    Extend(Boot(start, size), allocs, KFree(v));
    ops := allocs + [KFree(v)];
  }

  ghost predicate AlwaysSound(start: nat, size: nat)
    requires Aligned(start, 0)
  {
    forall ops | LegalRun(Boot(start, size), ops) :: Sound(Run(Boot(start, size), ops))
  }

  /** The allocator as written is sound over every legal run exactly when the region does not start
      at a multiple of 8 MB or is smaller than 8 MB. */
  lemma SoundIffGoodStart(start: nat, size: nat)
    requires Aligned(start, 0)
    ensures AlwaysSound(start, size) <==> GoodStart(start, size)
  {
    if GoodStart(start, size) {
      forall ops | LegalRun(Boot(start, size), ops) ensures Sound(Run(Boot(start, size), ops)) {
        GoodStartIsSound(start, size, ops);
      }
    } else {
      var ops := BadStartIsUnsound(start, size);
    }
  }

  // ------------------------------------------------------------- page accounting

  lemma StepBudget(h: Heap, op: Op)
    requires Legal(h, op)
    ensures FreeTotal(Do(h, op).lists) + Do(h, op).granted == FreeTotal(h.lists) + h.granted
  {
    if op.KAlloc? {
      if Alloc(h.lists, 0).0.Some? {
        AllocTiles(h.lists, 0, 0);
      }
    } else {
      FreeKeepsLengths(h.lists, h.start, op.page, 0);
      SameLengthsSamePages(h.lists, Do(h, op).lists, |h.lists|);
    }
  }

  lemma {:induction false} RunBudget(h: Heap, ops: seq<Op>)
    requires LegalRun(h, ops)
    ensures FreeTotal(Run(h, ops).lists) + Run(h, ops).granted == FreeTotal(h.lists) + h.granted
    decreases |ops|
  {
    if ops != [] {
      var n := |ops| - 1;
      RunBudget(h, ops[..n]);
      StepBudget(Run(h, ops[..n]), ops[n]);
    }
  }

  /** Whatever is freed, over a whole run at most as many kallocs succeed as the region has pages,
      and a kalloc fails exactly when that many have succeeded.  In a region with a bad start the
      relinked words cease to be these lists, so nothing is said about it. */
  lemma LifetimeBudget(start: nat, size: nat, ops: seq<Op>)
    requires Aligned(start, 0) && GoodStart(start, size) && LegalRun(Boot(start, size), ops)
    ensures var h := Run(Boot(start, size), ops);
            && FreeTotal(h.lists) == size / PAGE_SIZE - h.granted
            && (Alloc(h.lists, 0).0 == None <==> h.granted == size / PAGE_SIZE)
  {
    BootBase(start, size);
    RunBudget(Boot(start, size), ops);
    AllocNone(Run(Boot(start, size), ops).lists);
  }

  /** All granted pages are live, and as many are free as were not granted. */
  ghost predicate NothingFreed(r: Heap, size: nat, total: nat) {
    Base(r, size) && |r.live| == r.granted && FreeTotal(r.lists) + r.granted == total
  }

  lemma OnlyAllocsStep(r: Heap, size: nat, total: nat)
    requires NothingFreed(r, size, total)
    ensures NothingFreed(Do(r, KAlloc), size, total)
    ensures Do(r, KAlloc).granted == if r.granted < total then r.granted + 1 else r.granted
  {
    AllocBase(r, size);
    StepBudget(r, KAlloc);
    AllocNone(r.lists);
  }

  /** `k` kallocs lead from `h` to `r`. */
  ghost predicate AllocsTo(h: Heap, k: nat, r: Heap) {
    LegalRun(h, Allocs(k)) && Run(h, Allocs(k)) == r
  }

  lemma AllocsToNext(h: Heap, k: nat, r: Heap)
    requires AllocsTo(h, k, r)
    ensures AllocsTo(h, k + 1, Do(r, KAlloc))
  {
    OneMore(h, k);
  }

  lemma AllocsToNone(h: Heap)
    ensures AllocsTo(h, 0, h)
  {
    assert Allocs(0) == [];
  }

  lemma {:induction false} OnlyAllocs(h: Heap, size: nat, k: nat, total: nat) returns (r: Heap)
    requires NothingFreed(h, size, total) && h.granted == 0
    ensures AllocsTo(h, k, r) && NothingFreed(r, size, total) && r.granted == if k < total then k else total
    decreases k
  {
    if k == 0 {
      AllocsToNone(h);
      r := h;
    } else {
      var r0 := OnlyAllocs(h, size, k - 1, total);
      AllocsToNext(h, k - 1, r0);
      OnlyAllocsStep(r0, size, total);
      r := Do(r0, KAlloc);
    }
  }

  lemma LiveOnce(h: Heap, size: nat, v: nat)
    requires Base(h, size)
    ensures h.live[v] <= 1
  {
    if v in h.live {
      SmallSizes();
      LiveInside(h, size, v);
      assert PageOf(v) == v;
      assert FreeCount(h.lists, v) + h.live[PageOf(v)] <= InRegion(h.start, size, v);
    }
  }

  /** With no kfree, `k` kallocs on any region return min(k, number of pages) distinct pages. */
  lemma DistinctGrants(start: nat, size: nat, k: nat)
    requires Aligned(start, 0)
    ensures LegalRun(Boot(start, size), Allocs(k))
    ensures var h := Run(Boot(start, size), Allocs(k));
            && |h.live| == (if k < size / PAGE_SIZE then k else size / PAGE_SIZE)
            && forall v: nat :: h.live[v] <= 1
  {
    BootBase(start, size);
    var h := OnlyAllocs(Boot(start, size), size, k, size / PAGE_SIZE);
    forall v: nat ensures h.live[v] <= 1 {
      LiveOnce(h, size, v);
    }
  }

  // ------------------------------------------------------- several calls in a row

  /** The `i`-th of these heaps gives page `i` on kalloc and becomes the next one. */
  ghost predicate TakesAt(hs: seq<Heap>, pages: seq<nat>, i: nat) {
    && i < |pages| && i + 1 < |hs|
    && Alloc(hs[i].lists, 0).0 == Some(pages[i]) && hs[i + 1] == Do(hs[i], KAlloc)
  }

  ghost predicate TakesVia(h: Heap, pages: seq<nat>, h': Heap, hs: seq<Heap>) {
    && |hs| == |pages| + 1 && hs[0] == h && hs[|pages|] == h'
    && forall i: nat | i < |pages| :: TakesAt(hs, pages, i)
  }

  /** Successive kallocs return exactly these pages and lead from `h` to `h'`. */
  ghost predicate Takes(h: Heap, pages: seq<nat>, h': Heap) {
    exists hs: seq<Heap> :: TakesVia(h, pages, h', hs)
  }

  /** Page `i` is live in the `i`-th of these heaps, which becomes the next one on its kfree. */
  ghost predicate FreesAt(hs: seq<Heap>, pages: seq<nat>, i: nat) {
    && i < |pages| && i + 1 < |hs|
    && Legal(hs[i], KFree(pages[i])) && hs[i + 1] == Do(hs[i], KFree(pages[i]))
  }

  ghost predicate FreesVia(h: Heap, pages: seq<nat>, h': Heap, hs: seq<Heap>) {
    && |hs| == |pages| + 1 && hs[0] == h && hs[|pages|] == h'
    && forall i: nat | i < |pages| :: FreesAt(hs, pages, i)
  }

  /** Successive kfrees of these pages, each live at its turn, lead from `h` to `h'`. */
  ghost predicate Frees(h: Heap, pages: seq<nat>, h': Heap) {
    exists hs: seq<Heap> :: FreesVia(h, pages, h', hs)
  }

  lemma TakesConcat(a: Heap, p: seq<nat>, b: Heap, q: seq<nat>, c: Heap)
    requires Takes(a, p, b) && Takes(b, q, c)
    ensures Takes(a, p + q, c)
  {
    var hs :| TakesVia(a, p, b, hs);
    var ks :| TakesVia(b, q, c, ks);
    var all := hs + ks[1..];
    forall i: nat | i < |p + q| ensures TakesAt(all, p + q, i) {
      if i < |p| {
        assert TakesAt(hs, p, i);
      } else {
        assert TakesAt(ks, q, i - |p|);
      }
    }
    assert TakesVia(a, p + q, c, all);
  }

  lemma FreesConcat(a: Heap, p: seq<nat>, b: Heap, q: seq<nat>, c: Heap)
    requires Frees(a, p, b) && Frees(b, q, c)
    ensures Frees(a, p + q, c)
  {
    var hs :| FreesVia(a, p, b, hs);
    var ks :| FreesVia(b, q, c, ks);
    var all := hs + ks[1..];
    forall i: nat | i < |p + q| ensures FreesAt(all, p + q, i) {
      if i < |p| {
        assert FreesAt(hs, p, i);
      } else {
        assert FreesAt(ks, q, i - |p|);
      }
    }
    assert FreesVia(a, p + q, c, all);
  }

  lemma TakesHead(h: Heap, pages: seq<nat>, h': Heap)
    requires Takes(h, pages, h')
    ensures pages == [] ==> h' == h
    ensures pages != [] ==> Alloc(h.lists, 0).0 == Some(pages[0]) && Takes(Do(h, KAlloc), pages[1..], h')
  {
    var hs :| TakesVia(h, pages, h', hs);
    if pages != [] {
      assert TakesAt(hs, pages, 0);
      forall i: nat | i < |pages[1..]| ensures TakesAt(hs[1..], pages[1..], i) {
        assert TakesAt(hs, pages, i + 1);
      }
      assert TakesVia(Do(h, KAlloc), pages[1..], h', hs[1..]);
    }
  }

  lemma FreesHead(h: Heap, pages: seq<nat>, h': Heap)
    requires Frees(h, pages, h')
    ensures pages == [] ==> h' == h
    ensures pages != [] ==> Legal(h, KFree(pages[0])) && Frees(Do(h, KFree(pages[0])), pages[1..], h')
  {
    var hs :| FreesVia(h, pages, h', hs);
    if pages != [] {
      assert FreesAt(hs, pages, 0);
      forall i: nat | i < |pages[1..]| ensures FreesAt(hs[1..], pages[1..], i) {
        assert FreesAt(hs, pages, i + 1);
      }
      assert FreesVia(Do(h, KFree(pages[0])), pages[1..], h', hs[1..]);
    }
  }

  lemma TakesNone(h: Heap)
    ensures Takes(h, [], h)
  {
    assert TakesVia(h, [], h, [h]);
  }

  lemma TakesOne(h: Heap, b: nat)
    requires Alloc(h.lists, 0).0 == Some(b)
    ensures Takes(h, [b], Do(h, KAlloc))
  {
    assert TakesAt([h, Do(h, KAlloc)], [b], 0);
    assert TakesVia(h, [b], Do(h, KAlloc), [h, Do(h, KAlloc)]);
  }

  lemma FreesNone(h: Heap)
    ensures Frees(h, [], h)
  {
    assert FreesVia(h, [], h, [h]);
  }

  lemma FreesOne(h: Heap, v: nat)
    requires Legal(h, KFree(v))
    ensures Frees(h, [v], Do(h, KFree(v)))
  {
    assert FreesAt([h, Do(h, KFree(v))], [v], 0);
    assert FreesVia(h, [v], Do(h, KFree(v)), [h, Do(h, KFree(v))]);
  }
}
