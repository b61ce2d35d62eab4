/**
  The intrusive circular lists of src/memory.c and the three allocator routines that relink them in
  place.  `links` holds the prev and next words of the nine list heads and of every free block.
 */
module BuddyMemory {
  import opened Wrappers
  import opened Pages
  import opened Bits
  import opened Seqs
  import opened Buddy
  import BuddyRuns

  datatype Node = Head(order: nat) | Block(addr: nat)
  datatype Links = Links(prev: Node, next: Node)
  type Words = map<Node, Links>

  /** The `k`-th node met when walking list `i` from its head; node `|l| + 1` is the head again. */
  function NodeAt(l: seq<nat>, i: nat, k: nat): Node
    requires k <= |l| + 1
  {
    if 1 <= k <= |l| then Block(l[k - 1]) else Head(i)
  }

  ghost predicate Joined(m: Words, l: seq<nat>, i: nat, k: nat)
    requires k <= |l|
  {
    var x, y := NodeAt(l, i, k), NodeAt(l, i, k + 1);
    x in m && y in m && m[x].next == y && m[y].prev == x
  }

  /** The words link list `i` into a ring through exactly the blocks of `l`, in order. */
  ghost predicate Ring(m: Words, l: seq<nat>, i: nat) {
    forall k: nat | k <= |l| :: Joined(m, l, i, k)
  }

  ghost predicate Listed(fl: FreeLists, b: nat) {
    exists i: nat :: i < MAX_ORDER && b in fl[i]
  }

  /** No block is on two lists or twice on one. */
  ghost predicate Distinct(fl: FreeLists) {
    forall i: nat, k: nat, j: nat, n: nat ::
      i < MAX_ORDER && k < |fl[i]| && j < MAX_ORDER && n < |fl[j]| && fl[i][k] == fl[j][n] ==> i == j && k == n
  }

  /** The lists from order `lo` on are rings. */
  ghost predicate RingsFrom(m: Words, fl: FreeLists, lo: nat) {
    Distinct(fl) && forall i: nat | lo <= i < MAX_ORDER :: Ring(m, fl[i], i)
  }

  ghost predicate Rings(m: Words, fl: FreeLists) {
    RingsFrom(m, fl, 0)
  }

  /** The stores of list_add(&free_lists[i], b). */
  function Added(m: Words, i: nat, b: nat): Words
    requires Head(i) in m && m[Head(i)].next in m
  {
    var head, node := Head(i), Block(b);
    var nx := m[head].next;
    var m1 := m[node := Links(head, nx)];
    var m2 := m1[nx := m1[nx].(prev := node)];
    m2[head := m2[head].(next := node)]
  }

  /** The stores of list_del(node). */
  function Deleted(m: Words, node: Node): Words
    requires node in m && m[node].prev in m && m[node].next in m
  {
    var p, n := m[node].prev, m[node].next;
    var m1 := m[p := m[p].(next := n)];
    m1[n := m1[n].(prev := p)]
  }

  lemma RingEnds(m: Words, fl: FreeLists, lo: nat, i: nat)
    requires RingsFrom(m, fl, lo) && lo <= i < MAX_ORDER
    ensures Head(i) in m && m[Head(i)].next in m
    ensures m[Head(i)].next == NodeAt(fl[i], i, 1)
  {
    assert Joined(m, fl[i], i, 0);
  }

  lemma DistinctNodes(fl: FreeLists, i: nat, k: nat, j: nat, n: nat)
    requires Distinct(fl) && i < MAX_ORDER && j < MAX_ORDER
    requires k <= |fl[i]| && n <= |fl[j]| && NodeAt(fl[i], i, k) == NodeAt(fl[j], j, n)
    ensures i == j && k == n
  {
  }

  lemma AddRing(m: Words, fl: FreeLists, lo: nat, i: nat, b: nat, j: nat, k: nat)
    requires RingsFrom(m, fl, lo) && lo <= i < MAX_ORDER && lo <= j < MAX_ORDER && !Listed(fl, b)
    requires k <= |(if i == j then [b] + fl[i] else fl[j])|
    ensures Head(i) in m && m[Head(i)].next in m
    ensures Joined(Added(m, i, b), if i == j then [b] + fl[i] else fl[j], j, k)
  {
    RingEnds(m, fl, lo, i);
    var l := fl[j];
    if i == j {
      var l' := [b] + l;
      if k >= 1 {
        assert Joined(m, l, i, k - 1);
        assert k >= 2 ==> NodeAt(l', i, k) == NodeAt(l, i, k - 1);
        assert NodeAt(l', i, k + 1) == if k == |l| + 1 then Head(i) else Block(l[k - 1]);
        if k >= 2 && k - 1 <= |l| && NodeAt(l, i, k) == NodeAt(l, i, 1) && k <= |l| {
          DistinctNodes(fl, i, k, i, 1);
        }
      }
    } else {
      assert Joined(m, l, j, k);
    }
  }

  lemma AddRings(m: Words, fl: FreeLists, lo: nat, i: nat, b: nat)
    requires RingsFrom(m, fl, lo) && lo <= i < MAX_ORDER && !Listed(fl, b)
    ensures Head(i) in m && m[Head(i)].next in m
    ensures RingsFrom(Added(m, i, b), fl[i := [b] + fl[i]], lo)
  {
    RingEnds(m, fl, lo, i);
    var fl' := fl[i := [b] + fl[i]];
    AddDistinct(fl, i, b);
    forall j: nat | lo <= j < MAX_ORDER ensures Ring(Added(m, i, b), fl'[j], j) {
      forall k: nat | k <= |fl'[j]| ensures Joined(Added(m, i, b), fl'[j], j, k) {
        AddRing(m, fl, lo, i, b, j, k);
      }
    }
  }

  lemma AddDistinct(fl: FreeLists, i: nat, b: nat)
    requires Distinct(fl) && i < MAX_ORDER && !Listed(fl, b)
    ensures Distinct(fl[i := [b] + fl[i]])
  {
    var fl' := fl[i := [b] + fl[i]];
    forall x: nat, k: nat, j: nat, n: nat |
      x < MAX_ORDER && k < |fl'[x]| && j < MAX_ORDER && n < |fl'[j]| && fl'[x][k] == fl'[j][n]
      ensures x == j && k == n
    {
      assert !(x == i && k == 0) ==> fl'[x][k] in fl[x];
      assert !(j == i && n == 0) ==> fl'[j][n] in fl[j];
      assert b !in fl[x] && b !in fl[j];
    }
  }

  lemma DelRing(m: Words, fl: FreeLists, lo: nat, i: nat, at: nat, j: nat, k: nat)
    requires RingsFrom(m, fl, lo) && lo <= i < MAX_ORDER && lo <= j < MAX_ORDER && at < |fl[i]|
    requires k <= |(if i == j then Without(fl[i], at) else fl[j])|
    ensures var node := Block(fl[i][at]);
            && node in m && m[node].prev in m && m[node].next in m
            && Joined(Deleted(m, node), if i == j then Without(fl[i], at) else fl[j], j, k)
  {
    var l := fl[i];
    assert Joined(m, l, i, at) && Joined(m, l, i, at + 1);
    if i == j {
      var l' := Without(l, at);
      assert forall n: nat | n <= at :: NodeAt(l', i, n) == NodeAt(l, i, n);
      assert forall n: nat | at < n <= |l'| + 1 :: NodeAt(l', i, n) == NodeAt(l, i, n + 1);
      if k < at {
        assert Joined(m, l, i, k);
      } else if k > at {
        assert Joined(m, l, i, k + 1);
      }
      DelUntouched(fl, i, at, i, k);
    } else {
      assert Joined(m, fl[j], j, k);
      DelUntouched(fl, i, at, j, k);
    }
  }

  /** Only the neighbours of the deleted node are rewritten. */
  lemma DelUntouched(fl: FreeLists, i: nat, at: nat, j: nat, k: nat)
    requires Distinct(fl) && i < MAX_ORDER && j < MAX_ORDER && at < |fl[i]| && k <= |fl[j]|
    ensures NodeAt(fl[j], j, k) == NodeAt(fl[i], i, at) ==> i == j && k == at
    ensures NodeAt(fl[j], j, k) == NodeAt(fl[i], i, at + 2) ==>
              i == j && (k == at + 2 || (k == 0 && at + 2 == |fl[i]| + 1))
    ensures NodeAt(fl[j], j, k + 1) == NodeAt(fl[i], i, at) ==>
              i == j && (k + 1 == at || (at == 0 && k == |fl[i]|))
    ensures NodeAt(fl[j], j, k + 1) == NodeAt(fl[i], i, at + 2) ==>
              i == j && k == at + 1
  {
  }

  lemma DelRings(m: Words, fl: FreeLists, lo: nat, i: nat, at: nat)
    requires RingsFrom(m, fl, lo) && lo <= i < MAX_ORDER && at < |fl[i]|
    ensures var node := Block(fl[i][at]);
            && node in m && m[node].prev in m && m[node].next in m
            && RingsFrom(Deleted(m, node), fl[i := Without(fl[i], at)], lo)
            && !Listed(fl[i := Without(fl[i], at)], fl[i][at])
  {
    var node := Block(fl[i][at]);
    var fl' := fl[i := Without(fl[i], at)];
    DelRing(m, fl, lo, i, at, i, 0);
    DelDistinct(fl, i, at);
    forall j: nat | lo <= j < MAX_ORDER ensures Ring(Deleted(m, node), fl'[j], j) {
      forall k: nat | k <= |fl'[j]| ensures Joined(Deleted(m, node), fl'[j], j, k) {
        DelRing(m, fl, lo, i, at, j, k);
      }
    }
  }

  lemma DelDistinct(fl: FreeLists, i: nat, at: nat)
    requires Distinct(fl) && i < MAX_ORDER && at < |fl[i]|
    ensures Distinct(fl[i := Without(fl[i], at)])
    ensures !Listed(fl[i := Without(fl[i], at)], fl[i][at])
  {
    var fl' := fl[i := Without(fl[i], at)];
    forall j: nat | j < MAX_ORDER ensures fl[i][at] !in fl'[j] {
    }
    forall x: nat, k: nat, j: nat, n: nat |
      x < MAX_ORDER && k < |fl'[x]| && j < MAX_ORDER && n < |fl'[j]| && fl'[x][k] == fl'[j][n]
      ensures x == j && k == n
    {
      assert fl[x][if x == i && k >= at then k + 1 else k] == fl[j][if j == i && n >= at then n + 1 else n];
    }
  }

  // ------------------------------------------------- when relinking is safe

  /** No byte lies in two free blocks. */
  ghost predicate NoOverlap(fl: FreeLists) {
    forall p: nat :: FreeCount(fl, p) <= 1
  }

  /** Every block that buddy_free pushes is on no list at that moment. */
  ghost predicate FreeSafe(fl: FreeLists, start: nat, addr: nat, i: nat)
    requires start <= addr && i < MAX_ORDER
    decreases |fl| - i
  {
    i < MAX_ORDER - 1 && RelBuddy(start, addr, i) in fl[i] ==>
      var b := RelBuddy(start, addr, i);
      var fl1 := fl[i := RemoveFirst(fl[i], b)];
      && !Listed(fl1, Min(addr, b))
      && FreeSafe(fl1[i := [Min(addr, b)] + fl1[i]], start, Min(addr, b), i + 1)
  }

  lemma {:induction false} RemoveFirstAt(l: seq<nat>, x: nat, k: nat)
    requires k < |l| && l[k] == x && x !in l[..k]
    ensures RemoveFirst(l, x) == Without(l, k)
  {
    if k > 0 {
      assert l[0] != x by { assert l[0] == l[..k][0]; }
      assert l[1..][..k - 1] == l[..k][1..];
      RemoveFirstAt(l[1..], x, k - 1);
      WithoutStep(l, k);
    } else {
      assert Without(l, 0) == l[1..];
    }
  }

  lemma WithoutStep(l: seq<nat>, k: nat)
    requires 0 < k < |l|
    ensures Without(l, k) == [l[0]] + Without(l[1..], k - 1)
  {
  }

  /** A block at a byte that no free block covers is on no list. */
  lemma UncoveredUnlisted(fl: FreeLists, b: nat)
    requires FreeCount(fl, b) == 0
    ensures !Listed(fl, b)
  {
    forall i: nat | i < MAX_ORDER ensures b !in fl[i] {
      if b in fl[i] {
        BlockIsFree(fl, i, b, b);
      }
    }
  }

  /** After removing a block from non-overlapping lists, it is on no list. */
  lemma RemovedUnlisted(fl: FreeLists, i: nat, b: nat)
    requires NoOverlap(fl) && i < MAX_ORDER && b in fl[i]
    ensures !Listed(fl[i := RemoveFirst(fl[i], b)], b)
  {
    CountUpdate(fl, i, RemoveFirst(fl[i], b), |fl|, b);
    RemoveCount(fl[i], b, i, b);
    assert FreeCount(fl, b) <= 1;
    UncoveredUnlisted(fl[i := RemoveFirst(fl[i], b)], b);
  }

  /** In every state a legal run can reach from a good start address, kfree relinks safely. */
  lemma LegalFreeIsSafe(h: BuddyRuns.Heap, size: nat, v: nat)
    requires BuddyRuns.Base(h, size) && BuddyRuns.Guard(h, size) && v in h.live && h.start <= v
    ensures FreeSafe(h.lists, h.start, v, 0) && NoOverlap(h.lists)
  {
    BuddyRuns.BaseIsSound(h, size);
    var b0 := RelBuddy(h.start, v, 0);
    if b0 in h.lists[0] {
      PushedPageUnlisted(h, size, v);
      SafeAbove(h, size, v);
      var fl1 := h.lists[0 := RemoveFirst(h.lists[0], b0)];
      assert fl1[0 := [Min(v, b0)] + fl1[0]] == BuddyRuns.Swapped(h.lists, 0, b0, Min(v, b0));
    }
  }

  lemma SafeAbove(h: BuddyRuns.Heap, size: nat, v: nat)
    requires BuddyRuns.Base(h, size) && BuddyRuns.Guard(h, size) && v in h.live && h.start <= v
    requires RelBuddy(h.start, v, 0) in h.lists[0]
    ensures var b0 := RelBuddy(h.start, v, 0);
            FreeSafe(BuddyRuns.Swapped(h.lists, 0, b0, Min(v, b0)), h.start, Min(v, b0), 1)
  {
    var s := h.start;
    var b0 := RelBuddy(s, v, 0);
    var m := Min(v, b0);
    var fl1 := BuddyRuns.Swapped(h.lists, 0, b0, m);
    BuddyRuns.OrderOneBuddy(h, size, v);
    var b1 := RelBuddy(s, m, 1);
    if b1 in fl1[1] {
      forall p: nat ensures FreeCount(fl1, p) <= 1 {
        MergedCount(h, size, v, p);
      }
      RemovedUnlisted(fl1, 1, b1);
      BuddyRuns.NoOrderTwo(h, size, b1);
      var fl2 := fl1[1 := RemoveFirst(fl1[1], b1)];
      var fl3 := fl2[1 := [b1] + fl2[1]];
      assert fl3[2] == h.lists[2];
      assert FreeSafe(fl3, s, b1, 2);
    }
  }

  ghost predicate SameLengths(fl: FreeLists, fl': FreeLists) {
    forall j :: 0 <= j < MAX_ORDER ==> |fl[j]| == |fl'[j]|
  }

  lemma FreeSameLengths(fl: FreeLists, start: nat, addr: nat, i: nat)
    requires start <= addr && i < MAX_ORDER
    ensures SameLengths(Free(fl, start, addr, i), fl)
  {
    FreeKeepsLengths(fl, start, addr, i);
  }

  /** list_add makes a ring of the longer list if and only if the block was on no list. */
  lemma AddRingsIff(m: Words, fl: FreeLists, i: nat, b: nat)
    requires Rings(m, fl) && i < MAX_ORDER
    ensures Head(i) in m && m[Head(i)].next in m
    ensures Rings(Added(m, i, b), fl[i := [b] + fl[i]]) <==> !Listed(fl, b)
  {
    RingEnds(m, fl, 0, i);
    if !Listed(fl, b) {
      AddRings(m, fl, 0, i, b);
    } else {
      var j: nat :| j < MAX_ORDER && b in fl[j];
      var k: nat :| k < |fl[j]| && fl[j][k] == b;
      TwiceListed(fl, i, b, j, k);
    }
  }

  lemma TwiceListed(fl: FreeLists, i: nat, b: nat, j: nat, k: nat)
    requires i < MAX_ORDER && j < MAX_ORDER && k < |fl[j]| && fl[j][k] == b
    ensures !Distinct(fl[i := [b] + fl[i]])
  {
    var fl' := fl[i := [b] + fl[i]];
    var n := if i == j then k + 1 else k;
    assert fl'[i][0] == fl'[j][n];
  }

  /** Every kfree of every legal run pushes only blocks that are on no list. */
  ghost predicate AlwaysSafe(start: nat, size: nat)
    requires Aligned(start, 0)
  {
    forall ops: seq<BuddyRuns.Op>, v: nat |
      && BuddyRuns.LegalRun(BuddyRuns.Boot(start, size), ops)
      && BuddyRuns.Legal(BuddyRuns.Run(BuddyRuns.Boot(start, size), ops), BuddyRuns.KFree(v)) ::
      SafeIn(BuddyRuns.Run(BuddyRuns.Boot(start, size), ops), v)
  }

  ghost predicate SafeIn(h: BuddyRuns.Heap, v: nat) {
    h.start <= v && FreeSafe(h.lists, h.start, v, 0)
  }

  /** The second merge of a page that was split off pushes it while it is on list 0. */
  lemma SplitOffUnsafe(h: BuddyRuns.Heap, v: nat)
    requires BuddyRuns.SplitOff(h, v)
    ensures !SafeIn(h, v)
  {
    var s := h.start;
    BuddyRuns.LowBuddies(s, v);
    BuddyRuns.FirstFlips(s, v);
    var fl1 := h.lists[0 := RemoveFirst(h.lists[0], v + PAGE_SIZE)];
    var fl2 := fl1[0 := [v] + fl1[0]];
    var fl3 := fl2[1 := RemoveFirst(fl2[1], v + 2 * PAGE_SIZE)];
    assert v in fl3[0];
    assert Listed(fl3, v);
    assert !FreeSafe(fl2, s, v, 1);
  }

  /** The relinking routines represent the free lists over every legal run if and only if the region
      does not start at a multiple of 8 MB or is smaller than 8 MB. */
  lemma SafeIffGoodStart(start: nat, size: nat)
    requires Aligned(start, 0)
    ensures AlwaysSafe(start, size) <==> BuddyRuns.GoodStart(start, size)
  {
    if BuddyRuns.GoodStart(start, size) {
      forall ops: seq<BuddyRuns.Op>, v: nat |
        && BuddyRuns.LegalRun(BuddyRuns.Boot(start, size), ops)
        && BuddyRuns.Legal(BuddyRuns.Run(BuddyRuns.Boot(start, size), ops), BuddyRuns.KFree(v))
        ensures SafeIn(BuddyRuns.Run(BuddyRuns.Boot(start, size), ops), v)
      {
        GoodRunIsSafe(start, size, ops, v);
      }
    } else {
      var ops, v := BuddyRuns.BadStartSplits(start, size);
      SplitOffUnsafe(BuddyRuns.Run(BuddyRuns.Boot(start, size), ops), v);
      assert BuddyRuns.Legal(BuddyRuns.Run(BuddyRuns.Boot(start, size), ops), BuddyRuns.KFree(v));
    }
  }

  lemma GoodRunIsSafe(start: nat, size: nat, ops: seq<BuddyRuns.Op>, v: nat)
    requires Aligned(start, 0) && BuddyRuns.GoodStart(start, size)
    requires BuddyRuns.LegalRun(BuddyRuns.Boot(start, size), ops)
    requires BuddyRuns.Legal(BuddyRuns.Run(BuddyRuns.Boot(start, size), ops), BuddyRuns.KFree(v))
    ensures SafeIn(BuddyRuns.Run(BuddyRuns.Boot(start, size), ops), v)
  {
    BuddyRuns.BootInv(start, size);
    BuddyRuns.RunInv(BuddyRuns.Boot(start, size), size, ops);
    LegalFreeIsSafe(BuddyRuns.Run(BuddyRuns.Boot(start, size), ops), size, v);
  }

  // ------------------------------------------------------- the words in a bad region

  predicate CanDelete(m: Words, node: Node) {
    node in m && m[node].prev in m && m[node].next in m
  }

  predicate CanAdd(m: Words, i: nat) {
    Head(i) in m && m[Head(i)].next in m
  }

  /** The walk of buddy_free along ring `i` meets the block. */
  ghost predicate OnRing(m: Words, i: nat, b: nat) {
    exists l: seq<nat> :: Ring(m, l, i) && b in l
  }

  /** The stores of the merging loop of buddy_free from order `i`, or None if it follows a missing link. */
  ghost function FreeWords(m: Words, start: nat, addr: nat, i: nat): Option<Words>
    requires start <= addr && i < MAX_ORDER
    decreases MAX_ORDER - i, |m|
  {
    if i == MAX_ORDER - 1 then Some(m)
    else
      var b := RelBuddy(start, addr, i);
      if !OnRing(m, i, b) then Some(m)
      else if !CanDelete(m, Block(b)) then None
      else
        var m1 := Deleted(m, Block(b));
        if !CanAdd(m1, i) then None else FreeWords(Added(m1, i, Min(addr, b)), start, Min(addr, b), i + 1)
  }

  /** The words of a ring determine its list. */
  lemma {:induction false} RingPrefix(m: Words, l: seq<nat>, l': seq<nat>, i: nat, k: nat)
    requires Ring(m, l, i) && Ring(m, l', i) && k <= |l| + 1 && k <= |l'| + 1
    ensures NodeAt(l, i, k) == NodeAt(l', i, k)
    decreases k
  {
    if k > 0 {
      RingPrefix(m, l, l', i, k - 1);
      assert Joined(m, l, i, k - 1) && Joined(m, l', i, k - 1);
    }
  }

  lemma OnRingIff(m: Words, l: seq<nat>, i: nat, b: nat)
    requires Ring(m, l, i)
    ensures OnRing(m, i, b) <==> b in l
  {
    if l': seq<nat> :| Ring(m, l', i) && b in l' {
      RingPrefix(m, l, l', i, if |l| < |l'| then |l| + 1 else |l'| + 1);
      assert |l| == |l'|;
      var k: nat :| k < |l'| && l'[k] == b;
      RingPrefix(m, l, l', i, k + 1);
    }
  }

  /** List 0 starts with the page, whose own links point into another list. */
  ghost predicate Stuck(m: Words, v: nat) {
    && Head(0) in m && m[Head(0)].next == Block(v) && CanDelete(m, Block(v))
    && m[Block(v)].prev.Head? && m[Block(v)].prev.order > 0
  }

  lemma StuckAfterDelete(m: Words, fl: FreeLists, i: nat, k: nat, v: nat)
    requires RingsFrom(m, fl, i) && 0 < i < MAX_ORDER && k < |fl[i]| && !Listed(fl, v) && Stuck(m, v)
    requires CanDelete(m, Block(fl[i][k]))
    ensures Stuck(Deleted(m, Block(fl[i][k])), v)
  {
    assert Joined(m, fl[i], i, k) && Joined(m, fl[i], i, k + 1);
    assert NodeAt(fl[i], i, k) != Block(v) && NodeAt(fl[i], i, k + 2) != Block(v) by {
      assert v !in fl[i];
    }
  }

  lemma StuckAfterAdd(m: Words, fl: FreeLists, i: nat, b: nat, v: nat)
    requires RingsFrom(m, fl, i) && 0 < i < MAX_ORDER && !Listed(fl, v) && Stuck(m, v)
    ensures CanAdd(m, i) && Stuck(Added(m, i, b), v)
  {
    RingEnds(m, fl, i, i);
    assert NodeAt(fl[i], i, 1) != Block(v) by {
      assert v !in fl[i];
    }
  }

  lemma EmptyBelow(m: Words, fl: FreeLists, i: nat)
    requires RingsFrom(m, fl, i) && i < MAX_ORDER
    ensures RingsFrom(m, fl[i := []], i + 1)
    ensures forall b | !Listed(fl, b) :: !Listed(fl[i := []], b)
  {
    var fl' := fl[i := []];
    forall x: nat, k: nat, j: nat, n: nat |
      x < MAX_ORDER && k < |fl'[x]| && j < MAX_ORDER && n < |fl'[j]| && fl'[x][k] == fl'[j][n]
      ensures x == j && k == n
    {
      assert fl[x][k] == fl[j][n];
    }
    forall b | !Listed(fl, b) ensures !Listed(fl', b) {
      assert forall j: nat | j < MAX_ORDER && b in fl'[j] :: b in fl[j];
    }
  }

  /** Merges above order 1 work on the untouched rings there and leave list 0 stuck. */
  lemma {:induction false} LoopKeepsStuck(m: Words, fl: FreeLists, start: nat, addr: nat, i: nat, v: nat)
    requires start <= addr && 0 < i < MAX_ORDER && RingsFrom(m, fl, i) && Stuck(m, v)
    requires !Listed(fl, v) && !Listed(fl, addr)
    ensures var r := FreeWords(m, start, addr, i); r.Some? && Stuck(r.value, v)
    decreases MAX_ORDER - i
  {
    var b := RelBuddy(start, addr, i);
    if i < MAX_ORDER - 1 {
      OnRingIff(m, fl[i], i, b);
      if b in fl[i] {
        var k: nat :| k < |fl[i]| && fl[i][k] == b;
        DelRings(m, fl, i, i, k);
        StuckAfterDelete(m, fl, i, k, v);
        var m1, fl1 := Deleted(m, Block(b)), fl[i := Without(fl[i], k)];
        FewerListed(fl, i, k, v);
        FewerListed(fl, i, k, addr);
        StuckAfterAdd(m1, fl1, i, Min(addr, b), v);
        AddRings(m1, fl1, i, i, Min(addr, b));
        NextRound(m1, fl1, i, Min(addr, b), v);
        LoopKeepsStuck(Added(m1, i, Min(addr, b)), fl1[i := []], start, Min(addr, b), i + 1, v);
      }
    }
  }

  lemma FewerListed(fl: FreeLists, i: nat, k: nat, x: nat)
    requires i < MAX_ORDER && k < |fl[i]| && !Listed(fl, x)
    ensures !Listed(fl[i := Without(fl[i], k)], x)
  {
    assert forall j: nat | j < MAX_ORDER && x in fl[i := Without(fl[i], k)][j] :: x in fl[j];
  }

  /** After a push on list `i` the rings above it are as before. */
  lemma NextRound(m: Words, fl: FreeLists, i: nat, b: nat, v: nat)
    requires RingsFrom(m, fl, i) && i < MAX_ORDER && !Listed(fl, b) && !Listed(fl, v) && CanAdd(m, i)
    ensures RingsFrom(Added(m, i, b), fl[i := []], i + 1)
    ensures !Listed(fl[i := []], b) && !Listed(fl[i := []], v)
  {
    AddRings(m, fl, i, i, b);
    EmptyBelow(Added(m, i, b), fl[i := [b] + fl[i]], i);
    assert fl[i := [b] + fl[i]][i := []] == fl[i := []];
    EmptyBelow(m, fl, i);
  }

  /** The first two rounds for a page that was split off. */
  lemma TwoMerges(m: Words, h: BuddyRuns.Heap, v: nat) returns (m4: Words)
    requires BuddyRuns.SplitOff(h, v) && Rings(m, h.lists) && !Listed(h.lists, v)
    ensures FreeWords(m, h.start, v, 0) == FreeWords(m4, h.start, v, 2) && Stuck(m4, v)
    ensures RingsFrom(m4, h.lists[0 := []][1 := []], 2) && !Listed(h.lists[0 := []][1 := []], v)
  {
    var fl, s := h.lists, h.start;
    BuddyRuns.LowBuddies(s, v);
    BuddyRuns.FirstFlips(s, v);
    OnRingIff(m, fl[0], 0, v + PAGE_SIZE);
    DelRings(m, fl, 0, 0, 0);
    var m1, fl1 := Deleted(m, Block(v + PAGE_SIZE)), fl[0 := []];
    assert Without(fl[0], 0) == [];
    FewerListed(fl, 0, 0, v);
    RingEnds(m1, fl1, 0, 0);
    AddRings(m1, fl1, 0, 0, v);
    NextRound(m1, fl1, 0, v, v);
    var m2 := Added(m1, 0, v);
    RingEnds(m2, fl1[0 := [v] + fl1[0]], 0, 0);
    assert FreeWords(m, s, v, 0) == FreeWords(m2, s, v, 1);
    assert fl1[0 := []] == fl1;
    m4 := SecondMerge(m2, fl1, s, v);
  }

  lemma SecondMerge(m2: Words, fl: FreeLists, s: nat, v: nat) returns (m4: Words)
    requires s <= v && RelBuddy(s, v, 1) == v + 2 * PAGE_SIZE && fl[1] == [v + 2 * PAGE_SIZE] && RingsFrom(m2, fl, 1)
    requires !Listed(fl, v) && Head(0) in m2 && m2[Head(0)].next == Block(v)
    ensures FreeWords(m2, s, v, 1) == FreeWords(m4, s, v, 2) && Stuck(m4, v)
    ensures RingsFrom(m4, fl[1 := []], 2) && !Listed(fl[1 := []], v)
  {
    OnRingIff(m2, fl[1], 1, v + 2 * PAGE_SIZE);
    DelRings(m2, fl, 1, 1, 0);
    assert Joined(m2, fl[1], 1, 0) && Joined(m2, fl[1], 1, 1);
    var m3, fl3 := Deleted(m2, Block(v + 2 * PAGE_SIZE)), fl[1 := []];
    assert Without(fl[1], 0) == [];
    FewerListed(fl, 1, 0, v);
    RingEnds(m3, fl3, 1, 1);
    NextRound(m3, fl3, 1, v, v);
    assert fl3[1 := []] == fl3;
    m4 := Added(m3, 1, v);
  }

  /** In a bad region, after kfree of such a page list 0 starts with the page, and it still does after
      the next kalloc has taken the page off its list: the list never empties. */
  lemma BadStartLoops(m: Words, h: BuddyRuns.Heap, v: nat)
    requires BuddyRuns.SplitOff(h, v) && Rings(m, h.lists) && !Listed(h.lists, v)
    ensures var r := FreeWords(m, h.start, v, 0);
            && r.Some? && CanDelete(r.value, Block(v)) && Head(0) in r.value && r.value[Head(0)].next == Block(v)
            && Head(0) in Deleted(r.value, Block(v)) && Deleted(r.value, Block(v))[Head(0)].next == Block(v)
  {
    var m4 := TwoMerges(m, h, v);
    LoopKeepsStuck(m4, h.lists[0 := []][1 := []], h.start, v, 2, v);
  }

  /** One round of the merging loop. */
  lemma FreeRound(fl: FreeLists, start: nat, addr: nat, i: nat)
    requires start <= addr && i < MAX_ORDER - 1 && RelBuddy(start, addr, i) in fl[i]
    requires FreeSafe(fl, start, addr, i)
    ensures var b := RelBuddy(start, addr, i);
            var fl1 := fl[i := RemoveFirst(fl[i], b)];
            var fl2 := fl1[i := [Min(addr, b)] + fl1[i]];
            && !Listed(fl1, Min(addr, b))
            && FreeSafe(fl2, start, Min(addr, b), i + 1)
            && Free(fl, start, addr, i) == Free(fl2, start, Min(addr, b), i + 1)
  {
    var b := RelBuddy(start, addr, i);
    var fl1 := fl[i := RemoveFirst(fl[i], b)];
    assert fl1[i := [Min(addr, b)] + fl1[i]] == fl[i := [Min(addr, b)] + RemoveFirst(fl[i], b)];
  }

  lemma PushedPageUnlisted(h: BuddyRuns.Heap, size: nat, v: nat)
    requires BuddyRuns.Base(h, size) && v in h.live && h.start <= v
    requires RelBuddy(h.start, v, 0) in h.lists[0]
    ensures var b0 := RelBuddy(h.start, v, 0);
            !Listed(h.lists[0 := RemoveFirst(h.lists[0], b0)], Min(v, b0))
  {
    var b0 := RelBuddy(h.start, v, 0);
    var m := Min(v, b0);
    var r := RemoveFirst(h.lists[0], b0);
    BuddyRuns.BaseIsSound(h, size);
    if m == b0 {
      RemovedUnlisted(h.lists, 0, b0);
    } else {
      BuddyRuns.LiveInside(h, size, v);
      CountUpdate(h.lists, 0, r, |h.lists|, v);
      RemoveCount(h.lists[0], b0, 0, v);
      UncoveredUnlisted(h.lists[0 := r], v);
    }
  }

  lemma MergedCount(h: BuddyRuns.Heap, size: nat, v: nat, p: nat)
    requires BuddyRuns.Base(h, size) && v in h.live && h.start <= v
    requires RelBuddy(h.start, v, 0) in h.lists[0]
    ensures var b0 := RelBuddy(h.start, v, 0);
            FreeCount(BuddyRuns.Swapped(h.lists, 0, b0, Min(v, b0)), p) <= 1
  {
    var b0 := RelBuddy(h.start, v, 0);
    BuddyRuns.LiveInside(h, size, v);
    BuddyRuns.SmallSizes();
    BuddyRuns.SwapCount(h.lists, 0, b0, Min(v, b0), p);
    BuddyRuns.HasPage(v, p);
    assert FreeCount(h.lists, p) + h.live[BuddyRuns.PageOf(p)] <= 1;
  }

  // ------------------------------------------------------------- the routines

  class Allocator {
    var startAddr: nat
    var links: Words
    /** The blocks on each list, from the head. */
    ghost var lists: FreeLists

    ghost predicate Valid()
      reads this
    {
      Rings(links, lists)
    }

    method ListAdd(i: nat, b: nat)
      requires Valid() && i < MAX_ORDER && !Listed(lists, b)
      modifies this
      ensures Valid() && lists == old(lists)[i := [b] + old(lists)[i]] && startAddr == old(startAddr)
    {
      AddRings(links, lists, 0, i, b);
      var head, node := Head(i), Block(b);
      var nx := links[head].next;
      links := links[node := Links(head, nx)];
      links := links[nx := links[nx].(prev := node)];
      links := links[head := links[head].(next := node)];
      lists := lists[i := [b] + lists[i]];
    }

    method ListDel(b: nat, ghost i: nat, ghost k: nat)
      requires Valid() && i < MAX_ORDER && k < |lists[i]| && lists[i][k] == b
      modifies this
      ensures Valid() && lists == old(lists)[i := Without(old(lists)[i], k)] && startAddr == old(startAddr)
      ensures !Listed(lists, b)
    {
      DelRings(links, lists, 0, i, k);
      var node := Block(b);
      var p, n := links[node].prev, links[node].next;
      links := links[p := links[p].(next := n)];
      links := links[n := links[n].(prev := p)];
      lists := lists[i := Without(lists[i], k)];
    }

    /** The list_init loop: every list is empty. */
    constructor (start: nat)
      ensures Valid() && startAddr == start && lists == NoBlocks()
    {
      startAddr := start;
      links := map i: nat | i < MAX_ORDER :: Head(i) := Links(Head(i), Head(i));
      lists := NoBlocks();
      new;
      forall i: nat | i < MAX_ORDER ensures Ring(links, lists[i], i) {
        assert Joined(links, lists[i], i, 0);
      }
    }

    /** The carving loop of buddy_init. */
    method BuddyInit(size: nat)
      requires Valid() && Aligned(startAddr, 0) && lists == NoBlocks()
      modifies this
      ensures Valid() && startAddr == old(startAddr) && lists == Carve(startAddr, size, NoBlocks())
    {
      var current: nat, remaining: nat := startAddr, size;
      forall p: nat ensures FreeCount(lists, p) == 0 {
        NoBlocksCount(|NoBlocks()|, p);
      }
      while remaining >= PAGE_SIZE
        invariant Valid() && startAddr == old(startAddr) && Aligned(current, 0)
        invariant forall p: nat | p >= current :: FreeCount(lists, p) == 0
        invariant Carve(current, remaining, lists) == Carve(startAddr, size, NoBlocks())
      {
        var i := LargestFit(current, remaining);
        UncoveredUnlisted(lists, current);
        AlignedStep(current, i);
        ghost var before := lists;
        ListAdd(i, current);
        forall p: nat | p >= current + BlockSize(i) ensures FreeCount(lists, p) == 0 {
          PushCount(before, i, current, p);
        }
        current, remaining := current + BlockSize(i), remaining - BlockSize(i);
      }
    }

    /** The scan of buddy_init over the orders, largest first. */
    static method LargestFit(current: nat, remaining: nat) returns (i: nat)
      requires Fits(current, remaining, 0)
      ensures i < MAX_ORDER && i == BestOrder(current, remaining, MAX_ORDER - 1)
    {
      i := MAX_ORDER - 1;
      while !(remaining >= BlockSize(i) && current % BlockSize(i) == 0)
        invariant i < MAX_ORDER
        invariant forall j :: i < j < MAX_ORDER ==> !Fits(current, remaining, j)
        decreases i
      {
        assert !Fits(current, remaining, i);
        i := i - 1;
      }
      assert Fits(current, remaining, i);
      assert Fits(current, remaining, BestOrder(current, remaining, MAX_ORDER - 1));
    }

    method BuddyAlloc(order: nat) returns (r: Option<nat>)
      requires Valid() && order < MAX_ORDER && NoOverlap(lists)
      modifies this
      ensures Valid() && startAddr == old(startAddr)
      ensures (r, lists) == Alloc(old(lists), order)
    {
      var i := order;
      while i < MAX_ORDER
        invariant order <= i <= MAX_ORDER && Valid() && lists == old(lists) && startAddr == old(startAddr)
        invariant forall j :: order <= j < i ==> lists[j] == []
      {
        RingEnds(links, lists, 0, i);
        if links[Head(i)].next != Head(i) {
          var block := links[Head(i)].next.addr;
          assert i == SmallestOrder(lists, order);
          ListDel(block, i, 0);
          assert Without(old(lists)[i], 0) == old(lists)[i][1..];
          forall p: nat ensures FreeCount(lists, p) + Has(block, i, p) <= 1 {
            CountUpdate(old(lists), i, old(lists)[i][1..], |old(lists)|, p);
            assert FreeCount(old(lists), p) <= 1;
          }
          SplitDown(block, i, order);
          return Some(block);
        }
        i := i + 1;
      }
      return None;
    }

    /** The splitting loop of buddy_alloc: each upper half goes on the list of its order. */
    method SplitDown(block: nat, top: nat, order: nat)
      requires Valid() && order <= top < MAX_ORDER
      requires forall p: nat :: FreeCount(lists, p) + Has(block, top, p) <= 1
      modifies this
      ensures Valid() && startAddr == old(startAddr) && lists == Split(old(lists), block, top, order)
    {
      var i := top;
      while i > order
        invariant order <= i <= top && Valid() && startAddr == old(startAddr)
        invariant Split(lists, block, i, order) == Split(old(lists), block, top, order)
        invariant forall p: nat :: FreeCount(lists, p) + Has(block, i, p) <= 1
      {
        i := i - 1;
        var buddy := block + BlockSize(i);
        assert Has(block, i + 1, buddy) == 1;
        UncoveredUnlisted(lists, buddy);
        ghost var before := lists;
        ListAdd(i, buddy);
        forall p: nat ensures FreeCount(lists, p) + Has(block, i, p) <= 1 {
          PushCount(before, i, buddy, p);
          HasHalves(block, i + 1, p);
        }
      }
    }

    method BuddyFree(ptr: nat, order: nat)
      requires Valid() && order < MAX_ORDER && startAddr <= ptr && FreeSafe(lists, startAddr, ptr, order)
      modifies this
      ensures Valid() && startAddr == old(startAddr)
      ensures lists == Free(old(lists), old(startAddr), ptr, order)
      ensures SameLengths(lists, old(lists))
    {
      FreeSameLengths(lists, startAddr, ptr, order);
      var addr := ptr;
      var i := order;
      while i < MAX_ORDER - 1
        invariant order <= i < MAX_ORDER && Valid() && startAddr == old(startAddr) && startAddr <= addr
        invariant FreeSafe(lists, startAddr, addr, i)
        invariant Free(lists, startAddr, addr, i) == Free(old(lists), startAddr, ptr, order)
      {
        var found;
        found, addr := Merge(addr, i);
        if !found {
          return;
        }
        i := i + 1;
      }
    }

    /** One round of the merging loop. */
    method Merge(addr: nat, i: nat) returns (found: bool, merged: nat)
      requires Valid() && i < MAX_ORDER - 1 && startAddr <= addr && FreeSafe(lists, startAddr, addr, i)
      modifies this
      ensures Valid() && startAddr == old(startAddr) && startAddr <= merged
      ensures !found ==> lists == old(lists) && Free(lists, startAddr, addr, i) == lists
      ensures found ==> FreeSafe(lists, startAddr, merged, i + 1)
      ensures found ==> Free(lists, startAddr, merged, i + 1) == Free(old(lists), startAddr, addr, i)
    {
      var buddy := RelBuddy(startAddr, addr, i);
      ghost var k;
      found, k := FindBlock(i, buddy);
      if !found {
        return false, addr;
      }
      RemoveFirstAt(lists[i], buddy, k);
      FreeRound(lists, startAddr, addr, i);
      ListDel(buddy, i, k);
      merged := if addr < buddy then addr else buddy;
      ListAdd(i, merged);
    }

    /** The search loop of buddy_free: walk list `i` until the block or the head is met. */
    method FindBlock(i: nat, b: nat) returns (found: bool, ghost k: nat)
      requires Valid() && i < MAX_ORDER
      ensures found <==> b in lists[i]
      ensures found ==> k < |lists[i]| && lists[i][k] == b && b !in lists[i][..k]
    {
      k := 0;
      RingEnds(links, lists, 0, i);
      var curr := links[Head(i)].next;
      while curr != Head(i)
        invariant k <= |lists[i]| && curr == NodeAt(lists[i], i, k + 1) && curr in links
        invariant b !in lists[i][..k]
        decreases |lists[i]| - k
      {
        if curr == Block(b) {
          return true, k;
        }
        assert Joined(links, lists[i], i, k + 1);
        curr := links[curr].next;
        k := k + 1;
      }
      assert lists[i][..k] == lists[i];
      return false, k;
    }
  }
}
