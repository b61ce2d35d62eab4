/** The order in which free_table frees a page-table tree, and what that list holds. */
module PageTeardown {
  import opened Wrappers
  import opened Pages
  import opened Seqs
  import opened PageTables
  import opened PageTree

  /** The pages freed by the loop of free_table over the entries `es` of a table of this level. */
  function FreedFrom(mem: Memory, es: seq<nat>, level: nat): seq<nat>
    requires level <= 2
    decreases 2 - level, |es|
  {
    if es == [] then []
    else FreedFrom(mem, es[..|es| - 1], level) + FreedEntry(mem, es[|es| - 1], level)
  }

  /** One round of that loop: below the last level first the child's own entries, then the child. */
  function FreedEntry(mem: Memory, e: nat, level: nat): seq<nat>
    requires level <= 2
    decreases 2 - level, 0
  {
    if !IsValid(e) then []
    else if level < 2 && ChildAddr(e) in mem then
      FreedFrom(mem, mem[ChildAddr(e)][..ENTRIES], level + 1) + [ChildAddr(e)]
    else [ChildAddr(e)]
  }

  /** Everything free_vm frees for an address space, the root last. */
  function TreeList(mem: Memory, root: nat): seq<nat>
    requires root in mem
  {
    FreedFrom(mem, mem[root][..ENTRIES], 0) + [root]
  }

  /** The pages of the address space are allocated and no page is reached by two paths. */
  ghost predicate Exclusive(mem: Memory, root: nat) {
    && (forall p | IsPath(p) && Node(mem, root, p).Some? :: Node(mem, root, p).value in mem)
    && (forall p, q | IsPath(p) && IsPath(q) && Node(mem, root, p).Some? && Node(mem, root, p) == Node(mem, root, q) ::
          p == q)
  }

  // ------------------------------------------------------ the list is the subtree

  /** `q` goes through the table at `p` and one of its first `n` entries. */
  predicate Through(p: Path, n: nat, q: Path) {
    IsPath(q) && |p| < |q| && q[..|p|] == p && q[|p|] < n
  }

  ghost predicate Reaches(mem: Memory, root: nat, p: Path, n: nat, x: nat) {
    exists q | Through(p, n, q) :: Node(mem, root, q) == Some(x)
  }

  lemma ReachesBy(mem: Memory, root: nat, p: Path, n: nat, x: nat, q: Path)
    requires Through(p, n, q) && Node(mem, root, q) == Some(x)
    ensures Reaches(mem, root, p, n, x)
  {
  }

  lemma EntriesStep(mem: Memory, t: nat, n: nat)
    requires t in mem && 0 < n <= ENTRIES
    ensures var es := mem[t][..n]; es[..|es| - 1] == mem[t][..n - 1] && es[|es| - 1] == mem[t][n - 1]
  {
  }

  /** What is freed below a table is exactly what is reached through it. */
  lemma {:induction false} FreedIsReached(mem: Memory, root: nat, p: Path, n: nat, x: nat)
    requires Exclusive(mem, root) && IsTable(mem, root, p) && Node(mem, root, p).value in mem && n <= ENTRIES
    ensures x in FreedFrom(mem, mem[Node(mem, root, p).value][..n], |p|) <==> Reaches(mem, root, p, n, x)
    decreases 2 - |p|, n, 1
  {
    var t := Node(mem, root, p).value;
    if n > 0 {
      EntriesStep(mem, t, n);
      FreedIsReached(mem, root, p, n - 1, x);
      EntryIsReached(mem, root, p, n - 1, x);
      LastEntry(mem, root, p, n, x);
    }
  }

  /** Reached through entry `k` of the table at `p`. */
  ghost predicate ReachedAt(mem: Memory, root: nat, p: Path, k: nat, x: nat)
    requires IsPath(p) && |p| <= 2 && k < ENTRIES
  {
    Node(mem, root, p + [k]) == Some(x) || Reaches(mem, root, p + [k], ENTRIES, x)
  }

  lemma LastEntry(mem: Memory, root: nat, p: Path, n: nat, x: nat)
    requires IsPath(p) && |p| <= 2 && 0 < n <= ENTRIES
    ensures Reaches(mem, root, p, n, x) <==> Reaches(mem, root, p, n - 1, x) || ReachedAt(mem, root, p, n - 1, x)
  {
    var p' := p + [n - 1];
    if Reaches(mem, root, p, n, x) {
      var q :| Through(p, n, q) && Node(mem, root, q) == Some(x);
      if q[|p|] < n - 1 {
        ReachesBy(mem, root, p, n - 1, x, q);
      } else {
        assert q[..|p'|] == p';
        if |q| == |p'| {
          assert q == p';
        } else {
          ReachesBy(mem, root, p', ENTRIES, x, q);
        }
      }
    }
    if Reaches(mem, root, p, n - 1, x) {
      var q :| Through(p, n - 1, q) && Node(mem, root, q) == Some(x);
      ReachesBy(mem, root, p, n, x, q);
    }
    if Node(mem, root, p') == Some(x) {
      ReachesBy(mem, root, p, n, x, p');
    }
    if Reaches(mem, root, p', ENTRIES, x) {
      var q :| Through(p', ENTRIES, q) && Node(mem, root, q) == Some(x);
      assert q[..|p|] == q[..|p'|][..|p|];
      assert q[|p|] == q[..|p'|][|p|];
      ReachesBy(mem, root, p, n, x, q);
    }
  }

  lemma {:induction false} EntryIsReached(mem: Memory, root: nat, p: Path, k: nat, x: nat)
    requires Exclusive(mem, root) && IsTable(mem, root, p) && Node(mem, root, p).value in mem && k < ENTRIES
    ensures x in FreedEntry(mem, mem[Node(mem, root, p).value][k], |p|) <==> ReachedAt(mem, root, p, k, x)
    decreases 2 - |p|, k, 0
  {
    var t := Node(mem, root, p).value;
    var p' := p + [k];
    NodeStep(mem, root, p, k);
    if IsValid(mem[t][k]) {
      if |p| < 2 {
        FreedIsReached(mem, root, p', ENTRIES, x);
      }
    } else if Reaches(mem, root, p', ENTRIES, x) {
      var q :| Through(p', ENTRIES, q) && Node(mem, root, q) == Some(x);
      PrefixNode(mem, root, q, |p'|);
    }
  }

  lemma {:induction false} PrefixNode(mem: Memory, root: nat, q: Path, n: nat)
    requires IsPath(q) && n <= |q| && Node(mem, root, q).Some?
    ensures IsPath(q[..n]) && Node(mem, root, q[..n]).Some?
    decreases |q|
  {
    if n < |q| {
      PrefixNode(mem, root, q[..|q| - 1], n);
      assert q[..|q| - 1][..n] == q[..n];
    } else {
      assert q[..n] == q;
    }
  }

  // ------------------------------------------------------------ no page twice

  lemma {:induction false} FreedOnce(mem: Memory, root: nat, p: Path, n: nat)
    requires Exclusive(mem, root) && IsTable(mem, root, p) && Node(mem, root, p).value in mem && n <= ENTRIES
    ensures NoDup(FreedFrom(mem, mem[Node(mem, root, p).value][..n], |p|))
    decreases 2 - |p|, n, 1
  {
    var t := Node(mem, root, p).value;
    if n > 0 {
      EntriesStep(mem, t, n);
      FreedOnce(mem, root, p, n - 1);
      EntryOnce(mem, root, p, n - 1);
      var before, last := FreedFrom(mem, mem[t][..n - 1], |p|), FreedEntry(mem, mem[t][n - 1], |p|);
      forall x | x in before ensures x !in last {
        EntriesApart(mem, root, p, n - 1, x);
      }
      NoDupConcat(before, last);
    }
  }

  /** What the earlier entries free, entry `k` does not. */
  lemma EntriesApart(mem: Memory, root: nat, p: Path, k: nat, x: nat)
    requires Exclusive(mem, root) && IsTable(mem, root, p) && Node(mem, root, p).value in mem && k < ENTRIES
    requires x in FreedFrom(mem, mem[Node(mem, root, p).value][..k], |p|)
    ensures x !in FreedEntry(mem, mem[Node(mem, root, p).value][k], |p|)
  {
    FreedIsReached(mem, root, p, k, x);
    EntryIsReached(mem, root, p, k, x);
    if ReachedAt(mem, root, p, k, x) {
      DifferentEntries(mem, root, p, k, x);
    }
  }

  /** One page is not reached both through an earlier entry and through entry `k`. */
  lemma DifferentEntries(mem: Memory, root: nat, p: Path, k: nat, x: nat)
    requires Exclusive(mem, root) && IsPath(p) && |p| <= 2 && k < ENTRIES && Reaches(mem, root, p, k, x)
    ensures !ReachedAt(mem, root, p, k, x)
  {
    var q :| Through(p, k, q) && Node(mem, root, q) == Some(x);
    var p' := p + [k];
    assert q[|p|] != p'[|p|];
    assert q != p';
    forall r | Through(p', ENTRIES, r) ensures Node(mem, root, r) != Some(x) {
      assert r[|p|] == r[..|p'|][|p|] == k;
      assert r != q;
    }
  }

  lemma {:induction false} EntryOnce(mem: Memory, root: nat, p: Path, k: nat)
    requires Exclusive(mem, root) && IsTable(mem, root, p) && Node(mem, root, p).value in mem && k < ENTRIES
    ensures NoDup(FreedEntry(mem, mem[Node(mem, root, p).value][k], |p|))
    decreases 2 - |p|, k, 0
  {
    var t := Node(mem, root, p).value;
    var p' := p + [k];
    NodeStep(mem, root, p, k);
    if IsValid(mem[t][k]) && |p| < 2 {
      var c := ChildAddr(mem[t][k]);
      FreedOnce(mem, root, p', ENTRIES);
      FreedIsReached(mem, root, p', ENTRIES, c);
      NoDupSnoc(FreedFrom(mem, mem[c][..ENTRIES], |p| + 1), c);
    }
  }

  /** The list of free_vm holds every page of the address space exactly once and nothing else. */
  lemma TreeListIsTree(mem: Memory, root: nat, x: nat)
    requires Exclusive(mem, root) && root in mem
    ensures NoDup(TreeList(mem, root))
    ensures x in TreeList(mem, root) <==> exists p | IsPath(p) :: Node(mem, root, p) == Some(x)
  {
    assert IsTable(mem, root, []) && Node(mem, root, []) == Some(root);
    FreedOnce(mem, root, [], ENTRIES);
    FreedIsReached(mem, root, [], ENTRIES, root);
    NoDupSnoc(FreedFrom(mem, mem[root][..ENTRIES], 0), root);
    FreedIsReached(mem, root, [], ENTRIES, x);
    if x in FreedFrom(mem, mem[root][..ENTRIES], 0) {
      var q :| Through([], ENTRIES, q) && Node(mem, root, q) == Some(x);
      assert IsPath(q);
    }
    if p :| IsPath(p) && Node(mem, root, p) == Some(x) {
      if p != [] {
        assert p[..0] == [];
        ReachesBy(mem, root, [], ENTRIES, x, p);
      }
    }
  }

  // ------------------------------------------------------------------- framing

  /** Memories that agree on every listed page free the same list. */
  lemma {:induction false} FreedFrame(mem: Memory, mem': Memory, es: seq<nat>, level: nat)
    requires level <= 2
    requires forall x | x in FreedFrom(mem, es, level) :: x in mem && x in mem' && mem'[x] == mem[x]
    ensures FreedFrom(mem', es, level) == FreedFrom(mem, es, level)
    decreases 2 - level, |es|
  {
    if es != [] {
      var n := |es| - 1;
      FreedFrame(mem, mem', es[..n], level);
      var e := es[n];
      if IsValid(e) && level < 2 {
        var c := ChildAddr(e);
        assert c in FreedEntry(mem, e, level);
        FreedFrame(mem, mem', mem[c][..ENTRIES], level + 1);
      }
    }
  }

  /** The list for fewer entries is a prefix. */
  lemma {:induction false} FreedPrefix(mem: Memory, es: seq<nat>, i: nat, level: nat)
    requires level <= 2 && i <= |es|
    ensures FreedFrom(mem, es[..i], level) <= FreedFrom(mem, es, level)
    decreases |es|
  {
    if i < |es| {
      FreedPrefix(mem, es[..|es| - 1], i, level);
      assert es[..|es| - 1][..i] == es[..i];
    } else {
      assert es[..i] == es;
    }
  }

  // ------------------------------------------------------ children before parents

  ghost predicate Before(l: seq<nat>, x: nat, y: nat) {
    exists i, j :: 0 <= i < j < |l| && l[i] == x && l[j] == y
  }

  lemma BeforeConcat(a: seq<nat>, b: seq<nat>, x: nat, y: nat)
    requires Before(a, x, y) || Before(b, x, y) || (x in a && y in b)
    ensures Before(a + b, x, y)
  {
    var l := a + b;
    if i, j :| 0 <= i < j < |a| && a[i] == x && a[j] == y {
      assert l[i] == x && l[j] == y;
    } else if i, j :| 0 <= i < j < |b| && b[i] == x && b[j] == y {
      assert l[|a| + i] == x && l[|a| + j] == y;
    } else {
      var i :| 0 <= i < |a| && a[i] == x;
      var j :| 0 <= j < |b| && b[j] == y;
      assert l[i] == x && l[|a| + j] == y;
    }
  }

  /** A page reached through a table of the subtree is freed before that table. */
  lemma {:induction false} ChildFirst(mem: Memory, root: nat, p: Path, n: nat, q: Path)
    requires Exclusive(mem, root) && IsTable(mem, root, p) && Node(mem, root, p).value in mem && n <= ENTRIES
    requires Through(p, n, q) && |q| >= |p| + 2 && Node(mem, root, q).Some?
    requires Node(mem, root, q[..|q| - 1]).Some?
    ensures Before(FreedFrom(mem, mem[Node(mem, root, p).value][..n], |p|),
                   Node(mem, root, q).value, Node(mem, root, q[..|q| - 1]).value)
    decreases 2 - |p|, n, 1
  {
    var t := Node(mem, root, p).value;
    var x, y := Node(mem, root, q).value, Node(mem, root, q[..|q| - 1]).value;
    EntriesStep(mem, t, n);
    var before, last := FreedFrom(mem, mem[t][..n - 1], |p|), FreedEntry(mem, mem[t][n - 1], |p|);
    if q[|p|] < n - 1 {
      ChildFirst(mem, root, p, n - 1, q);
    } else {
      ChildFirstInEntry(mem, root, p, n - 1, q);
    }
    BeforeConcat(before, last, x, y);
  }

  lemma {:induction false} ChildFirstInEntry(mem: Memory, root: nat, p: Path, k: nat, q: Path)
    requires Exclusive(mem, root) && IsTable(mem, root, p) && Node(mem, root, p).value in mem && k < ENTRIES
    requires Through(p, k + 1, q) && q[|p|] == k && |q| >= |p| + 2 && Node(mem, root, q).Some?
    requires Node(mem, root, q[..|q| - 1]).Some?
    ensures Before(FreedEntry(mem, mem[Node(mem, root, p).value][k], |p|),
                   Node(mem, root, q).value, Node(mem, root, q[..|q| - 1]).value)
    decreases 2 - |p|, k, 0
  {
    var p' := p + [k];
    var x, y := Node(mem, root, q).value, Node(mem, root, q[..|q| - 1]).value;
    assert q[..|p'|] == p';
    PrefixNode(mem, root, q, |p'|);
    NodeStep(mem, root, p, k);
    var c := Node(mem, root, p').value;
    var sub := FreedFrom(mem, mem[c][..ENTRIES], |p'|);
    if |q| == |p'| + 1 {
      assert q[..|q| - 1] == p';
      FreedIsReached(mem, root, p', ENTRIES, x);
      ReachesBy(mem, root, p', ENTRIES, x, q);
    } else {
      ChildFirst(mem, root, p', ENTRIES, q);
    }
    BeforeConcat(sub, [c], x, y);
  }

  /** free_table and the final kfree of the root free every page before the table that leads to it. */
  lemma ChildrenBeforeParents(mem: Memory, root: nat, q: Path)
    requires Exclusive(mem, root) && root in mem && IsPath(q) && q != [] && Node(mem, root, q).Some?
    ensures Node(mem, root, q[..|q| - 1]).Some?
    ensures Before(TreeList(mem, root), Node(mem, root, q).value, Node(mem, root, q[..|q| - 1]).value)
  {
    PrefixNode(mem, root, q, |q| - 1);
    var x, y := Node(mem, root, q).value, Node(mem, root, q[..|q| - 1]).value;
    assert IsTable(mem, root, []) && Node(mem, root, []) == Some(root);
    assert q[..0] == [];
    var l := FreedFrom(mem, mem[root][..ENTRIES], 0);
    if |q| == 1 {
      FreedIsReached(mem, root, [], ENTRIES, x);
      ReachesBy(mem, root, [], ENTRIES, x, q);
    } else {
      ChildFirst(mem, root, [], ENTRIES, q);
    }
    BeforeConcat(l, [root], x, y);
  }

  // --------------------------------------------------------- removing one block

  /** Memory after freeing the block `x` and clearing its entry. */
  function Cleared(mem: Memory, t: nat, i: nat, x: nat): Memory
    requires t in mem && x != t && i < ENTRIES
  {
    Store(mem - {x}, t, i, 0)
  }

  lemma {:induction false} ClearedPaths(mem: Memory, root: nat, p: Path, i: nat, x: nat, q: Path)
    requires Exclusive(mem, root) && IsTable(mem, root, p) && |p| == 2 && i < ENTRIES && IsPath(q)
    requires Node(mem, root, p).value in mem && IsPath(p + [i]) && Node(mem, root, p + [i]) == Some(x)
    ensures x != Node(mem, root, p).value
    ensures Node(Cleared(mem, Node(mem, root, p).value, i, x), root, q) ==
            if q == p + [i] then None else Node(mem, root, q)
    decreases |q|
  {
    var t := Node(mem, root, p).value;
    assert p != p + [i];
    var mem' := Cleared(mem, t, i, x);
    if q != [] {
      var q0, j := q[..|q| - 1], q[|q| - 1];
      assert q == q0 + [j];
      ClearedPaths(mem, root, p, i, x, q0);
      if Node(mem, root, q0).Some? {
        var t0 := Node(mem, root, q0).value;
        assert t0 in mem;
        if t0 == t {
          assert q0 == p;
          ValidIsOdd(0);
        }
      }
    }
  }

  lemma ClearedExclusive(mem: Memory, root: nat, p: Path, i: nat, x: nat)
    requires Exclusive(mem, root) && IsTable(mem, root, p) && |p| == 2 && i < ENTRIES
    requires Node(mem, root, p).value in mem && IsPath(p + [i]) && Node(mem, root, p + [i]) == Some(x)
    ensures x != Node(mem, root, p).value
    ensures var m := Cleared(mem, Node(mem, root, p).value, i, x);
            && Exclusive(m, root) && x !in m
            && forall q | IsPath(q) :: Node(m, root, q) == if q == p + [i] then None else Node(mem, root, q)
  {
    assert p != p + [i];
    var m := Cleared(mem, Node(mem, root, p).value, i, x);
    forall q | IsPath(q) ensures Node(m, root, q) == if q == p + [i] then None else Node(mem, root, q) {
      ClearedPaths(mem, root, p, i, x, q);
    }
  }

  // ------------------------------------------------------------- one round's facts

  /** Memory without the listed pages. */
  function Minus(mem: Memory, l: seq<nat>): Memory {
    mem - (set x | x in l)
  }

  lemma MinusAppend(mem: Memory, a: seq<nat>, b: seq<nat>)
    ensures Minus(Minus(mem, a), b) == Minus(mem, a + b)
  {
    var m1, m2 := Minus(Minus(mem, a), b), Minus(mem, a + b);
    assert m1.Keys == m2.Keys;
  }

  /** The listed pages are allocated and none occurs twice, nor the table itself. */
  ghost predicate Freeable(mem: Memory, table: nat, level: nat) {
    && table in mem && level <= 2
    && var l := FreedFrom(mem, mem[table][..ENTRIES], level);
       NoDup(l) && table !in l && forall x | x in l :: x in mem
  }

  lemma FreedSnoc(mem: Memory, table: nat, level: nat, i: nat)
    requires table in mem && level <= 2 && i < ENTRIES
    ensures FreedFrom(mem, mem[table][..i + 1], level) ==
            FreedFrom(mem, mem[table][..i], level) + FreedEntry(mem, mem[table][i], level)
  {
    EntriesStep(mem, table, i + 1);
  }

  /** Before round `i`, the pages it will free are still there, each listed once. */
  lemma RoundAhead(mem: Memory, table: nat, level: nat, i: nat)
    requires Freeable(mem, table, level) && i < ENTRIES
    ensures var now := Minus(mem, FreedFrom(mem, mem[table][..i], level));
            var l := FreedEntry(mem, mem[table][i], level);
            && NoDup(l) && table !in l && table in now && now[table] == mem[table]
            && forall x | x in l :: x in mem && x in now && now[x] == mem[x]
  {
    var es := mem[table][..ENTRIES];
    FreedPrefix(mem, es, i + 1, level);
    FreedPrefix(mem, es, i, level);
    assert es[..i + 1] == mem[table][..i + 1] && es[..i] == mem[table][..i];
    FreedSnoc(mem, table, level, i);
    var a, b := FreedFrom(mem, mem[table][..i], level), FreedEntry(mem, mem[table][i], level);
    var l := FreedFrom(mem, es, level);
    assert a + b <= l;
    assert forall k | 0 <= k < |a + b| :: l[k] == (a + b)[k];
    PartsNoDup(a, b, l);
    forall x | x in b ensures x in mem && x !in a {
      var k :| 0 <= k < |b| && b[k] == x;
      assert l[|a| + k] == x;
    }
  }

  lemma PartsNoDup(a: seq<nat>, b: seq<nat>, l: seq<nat>)
    requires NoDup(l) && a + b <= l
    ensures NoDup(b) && (forall x | x in b :: x !in a) && forall x | x in a || x in b :: x in l
  {
    forall i, j | 0 <= i < j < |b| ensures b[i] != b[j] {
      assert l[|a| + i] == b[i] && l[|a| + j] == b[j];
    }
    forall x | x in b ensures x !in a {
      var j :| 0 <= j < |b| && b[j] == x;
      assert l[|a| + j] == x;
      forall i | 0 <= i < |a| ensures a[i] != x {
        assert l[i] == a[i];
      }
    }
    forall x | x in a || x in b ensures x in l {
      if x in a {
        var i :| 0 <= i < |a| && a[i] == x;
        assert l[i] == x;
      } else {
        var j :| 0 <= j < |b| && b[j] == x;
        assert l[|a| + j] == x;
      }
    }
  }

  /** The child table of round `i` is itself freeable in the memory of that moment. */
  lemma ChildFreeable(mem: Memory, now: Memory, e: nat, level: nat)
    requires level < 2 && IsValid(e) && ChildAddr(e) in mem
    requires NoDup(FreedEntry(mem, e, level))
    requires forall x | x in FreedEntry(mem, e, level) :: x in mem && x in now && now[x] == mem[x]
    ensures Freeable(now, ChildAddr(e), level + 1)
    ensures FreedEntry(mem, e, level) == FreedFrom(now, now[ChildAddr(e)][..ENTRIES], level + 1) + [ChildAddr(e)]
  {
    var c := ChildAddr(e);
    var sub := FreedFrom(mem, mem[c][..ENTRIES], level + 1);
    var all := FreedEntry(mem, e, level);
    assert all == sub + [c];
    assert c in all;
    PartsNoDup(sub, [c], all);
    FreedFrame(mem, now, mem[c][..ENTRIES], level + 1);
    forall i, j | 0 <= i < j < |sub| ensures sub[i] != sub[j] {
      assert all[i] == sub[i] && all[j] == sub[j];
    }
    assert c in [c];
  }

  /** What the first `i` rounds of the loop over a table free. */
  function Rounds(mem: Memory, table: nat, level: nat, i: nat): seq<nat>
    requires table in mem && level <= 2 && i <= ENTRIES
  {
    FreedFrom(mem, mem[table][..i], level)
  }

  /** The pages of `l` are distinct, allocated now, and still hold what they held in `mem`. */
  ghost predicate Intact(mem: Memory, now: Memory, l: seq<nat>) {
    NoDup(l) && forall x | x in l :: x in mem && x in now && now[x] == mem[x]
  }

  /** One round of the loop: what it frees, and the memory before and after it. */
  lemma Round(mem: Memory, table: nat, level: nat, i: nat, now: Memory, e: nat)
    requires Freeable(mem, table, level) && i < ENTRIES && e == mem[table][i]
    requires now == Minus(mem, Rounds(mem, table, level, i))
    ensures Intact(mem, now, FreedEntry(mem, e, level))
    ensures Rounds(mem, table, level, i + 1) == Rounds(mem, table, level, i) + FreedEntry(mem, e, level)
    ensures Minus(now, FreedEntry(mem, e, level)) == Minus(mem, Rounds(mem, table, level, i + 1))
  {
    RoundAhead(mem, table, level, i);
    FreedSnoc(mem, table, level, i);
    MinusAppend(mem, FreedFrom(mem, mem[table][..i], level), FreedEntry(mem, e, level));
  }

  /** The table being worked through has not been touched. */
  lemma TableIntact(mem: Memory, table: nat, level: nat, i: nat, now: Memory)
    requires Freeable(mem, table, level) && i < ENTRIES
    requires now == Minus(mem, Rounds(mem, table, level, i))
    ensures table in now && now[table] == mem[table]
  {
    RoundAhead(mem, table, level, i);
  }

  lemma NothingFreed(mem: Memory, trace: seq<nat>)
    ensures Minus(mem, []) == mem && trace + [] == trace
  {
  }

  /** Freeing `sub` and then `c`. */
  lemma EntryFreed(mem: Memory, trace: seq<nat>, sub: seq<nat>, c: nat)
    ensures Minus(mem, sub) - {c} == Minus(mem, sub + [c]) && trace + sub + [c] == trace + (sub + [c])
  {
    MinusAppend(mem, sub, [c]);
    assert (set x | x in [c]) == {c};
  }

  lemma NoRounds(mem: Memory, table: nat, level: nat)
    requires table in mem && level <= 2
    ensures Rounds(mem, table, level, 0) == [] && Minus(mem, []) == mem
  {
    assert mem[table][..0] == [];
  }

  // ------------------------------------------------------------------ free_page

  function LeafTable(v: nat): (p: Path)
    ensures IsPath(p) && |p| == 2
  {
    [Index(v, 0), Index(v, 1)]
  }

  function LeafPath(v: nat): (p: Path)
    ensures IsPath(p) && |p| == 3
  {
    [Index(v, 0), Index(v, 1), Index(v, 2)]
  }

  /** The block that the path of `v` leads to hangs in an allocated last-level table. */
  lemma LeafIsBlock(mem: Memory, root: nat, v: nat)
    requires Node(mem, root, LeafPath(v)).Some?
    ensures IsTable(mem, root, LeafTable(v))
    ensures var t := Node(mem, root, LeafTable(v)).value; t in mem && IsValid(mem[t][Index(v, 2)])
    ensures LeafTable(v) + [Index(v, 2)] == LeafPath(v)
    ensures Node(mem, root, LeafPath(v)) == Some(ChildAddr(mem[Node(mem, root, LeafTable(v)).value][Index(v, 2)]))
  {
    assert LeafTable(v) + [Index(v, 2)] == LeafPath(v);
    NodeStep(mem, root, LeafTable(v), Index(v, 2));
  }

  /** Memory after free_page: an unmapped page changes nothing, a mapped one loses block and entry. */
  ghost function PageFreed(mem: Memory, root: nat, v: nat): Memory
    requires Exclusive(mem, root)
  {
    match Node(mem, root, LeafPath(v))
    case None => mem
    case Some(x) =>
      LeafIsBlock(mem, root, v);
      assert LeafTable(v) != LeafPath(v);
      Cleared(mem, Node(mem, root, LeafTable(v)).value, Index(v, 2), x)
  }

  /** The block that free_page frees, if any. */
  function PageList(mem: Memory, root: nat, v: nat): seq<nat> {
    match Node(mem, root, LeafPath(v))
    case None => []
    case Some(x) => [x]
  }

  /** free_page takes exactly one path away. */
  lemma PageFreedPaths(mem: Memory, root: nat, v: nat)
    requires Exclusive(mem, root)
    ensures var m := PageFreed(mem, root, v);
            && Exclusive(m, root)
            && forall q | IsPath(q) :: Node(m, root, q) == if q == LeafPath(v) then None else Node(mem, root, q)
  {
    if Node(mem, root, LeafPath(v)).Some? {
      LeafIsBlock(mem, root, v);
      ClearedExclusive(mem, root, LeafTable(v), Index(v, 2), Node(mem, root, LeafPath(v)).value);
    }
  }

  lemma PageFreedMemory(mem: Memory, root: nat, v: nat)
    requires Exclusive(mem, root)
    ensures PageFreed(mem, root, v).Keys == Minus(mem, PageList(mem, root, v)).Keys
    ensures forall x | x in PageFreed(mem, root, v) ::
              PageFreed(mem, root, v)[x] == mem[x] || Node(mem, root, LeafTable(v)) == Some(x)
  {
    if Node(mem, root, LeafPath(v)).Some? {
      LeafIsBlock(mem, root, v);
      assert LeafTable(v) != LeafPath(v);
    }
  }

  lemma PageFreedTable(mem: Memory, root: nat, v: nat, p: Path)
    requires Exclusive(mem, root) && TablesOk(mem, root) && IsTable(PageFreed(mem, root, v), root, p)
    ensures var m := PageFreed(mem, root, v); IsTable(mem, root, p) && TableOk(m, Node(m, root, p).value, |p|)
  {
    PageFreedPaths(mem, root, v);
    assert IsTable(mem, root, p);
    assert TableOk(mem, Node(mem, root, p).value, |p|);
    if Node(mem, root, LeafPath(v)).Some? {
      LeafIsBlock(mem, root, v);
      ValidIsOdd(0);
    }
  }

  lemma PageFreedTablesOk(mem: Memory, root: nat, v: nat)
    requires Exclusive(mem, root) && TablesOk(mem, root)
    ensures TablesOk(PageFreed(mem, root, v), root)
  {
    var m := PageFreed(mem, root, v);
    PageFreedPaths(mem, root, v);
    forall p | IsTable(m, root, p) ensures TableOk(m, Node(m, root, p).value, |p|) {
      PageFreedTable(mem, root, v, p);
    }
  }

  lemma PageFreedEntry(mem: Memory, root: nat, v: nat, q: Path, k: nat)
    requires Exclusive(mem, root) && IsPath(q) && |q| == 2 && k < ENTRIES
    ensures EntryAt(PageFreed(mem, root, v), root, q, k) ==
            if q + [k] == LeafPath(v) then None else EntryAt(mem, root, q, k)
  {
    var m := PageFreed(mem, root, v);
    PageFreedPaths(mem, root, v);
    NodeStep(mem, root, q, k);
    NodeStep(m, root, q, k);
    if q + [k] != LeafPath(v) && Node(mem, root, LeafPath(v)).Some? && Node(mem, root, q).Some? {
      LeafIsBlock(mem, root, v);
      assert q == LeafTable(v) ==> k != Index(v, 2);
    }
  }

  /** Unmapping as an update of the finite map that the tables represent. */
  ghost predicate UnmapsOnePage(mem: Memory, mem': Memory, root: nat, v: nat) {
    forall w: nat | UserAddress(w) :: Leaf(mem', root, w) == if SamePage(v, w) then None else Leaf(mem, root, w)
  }

  lemma PageFreedUnmaps(mem: Memory, root: nat, v: nat)
    requires Exclusive(mem, root) && TablesOk(mem, root) && UserAddress(v)
    ensures UnmapsOnePage(mem, PageFreed(mem, root, v), root, v)
  {
    var m := PageFreed(mem, root, v);
    PageFreedTablesOk(mem, root, v);
    forall w: nat | UserAddress(w) ensures Leaf(m, root, w) == if SamePage(v, w) then None else Leaf(mem, root, w) {
      IndicesIdentifyPage(v, w);
      LeafCleared(mem, root, v, w);
    }
  }

  lemma LeafCleared(mem: Memory, root: nat, v: nat, w: nat)
    requires Exclusive(mem, root) && TablesOk(mem, root) && TablesOk(PageFreed(mem, root, v), root)
    ensures Leaf(PageFreed(mem, root, v), root, w) == if LeafPath(v) == LeafPath(w) then None else Leaf(mem, root, w)
  {
    EntryCleared(mem, PageFreed(mem, root, v), root, v, Index(w, 0), Index(w, 1), Index(w, 2));
  }

  lemma EntryCleared(mem: Memory, m: Memory, root: nat, v: nat, i: nat, j: nat, k: nat)
    requires Exclusive(mem, root) && TablesOk(mem, root) && m == PageFreed(mem, root, v) && TablesOk(m, root)
    requires i < ENTRIES && j < ENTRIES && k < ENTRIES
    ensures LeafEntry(m, root, i, j, k) == if LeafPath(v) == [i, j, k] then None else LeafEntry(mem, root, i, j, k)
  {
    LeafByPath(mem, root, i, j, k);
    LeafByPath(m, root, i, j, k);
    PageFreedEntry(mem, root, v, [i, j], k);
    assert [i, j] + [k] == [i, j, k];
  }

  // -------------------------------------------------------------------- free_vm

  const USER_PAGE: nat := 2 * PAGE_SIZE

  /** The pages that free_vm gives to kfree, in order. */
  ghost function VmList(mem: Memory, root: nat): seq<nat>
    requires Exclusive(mem, root) && root in PageFreed(mem, root, USER_PAGE)
  {
    PageList(mem, root, USER_PAGE) + TreeList(PageFreed(mem, root, USER_PAGE), root)
  }

  ghost predicate InTree(mem: Memory, root: nat, x: nat) {
    exists p | IsPath(p) :: Node(mem, root, p) == Some(x)
  }

  lemma InTreeBy(mem: Memory, root: nat, x: nat, p: Path)
    requires IsPath(p) && Node(mem, root, p) == Some(x)
    ensures InTree(mem, root, x)
  {
  }

  lemma RootStays(mem: Memory, root: nat)
    requires Exclusive(mem, root)
    ensures root in PageFreed(mem, root, USER_PAGE)
  {
    PageFreedPaths(mem, root, USER_PAGE);
    assert Node(PageFreed(mem, root, USER_PAGE), root, []) == Some(root);
  }

  lemma TreeFreeable(mem: Memory, root: nat)
    requires Exclusive(mem, root) && root in mem
    ensures Freeable(mem, root, 0)
  {
    var l := FreedFrom(mem, mem[root][..ENTRIES], 0);
    assert IsTable(mem, root, []) && Node(mem, root, []) == Some(root);
    FreedOnce(mem, root, [], ENTRIES);
    FreedIsReached(mem, root, [], ENTRIES, root);
    forall x | x in l ensures x in mem {
      FreedIsReached(mem, root, [], ENTRIES, x);
    }
  }

  /** free_vm frees every page of the address space exactly once and nothing else. */
  lemma VmListIsTree(mem: Memory, root: nat, x: nat)
    requires Exclusive(mem, root)
    ensures root in PageFreed(mem, root, USER_PAGE)
    ensures x in VmList(mem, root) <==> InTree(mem, root, x)
  {
    RootStays(mem, root);
    var m, leaf := PageFreed(mem, root, USER_PAGE), LeafPath(USER_PAGE);
    PageFreedPaths(mem, root, USER_PAGE);
    TreeListIsTree(m, root, x);
    if p :| IsPath(p) && Node(mem, root, p) == Some(x) {
      if p != leaf {
        assert Node(m, root, p) == Some(x);
      }
    }
    if p :| IsPath(p) && Node(m, root, p) == Some(x) {
      InTreeBy(mem, root, x, p);
    }
    if x in PageList(mem, root, USER_PAGE) {
      InTreeBy(mem, root, x, leaf);
    }
  }

  lemma VmListOnce(mem: Memory, root: nat)
    requires Exclusive(mem, root)
    ensures root in PageFreed(mem, root, USER_PAGE)
    ensures NoDup(VmList(mem, root))
  {
    RootStays(mem, root);
    var m := PageFreed(mem, root, USER_PAGE);
    PageFreedPaths(mem, root, USER_PAGE);
    TreeListIsTree(m, root, root);
    var a, b := PageList(mem, root, USER_PAGE), TreeList(m, root);
    forall x | x in a ensures x !in b {
      TreeListIsTree(m, root, x);
    }
    NoDupConcat(a, b);
  }

  /** free_vm frees every page before the table that leads to it. */
  lemma VmListChildrenFirst(mem: Memory, root: nat, q: Path)
    requires Exclusive(mem, root) && IsPath(q) && q != [] && Node(mem, root, q).Some?
    ensures root in PageFreed(mem, root, USER_PAGE)
    ensures Node(mem, root, q[..|q| - 1]).Some?
    ensures Before(VmList(mem, root), Node(mem, root, q).value, Node(mem, root, q[..|q| - 1]).value)
  {
    RootStays(mem, root);
    PrefixNode(mem, root, q, |q| - 1);
    var m, leaf := PageFreed(mem, root, USER_PAGE), LeafPath(USER_PAGE);
    var x, y := Node(mem, root, q).value, Node(mem, root, q[..|q| - 1]).value;
    var a, b := PageList(mem, root, USER_PAGE), TreeList(m, root);
    PageFreedPaths(mem, root, USER_PAGE);
    if q == leaf {
      assert Node(m, root, q[..|q| - 1]) == Some(y);
      TreeListIsTree(m, root, y);
    } else {
      assert q[..|q| - 1] != leaf;
      ChildrenBeforeParents(m, root, q);
    }
    BeforeConcat(a, b, x, y);
  }
}
