/** Sequences without repetition, and filtering by a set. */
module Seqs {

  ghost predicate NoDup<T>(xs: seq<T>) {
    forall i, j | 0 <= i < j < |xs| :: xs[i] != xs[j]
  }

  /** The elements of `xs` that lie in `keep`, in their original order. */
  function Keep<T(==)>(xs: seq<T>, keep: set<T>): seq<T> {
    if xs == [] then []
    else if xs[0] in keep then [xs[0]] + Keep(xs[1..], keep)
    else Keep(xs[1..], keep)
  }

  /** The elements of `xs` that do not lie in `drop`, in their original order. */
  function Drop<T(==)>(xs: seq<T>, drop: set<T>): seq<T> {
    if xs == [] then []
    else if xs[0] in drop then Drop(xs[1..], drop)
    else [xs[0]] + Drop(xs[1..], drop)
  }

  lemma {:induction false} KeepMember<T>(xs: seq<T>, keep: set<T>, x: T)
    ensures x in Keep(xs, keep) <==> x in xs && x in keep
  {
    if xs != [] {
      KeepMember(xs[1..], keep, x);
      assert xs == [xs[0]] + xs[1..];
    }
  }

  lemma {:induction false} DropMember<T>(xs: seq<T>, drop: set<T>, x: T)
    ensures x in Drop(xs, drop) <==> x in xs && x !in drop
  {
    if xs != [] {
      DropMember(xs[1..], drop, x);
      assert xs == [xs[0]] + xs[1..];
    }
  }

  lemma NoDupCons<T>(x: T, xs: seq<T>)
    requires NoDup(xs) && x !in xs
    ensures NoDup([x] + xs)
  {
  }

  lemma NoDupSnoc<T>(xs: seq<T>, x: T)
    requires NoDup(xs) && x !in xs
    ensures NoDup(xs + [x])
  {
  }

  lemma NoDupTail<T>(xs: seq<T>)
    requires NoDup(xs) && xs != []
    ensures NoDup(xs[1..]) && xs[0] !in xs[1..]
  {
    assert xs == [xs[0]] + xs[1..];
    assert forall j | 0 <= j < |xs[1..]| :: xs[1..][j] == xs[j + 1];
  }

  lemma NoDupConcat<T>(xs: seq<T>, ys: seq<T>)
    requires NoDup(xs) && NoDup(ys) && forall x | x in xs :: x !in ys
    ensures NoDup(xs + ys)
  {
    var zs := xs + ys;
    forall i, j | 0 <= i < j < |zs| ensures zs[i] != zs[j] {
      if i < |xs| <= j {
        assert zs[i] in xs && zs[j] in ys;
      }
    }
  }

  lemma {:induction false} KeepNoDup<T>(xs: seq<T>, keep: set<T>)
    requires NoDup(xs)
    ensures NoDup(Keep(xs, keep))
  {
    if xs != [] {
      NoDupTail(xs);
      KeepNoDup(xs[1..], keep);
      KeepMember(xs[1..], keep, xs[0]);
      if xs[0] in keep {
        NoDupCons(xs[0], Keep(xs[1..], keep));
      }
    }
  }

  lemma {:induction false} DropNoDup<T>(xs: seq<T>, drop: set<T>)
    requires NoDup(xs)
    ensures NoDup(Drop(xs, drop))
  {
    if xs != [] {
      NoDupTail(xs);
      DropNoDup(xs[1..], drop);
      DropMember(xs[1..], drop, xs[0]);
      if xs[0] !in drop {
        NoDupCons(xs[0], Drop(xs[1..], drop));
      }
    }
  }

  /** `xs` without the element at position `k`. */
  function Without<T>(xs: seq<T>, k: nat): seq<T>
    requires k < |xs|
  {
    xs[..k] + xs[k + 1..]
  }

  lemma WithoutMember<T>(xs: seq<T>, k: nat, x: T)
    requires k < |xs| && NoDup(xs)
    ensures NoDup(Without(xs, k))
    ensures x in Without(xs, k) <==> x in xs && x != xs[k]
  {
    var ys := Without(xs, k);
    if x in xs && x != xs[k] {
      var i :| 0 <= i < |xs| && xs[i] == x;
      assert ys[if i < k then i else i - 1] == x;
    }
    assert forall j | 0 <= j < |ys| :: ys[j] == xs[if j < k then j else j + 1];
  }

  /** Taking the first kept element out of `xs`. */
  lemma {:induction false} KeepFirst<T>(xs: seq<T>, s: set<T>, k: nat)
    requires k < |xs| && xs[k] in s && forall i | 0 <= i < k :: xs[i] !in s
    ensures Keep(xs, s) == [xs[k]] + Keep(Without(xs, k), s)
    ensures Drop(xs, s) == Drop(Without(xs, k), s)
  {
    if k == 0 {
      assert Without(xs, 0) == xs[1..];
    } else {
      KeepFirst(xs[1..], s, k - 1);
      assert Without(xs, k) == [xs[0]] + Without(xs[1..], k - 1);
    }
  }

  lemma {:induction false} KeepNone<T>(xs: seq<T>, s: set<T>)
    requires forall x | x in xs :: x !in s
    ensures Keep(xs, s) == [] && Drop(xs, s) == xs
  {
    if xs != [] {
      KeepNone(xs[1..], s);
    }
  }

  lemma Assoc<T>(a: seq<T>, b: seq<T>, c: seq<T>, bc: seq<T>)
    requires bc == b + c
    ensures a + b + c == a + bc
  {
  }

  /** The elements of a sequence. */
  function Members<T>(xs: seq<T>): set<T> {
    if xs == [] then {} else {xs[0]} + Members(xs[1..])
  }

  lemma {:induction false} MembersIn<T>(xs: seq<T>, x: T)
    ensures x in Members(xs) <==> x in xs
  {
    if xs != [] {
      MembersIn(xs[1..], x);
    }
  }

  lemma {:induction false} MembersSize<T>(xs: seq<T>)
    requires NoDup(xs)
    ensures |Members(xs)| == |xs|
  {
    if xs != [] {
      NoDupTail(xs);
      MembersSize(xs[1..]);
      MembersIn(xs[1..], xs[0]);
    }
  }

  lemma {:induction false} MembersConcat<T>(xs: seq<T>, ys: seq<T>)
    ensures Members(xs + ys) == Members(xs) + Members(ys)
  {
    if xs == [] {
      assert xs + ys == ys;
    } else {
      MembersConcat(xs[1..], ys);
      assert (xs + ys)[1..] == xs[1..] + ys;
    }
  }
}
