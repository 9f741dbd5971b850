/** Picking elements out of a sequence. */
module Sequences {

  ghost predicate NoRepeats<T(!new)>(xs: seq<T>) {
    forall a, b :: 0 <= a < b < |xs| ==> xs[a] != xs[b]
  }

  ghost function Elements<T>(xs: seq<T>): set<T> {
    set x | x in xs
  }

  /** The entries of `xs` that are in `among`, in order. */
  function Kept<T(==)>(xs: seq<T>, among: set<T>): seq<T> {
    KeptUpTo(xs, among, |xs|)
  }

  function KeptUpTo<T(==)>(xs: seq<T>, among: set<T>, k: nat): seq<T>
    requires k <= |xs|
  {
    if k == 0 then []
    else if xs[k - 1] in among then KeptUpTo(xs, among, k - 1) + [xs[k - 1]]
    else KeptUpTo(xs, among, k - 1)
  }

  /** `xs` without `n`. */
  function Without<T(==)>(xs: seq<T>, n: T): seq<T> {
    WithoutUpTo(xs, n, |xs|)
  }

  function WithoutUpTo<T(==)>(xs: seq<T>, n: T, k: nat): seq<T>
    requires k <= |xs|
  {
    if k == 0 then []
    else if xs[k - 1] != n then WithoutUpTo(xs, n, k - 1) + [xs[k - 1]]
    else WithoutUpTo(xs, n, k - 1)
  }

  // ----- one entry at a time -----

  lemma {:induction false} KeptSame<T>(xs: seq<T>, ys: seq<T>, among: set<T>, k: nat)
    requires k <= |xs| && k <= |ys| && forall i :: 0 <= i < k ==> xs[i] == ys[i]
    ensures KeptUpTo(xs, among, k) == KeptUpTo(ys, among, k)
  {
    if k > 0 {
      KeptSame(xs, ys, among, k - 1);
    }
  }

  lemma {:induction false} WithoutSame<T>(xs: seq<T>, ys: seq<T>, n: T, k: nat)
    requires k <= |xs| && k <= |ys| && forall i :: 0 <= i < k ==> xs[i] == ys[i]
    ensures WithoutUpTo(xs, n, k) == WithoutUpTo(ys, n, k)
  {
    if k > 0 {
      WithoutSame(xs, ys, n, k - 1);
    }
  }

  lemma {:induction false} KeptMore<T>(xs: seq<T>, x: T, among: set<T>)
    ensures Kept(xs + [x], among) == if x in among then Kept(xs, among) + [x] else Kept(xs, among)
  {
    KeptSame(xs + [x], xs, among, |xs|);
  }

  lemma {:induction false} WithoutMore<T>(xs: seq<T>, x: T, n: T)
    ensures Without(xs + [x], n) == if x != n then Without(xs, n) + [x] else Without(xs, n)
  {
    WithoutSame(xs + [x], xs, n, |xs|);
  }

  lemma {:induction false} LastOff<T>(xs: seq<T>) returns (init: seq<T>, last: T)
    requires xs != []
    ensures xs == init + [last] && |init| == |xs| - 1
  {
    init, last := xs[..|xs| - 1], xs[|xs| - 1];
  }

  lemma {:induction false} LastIsNew<T(!new)>(init: seq<T>, last: T)
    requires NoRepeats(init + [last])
    ensures NoRepeats(init) && last !in init
  {
    var xs := init + [last];
    forall a, b | 0 <= a < b < |init| ensures init[a] != init[b] {
      assert xs[a] != xs[b];
    }
    forall a | 0 <= a < |init| ensures init[a] != last {
      assert xs[a] != xs[|init|];
    }
  }

  // ----- keeping -----

  lemma {:induction false} KeptAgree<T>(xs: seq<T>, among: set<T>, wider: set<T>)
    requires forall x :: x in xs ==> (x in among <==> x in wider)
    ensures Kept(xs, among) == Kept(xs, wider)
    decreases |xs|
  {
    if xs != [] {
      var init, last := LastOff(xs);
      KeptAgree(init, among, wider);
      KeptMore(init, last, among);
      KeptMore(init, last, wider);
    }
  }

  lemma {:induction false} KeptMembers<T>(xs: seq<T>, among: set<T>)
    ensures forall x :: x in Kept(xs, among) <==> x in xs && x in among
    decreases |xs|
  {
    if xs != [] {
      var init, last := LastOff(xs);
      KeptMembers(init, among);
      KeptMore(init, last, among);
    }
  }

  lemma {:induction false} KeptDistinct<T(!new)>(xs: seq<T>, among: set<T>)
    requires NoRepeats(xs)
    ensures NoRepeats(Kept(xs, among))
    decreases |xs|
  {
    if xs != [] {
      var init, last := LastOff(xs);
      LastIsNew(init, last);
      KeptDistinct(init, among);
      KeptMembers(init, among);
      KeptMore(init, last, among);
    }
  }

  lemma {:induction false} KeptConcat<T>(xs: seq<T>, ys: seq<T>, among: set<T>)
    ensures Kept(xs + ys, among) == Kept(xs, among) + Kept(ys, among)
    decreases |ys|
  {
    if ys == [] {
      assert xs + ys == xs;
    } else {
      var init, last := LastOff(ys);
      KeptConcat(xs, init, among);
      KeptMore(init, last, among);
      KeptMore(xs + init, last, among);
      assert xs + ys == (xs + init) + [last];
    }
  }

  lemma {:induction false} KeptOne<T>(n: T, among: set<T>)
    ensures Kept([n], among) == if n in among then [n] else []
  {
    assert [] + [n] == [n];
    KeptMore([], n, among);
  }

  lemma {:induction false} KeptAmid<T>(before: seq<T>, n: T, after: seq<T>, among: set<T>)
    ensures Kept(before + [n] + after, among) == Kept(before, among) + (if n in among then [n] else []) + Kept(after, among)
  {
    KeptConcat(before + [n], after, among);
    KeptMore(before, n, among);
  }

  lemma {:induction false} KeptTwice<T>(xs: seq<T>, among: set<T>, fewer: set<T>)
    requires fewer <= among
    ensures Kept(Kept(xs, among), fewer) == Kept(xs, fewer)
    decreases |xs|
  {
    if xs != [] {
      var init, last := LastOff(xs);
      KeptTwice(init, among, fewer);
      KeptMore(init, last, among);
      KeptMore(init, last, fewer);
      KeptMore(Kept(init, among), last, fewer);
    }
  }

  lemma {:induction false} KeptNone<T>(xs: seq<T>, among: set<T>)
    requires forall x :: x in xs ==> x !in among
    ensures Kept(xs, among) == []
    decreases |xs|
  {
    if xs != [] {
      var init, last := LastOff(xs);
      KeptNone(init, among);
      KeptMore(init, last, among);
    }
  }

  lemma {:induction false} KeptAll<T>(xs: seq<T>, among: set<T>)
    requires forall x :: x in xs ==> x in among
    ensures Kept(xs, among) == xs
    decreases |xs|
  {
    if xs != [] {
      var init, last := LastOff(xs);
      KeptAll(init, among);
      KeptMore(init, last, among);
    }
  }

  /** Keeping in two steps comes to the same in either order. */
  lemma {:induction false} KeptInOrder<T>(xs: seq<T>, first: set<T>, second: set<T>)
    ensures Kept(Kept(xs, first), second) == Kept(Kept(xs, second), first)
    decreases |xs|
  {
    if xs != [] {
      var init, last := LastOff(xs);
      KeptInOrder(init, first, second);
      KeptMore(init, last, first);
      KeptMore(init, last, second);
      KeptMore(Kept(init, first), last, second);
      KeptMore(Kept(init, second), last, first);
    }
  }

  // ----- leaving out -----

  lemma {:induction false} WithoutAbsent<T>(xs: seq<T>, n: T)
    requires n !in xs
    ensures Without(xs, n) == xs
    decreases |xs|
  {
    if xs != [] {
      var init, last := LastOff(xs);
      WithoutAbsent(init, n);
      WithoutMore(init, last, n);
    }
  }

  lemma {:induction false} WithoutConcat<T>(xs: seq<T>, ys: seq<T>, n: T)
    ensures Without(xs + ys, n) == Without(xs, n) + Without(ys, n)
    decreases |ys|
  {
    if ys == [] {
      assert xs + ys == xs;
    } else {
      var init, last := LastOff(ys);
      WithoutConcat(xs, init, n);
      WithoutMore(init, last, n);
      WithoutMore(xs + init, last, n);
      assert xs + ys == (xs + init) + [last];
    }
  }

  lemma {:induction false} WithoutMiddle<T>(before: seq<T>, n: T, after: seq<T>)
    requires n !in before && n !in after
    ensures Without(before + [n] + after, n) == before + after
  {
    WithoutAbsent(before, n);
    WithoutMore(before, n, n);
    WithoutAbsent(after, n);
    WithoutConcat(before + [n], after, n);
  }

  lemma {:induction false} WithoutAt<T(!new)>(xs: seq<T>, at: nat)
    requires NoRepeats(xs) && at < |xs|
    ensures Without(xs, xs[at]) == xs[..at] + xs[at + 1..]
  {
    assert xs == xs[..at] + [xs[at]] + xs[at + 1..];
    WithoutMiddle(xs[..at], xs[at], xs[at + 1..]);
  }

  lemma {:induction false} WithoutMembers<T>(xs: seq<T>, n: T)
    ensures forall x :: x in Without(xs, n) <==> x in xs && x != n
    decreases |xs|
  {
    if xs != [] {
      var init, last := LastOff(xs);
      WithoutMembers(init, n);
      WithoutMore(init, last, n);
    }
  }

  lemma {:induction false} WithoutDistinct<T(!new)>(xs: seq<T>, n: T)
    requires NoRepeats(xs)
    ensures NoRepeats(Without(xs, n))
    decreases |xs|
  {
    if xs != [] {
      var init, last := LastOff(xs);
      LastIsNew(init, last);
      WithoutDistinct(init, n);
      WithoutMembers(init, n);
      WithoutMore(init, last, n);
    }
  }

  lemma {:induction false} HeadOut<T(!new)>(xs: seq<T>)
    requires NoRepeats(xs) && xs != []
    ensures xs == [xs[0]] + Without(xs, xs[0])
  {
    WithoutAt(xs, 0);
    assert xs[..0] + xs[1..] == xs[1..];
  }

  lemma {:induction false} KeptWithout<T>(xs: seq<T>, among: set<T>, n: T)
    ensures Kept(Without(xs, n), among) == Without(Kept(xs, among), n)
    decreases |xs|
  {
    if xs != [] {
      var init, last := LastOff(xs);
      KeptWithout(init, among, n);
      WithoutMore(init, last, n);
      KeptMore(init, last, among);
      KeptMore(Without(init, n), last, among);
      WithoutMore(Kept(init, among), last, n);
    }
  }

  /** Keeping one thing less. */
  lemma {:induction false} KeptLess<T>(xs: seq<T>, among: set<T>, n: T)
    ensures Kept(xs, among - {n}) == Without(Kept(xs, among), n)
    decreases |xs|
  {
    if xs != [] {
      var init, last := LastOff(xs);
      KeptLess(init, among, n);
      KeptMore(init, last, among);
      KeptMore(init, last, among - {n});
      WithoutMore(Kept(init, among), last, n);
    }
  }

  lemma {:induction false} Assoc<T>(a: seq<T>, b: seq<T>, c: seq<T>)
    ensures (a + b) + c == a + (b + c)
  {
  }
}
