/** Sorting by a strict order. Where no two elements compare equal, there is one sorted arrangement. */
module Orders {

  ghost predicate Strict<T(!new)>(less: (T, T) -> bool) {
    && (forall a, b {:trigger less(a, b)} :: less(a, b) ==> !less(b, a))
    && forall a, b, c {:trigger less(a, b), less(b, c)} :: less(a, b) && less(b, c) ==> less(a, c)
  }

  ghost predicate InOrder<T>(xs: seq<T>, less: (T, T) -> bool) {
    forall i, j :: 0 <= i < j < |xs| ==> less(xs[i], xs[j])
  }

  /** Any two places can be told apart. */
  ghost predicate Comparable<T>(xs: seq<T>, less: (T, T) -> bool) {
    forall i, j :: 0 <= i < j < |xs| ==> less(xs[i], xs[j]) || less(xs[j], xs[i])
  }

  function Inserted<T>(x: T, xs: seq<T>, less: (T, T) -> bool): seq<T> {
    if xs == [] || less(x, xs[0]) then [x] + xs else [xs[0]] + Inserted(x, xs[1..], less)
  }

  function SortBy<T>(xs: seq<T>, less: (T, T) -> bool): seq<T> {
    if xs == [] then [] else Inserted(xs[0], SortBy(xs[1..], less), less)
  }

  lemma {:induction false} InsertedInOrder<T(!new)>(x: T, xs: seq<T>, less: (T, T) -> bool)
    requires Strict(less) && InOrder(xs, less) && forall y :: y in xs ==> less(x, y) || less(y, x)
    ensures InOrder(Inserted(x, xs, less), less)
    ensures forall y :: y in Inserted(x, xs, less) <==> y == x || y in xs
  {
    if xs != [] {
      var head, rest := xs[0], xs[1..];
      assert xs == [head] + rest && head in xs;
      if less(x, head) {
        Front(x, xs, less);
      } else {
        assert forall y :: y in rest ==> y in xs;
        InsertedInOrder(x, rest, less);
        Behind(head, rest, Inserted(x, rest, less), x, less);
      }
    }
  }

  lemma {:induction false} Front<T(!new)>(x: T, xs: seq<T>, less: (T, T) -> bool)
    requires Strict(less) && xs != [] && InOrder(xs, less) && less(x, xs[0])
    ensures InOrder([x] + xs, less)
  {
    forall j | 0 <= j < |xs| ensures less(x, xs[j]) {
      assert j > 0 ==> less(xs[0], xs[j]);
    }
  }

  lemma {:induction false} Behind<T>(head: T, rest: seq<T>, more: seq<T>, x: T, less: (T, T) -> bool)
    requires InOrder([head] + rest, less) && InOrder(more, less) && less(head, x)
    requires forall y :: y in more <==> y == x || y in rest
    ensures InOrder([head] + more, less)
  {
    forall j | 0 <= j < |more| ensures less(head, more[j]) {
      if more[j] != x {
        assert more[j] in more;
        var i :| 0 <= i < |rest| && rest[i] == more[j];
        assert ([head] + rest)[0] == head && ([head] + rest)[i + 1] == rest[i];
      }
    }
  }

  lemma {:induction false} SortInOrder<T(!new)>(xs: seq<T>, less: (T, T) -> bool)
    requires Strict(less) && Comparable(xs, less)
    ensures InOrder(SortBy(xs, less), less) && forall y :: y in SortBy(xs, less) <==> y in xs
  {
    if xs != [] {
      var rest := xs[1..];
      assert xs == [xs[0]] + rest;
      assert forall j :: 0 <= j < |rest| ==> rest[j] == xs[j + 1];
      SortInOrder(rest, less);
      forall y | y in SortBy(rest, less) ensures less(xs[0], y) || less(y, xs[0]) {
        var j :| 0 <= j < |rest| && rest[j] == y;
        assert xs[j + 1] == y;
      }
      InsertedInOrder(xs[0], SortBy(rest, less), less);
    }
  }

  /** There is only one way to put given elements in order. */
  lemma {:induction false} OneOrder<T(!new)>(a: seq<T>, b: seq<T>, less: (T, T) -> bool)
    requires Strict(less) && InOrder(a, less) && InOrder(b, less) && forall x :: x in a <==> x in b
    ensures a == b
  {
    FirstIsIn(a);
    FirstIsIn(b);
    if a != [] && b != [] {
      SameFirst(a, b, less);
      forall x ensures x in a[1..] <==> x in b[1..] {
        InRest(a, x, less);
        InRest(b, x, less);
      }
      OneOrder(a[1..], b[1..], less);
      assert a == [a[0]] + a[1..] && b == [b[0]] + b[1..];
    }
  }

  lemma {:induction false} FirstIsIn<T>(a: seq<T>)
    ensures a != [] ==> a[0] in a
  {
  }

  lemma {:induction false} SameFirst<T(!new)>(a: seq<T>, b: seq<T>, less: (T, T) -> bool)
    requires Strict(less) && a != [] && b != [] && InOrder(a, less) && InOrder(b, less) && forall x :: x in a <==> x in b
    ensures a[0] == b[0]
  {
    assert a[0] in a && b[0] in b;
    var i :| 0 <= i < |b| && b[i] == a[0];
    var j :| 0 <= j < |a| && a[j] == b[0];
    assert i > 0 ==> less(b[0], b[i]);
    assert j > 0 ==> less(a[0], a[j]);
  }

  lemma {:induction false} InRest<T(!new)>(a: seq<T>, x: T, less: (T, T) -> bool)
    requires Strict(less) && a != [] && InOrder(a, less)
    ensures x in a[1..] <==> x in a && x != a[0]
  {
    assert a == [a[0]] + a[1..];
    forall i | 0 <= i < |a| - 1 ensures a[1..][i] != a[0] {
      assert less(a[0], a[i + 1]);
    }
  }

  /** Sorted elements have nothing left to sort. */
  lemma {:induction false} SortedStays<T(!new)>(xs: seq<T>, less: (T, T) -> bool)
    requires Strict(less) && InOrder(xs, less)
    ensures SortBy(xs, less) == xs
  {
    SortInOrder(xs, less);
    OneOrder(SortBy(xs, less), xs, less);
  }

  /** The elements of a set in order. */
  method Sorted<T(!new, ==)>(keys: set<T>, less: (T, T) -> bool) returns (order: seq<T>)
    requires Strict(less) && forall x, y :: x in keys && y in keys && x != y ==> less(x, y) || less(y, x)
    ensures InOrder(order, less) && forall k :: k in order <==> k in keys
  {
    order := [];
    var rest := keys;
    while rest != {}
      invariant rest <= keys && InOrder(order, less) && forall k :: k in order <==> k in keys - rest
      decreases rest
    {
      var key :| key in rest;
      rest := rest - {key};
      InsertedInOrder(key, order, less);
      order := PutIn(order, key, less);
    }
  }

  method PutIn<T>(order: seq<T>, key: T, less: (T, T) -> bool) returns (more: seq<T>)
    ensures more == Inserted(key, order, less)
  {
    var i := 0;
    while i < |order| && !less(key, order[i])
      invariant i <= |order| && Inserted(key, order, less) == order[..i] + Inserted(key, order[i..], less)
    {
      Skip(order, key, less, i);
      i := i + 1;
    }
    return order[..i] + ([key] + order[i..]);
  }

  lemma {:induction false} Skip<T>(order: seq<T>, key: T, less: (T, T) -> bool, i: nat)
    requires i < |order| && !less(key, order[i])
    ensures order[..i] + Inserted(key, order[i..], less) == order[..i + 1] + Inserted(key, order[i + 1..], less)
  {
    var rest := Inserted(key, order[i + 1..], less);
    assert order[i..][1..] == order[i + 1..];
    assert order[..i] + ([order[i]] + rest) == (order[..i] + [order[i]]) + rest;
    assert order[..i] + [order[i]] == order[..i + 1];
  }
}
