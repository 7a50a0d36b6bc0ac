/** A stable sort by a numeric key, as Array.prototype.sort and sorted() promise it. */
module StableSort {
  /** `x` goes in after every element whose key is no greater. */
  function Insert<T>(sorted: seq<T>, x: T, key: T -> real): seq<T> {
    if sorted == [] || key(sorted[|sorted| - 1]) <= key(x) then sorted + [x]
    else Insert(sorted[..|sorted| - 1], x, key) + [sorted[|sorted| - 1]]
  }

  function Sort<T>(xs: seq<T>, key: T -> real): seq<T> {
    if xs == [] then [] else Insert(Sort(xs[..|xs| - 1], key), xs[|xs| - 1], key)
  }

  predicate ByKey<T>(xs: seq<T>, key: T -> real) {
    forall i, j :: 0 <= i < j < |xs| ==> key(xs[i]) <= key(xs[j])
  }

  /** The elements with key `k`, in order. */
  function WithKey<T>(xs: seq<T>, key: T -> real, k: real): seq<T> {
    if xs == [] then []
    else WithKey(xs[..|xs| - 1], key, k) + if key(xs[|xs| - 1]) == k then [xs[|xs| - 1]] else []
  }

  lemma {:induction false} InsertKeepsOrder<T(!new)>(sorted: seq<T>, x: T, key: T -> real)
    requires ByKey(sorted, key)
    ensures ByKey(Insert(sorted, x, key), key) && forall y :: y in Insert(sorted, x, key) <==> y == x || y in sorted
  {
    if !(sorted == [] || key(sorted[|sorted| - 1]) <= key(x)) {
      var front, last := sorted[..|sorted| - 1], sorted[|sorted| - 1];
      InsertKeepsOrder(front, x, key);
      assert sorted == front + [last];
      forall y <- Insert(front, x, key) ensures key(y) <= key(last) {
        if y != x {
          assert y in front;
          var i :| 0 <= i < |front| && front[i] == y;
          assert sorted[i] == y;
        }
      }
    }
  }

  lemma {:induction false} InsertAdds<T>(sorted: seq<T>, x: T, key: T -> real)
    ensures multiset(Insert(sorted, x, key)) == multiset(sorted) + multiset{x}
  {
    if !(sorted == [] || key(sorted[|sorted| - 1]) <= key(x)) {
      InsertAdds(sorted[..|sorted| - 1], x, key);
      assert sorted == sorted[..|sorted| - 1] + [sorted[|sorted| - 1]];
    }
  }

  lemma WithKeySnoc<T>(xs: seq<T>, x: T, key: T -> real, k: real)
    ensures WithKey(xs + [x], key, k) == WithKey(xs, key, k) + if key(x) == k then [x] else []
  {
    assert (xs + [x])[..|xs|] == xs;
  }

  lemma {:induction false} InsertIsStable<T>(sorted: seq<T>, x: T, key: T -> real, k: real)
    ensures WithKey(Insert(sorted, x, key), key, k) == WithKey(sorted, key, k) + if key(x) == k then [x] else []
  {
    if sorted == [] || key(sorted[|sorted| - 1]) <= key(x) {
      WithKeySnoc(sorted, x, key, k);
    } else {
      var front, last := sorted[..|sorted| - 1], sorted[|sorted| - 1];
      InsertIsStable(front, x, key, k);
      WithKeySnoc(Insert(front, x, key), last, key, k);
    }
  }

  /** The sort orders the elements by key and loses none. */
  lemma {:induction false} SortOrders<T(!new)>(xs: seq<T>, key: T -> real)
    ensures ByKey(Sort(xs, key), key) && multiset(Sort(xs, key)) == multiset(xs)
  {
    hide Insert;
    if xs != [] {
      var front, last := xs[..|xs| - 1], xs[|xs| - 1];
      SortOrders(front, key);
      InsertKeepsOrder(Sort(front, key), last, key);
      InsertAdds(Sort(front, key), last, key);
      assert xs == front + [last];
    }
  }

  /** The sort leaves elements of equal key in their order. */
  lemma {:induction false} SortIsStable<T>(xs: seq<T>, key: T -> real, k: real)
    ensures WithKey(Sort(xs, key), key, k) == WithKey(xs, key, k)
  {
    hide Insert;
    if xs != [] {
      SortIsStable(xs[..|xs| - 1], key, k);
      InsertIsStable(Sort(xs[..|xs| - 1], key), xs[|xs| - 1], key, k);
    }
  }

  /** `a` stands before `b`. */
  ghost predicate InOrder<T>(xs: seq<T>, a: T, b: T) {
    exists i, j :: 0 <= i < j < |xs| && xs[i] == a && xs[j] == b
  }

  lemma InOrderSnoc<T>(xs: seq<T>, x: T, a: T, b: T)
    requires InOrder(xs, a, b) || (a in xs && b == x)
    ensures InOrder(xs + [x], a, b)
  {
    if InOrder(xs, a, b) {
      var i, j :| 0 <= i < j < |xs| && xs[i] == a && xs[j] == b;
      assert (xs + [x])[i] == a && (xs + [x])[j] == b;
    } else {
      var i :| 0 <= i < |xs| && xs[i] == a;
      assert (xs + [x])[i] == a && (xs + [x])[|xs|] == b;
    }
  }

  lemma {:induction false} WithKeyHas<T(!new)>(xs: seq<T>, key: T -> real, k: real)
    ensures forall y :: y in WithKey(xs, key, k) <==> y in xs && key(y) == k
  {
    if xs != [] {
      WithKeyHas(xs[..|xs| - 1], key, k);
      assert xs == xs[..|xs| - 1] + [xs[|xs| - 1]];
    }
  }

  /** Among the elements of one key the order is that of all. */
  lemma {:induction false} WithKeyInOrder<T(!new)>(xs: seq<T>, key: T -> real, k: real, a: T, b: T)
    requires key(a) == k && key(b) == k
    ensures InOrder(WithKey(xs, key, k), a, b) <==> InOrder(xs, a, b)
  {
    if xs != [] {
      var front, last := xs[..|xs| - 1], xs[|xs| - 1];
      assert xs == front + [last];
      WithKeyInOrder(front, key, k, a, b);
      WithKeyHas(front, key, k);
      InOrderLast(front, last, a, b);
      InOrderLast(WithKey(front, key, k), last, a, b);
      hide InOrder;
      assert WithKey(front, key, k) + [] == WithKey(front, key, k);
    }
  }

  lemma InOrderLast<T>(xs: seq<T>, x: T, a: T, b: T)
    ensures InOrder(xs + [x], a, b) <==> InOrder(xs, a, b) || (a in xs && b == x)
  {
    if InOrder(xs + [x], a, b) {
      var i, j :| 0 <= i < j < |xs + [x]| && (xs + [x])[i] == a && (xs + [x])[j] == b;
      assert xs[i] == a;
      assert j < |xs| ==> xs[j] == b;
    }
    if InOrder(xs, a, b) || (a in xs && b == x) {
      InOrderSnoc(xs, x, a, b);
    }
  }

  /** Two elements of equal key stand in the sorted list as they did before. */
  lemma SortKeepsTies<T(!new)>(xs: seq<T>, key: T -> real, a: T, b: T)
    requires key(a) == key(b)
    ensures InOrder(Sort(xs, key), a, b) <==> InOrder(xs, a, b)
  {
    SortIsStable(xs, key, key(a));
    WithKeyInOrder(xs, key, key(a), a, b);
    WithKeyInOrder(Sort(xs, key), key, key(a), a, b);
  }

  /** No two elements share an id. */
  ghost predicate DistinctBy<T>(xs: seq<T>, id: T -> string) {
    forall i, j :: 0 <= i < j < |xs| ==> id(xs[i]) != id(xs[j])
  }

  lemma {:induction false} InsertKeepsDistinct<T(!new)>(sorted: seq<T>, x: T, key: T -> real, id: T -> string)
    requires DistinctBy(sorted, id) && forall y <- sorted :: id(y) != id(x)
    ensures DistinctBy(Insert(sorted, x, key), id) && forall y :: y in Insert(sorted, x, key) <==> y == x || y in sorted
  {
    if !(sorted == [] || key(sorted[|sorted| - 1]) <= key(x)) {
      var front, last := sorted[..|sorted| - 1], sorted[|sorted| - 1];
      assert sorted == front + [last];
      InsertKeepsDistinct(front, x, key, id);
      forall y <- Insert(front, x, key) ensures id(y) != id(last) {
        if y != x {
          assert y in front;
          var i :| 0 <= i < |front| && front[i] == y;
          assert sorted[i] == y && id(sorted[i]) != id(sorted[|front|]);
        }
      }
    }
  }

  lemma {:induction false} SortKeepsDistinct<T(!new)>(xs: seq<T>, key: T -> real, id: T -> string)
    requires DistinctBy(xs, id)
    ensures DistinctBy(Sort(xs, key), id) && forall y :: y in Sort(xs, key) <==> y in xs
  {
    hide Insert;
    if xs != [] {
      var front, last := xs[..|xs| - 1], xs[|xs| - 1];
      SortKeepsDistinct(front, key, id);
      assert xs == front + [last];
      forall y <- Sort(front, key) ensures id(y) != id(last) {
        assert y in front;
        var i :| 0 <= i < |front| && front[i] == y;
        assert id(xs[i]) != id(xs[|front|]);
      }
      InsertKeepsDistinct(Sort(front, key), last, key, id);
    }
  }
}
