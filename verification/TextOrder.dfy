/** Sorting by an order of one's own, such as Python's order of strings, and where the elements end up. */
module TextOrder {
  /** Python's order of strings, character by character. */
  predicate Leq(a: string, b: string) {
    a == [] || (b != [] && (a[0] < b[0] || (a[0] == b[0] && Leq(a[1..], b[1..]))))
  }

  const TEXT_ORDER: (string, string) -> bool := (a, b) => Leq(a, b)

  ghost predicate TotalOrder<T(!new)>(leq: (T, T) -> bool) {
    && (forall x, y :: leq(x, y) || leq(y, x))
    && (forall x, y, z :: leq(x, y) && leq(y, z) ==> leq(x, z))
  }

  lemma {:induction false} LeqTotal(a: string, b: string)
    ensures Leq(a, b) || Leq(b, a)
    ensures Leq(a, b) && Leq(b, a) ==> a == b
  {
    if a != [] && b != [] && a[0] == b[0] {
      LeqTotal(a[1..], b[1..]);
      assert a == [a[0]] + a[1..] && b == [b[0]] + b[1..];
    }
  }

  lemma {:induction false} LeqTransitive(a: string, b: string, c: string)
    requires Leq(a, b) && Leq(b, c)
    ensures Leq(a, c)
  {
    if a != [] && a[0] == b[0] == c[0] {
      LeqTransitive(a[1..], b[1..], c[1..]);
    }
  }

  lemma SameStart(a: string, b: string, k: nat)
    requires 0 < k <= |a| && k <= |b| && a[..k] == b[..k]
    ensures a[0] == b[0]
  {
    assert a[..k][0] == b[..k][0];
  }

  /** One string is at most another when it begins it, or has the lesser character where they first differ. */
  lemma {:induction false} LeqIff(a: string, b: string)
    ensures Leq(a, b) <==>
            a <= b || exists k :: 0 <= k < |a| && k < |b| && a[..k] == b[..k] && a[k] < b[k]
  {
    if a != [] && b != [] {
      if a[0] == b[0] {
        LeqIff(a[1..], b[1..]);
        assert a == [a[0]] + a[1..] && b == [b[0]] + b[1..];
        if k :| 0 <= k < |a| && k < |b| && a[..k] == b[..k] && a[k] < b[k] {
          assert a[1..][..k - 1] == a[..k][1..] && b[1..][..k - 1] == b[..k][1..];
          assert a[1..][k - 1] < b[1..][k - 1];
        }
        if k :| 0 <= k < |a| - 1 && k < |b| - 1 && a[1..][..k] == b[1..][..k] && a[1..][k] < b[1..][k] {
          assert a[..k + 1] == [a[0]] + a[1..][..k] && b[..k + 1] == [b[0]] + b[1..][..k];
          assert a[k + 1] < b[k + 1];
        }
      } else {
        assert a[..0] == b[..0];
        if k :| 0 < k < |a| && k < |b| && a[..k] == b[..k] {
          SameStart(a, b, k);
        }
      }
    }
  }

  lemma TextOrderIsTotal()
    ensures TotalOrder(TEXT_ORDER)
  {
    forall a, b ensures TEXT_ORDER(a, b) || TEXT_ORDER(b, a) {
      LeqTotal(a, b);
    }
    forall a, b, c | TEXT_ORDER(a, b) && TEXT_ORDER(b, c) ensures TEXT_ORDER(a, c) {
      LeqTransitive(a, b, c);
    }
  }

  // ---------------------------------------------------------------- sorting

  function InsertBy<T>(xs: seq<T>, x: T, leq: (T, T) -> bool): seq<T> {
    if xs == [] || leq(xs[|xs| - 1], x) then xs + [x]
    else InsertBy(xs[..|xs| - 1], x, leq) + [xs[|xs| - 1]]
  }

  /** sorted() */
  function SortBy<T>(xs: seq<T>, leq: (T, T) -> bool): seq<T> {
    if xs == [] then [] else InsertBy(SortBy(xs[..|xs| - 1], leq), xs[|xs| - 1], leq)
  }

  ghost predicate Ordered<T>(xs: seq<T>, leq: (T, T) -> bool) {
    forall i, j :: 0 <= i < j < |xs| ==> leq(xs[i], xs[j])
  }

  lemma CountsFront<T>(xs: seq<T>)
    requires xs != []
    ensures multiset(xs) == multiset(xs[..|xs| - 1]) + multiset{xs[|xs| - 1]}
  {
    assert xs == xs[..|xs| - 1] + [xs[|xs| - 1]];
  }

  lemma {:induction false} InsertByPermutes<T>(xs: seq<T>, x: T, leq: (T, T) -> bool)
    ensures multiset(InsertBy(xs, x, leq)) == multiset(xs) + multiset{x}
  {
    if xs == [] || leq(xs[|xs| - 1], x) {
    } else {
      var front, last := xs[..|xs| - 1], xs[|xs| - 1];
      InsertByPermutes(front, x, leq);
      CountsFront(xs);
    }
  }

  lemma InsertByHas<T>(xs: seq<T>, x: T, leq: (T, T) -> bool, y: T)
    requires y in InsertBy(xs, x, leq)
    ensures y in xs || y == x
  {
    InsertByPermutes(xs, x, leq);
    assert y in multiset(InsertBy(xs, x, leq));
  }

  lemma {:induction false} InsertByOrders<T(!new)>(xs: seq<T>, x: T, leq: (T, T) -> bool)
    requires TotalOrder(leq) && Ordered(xs, leq)
    ensures Ordered(InsertBy(xs, x, leq), leq)
  {
    if xs == [] || leq(xs[|xs| - 1], x) {
      forall y <- xs ensures leq(y, x) {
        var i :| 0 <= i < |xs| && xs[i] == y;
        assert y == xs[|xs| - 1] || leq(y, xs[|xs| - 1]);
      }
    } else {
      var front, last := xs[..|xs| - 1], xs[|xs| - 1];
      InsertByOrders(front, x, leq);
      forall y | y in InsertBy(front, x, leq) ensures leq(y, last) {
        InsertByHas(front, x, leq, y);
        if y in front {
          var i :| 0 <= i < |front| && front[i] == y;
          assert leq(xs[i], xs[|front|]);
        }
      }
    }
  }

  /** The result is in order and a permutation. */
  lemma {:induction false} SortByOrders<T(!new)>(xs: seq<T>, leq: (T, T) -> bool)
    requires TotalOrder(leq)
    ensures Ordered(SortBy(xs, leq), leq) && multiset(SortBy(xs, leq)) == multiset(xs)
  {
    if xs != [] {
      var front, last := xs[..|xs| - 1], xs[|xs| - 1];
      SortByOrders(front, leq);
      InsertByOrders(SortBy(front, leq), last, leq);
      InsertByPermutes(SortBy(front, leq), last, leq);
      CountsFront(xs);
      hide TotalOrder;
      hide Ordered;
      hide InsertBy;
    }
  }

  // ---------------------------------------------------------------- where the elements end up

  /** `p` gives each element of `a` a place of its own in `b`. */
  ghost predicate Places<T>(a: seq<T>, b: seq<T>, p: seq<nat>) {
    && |p| == |a| && (forall i :: 0 <= i < |a| ==> p[i] < |b| && b[p[i]] == a[i])
    && forall i, j :: 0 <= i < j < |a| ==> p[i] != p[j]
  }

  /** The place `k` once an element is put back at `at`. */
  function Shifted(k: nat, at: nat): nat { if k >= at then k + 1 else k }

  lemma WithoutOne<T>(b: seq<T>, at: nat)
    requires at < |b|
    ensures multiset(b) == multiset(b[..at] + b[at + 1..]) + multiset{b[at]}
  {
    assert b == b[..at] + [b[at]] + b[at + 1..];
  }

  lemma LastIsIn<T>(a: seq<T>, b: seq<T>) returns (at: nat)
    requires a != [] && multiset(a) == multiset(b)
    ensures at < |b| && b[at] == a[|a| - 1]
    ensures multiset(a[..|a| - 1]) == multiset(b[..at] + b[at + 1..])
  {
    CountsFront(a);
    assert a[|a| - 1] in multiset(b);
    at :| at < |b| && b[at] == a[|a| - 1];
    WithoutOne(b, at);
    var x, front, fewer := multiset{b[at]}, multiset(a[..|a| - 1]), multiset(b[..at] + b[at + 1..]);
    assert front + x == fewer + x;
    assert front == (front + x) - x == (fewer + x) - x == fewer;
  }

  /** Permutations have such places. */
  lemma {:induction false} PermutationPlaces<T>(a: seq<T>, b: seq<T>) returns (p: seq<nat>)
    requires multiset(a) == multiset(b)
    ensures Places(a, b, p)
  {
    if a == [] {
      p := [];
    } else {
      var at := LastIsIn(a, b);
      var q := PermutationPlaces(a[..|a| - 1], b[..at] + b[at + 1..]);
      p := seq(|q|, i requires 0 <= i < |q| => Shifted(q[i], at)) + [at];
    }
  }
}
