/** Stable sorting by a strict weak order, as NumPy's `argsort(kind="stable")` and Python's
    `sorted` provide it. `Argsort` returns positions, so that a caller can move several arrays. */
module Sorting {

  /** `less` is a strict weak order: what a sort by keys, where keys may tie, relies on. */
  ghost predicate WeakOrder<T(!new)>(less: (T, T) -> bool) {
    && (forall a :: !less(a, a))
    && (forall a, b, c {:trigger less(a, b), less(b, c)} :: less(a, b) && less(b, c) ==> less(a, c))
    && (forall a, b, c {:trigger less(a, b), less(b, c)} :: !less(a, b) && !less(b, c) ==> !less(a, c))
  }

  /** Every index in `order` is below `n`. */
  predicate Below(order: seq<nat>, n: nat) {
    forall i :: 0 <= i < |order| ==> order[i] < n
  }

  /** Index `i` comes out before index `j`: a smaller key, or a tie settled by input order. */
  predicate Earlier<T>(keys: seq<T>, less: (T, T) -> bool, i: nat, j: nat)
    requires i < |keys| && j < |keys|
  {
    less(keys[i], keys[j]) || (!less(keys[j], keys[i]) && i < j)
  }

  predicate Ordered<T>(keys: seq<T>, less: (T, T) -> bool, order: seq<nat>)
    requires Below(order, |keys|)
  {
    forall i, j :: 0 <= i < j < |order| ==> Earlier(keys, less, order[i], order[j])
  }

  /** `order` is the stable sorting permutation of `keys`. */
  ghost predicate IsArgsort<T>(keys: seq<T>, less: (T, T) -> bool, order: seq<nat>) {
    && |order| == |keys|
    && Below(order, |keys|)
    && (forall x: nat :: x < |keys| ==> x in order)
    && Ordered(keys, less, order)
  }

  function Insert<T>(keys: seq<T>, less: (T, T) -> bool, order: seq<nat>, x: nat): (r: seq<nat>)
    requires x < |keys| && Below(order, |keys|)
    ensures Below(r, |keys|)
    ensures |r| == |order| + 1
    ensures forall y: nat :: y in r <==> y == x || y in order
  {
    if order == [] then [x]
    else if less(keys[x], keys[order[0]]) then [x] + order
    else
      assert order == [order[0]] + order[1..];
      [order[0]] + Insert(keys, less, order[1..], x)
  }

  function ArgsortPrefix<T>(keys: seq<T>, less: (T, T) -> bool, n: nat): (r: seq<nat>)
    requires n <= |keys|
    ensures |r| == n && Below(r, n) && forall x: nat :: x < n ==> x in r
  {
    if n == 0 then []
    else
      var r := Insert(keys, less, ArgsortPrefix(keys, less, n - 1), n - 1);
      assert forall i :: 0 <= i < |r| ==> r[i] in r;
      r
  }

  function Argsort<T>(keys: seq<T>, less: (T, T) -> bool): seq<nat> {
    ArgsortPrefix(keys, less, |keys|)
  }

  lemma {:induction false} InsertOrdered<T(!new)>(keys: seq<T>, less: (T, T) -> bool, order: seq<nat>, x: nat)
    requires WeakOrder(less)
    requires x < |keys| && Below(order, x) && Ordered(keys, less, order)
    ensures Ordered(keys, less, Insert(keys, less, order, x))
  {
    if order != [] {
      var r := Insert(keys, less, order, x);
      if less(keys[x], keys[order[0]]) {
        forall j | 0 <= j < |order| ensures Earlier(keys, less, x, order[j]) {
          assert j == 0 || Earlier(keys, less, order[0], order[j]);
        }
      } else {
        var rest := order[1..];
        InsertOrdered(keys, less, rest, x);
        var tail := Insert(keys, less, rest, x);
        assert r == [order[0]] + tail;
        forall j | 0 <= j < |tail| ensures Earlier(keys, less, order[0], tail[j]) {
          assert tail[j] in tail;
          if tail[j] != x {
            assert tail[j] in rest;
            var m :| 0 <= m < |rest| && rest[m] == tail[j];
            assert Earlier(keys, less, order[0], order[m + 1]);
          }
        }
      }
    }
  }

  lemma {:induction false} ArgsortPrefixOrdered<T(!new)>(keys: seq<T>, less: (T, T) -> bool, n: nat)
    requires WeakOrder(less) && n <= |keys|
    ensures Ordered(keys, less, ArgsortPrefix(keys, less, n))
  {
    if n > 0 {
      ArgsortPrefixOrdered(keys, less, n - 1);
      InsertOrdered(keys, less, ArgsortPrefix(keys, less, n - 1), n - 1);
    }
  }

  lemma ArgsortSorts<T(!new)>(keys: seq<T>, less: (T, T) -> bool)
    requires WeakOrder(less)
    ensures IsArgsort(keys, less, Argsort(keys, less))
  {
    ArgsortPrefixOrdered(keys, less, |keys|);
  }

  /** The values taken in an order, as `np.take_along_axis` does. */
  function Take<T>(xs: seq<T>, order: seq<nat>): seq<T>
    requires Below(order, |xs|)
  {
    seq(|order|, i requires 0 <= i < |order| => xs[order[i]])
  }

  lemma TakeCons<T>(xs: seq<T>, x: nat, order: seq<nat>)
    requires x < |xs| && Below(order, |xs|)
    ensures Below([x] + order, |xs|)
    ensures Take(xs, [x] + order) == [xs[x]] + Take(xs, order)
    ensures multiset(Take(xs, [x] + order)) == multiset{xs[x]} + multiset(Take(xs, order))
  {
    var whole := Take(xs, [x] + order);
    assert |whole| == |order| + 1 && whole[0] == xs[x];
    forall i | 0 <= i < |order| ensures whole[i + 1] == Take(xs, order)[i] {
      assert ([x] + order)[i + 1] == order[i];
    }
  }

  lemma {:induction false} TakeInsert<T>(xs: seq<T>, less: (T, T) -> bool, order: seq<nat>, x: nat)
    requires x < |xs| && Below(order, |xs|)
    ensures multiset(Take(xs, Insert(xs, less, order, x))) == multiset{xs[x]} + multiset(Take(xs, order))
  {
    if order == [] || less(xs[x], xs[order[0]]) {
      TakeCons(xs, x, order);
      assert [x] + order == Insert(xs, less, order, x);
    } else {
      var head, rest := order[0], order[1..];
      assert order == [head] + rest;
      TakeInsert(xs, less, rest, x);
      TakeCons(xs, head, rest);
      TakeCons(xs, head, Insert(xs, less, rest, x));
    }
  }

  lemma {:induction false} TakePrefixMultiset<T>(xs: seq<T>, less: (T, T) -> bool, n: nat)
    requires n <= |xs|
    ensures multiset(Take(xs, ArgsortPrefix(xs, less, n))) == multiset(xs[..n])
  {
    if n == 0 {
      assert Take(xs, ArgsortPrefix(xs, less, 0)) == [];
    } else {
      var order := ArgsortPrefix(xs, less, n - 1);
      TakePrefixMultiset(xs, less, n - 1);
      TakeInsert(xs, less, order, n - 1);
      assert xs[..n] == xs[..n - 1] + [xs[n - 1]];
    }
  }

  /** `xs` sorted by `less`. */
  function Sorted<T>(xs: seq<T>, less: (T, T) -> bool): (r: seq<T>)
    ensures |r| == |xs|
  {
    Take(xs, Argsort(xs, less))
  }

  /** Sorting permutes, and leaves nothing out of order. */
  lemma SortedSorts<T(!new)>(xs: seq<T>, less: (T, T) -> bool)
    requires WeakOrder(less)
    ensures |Sorted(xs, less)| == |xs| && multiset(Sorted(xs, less)) == multiset(xs)
    ensures forall i, j :: 0 <= i < j < |xs| ==> !less(Sorted(xs, less)[j], Sorted(xs, less)[i])
  {
    TakePrefixMultiset(xs, less, |xs|);
    assert xs[..|xs|] == xs;
    ArgsortSorts(xs, less);
    var order := Argsort(xs, less);
    forall i, j | 0 <= i < j < |xs| ensures !less(Sorted(xs, less)[j], Sorted(xs, less)[i]) {
      assert Earlier(xs, less, order[i], order[j]);
    }
  }

  lemma {:induction false} InsertLast<T(!new)>(xs: seq<T>, less: (T, T) -> bool, order: seq<nat>, x: nat)
    requires x < |xs| && Below(order, |xs|) && forall i :: 0 <= i < |order| ==> !less(xs[x], xs[order[i]])
    ensures Insert(xs, less, order, x) == order + [x]
  {
    if order != [] {
      InsertLast(xs, less, order[1..], x);
    }
  }

  lemma {:induction false} InOrderPrefix<T(!new)>(xs: seq<T>, less: (T, T) -> bool, n: nat)
    requires WeakOrder(less) && n <= |xs|
    requires forall i, j :: 0 <= i < j < |xs| ==> less(xs[i], xs[j])
    ensures forall i :: 0 <= i < n ==> ArgsortPrefix(xs, less, n)[i] == i
  {
    if n > 0 {
      InOrderPrefix(xs, less, n - 1);
      InsertLast(xs, less, ArgsortPrefix(xs, less, n - 1), n - 1);
    }
  }

  /** A sequence already in strict order sorts to itself. */
  lemma SortedUnchanged<T(!new)>(xs: seq<T>, less: (T, T) -> bool)
    requires WeakOrder(less)
    requires forall i, j :: 0 <= i < j < |xs| ==> less(xs[i], xs[j])
    ensures Sorted(xs, less) == xs
  {
    InOrderPrefix(xs, less, |xs|);
  }

  function Prefix(order: seq<nat>, r: nat): set<nat>
    requires r <= |order|
  {
    set q | 0 <= q < r :: order[q]
  }

  lemma PrefixNext(order: seq<nat>, r: nat)
    requires r < |order| && forall i, j :: 0 <= i < j < |order| ==> order[i] != order[j]
    ensures Prefix(order, r + 1) == Prefix(order, r) + {order[r]} && order[r] !in Prefix(order, r)
  {
  }

  lemma {:induction false} PrefixSize(order: seq<nat>, r: nat)
    requires r <= |order| && forall i, j :: 0 <= i < j < |order| ==> order[i] != order[j]
    ensures |Prefix(order, r)| == r
  {
    if r == 0 {
      assert Prefix(order, 0) == {};
    } else {
      PrefixSize(order, r - 1);
      PrefixNext(order, r - 1);
    }
  }

  /** Where an index comes out of a stable sort: after exactly the indices that come before it. */
  lemma RankInOrder<T(!new)>(keys: seq<T>, less: (T, T) -> bool, order: seq<nat>, r: nat)
    requires WeakOrder(less) && IsArgsort(keys, less, order) && r < |order|
    ensures |set j: nat | j < |keys| && Earlier(keys, less, j, order[r])| == r
  {
    var before := set j: nat | j < |keys| && Earlier(keys, less, j, order[r]);
    var prefix := Prefix(order, r);
    forall j: nat | j < |keys| ensures j in before <==> j in prefix {
      assert j in order;
      var q :| 0 <= q < |order| && order[q] == j;
      if q < r {
        assert Earlier(keys, less, order[q], order[r]);
      } else if r < q {
        assert Earlier(keys, less, order[r], order[q]);
      }
    }
    forall i, j | 0 <= i < j < |order| ensures order[i] != order[j] {
      assert Earlier(keys, less, order[i], order[j]);
    }
    assert before == prefix;
    PrefixSize(order, r);
  }

  /** There is one stable sorting permutation. */
  lemma ArgsortUnique<T(!new)>(keys: seq<T>, less: (T, T) -> bool, order: seq<nat>)
    requires WeakOrder(less) && IsArgsort(keys, less, order)
    ensures order == Argsort(keys, less)
  {
    ArgsortSorts(keys, less);
    var other := Argsort(keys, less);
    forall r | 0 <= r < |order| ensures order[r] == other[r] {
      assert order[r] in other;
      var q :| 0 <= q < |other| && other[q] == order[r];
      RankInOrder(keys, less, order, r);
      RankInOrder(keys, less, other, q);
    }
  }
}
