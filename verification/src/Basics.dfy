/** Arithmetic and sequence notions shared by several models. */
module Basics {

  // ---- Numbers ----

  function Pow2(n: nat): (r: nat)
    ensures r >= 1
  {
    if n == 0 then 1 else 2 * Pow2(n - 1)
  }

  /** The product a * b, by repeated addition. */
  function Times(a: nat, b: nat): nat {
    if a == 0 then 0 else Times(a - 1, b) + b
  }

  lemma {:induction false} TimesIsProduct(a: nat, b: nat)
    ensures Times(a, b) == a * b
  {
    if a > 0 {
      TimesIsProduct(a - 1, b);
      assert a * b == (a - 1) * b + b;
    }
  }

  // ---- Sequences without repetition ----

  predicate Distinct<T(==)>(xs: seq<T>) {
    forall i, j :: 0 <= i < j < |xs| ==> xs[i] != xs[j]
  }

  function SetOf<T>(xs: seq<T>): set<T> {
    set x | x in xs
  }

  lemma {:induction false} OnceOnly<T>(xs: seq<T>, x: T)
    requires Distinct(xs)
    ensures multiset(xs)[x] <= 1
    decreases |xs|
  {
    if xs != [] {
      var front, last := xs[..|xs| - 1], xs[|xs| - 1];
      OnceOnly(front, x);
      assert xs == front + [last];
      assert last !in front;
    }
  }

  lemma {:induction false} DistinctSize<T>(xs: seq<T>)
    requires Distinct(xs)
    ensures |SetOf(xs)| == |xs|
    decreases |xs|
  {
    if xs == [] {
      assert SetOf(xs) == {};
    } else {
      var front, last := xs[..|xs| - 1], xs[|xs| - 1];
      DistinctSize(front);
      assert xs == front + [last];
      assert SetOf(xs) == SetOf(front) + {last};
    }
  }

  // ---- Sequences in strict order ----

  predicate Ascends<T(!new)>(xs: seq<T>, less: (T, T) -> bool) {
    forall i, j :: 0 <= i < j < |xs| ==> less(xs[i], xs[j])
  }

  lemma SomeMember<T(!new)>(xs: seq<T>)
    ensures xs != [] ==> exists x :: x in xs
  {
    if xs != [] {
      assert xs[0] in xs;
    }
  }

  lemma NoMembers<T(!new)>(xs: seq<T>)
    requires forall x :: x !in xs
    ensures xs == []
  {
    SomeMember(xs);
  }

  lemma FirstIsLeast<T(!new)>(xs: seq<T>, x: T, less: (T, T) -> bool)
    requires Ascends(xs, less) && x in xs
    ensures xs[0] == x || less(xs[0], x)
  {
  }

  lemma TailMembers<T(!new)>(xs: seq<T>, x: T, less: (T, T) -> bool)
    requires Ascends(xs, less) && xs != [] && forall y :: !less(y, y)
    ensures x in xs[1..] <==> x in xs && x != xs[0]
  {
    assert xs == [xs[0]] + xs[1..];
  }

  /** A sequence in strict order is settled by its members. */
  lemma {:induction false} AscendsUnique<T(!new)>(xs: seq<T>, ys: seq<T>, less: (T, T) -> bool)
    requires Ascends(xs, less) && Ascends(ys, less) && forall x :: x in xs <==> x in ys
    requires forall x, y :: less(x, y) ==> !less(y, x)
    ensures xs == ys
    decreases |xs|
  {
    if xs == [] {
      NoMembers(ys);
    } else {
      assert xs[0] in ys && |ys| > 0 && ys[0] in xs;
      FirstIsLeast(xs, ys[0], less);
      FirstIsLeast(ys, xs[0], less);
      forall y ensures y in xs[1..] <==> y in ys[1..] {
        TailMembers(xs, y, less);
        TailMembers(ys, y, less);
      }
      AscendsUnique(xs[1..], ys[1..], less);
      assert xs == [xs[0]] + xs[1..] && ys == [ys[0]] + ys[1..];
    }
  }
}
