/** Sets of numbers held as strictly ascending sequences, as `sorted({...})` and NumPy's `unique` give them. */
module SortedSets {
  import opened Basics

  predicate Ascending(xs: seq<nat>) {
    forall i, j :: 0 <= i < j < |xs| ==> xs[i] < xs[j]
  }

  function InsertUnique(xs: seq<nat>, x: nat): seq<nat> {
    if xs == [] then [x]
    else if x < xs[0] then [x] + xs
    else if x == xs[0] then xs
    else [xs[0]] + InsertUnique(xs[1..], x)
  }

  /** `xs` sorted, each value once. */
  function SortedSet(xs: seq<nat>): seq<nat> {
    if xs == [] then [] else InsertUnique(SortedSet(xs[..|xs| - 1]), xs[|xs| - 1])
  }

  lemma {:induction false} InsertUniqueKeeps(xs: seq<nat>, x: nat)
    requires Ascending(xs)
    ensures Ascending(InsertUnique(xs, x))
    ensures forall y :: y in InsertUnique(xs, x) <==> y == x || y in xs
  {
    if xs != [] {
      var rest := xs[1..];
      InsertUniqueKeeps(rest, x);
      assert xs == [xs[0]] + rest;
      assert forall y :: y in rest ==> xs[0] < y;
      var r := InsertUnique(rest, x);
      assert forall i :: 0 <= i < |r| ==> r[i] in r;
    }
  }

  lemma {:induction false} SortedSetIs(xs: seq<nat>)
    ensures Ascending(SortedSet(xs)) && forall y :: y in SortedSet(xs) <==> y in xs
    decreases |xs|
  {
    if xs != [] {
      var front := xs[..|xs| - 1];
      SortedSetIs(front);
      InsertUniqueKeeps(SortedSet(front), xs[|xs| - 1]);
      assert xs == front + [xs[|xs| - 1]];
    }
  }

  /** An ascending sequence is settled by its members. */
  lemma AscendingUnique(a: seq<nat>, b: seq<nat>)
    requires Ascending(a) && Ascending(b) && forall y :: y in a <==> y in b
    ensures a == b
  {
    AscendsUnique(a, b, (x: nat, y: nat) => x < y);
  }
}
