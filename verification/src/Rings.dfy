/** Weights of paths and of closed rings of genres. A weight matrix is a function of two indices. */
module Rings {
  import opened Basics

  type Weight = (nat, nat) -> real

  /** The weight of the steps of a path. */
  function PathWeight(w: Weight, path: seq<nat>): real {
    if |path| < 2 then 0.0
    else PathWeight(w, path[..|path| - 1]) + w(path[|path| - 2], path[|path| - 1])
  }

  /** The weight of a path closed into a ring. */
  function RingWeight(w: Weight, ring: seq<nat>): real {
    if ring == [] then 0.0 else PathWeight(w, ring) + w(ring[|ring| - 1], ring[0])
  }

  /** `ring` visits each of 0 .. n - 1 once. */
  ghost predicate IsRing(ring: seq<nat>, n: nat) {
    |ring| == n && Distinct(ring) && (forall x: nat :: x in ring <==> x < n)
  }

  ghost predicate Symmetric(w: Weight) {
    forall a, b :: w(a, b) == w(b, a)
  }

  function Reversed<T>(xs: seq<T>): (r: seq<T>)
    ensures |r| == |xs|
  {
    if xs == [] then [] else [xs[|xs| - 1]] + Reversed(xs[..|xs| - 1])
  }

  lemma {:induction false} PathJoin(w: Weight, a: seq<nat>, b: seq<nat>)
    requires a != [] && b != []
    ensures PathWeight(w, a + b) == PathWeight(w, a) + w(a[|a| - 1], b[0]) + PathWeight(w, b)
    decreases |b|
  {
    var last := |b| - 1;
    assert (a + b)[..|a + b| - 1] == a + b[..last];
    if last == 0 {
      assert a + b[..last] == a;
    } else {
      PathJoin(w, a, b[..last]);
    }
  }

  /** A ring read from another start weighs the same. */
  lemma RotateWeight(w: Weight, a: seq<nat>, b: seq<nat>)
    ensures RingWeight(w, a + b) == RingWeight(w, b + a)
  {
    if a == [] || b == [] {
      assert a + b == b + a;
    } else {
      PathJoin(w, a, b);
      PathJoin(w, b, a);
    }
  }

  lemma {:induction false} ReverseAt<T>(xs: seq<T>, i: nat)
    requires i < |xs|
    ensures Reversed(xs)[i] == xs[|xs| - 1 - i]
    decreases |xs|
  {
    if i > 0 {
      ReverseAt(xs[..|xs| - 1], i - 1);
    }
  }

  lemma {:induction false} ReversePathWeight(w: Weight, path: seq<nat>)
    requires Symmetric(w)
    ensures PathWeight(w, Reversed(path)) == PathWeight(w, path)
    decreases |path|
  {
    if |path| >= 2 {
      var front, last := path[..|path| - 1], path[|path| - 1];
      ReversePathWeight(w, front);
      ReverseAt(front, 0);
      PathJoin(w, [last], Reversed(front));
    }
  }

  /** A ring read backwards weighs the same. */
  lemma ReverseRingWeight(w: Weight, ring: seq<nat>)
    requires Symmetric(w)
    ensures RingWeight(w, Reversed(ring)) == RingWeight(w, ring)
  {
    if ring != [] {
      ReversePathWeight(w, ring);
      ReverseAt(ring, 0);
      ReverseAt(ring, |ring| - 1);
    }
  }

  lemma ReversedMembers<T>(xs: seq<T>)
    ensures forall x :: x in Reversed(xs) <==> x in xs
    ensures Distinct(xs) ==> Distinct(Reversed(xs))
  {
    var r := Reversed(xs);
    forall i | 0 <= i < |xs| ensures r[i] == xs[|xs| - 1 - i] {
      ReverseAt(xs, i);
    }
    forall x | x in xs ensures x in r {
      var i :| 0 <= i < |xs| && xs[i] == x;
      assert r[|xs| - 1 - i] == x;
    }
  }

  lemma {:induction false} ReverseJoin<T>(a: seq<T>, b: seq<T>)
    ensures Reversed(a + b) == Reversed(b) + Reversed(a)
    decreases |b|
  {
    if b == [] {
      assert a + b == a;
    } else {
      var last := |b| - 1;
      assert (a + b)[..|a + b| - 1] == a + b[..last];
      ReverseJoin(a, b[..last]);
    }
  }

  /** Keeping the start and reading the rest backwards turns the ring round: same members, same weight. */
  lemma TurnRing(w: Weight, ring: seq<nat>, n: nat)
    requires Symmetric(w) && ring != [] && IsRing(ring, n)
    ensures IsRing([ring[0]] + Reversed(ring[1..]), n)
    ensures RingWeight(w, [ring[0]] + Reversed(ring[1..])) == RingWeight(w, ring)
  {
    var head, rest := [ring[0]], ring[1..];
    assert ring == head + rest;
    ReversedMembers(rest);
    RotateWeight(w, head, Reversed(rest));
    ReverseJoin(head, rest);
    ReverseRingWeight(w, ring);
    var turned := head + Reversed(rest);
    forall i, j | 0 <= i < j < |turned| ensures turned[i] != turned[j] {
      if i == 0 {
        assert turned[j] in Reversed(rest) && turned[j] in rest;
        assert ring[0] !in rest;
      }
    }
    forall x: nat ensures x in turned <==> x < n {
      assert x in ring <==> x == ring[0] || x in rest;
    }
  }
}
