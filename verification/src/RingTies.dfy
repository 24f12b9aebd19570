/** Which of several heaviest rings `ring_order` returns: ties go to the smallest predecessor at each step. */
module RingTies {
  import opened Basics
  import opened RingOrder
  import opened Rings

  ghost predicate Inside(s: set<nat>, n: nat) {
    forall x :: x in s ==> x < n
  }

  /** Of all paths as heavy the recorded predecessor is the smallest. */
  lemma PredecessorTies(w: Weight, n: nat, s: set<nat>, last: nat, q: seq<nat>)
    requires Best(w, n, s, last).Fin? && s != {0} && Inside(s, n) && IsPath(q, s, last) && |q| >= 2
    requires PathWeight(w, q) == Best(w, n, s, last).value
    ensures Previous(w, n, s, last) <= q[|q| - 2]
  {
    var front, p := q[..|q| - 1], q[|q| - 2];
    FrontPath(q, s, last);
    BestBounds(w, n, front, s - {last}, p);
    var c := Candidates(w, n, s, last);
    assert c[p] == Plus(Best(w, n, s - {last}, p), w(p, last));
    assert !Below(c[ArgMax(c)], c[p]);
  }

  lemma TraceEnds(w: Weight, n: nat, s: set<nat>, last: nat) returns (front: seq<nat>)
    requires Best(w, n, s, last).Fin? && s != {0}
    ensures 0 <= Previous(w, n, s, last) < n && Best(w, n, s - {last}, Previous(w, n, s, last)).Fin?
    ensures front == Trace(w, n, s - {last}, Previous(w, n, s, last)) && front != []
    ensures Trace(w, n, s, last) == front + [last] && front[|front| - 1] == Previous(w, n, s, last)
  {
    FiniteBefore(w, n, s, last);
    front := Trace(w, n, s - {last}, Previous(w, n, s, last));
    TraceAchieves(w, n, s - {last}, Previous(w, n, s, last));
  }

  lemma SameLength(q: seq<nat>, path: seq<nat>, last: nat)
    requires Distinct(path) && IsPath(q, Members(path), last)
    ensures |q| == |path|
  {
    MembersSize(q);
    MembersSize(path);
  }

  /** A path as heavy as the first i steps of the trace, to the same end through the same genres. */
  ghost predicate Rivals(w: Weight, path: seq<nat>, i: nat, q: seq<nat>) {
    i < |path| && IsPath(q, Members(path[..i + 1]), path[i]) && PathWeight(w, q) == PathWeight(w, path[..i + 1])
  }

  lemma {:induction false} StepsTie(w: Weight, n: nat, s: set<nat>, last: nat, i: nat, q: seq<nat>)
    requires Best(w, n, s, last).Fin? && Inside(s, n) && i >= 1 && Rivals(w, Trace(w, n, s, last), i, q)
    ensures |q| == i + 1 && q[i - 1] >= Trace(w, n, s, last)[i - 1]
    decreases |s|
  {
    var path := Trace(w, n, s, last);
    TraceAchieves(w, n, s, last);
    assert s == {0} ==> path == [0];
    if s != {0} {
      var front := TraceEnds(w, n, s, last);
      if i == |path| - 1 {
        assert path[..i + 1] == path;
        SameLength(q, path, last);
        PredecessorTies(w, n, s, last, q);
      } else {
        assert path[..i + 1] == front[..i + 1];
        StepsTie(w, n, s - {last}, Previous(w, n, s, last), i, q);
      }
    }
  }

  /** Of all rings as heavy, read from genre 0, the trace's last genre is the smallest. */
  lemma EndTies(w: Weight, n: nat, q: seq<nat>, last: nat)
    requires IsBestEnd(w, n, last) && IsRing(q, n) && q[0] == 0
    requires RingWeight(w, q) == Best(w, n, All(n), last).value + w(last, 0)
    ensures last <= q[n - 1]
  {
    var end := q[n - 1];
    assert end != q[0] && end in q;
    AllMembers(n);
    assert Members(q) == All(n);
    BestBounds(w, n, q, All(n), end);
    var c := Closing(w, n);
    assert c[end] == Plus(Best(w, n, All(n), end), w(end, 0));
    assert !Below(c[last], c[end]);
  }

  lemma TurnedAt(path: seq<nat>, n: nat, i: nat)
    requires |path| == n >= 2 && 1 <= i < n
    ensures ([path[0]] + Reversed(path[1..]))[i] == path[n - i]
  {
    ReverseAt(path[1..], i - 1);
  }

  /** The path read from genre 0, forward or backward. */
  ghost predicate ReadsEitherWay(ring: seq<nat>, path: seq<nat>, n: nat) {
    && |ring| == |path| == n >= 2 && ring[0] == path[0]
    && forall i :: 1 <= i < n ==> ring[i] == if path[1] > path[n - 1] then path[n - i] else path[i]
  }

  /** No ring as heavy, read from genre 0, ends at a smaller genre. */
  ghost predicate SmallestEnd(w: Weight, path: seq<nat>, n: nat) {
    |path| == n >= 1 && forall q :: IsRing(q, n) && q[0] == 0 && RingWeight(w, q) == RingWeight(w, path) ==> path[n - 1] <= q[n - 1]
  }

  /** No path as heavy has a smaller genre before its end. */
  ghost predicate SmallestSteps(w: Weight, path: seq<nat>) {
    forall i: nat, q :: 1 <= i && Rivals(w, path, i, q) ==> |q| == i + 1 && path[i - 1] <= q[i - 1]
  }

  lemma CanonicalAt(path: seq<nat>, n: nat, i: nat)
    requires |path| == n >= 2 && 1 <= i < n
    ensures |Canonical(path)| == n && Canonical(path)[i] == if path[1] > path[n - 1] then path[n - i] else path[i]
  {
    if path[1] > path[n - 1] {
      TurnedAt(path, n, i);
    }
  }

  lemma CanonicalReads(path: seq<nat>, n: nat)
    requires |path| == n >= 2
    ensures ReadsEitherWay(Canonical(path), path, n)
  {
    var ring := Canonical(path);
    CanonicalAt(path, n, 1);
    forall i | 1 <= i < n ensures ring[i] == if path[1] > path[n - 1] then path[n - i] else path[i] {
      CanonicalAt(path, n, i);
    }
  }

  lemma TraceSmallestEnd(w: Weight, n: nat, last: nat)
    requires IsBestEnd(w, n, last)
    ensures SmallestEnd(w, Trace(w, n, All(n), last), n)
  {
    var path := Trace(w, n, All(n), last);
    TraceIsOptimal(w, n, last);
    TraceAchieves(w, n, All(n), last);
    forall q | IsRing(q, n) && q[0] == 0 && RingWeight(w, q) == RingWeight(w, path) ensures path[n - 1] <= q[n - 1] {
      EndTies(w, n, q, last);
    }
  }

  lemma TraceSmallestSteps(w: Weight, n: nat, last: nat)
    requires Best(w, n, All(n), last).Fin?
    ensures SmallestSteps(w, Trace(w, n, All(n), last))
  {
    AllMembers(n);
    forall i: nat, q | 1 <= i && Rivals(w, Trace(w, n, All(n), last), i, q)
      ensures |q| == i + 1 && Trace(w, n, All(n), last)[i - 1] <= q[i - 1] {
      StepsTie(w, n, All(n), last, i, q);
    }
  }

  /** The ring returned is a path around from genre 0, read forward or backward, that at each step from its end has the
      smallest predecessor of all paths as heavy, and the smallest end of all rings as heavy. */
  lemma TheRingTies(w: Weight, n: nat) returns (path: seq<nat>)
    requires Symmetric(w) && n > 3
    ensures IsRing(path, n) && path[0] == 0 && ReadsEitherWay(TheRing(w, n), path, n)
    ensures SmallestEnd(w, path, n) && SmallestSteps(w, path)
  {
    BestEndExists(w, n);
    var last := ArgMax(Closing(w, n));
    TraceIsOptimal(w, n, last);
    path := Trace(w, n, All(n), last);
    CanonicalReads(path, n);
    TraceSmallestEnd(w, n, last);
    TraceSmallestSteps(w, n, last);
  }
}
