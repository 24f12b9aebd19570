/** `ring_order`: the Held-Karp search for a maximum-weight ring of genres, filled layer by layer over the
    subsets that hold genre 0, then read back and put in canonical direction. */
module RingOrder {
  import opened Basics
  import opened Rings

  const RING_EXACT_MAX_GENRES := 20

  /** A path weight, or -inf when there is no such path. */
  datatype Ext = NegInf | Fin(value: real)

  function Plus(a: Ext, b: real): Ext {
    match a
    case NegInf => NegInf
    case Fin(v) => Fin(v + b)
  }

  predicate Below(a: Ext, b: Ext) {
    match (a, b)
    case (NegInf, NegInf) => false
    case (NegInf, Fin(_)) => true
    case (Fin(_), NegInf) => false
    case (Fin(x), Fin(y)) => x < y
  }

  /** `np.argmax`: the first place of the maximum. */
  function ArgMax(xs: seq<Ext>): (m: nat)
    requires xs != []
    ensures m < |xs|
    ensures forall i :: 0 <= i < |xs| ==> !Below(xs[m], xs[i])
    ensures forall i :: 0 <= i < m ==> Below(xs[i], xs[m])
  {
    if |xs| == 1 then 0
    else
      var m := ArgMax(xs[..|xs| - 1]);
      if Below(xs[m], xs[|xs| - 1]) then |xs| - 1 else m
  }

  // ---- The recurrence ----

  /** A subset and end that some path from 0 could have. */
  predicate Open(s: set<nat>, last: nat) {
    0 in s && last in s && last != 0
  }

  /** The maximum weight of a path from 0 through all of `s` ending at `last`. */
  ghost function Best(w: Weight, n: nat, s: set<nat>, last: nat): Ext
    decreases |s|, 1
  {
    if s == {0} then (if last == 0 then Fin(0.0) else NegInf)
    else if !Open(s, last) || n == 0 then NegInf
    else
      var c := Candidates(w, n, s, last);
      c[ArgMax(c)]
  }

  /** The weights of reaching `last` over `s` from each genre before it. */
  ghost function Candidates(w: Weight, n: nat, s: set<nat>, last: nat): (c: seq<Ext>)
    requires last in s
    ensures |c| == n
    decreases |s|, 0
  {
    seq(n, p requires 0 <= p < n => Plus(Best(w, n, s - {last}, p), w(p, last)))
  }

  /** The genre before `last` on that path, the smallest of several; -1 where there is none. */
  ghost function Previous(w: Weight, n: nat, s: set<nat>, last: nat): int {
    if s == {0} || !Open(s, last) || n == 0 then -1 else ArgMax(Candidates(w, n, s, last))
  }

  // ---- What the recurrence computes ----

  function Members(path: seq<nat>): set<nat> { set x | x in path }

  /** A path from 0 to `last` through each of `s` once. */
  ghost predicate IsPath(path: seq<nat>, s: set<nat>, last: nat) {
    path != [] && Distinct(path) && path[0] == 0 && path[|path| - 1] == last && Members(path) == s
  }

  lemma FrontPath(path: seq<nat>, s: set<nat>, last: nat)
    requires IsPath(path, s, last) && |path| >= 2
    ensures IsPath(path[..|path| - 1], s - {last}, path[|path| - 2])
    ensures Open(s, last) && s != {0} && path[|path| - 2] in s
  {
    var front := path[..|path| - 1];
    assert path == front + [last];
    assert last !in front;
    assert path[0] in path && path[|path| - 1] in path && path[|path| - 2] in path;
    assert Members(path) == Members(front) + {last};
  }

  /** No path beats the recurrence. */
  lemma {:induction false} BestBounds(w: Weight, n: nat, path: seq<nat>, s: set<nat>, last: nat)
    requires IsPath(path, s, last) && forall x :: x in s ==> x < n
    ensures !Below(Best(w, n, s, last), Fin(PathWeight(w, path)))
    decreases |path|
  {
    if |path| == 1 {
      assert path == [0];
      assert s == {0};
    } else {
      var front, p := path[..|path| - 1], path[|path| - 2];
      assert path == front + [last];
      FrontPath(path, s, last);
      BestBounds(w, n, front, s - {last}, p);
      var c := Candidates(w, n, s, last);
      assert c[p] == Plus(Best(w, n, s - {last}, p), w(p, last));
      assert !Below(c[ArgMax(c)], c[p]);
    }
  }

  lemma FiniteBefore(w: Weight, n: nat, s: set<nat>, last: nat)
    requires Best(w, n, s, last).Fin? && s != {0}
    ensures Open(s, last) && 0 <= Previous(w, n, s, last) < n
    ensures Best(w, n, s - {last}, Previous(w, n, s, last)).Fin?
    ensures Best(w, n, s, last) == Plus(Best(w, n, s - {last}, Previous(w, n, s, last)), w(Previous(w, n, s, last), last))
  {
    var c := Candidates(w, n, s, last);
    var p := ArgMax(c);
    assert c[p] == Plus(Best(w, n, s - {last}, p), w(p, last));
  }

  /** The path read back along `Previous`. */
  ghost function Trace(w: Weight, n: nat, s: set<nat>, last: nat): seq<nat>
    requires Best(w, n, s, last).Fin?
    decreases |s|
  {
    if s == {0} then [0]
    else
      FiniteBefore(w, n, s, last);
      Trace(w, n, s - {last}, Previous(w, n, s, last)) + [last]
  }

  lemma OneFurther(w: Weight, front: seq<nat>, s: set<nat>, p: nat, last: nat)
    requires Open(s, last) && IsPath(front, s - {last}, p)
    ensures IsPath(front + [last], s, last)
    ensures PathWeight(w, front + [last]) == PathWeight(w, front) + w(p, last)
  {
    var path := front + [last];
    assert path[..|path| - 1] == front;
    assert last !in Members(front);
    assert Members(path) == Members(front) + {last};
  }

  /** Reading back gives a path of the recurrence's weight: the maximum is achieved. */
  lemma {:induction false} TraceAchieves(w: Weight, n: nat, s: set<nat>, last: nat)
    requires Best(w, n, s, last).Fin?
    ensures IsPath(Trace(w, n, s, last), s, last)
    ensures PathWeight(w, Trace(w, n, s, last)) == Best(w, n, s, last).value
    decreases |s|
  {
    if s == {0} {
      assert Trace(w, n, s, last) == [0];
    } else {
      FiniteBefore(w, n, s, last);
      var p := Previous(w, n, s, last);
      TraceAchieves(w, n, s - {last}, p);
      OneFurther(w, Trace(w, n, s - {last}, p), s, p, last);
    }
  }

  function UpTo(n: nat): (r: seq<nat>)
    ensures |r| == n && forall i :: 0 <= i < n ==> r[i] == i
  {
    seq(n, i requires 0 <= i < n => i)
  }

  function All(n: nat): set<nat> { set x | x in UpTo(n) }

  ghost function Closing(w: Weight, n: nat): (c: seq<Ext>)
    ensures |c| == n
  {
    seq(n, l requires 0 <= l < n => if l == 0 then NegInf else Plus(Best(w, n, All(n), l), w(l, 0)))
  }

  /** The ring before its direction is chosen. */
  ghost predicate IsBestEnd(w: Weight, n: nat, last: nat) {
    n >= 2 && last < n && last == ArgMax(Closing(w, n)) && Best(w, n, All(n), last).Fin?
  }

  lemma AllMembers(n: nat)
    ensures forall x: nat :: x in All(n) <==> x < n
  {
    forall x: nat | x < n ensures x in All(n) {
      assert UpTo(n)[x] == x;
    }
  }

  lemma BestEndExists(w: Weight, n: nat)
    requires n >= 2
    ensures IsBestEnd(w, n, ArgMax(Closing(w, n)))
  {
    var path := UpTo(n);
    AllMembers(n);
    BestBounds(w, n, path, All(n), n - 1);
    var c := Closing(w, n);
    assert Best(w, n, All(n), n - 1).Fin?;
    assert c[n - 1] == Plus(Best(w, n, All(n), n - 1), w(n - 1, 0));
    var last := ArgMax(c);
    assert !Below(c[last], c[n - 1]);
    assert c[last] == if last == 0 then NegInf else Plus(Best(w, n, All(n), last), w(last, 0));
  }

  lemma RotateRing(a: seq<nat>, b: seq<nat>, n: nat)
    requires IsRing(a + b, n)
    ensures IsRing(b + a, n)
  {
    var ring, turned := a + b, b + a;
    forall i, j | 0 <= i < j < n ensures turned[i] != turned[j] {
      var i', j' := if i < |b| then |a| + i else i - |b|, if j < |b| then |a| + j else j - |b|;
      assert turned[i] == ring[i'] && turned[j] == ring[j'];
    }
    forall x: nat ensures x in turned <==> x < n {
      assert x in ring <==> x in a || x in b;
      assert x in turned <==> x in a || x in b;
    }
  }

  /** A ring turned to start at 0. */
  lemma StartAtZero(w: Weight, ring: seq<nat>, n: nat) returns (path: seq<nat>)
    requires n >= 1 && IsRing(ring, n)
    ensures IsRing(path, n) && path[0] == 0 && RingWeight(w, path) == RingWeight(w, ring)
  {
    assert 0 in ring;
    var k :| 0 <= k < |ring| && ring[k] == 0;
    var a, b := ring[..k], ring[k..];
    assert ring == a + b;
    path := b + a;
    RotateWeight(w, a, b);
    RotateRing(a, b, n);
  }

  /** No ring weighs more than the best closing. */
  lemma EndBounds(w: Weight, n: nat, other: seq<nat>, last: nat)
    requires IsBestEnd(w, n, last) && IsRing(other, n)
    ensures RingWeight(w, other) <= Best(w, n, All(n), last).value + w(last, 0)
  {
    var path := StartAtZero(w, other, n);
    var end := path[n - 1];
    assert end != path[0] && end in path;
    AllMembers(n);
    assert Members(path) == All(n);
    BestBounds(w, n, path, All(n), end);
    var c := Closing(w, n);
    assert !Below(c[last], c[end]);
    assert c[end] == Plus(Best(w, n, All(n), end), w(end, 0));
    assert c[last].Fin? && c[last].value == Best(w, n, All(n), last).value + w(last, 0);
  }

  lemma {:induction false} MembersSize(path: seq<nat>)
    requires Distinct(path)
    ensures |Members(path)| == |path|
    decreases |path|
  {
    if path == [] {
      assert Members(path) == {};
    } else {
      var front, last := path[..|path| - 1], path[|path| - 1];
      MembersSize(front);
      assert path == front + [last];
      assert last !in front;
      assert Members(path) == Members(front) + {last};
    }
  }

  lemma AllNext(n: nat)
    ensures All(n + 1) == All(n) + {n} && n !in All(n)
  {
    AllMembers(n + 1);
    AllMembers(n);
  }

  lemma {:induction false} AllSize(n: nat)
    ensures |All(n)| == n
  {
    if n == 0 {
      assert All(0) == {};
    } else {
      AllSize(n - 1);
      AllNext(n - 1);
    }
  }

  lemma PathIsRing(path: seq<nat>, n: nat, last: nat)
    requires IsPath(path, All(n), last)
    ensures IsRing(path, n)
  {
    MembersSize(path);
    AllSize(n);
    AllMembers(n);
    forall x: nat ensures x in path <==> x < n {
      assert x in path <==> x in Members(path);
    }
  }

  /** The ring read back from the best end is a ring, and no other ring weighs more. */
  lemma TraceIsOptimal(w: Weight, n: nat, last: nat)
    requires IsBestEnd(w, n, last)
    ensures IsRing(Trace(w, n, All(n), last), n) && Trace(w, n, All(n), last)[0] == 0
    ensures forall other :: IsRing(other, n) ==> RingWeight(w, other) <= RingWeight(w, Trace(w, n, All(n), last))
  {
    TraceAchieves(w, n, All(n), last);
    var order := Trace(w, n, All(n), last);
    PathIsRing(order, n, last);
    forall other | IsRing(other, n) ensures RingWeight(w, other) <= RingWeight(w, order) {
      EndBounds(w, n, other, last);
    }
  }

  // ---- Subsets as bit masks ----

  predicate Bit(mask: nat, i: nat) {
    if i == 0 then mask % 2 == 1 else Bit(mask / 2, i - 1)
  }

  function Popcount(mask: nat): nat {
    if mask == 0 then 0 else mask % 2 + Popcount(mask / 2)
  }

  ghost function Bits(n: nat, mask: nat): set<nat> {
    set i: nat | i < n && Bit(mask, i)
  }

  /** Flipping a set bit off: `mask ^ (1 << i)`. */
  lemma {:induction false} ClearBit(mask: nat, i: nat)
    requires Bit(mask, i)
    ensures mask >= Pow2(i) && Popcount(mask - Pow2(i)) == Popcount(mask) - 1
    ensures forall j: nat :: Bit(mask - Pow2(i), j) <==> j != i && Bit(mask, j)
    decreases i
  {
    if i == 0 {
      assert (mask - 1) / 2 == mask / 2;
    } else {
      ClearBit(mask / 2, i - 1);
      var cleared := mask - Pow2(i);
      assert cleared / 2 == mask / 2 - Pow2(i - 1) && cleared % 2 == mask % 2;
      forall j: nat ensures Bit(cleared, j) <==> j != i && Bit(mask, j) {
        if j > 0 {
          assert Bit(cleared, j) == Bit(cleared / 2, j - 1);
        }
      }
    }
  }

  lemma {:induction false} FullMask(n: nat, i: nat)
    ensures Popcount(Pow2(n) - 1) == n && (i < n ==> Bit(Pow2(n) - 1, i))
    decreases n
  {
    if n > 0 {
      var half := Pow2(n - 1);
      FullMask(n - 1, if i > 0 then i - 1 else 0);
      var full := 2 * half - 1;
      assert full / 2 == half - 1 && full % 2 == 1 && full == Pow2(n) - 1;
    }
  }

  lemma {:induction false} NoBits(mask: nat, n: nat)
    requires mask < Pow2(n) && forall i: nat :: i < n ==> !Bit(mask, i)
    ensures mask == 0
    decreases n
  {
    if n > 0 {
      assert !Bit(mask, 0);
      forall i: nat | i < n - 1 ensures !Bit(mask / 2, i) {
        assert !Bit(mask, i + 1);
      }
      NoBits(mask / 2, n - 1);
    }
  }

  /** Only the mask 1 stands for {0}, and every other mask has another bit. */
  lemma OnlyOne(mask: nat, n: nat)
    requires n >= 1 && mask < Pow2(n) && Bits(n, mask) == {0}
    ensures mask == 1 && Popcount(mask) == 1
  {
    assert 0 in Bits(n, mask);
    assert Bit(mask, 0);
    forall i: nat | i < n - 1 ensures !Bit(mask / 2, i) {
      assert i + 1 !in Bits(n, mask);
      assert !Bit(mask, i + 1);
    }
    NoBits(mask / 2, n - 1);
  }

  lemma {:induction false} ZeroHasNoBit(i: nat)
    ensures !Bit(0, i)
  {
    if i > 0 {
      ZeroHasNoBit(i - 1);
    }
  }

  lemma BitsOfOne(n: nat)
    requires n >= 1
    ensures Bits(n, 1) == {0} && Popcount(1) == 1
  {
    forall i: nat | i in Bits(n, 1) ensures i == 0 {
      if i > 0 { ZeroHasNoBit(i - 1); }
    }
  }

  lemma {:induction false} ZeroCount(mask: nat)
    requires Popcount(mask) == 0
    ensures mask == 0
  {
    if mask > 0 {
      ZeroCount(mask / 2);
    }
  }

  // ---- The search over masks ----

  /** Layer `size`, ends up to `last`, and for that end masks below `upto`: the entries filled so far. */
  predicate Filled(mask: nat, l: nat, size: nat, last: nat, upto: nat) {
    Popcount(mask) < size || (Popcount(mask) == size && (l < last || (l == last && mask < upto)))
  }

  /** The tables agree with the recurrence where filled, and are untouched elsewhere. */
  ghost predicate Tables(w: Weight, n: nat, best: array2<Ext>, previous: array2<int>, size: nat, last: nat, upto: nat)
    reads best, previous
  {
    && best.Length0 == previous.Length0 == Pow2(n) && best.Length1 == previous.Length1 == n
    && forall mask: nat, l: nat {:trigger best[mask, l]} :: mask < Pow2(n) && l < n ==>
      && best[mask, l] == (if Filled(mask, l, size, last, upto) then Best(w, n, Bits(n, mask), l) else NegInf)
      && previous[mask, l] == (if Filled(mask, l, size, last, upto) then Previous(w, n, Bits(n, mask), l) else -1)
  }

  ghost predicate TablesDone(w: Weight, n: nat, best: array2<Ext>, previous: array2<int>)
    reads best, previous
  {
    Tables(w, n, best, previous, n, n, 0)
  }

  /** Entries that are no target of the search have no path. */
  lemma NoPath(w: Weight, n: nat, mask: nat, l: nat)
    requires mask < Pow2(n) && l < n && mask != 1 && !(mask % 2 == 1 && Bit(mask, l) && l != 0)
    ensures Best(w, n, Bits(n, mask), l) == NegInf && Previous(w, n, Bits(n, mask), l) == -1
  {
    if Bits(n, mask) == {0} {
      OnlyOne(mask, n);
    }
  }

  lemma BestOfOne(w: Weight, n: nat, l: nat)
    requires l < n
    ensures Best(w, n, Bits(n, 1), l) == (if l == 0 then Fin(0.0) else NegInf) && Previous(w, n, Bits(n, 1), l) == -1
  {
    BitsOfOne(n);
  }

  /** The row `best[targets ^ bit] + weight[:, last]` holds the recurrence's candidates. */
  lemma RowIsCandidates(w: Weight, n: nat, mask: nat, last: nat, row: seq<Ext>)
    requires mask < Pow2(n) && 1 <= last < n && mask % 2 == 1 && Bit(mask, last) && |row| == n
    requires mask >= Pow2(last) && forall p :: 0 <= p < n ==> row[p] == Plus(Best(w, n, Bits(n, mask - Pow2(last)), p), w(p, last))
    ensures Best(w, n, Bits(n, mask), last) == row[ArgMax(row)] && Previous(w, n, Bits(n, mask), last) == ArgMax(row)
  {
    ClearBit(mask, last);
    assert Bits(n, mask - Pow2(last)) == Bits(n, mask) - {last};
    assert 0 in Bits(n, mask) && last in Bits(n, mask);
    assert row == Candidates(w, n, Bits(n, mask), last);
  }

  /** One target: the best way to reach `last` over the mask, and from where. */
  method Choose(w: Weight, n: nat, best: array2<Ext>, previous: array2<int>, size: nat, last: nat, mask: nat)
    returns (value: Ext, chosen: nat)
    requires Tables(w, n, best, previous, size, last, mask)
    requires 1 <= last < n && mask < Pow2(n) && mask % 2 == 1 && Popcount(mask) == size && Bit(mask, last)
    ensures value == Best(w, n, Bits(n, mask), last) && chosen == Previous(w, n, Bits(n, mask), last)
  {
    ClearBit(mask, last);
    var source := mask - Pow2(last);
    var candidates := seq(n, p requires 0 <= p < n && source < best.Length0 && best.Length1 == n reads best => Plus(best[source, p], w(p, last)));
    assert forall p :: 0 <= p < n ==> Filled(source, p, size, last, mask);
    RowIsCandidates(w, n, mask, last, candidates);
    chosen := ArgMax(candidates);
    value := candidates[chosen];
  }

  /** Moving past a mask fills its entry if it is of the layer's size, and no other. */
  lemma FilledNext(size: nat, last: nat, mask: nat, next: nat)
    requires next == mask + 1
    ensures forall m, l :: Filled(m, l, size, last, next) <==> (Filled(m, l, size, last, mask) || (m == mask && l == last && Popcount(mask) == size))
  {
  }

  method FillEntry(w: Weight, n: nat, best: array2<Ext>, previous: array2<int>, size: nat, last: nat, mask: nat)
    requires Tables(w, n, best, previous, size, last, mask)
    requires 2 <= size <= n && 1 <= last < n && mask < Pow2(n)
    modifies best, previous
    ensures Tables(w, n, best, previous, size, last, mask + 1)
  {
    FilledNext(size, last, mask, mask + 1);
    if mask % 2 == 1 && Popcount(mask) == size && Bit(mask, last) {
      var value, chosen := Choose(w, n, best, previous, size, last, mask);
      best[mask, last] := value;
      previous[mask, last] := chosen;
    } else if Popcount(mask) == size {
      assert mask != 1 by { BitsOfOne(n); }
      NoPath(w, n, mask, last);
    }
  }

  lemma FullBits(n: nat)
    ensures Bits(n, Pow2(n) - 1) == All(n)
  {
    AllMembers(n);
    forall i | i in All(n) ensures i in Bits(n, Pow2(n) - 1) {
      FullMask(n, i);
    }
  }

  lemma {:induction false} MaskCount(mask: nat, n: nat)
    requires mask < Pow2(n)
    ensures Popcount(mask) <= n
    decreases n
  {
    if n > 0 && mask > 0 {
      MaskCount(mask / 2, n - 1);
    }
  }

  /** A path's end is one of its genres. */
  lemma PreviousInside(w: Weight, n: nat, s: set<nat>, last: nat)
    requires Best(w, n, s, last).Fin?
    ensures last in s
  {
  }

  /** A new layer begins: its entries for end 0 have no path. */
  lemma LayerBegins(w: Weight, n: nat, best: array2<Ext>, previous: array2<int>, size: nat)
    requires n >= 2 && size >= 1 && Tables(w, n, best, previous, size, n, 0)
    ensures Tables(w, n, best, previous, size + 1, 1, 0)
  {
    forall mask: nat, l: nat | mask < Pow2(n) && l < n
      ensures Filled(mask, l, size + 1, 1, 0) && !Filled(mask, l, size, n, 0) ==>
        Best(w, n, Bits(n, mask), l) == NegInf && Previous(w, n, Bits(n, mask), l) == -1
    {
      if Filled(mask, l, size + 1, 1, 0) && !Filled(mask, l, size, n, 0) {
        BitsOfOne(n);
        NoPath(w, n, mask, l);
      }
    }
  }

  lemma FirstLayer(w: Weight, n: nat, best: array2<Ext>, previous: array2<int>)
    requires n >= 2 && best.Length0 == previous.Length0 == Pow2(n) && best.Length1 == previous.Length1 == n
    requires forall mask: nat, l: nat {:trigger best[mask, l]} :: mask < Pow2(n) && l < n ==>
      best[mask, l] == (if mask == 1 && l == 0 then Fin(0.0) else NegInf) && previous[mask, l] == -1
    ensures Tables(w, n, best, previous, 1, n, 0)
  {
    forall mask: nat, l: nat | mask < Pow2(n) && l < n && Filled(mask, l, 1, n, 0)
      ensures best[mask, l] == Best(w, n, Bits(n, mask), l) && previous[mask, l] == Previous(w, n, Bits(n, mask), l)
    {
      if mask == 1 {
        BestOfOne(w, n, l);
      } else {
        if mask % 2 == 1 {
          ZeroCount(mask / 2);
        }
        NoPath(w, n, mask, l);
      }
    }
    BitsOfOne(n);
  }

  method Search(w: Weight, n: nat) returns (best: array2<Ext>, previous: array2<int>)
    requires n >= 2
    ensures TablesDone(w, n, best, previous)
  {
    best := new Ext[Pow2(n), n]((_, _) => NegInf);
    previous := new int[Pow2(n), n]((_, _) => -1);
    best[1, 0] := Fin(0.0);
    FirstLayer(w, n, best, previous);
    for size := 2 to n + 1
      invariant Tables(w, n, best, previous, size - 1, n, 0)
    {
      LayerBegins(w, n, best, previous, size - 1);
      for last := 1 to n
        invariant Tables(w, n, best, previous, size, last, 0)
      {
        for mask := 0 to Pow2(n)
          invariant Tables(w, n, best, previous, size, last, mask)
        {
          FillEntry(w, n, best, previous, size, last, mask);
        }
        assert Tables(w, n, best, previous, size, last + 1, 0);
      }
    }
  }

  // ---- Reading the ring back ----

  /** Start at genre 0, and run toward its smaller neighbour. */
  function Canonical(order: seq<nat>): seq<nat>
    requires |order| >= 2
  {
    if order[1] > order[|order| - 1] then [order[0]] + Reversed(order[1..]) else order
  }

  /** One step back along `previous`. */
  lemma StepBack(w: Weight, n: nat, mask: nat, last: nat, prior: int)
    requires mask < Pow2(n) && last < n && Bit(mask, last) && Best(w, n, Bits(n, mask), last).Fin?
    requires prior == Previous(w, n, Bits(n, mask), last)
    ensures mask >= Pow2(last) && Popcount(mask - Pow2(last)) < Popcount(mask)
    ensures prior == -1 ==> Trace(w, n, Bits(n, mask), last) == [last]
    ensures prior != -1 ==> 0 <= prior < n && Bit(mask - Pow2(last), prior)
    ensures prior != -1 ==> Best(w, n, Bits(n, mask - Pow2(last)), prior).Fin?
    ensures prior != -1 ==> Trace(w, n, Bits(n, mask), last) == Trace(w, n, Bits(n, mask - Pow2(last)), prior) + [last]
  {
    ClearBit(mask, last);
    var s := Bits(n, mask);
    if s != {0} {
      FiniteBefore(w, n, s, last);
      assert Bits(n, mask - Pow2(last)) == s - {last};
      PreviousInside(w, n, s - {last}, prior);
      assert Bit(mask - Pow2(last), prior);
    }
  }

  lemma Extend(front: seq<nat>, last: nat, order: seq<nat>)
    ensures front + [last] + Reversed(order) == front + Reversed(order + [last])
  {
    ReverseJoin(order, [last]);
    assert Reversed([last]) == [last];
  }

  /** The end of the best ring: `argmax` over the closing weights. */
  method BestEnd(w: Weight, n: nat, best: array2<Ext>, previous: array2<int>) returns (last: nat)
    requires n >= 2 && TablesDone(w, n, best, previous)
    ensures last == ArgMax(Closing(w, n)) && IsBestEnd(w, n, last)
  {
    var full := Pow2(n) - 1;
    FullBits(n);
    FullMask(n, 0);
    assert forall l :: 0 <= l < n ==> Filled(full, l, n, n, 0);
    var closing := seq(n, l requires 0 <= l < n && full < best.Length0 && best.Length1 == n reads best =>
      if l == 0 then NegInf else Plus(best[full, l], w(l, 0)));
    assert closing == Closing(w, n);
    BestEndExists(w, n);
    last := ArgMax(closing);
  }

  /** What is still to be read from `last` over `mask`. */
  ghost function Unread(w: Weight, n: nat, mask: nat, last: int): seq<nat> {
    if last >= 0 && Best(w, n, Bits(n, mask), last).Fin? then Trace(w, n, Bits(n, mask), last) else []
  }

  /** What is still to be read, and what has been read, backwards, make up the path. */
  ghost predicate ReadSoFar(w: Weight, n: nat, path: seq<nat>, mask: nat, last: int, order: seq<nat>) {
    && mask < Pow2(n) && -1 <= last < n
    && (last != -1 ==> Best(w, n, Bits(n, mask), last).Fin? && Bit(mask, last))
    && path == Unread(w, n, mask, last) + Reversed(order)
  }

  /** A step back takes the last genre off what is unread. */
  lemma UnreadStep(w: Weight, n: nat, mask: nat, last: nat, prior: int)
    requires mask < Pow2(n) && last < n && Bit(mask, last) && Best(w, n, Bits(n, mask), last).Fin?
    requires prior == Previous(w, n, Bits(n, mask), last)
    ensures mask >= Pow2(last) && Popcount(mask - Pow2(last)) < Popcount(mask) && -1 <= prior < n
    ensures prior != -1 ==> Bit(mask - Pow2(last), prior) && Best(w, n, Bits(n, mask - Pow2(last)), prior).Fin?
    ensures Unread(w, n, mask, last) == Unread(w, n, mask - Pow2(last), prior) + [last]
  {
    StepBack(w, n, mask, last, prior);
  }

  /** How many genres are still to be read. */
  ghost function ReadsLeft(mask: nat, last: int): nat {
    if last == -1 then 0 else 1 + Popcount(mask)
  }

  lemma ReadStep(w: Weight, n: nat, path: seq<nat>, mask: nat, last: nat, order: seq<nat>, prior: int)
    requires ReadSoFar(w, n, path, mask, last, order) && prior == Previous(w, n, Bits(n, mask), last)
    ensures mask >= Pow2(last) && ReadsLeft(mask - Pow2(last), prior) < ReadsLeft(mask, last)
    ensures ReadSoFar(w, n, path, mask - Pow2(last), prior, order + [last])
  {
    UnreadStep(w, n, mask, last, prior);
    Extend(Unread(w, n, mask - Pow2(last), prior), last, order);
  }

  lemma ReadEnds(w: Weight, n: nat, path: seq<nat>, mask: nat, order: seq<nat>)
    requires ReadSoFar(w, n, path, mask, -1, order)
    ensures Reversed(order) == path
  {
    assert [] + Reversed(order) == Reversed(order);
  }

  method Lookup(w: Weight, n: nat, best: array2<Ext>, previous: array2<int>, mask: nat, last: nat) returns (prior: int)
    requires TablesDone(w, n, best, previous) && mask < Pow2(n) && last < n
    ensures prior == Previous(w, n, Bits(n, mask), last)
  {
    MaskCount(mask, n);
    assert Filled(mask, last, n, n, 0) && best[mask, last] == Best(w, n, Bits(n, mask), last);
    prior := previous[mask, last];
  }

  /** At first the whole path is unread. */
  lemma ReadBegins(w: Weight, n: nat, end: nat)
    requires n >= 2 && IsBestEnd(w, n, end)
    ensures ReadSoFar(w, n, Trace(w, n, All(n), end), Pow2(n) - 1, end, [])
  {
    FullBits(n);
    FullMask(n, end);
    assert Reversed<nat>([]) == [];
    assert Trace(w, n, All(n), end) + [] == Trace(w, n, All(n), end);
  }

  /** The backtracking loop. */
  method ReadPath(w: Weight, n: nat, best: array2<Ext>, previous: array2<int>, end: nat, ghost path: seq<nat>) returns (order: seq<nat>)
    requires TablesDone(w, n, best, previous) && ReadSoFar(w, n, path, Pow2(n) - 1, end, [])
    ensures order == path
  {
    var last: int, mask: nat := end, Pow2(n) - 1;
    order := [];
    while last != -1
      invariant ReadSoFar(w, n, path, mask, last, order)
      decreases ReadsLeft(mask, last)
    {
      var at: nat := last;
      last := Lookup(w, n, best, previous, mask, at);
      ReadStep(w, n, path, mask, at, order, last);
      order, mask := order + [at], mask - Pow2(at);
    }
    ReadEnds(w, n, path, mask, order);
    order := Reversed(order);
  }

  method ReadBack(w: Weight, n: nat, best: array2<Ext>, previous: array2<int>) returns (order: seq<nat>)
    requires n >= 2 && TablesDone(w, n, best, previous)
    ensures IsBestEnd(w, n, ArgMax(Closing(w, n))) && order == Trace(w, n, All(n), ArgMax(Closing(w, n)))
  {
    var end := BestEnd(w, n, best, previous);
    ReadBegins(w, n, end);
    order := ReadPath(w, n, best, previous, end, Trace(w, n, All(n), end));
  }

  datatype Outcome = Ring(order: seq<nat>) | TooManyGenres

  /** No ring over 0 .. n - 1 weighs more. */
  ghost predicate Heaviest(w: Weight, n: nat, order: seq<nat>) {
    IsRing(order, n) && forall other :: IsRing(other, n) ==> RingWeight(w, other) <= RingWeight(w, order)
  }

  lemma CanonicalKeeps(w: Weight, n: nat, order: seq<nat>)
    requires Symmetric(w) && n >= 3 && Heaviest(w, n, order)
    ensures Heaviest(w, n, Canonical(order)) && Canonical(order)[0] == order[0]
    ensures Canonical(order)[1] < Canonical(order)[n - 1]
  {
    TurnRing(w, order, n);
    ReverseAt(order[1..], 0);
    ReverseAt(order[1..], n - 2);
  }

  lemma UpToIsRing(n: nat)
    ensures IsRing(UpTo(n), n)
  {
    forall x: nat | x < n ensures x in UpTo(n) {
      assert UpTo(n)[x] == x;
    }
  }

  lemma SmallPath(w: Weight, n: nat, path: seq<nat>)
    requires Symmetric(w) && 1 <= n <= 3 && IsRing(path, n) && path[0] == 0
    ensures RingWeight(w, path) == RingWeight(w, UpTo(n))
  {
    var order := UpTo(n);
    assert forall i :: 0 <= i < n ==> path[i] in path;
    if n == 3 {
      UpToIsRing(n);
      TurnRing(w, order, 3);
      assert order == [0, 1, 2];
      ReverseAt(order[1..], 0);
      ReverseAt(order[1..], 1);
      assert path == order || path == [order[0]] + Reversed(order[1..]);
    } else {
      assert path == order;
    }
  }

  /** Over at most three genres every ring weighs the same. */
  lemma SmallRings(w: Weight, n: nat)
    requires Symmetric(w) && n <= 3
    ensures Heaviest(w, n, UpTo(n))
  {
    var order := UpTo(n);
    UpToIsRing(n);
    forall other | IsRing(other, n) ensures RingWeight(w, other) <= RingWeight(w, order) {
      if n > 0 {
        var path := StartAtZero(w, other, n);
        SmallPath(w, n, path);
      }
    }
  }

  /** The ring `ring_order` returns: read back from the first best end, so that ties go to the smallest
      predecessor at each step, and then turned to its canonical direction. */
  ghost function TheRing(w: Weight, n: nat): (order: seq<nat>)
  {
    if n <= 3 then UpTo(n)
    else
      BestEndExists(w, n);
      TraceIsOptimal(w, n, ArgMax(Closing(w, n)));
      Canonical(Trace(w, n, All(n), ArgMax(Closing(w, n))))
  }

  /** It is a heaviest ring; it starts at genre 0 and runs toward its smaller neighbour. */
  lemma TheRingIsHeaviest(w: Weight, n: nat)
    requires Symmetric(w)
    ensures Heaviest(w, n, TheRing(w, n))
    ensures n >= 1 ==> TheRing(w, n)[0] == 0
    ensures n >= 3 ==> TheRing(w, n)[1] < TheRing(w, n)[n - 1]
  {
    if n <= 3 {
      SmallRings(w, n);
    } else {
      BestEndExists(w, n);
      TraceIsOptimal(w, n, ArgMax(Closing(w, n)));
      CanonicalKeeps(w, n, Trace(w, n, All(n), ArgMax(Closing(w, n))));
    }
  }

  /** `ring_order`. */
  method RingOrder(n: nat, weight: Weight) returns (out: Outcome)
    requires Symmetric(weight)
    ensures out.TooManyGenres? <==> n > RING_EXACT_MAX_GENRES
    ensures out.Ring? ==> out.order == TheRing(weight, n) && Heaviest(weight, n, out.order)
  {
    TheRingIsHeaviest(weight, n);
    if n > RING_EXACT_MAX_GENRES {
      return TooManyGenres;
    }
    if n <= 3 {
      return Ring(UpTo(n));
    }
    var best, previous := Search(weight, n);
    var order := ReadBack(weight, n, best, previous);
    TraceIsOptimal(weight, n, ArgMax(Closing(weight, n)));
    out := Ring(Canonical(order));
  }
}
