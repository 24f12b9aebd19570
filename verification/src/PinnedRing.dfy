/** `pinned_ring`: last month's ring with vanished genres dropped and new ones inserted where they add the
    most overlap. A genre is named by its place in name order. */
module PinnedRing {
  import opened Basics
  import opened Rings
  import Sorting

  /** The members of `xs` that lie in `s`, in order. */
  function Keep(xs: seq<nat>, s: set<nat>): seq<nat> {
    if xs == [] then [] else Keep(xs[..|xs| - 1], s) + (if xs[|xs| - 1] in s then [xs[|xs| - 1]] else [])
  }

  /** The genre after slot i, around the ring. */
  function After(ring: seq<nat>, i: nat): nat
    requires i < |ring|
  {
    if i + 1 < |ring| then ring[i + 1] else ring[0]
  }

  /** What inserting `g` after slot i adds: `w(a, new) + w(new, b) - w(a, b)`. */
  function Gain(w: Weight, ring: seq<nat>, i: nat, g: nat): real
    requires i < |ring|
  {
    w(ring[i], g) + w(g, After(ring, i)) - w(ring[i], After(ring, i))
  }

  function InsertAfter(ring: seq<nat>, i: nat, g: nat): seq<nat>
    requires i < |ring|
  {
    ring[..i + 1] + [g] + ring[i + 1..]
  }

  /** `np.argmax(gains)`: the earliest slot of the largest gain. */
  function BestSlot(w: Weight, ring: seq<nat>, g: nat, upto: nat): (k: nat)
    requires 1 <= upto <= |ring|
    ensures k < upto
    ensures forall i :: 0 <= i < upto ==> Gain(w, ring, i, g) <= Gain(w, ring, k, g)
    ensures forall i :: 0 <= i < k ==> Gain(w, ring, i, g) < Gain(w, ring, k, g)
  {
    if upto == 1 then 0
    else
      var k := BestSlot(w, ring, g, upto - 1);
      if Gain(w, ring, upto - 1, g) > Gain(w, ring, k, g) then upto - 1 else k
  }

  function Insert(w: Weight, ring: seq<nat>, g: nat): seq<nat> {
    if |ring| < 2 then ring + [g] else InsertAfter(ring, BestSlot(w, ring, g, |ring|), g)
  }

  function InsertAll(w: Weight, ring: seq<nat>, newcomers: seq<nat>): seq<nat> {
    if newcomers == [] then ring else Insert(w, InsertAll(w, ring, newcomers[..|newcomers| - 1]), newcomers[|newcomers| - 1])
  }

  /** `sorted(set(genres) - set(ring))`, for genres without repetition. */
  function NewGenres(genres: seq<nat>, ring: seq<nat>): seq<nat> {
    Sorting.Sorted(Keep(genres, SetOf(genres) - SetOf(ring)), (a: nat, b: nat) => a < b)
  }

  /** The ring `pinned_ring` ends with. */
  function Result(w: Weight, pinned: seq<nat>, genres: seq<nat>): seq<nat> {
    var survivors := Keep(pinned, SetOf(genres));
    InsertAll(w, survivors, NewGenres(genres, survivors))
  }

  // ---- One insertion ----

  /** Inserting raises the ring's weight by exactly the gain. */
  lemma InsertRaises(w: Weight, ring: seq<nat>, i: nat, g: nat)
    requires |ring| >= 2 && i < |ring|
    ensures RingWeight(w, InsertAfter(ring, i, g)) == RingWeight(w, ring) + Gain(w, ring, i, g)
  {
    var a, b := ring[..i + 1], ring[i + 1..];
    assert ring == a + b;
    PathJoin(w, a, [g]);
    if b == [] {
      assert a == ring && InsertAfter(ring, i, g) == a + [g];
    } else {
      PathJoin(w, a, b);
      PathJoin(w, a + [g], b);
    }
  }

  /** No other slot gives a heavier ring, and no earlier slot as heavy a one. */
  lemma InsertIsBest(w: Weight, ring: seq<nat>, g: nat, i: nat)
    requires |ring| >= 2 && i < |ring|
    ensures RingWeight(w, InsertAfter(ring, i, g)) <= RingWeight(w, Insert(w, ring, g))
    ensures i < BestSlot(w, ring, g, |ring|) ==> RingWeight(w, InsertAfter(ring, i, g)) < RingWeight(w, Insert(w, ring, g))
  {
    InsertRaises(w, ring, i, g);
    InsertRaises(w, ring, BestSlot(w, ring, g, |ring|), g);
  }

  // ---- What the whole ring keeps ----

  lemma {:induction false} KeepJoin(a: seq<nat>, b: seq<nat>, s: set<nat>)
    ensures Keep(a + b, s) == Keep(a, s) + Keep(b, s)
    decreases |b|
  {
    if b == [] {
      assert a + b == a;
    } else {
      var last := |b| - 1;
      assert (a + b)[..|a + b| - 1] == a + b[..last];
      KeepJoin(a, b[..last], s);
    }
  }

  lemma {:induction false} KeepMembers(xs: seq<nat>, s: set<nat>)
    ensures forall x :: x in Keep(xs, s) <==> x in xs && x in s
    decreases |xs|
  {
    if xs != [] {
      var front, last := xs[..|xs| - 1], xs[|xs| - 1];
      KeepMembers(front, s);
      assert xs == front + [last];
    }
  }

  lemma FrontDistinct(xs: seq<nat>)
    requires xs != [] && Distinct(xs)
    ensures Distinct(xs[..|xs| - 1]) && xs[|xs| - 1] !in xs[..|xs| - 1] && xs[|xs| - 1] in xs
    ensures forall x :: x in xs[..|xs| - 1] ==> x in xs
  {
  }

  lemma {:induction false} KeepDistinct(xs: seq<nat>, s: set<nat>)
    requires Distinct(xs)
    ensures Distinct(Keep(xs, s))
    decreases |xs|
  {
    if xs != [] {
      var front, last := xs[..|xs| - 1], xs[|xs| - 1];
      FrontDistinct(xs);
      KeepDistinct(front, s);
      KeepMembers(front, s);
    }
  }

  lemma {:induction false} KeepEvery(xs: seq<nat>, s: set<nat>)
    requires forall x :: x in xs ==> x in s
    ensures Keep(xs, s) == xs
    decreases |xs|
  {
    if xs != [] {
      var front, last := xs[..|xs| - 1], xs[|xs| - 1];
      assert xs == front + [last];
      KeepEvery(front, s);
    }
  }

  lemma SpliceDistinct(a: seq<nat>, b: seq<nat>, g: nat)
    requires Distinct(a + b) && g !in a + b
    ensures Distinct(a + [g] + b)
  {
    var whole, r := a + b, a + [g] + b;
    forall i, j | 0 <= i < j < |r| ensures r[i] != r[j] {
      var i', j' := if i < |a| then i else i - 1, if j < |a| then j else j - 1;
      assert i != |a| ==> r[i] == whole[i'];
      assert j != |a| ==> r[j] == whole[j'];
    }
  }

  lemma SpliceMembers(a: seq<nat>, b: seq<nat>, g: nat, s: set<nat>)
    ensures SetOf(a + [g] + b) == SetOf(a + b) + {g}
    ensures g !in s ==> Keep(a + [g] + b, s) == Keep(a + b, s)
  {
    KeepJoin(a, b, s);
    KeepJoin(a, [g], s);
    KeepJoin(a + [g], b, s);
    assert forall x :: x in a + [g] + b <==> x in a || x == g || x in b;
    assert forall x :: x in a + b <==> x in a || x in b;
  }

  /** An insertion adds the genre, moves nothing else, and never takes the first place. */
  lemma InsertKeeps(w: Weight, ring: seq<nat>, g: nat, s: set<nat>)
    requires Distinct(ring) && g !in ring
    ensures Distinct(Insert(w, ring, g)) && SetOf(Insert(w, ring, g)) == SetOf(ring) + {g}
    ensures g !in s ==> Keep(Insert(w, ring, g), s) == Keep(ring, s)
    ensures ring != [] ==> Insert(w, ring, g)[0] == ring[0]
  {
    var at := if |ring| < 2 then |ring| else BestSlot(w, ring, g, |ring|) + 1;
    var a, b := ring[..at], ring[at..];
    assert ring == a + b;
    assert Insert(w, ring, g) == a + [g] + b;
    SpliceDistinct(a, b, g);
    SpliceMembers(a, b, g, s);
  }

  /** What the insertions keep of the ring they start from. */
  ghost predicate Extends(ring: seq<nat>, newcomers: seq<nat>, s: set<nat>, r: seq<nat>) {
    && Distinct(r) && SetOf(r) == SetOf(ring) + SetOf(newcomers) && Keep(r, s) == Keep(ring, s)
    && (ring != [] ==> r != [] && r[0] == ring[0])
  }

  lemma OneMoreMember(ring: seq<nat>, front: seq<nat>, r: seq<nat>, next: seq<nat>, g: nat)
    requires SetOf(r) == SetOf(ring) + SetOf(front) && SetOf(next) == SetOf(r) + {g}
    ensures SetOf(next) == SetOf(ring) + SetOf(front + [g])
  {
    assert SetOf(front + [g]) == SetOf(front) + {g};
  }

  lemma NotMember(xs: seq<nat>, ring: seq<nat>, front: seq<nat>, g: nat)
    requires SetOf(xs) == SetOf(ring) + SetOf(front) && g !in ring && g !in front
    ensures g !in xs
  {
    assert g !in SetOf(xs);
  }

  lemma NextInsert(w: Weight, ring: seq<nat>, front: seq<nat>, g: nat, s: set<nat>, r: seq<nat>)
    requires Extends(ring, front, s, r) && g !in ring && g !in front && g !in s
    ensures Extends(ring, front + [g], s, Insert(w, r, g))
  {
    NotMember(r, ring, front, g);
    InsertKeeps(w, r, g, s);
    OneMoreMember(ring, front, r, Insert(w, r, g), g);
  }

  lemma {:induction false} InsertAllKeeps(w: Weight, ring: seq<nat>, newcomers: seq<nat>, s: set<nat>)
    requires Distinct(ring) && Distinct(newcomers) && forall x :: x in newcomers ==> x !in ring && x !in s
    ensures Extends(ring, newcomers, s, InsertAll(w, ring, newcomers))
    decreases |newcomers|
  {
    if newcomers == [] {
      assert SetOf(newcomers) == {};
    } else {
      var front, g := newcomers[..|newcomers| - 1], newcomers[|newcomers| - 1];
      FrontDistinct(newcomers);
      InsertAllKeeps(w, ring, front, s);
      NextInsert(w, ring, front, g, s, InsertAll(w, ring, front));
      assert newcomers == front + [g];
    }
  }

  lemma NewGenresAre(genres: seq<nat>, ring: seq<nat>)
    requires Distinct(genres)
    ensures Distinct(NewGenres(genres, ring))
    ensures forall x :: x in NewGenres(genres, ring) <==> x in genres && x !in ring
  {
    var less := (a: nat, b: nat) => a < b;
    var kept := Keep(genres, SetOf(genres) - SetOf(ring));
    KeepMembers(genres, SetOf(genres) - SetOf(ring));
    KeepDistinct(genres, SetOf(genres) - SetOf(ring));
    assert Sorting.WeakOrder(less);
    Sorting.SortedSorts(kept, less);
    Sorting.ArgsortSorts(kept, less);
    var sorted := Sorting.Sorted(kept, less);
    var order := Sorting.Argsort(kept, less);
    forall i, j | 0 <= i < j < |sorted| ensures sorted[i] != sorted[j] {
      assert Sorting.Earlier(kept, less, order[i], order[j]);
      assert order[i] != order[j];
    }
    forall x ensures x in sorted <==> x in kept {
      assert x in sorted <==> x in multiset(sorted);
      assert x in kept <==> x in multiset(kept);
    }
  }

  /** The result holds exactly the current genres, once each; the survivors keep their order, and the first of
      them its place; and with an unchanged genre set the ring is returned unchanged. */
  lemma ResultIs(w: Weight, pinned: seq<nat>, genres: seq<nat>)
    requires Distinct(pinned) && Distinct(genres)
    ensures Distinct(Result(w, pinned, genres)) && SetOf(Result(w, pinned, genres)) == SetOf(genres)
    ensures Keep(Result(w, pinned, genres), SetOf(pinned)) == Keep(pinned, SetOf(genres))
    ensures Keep(pinned, SetOf(genres)) != [] ==>
      Result(w, pinned, genres) != [] && Result(w, pinned, genres)[0] == Keep(pinned, SetOf(genres))[0]
    ensures SetOf(pinned) == SetOf(genres) ==> Result(w, pinned, genres) == pinned
  {
    var survivors := Keep(pinned, SetOf(genres));
    var newcomers := NewGenres(genres, survivors);
    KeepMembers(pinned, SetOf(genres));
    KeepDistinct(pinned, SetOf(genres));
    NewGenresAre(genres, survivors);
    forall x | x in newcomers ensures x !in survivors && x !in SetOf(pinned) {
      assert x in SetOf(genres);
    }
    assert forall i :: 0 <= i < |newcomers| ==> newcomers[i] in newcomers;
    InsertAllKeeps(w, survivors, newcomers, SetOf(pinned));
    KeepEvery(survivors, SetOf(pinned));
    assert SetOf(survivors) <= SetOf(pinned);
    assert SetOf(survivors) + SetOf(newcomers) == SetOf(genres);
    if SetOf(pinned) == SetOf(genres) {
      KeepEvery(pinned, SetOf(genres));
    }
  }

  // ---- The result, insertion by insertion ----

  /** `next` is ring r with g put in at i, never first; no other place gives a heavier ring, and none before i as
      heavy a one. */
  ghost predicate BestInsertion(w: Weight, r: seq<nat>, g: nat, i: nat, next: seq<nat>) {
    && i <= |r| && (r != [] ==> i >= 1) && next == r[..i] + [g] + r[i..]
    && (forall j :: 1 <= j <= |r| ==> RingWeight(w, next) >= RingWeight(w, r[..j] + [g] + r[j..]))
    && (forall j :: 1 <= j < i ==> RingWeight(w, next) > RingWeight(w, r[..j] + [g] + r[j..]))
  }

  lemma OtherPlace(w: Weight, r: seq<nat>, g: nat, j: nat)
    requires |r| >= 2 && 1 <= j <= |r|
    ensures RingWeight(w, Insert(w, r, g)) >= RingWeight(w, r[..j] + [g] + r[j..])
    ensures j <= BestSlot(w, r, g, |r|) ==> RingWeight(w, Insert(w, r, g)) > RingWeight(w, r[..j] + [g] + r[j..])
  {
    InsertIsBest(w, r, g, j - 1);
  }

  lemma InsertAtSlot(w: Weight, r: seq<nat>, g: nat) returns (i: nat)
    ensures BestInsertion(w, r, g, i, Insert(w, r, g))
  {
    if |r| < 2 {
      i := |r|;
      assert r[..i] + [g] + r[i..] == r + [g];
    } else {
      i := BestSlot(w, r, g, |r|) + 1;
      forall j | 1 <= j <= |r|
        ensures RingWeight(w, Insert(w, r, g)) >= RingWeight(w, r[..j] + [g] + r[j..])
        ensures j < i ==> RingWeight(w, Insert(w, r, g)) > RingWeight(w, r[..j] + [g] + r[j..]) {
        OtherPlace(w, r, g, j);
      }
    }
  }

  /** A ring grown from `survivors` to `end` by `newcomers` one at a time, each where it adds the most overlap. */
  ghost predicate Grown(w: Weight, survivors: seq<nat>, newcomers: seq<nat>, chain: seq<seq<nat>>, slots: seq<nat>, end: seq<nat>) {
    && |chain| == |newcomers| + 1 && |slots| == |newcomers| && chain[0] == survivors && chain[|newcomers|] == end
    && forall t :: 0 <= t < |newcomers| ==> BestInsertion(w, chain[t], newcomers[t], slots[t], chain[t + 1])
  }

  lemma GrownOnce(w: Weight, survivors: seq<nat>, newcomers: seq<nat>, chain: seq<seq<nat>>, slots: seq<nat>, end: seq<nat>,
                  i: nat, next: seq<nat>)
    requires newcomers != [] && Grown(w, survivors, newcomers[..|newcomers| - 1], chain, slots, end)
    requires BestInsertion(w, end, newcomers[|newcomers| - 1], i, next)
    ensures Grown(w, survivors, newcomers, chain + [next], slots + [i], next)
  {
    var longer, more := chain + [next], slots + [i];
    forall t | 0 <= t < |newcomers| ensures BestInsertion(w, longer[t], newcomers[t], more[t], longer[t + 1]) {
      if t < |newcomers| - 1 {
        assert BestInsertion(w, chain[t], newcomers[..|newcomers| - 1][t], slots[t], chain[t + 1]);
      }
    }
  }

  lemma {:induction false} InsertAllGrows(w: Weight, ring: seq<nat>, newcomers: seq<nat>) returns (chain: seq<seq<nat>>, slots: seq<nat>)
    ensures Grown(w, ring, newcomers, chain, slots, InsertAll(w, ring, newcomers))
    decreases |newcomers|
  {
    if newcomers == [] {
      chain, slots := [ring], [];
    } else {
      var g, before := newcomers[|newcomers| - 1], InsertAll(w, ring, newcomers[..|newcomers| - 1]);
      chain, slots := InsertAllGrows(w, ring, newcomers[..|newcomers| - 1]);
      var i := InsertAtSlot(w, before, g);
      GrownOnce(w, ring, newcomers, chain, slots, before, i, Insert(w, before, g));
      chain, slots := chain + [Insert(w, before, g)], slots + [i];
    }
  }

  /** Some members of `xs`, in the order they stand there. */
  ghost predicate Picks(xs: seq<nat>, places: seq<nat>, picked: seq<nat>) {
    && |places| == |picked| && (forall i :: 0 <= i < |places| ==> places[i] < |xs| && picked[i] == xs[places[i]])
    && forall i, j :: 0 <= i < j < |places| ==> places[i] < places[j]
  }

  lemma OneMorePick(xs: seq<nat>, places: seq<nat>, picked: seq<nat>)
    requires xs != [] && Picks(xs[..|xs| - 1], places, picked)
    ensures Picks(xs, places, picked) && Picks(xs, places + [|xs| - 1], picked + [xs[|xs| - 1]])
  {
  }

  lemma {:induction false} KeepPicks(xs: seq<nat>, s: set<nat>) returns (places: seq<nat>)
    ensures Picks(xs, places, Keep(xs, s))
    decreases |xs|
  {
    if xs == [] {
      places := [];
    } else {
      var last := |xs| - 1;
      places := KeepPicks(xs[..last], s);
      OneMorePick(xs, places, Keep(xs[..last], s));
      if xs[last] in s {
        places := places + [last];
      }
    }
  }

  lemma NewGenresAscend(genres: seq<nat>, ring: seq<nat>)
    requires Distinct(genres)
    ensures forall i, j :: 0 <= i < j < |NewGenres(genres, ring)| ==> NewGenres(genres, ring)[i] < NewGenres(genres, ring)[j]
  {
    var less := (a: nat, b: nat) => a < b;
    NewGenresAre(genres, ring);
    assert Sorting.WeakOrder(less);
    Sorting.SortedSorts(Keep(genres, SetOf(genres) - SetOf(ring)), less);
    var sorted := NewGenres(genres, ring);
    forall i, j | 0 <= i < j < |sorted| ensures sorted[i] < sorted[j] {
      assert !less(sorted[j], sorted[i]) && sorted[i] != sorted[j];
    }
  }

  /** The result is the pinned genres that are still there, in their order, grown by the new ones in name order. */
  lemma ResultGrows(w: Weight, pinned: seq<nat>, genres: seq<nat>)
    returns (places: seq<nat>, survivors: seq<nat>, newcomers: seq<nat>, chain: seq<seq<nat>>, slots: seq<nat>)
    requires Distinct(pinned) && Distinct(genres)
    ensures Picks(pinned, places, survivors) && forall g :: g in survivors <==> g in pinned && g in genres
    ensures forall i, j :: 0 <= i < j < |newcomers| ==> newcomers[i] < newcomers[j]
    ensures forall g :: g in newcomers <==> g in genres && g !in pinned
    ensures Grown(w, survivors, newcomers, chain, slots, Result(w, pinned, genres))
  {
    survivors := Keep(pinned, SetOf(genres));
    newcomers := NewGenres(genres, survivors);
    places := KeepPicks(pinned, SetOf(genres));
    KeepMembers(pinned, SetOf(genres));
    NewGenresAre(genres, survivors);
    NewGenresAscend(genres, survivors);
    chain, slots := InsertAllGrows(w, survivors, newcomers);
  }

  method Survivors(pinned: seq<nat>, genres: seq<nat>) returns (ring: seq<nat>)
    ensures ring == Keep(pinned, SetOf(genres))
  {
    ring := [];
    for i := 0 to |pinned|
      invariant ring == Keep(pinned[..i], SetOf(genres))
    {
      assert pinned[..i + 1][..i] == pinned[..i];
      if pinned[i] in genres {
        ring := ring + [pinned[i]];
      }
    }
    assert pinned[..|pinned|] == pinned;
  }

  method EarliestBest(w: Weight, ring: seq<nat>, genre: nat) returns (slot: nat)
    requires ring != []
    ensures slot == BestSlot(w, ring, genre, |ring|)
  {
    slot := 0;
    for j := 1 to |ring|
      invariant slot == BestSlot(w, ring, genre, j)
    {
      if Gain(w, ring, j, genre) > Gain(w, ring, slot, genre) {
        slot := j;
      }
    }
  }

  /** `pinned_ring`: filter the pinned ring, then insert the new genres one by one in name order. */
  method PinnedRing(w: Weight, pinned: seq<nat>, genres: seq<nat>) returns (ring: seq<nat>)
    requires Distinct(pinned) && Distinct(genres)
    ensures ring == Result(w, pinned, genres)
  {
    ring := Survivors(pinned, genres);
    ghost var survivors := ring;
    var newcomers := NewGenres(genres, ring);
    for i := 0 to |newcomers|
      invariant ring == InsertAll(w, survivors, newcomers[..i])
    {
      assert newcomers[..i + 1][..i] == newcomers[..i];
      if |ring| < 2 {
        ring := ring + [newcomers[i]];
      } else {
        var slot := EarliestBest(w, ring, newcomers[i]);
        ring := ring[..slot + 1] + [newcomers[i]] + ring[slot + 1..];
      }
    }
    assert newcomers[..|newcomers|] == newcomers;
  }
}
