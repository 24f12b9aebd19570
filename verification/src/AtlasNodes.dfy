/** Where a layout puts its nodes, in terms of the layout and the month's data alone. */
module AtlasNodes {
  import opened AtlasLayout
  import opened Basics
  import Sorting

  // ---- Shares ----

  ghost predicate OneEach(list: seq<(nat, real)>) {
    forall i, j :: 0 <= i < j < |list| ==> list[i].0 != list[j].0
  }

  /** The shares as dictionaries: no style twice, and no genre twice under a style. */
  ghost predicate Dictionaries(shares: seq<StyleShares>) {
    && (forall i, j :: 0 <= i < j < |shares| ==> shares[i].style != shares[j].style)
    && forall i :: 0 <= i < |shares| ==> OneEach(shares[i].byGenre)
  }

  ghost predicate Lists(list: seq<(nat, real)>, genre: nat, value: real) {
    (genre, value) in list || (value == 0.0 && forall e :: e in list ==> e.0 != genre)
  }

  /** The style's share of the genre: the listed value, zero where none is. */
  ghost predicate HasShare(shares: seq<StyleShares>, style: nat, genre: nat, value: real) {
    || (exists s :: s in shares && s.style == style && Lists(s.byGenre, genre, value))
    || (value == 0.0 && forall s :: s in shares ==> s.style != style)
  }

  lemma {:induction false} GenreShareIs(list: seq<(nat, real)>, genre: nat, value: real)
    requires OneEach(list) && Lists(list, genre, value)
    ensures GenreShare(list, genre) == value
    decreases |list|
  {
    if list != [] {
      if list[0].0 == genre {
        assert list[0] in list;
      } else {
        assert list == [list[0]] + list[1..];
        GenreShareIs(list[1..], genre, value);
      }
    }
  }

  lemma {:induction false} ShareIs(shares: seq<StyleShares>, style: nat, genre: nat, value: real)
    requires Dictionaries(shares) && HasShare(shares, style, genre, value)
    ensures Share(shares, style, genre) == value
    decreases |shares|
  {
    if shares != [] {
      assert shares == [shares[0]] + shares[1..];
      if shares[0].style == style {
        assert shares[0] in shares;
        forall s | s in shares && s.style == style ensures s == shares[0] {
        }
        GenreShareIs(shares[0].byGenre, genre, value);
      } else {
        ShareIs(shares[1..], style, genre, value);
      }
    }
  }

  // ---- Ranks ----

  lemma ProperSmaller<T>(a: set<T>, b: set<T>, x: T)
    requires a <= b && x in b && x !in a
    ensures |a| < |b|
  {
    assert b == a + (b - a);
    assert x in b - a;
  }

  lemma EarlierRanks(keys: seq<Key>, i: nat, j: nat)
    requires i < |keys| && j < |keys| && Sorting.Earlier(keys, KeyLess, i, j)
    ensures RankOf(keys, i) < RankOf(keys, j)
  {
    var a := set x: nat | x < |keys| && Sorting.Earlier(keys, KeyLess, x, i);
    var b := set x: nat | x < |keys| && Sorting.Earlier(keys, KeyLess, x, j);
    KeyLessIsWeakOrder();
    assert i in b && i !in a;
    assert a <= b;
    ProperSmaller(a, b, i);
  }

  lemma SlotsRise(a: nat, b: nat, n: nat)
    requires a < b && n > 0
    ensures Slot(a, n) < Slot(b, n)
  {
    QuotientPositive((b - a) as real, n as real);
    QuotientSum(a as real + 0.5, (b - a) as real, n as real);
  }

  /** Ranks are in the order of the keys, ties by place. */
  lemma RanksOrder(keys: seq<Key>, i: nat, j: nat)
    requires i < |keys| && j < |keys|
    ensures Ranks(keys)[i] < Ranks(keys)[j] <==> Sorting.Earlier(keys, KeyLess, i, j)
  {
    RanksAre(keys, i);
    RanksAre(keys, j);
    if Sorting.Earlier(keys, KeyLess, i, j) {
      EarlierRanks(keys, i, j);
      SlotsRise(RankOf(keys, i), RankOf(keys, j), |keys|);
    } else if i != j {
      EarlierRanks(keys, j, i);
      SlotsRise(RankOf(keys, j), RankOf(keys, i), |keys|);
    }
  }

  lemma TimesPositive(a: real, b: real)
    requires a > 0.0 && b > 0.0
    ensures a * b > 0.0
  {
  }

  lemma AngleRises(start: real, width: real, u: real, v: real)
    requires width > 0.0
    ensures u < v <==> Angle(start, width, u) < Angle(start, width, v)
  {
    if u < v {
      TimesPositive(width, v - u);
    } else if v < u {
      TimesPositive(width, u - v);
    }
    Spread(width, SECTOR_ANGLE_MARGIN, u);
    Spread(width, SECTOR_ANGLE_MARGIN, v);
  }

  // ---- The nodes of one sector ----

  predicate PlacedAt(n: Node, s: Sector, u: real, v: real) {
    n.theta == Angle(s.start, s.end - s.start, u) && n.rho == Radius(v)
  }

  /** The nodes stand where the ranks of their keys put them. */
  ghost predicate Placed(ns: seq<Node>, s: Sector, lean: seq<Key>, age: seq<Key>) {
    && |ns| == |lean| == |age| && s.start < s.end
    && forall j :: 0 <= j < |ns| ==> PlacedAt(ns[j], s, Ranks(lean)[j], Ranks(age)[j])
  }

  /** Along a coordinate the nodes stand in the order of its keys. */
  lemma AnglesOrder(ns: seq<Node>, s: Sector, lean: seq<Key>, age: seq<Key>, i: nat, j: nat)
    requires Placed(ns, s, lean, age) && i < |ns| && j < |ns|
    ensures ns[i].theta < ns[j].theta <==> Sorting.Earlier(lean, KeyLess, i, j)
  {
    RanksOrder(lean, i, j);
    AngleRises(s.start, s.end - s.start, Ranks(lean)[i], Ranks(lean)[j]);
  }

  lemma RadiiOrder(ns: seq<Node>, s: Sector, lean: seq<Key>, age: seq<Key>, i: nat, j: nat)
    requires Placed(ns, s, lean, age) && i < |ns| && j < |ns|
    ensures ns[i].rho < ns[j].rho <==> Sorting.Earlier(age, KeyLess, i, j)
  {
    RanksOrder(age, i, j);
  }

  lemma PlacedDistinct(ns: seq<Node>, s: Sector, lean: seq<Key>, age: seq<Key>)
    requires Placed(ns, s, lean, age)
    ensures Distinct(ns)
  {
    forall i, j | 0 <= i < j < |ns| ensures ns[i] != ns[j] {
      AnglesOrder(ns, s, lean, age, i, j);
      AnglesOrder(ns, s, lean, age, j, i);
    }
  }

  lemma {:induction false} ImageSize<T>(xs: seq<T>, places: set<nat>)
    requires Distinct(xs) && forall i :: i in places ==> i < |xs|
    ensures |set i | i in places :: xs[i]| == |places|
    decreases |places|
  {
    var image := set i | i in places :: xs[i];
    if places == {} {
      assert image == {};
    } else {
      var i :| i in places;
      ImageSize(xs, places - {i});
      assert image == (set x | x in places - {i} :: xs[x]) + {xs[i]};
      assert xs[i] !in set x | x in places - {i} :: xs[x];
    }
  }

  lemma AngleCount(ns: seq<Node>, s: Sector, lean: seq<Key>, age: seq<Key>, j: nat)
    requires Placed(ns, s, lean, age) && j < |ns|
    ensures |set n | n in ns && n.theta < ns[j].theta| == RankOf(lean, j)
  {
    var places := set i: nat | i < |lean| && Sorting.Earlier(lean, KeyLess, i, j);
    PlacedDistinct(ns, s, lean, age);
    ImageSize(ns, places);
    forall i: nat | i < |ns| ensures ns[i].theta < ns[j].theta <==> i in places {
      AnglesOrder(ns, s, lean, age, i, j);
    }
    assert (set n | n in ns && n.theta < ns[j].theta) == set i | i in places :: ns[i];
  }

  lemma RadiusCount(ns: seq<Node>, s: Sector, lean: seq<Key>, age: seq<Key>, j: nat)
    requires Placed(ns, s, lean, age) && j < |ns|
    ensures |set n | n in ns && n.rho < ns[j].rho| == RankOf(age, j)
  {
    var places := set i: nat | i < |age| && Sorting.Earlier(age, KeyLess, i, j);
    PlacedDistinct(ns, s, lean, age);
    ImageSize(ns, places);
    forall i: nat | i < |ns| ensures ns[i].rho < ns[j].rho <==> i in places {
      RadiiOrder(ns, s, lean, age, i, j);
    }
    assert (set n | n in ns && n.rho < ns[j].rho) == set i | i in places :: ns[i];
  }

  /** The node's slot: i of n nodes before it. */
  predicate InSlots(a: Node, s: Sector, left: nat, inner: nat, n: nat) {
    && n > 0
    && a.theta == s.start + (s.end - s.start) * (0.10 + 0.80 * ((left as real + 0.5) / n as real))
    && a.rho == 0.35 + 0.60 * ((inner as real + 0.5) / n as real)
  }

  lemma PlacedInSlots(a: Node, s: Sector, left: nat, inner: nat, n: nat)
    requires n > 0 && PlacedAt(a, s, Slot(left, n), Slot(inner, n))
    ensures InSlots(a, s, left, inner, n)
  {
  }

  lemma SlotOf(ns: seq<Node>, s: Sector, lean: seq<Key>, age: seq<Key>, j: nat)
    requires Placed(ns, s, lean, age) && j < |ns|
    ensures InSlots(ns[j], s, |set n | n in ns && n.theta < ns[j].theta|, |set n | n in ns && n.rho < ns[j].rho|, |SetOf(ns)|)
  {
    PlacedDistinct(ns, s, lean, age);
    DistinctSize(ns);
    AngleCount(ns, s, lean, age, j);
    RadiusCount(ns, s, lean, age, j);
    RanksAre(lean, j);
    RanksAre(age, j);
    PlacedInSlots(ns[j], s, RankOf(lean, j), RankOf(age, j), |ns|);
  }

  // ---- The sectors of a layout ----

  /** The k-th sector's nodes, before all nodes are sorted together. */
  function Drawn(p: Plane, m: Month, pinned: seq<Sector>, ring: seq<nat>, k: nat): (ns: seq<Node>)
    requires p.Valid() && k < |ring|
    ensures |ns| == |Hosted(m.parents, ring[k])|
  {
    SectorNodes(m, ring, FramesOf(p, ring, Members(m.parents), pinned), k)
  }

  lemma PlaceIs(parent: Parent, frame: Frame, s: Sector, u: real, v: real)
    requires s.start == frame.start && s.end == frame.end
    ensures PlacedAt(Place(parent, frame, u, v), s, u, v)
  {
  }

  lemma DrawnIs(m: Month, ring: seq<nat>, frames: seq<Frame>, k: nat, s: Sector, j: nat)
    requires k < |ring| == |frames| && s.start == frames[k].start && s.end == frames[k].end && j < |Hosted(m.parents, ring[k])|
    ensures var n := SectorNodes(m, ring, frames, k)[j];
      && n.style == Hosted(m.parents, ring[k])[j].style && n.genre == ring[k]
      && PlacedAt(n, s, Ranks(LeanKeys(m, ring, k))[j], Ranks(AgeKeys(m, ring, k))[j])
  {
    var h := Hosted(m.parents, ring[k])[j];
    assert h in Hosted(m.parents, ring[k]);
    PlaceIs(h, frames[k], s, Ranks(LeanKeys(m, ring, k))[j], Ranks(AgeKeys(m, ring, k))[j]);
  }

  /** Every sector knows its place around the ring, and its label stands at its middle angle. */
  lemma SectorAt(p: Plane, m: Month, pinned: seq<Sector>, ring: seq<nat>, l: Layout, s: Sector)
    requires p.Valid() && IsLayout(p, m, pinned, ring, l) && s in l.sectors
    ensures 0 <= s.order < |ring| == |l.sectors| && s.genre == ring[s.order]
    ensures var frames := FramesOf(p, ring, Members(m.parents), pinned);
      s.start == frames[s.order].start && s.end == frames[s.order].end && s.theta == (s.start + s.end) / 2.0
  {
  }

  lemma SectorPlaced(p: Plane, m: Month, pinned: seq<Sector>, ring: seq<nat>, l: Layout, s: Sector)
    requires p.Valid() && IsLayout(p, m, pinned, ring, l) && s in l.sectors
    ensures 0 <= s.order < |ring| && Placed(Drawn(p, m, pinned, ring, s.order), s, LeanKeys(m, ring, s.order), AgeKeys(m, ring, s.order))
    ensures forall j :: 0 <= j < |Drawn(p, m, pinned, ring, s.order)| ==>
      Drawn(p, m, pinned, ring, s.order)[j].style == Hosted(m.parents, ring[s.order])[j].style
  {
    SectorAt(p, m, pinned, ring, l, s);
    FramesSound(p, ring, Members(m.parents), pinned);
    forall j: nat | j < |Drawn(p, m, pinned, ring, s.order)| {
      DrawnIs(m, ring, FramesOf(p, ring, Members(m.parents), pinned), s.order, s, j);
    }
  }

  lemma DrawnGenre(m: Month, ring: seq<nat>, frames: seq<Frame>, k: nat, a: Node)
    requires k < |ring| == |frames| && a in SectorNodes(m, ring, frames, k)
    ensures a.genre == ring[k]
  {
    var j: nat :| j < |SectorNodes(m, ring, frames, k)| && SectorNodes(m, ring, frames, k)[j] == a;
    assert Hosted(m.parents, ring[k])[j] in Hosted(m.parents, ring[k]);
  }

  lemma JoinedByGenre(m: Month, ring: seq<nat>, frames: seq<Frame>, k: nat, a: Node)
    requires k < |ring| == |frames| && Distinct(ring)
    ensures a in SectorNodes(m, ring, frames, k) <==> a in AllNodes(m, ring, frames) && a.genre == ring[k]
  {
    var lists := NodeLists(m, ring, frames);
    if a in lists[k] {
      InJoined(lists, k, a);
      DrawnGenre(m, ring, frames, k, a);
    }
    if a in Joined(lists) && a.genre == ring[k] {
      var i := FromJoined(lists, a);
      DrawnGenre(m, ring, frames, i, a);
    }
  }

  /** The sector's nodes are the layout's nodes of its genre. */
  lemma DrawnAre(p: Plane, m: Month, pinned: seq<Sector>, ring: seq<nat>, l: Layout, s: Sector)
    requires p.Valid() && Distinct(GenresOf(InRingOrder(pinned))) && IsLayout(p, m, pinned, ring, l) && s in l.sectors
    ensures 0 <= s.order < |ring| && forall a :: a in Drawn(p, m, pinned, ring, s.order) <==> a in l.nodes && a.genre == s.genre
  {
    var frames := FramesOf(p, ring, Members(m.parents), pinned);
    SectorAt(p, m, pinned, ring, l, s);
    RingDistinct(m, pinned, ring);
    NodesSorted(AllNodes(m, ring, frames));
    forall a ensures a in Drawn(p, m, pinned, ring, s.order) <==> a in l.nodes && a.genre == s.genre {
      JoinedByGenre(m, ring, frames, s.order, a);
    }
  }

  /** What a layout's sector and its nodes have to do with the month's data. */
  ghost predicate Holds(m: Month, ring: seq<nat>, s: Sector, ns: seq<Node>) {
    && 0 <= s.order < |ring| && |ns| == |Hosted(m.parents, ring[s.order])|
    && Placed(ns, s, LeanKeys(m, ring, s.order), AgeKeys(m, ring, s.order))
    && (forall j :: 0 <= j < |ns| ==> ns[j].style == Hosted(m.parents, ring[s.order])[j].style)
  }

  ghost predicate NodesOf(all: seq<Node>, genre: nat, ns: seq<Node>) {
    forall a :: a in ns <==> a in all && a.genre == genre
  }

  lemma PlaceIn(ns: seq<Node>, a: Node) returns (i: nat)
    requires a in ns
    ensures i < |ns| && ns[i] == a
  {
    i :| i < |ns| && ns[i] == a;
  }

  lemma SectorHolds(p: Plane, m: Month, pinned: seq<Sector>, ring: seq<nat>, l: Layout, s: Sector) returns (ns: seq<Node>)
    requires p.Valid() && Distinct(GenresOf(InRingOrder(pinned))) && IsLayout(p, m, pinned, ring, l) && s in l.sectors
    ensures Holds(m, ring, s, ns) && NodesOf(l.nodes, s.genre, ns)
  {
    DrawnAre(p, m, pinned, ring, l, s);
    SectorPlaced(p, m, pinned, ring, l, s);
    ns := Drawn(p, m, pinned, ring, s.order);
  }

  // ---- Angles ----

  lemma OnceAround(x: nat, n: nat)
    requires n <= x < 2 * n
    ensures x % n == x - n
  {
    var q := x / n;
    assert x == n * q + x % n;
    assert (q >= 2 ==> n * q >= n * 2) && (q <= 0 ==> n * q <= 0);
  }

  /** The place after k of n around a ring. */
  function After(k: int, n: int): int {
    if k + 1 == n then 0 else k + 1
  }

  lemma FollowingIs(ring: seq<nat>, k: nat)
    requires k < |ring|
    ensures Following(ring, k) == ring[After(k, |ring|)]
  {
    if k + 1 == |ring| {
      OnceAround(k + 1, |ring|);
    }
  }

  lemma PrecedingIs(ring: seq<nat>, prev: nat)
    requires prev < |ring|
    ensures Preceding(ring, After(prev, |ring|)) == ring[prev]
  {
    if prev + 1 < |ring| {
      OnceAround(prev + |ring|, |ring|);
    }
  }

  /** The sectors on either side, by their places around the ring. */
  predicate Between(sectors: seq<Sector>, prev: Sector, s: Sector, next: Sector) {
    && s in sectors && next in sectors && prev in sectors
    && next.order == After(s.order, |sectors|) && s.order == After(prev.order, |sectors|)
  }

  lemma NeighboursAre(p: Plane, m: Month, pinned: seq<Sector>, ring: seq<nat>, l: Layout, prev: Sector, s: Sector, next: Sector)
    requires p.Valid() && IsLayout(p, m, pinned, ring, l) && Between(l.sectors, prev, s, next)
    ensures 0 <= s.order < |ring| && next.genre == Following(ring, s.order) && prev.genre == Preceding(ring, s.order)
  {
    SectorAt(p, m, pinned, ring, l, s);
    SectorAt(p, m, pinned, ring, l, next);
    SectorAt(p, m, pinned, ring, l, prev);
    FollowingIs(ring, s.order);
    PrecedingIs(ring, prev.order);
  }

  /** The first lean is smaller, or they are equal and the first style's name is. */
  predicate LeansLess(aLean: real, a: nat, bLean: real, b: nat) {
    aLean < bLean || (aLean == bLean && a < b)
  }

  function LeanKey(m: Month, ring: seq<nat>, k: nat, style: nat): Key
    requires k < |ring|
  {
    Key(Finite(Share(m.shares, style, Following(ring, k)) - Share(m.shares, style, Preceding(ring, k))), style)
  }

  lemma LeanKeyIs(m: Month, ring: seq<nat>, k: nat, style: nat, toNext: real, toPrev: real)
    requires k < |ring| && Dictionaries(m.shares)
    requires HasShare(m.shares, style, Following(ring, k), toNext) && HasShare(m.shares, style, Preceding(ring, k), toPrev)
    ensures LeanKey(m, ring, k, style) == Key(Finite(toNext - toPrev), style)
  {
    ShareIs(m.shares, style, Following(ring, k), toNext);
    ShareIs(m.shares, style, Preceding(ring, k), toPrev);
  }

  lemma KeyedAngles(ns: seq<Node>, s: Sector, lean: seq<Key>, age: seq<Key>, i: nat, j: nat, x: Key, y: Key)
    requires Placed(ns, s, lean, age) && i < |ns| && j < |ns| && lean[i] == x && lean[j] == y
    requires x.style != y.style && x.number.Finite? && y.number.Finite?
    ensures ns[i].theta < ns[j].theta <==> LeansLess(x.number.value, x.style, y.number.value, y.style)
  {
    AnglesOrder(ns, s, lean, age, i, j);
  }

  lemma LeanOf(m: Month, ring: seq<nat>, s: Sector, ns: seq<Node>, a: Node) returns (i: nat)
    requires Holds(m, ring, s, ns) && a in ns
    ensures i < |ns| && ns[i] == a && LeanKeys(m, ring, s.order)[i] == LeanKey(m, ring, s.order, a.style)
  {
    i := PlaceIn(ns, a);
  }

  lemma LeansInOrder(m: Month, ring: seq<nat>, s: Sector, ns: seq<Node>, a: Node, b: Node, x: Key, y: Key)
    requires Holds(m, ring, s, ns) && a in ns && b in ns && x.style != y.style && x.number.Finite? && y.number.Finite?
    requires x == LeanKey(m, ring, s.order, a.style) && y == LeanKey(m, ring, s.order, b.style)
    ensures a.theta < b.theta <==> LeansLess(x.number.value, x.style, y.number.value, y.style)
  {
    var i := LeanOf(m, ring, s, ns, a);
    var j := LeanOf(m, ring, s, ns, b);
    KeyedAngles(ns, s, LeanKeys(m, ring, s.order), AgeKeys(m, ring, s.order), i, j, x, y);
  }

  /** Of two nodes of different styles in one sector the one nearer the next sector leans more toward its genre, by its
      share of that genre less its share of the previous sector's, and then by name. */
  lemma LeanOrder(p: Plane, m: Month, pinned: seq<Sector>, ring: seq<nat>, l: Layout, prev: Sector, s: Sector, next: Sector,
                  a: Node, b: Node, aNext: real, aPrev: real, bNext: real, bPrev: real)
    requires p.Valid() && Distinct(GenresOf(InRingOrder(pinned))) && IsLayout(p, m, pinned, ring, l) && Dictionaries(m.shares)
    requires Between(l.sectors, prev, s, next)
    requires a in l.nodes && b in l.nodes && a.genre == b.genre == s.genre && a.style != b.style
    requires HasShare(m.shares, a.style, next.genre, aNext) && HasShare(m.shares, a.style, prev.genre, aPrev)
    requires HasShare(m.shares, b.style, next.genre, bNext) && HasShare(m.shares, b.style, prev.genre, bPrev)
    ensures a.theta < b.theta <==> LeansLess(aNext - aPrev, a.style, bNext - bPrev, b.style)
  {
    var ns := SectorHolds(p, m, pinned, ring, l, s);
    NeighboursAre(p, m, pinned, ring, l, prev, s, next);
    LeanKeyIs(m, ring, s.order, a.style, aNext, aPrev);
    LeanKeyIs(m, ring, s.order, b.style, bNext, bPrev);
    LeansInOrder(m, ring, s, ns, a, b, Key(Finite(aNext - aPrev), a.style), Key(Finite(bNext - bPrev), b.style));
  }

  // ---- Radii ----

  /** The style emerged in an earlier year, or the other never did; equal dates go by name. */
  predicate EmergedBefore(emergence: map<nat, int>, a: nat, b: nat) {
    if a in emergence && b in emergence then emergence[a] < emergence[b] || (emergence[a] == emergence[b] && a < b)
    else if a in emergence then true
    else if b in emergence then false
    else a < b
  }

  function AgeKey(emergence: map<nat, int>, style: nat): Key {
    Key(if style in emergence then Finite(emergence[style] as real) else Infinite, style)
  }

  lemma KeyedRadii(ns: seq<Node>, s: Sector, lean: seq<Key>, age: seq<Key>, i: nat, j: nat, emergence: map<nat, int>, a: nat, b: nat)
    requires Placed(ns, s, lean, age) && i < |ns| && j < |ns| && a != b
    requires age[i] == AgeKey(emergence, a) && age[j] == AgeKey(emergence, b)
    ensures ns[i].rho < ns[j].rho <==> EmergedBefore(emergence, a, b)
  {
    RadiiOrder(ns, s, lean, age, i, j);
  }

  lemma AgeIs(m: Month, ring: seq<nat>, k: nat, j: nat, style: nat)
    requires k < |ring| && j < |Hosted(m.parents, ring[k])| && Hosted(m.parents, ring[k])[j].style == style
    ensures AgeKeys(m, ring, k)[j] == AgeKey(m.emergence, style)
  {
  }

  lemma AgesInOrder(m: Month, ring: seq<nat>, s: Sector, ns: seq<Node>, a: Node, b: Node)
    requires Holds(m, ring, s, ns) && a in ns && b in ns && a.style != b.style
    ensures a.rho < b.rho <==> EmergedBefore(m.emergence, a.style, b.style)
  {
    var k := s.order;
    var i := PlaceIn(ns, a);
    var j := PlaceIn(ns, b);
    AgeIs(m, ring, k, i, a.style);
    AgeIs(m, ring, k, j, b.style);
    KeyedRadii(ns, s, LeanKeys(m, ring, k), AgeKeys(m, ring, k), i, j, m.emergence, a.style, b.style);
  }

  /** Of two nodes of different styles in one sector the one nearer the centre emerged before the other. */
  lemma AgeOrder(p: Plane, m: Month, pinned: seq<Sector>, ring: seq<nat>, l: Layout, s: Sector, a: Node, b: Node)
    requires p.Valid() && Distinct(GenresOf(InRingOrder(pinned))) && IsLayout(p, m, pinned, ring, l) && s in l.sectors
    requires a in l.nodes && b in l.nodes && a.genre == b.genre == s.genre && a.style != b.style
    ensures a.rho < b.rho <==> EmergedBefore(m.emergence, a.style, b.style)
  {
    var ns := SectorHolds(p, m, pinned, ring, l, s);
    AgesInOrder(m, ring, s, ns, a, b);
  }

  // ---- Slots ----

  lemma SameNodes(all: seq<Node>, genre: nat, ns: seq<Node>, a: Node)
    requires NodesOf(all, genre, ns)
    ensures var mates := set n | n in all && n.genre == genre;
      && mates == SetOf(ns)
      && (set n | n in mates && n.theta < a.theta) == (set n | n in ns && n.theta < a.theta)
      && (set n | n in mates && n.rho < a.rho) == (set n | n in ns && n.rho < a.rho)
  {
  }

  lemma SlotsHeld(m: Month, ring: seq<nat>, s: Sector, ns: seq<Node>, a: Node)
    requires Holds(m, ring, s, ns) && a in ns
    ensures InSlots(a, s, |set n | n in ns && n.theta < a.theta|, |set n | n in ns && n.rho < a.rho|, |SetOf(ns)|)
  {
    var j := PlaceIn(ns, a);
    SlotOf(ns, s, LeanKeys(m, ring, s.order), AgeKeys(m, ring, s.order), j);
  }

  /** With n nodes in its sector, i of them before it, a node stands in the middle of the i-th of n equal slots: of the
      middle 80% of the sector's angle, and of the radii from 0.35 to 0.95. */
  lemma EvenSlots(p: Plane, m: Month, pinned: seq<Sector>, ring: seq<nat>, l: Layout, s: Sector, a: Node)
    requires p.Valid() && Distinct(GenresOf(InRingOrder(pinned))) && IsLayout(p, m, pinned, ring, l) && s in l.sectors
    requires a in l.nodes && a.genre == s.genre
    ensures var mates := set n | n in l.nodes && n.genre == s.genre;
      InSlots(a, s, |set n | n in mates && n.theta < a.theta|, |set n | n in mates && n.rho < a.rho|, |mates|)
  {
    var ns := SectorHolds(p, m, pinned, ring, l, s);
    SameNodes(l.nodes, s.genre, ns, a);
    SlotsHeld(m, ring, s, ns, a);
  }

  // ---- Order ----

  /** All nodes together come ghosts first, then by style, then by genre. */
  lemma NodesInOrder(p: Plane, m: Month, pinned: seq<Sector>, ring: seq<nat>, l: Layout, i: nat, j: nat)
    requires p.Valid() && IsLayout(p, m, pinned, ring, l) && i < j < |l.nodes|
    ensures var a, b := l.nodes[i], l.nodes[j];
      || (a.kind == Ghost && b.kind == Style)
      || (a.kind == b.kind && (a.style < b.style || (a.style == b.style && a.genre <= b.genre)))
  {
    assert Sorting.WeakOrder(NodeLess);
    Sorting.SortedSorts(AllNodes(m, ring, FramesOf(p, ring, Members(m.parents), pinned)), NodeLess);
  }
}
