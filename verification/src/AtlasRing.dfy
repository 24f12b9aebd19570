/** The ring of a layout that has nothing pinned, in terms of its genres' affinities alone. */
module AtlasRing {
  import opened AtlasLayout
  import opened Basics
  import opened Rings
  import opened SortedSets
  import RingOrder

  /** The genre has a share under some style, or hosts a node. */
  ghost predicate Appears(m: Month, genre: nat) {
    || (exists s, e :: s in m.shares && e in s.byGenre && e.0 == genre)
    || (exists q :: q in m.parents && q.genre == genre)
  }

  lemma OwnGenres(list: seq<(nat, real)>, own: seq<nat>, genre: nat)
    requires |own| == |list| && forall i :: 0 <= i < |list| ==> own[i] == list[i].0
    ensures genre in own <==> exists e :: e in list && e.0 == genre
  {
    if genre in own {
      var i :| 0 <= i < |own| && own[i] == genre;
      assert list[i] in list;
    }
    if e :| e in list && e.0 == genre {
      var i :| 0 <= i < |list| && list[i] == e;
      assert own[i] == genre;
    }
  }

  lemma {:induction false} ShareGenresAre(shares: seq<StyleShares>, genre: nat)
    ensures genre in ShareGenres(shares) <==> exists s, e :: s in shares && e in s.byGenre && e.0 == genre
    decreases |shares|
  {
    if shares != [] {
      var own := seq(|shares[0].byGenre|, i requires 0 <= i < |shares[0].byGenre| => shares[0].byGenre[i].0);
      assert shares == [shares[0]] + shares[1..];
      ShareGenresAre(shares[1..], genre);
      OwnGenres(shares[0].byGenre, own, genre);
      assert ShareGenres(shares) == own + ShareGenres(shares[1..]);
    }
  }

  lemma HostGenres(parents: seq<Parent>, hosts: seq<nat>, genre: nat)
    requires |hosts| == |parents| && forall i :: 0 <= i < |parents| ==> hosts[i] == parents[i].genre
    ensures genre in hosts <==> exists q :: q in parents && q.genre == genre
  {
    if genre in hosts {
      var i :| 0 <= i < |hosts| && hosts[i] == genre;
      assert parents[i] in parents;
    }
    if q :| q in parents && q.genre == genre {
      var i :| 0 <= i < |parents| && parents[i] == q;
      assert hosts[i] == genre;
    }
  }

  /** The genres are those that appear. */
  lemma GenresAppear(m: Month, genre: nat)
    ensures genre in Genres(m) <==> Appears(m, genre)
  {
    var hosts := seq(|m.parents|, i requires 0 <= i < |m.parents| => m.parents[i].genre);
    SortedSetIs(ShareGenres(m.shares) + hosts);
    ShareGenresAre(m.shares, genre);
    HostGenres(m.parents, hosts, genre);
  }

  // ---- Rings of names and rings of places ----

  lemma {:induction false} NamesWeigh(m: Month, order: seq<nat>)
    requires forall i :: 0 <= i < |order| ==> order[i] < |Genres(m)|
    ensures PathWeight(ByIndex(m), order) == PathWeight(AffinityOf(m), NamesOf(Genres(m), order))
    decreases |order|
  {
    if |order| >= 2 {
      var front := order[..|order| - 1];
      NamesWeigh(m, front);
      assert NamesOf(Genres(m), order)[..|order| - 1] == NamesOf(Genres(m), front);
    }
  }

  lemma RingNamesWeigh(m: Month, order: seq<nat>)
    requires forall i :: 0 <= i < |order| ==> order[i] < |Genres(m)|
    ensures RingWeight(ByIndex(m), order) == RingWeight(AffinityOf(m), NamesOf(Genres(m), order))
  {
    NamesWeigh(m, order);
  }

  /** The ring goes around these genres, each once. */
  ghost predicate Rounds(ring: seq<nat>, genres: seq<nat>) {
    Distinct(ring) && forall g :: g in ring <==> g in genres
  }

  lemma {:induction false} PlacesOf(genres: seq<nat>, names: seq<nat>) returns (order: seq<nat>)
    requires forall g :: g in names ==> g in genres
    ensures |order| == |names| && forall i :: 0 <= i < |names| ==> order[i] < |genres| && genres[order[i]] == names[i]
    decreases |names|
  {
    if names == [] {
      order := [];
    } else {
      var last := names[|names| - 1];
      assert last in names;
      order := PlacesOf(genres, names[..|names| - 1]);
      var x: nat :| x < |genres| && genres[x] == last;
      order := order + [x];
    }
  }

  lemma PlacesAreRing(genres: seq<nat>, names: seq<nat>, order: seq<nat>)
    requires Distinct(genres) && Rounds(names, genres) && |order| == |names|
    requires forall i :: 0 <= i < |names| ==> order[i] < |genres| && genres[order[i]] == names[i]
    ensures IsRing(order, |genres|) && NamesOf(genres, order) == names
  {
    forall i, j | 0 <= i < j < |order| ensures order[i] != order[j] {
      assert names[i] != names[j];
    }
    forall x: nat ensures x in order <==> x < |genres| {
      if x < |genres| {
        assert genres[x] in names;
        var i :| 0 <= i < |names| && names[i] == genres[x];
        assert order[i] == x;
      }
    }
    RingOrder.MembersSize(order);
    RingOrder.AllSize(|genres|);
    RingOrder.AllMembers(|genres|);
    assert RingOrder.Members(order) == RingOrder.All(|genres|);
  }

  lemma OrderOf(m: Month) returns (order: seq<nat>)
    ensures order == RingOrder.TheRing(ByIndex(m), |Genres(m)|) && RingOrder.Heaviest(ByIndex(m), |Genres(m)|, order)
    ensures forall i :: 0 <= i < |order| ==> order[i] < |Genres(m)|
    ensures order != [] ==> order[0] == 0
    ensures |order| >= 3 ==> order[1] < order[|order| - 1]
  {
    order := RingOrder.TheRing(ByIndex(m), |Genres(m)|);
    ByIndexSymmetric(m);
    RingOrder.TheRingIsHeaviest(ByIndex(m), |Genres(m)|);
    forall i | 0 <= i < |order| ensures order[i] < |Genres(m)| {
      assert order[i] in order;
    }
  }

  lemma FreshMembers(m: Month, ring: seq<nat>)
    requires RingFor(m, [], ring)
    ensures Rounds(ring, Genres(m))
  {
    var order := OrderOf(m);
    GenresSorted(m);
    NamesDistinct(Genres(m), order);
  }

  lemma FreshDirection(m: Month, ring: seq<nat>)
    requires RingFor(m, [], ring)
    ensures forall g :: g in ring ==> ring[0] <= g
    ensures |ring| >= 3 ==> ring[1] < ring[|ring| - 1]
  {
    var order := OrderOf(m);
    GenresSorted(m);
    FreshMembers(m, ring);
    forall g | g in ring ensures ring[0] <= g {
      var x :| 0 <= x < |Genres(m)| && Genres(m)[x] == g;
      assert ring[0] == Genres(m)[0];
    }
  }

  lemma FreshHeaviest(m: Month, ring: seq<nat>, other: seq<nat>)
    requires RingFor(m, [], ring) && Rounds(other, Genres(m))
    ensures RingWeight(AffinityOf(m), other) <= RingWeight(AffinityOf(m), ring)
  {
    var order := OrderOf(m);
    RingNamesWeigh(m, order);
    GenresSorted(m);
    var places := PlacesOf(Genres(m), other);
    PlacesAreRing(Genres(m), other, places);
    RingNamesWeigh(m, places);
  }

  /** With nothing pinned the ring goes around the genres that appear, starts at the first by name, runs toward its
      smaller neighbour, and no ring around them has more affinity. */
  lemma FreshRing(m: Month, ring: seq<nat>)
    requires RingFor(m, [], ring)
    ensures Distinct(ring) && forall g :: g in ring <==> Appears(m, g)
    ensures forall g :: g in ring ==> ring[0] <= g
    ensures |ring| >= 3 ==> ring[1] < ring[|ring| - 1]
    ensures forall other: seq<nat> :: Distinct(other) && (forall g :: g in other <==> Appears(m, g)) ==>
      RingWeight(AffinityOf(m), other) <= RingWeight(AffinityOf(m), ring)
  {
    FreshMembers(m, ring);
    FreshDirection(m, ring);
    forall g ensures g in Genres(m) <==> Appears(m, g) {
      GenresAppear(m, g);
    }
    forall other: seq<nat> | Distinct(other) && (forall g :: g in other <==> Appears(m, g))
      ensures RingWeight(AffinityOf(m), other) <= RingWeight(AffinityOf(m), ring) {
      FreshHeaviest(m, ring, other);
    }
  }
}
