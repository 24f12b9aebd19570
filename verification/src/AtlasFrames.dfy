/** A layout's ring weights and sector frames, in terms of the month's data and the pinned sectors alone. */
module AtlasFrames {
  import opened AtlasLayout
  import opened AtlasNodes
  import opened Basics
  import Sorting

  // ---- Affinity ----

  /** The affinity of two genres is a sum over the styles, and of each style, wherever it stands, the smaller of its
      two shares; a genre has none with itself. */
  lemma {:induction false} AffinityOfStyle(before: seq<StyleShares>, s: StyleShares, after: seq<StyleShares>, g: nat, h: nat, x: real, y: real)
    requires OneEach(s.byGenre) && Lists(s.byGenre, g, x) && Lists(s.byGenre, h, y)
    ensures Affinity([], g, h) == 0.0
    ensures Affinity(before + [s] + after, g, h) == Affinity(before + after, g, h) + (if g == h then 0.0 else if x < y then x else y)
    decreases |after|
  {
    if after == [] {
      assert before + [s] + after == before + [s] && before + after == before;
      GenreShareIs(s.byGenre, g, x);
      GenreShareIs(s.byGenre, h, y);
    } else {
      var front, last := after[..|after| - 1], after[|after| - 1];
      AffinityOfStyle(before, s, front, g, h, x, y);
      assert before + [s] + after == before + [s] + front + [last];
      assert before + after == before + front + [last];
    }
  }

  // ---- Widths ----

  /** How many parent rows the genre hosts. */
  function HostedRows(parents: seq<Parent>, genre: nat): set<nat> {
    set j: nat | j < |parents| && parents[j].genre == genre
  }

  lemma {:induction false} HostedCount(parents: seq<Parent>, genre: nat)
    ensures Count(Members(parents), genre) == |HostedRows(parents, genre)|
    decreases |parents|
  {
    if parents == [] {
      assert HostedRows(parents, genre) == {};
    } else {
      var front, last := parents[..|parents| - 1], |parents| - 1;
      HostedCount(front, genre);
      if parents[last].genre == genre {
        assert HostedRows(parents, genre) == HostedRows(front, genre) + {last};
      } else {
        assert HostedRows(parents, genre) == HostedRows(front, genre);
      }
    }
  }

  predicate InProportion(p: Plane, width: real, total: real, root: real) {
    width * total == p.tau * root
  }

  /** `totals` adds up the roots of the sectors' node counts plus one, and `ws` shares the full turn in proportion. */
  ghost predicate FairWidths(p: Plane, parents: seq<Parent>, ring: seq<nat>, totals: seq<real>, ws: seq<real>) {
    && |totals| == |ring| + 1 && |ws| == |ring| && totals[0] == 0.0
    && (forall i :: 0 <= i < |ring| ==> totals[i + 1] == totals[i] + p.root(|HostedRows(parents, ring[i])| + 1))
    && (forall i :: 0 <= i < |ring| ==> InProportion(p, ws[i], totals[|ring|], p.root(|HostedRows(parents, ring[i])| + 1)))
  }

  lemma PortionIs(p: Plane, width: real, total: real, root: real)
    requires total > 0.0
    ensures InProportion(p, width, total, root) <==> width == Portion(p, total, root)
  {
  }

  lemma RawIs(p: Plane, parents: seq<Parent>, ring: seq<nat>, i: nat)
    requires i < |ring|
    ensures Raw(p, ring, Members(parents))[i] == p.root(|HostedRows(parents, ring[i])| + 1)
  {
    HostedCount(parents, ring[i]);
  }

  lemma WidthsFair(p: Plane, parents: seq<Parent>, ring: seq<nat>, totals: seq<real>, ws: seq<real>)
    requires p.Valid() && FairWidths(p, parents, ring, totals, ws)
    ensures ws == Widths(p, ring, Members(parents))
  {
    var raw := Raw(p, ring, Members(parents));
    forall i: nat | i < |ring| ensures raw[i] == p.root(|HostedRows(parents, ring[i])| + 1) {
      RawIs(p, parents, ring, i);
    }
    RunningTotal(raw, totals);
    SumPositive(raw);
    forall i | 0 <= i < |ring| ensures ws[i] == Widths(p, ring, Members(parents))[i] {
      PortionIs(p, ws[i], totals[|ring|], raw[i]);
    }
  }

  // ---- Frames ----

  lemma OrderIsWeak()
    ensures Sorting.WeakOrder((a: Sector, b: Sector) => a.order < b.order)
  {
  }

  lemma InOrderSame(pinned: seq<Sector>, t: Sector)
    ensures t in pinned <==> t in InRingOrder(pinned)
  {
    OrderIsWeak();
    Sorting.SortedSorts(pinned, (a: Sector, b: Sector) => a.order < b.order);
    assert t in pinned <==> t in multiset(pinned);
    assert t in InRingOrder(pinned) <==> t in multiset(InRingOrder(pinned));
  }

  lemma OneSector(pinned: seq<Sector>, t: Sector, u: Sector)
    requires Distinct(GenresOf(InRingOrder(pinned))) && t in pinned && u in pinned && t.genre == u.genre
    ensures t == u
  {
    var q := InRingOrder(pinned);
    InOrderSame(pinned, t);
    InOrderSame(pinned, u);
    var i: nat :| i < |q| && q[i] == t;
    var j: nat :| j < |q| && q[j] == u;
    assert GenresOf(q)[i] == GenresOf(q)[j];
  }

  lemma {:induction false} ByGenreIn(pinned: seq<Sector>, genre: nat)
    ensures ByGenre(pinned, genre) == [] <==> forall t :: t in pinned ==> t.genre != genre
    ensures ByGenre(pinned, genre) != [] ==> ByGenre(pinned, genre)[0] in pinned && ByGenre(pinned, genre)[0].genre == genre
    decreases |pinned|
  {
    if pinned != [] {
      var front, last := pinned[..|pinned| - 1], pinned[|pinned| - 1];
      assert pinned == front + [last];
      ByGenreIn(front, genre);
    }
  }

  lemma {:induction false} OneAtMost(pinned: seq<Sector>, genre: nat)
    ensures |ByGenre(pinned, genre)| <= 1
    decreases |pinned|
  {
    if pinned != [] {
      OneAtMost(pinned[..|pinned| - 1], genre);
    }
  }

  lemma ByGenreIs(pinned: seq<Sector>, t: Sector)
    requires Distinct(GenresOf(InRingOrder(pinned))) && t in pinned
    ensures ByGenre(pinned, t.genre) == [t]
  {
    ByGenreIn(pinned, t.genre);
    OneSector(pinned, t, ByGenre(pinned, t.genre)[0]);
    OneAtMost(pinned, t.genre);
  }

  /** Frames that are kept are the pinned ones. */
  lemma KeptFrames(p: Plane, m: Month, pinned: seq<Sector>, ring: seq<nat>, l: Layout, s: Sector, t: Sector)
    requires p.Valid() && Distinct(GenresOf(InRingOrder(pinned))) && IsLayout(p, m, pinned, ring, l) && l.framesPinned
    requires s in l.sectors && t in pinned && t.genre == s.genre
    ensures s.start == t.start && s.end == t.end
  {
    SectorAt(p, m, pinned, ring, l, s);
    RingIsPinned(ring, pinned);
    ByGenreIs(pinned, t);
  }

  lemma FirstStartIs(ring: seq<nat>, pinned: seq<Sector>)
    requires ring != [] && Distinct(GenresOf(InRingOrder(pinned)))
    ensures forall t :: t in pinned && t.genre == ring[0] ==> FirstStart(ring, pinned) == t.start
    ensures (forall t :: t in pinned ==> t.genre != ring[0]) ==> FirstStart(ring, pinned) == 0.0
  {
    ByGenreIn(pinned, ring[0]);
    forall t | t in pinned && t.genre == ring[0] ensures FirstStart(ring, pinned) == t.start {
      ByGenreIs(pinned, t);
    }
  }

  /** The sectors stand around the circle one after another, each as wide as its fair share. */
  ghost predicate InTurn(sectors: seq<Sector>, start: real, ws: seq<real>) {
    && |sectors| == |ws| && (sectors != [] ==> sectors[0].start == start)
    && (forall i :: 0 <= i < |sectors| - 1 ==> sectors[i].end == sectors[i + 1].start)
    && (forall i :: 0 <= i < |sectors| ==> sectors[i].end - sectors[i].start == ws[i])
  }

  lemma SectorsInTurn(ring: seq<nat>, ws: seq<real>, start: real)
    requires ring != [] && |ws| == |ring|
    ensures InTurn(SectorsOf(ring, LaidOut(ws, start)), start, ws)
  {
    FramesAbut(ws, start);
  }

  /** Other frames share the turn anew, from the start pinned for the ring's first genre, or from zero. */
  lemma FreshFrames(p: Plane, m: Month, pinned: seq<Sector>, ring: seq<nat>, l: Layout, totals: seq<real>, ws: seq<real>)
    requires p.Valid() && Distinct(GenresOf(InRingOrder(pinned))) && IsLayout(p, m, pinned, ring, l) && !l.framesPinned
    requires ring != [] && FairWidths(p, m.parents, ring, totals, ws)
    ensures l.sectors != [] && InTurn(l.sectors, l.sectors[0].start, ws)
    ensures forall t :: t in pinned && t.genre == ring[0] ==> l.sectors[0].start == t.start
    ensures (forall t :: t in pinned ==> t.genre != ring[0]) ==> l.sectors[0].start == 0.0
  {
    WidthsFair(p, m.parents, ring, totals, ws);
    FirstStartIs(ring, pinned);
    SectorsInTurn(ring, ws, FirstStart(ring, pinned));
  }

  // ---- When frames are kept ----

  /** The pinned sectors in ring order are this ring's, with no gap around the full turn, and no width has drifted by
      more than a tenth. */
  ghost predicate StillFits(p: Plane, ring: seq<nat>, sorted: seq<Sector>, ws: seq<real>) {
    && |sorted| == |ring| == |ws| > 0
    && (forall i :: 0 <= i < |ring| ==> sorted[i].genre == ring[i])
    && (forall i :: 0 <= i < |ring| - 1 ==> -0.000000001 <= sorted[i].end - sorted[i + 1].start <= 0.000000001)
    && -0.000000001 <= sorted[|ring| - 1].end - sorted[0].start - p.tau <= 0.000000001
    && (forall i :: 0 <= i < |ring| ==> -0.10 * ws[i] <= sorted[i].end - sorted[i].start - ws[i] <= 0.10 * ws[i])
  }

  lemma GenresAre(sorted: seq<Sector>, ring: seq<nat>)
    ensures GenresOf(sorted) == ring <==> |sorted| == |ring| && forall i :: 0 <= i < |ring| ==> sorted[i].genre == ring[i]
  {
  }

  lemma PinnedFramesAre(ring: seq<nat>, pinned: seq<Sector>, i: nat)
    requires Distinct(GenresOf(InRingOrder(pinned))) && GenresOf(InRingOrder(pinned)) == ring && i < |ring|
    ensures ByGenre(pinned, ring[i]) == [InRingOrder(pinned)[i]]
  {
    var t := InRingOrder(pinned)[i];
    assert GenresOf(InRingOrder(pinned))[i] == t.genre;
    InOrderSame(pinned, t);
    ByGenreIs(pinned, t);
  }

  lemma FitIs(p: Plane, ring: seq<nat>, sorted: seq<Sector>, frames: seq<Frame>, ws: seq<real>)
    requires GenresOf(sorted) == ring != [] && |frames| == |ring| == |ws|
    requires forall i :: 0 <= i < |ring| ==> frames[i] == Frame(sorted[i].start, sorted[i].end)
    ensures Contiguous(p, frames) && WithinTolerance(frames, ws) <==> StillFits(p, ring, sorted, ws)
  {
    GenresAre(sorted, ring);
  }

  lemma KeptExactly(p: Plane, ring: seq<nat>, members: map<nat, nat>, pinned: seq<Sector>, ws: seq<real>)
    requires p.Valid() && Distinct(GenresOf(InRingOrder(pinned))) && ws == Widths(p, ring, members)
    ensures Kept(p, ring, members, pinned) <==> StillFits(p, ring, InRingOrder(pinned), ws)
  {
    var sorted := InRingOrder(pinned);
    GenresAre(sorted, ring);
    if ring != [] && GenresOf(sorted) == ring {
      RingIsPinned(ring, pinned);
      forall i | 0 <= i < |ring| ensures PinnedFrames(ring, pinned)[i] == Frame(sorted[i].start, sorted[i].end) {
        PinnedFramesAre(ring, pinned, i);
      }
      FitIs(p, ring, sorted, PinnedFrames(ring, pinned), ws);
    }
  }

  /** Frames are kept exactly when the pinned sectors still fit. */
  lemma FramesPinnedExactly(p: Plane, m: Month, pinned: seq<Sector>, ring: seq<nat>, l: Layout, totals: seq<real>, ws: seq<real>,
                            places: seq<nat>, sorted: seq<Sector>)
    requires p.Valid() && Distinct(GenresOf(InRingOrder(pinned))) && IsLayout(p, m, pinned, ring, l)
    requires FairWidths(p, m.parents, ring, totals, ws)
    requires Sorting.IsArgsort(pinned, (a: Sector, b: Sector) => a.order < b.order, places) && sorted == Sorting.Take(pinned, places)
    ensures l.framesPinned <==> StillFits(p, ring, sorted, ws)
  {
    OrderIsWeak();
    Sorting.ArgsortUnique(pinned, (a: Sector, b: Sector) => a.order < b.order, places);
    WidthsFair(p, m.parents, ring, totals, ws);
    KeptExactly(p, ring, Members(m.parents), pinned, ws);
  }
}
