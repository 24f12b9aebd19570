/** `sector_frames` and `build_layout`: sectors around the circle and nodes inside them, in polar coordinates.
    `root` is the square root and `tau` the full turn; names are places in name order. */
module AtlasLayout {
  import opened Basics
  import opened Rings
  import PinnedRing
  import RingOrder
  import opened SortedSets
  import Sorting

  const FRAME_TOLERANCE := 0.10
  const STYLE_RADIUS_MIN := 0.35
  const STYLE_RADIUS_SPAN := 0.60
  const SECTOR_ANGLE_MARGIN := 0.10
  const CONTIGUITY_EPSILON := 0.000000001

  datatype Plane = Plane(root: nat -> real, tau: real)
  {
    ghost predicate Valid() {
      tau > 0.0 && forall m: nat {:trigger root(m)} :: m >= 1 ==> root(m) > 0.0
    }
  }

  datatype Frame = Frame(start: real, end: real)

  datatype Sector = Sector(genre: nat, order: nat, start: real, end: real, theta: real)

  function Abs(x: real): real { if x < 0.0 then -x else x }

  // ---- Widths ----

  /** A genre's member count, none if it hosts nothing. */
  function Count(members: map<nat, nat>, genre: nat): nat {
    if genre in members then members[genre] else 0
  }

  /** The widths' raw values, one per ring genre: the root of its member count plus one. */
  function Raw(p: Plane, ring: seq<nat>, members: map<nat, nat>): seq<real> {
    seq(|ring|, i requires 0 <= i < |ring| => p.root(Count(members, ring[i]) + 1))
  }

  function Sum(xs: seq<real>): real {
    if xs == [] then 0.0 else Sum(xs[..|xs| - 1]) + xs[|xs| - 1]
  }

  lemma {:induction false} SumPositive(xs: seq<real>)
    requires forall i :: 0 <= i < |xs| ==> xs[i] > 0.0
    ensures Sum(xs) >= 0.0 && (xs != [] ==> Sum(xs) > 0.0)
    decreases |xs|
  {
    if xs != [] {
      SumPositive(xs[..|xs| - 1]);
    }
  }

  /** The part of the full turn that `x` of `total` gets. */
  function Portion(p: Plane, total: real, x: real): real {
    if total > 0.0 then p.tau * x / total else 0.0
  }

  /** `_square_root_widths`: the full turn shared out in proportion. */
  function Widths(p: Plane, ring: seq<nat>, members: map<nat, nat>): (ws: seq<real>)
    requires p.Valid()
    ensures |ws| == |ring|
  {
    var raw := Raw(p, ring, members);
    SumPositive(raw);
    seq(|ring|, i requires 0 <= i < |ring| => Portion(p, Sum(raw), raw[i]))
  }

  lemma QuotientPositive(x: real, t: real)
    requires x > 0.0 && t > 0.0
    ensures x / t > 0.0
  {
  }

  lemma QuotientSum(x: real, y: real, t: real)
    requires t > 0.0
    ensures x / t + y / t == (x + y) / t
  {
  }

  lemma Cancel(x: real, t: real)
    requires t > 0.0
    ensures x * t / t == x
  {
  }

  lemma PortionsAdd(p: Plane, total: real, x: real, y: real)
    requires total > 0.0
    ensures Portion(p, total, x) + Portion(p, total, y) == Portion(p, total, x + y)
  {
    assert p.tau * x + p.tau * y == p.tau * (x + y);
    QuotientSum(p.tau * x, p.tau * y, total);
  }

  lemma PortionOfNothing(p: Plane, total: real)
    requires total > 0.0
    ensures Portion(p, total, 0.0) == 0.0
  {
    assert p.tau * 0.0 == 0.0;
  }

  /** Running totals that grow by each value in turn end at the sum of the values. */
  lemma {:induction false} RunningTotal(xs: seq<real>, totals: seq<real>)
    requires |totals| == |xs| + 1 && totals[0] == 0.0
    requires forall i :: 0 <= i < |xs| ==> totals[i + 1] == totals[i] + xs[i]
    ensures Sum(xs) == totals[|xs|]
    decreases |xs|
  {
    if xs != [] {
      RunningTotal(xs[..|xs| - 1], totals[..|xs|]);
    }
  }

  lemma NextPortion(p: Plane, total: real, raw: seq<real>, i: nat)
    requires total > 0.0 && i < |raw|
    ensures Portion(p, total, Sum(raw[..i + 1])) == Portion(p, total, Sum(raw[..i])) + Portion(p, total, raw[i])
  {
    assert raw[..i + 1][..i] == raw[..i];
    PortionsAdd(p, total, Sum(raw[..i]), raw[i]);
  }

  lemma WholePortion(p: Plane, total: real)
    requires total > 0.0
    ensures Portion(p, total, total) == p.tau
  {
    Cancel(p.tau, total);
  }

  function PortionsSoFar(p: Plane, total: real, raw: seq<real>): (r: seq<real>)
    ensures |r| == |raw| + 1
  {
    seq(|raw| + 1, i requires 0 <= i <= |raw| => Portion(p, total, Sum(raw[..i])))
  }

  lemma TurnShared(p: Plane, raw: seq<real>, ws: seq<real>)
    requires Sum(raw) > 0.0 && |raw| == |ws|
    requires forall i :: 0 <= i < |raw| ==> ws[i] == Portion(p, Sum(raw), raw[i])
    ensures Sum(ws) == p.tau
  {
    var total := Sum(raw);
    var totals := PortionsSoFar(p, total, raw);
    forall i | 0 <= i < |ws| ensures totals[i + 1] == totals[i] + ws[i] {
      NextPortion(p, total, raw, i);
    }
    PortionOfNothing(p, total);
    assert raw[..0] == [] && raw[..|raw|] == raw;
    RunningTotal(ws, totals);
    WholePortion(p, total);
  }

  lemma WidthPositive(p: Plane, raw: real, total: real)
    requires p.Valid() && raw > 0.0 && total > 0.0
    ensures Portion(p, total, raw) > 0.0
  {
    QuotientPositive(p.tau * raw, total);
  }

  /** Every width is positive and together they make the full turn. */
  lemma WidthsShareTheTurn(p: Plane, ring: seq<nat>, members: map<nat, nat>)
    requires p.Valid()
    ensures forall i :: 0 <= i < |ring| ==> Widths(p, ring, members)[i] > 0.0
    ensures ring != [] ==> Sum(Widths(p, ring, members)) == p.tau
  {
    var raw := Raw(p, ring, members);
    SumPositive(raw);
    forall i | 0 <= i < |ring| ensures Widths(p, ring, members)[i] > 0.0 {
      WidthPositive(p, raw[i], Sum(raw));
    }
    if ring != [] {
      TurnShared(p, raw, Widths(p, ring, members));
    }
  }

  // ---- Frames ----

  function ByGenre(pinned: seq<Sector>, genre: nat): seq<Sector> {
    if pinned == [] then []
    else if pinned[|pinned| - 1].genre == genre then [pinned[|pinned| - 1]]
    else ByGenre(pinned[..|pinned| - 1], genre)
  }

  function InRingOrder(pinned: seq<Sector>): seq<Sector> {
    Sorting.Sorted(pinned, (a: Sector, b: Sector) => a.order < b.order)
  }

  function GenresOf(sectors: seq<Sector>): (gs: seq<nat>)
    ensures |gs| == |sectors|
  {
    seq(|sectors|, i requires 0 <= i < |sectors| => sectors[i].genre)
  }

  /** The pinned frame of each ring genre. */
  function PinnedFrames(ring: seq<nat>, pinned: seq<Sector>): (fs: seq<Frame>)
    requires forall i :: 0 <= i < |ring| ==> ByGenre(pinned, ring[i]) != []
    ensures |fs| == |ring|
  {
    seq(|ring|, i requires 0 <= i < |ring| => Frame(ByGenre(pinned, ring[i])[0].start, ByGenre(pinned, ring[i])[0].end))
  }

  /** `_is_contiguous_ring`. */
  predicate Contiguous(p: Plane, frames: seq<Frame>)
    requires frames != []
  {
    && (forall i :: 0 <= i < |frames| - 1 ==> Abs(frames[i].end - frames[i + 1].start) <= CONTIGUITY_EPSILON)
    && Abs(frames[|frames| - 1].end - frames[0].start - p.tau) <= CONTIGUITY_EPSILON
  }

  predicate WithinTolerance(frames: seq<Frame>, widths: seq<real>)
    requires |frames| == |widths|
  {
    forall i :: 0 <= i < |frames| ==> Abs(frames[i].end - frames[i].start - widths[i]) <= FRAME_TOLERANCE * widths[i]
  }

  lemma {:induction false} ByGenreFound(pinned: seq<Sector>, i: nat)
    requires i < |pinned|
    ensures ByGenre(pinned, pinned[i].genre) != []
    ensures Distinct(GenresOf(pinned)) ==> ByGenre(pinned, pinned[i].genre)[0] == pinned[i]
    decreases |pinned|
  {
    var last := |pinned| - 1;
    if pinned[last].genre != pinned[i].genre {
      assert GenresOf(pinned[..last]) == GenresOf(pinned)[..last];
      ByGenreFound(pinned[..last], i);
    } else if i < last {
      assert GenresOf(pinned)[i] == GenresOf(pinned)[last];
    }
  }

  lemma RingIsPinned(ring: seq<nat>, pinned: seq<Sector>)
    requires GenresOf(InRingOrder(pinned)) == ring
    ensures forall i :: 0 <= i < |ring| ==> ByGenre(pinned, ring[i]) != []
  {
    var less := (a: Sector, b: Sector) => a.order < b.order;
    assert Sorting.WeakOrder(less);
    Sorting.SortedSorts(pinned, less);
    forall i | 0 <= i < |ring| ensures ByGenre(pinned, ring[i]) != [] {
      assert InRingOrder(pinned)[i] in multiset(InRingOrder(pinned));
      assert InRingOrder(pinned)[i] in pinned;
      var j :| 0 <= j < |pinned| && pinned[j] == InRingOrder(pinned)[i];
      ByGenreFound(pinned, j);
    }
  }

  /** Pinned frames are kept when they cover exactly this ring in this order, with no gap, and no width has
      drifted beyond the tolerance. */
  predicate Kept(p: Plane, ring: seq<nat>, members: map<nat, nat>, pinned: seq<Sector>)
    requires p.Valid()
  {
    && ring != []
    && GenresOf(InRingOrder(pinned)) == ring
    && (RingIsPinned(ring, pinned);
        Contiguous(p, PinnedFrames(ring, pinned)) && WithinTolerance(PinnedFrames(ring, pinned), Widths(p, ring, members)))
  }

  function FirstStart(ring: seq<nat>, pinned: seq<Sector>): real {
    if ring != [] && ByGenre(pinned, ring[0]) != [] then ByGenre(pinned, ring[0])[0].start else 0.0
  }

  /** Frames of the given widths laid end to end. */
  function LaidOut(widths: seq<real>, start: real): (fs: seq<Frame>)
    ensures |fs| == |widths|
  {
    seq(|widths|, i requires 0 <= i < |widths| => Frame(start + Sum(widths[..i]), start + Sum(widths[..i]) + widths[i]))
  }

  function FramesOf(p: Plane, ring: seq<nat>, members: map<nat, nat>, pinned: seq<Sector>): (fs: seq<Frame>)
    requires p.Valid()
    ensures |fs| == |ring|
  {
    if Kept(p, ring, members, pinned) then
      RingIsPinned(ring, pinned);
      PinnedFrames(ring, pinned)
    else LaidOut(Widths(p, ring, members), FirstStart(ring, pinned))
  }

  /** `sector_frames`. */
  method SectorFrames(p: Plane, ring: seq<nat>, members: map<nat, nat>, pinned: seq<Sector>) returns (frames: seq<Frame>, kept: bool)
    requires p.Valid()
    ensures frames == FramesOf(p, ring, members, pinned) && kept == Kept(p, ring, members, pinned)
  {
    var widths := Widths(p, ring, members);
    kept := Kept(p, ring, members, pinned);
    if kept {
      RingIsPinned(ring, pinned);
      return PinnedFrames(ring, pinned), true;
    }
    var first := FirstStart(ring, pinned);
    var start := first;
    frames := [];
    for i := 0 to |ring|
      invariant |frames| == i && start == first + Sum(widths[..i])
      invariant forall j :: 0 <= j < i ==> frames[j] == LaidOut(widths, first)[j]
    {
      assert widths[..i + 1][..i] == widths[..i];
      frames := frames + [Frame(start, start + widths[i])];
      start := start + widths[i];
    }
  }

  /** Laid end to end, frames abut exactly, close the full turn exactly, and have exactly their widths. */
  lemma FramesAbut(ws: seq<real>, start: real)
    requires ws != []
    ensures var fs := LaidOut(ws, start);
      && (forall i :: 0 <= i < |fs| ==> fs[i].end - fs[i].start == ws[i])
      && (forall i :: 0 <= i < |fs| - 1 ==> fs[i].end == fs[i + 1].start)
      && fs[|fs| - 1].end - fs[0].start == Sum(ws)
      && fs[0].start == start
  {
    var fs := LaidOut(ws, start);
    forall i | 0 <= i < |fs| - 1 ensures fs[i].end == fs[i + 1].start {
      assert ws[..i + 1][..i] == ws[..i];
    }
    assert ws[..|ws|] == ws && ws[..0] == [];
    assert ws[..|ws| - 1] + [ws[|ws| - 1]] == ws;
  }

  lemma LaidOutAbut(p: Plane, ring: seq<nat>, members: map<nat, nat>, start: real)
    requires p.Valid() && ring != []
    ensures var fs := LaidOut(Widths(p, ring, members), start);
      && (forall i :: 0 <= i < |fs| ==> fs[i].end - fs[i].start == Widths(p, ring, members)[i])
      && (forall i :: 0 <= i < |fs| - 1 ==> fs[i].end == fs[i + 1].start)
      && fs[|fs| - 1].end - fs[0].start == p.tau
      && fs[0].start == start
  {
    WidthsShareTheTurn(p, ring, members);
    FramesAbut(Widths(p, ring, members), start);
  }

  /** A frame within a tenth of a positive width is not empty. */
  lemma InToleranceOpen(frames: seq<Frame>, widths: seq<real>)
    requires |frames| == |widths| && WithinTolerance(frames, widths) && forall i :: 0 <= i < |widths| ==> widths[i] > 0.0
    ensures forall i :: 0 <= i < |frames| ==> frames[i].start < frames[i].end
  {
  }

  lemma ExactIsClose(p: Plane, frames: seq<Frame>, widths: seq<real>)
    requires frames != [] && |frames| == |widths| && forall i :: 0 <= i < |widths| ==> widths[i] > 0.0
    requires forall i :: 0 <= i < |frames| ==> frames[i].end - frames[i].start == widths[i]
    requires forall i :: 0 <= i < |frames| - 1 ==> frames[i].end == frames[i + 1].start
    requires frames[|frames| - 1].end - frames[0].start == p.tau
    ensures Contiguous(p, frames) && WithinTolerance(frames, widths)
    ensures forall i :: 0 <= i < |frames| ==> frames[i].start < frames[i].end
  {
  }

  /** In all cases: frames abut around a full turn, to the code's epsilon when kept, and each is within a
      tenth of its square-root width. */
  lemma FramesSound(p: Plane, ring: seq<nat>, members: map<nat, nat>, pinned: seq<Sector>)
    requires p.Valid() && ring != []
    ensures Contiguous(p, FramesOf(p, ring, members, pinned))
    ensures WithinTolerance(FramesOf(p, ring, members, pinned), Widths(p, ring, members))
    ensures forall i :: 0 <= i < |ring| ==> FramesOf(p, ring, members, pinned)[i].start < FramesOf(p, ring, members, pinned)[i].end
  {
    WidthsShareTheTurn(p, ring, members);
    if Kept(p, ring, members, pinned) {
      RingIsPinned(ring, pinned);
      InToleranceOpen(PinnedFrames(ring, pinned), Widths(p, ring, members));
    } else {
      LaidOutAbut(p, ring, members, FirstStart(ring, pinned));
      ExactIsClose(p, LaidOut(Widths(p, ring, members), FirstStart(ring, pinned)), Widths(p, ring, members));
    }
  }

  function SectorsOf(ring: seq<nat>, frames: seq<Frame>): (s: seq<Sector>)
    requires |ring| == |frames|
    ensures |s| == |ring|
  {
    seq(|ring|, i requires 0 <= i < |ring| => Sector(ring[i], i, frames[i].start, frames[i].end, (frames[i].start + frames[i].end) / 2.0))
  }

  lemma SectorsInOrder(ring: seq<nat>, frames: seq<Frame>)
    requires |ring| == |frames|
    ensures InRingOrder(SectorsOf(ring, frames)) == SectorsOf(ring, frames)
    ensures GenresOf(SectorsOf(ring, frames)) == ring
  {
    var less := (a: Sector, b: Sector) => a.order < b.order;
    assert Sorting.WeakOrder(less);
    Sorting.SortedUnchanged(SectorsOf(ring, frames), less);
  }

  /** Pinning the resulting sectors keeps their frames: the frames are a fixed point. */
  lemma FramesFixed(p: Plane, ring: seq<nat>, members: map<nat, nat>, pinned: seq<Sector>)
    requires p.Valid() && ring != [] && Distinct(ring)
    ensures var frames := FramesOf(p, ring, members, pinned);
      Kept(p, ring, members, SectorsOf(ring, frames)) && FramesOf(p, ring, members, SectorsOf(ring, frames)) == frames
  {
    var frames := FramesOf(p, ring, members, pinned);
    var sectors := SectorsOf(ring, frames);
    FramesSound(p, ring, members, pinned);
    SectorsInOrder(ring, frames);
    RingIsPinned(ring, sectors);
    forall i | 0 <= i < |ring| ensures PinnedFrames(ring, sectors)[i] == frames[i] {
      ByGenreFound(sectors, i);
    }
    assert PinnedFrames(ring, sectors) == frames;
  }

  // ---- Placement ----

  datatype Kind = Ghost | Style

  datatype Parent = Parent(style: nat, genre: nat, dominant: bool)

  /** One drawn copy of a style: its angle and its distance from the centre. */
  datatype Node = Node(kind: Kind, style: nat, genre: nat, theta: real, rho: real)

  /** A sort key: a number or plus infinity, then the style. */
  datatype Number = Finite(value: real) | Infinite
  datatype Key = Key(number: Number, style: nat)

  predicate KeyLess(a: Key, b: Key) {
    match (a.number, b.number)
    case (Finite(x), Finite(y)) => x < y || (x == y && a.style < b.style)
    case (Finite(_), Infinite) => true
    case (Infinite, Finite(_)) => false
    case (Infinite, Infinite) => a.style < b.style
  }

  lemma KeyLessIsWeakOrder()
    ensures Sorting.WeakOrder(KeyLess)
  {
  }

  /** How many keys come before key i. */
  ghost function RankOf(keys: seq<Key>, i: nat): nat
    requires i < |keys|
  {
    |set j: nat | j < |keys| && Sorting.Earlier(keys, KeyLess, j, i)|
  }

  function Slot(rank: nat, n: nat): real
    requires n > 0
  {
    (rank as real + 0.5) / n as real
  }

  function PlaceOf(order: seq<nat>, x: nat): (r: nat)
    requires x in order
    ensures r < |order| && order[r] == x
  {
    if order[0] == x then 0 else 1 + PlaceOf(order[1..], x)
  }

  /** `_ranks`, read off the sorting permutation. */
  function Ranks(keys: seq<Key>): (r: seq<real>)
    ensures |r| == |keys|
  {
    var order := Sorting.Argsort(keys, KeyLess);
    seq(|keys|, i requires 0 <= i < |keys| => Slot(PlaceOf(order, i), |keys|))
  }

  lemma SlotInside(rank: nat, n: nat)
    requires rank < n
    ensures 0.0 < Slot(rank, n) < 1.0
  {
    QuotientPositive(rank as real + 0.5, n as real);
    QuotientPositive(n as real - (rank as real + 0.5), n as real);
    QuotientSum(rank as real + 0.5, n as real - (rank as real + 0.5), n as real);
    Cancel(1.0, n as real);
  }

  /** Each key's rank is the middle of its slot in [0, 1): the number of keys before it, and a half. */
  lemma RanksAre(keys: seq<Key>, i: nat)
    requires i < |keys|
    ensures Ranks(keys)[i] == Slot(RankOf(keys, i), |keys|) && 0.0 < Ranks(keys)[i] < 1.0
  {
    KeyLessIsWeakOrder();
    Sorting.ArgsortSorts(keys, KeyLess);
    var order := Sorting.Argsort(keys, KeyLess);
    var place := PlaceOf(order, i);
    Sorting.RankInOrder(keys, KeyLess, order, place);
    SlotInside(place, |keys|);
  }

  lemma OrderDistinct(keys: seq<Key>, order: seq<nat>)
    requires Sorting.WeakOrder(KeyLess) && Sorting.IsArgsort(keys, KeyLess, order)
    ensures forall r, q :: 0 <= r < q < |order| ==> order[r] != order[q]
  {
    forall r, q | 0 <= r < q < |order| ensures order[r] != order[q] {
      assert Sorting.Earlier(keys, KeyLess, order[r], order[q]);
    }
  }

  /** `_ranks`: fill the slots in sorted order. */
  method RanksInOrder(keys: seq<Key>) returns (out: seq<real>)
    ensures out == Ranks(keys)
  {
    KeyLessIsWeakOrder();
    Sorting.ArgsortSorts(keys, KeyLess);
    var order := Sorting.Argsort(keys, KeyLess);
    OrderDistinct(keys, order);
    out := seq(|keys|, _ => 0.0);
    for rank := 0 to |order|
      invariant |out| == |keys|
      invariant forall r :: 0 <= r < rank ==> out[order[r]] == Slot(r, |keys|)
    {
      out := out[order[rank] := Slot(rank, |keys|)];
    }
    forall i | 0 <= i < |keys| ensures out[i] == Ranks(keys)[i] {
      assert i in order;
      assert order[PlaceOf(order, i)] == i;
    }
  }

  /** The month's data: each style's genre shares, its parents, and its emergence year if it has one. */
  datatype Month = Month(shares: seq<StyleShares>, parents: seq<Parent>, emergence: map<nat, int>)
  datatype StyleShares = StyleShares(style: nat, byGenre: seq<(nat, real)>)

  function GenreShare(list: seq<(nat, real)>, genre: nat): real {
    if list == [] then 0.0 else if list[0].0 == genre then list[0].1 else GenreShare(list[1..], genre)
  }

  function Share(shares: seq<StyleShares>, style: nat, genre: nat): real {
    if shares == [] then 0.0
    else if shares[0].style == style then GenreShare(shares[0].byGenre, genre)
    else Share(shares[1..], style, genre)
  }

  function Min(a: real, b: real): real { if a < b then a else b }

  /** `genre_affinity`: the sum over styles of the smaller share; nothing on the diagonal. */
  function Affinity(shares: seq<StyleShares>, a: nat, b: nat): real {
    if a == b || shares == [] then 0.0
    else Affinity(shares[..|shares| - 1], a, b) + Min(GenreShare(shares[|shares| - 1].byGenre, a), GenreShare(shares[|shares| - 1].byGenre, b))
  }

  lemma {:induction false} AffinitySymmetric(shares: seq<StyleShares>, a: nat, b: nat)
    ensures Affinity(shares, a, b) == Affinity(shares, b, a)
    decreases |shares|
  {
    if shares != [] {
      AffinitySymmetric(shares[..|shares| - 1], a, b);
    }
  }

  /** The parents drawn in `genre`'s sector. */
  function Hosted(parents: seq<Parent>, genre: nat): (h: seq<Parent>)
    ensures forall q :: q in h <==> q in parents && q.genre == genre
  {
    if parents == [] then []
    else
      var front, last := parents[..|parents| - 1], parents[|parents| - 1];
      assert parents == front + [last];
      Hosted(front, genre) + (if last.genre == genre then [last] else [])
  }

  function Members(parents: seq<Parent>): map<nat, nat> {
    if parents == [] then map[]
    else
      var before, host := Members(parents[..|parents| - 1]), parents[|parents| - 1].genre;
      before[host := Count(before, host) + 1]
  }

  /** The running count ends with the number of nodes each sector hosts. */
  lemma {:induction false} MembersCount(parents: seq<Parent>, genre: nat)
    ensures Count(Members(parents), genre) == |Hosted(parents, genre)|
    decreases |parents|
  {
    if parents != [] {
      MembersCount(parents[..|parents| - 1], genre);
    }
  }

  function Following(ring: seq<nat>, i: nat): nat
    requires i < |ring|
  {
    ring[(i + 1) % |ring|]
  }

  function Preceding(ring: seq<nat>, i: nat): nat
    requires i < |ring|
  {
    ring[(i + |ring| - 1) % |ring|]
  }

  /** A node leans toward the following genre by its share of it less its share of the preceding one. */
  function LeanKeys(m: Month, ring: seq<nat>, i: nat): (ks: seq<Key>)
    requires i < |ring|
    ensures |ks| == |Hosted(m.parents, ring[i])|
  {
    var hosted := Hosted(m.parents, ring[i]);
    seq(|hosted|, j requires 0 <= j < |hosted| =>
      Key(Finite(Share(m.shares, hosted[j].style, Following(ring, i)) - Share(m.shares, hosted[j].style, Preceding(ring, i))), hosted[j].style))
  }

  /** Dated styles rank by emergence year, the others after them all. */
  function AgeKeys(m: Month, ring: seq<nat>, i: nat): (ks: seq<Key>)
    requires i < |ring|
    ensures |ks| == |Hosted(m.parents, ring[i])|
  {
    var hosted := Hosted(m.parents, ring[i]);
    seq(|hosted|, j requires 0 <= j < |hosted| =>
      Key(if hosted[j].style in m.emergence then Finite(m.emergence[hosted[j].style] as real) else Infinite, hosted[j].style))
  }

  function Angle(start: real, width: real, u: real): real {
    start + width * (SECTOR_ANGLE_MARGIN + (1.0 - 2.0 * SECTOR_ANGLE_MARGIN) * u)
  }

  function Radius(v: real): real {
    STYLE_RADIUS_MIN + STYLE_RADIUS_SPAN * v
  }

  function Place(parent: Parent, frame: Frame, u: real, v: real): Node {
    Node(if parent.dominant then Style else Ghost, parent.style, parent.genre,
         Angle(frame.start, frame.end - frame.start, u), Radius(v))
  }

  /** The nodes of the i-th sector. */
  function SectorNodes(m: Month, ring: seq<nat>, frames: seq<Frame>, i: nat): (ns: seq<Node>)
    requires i < |ring| == |frames|
    ensures |ns| == |Hosted(m.parents, ring[i])|
  {
    var hosted, lean, age := Hosted(m.parents, ring[i]), Ranks(LeanKeys(m, ring, i)), Ranks(AgeKeys(m, ring, i));
    seq(|hosted|, j requires 0 <= j < |hosted| => Place(hosted[j], frames[i], lean[j], age[j]))
  }

  function Joined(lists: seq<seq<Node>>): seq<Node> {
    if lists == [] then [] else Joined(lists[..|lists| - 1]) + lists[|lists| - 1]
  }

  function NodeLists(m: Month, ring: seq<nat>, frames: seq<Frame>): (r: seq<seq<Node>>)
    requires |ring| == |frames|
    ensures |r| == |ring|
  {
    seq(|ring|, i requires 0 <= i < |ring| => SectorNodes(m, ring, frames, i))
  }

  function AllNodes(m: Month, ring: seq<nat>, frames: seq<Frame>): seq<Node>
    requires |ring| == |frames|
  {
    Joined(NodeLists(m, ring, frames))
  }

  /** The node lies strictly within the middle 80% of its frame, at radius 0.35 to 0.95. */
  predicate Inside(node: Node, frame: Frame) {
    var width := frame.end - frame.start;
    && frame.start + SECTOR_ANGLE_MARGIN * width < node.theta < frame.end - SECTOR_ANGLE_MARGIN * width
    && STYLE_RADIUS_MIN < node.rho < STYLE_RADIUS_MIN + STYLE_RADIUS_SPAN
  }

  lemma Part(w: real, u: real)
    requires w > 0.0 && 0.0 < u < 1.0
    ensures 0.0 < w * u < w
  {
  }

  lemma Spread(w: real, m: real, u: real)
    ensures w * (m + (1.0 - 2.0 * m) * u) == m * w + (1.0 - 2.0 * m) * (w * u)
  {
  }

  lemma AngleInside(start: real, width: real, u: real)
    requires width > 0.0 && 0.0 < u < 1.0
    ensures start + SECTOR_ANGLE_MARGIN * width < Angle(start, width, u) < start + width - SECTOR_ANGLE_MARGIN * width
  {
    Spread(width, SECTOR_ANGLE_MARGIN, u);
    Part(width, u);
  }

  lemma PlacedInside(parent: Parent, frame: Frame, u: real, v: real)
    requires frame.start < frame.end && 0.0 < u < 1.0 && 0.0 < v < 1.0
    ensures Inside(Place(parent, frame, u, v), frame)
  {
    AngleInside(frame.start, frame.end - frame.start, u);
    assert STYLE_RADIUS_MIN < Radius(v) < STYLE_RADIUS_MIN + STYLE_RADIUS_SPAN;
  }

  /** Every node of a sector lies inside it, each ranked among its own sector's nodes. */
  lemma SectorNodesInside(p: Plane, m: Month, ring: seq<nat>, pinned: seq<Sector>, i: nat, j: nat)
    requires p.Valid() && i < |ring| && j < |Hosted(m.parents, ring[i])|
    ensures var frames := FramesOf(p, ring, Members(m.parents), pinned);
      var node := SectorNodes(m, ring, frames, i)[j];
      && Inside(node, frames[i]) && node.genre == ring[i]
      && (node.kind == Style <==> Hosted(m.parents, ring[i])[j].dominant) && node.style == Hosted(m.parents, ring[i])[j].style
  {
    var frames := FramesOf(p, ring, Members(m.parents), pinned);
    FramesSound(p, ring, Members(m.parents), pinned);
    RanksAre(LeanKeys(m, ring, i), j);
    RanksAre(AgeKeys(m, ring, i), j);
    var hosted := Hosted(m.parents, ring[i]);
    PlacedInside(hosted[j], frames[i], Ranks(LeanKeys(m, ring, i))[j], Ranks(AgeKeys(m, ring, i))[j]);
    assert hosted[j] in hosted;
  }

  // ---- The layout ----

  function ShareGenres(shares: seq<StyleShares>): seq<nat> {
    if shares == [] then []
    else seq(|shares[0].byGenre|, i requires 0 <= i < |shares[0].byGenre| => shares[0].byGenre[i].0) + ShareGenres(shares[1..])
  }

  /** Every genre that has a share or hosts a node, in name order. */
  function Genres(m: Month): seq<nat> {
    SortedSet(ShareGenres(m.shares) + seq(|m.parents|, i requires 0 <= i < |m.parents| => m.parents[i].genre))
  }

  lemma GenresSorted(m: Month)
    ensures Ascending(Genres(m)) && Distinct(Genres(m))
  {
    SortedSetIs(ShareGenres(m.shares) + seq(|m.parents|, i requires 0 <= i < |m.parents| => m.parents[i].genre));
  }

  function AffinityOf(m: Month): Weight {
    (a: nat, b: nat) => Affinity(m.shares, a, b)
  }

  function ByIndex(m: Month): Weight {
    (i: nat, j: nat) => if i < |Genres(m)| && j < |Genres(m)| then Affinity(m.shares, Genres(m)[i], Genres(m)[j]) else 0.0
  }

  function NamesOf(genres: seq<nat>, order: seq<nat>): (r: seq<nat>)
    ensures |r| == |order|
  {
    seq(|order|, i requires 0 <= i < |order| => if order[i] < |genres| then genres[order[i]] else 0)
  }

  /** The ring a layout is drawn on: the pinned one brought up to date, or the heaviest one `ring_order` picks. */
  ghost predicate RingFor(m: Month, pinned: seq<Sector>, ring: seq<nat>) {
    if pinned != [] then
      ring == PinnedRing.Result(AffinityOf(m), GenresOf(InRingOrder(pinned)), Genres(m))
    else
      ring == NamesOf(Genres(m), RingOrder.TheRing(ByIndex(m), |Genres(m)|))
  }

  datatype Layout = Layout(sectors: seq<Sector>, nodes: seq<Node>, ringPinned: bool, framesPinned: bool) | TooManyGenres

  predicate NodeLess(a: Node, b: Node) {
    var x, y := if a.kind == Style then 1 else 0, if b.kind == Style then 1 else 0;
    x < y || (x == y && (a.style < b.style || (a.style == b.style && a.genre < b.genre)))
  }

  /** What `build_layout` returns on a given ring. */
  ghost predicate IsLayout(p: Plane, m: Month, pinned: seq<Sector>, ring: seq<nat>, l: Layout)
    requires p.Valid()
  {
    var frames := FramesOf(p, ring, Members(m.parents), pinned);
    && l.Layout?
    && RingFor(m, pinned, ring)
    && l.sectors == SectorsOf(ring, frames)
    && l.nodes == Sorting.Sorted(AllNodes(m, ring, frames), NodeLess)
    && l.ringPinned == (pinned != [])
    && l.framesPinned == Kept(p, ring, Members(m.parents), pinned)
  }

  lemma NamesDistinct(genres: seq<nat>, order: seq<nat>)
    requires Distinct(genres) && IsRing(order, |genres|)
    ensures Distinct(NamesOf(genres, order)) && forall g :: g in NamesOf(genres, order) <==> g in genres
  {
    var names := NamesOf(genres, order);
    assert forall i :: 0 <= i < |order| ==> order[i] in order;
    forall i, j | 0 <= i < j < |names| ensures names[i] != names[j] {
      assert order[i] != order[j];
    }
    forall g | g in genres ensures g in names {
      var x: nat :| x < |genres| && genres[x] == g;
      assert x in order;
      var i :| 0 <= i < |order| && order[i] == x;
      assert names[i] == g;
    }
    forall g | g in names ensures g in genres {
      var i :| 0 <= i < |names| && names[i] == g;
      assert genres[order[i]] == g;
    }
  }

  lemma ByIndexSymmetric(m: Month)
    ensures Symmetric(ByIndex(m))
  {
    var genres := Genres(m);
    forall i: nat, j: nat ensures ByIndex(m)(i, j) == ByIndex(m)(j, i) {
      if i < |genres| && j < |genres| {
        AffinitySymmetric(m.shares, genres[i], genres[j]);
      }
    }
  }

  lemma RingDistinct(m: Month, pinned: seq<Sector>, ring: seq<nat>)
    requires RingFor(m, pinned, ring) && Distinct(GenresOf(InRingOrder(pinned)))
    ensures Distinct(ring) && forall g :: g in ring <==> g in Genres(m)
  {
    GenresSorted(m);
    if pinned != [] {
      PinnedRing.ResultIs(AffinityOf(m), GenresOf(InRingOrder(pinned)), Genres(m));
      assert forall g :: g in ring <==> g in SetOf(ring);
      assert forall g :: g in Genres(m) <==> g in SetOf(Genres(m));
    } else {
      ByIndexSymmetric(m);
      RingOrder.TheRingIsHeaviest(ByIndex(m), |Genres(m)|);
      NamesDistinct(Genres(m), RingOrder.TheRing(ByIndex(m), |Genres(m)|));
    }
  }

  lemma EmptyRing(m: Month, ring': seq<nat>)
    requires (forall g :: g !in Genres(m)) && RingFor(m, [], ring')
    ensures ring' == []
  {
    NoMembers(Genres(m));
  }

  lemma RingFixed(m: Month, ring: seq<nat>, sectors: seq<Sector>, ring': seq<nat>)
    requires Distinct(ring) && ring != [] && forall g :: g in ring <==> g in Genres(m)
    requires sectors != [] && GenresOf(InRingOrder(sectors)) == ring && RingFor(m, sectors, ring')
    ensures ring' == ring
  {
    GenresSorted(m);
    PinnedRing.ResultIs(AffinityOf(m), ring, Genres(m));
    assert SetOf(ring) == SetOf(Genres(m));
  }

  /** Laying out unchanged input again, with the resulting sectors pinned, changes nothing: the same ring, the
      same frames kept as they are, the same nodes. */
  lemma LayoutFixed(p: Plane, m: Month, pinned: seq<Sector>, ring: seq<nat>, first: Layout, ring': seq<nat>, again: Layout)
    requires p.Valid() && Distinct(GenresOf(InRingOrder(pinned)))
    requires IsLayout(p, m, pinned, ring, first)
    requires IsLayout(p, m, first.sectors, ring', again)
    ensures ring' == ring && again.sectors == first.sectors && again.nodes == first.nodes
    ensures ring != [] ==> again.ringPinned && again.framesPinned
  {
    var members := Members(m.parents);
    var frames := FramesOf(p, ring, members, pinned);
    RingDistinct(m, pinned, ring);
    SectorsInOrder(ring, frames);
    if ring == [] {
      EmptyRing(m, ring');
    } else {
      RingFixed(m, ring, first.sectors, ring');
      FramesFixed(p, ring, members, pinned);
    }
  }

  // ---- Every style is drawn once for each of its parents ----

  function Hosts(parents: seq<Parent>, ring: seq<nat>): nat {
    if ring == [] then 0 else Hosts(parents, ring[..|ring| - 1]) + |Hosted(parents, ring[|ring| - 1])|
  }

  lemma {:induction false} NodesCounted(parents: seq<Parent>, ring: seq<nat>, lists: seq<seq<Node>>)
    requires |lists| == |ring| && forall i :: 0 <= i < |ring| ==> |lists[i]| == |Hosted(parents, ring[i])|
    ensures |Joined(lists)| == Hosts(parents, ring)
    decreases |ring|
  {
    if ring != [] {
      NodesCounted(parents, ring[..|ring| - 1], lists[..|ring| - 1]);
    }
  }

  lemma {:induction false} OneMore(parents: seq<Parent>, ring: seq<nat>)
    requires parents != [] && Distinct(ring)
    ensures Hosts(parents, ring) ==
      Hosts(parents[..|parents| - 1], ring) + (if parents[|parents| - 1].genre in ring then 1 else 0)
    decreases |ring|
  {
    if ring != [] {
      var front := ring[..|ring| - 1];
      OneMore(parents, front);
      assert ring == front + [ring[|ring| - 1]];
    }
  }

  lemma {:induction false} NothingHosted(ring: seq<nat>)
    ensures Hosts([], ring) == 0
    decreases |ring|
  {
    if ring != [] {
      NothingHosted(ring[..|ring| - 1]);
    }
  }

  lemma {:induction false} EachParentHosted(parents: seq<Parent>, ring: seq<nat>)
    requires Distinct(ring) && forall q :: q in parents ==> q.genre in ring
    ensures Hosts(parents, ring) == |parents|
    decreases |parents|
  {
    if parents == [] {
      NothingHosted(ring);
    } else {
      OneMore(parents, ring);
      assert parents[|parents| - 1] in parents;
      EachParentHosted(parents[..|parents| - 1], ring);
    }
  }

  lemma {:induction false} FromJoined(lists: seq<seq<Node>>, node: Node) returns (i: nat)
    requires node in Joined(lists)
    ensures i < |lists| && node in lists[i]
    decreases |lists|
  {
    if node in lists[|lists| - 1] {
      i := |lists| - 1;
    } else {
      i := FromJoined(lists[..|lists| - 1], node);
    }
  }

  lemma {:induction false} InJoined(lists: seq<seq<Node>>, i: nat, node: Node)
    requires i < |lists| && node in lists[i]
    ensures node in Joined(lists)
    decreases |lists|
  {
    if i < |lists| - 1 {
      InJoined(lists[..|lists| - 1], i, node);
    }
  }

  lemma ParentGenreListed(m: Month, q: Parent)
    requires q in m.parents
    ensures q.genre in Genres(m)
  {
    var hosts := seq(|m.parents|, i requires 0 <= i < |m.parents| => m.parents[i].genre);
    var i :| 0 <= i < |m.parents| && m.parents[i] == q;
    assert hosts[i] in hosts;
    SortedSetIs(ShareGenres(m.shares) + hosts);
  }

  /** The node drawn for row q: the style's own copy for its dominant parent, a ghost for another. */
  predicate Draws(node: Node, q: Parent) {
    node.style == q.style && node.genre == q.genre && (node.kind == Style <==> q.dominant)
  }

  lemma NodesSorted(all: seq<Node>)
    ensures |Sorting.Sorted(all, NodeLess)| == |all|
    ensures forall node :: node in Sorting.Sorted(all, NodeLess) <==> node in all
  {
    var sorted := Sorting.Sorted(all, NodeLess);
    assert Sorting.WeakOrder(NodeLess);
    Sorting.SortedSorts(all, NodeLess);
    assert forall node :: node in sorted <==> node in multiset(sorted);
    assert forall node :: node in all <==> node in multiset(all);
  }

  lemma RowDrawn(p: Plane, m: Month, pinned: seq<Sector>, ring: seq<nat>, q: Parent) returns (node: Node)
    requires p.Valid() && q in m.parents && q.genre in ring
    ensures node in AllNodes(m, ring, FramesOf(p, ring, Members(m.parents), pinned)) && Draws(node, q)
  {
    var frames := FramesOf(p, ring, Members(m.parents), pinned);
    var i: nat :| i < |ring| && ring[i] == q.genre;
    var hosted := Hosted(m.parents, ring[i]);
    assert q in hosted;
    var j: nat :| j < |hosted| && hosted[j] == q;
    SectorNodesInside(p, m, ring, pinned, i, j);
    node := SectorNodes(m, ring, frames, i)[j];
    InJoined(NodeLists(m, ring, frames), i, node);
  }

  lemma NodeInside(p: Plane, m: Month, pinned: seq<Sector>, ring: seq<nat>, node: Node) returns (i: nat)
    requires p.Valid() && node in AllNodes(m, ring, FramesOf(p, ring, Members(m.parents), pinned))
    ensures i < |ring| && ring[i] == node.genre && Inside(node, FramesOf(p, ring, Members(m.parents), pinned)[i])
  {
    var frames := FramesOf(p, ring, Members(m.parents), pinned);
    i := FromJoined(NodeLists(m, ring, frames), node);
    var j: nat :| j < |SectorNodes(m, ring, frames, i)| && SectorNodes(m, ring, frames, i)[j] == node;
    SectorNodesInside(p, m, ring, pinned, i, j);
  }

  /** In every layout there are as many nodes as parent rows, each row is drawn, and every node lies strictly
      inside the sector of its genre. */
  lemma LayoutPlacesNodes(p: Plane, m: Month, pinned: seq<Sector>, ring: seq<nat>, l: Layout)
    requires p.Valid() && Distinct(GenresOf(InRingOrder(pinned))) && IsLayout(p, m, pinned, ring, l)
    ensures |l.nodes| == |m.parents|
    ensures forall q :: q in m.parents ==> exists node :: node in l.nodes && Draws(node, q)
    ensures forall node :: node in l.nodes ==>
      exists s :: s in l.sectors && s.genre == node.genre && Inside(node, Frame(s.start, s.end))
  {
    var frames := FramesOf(p, ring, Members(m.parents), pinned);
    var all := AllNodes(m, ring, frames);
    RingDistinct(m, pinned, ring);
    NodesSorted(all);
    forall q | q in m.parents ensures q.genre in ring {
      ParentGenreListed(m, q);
    }
    NodesCounted(m.parents, ring, NodeLists(m, ring, frames));
    EachParentHosted(m.parents, ring);
    forall q | q in m.parents ensures exists node :: node in l.nodes && Draws(node, q) {
      var node := RowDrawn(p, m, pinned, ring, q);
      assert node in l.nodes;
    }
    forall node | node in l.nodes
      ensures exists s :: s in l.sectors && s.genre == node.genre && Inside(node, Frame(s.start, s.end)) {
      assert node in all;
      var i := NodeInside(p, m, pinned, ring, node);
      assert l.sectors[i] in l.sectors;
    }
  }

  // ---- Building it ----

  /** The choice of ring. */
  method ChooseRing(m: Month, pinned: seq<Sector>) returns (found: bool, ring: seq<nat>)
    requires Distinct(GenresOf(InRingOrder(pinned)))
    ensures found <==> pinned != [] || |Genres(m)| <= RingOrder.RING_EXACT_MAX_GENRES
    ensures found ==> RingFor(m, pinned, ring)
  {
    GenresSorted(m);
    if pinned != [] {
      ring := PinnedRing.PinnedRing(AffinityOf(m), GenresOf(InRingOrder(pinned)), Genres(m));
      return true, ring;
    }
    ByIndexSymmetric(m);
    var outcome := RingOrder.RingOrder(|Genres(m)|, ByIndex(m));
    match outcome {
      case TooManyGenres => return false, [];
      case Ring(order) => return true, NamesOf(Genres(m), order);
    }
  }

  method CountMembers(parents: seq<Parent>) returns (members: map<nat, nat>)
    ensures members == Members(parents)
  {
    members := map[];
    for i := 0 to |parents|
      invariant members == Members(parents[..i])
    {
      assert parents[..i + 1][..i] == parents[..i];
      members := members[parents[i].genre := Count(members, parents[i].genre) + 1];
    }
    assert parents[..|parents|] == parents;
  }

  method PlaceAll(hosted: seq<Parent>, frame: Frame, lean: seq<real>, age: seq<real>) returns (nodes: seq<Node>)
    requires |hosted| == |lean| == |age|
    ensures |nodes| == |hosted| && forall j :: 0 <= j < |hosted| ==> nodes[j] == Place(hosted[j], frame, lean[j], age[j])
  {
    nodes := [];
    for j := 0 to |hosted|
      invariant |nodes| == j && forall k :: 0 <= k < j ==> nodes[k] == Place(hosted[k], frame, lean[k], age[k])
    {
      nodes := nodes + [Place(hosted[j], frame, lean[j], age[j])];
    }
  }

  method PlaceSector(m: Month, ring: seq<nat>, frames: seq<Frame>, i: nat) returns (nodes: seq<Node>)
    requires i < |ring| == |frames|
    ensures nodes == SectorNodes(m, ring, frames, i)
  {
    var hosted := Hosted(m.parents, ring[i]);
    nodes := [];
    if hosted != [] {
      var lean := RanksInOrder(LeanKeys(m, ring, i));
      var age := RanksInOrder(AgeKeys(m, ring, i));
      nodes := PlaceAll(hosted, frames[i], lean, age);
    }
  }

  /** `build_layout`. */
  method BuildLayout(p: Plane, m: Month, pinned: seq<Sector>) returns (l: Layout, ring: seq<nat>)
    requires p.Valid() && Distinct(GenresOf(InRingOrder(pinned)))
    ensures l.TooManyGenres? <==> pinned == [] && |Genres(m)| > RingOrder.RING_EXACT_MAX_GENRES
    ensures l.Layout? ==> IsLayout(p, m, pinned, ring, l)
  {
    var found;
    found, ring := ChooseRing(m, pinned);
    if !found {
      return TooManyGenres, [];
    }
    var members := CountMembers(m.parents);
    var frames, kept := SectorFrames(p, ring, members, pinned);
    var nodes := [];
    for i := 0 to |ring|
      invariant nodes == Joined(NodeLists(m, ring, frames)[..i])
    {
      assert NodeLists(m, ring, frames)[..i + 1][..i] == NodeLists(m, ring, frames)[..i];
      var placed := PlaceSector(m, ring, frames, i);
      nodes := nodes + placed;
    }
    assert NodeLists(m, ring, frames)[..|ring|] == NodeLists(m, ring, frames);
    l := Layout(SectorsOf(ring, frames), Sorting.Sorted(nodes, NodeLess), pinned != [], kept);
  }
}
