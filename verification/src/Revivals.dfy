/** Exactly which rules let every reviving year come after a declining year of the same inactive stretch, and rise
    over an earlier mean of it. */
module Revivals {
  import opened Lifecycle

  /** Some mean from zero up to the whole peak falls short of the active share, and revives from itself: under a
      ratio of at most one any that clears the floor, else only a mean of zero. */
  predicate FirstCanRevive(rule: Rule) {
    && rule.activeShare > 0.0
    && ((rule.reviveRatio <= 1.0 && Max(0.0, rule.reviveFloor) < rule.activeShare && rule.reviveFloor <= 1.0)
        || (rule.reviveFloor <= 0.0 && rule.activeShare <= 1.0))
  }

  predicate DeclinesFirst(rule: Rule) {
    !FirstCanRevive(rule)
  }

  // ---- A stretch starts declining ----

  lemma Product(f: real, g: real, p: real)
    requires f <= g && p >= 0.0
    ensures f * p <= g * p
  {
  }

  lemma Scaled(f: real, p: real)
    requires f > 0.0 && p > 0.0
    ensures f * p > 0.0
  {
  }

  lemma LessProduct(f: real, g: real, p: real)
    requires f < g && p > 0.0
    ensures f * p < g * p
  {
  }

  lemma Part(f: real, p: real)
    requires 0.0 <= f <= 1.0 && p > 0.0
    ensures 0.0 <= f * p <= p
  {
  }

  lemma NoPeak(share: real, p: real)
    ensures p == 0.0 ==> share * p == 0.0
  {
  }

  lemma PeakPositive(share: real, c: real, p: real)
    requires 0.0 <= c <= p && !Reaches(c, share, p)
    ensures p > 0.0 && share > 0.0
  {
    NoPeak(share, p);
    if share <= 0.0 {
      Product(share, 0.0, p);
    }
  }

  /** A mean other than zero, below the active share of its peak, does not revive from itself. */
  lemma NotFromItself(rule: Rule, c: real, p: real)
    requires DeclinesFirst(rule) && 0.0 <= c <= p && !Reaches(c, rule.activeShare, p) && (c > 0.0 || rule.reviveFloor > 0.0)
    ensures !(Reaches(c, rule.reviveRatio, c) && Reaches(c, rule.reviveFloor, p))
  {
    PeakPositive(rule.activeShare, c, p);
    if rule.reviveRatio > 1.0 {
      if c > 0.0 {
        LessProduct(1.0, rule.reviveRatio, c);
      } else {
        Scaled(rule.reviveFloor, p);
      }
    } else if rule.reviveFloor >= rule.activeShare {
      Product(rule.activeShare, rule.reviveFloor, p);
    } else {
      LessProduct(1.0, rule.reviveFloor, p);
    }
  }

  lemma {:induction false} SumGrows(counts: seq<real>, lo: nat, mid: nat, hi: nat)
    requires lo <= mid < hi <= |counts| && Nonnegative(counts)
    ensures Sum(counts, lo, hi) >= counts[mid]
    decreases hi
  {
    if mid == hi - 1 {
      SumNonnegative(counts, lo, mid);
    } else {
      SumGrows(counts, lo, mid, hi - 1);
    }
  }

  lemma QuotientPositive(x: real, n: nat)
    requires x > 0.0 && n >= 1
    ensures Quotient(x, n) > 0.0
  {
  }

  /** A year whose window holds a release has a mean above zero. */
  lemma MeanPositive(counts: seq<real>, window: nat, y: nat, z: nat)
    requires window >= 1 && y < |counts| && Nonnegative(counts) && y + 1 - Span(window, y) <= z <= y && counts[z] > 0.0
    ensures Mean(counts, window, y) > 0.0
  {
    SumGrows(counts, y + 1 - Span(window, y), z, y + 1);
    QuotientPositive(Sum(counts, y + 1 - Span(window, y), y + 1), Span(window, y));
  }

  /** The year a style emerges in, if not the first, has a mean above zero. */
  lemma EmergesAboveZero(counts: seq<real>, rule: Rule, y: nat)
    requires rule.window >= 1 && 0 < y < |counts| && Nonnegative(counts) && Emergence(counts, rule.emergeTotal) == y
    ensures Mean(counts, rule.window, y) > 0.0
  {
    EmergenceIsFirst(counts, rule.emergeTotal, 0);
    assert Cumulative(counts, y) >= rule.emergeTotal && Cumulative(counts, y - 1) < rule.emergeTotal;
    assert counts[y] > 0.0;
    MeanPositive(counts, rule.window, y, y);
  }

  /** Where the share exceeds one, only years without any release so far are active. */
  lemma ActiveIsZero(share: real, c: real, p: real)
    requires share > 1.0 && 0.0 <= c <= p && Reaches(c, share, p)
    ensures p == 0.0
  {
    if p > 0.0 {
      LessProduct(1.0, share, p);
    }
  }

  /** The first inactive year of a stretch does not have mean zero if the share exceeds one. */
  lemma FirstAboveZero(counts: seq<real>, rule: Rule, y: nat)
    requires rule.window >= 1 && y < |counts| && Nonnegative(counts) && rule.activeShare > 1.0
    requires var c, y0 := Means(counts, rule.window), Emergence(counts, rule.emergeTotal); Low(c, y0, rule, y) && Since(c, y0, rule, y) == y
    ensures Mean(counts, rule.window, y) > 0.0
  {
    var c, y0 := Means(counts, rule.window), Emergence(counts, rule.emergeTotal);
    MeansNonnegative(counts, rule.window);
    PeakIs(c, y);
    PeakPositive(rule.activeShare, c[y], Peak(c, y));
    if y > 0 {
      if y0 == y {
        EmergesAboveZero(counts, rule, y);
      } else {
        PeakIs(c, y - 1);
        ActiveIsZero(rule.activeShare, c[y - 1], Peak(c, y - 1));
      }
    }
  }

  /** The first inactive year of every stretch is declining. */
  lemma StretchStartsDeclining(counts: seq<real>, rule: Rule, y: nat)
    requires rule.window >= 1 && y < |counts| && Nonnegative(counts) && DeclinesFirst(rule)
    requires var c, y0 := Means(counts, rule.window), Emergence(counts, rule.emergeTotal); Low(c, y0, rule, y) && Since(c, y0, rule, y) == y
    ensures StageAt(counts, rule, y) == Declining
  {
    var c := Means(counts, rule.window);
    MeansNonnegative(counts, rule.window);
    PeakIs(c, y);
    PeakPositive(rule.activeShare, c[y], Peak(c, y));
    if rule.reviveFloor <= 0.0 {
      FirstAboveZero(counts, rule, y);
    }
    NotFromItself(rule, c[y], Peak(c, y));
  }

  // ---- What that gives ----

  predicate Revives(counts: seq<real>, rule: Rule, y: nat)
    requires rule.window >= 1
  {
    Nonnegative(counts) && y < |counts| && StageAt(counts, rule, y) == Reviving
  }

  /** The years from s to y are inactive. */
  predicate Inactive(counts: seq<real>, rule: Rule, s: nat, y: nat)
    requires rule.window >= 1 && y < |counts|
  {
    forall x :: s <= x <= y ==> StageAt(counts, rule, x) == Declining || StageAt(counts, rule, x) == Reviving
  }

  ghost predicate DeclinedBefore(counts: seq<real>, rule: Rule, y: nat)
    requires rule.window >= 1 && y < |counts|
  {
    exists s :: 0 <= s < y && StageAt(counts, rule, s) == Declining && Inactive(counts, rule, s, y)
  }

  /** The mean rises by the ratio over an earlier mean of the stretch. */
  ghost predicate RoseFrom(counts: seq<real>, rule: Rule, y: nat)
    requires rule.window >= 1 && y < |counts|
  {
    exists z :: 0 <= z < y && Inactive(counts, rule, z, y) && Reaches(Mean(counts, rule.window, y), rule.reviveRatio, Mean(counts, rule.window, z))
  }

  lemma StretchInactive(counts: seq<real>, rule: Rule, y: nat) returns (s: nat)
    requires rule.window >= 1 && Revives(counts, rule, y)
    ensures var c, y0 := Means(counts, rule.window), Emergence(counts, rule.emergeTotal);
      s == Since(c, y0, rule, y) && Low(c, y0, rule, s) && Since(c, y0, rule, s) == s
    ensures Inactive(counts, rule, s, y)
  {
    var c, y0 := Means(counts, rule.window), Emergence(counts, rule.emergeTotal);
    s := Since(c, y0, rule, y);
    SinceIsStretch(c, y0, rule, y);
    forall x | s <= x <= y ensures StageAt(counts, rule, x) == Declining || StageAt(counts, rule, x) == Reviving {
      LowStage(c, y0, rule, x);
    }
  }

  lemma RevivalNeedsDecline(counts: seq<real>, rule: Rule, y: nat)
    requires rule.window >= 1 && Revives(counts, rule, y) && DeclinesFirst(rule)
    ensures DeclinedBefore(counts, rule, y)
  {
    var s := StretchInactive(counts, rule, y);
    StretchStartsDeclining(counts, rule, s);
  }

  lemma RevivalRises(counts: seq<real>, rule: Rule, y: nat)
    requires rule.window >= 1 && Revives(counts, rule, y) && DeclinesFirst(rule) && rule.reviveFloor > 0.0
    ensures RoseFrom(counts, rule, y)
  {
    var c, y0 := Means(counts, rule.window), Emergence(counts, rule.emergeTotal);
    var s := StretchInactive(counts, rule, y);
    MeansNonnegative(counts, rule.window);
    PeakIs(c, y);
    NotFromItself(rule, c[y], Peak(c, y));
    LeastIs(c, s, y);
    var z :| s <= z <= y && Trough(c, y0, rule, y) == c[z];
    assert Inactive(counts, rule, z, y);
  }

  // ---- Where the rule does not ----

  /** Nothing of the stretch comes before its first year. */
  lemma NothingBefore(counts: seq<real>, rule: Rule, y: nat)
    requires rule.window >= 1 && y < |counts|
    requires Since(Means(counts, rule.window), Emergence(counts, rule.emergeTotal), rule, y) == y
    ensures !DeclinedBefore(counts, rule, y) && !RoseFrom(counts, rule, y)
  {
    if y > 0 {
      assert !Low(Means(counts, rule.window), Emergence(counts, rule.emergeTotal), rule, y - 1);
      assert StageAt(counts, rule, y - 1) != Declining && StageAt(counts, rule, y - 1) != Reviving;
    }
  }

  lemma OneMore(n: nat, v: real)
    ensures (n + 1) as real * v == n as real * v + v
  {
  }

  /** A mean lies between the counts it covers. */
  lemma {:induction false} SumBetween(counts: seq<real>, lo: nat, hi: nat, least: real, most: real)
    requires lo <= hi <= |counts| && forall i :: lo <= i < hi ==> least <= counts[i] <= most
    ensures (hi - lo) as real * least <= Sum(counts, lo, hi) <= (hi - lo) as real * most
    decreases hi
  {
    if lo < hi {
      SumBetween(counts, lo, hi - 1, least, most);
      OneMore(hi - 1 - lo, least);
      OneMore(hi - 1 - lo, most);
    }
  }

  lemma QuotientBetween(x: real, n: nat, least: real, most: real)
    requires n >= 1 && n as real * least <= x <= n as real * most
    ensures least <= Quotient(x, n) <= most
  {
    var q := x / n as real;
    assert q * n as real == x;
    if q < least {
      LessProduct(q, least, n as real);
    }
    if q > most {
      LessProduct(most, q, n as real);
    }
  }

  lemma MeanBetween(counts: seq<real>, window: nat, y: nat, least: real, most: real)
    requires window >= 1 && y < |counts|
    requires forall i :: y + 1 - Span(window, y) <= i <= y ==> least <= counts[i] <= most
    ensures least <= Mean(counts, window, y) <= most
  {
    SumBetween(counts, y + 1 - Span(window, y), y + 1, least, most);
    QuotientBetween(Sum(counts, y + 1 - Span(window, y), y + 1), Span(window, y), least, most);
  }

  lemma EmergedBy(counts: seq<real>, total: real, y: nat)
    requires y < |counts| && Cumulative(counts, y) >= total
    ensures Emergence(counts, total) <= y
  {
    EmergenceIsFirst(counts, total, 0);
  }

  function Enough(total: real): real { Max(1.0, total) }

  /** One full year, then a window of years with `low` releases each. */
  function Dropping(rule: Rule, low: real): seq<real> {
    [Enough(rule.emergeTotal)] + seq(rule.window, _ => low)
  }

  lemma DroppingIs(rule: Rule, low: real)
    requires rule.window >= 1 && 0.0 <= low <= Enough(rule.emergeTotal)
    ensures var counts, a := Dropping(rule, low), Enough(rule.emergeTotal);
      && Nonnegative(counts) && |counts| == rule.window + 1 && a > 0.0 && Emergence(counts, rule.emergeTotal) == 0
      && Mean(counts, rule.window, 0) == a && Mean(counts, rule.window, rule.window) == low
      && forall y :: 0 <= y < |counts| ==> low <= Mean(counts, rule.window, y) <= a
  {
    var counts, a := Dropping(rule, low), Enough(rule.emergeTotal);
    assert Cumulative(counts, 0) == a;
    EmergedBy(counts, rule.emergeTotal, 0);
    forall y | 0 <= y < |counts| ensures low <= Mean(counts, rule.window, y) <= a {
      MeanBetween(counts, rule.window, y, low, a);
    }
    MeanBetween(counts, rule.window, 0, a, a);
    MeanBetween(counts, rule.window, rule.window, low, low);
  }

  lemma PeakWithin(c: seq<real>, y: nat, z: nat, top: real)
    requires z <= y < |c| && c[z] == top && forall x :: 0 <= x <= y ==> c[x] <= top
    ensures Peak(c, y) == top
  {
    PeakIs(c, y);
  }

  /** The first year of a stretch whose mean revives from itself is reviving. */
  lemma FirstRevives(counts: seq<real>, rule: Rule, y: nat)
    requires rule.window >= 1 && y < |counts| && Nonnegative(counts)
    requires var c, y0 := Means(counts, rule.window), Emergence(counts, rule.emergeTotal);
      && Low(c, y0, rule, y) && Since(c, y0, rule, y) == y
      && Reaches(c[y], rule.reviveRatio, c[y]) && Reaches(c[y], rule.reviveFloor, Peak(c, y))
    ensures Revives(counts, rule, y) && !DeclinedBefore(counts, rule, y) && !RoseFrom(counts, rule, y)
  {
    NothingBefore(counts, rule, y);
  }

  /** The year after the window is inactive, under a peak of the full year. */
  lemma DroppingLow(rule: Rule, low: real)
    requires rule.window >= 1 && 0.0 <= low <= Enough(rule.emergeTotal) && !Reaches(low, rule.activeShare, Enough(rule.emergeTotal))
    ensures var c, a := Means(Dropping(rule, low), rule.window), Enough(rule.emergeTotal);
      Low(c, 0, rule, rule.window) && forall y :: 0 <= y < |c| ==> Peak(c, y) == a && low <= c[y]
  {
    var c, a := Means(Dropping(rule, low), rule.window), Enough(rule.emergeTotal);
    DroppingIs(rule, low);
    forall y | 0 <= y < |c| ensures Peak(c, y) == a && low <= c[y] {
      PeakWithin(c, y, 0, a);
    }
  }

  /** A part of the peak that clears the floor and misses the active share. */
  lemma Between(rule: Rule, a: real) returns (low: real)
    requires a > 0.0 && Max(0.0, rule.reviveFloor) < rule.activeShare && rule.reviveFloor <= 1.0
    ensures 0.0 <= low <= a && !Reaches(low, rule.activeShare, a) && Reaches(low, rule.reviveFloor, a)
  {
    var share := Max(0.0, rule.reviveFloor);
    low := share * a;
    Part(share, a);
    Product(rule.reviveFloor, share, a);
    LessProduct(share, rule.activeShare, a);
  }

  /** Under a ratio of at most one, the year a falling style turns inactive revives at once. */
  lemma RevivesAtOnce(rule: Rule) returns (counts: seq<real>, y: nat)
    requires rule.window >= 1 && rule.reviveRatio <= 1.0 && Max(0.0, rule.reviveFloor) < rule.activeShare && rule.reviveFloor <= 1.0
    ensures Revives(counts, rule, y) && !DeclinedBefore(counts, rule, y) && !RoseFrom(counts, rule, y)
  {
    var low := Between(rule, Enough(rule.emergeTotal));
    counts := Dropping(rule, low);
    var c := Means(counts, rule.window);
    DroppingIs(rule, low);
    DroppingLow(rule, low);
    y := Since(c, 0, rule, rule.window);
    SinceIsStretch(c, 0, rule, rule.window);
    Product(rule.reviveRatio, 1.0, c[y]);
    FirstRevives(counts, rule, y);
  }

  /** A window of empty years, less one, on either side of one full year, and one more empty year. */
  function Spike(rule: Rule): seq<real>
    requires rule.window >= 1
  {
    seq(rule.window - 1, _ => 0.0) + [Enough(rule.emergeTotal)] + seq(rule.window, _ => 0.0)
  }

  lemma {:induction false} SpikeSum(rule: Rule, lo: nat, hi: nat)
    requires rule.window >= 1 && lo <= hi <= |Spike(rule)|
    ensures Sum(Spike(rule), lo, hi) == if lo <= rule.window - 1 < hi then Enough(rule.emergeTotal) else 0.0
    decreases hi
  {
    if lo < hi {
      SpikeSum(rule, lo, hi - 1);
    }
  }

  lemma SpikeMean(rule: Rule, y: nat)
    requires rule.window >= 1 && y < |Spike(rule)|
    ensures var w := rule.window;
      Mean(Spike(rule), w, y) == if w - 1 <= y <= 2 * w - 2 then Quotient(Enough(rule.emergeTotal), w) else 0.0
  {
    SpikeSum(rule, y + 1 - Span(rule.window, y), y + 1);
  }

  /** Its means: nothing, the same for a window of years, then nothing again. */
  lemma SpikeIs(rule: Rule)
    requires rule.window >= 1
    ensures var w, c, top := rule.window, Means(Spike(rule), rule.window), Quotient(Enough(rule.emergeTotal), rule.window);
      && |c| == 2 * w && top > 0.0 && Nonnegative(Spike(rule)) && Emergence(Spike(rule), rule.emergeTotal) <= w - 1
      && (forall z :: 0 <= z < 2 * w - 1 ==> c[z] <= top) && c[2 * w - 2] == top && c[2 * w - 1] == 0.0
      && Peak(c, 2 * w - 2) == top && Peak(c, 2 * w - 1) == top
  {
    var w, c, top := rule.window, Means(Spike(rule), rule.window), Quotient(Enough(rule.emergeTotal), rule.window);
    QuotientPositive(Enough(rule.emergeTotal), w);
    forall z | 0 <= z < 2 * w ensures c[z] == if w - 1 <= z <= 2 * w - 2 then top else 0.0 {
      SpikeMean(rule, z);
    }
    SpikeSum(rule, 0, w);
    EmergedBy(Spike(rule), rule.emergeTotal, w - 1);
    PeakWithin(c, 2 * w - 2, 2 * w - 2, top);
    PeakWithin(c, 2 * w - 1, 2 * w - 2, top);
  }

  lemma SilentReaches(rule: Rule, top: real)
    requires rule.reviveFloor <= 0.0 && 0.0 < rule.activeShare <= 1.0 && top > 0.0
    ensures !Reaches(0.0, rule.activeShare, top) && Reaches(top, rule.activeShare, top)
    ensures Reaches(0.0, rule.reviveRatio, 0.0) && Reaches(0.0, rule.reviveFloor, top)
  {
    Scaled(rule.activeShare, top);
    Product(rule.activeShare, 1.0, top);
    Product(rule.reviveFloor, 0.0, top);
  }

  /** Its last year is the first of a stretch. */
  lemma SpikeFirst(rule: Rule, y: nat)
    requires rule.window >= 1 && y == 2 * rule.window - 1
    requires var top := Quotient(Enough(rule.emergeTotal), rule.window); !Reaches(0.0, rule.activeShare, top) && Reaches(top, rule.activeShare, top)
    ensures y < |Spike(rule)|
    ensures var c, y0 := Means(Spike(rule), rule.window), Emergence(Spike(rule), rule.emergeTotal);
      Low(c, y0, rule, y) && Since(c, y0, rule, y) == y
  {
    SpikeIs(rule);
  }

  /** Where a floor of zero or less lets a mean of zero revive, a style that falls silent revives at once. */
  lemma RevivesSilent(rule: Rule) returns (counts: seq<real>, y: nat)
    requires rule.window >= 1 && rule.reviveFloor <= 0.0 && 0.0 < rule.activeShare <= 1.0
    ensures Revives(counts, rule, y) && !DeclinedBefore(counts, rule, y) && !RoseFrom(counts, rule, y)
  {
    var top := Quotient(Enough(rule.emergeTotal), rule.window);
    counts, y := Spike(rule), 2 * rule.window - 1;
    SpikeIs(rule);
    SilentReaches(rule, top);
    SpikeFirst(rule, y);
    FirstRevives(counts, rule, y);
  }

  lemma SilentTrough(c: seq<real>, from: nat, y: nat)
    requires from <= y < |c| && c[y] == 0.0 && forall z :: from <= z <= y ==> c[z] >= 0.0
    ensures Least(c, from, y) == 0.0
  {
    LeastIs(c, from, y);
  }

  /** With a share above one and a ratio above one, a floor of zero or less lets a style that fell silent revive
      without a rise. */
  lemma RevivesWithoutRise(rule: Rule) returns (counts: seq<real>, y: nat)
    requires rule.window >= 1 && rule.reviveFloor <= 0.0 && rule.activeShare > 1.0 && rule.reviveRatio > 1.0
    ensures Revives(counts, rule, y) && !RoseFrom(counts, rule, y)
  {
    var w, a := rule.window, Enough(rule.emergeTotal);
    counts, y := Dropping(rule, 0.0), rule.window;
    var c := Means(counts, w);
    DroppingIs(rule, 0.0);
    Scaled(rule.activeShare, a);
    DroppingLow(rule, 0.0);
    Product(rule.reviveFloor, 0.0, a);
    SilentTrough(c, Since(c, 0, rule, y), y);
    assert StageAt(counts, rule, y) == Reviving;
    forall z | 0 <= z < y ensures !Reaches(c[y], rule.reviveRatio, Mean(counts, w, z)) {
      MeanPositive(counts, w, z, 0);
      Scaled(rule.reviveRatio, Mean(counts, w, z));
    }
  }

  // ---- The exact conditions ----

  /** Every revival follows a decline in its stretch, for all counts, exactly under these rules. */
  lemma DeclineExactly(rule: Rule)
    requires rule.window >= 1
    ensures (forall counts, y: nat :: Revives(counts, rule, y) ==> DeclinedBefore(counts, rule, y)) <==> DeclinesFirst(rule)
  {
    if DeclinesFirst(rule) {
      forall counts, y: nat | Revives(counts, rule, y) ensures DeclinedBefore(counts, rule, y) {
        RevivalNeedsDecline(counts, rule, y);
      }
    } else if rule.reviveFloor <= 0.0 && rule.activeShare <= 1.0 {
      var counts, y := RevivesSilent(rule);
    } else {
      var counts, y := RevivesAtOnce(rule);
    }
  }

  /** No year is inactive unless the share is positive. */
  lemma NoShareNoRevival(counts: seq<real>, rule: Rule, y: nat)
    requires rule.window >= 1 && rule.activeShare <= 0.0
    ensures !Revives(counts, rule, y)
  {
    if Nonnegative(counts) && y < |counts| {
      var c := Means(counts, rule.window);
      MeansNonnegative(counts, rule.window);
      PeakIs(c, y);
      Product(rule.activeShare, 0.0, Peak(c, y));
    }
  }

  /** Every revival rises over an earlier mean of its stretch, for all counts, exactly under these. */
  lemma RiseExactly(rule: Rule)
    requires rule.window >= 1
    ensures (forall counts, y: nat :: Revives(counts, rule, y) ==> RoseFrom(counts, rule, y))
       <==> rule.activeShare <= 0.0 || (DeclinesFirst(rule) && rule.reviveFloor > 0.0)
  {
    if rule.activeShare <= 0.0 {
      forall counts, y: nat ensures !Revives(counts, rule, y) {
        NoShareNoRevival(counts, rule, y);
      }
    } else if DeclinesFirst(rule) && rule.reviveFloor > 0.0 {
      forall counts, y: nat | Revives(counts, rule, y) ensures RoseFrom(counts, rule, y) {
        RevivalRises(counts, rule, y);
      }
    } else if DeclinesFirst(rule) {
      var counts, y := RevivesWithoutRise(rule);
    } else if rule.reviveFloor <= 0.0 && rule.activeShare <= 1.0 {
      var counts, y := RevivesSilent(rule);
    } else {
      var counts, y := RevivesAtOnce(rule);
    }
  }
}
