/** Each stage in plain terms: by the yearly counts' running totals and trailing means alone. */
module StageRule {
  import opened Lifecycle

  /** `totals[i]` is the number of releases in the first i years. */
  ghost predicate RunningTotals(counts: seq<real>, totals: seq<real>) {
    |totals| == |counts| + 1 && totals[0] == 0.0 && forall i :: 0 <= i < |counts| ==> totals[i + 1] == totals[i] + counts[i]
  }

  /** How many years the mean of year y covers. */
  function Years(window: nat, y: nat): nat {
    if y + 1 < window then y + 1 else window
  }

  /** m times n is the sum. */
  predicate IsMean(m: real, sum: real, n: nat) {
    m * n as real == sum
  }

  /** `c[y]` is the mean over the window's years ending at y, fewer at the start. */
  ghost predicate TrailingMeans(totals: seq<real>, window: nat, c: seq<real>) {
    |totals| == |c| + 1 && forall y :: 0 <= y < |c| ==> IsMean(c[y], totals[y + 1] - totals[y + 1 - Years(window, y)], Years(window, y))
  }

  /** The releases up to and including year x reach the threshold. */
  predicate ReachedBy(totals: seq<real>, threshold: real, x: nat) {
    x + 1 < |totals| && totals[x + 1] >= threshold
  }

  /** z is the first year in which they do. */
  ghost predicate EmergesIn(totals: seq<real>, threshold: real, z: nat) {
    ReachedBy(totals, threshold, z) && forall x: nat :: x < z ==> !ReachedBy(totals, threshold, x)
  }

  predicate AtLeast(c: real, factor: real, x: real) {
    c >= factor * x
  }

  /** No mean so far is larger than year x's. */
  ghost predicate PeaksIn(c: seq<real>, x: nat, y: nat) {
    x <= y < |c| && forall i :: 0 <= i <= y ==> c[i] <= c[x]
  }

  /** The mean of year y is at least the share of the largest so far. */
  ghost predicate AboveShare(c: seq<real>, share: real, y: nat) {
    y < |c| && forall x: nat :: x <= y && PeaksIn(c, x, y) ==> AtLeast(c[y], share, c[x])
  }

  /** The years whose mean is. */
  ghost function Actives(c: seq<real>, share: real): nat -> bool {
    (y: nat) => AboveShare(c, share, y)
  }

  /** Years s to y are inactive, and s is the first of them: the year before it was active, or not yet emerged. */
  ghost predicate InactiveSince(active: nat -> bool, z: nat, s: nat, y: nat) {
    && z <= s <= y && (forall x: nat :: s <= x <= y ==> !active(x))
    && (s == z || active(s - 1))
  }

  /** Year t has the least mean from s to y. */
  ghost predicate TroughIn(c: seq<real>, s: nat, t: nat, y: nat) {
    s <= t <= y < |c| && forall i :: s <= i <= y ==> c[t] <= c[i]
  }

  /** The mean of year y is at least the ratio of the least since the last active year, and the floor of the largest. */
  ghost predicate Revived(c: seq<real>, rule: Rule, z: nat, y: nat) {
    && AboveShare(c, rule.reviveFloor, y)
    && exists s: nat, t: nat :: InactiveSince(Actives(c, rule.activeShare), z, s, y) && TroughIn(c, s, t, y) && AtLeast(c[y], rule.reviveRatio, c[t])
  }

  // ---- The specification's functions in these terms ----

  lemma {:induction false} SumIs(counts: seq<real>, totals: seq<real>, lo: nat, hi: nat)
    requires RunningTotals(counts, totals) && lo <= hi <= |counts|
    ensures Sum(counts, lo, hi) == totals[hi] - totals[lo]
    decreases hi
  {
    if lo < hi {
      SumIs(counts, totals, lo, hi - 1);
    }
  }

  lemma QuotientIsMean(sum: real, m: real, n: nat)
    requires n >= 1
    ensures m == Quotient(sum, n) <==> IsMean(m, sum, n)
  {
  }

  lemma MeanIs(counts: seq<real>, totals: seq<real>, c: seq<real>, window: nat, y: nat)
    requires RunningTotals(counts, totals) && TrailingMeans(totals, window, c) && window >= 1 && y < |counts|
    ensures Mean(counts, window, y) == c[y]
  {
    var n := Years(window, y);
    SumIs(counts, totals, y + 1 - n, y + 1);
    QuotientIsMean(totals[y + 1] - totals[y + 1 - n], c[y], n);
  }

  lemma MeansAre(counts: seq<real>, totals: seq<real>, c: seq<real>, window: nat)
    requires RunningTotals(counts, totals) && TrailingMeans(totals, window, c) && window >= 1
    ensures Means(counts, window) == c
  {
    forall y | 0 <= y < |counts| ensures Means(counts, window)[y] == c[y] {
      MeanIs(counts, totals, c, window, y);
    }
  }

  lemma {:induction false} EmergenceIs(counts: seq<real>, totals: seq<real>, threshold: real, y: nat)
    requires RunningTotals(counts, totals) && y <= |counts| && forall x: nat :: x < y ==> !ReachedBy(totals, threshold, x)
    ensures var y0 := EmergenceFrom(counts, threshold, y);
      if y0 < |counts| then EmergesIn(totals, threshold, y0) else forall x: nat :: !ReachedBy(totals, threshold, x)
    decreases |counts| - y
  {
    if y < |counts| {
      SumIs(counts, totals, 0, y + 1);
      if !ReachedBy(totals, threshold, y) {
        EmergenceIs(counts, totals, threshold, y + 1);
      }
    }
  }

  lemma EmergesOnce(totals: seq<real>, threshold: real, z: nat, z': nat)
    requires EmergesIn(totals, threshold, z) && EmergesIn(totals, threshold, z')
    ensures z == z'
  {
  }

  lemma {:induction false} PeakIs(c: seq<real>, y: nat) returns (x: nat)
    requires y < |c|
    ensures PeaksIn(c, x, y) && c[x] == Peak(c, y)
  {
    if y == 0 {
      x := 0;
    } else {
      x := PeakIs(c, y - 1);
      if c[x] < c[y] {
        x := y;
      }
    }
  }

  lemma SamePeak(c: seq<real>, x: nat, p: nat, y: nat)
    requires PeaksIn(c, x, y) && PeaksIn(c, p, y)
    ensures c[x] == c[p]
  {
  }

  lemma ReachesIs(c: real, factor: real, x: real)
    ensures Reaches(c, factor, x) <==> AtLeast(c, factor, x)
  {
  }

  lemma ShareIs(c: seq<real>, share: real, y: nat)
    requires y < |c|
    ensures AboveShare(c, share, y) <==> Reaches(c[y], share, Peak(c, y))
  {
    var p := PeakIs(c, y);
    ReachesIs(c[y], share, c[p]);
    forall x: nat | x <= y && PeaksIn(c, x, y) ensures AtLeast(c[y], share, c[x]) <==> AtLeast(c[y], share, c[p]) {
      SamePeak(c, x, p, y);
    }
  }

  lemma {:induction false} SinceFrom(c: seq<real>, z: nat, rule: Rule, active: nat -> bool, y: nat)
    requires z <= y < |c| && !active(y) && forall x: nat :: x < |c| ==> (Low(c, z, rule, x) <==> x >= z && !active(x))
    ensures InactiveSince(active, z, Since(c, z, rule, y), y)
    decreases y
  {
    if y > z && !active(y - 1) {
      SinceFrom(c, z, rule, active, y - 1);
    }
  }

  lemma LowIs(c: seq<real>, z: nat, rule: Rule, x: nat)
    requires x < |c|
    ensures Low(c, z, rule, x) <==> x >= z && !Actives(c, rule.activeShare)(x)
  {
    ShareIs(c, rule.activeShare, x);
  }

  lemma SinceIs(c: seq<real>, z: nat, rule: Rule, y: nat)
    requires z <= y < |c| && Low(c, z, rule, y)
    ensures InactiveSince(Actives(c, rule.activeShare), z, Since(c, z, rule, y), y)
  {
    forall x: nat | x < |c| ensures Low(c, z, rule, x) <==> x >= z && !Actives(c, rule.activeShare)(x) {
      LowIs(c, z, rule, x);
    }
    SinceFrom(c, z, rule, Actives(c, rule.activeShare), y);
  }

  lemma SinceOnce(active: nat -> bool, z: nat, s: nat, s': nat, y: nat)
    requires InactiveSince(active, z, s, y) && InactiveSince(active, z, s', y)
    ensures s == s'
  {
  }

  lemma {:induction false} LeastIs(c: seq<real>, s: nat, y: nat) returns (t: nat)
    requires s <= y < |c|
    ensures TroughIn(c, s, t, y) && c[t] == Least(c, s, y)
    decreases y
  {
    if s == y {
      t := y;
    } else {
      t := LeastIs(c, s, y - 1);
      if c[y] < c[t] {
        t := y;
      }
    }
  }

  lemma SameTrough(c: seq<real>, s: nat, t: nat, t': nat, y: nat)
    requires TroughIn(c, s, t, y) && TroughIn(c, s, t', y)
    ensures c[t] == c[t']
  {
  }

  lemma RevivedIs(c: seq<real>, rule: Rule, z: nat, y: nat)
    requires z <= y < |c| && Low(c, z, rule, y)
    ensures Revived(c, rule, z, y)
      <==> Reaches(c[y], rule.reviveRatio, Trough(c, z, rule, y)) && Reaches(c[y], rule.reviveFloor, Peak(c, y))
  {
    ShareIs(c, rule.reviveFloor, y);
    SinceIs(c, z, rule, y);
    var s := Since(c, z, rule, y);
    var t := LeastIs(c, s, y);
    ReachesIs(c[y], rule.reviveRatio, c[t]);
    forall s': nat, t': nat | InactiveSince(Actives(c, rule.activeShare), z, s', y) && TroughIn(c, s', t', y) ensures c[t'] == c[t] {
      SinceOnce(Actives(c, rule.activeShare), z, s, s', y);
      SameTrough(c, s, t, t', y);
    }
  }

  // ---- The stages ----

  /** The stage of year y, if it emerges in year z. */
  lemma StageFrom(c: seq<real>, rule: Rule, z: nat, y: nat)
    requires y < |c|
    ensures var stage := StageOf(c, z, rule, y);
      && (stage == Absent <==> y < z)
      && (stage == Emerging <==> z <= y && AboveShare(c, rule.activeShare, y) && (y - z) as real < rule.establishYears)
      && (stage == Established <==> z <= y && AboveShare(c, rule.activeShare, y) && (y - z) as real >= rule.establishYears)
      && (stage == Reviving <==> z <= y && !AboveShare(c, rule.activeShare, y) && Revived(c, rule, z, y))
      && (stage == Declining <==> z <= y && !AboveShare(c, rule.activeShare, y) && !Revived(c, rule, z, y))
  {
    ShareIs(c, rule.activeShare, y);
    if Low(c, z, rule, y) {
      RevivedIs(c, rule, z, y);
    }
  }

  /** Absent exactly before the year of emergence. */
  lemma AbsentExactly(counts: seq<real>, rule: Rule, totals: seq<real>, c: seq<real>, y: nat)
    requires rule.window >= 1 && y < |counts| && RunningTotals(counts, totals) && TrailingMeans(totals, rule.window, c)
    ensures StageAt(counts, rule, y) == Absent <==> forall x: nat :: x <= y ==> !ReachedBy(totals, rule.emergeTotal, x)
  {
    MeansAre(counts, totals, c, rule.window);
    EmergenceIs(counts, totals, rule.emergeTotal, 0);
    StageFrom(c, rule, Emergence(counts, rule.emergeTotal), y);
  }

  /** The other stages, from the year z of emergence. */
  lemma StagesExactly(counts: seq<real>, rule: Rule, totals: seq<real>, c: seq<real>, z: nat, y: nat)
    requires rule.window >= 1 && z <= y < |counts| && RunningTotals(counts, totals) && TrailingMeans(totals, rule.window, c)
    requires EmergesIn(totals, rule.emergeTotal, z)
    ensures var stage, active := StageAt(counts, rule, y), AboveShare(c, rule.activeShare, y);
      && (stage == Emerging <==> active && (y - z) as real < rule.establishYears)
      && (stage == Established <==> active && (y - z) as real >= rule.establishYears)
      && (stage == Reviving <==> !active && Revived(c, rule, z, y))
      && (stage == Declining <==> !active && !Revived(c, rule, z, y))
  {
    MeansAre(counts, totals, c, rule.window);
    EmergenceIs(counts, totals, rule.emergeTotal, 0);
    EmergesOnce(totals, rule.emergeTotal, z, Emergence(counts, rule.emergeTotal));
    StageFrom(c, rule, z, y);
  }

  // ---- There are such totals and means ----

  lemma {:induction false} TotalsExist(counts: seq<real>) returns (totals: seq<real>)
    ensures RunningTotals(counts, totals)
    decreases |counts|
  {
    if counts == [] {
      totals := [0.0];
    } else {
      totals := TotalsExist(counts[..|counts| - 1]);
      totals := totals + [totals[|counts| - 1] + counts[|counts| - 1]];
    }
  }

  lemma MeansExist(counts: seq<real>, window: nat) returns (totals: seq<real>, c: seq<real>)
    requires window >= 1
    ensures RunningTotals(counts, totals) && TrailingMeans(totals, window, c)
  {
    totals := TotalsExist(counts);
    c := Means(counts, window);
    forall y | 0 <= y < |c| ensures IsMean(c[y], totals[y + 1] - totals[y + 1 - Years(window, y)], Years(window, y)) {
      SumIs(counts, totals, y + 1 - Years(window, y), y + 1);
      QuotientIsMean(totals[y + 1] - totals[y + 1 - Years(window, y)], c[y], Years(window, y));
    }
  }
}
