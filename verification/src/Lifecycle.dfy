/** `style_lifecycle`: the stated rule for a style's stage in each year, and the one-pass loop with a running
    trough that computes it. Counts and thresholds are real numbers. */
module Lifecycle {
  import opened SortedSets

  datatype Stage = Absent | Emerging | Established | Declining | Reviving

  datatype Rule = Rule(emergeTotal: real, activeShare: real, establishYears: real, reviveRatio: real, reviveFloor: real, window: nat)

  // ---- The stated rule ----

  /** Releases in the years `lo` up to `hi`. */
  function Sum(counts: seq<real>, lo: nat, hi: nat): real
    requires lo <= hi <= |counts|
    decreases hi
  {
    if lo == hi then 0.0 else Sum(counts, lo, hi - 1) + counts[hi - 1]
  }

  /** How many years the mean ending at year `y` covers. */
  function Span(window: nat, y: nat): (n: nat)
    requires window >= 1
    ensures 1 <= n <= y + 1
  {
    if y + 1 < window then y + 1 else window
  }

  function Quotient(x: real, n: nat): real
    requires n >= 1
  {
    x / n as real
  }

  /** c(y): the mean over the window's years ending at `y`, fewer at the start. */
  function Mean(counts: seq<real>, window: nat, y: nat): real
    requires window >= 1 && y < |counts|
  {
    Quotient(Sum(counts, y + 1 - Span(window, y), y + 1), Span(window, y))
  }

  function Means(counts: seq<real>, window: nat): (c: seq<real>)
    requires window >= 1
    ensures |c| == |counts|
  {
    seq(|counts|, y requires 0 <= y < |counts| => Mean(counts, window, y))
  }

  function EmergenceFrom(counts: seq<real>, total: real, y: nat): (y0: nat)
    requires y <= |counts|
    ensures y <= y0 <= |counts|
    decreases |counts| - y
  {
    if y == |counts| || Sum(counts, 0, y + 1) >= total then y else EmergenceFrom(counts, total, y + 1)
  }

  /** y0: the first year whose total so far reaches the threshold, or one past the last year. */
  function Emergence(counts: seq<real>, total: real): (y0: nat)
    ensures y0 <= |counts|
  {
    EmergenceFrom(counts, total, 0)
  }

  function Max(a: real, b: real): real { if a >= b then a else b }
  function Min(a: real, b: real): real { if a <= b then a else b }

  /** P(y): the largest mean so far. */
  function Peak(c: seq<real>, y: nat): real
    requires y < |c|
  {
    if y == 0 then c[0] else Max(Peak(c, y - 1), c[y])
  }

  /** `c` is at least `f` times `x`. */
  predicate Reaches(c: real, f: real, x: real) {
    c >= f * x
  }

  predicate Active(c: seq<real>, y0: nat, rule: Rule, y: nat)
    requires y < |c|
  {
    y >= y0 && Reaches(c[y], rule.activeShare, Peak(c, y))
  }

  /** Emerged but not active. */
  predicate Low(c: seq<real>, y0: nat, rule: Rule, y: nat)
    requires y < |c|
  {
    y >= y0 && !Reaches(c[y], rule.activeShare, Peak(c, y))
  }

  /** The first year of the stretch of inactive years that `y` is in, or would extend. */
  function Since(c: seq<real>, y0: nat, rule: Rule, y: nat): (s: nat)
    requires y < |c|
    ensures s <= y
  {
    if y == 0 || !Low(c, y0, rule, y - 1) then y else Since(c, y0, rule, y - 1)
  }

  function Least(c: seq<real>, from: nat, y: nat): real
    requires from <= y < |c|
    decreases y
  {
    if from == y then c[y] else Min(Least(c, from, y - 1), c[y])
  }

  /** T(y): the least mean since the style was last active. */
  function Trough(c: seq<real>, y0: nat, rule: Rule, y: nat): real
    requires y < |c|
  {
    Least(c, Since(c, y0, rule, y), y)
  }

  function StageOf(c: seq<real>, y0: nat, rule: Rule, y: nat): Stage
    requires y < |c|
  {
    if y < y0 then Absent
    else if Active(c, y0, rule, y) then
      if (y - y0) as real < rule.establishYears then Emerging else Established
    else if Reaches(c[y], rule.reviveRatio, Trough(c, y0, rule, y)) && Reaches(c[y], rule.reviveFloor, Peak(c, y)) then Reviving
    else Declining
  }

  /** The stage of a style with these yearly counts in year `y`. */
  function StageAt(counts: seq<real>, rule: Rule, y: nat): Stage
    requires rule.window >= 1 && y < |counts|
  {
    StageOf(Means(counts, rule.window), Emergence(counts, rule.emergeTotal), rule, y)
  }

  // ---- The computation ----

  lemma {:induction false} SumSplit(counts: seq<real>, lo: nat, mid: nat, hi: nat)
    requires lo <= mid <= hi <= |counts|
    ensures Sum(counts, lo, hi) == Sum(counts, lo, mid) + Sum(counts, mid, hi)
    decreases hi
  {
    if mid < hi {
      SumSplit(counts, lo, mid, hi - 1);
    }
  }

  lemma WindowSum(counts: seq<real>, window: nat, y: nat)
    requires window >= 1 && y < |counts|
    ensures Sum(counts, y + 1 - Span(window, y), y + 1) == Sum(counts, 0, y + 1) - (if y >= window then Sum(counts, 0, y + 1 - window) else 0.0)
  {
    SumSplit(counts, 0, y + 1 - Span(window, y), y + 1);
  }

  /** `cumsum`. */
  method RunningSums(counts: seq<real>) returns (csum: seq<real>)
    ensures |csum| == |counts| && forall y :: 0 <= y < |counts| ==> csum[y] == Sum(counts, 0, y + 1)
  {
    csum := [];
    var sum := 0.0;
    for y := 0 to |counts|
      invariant |csum| == y && sum == Sum(counts, 0, y)
      invariant forall z :: 0 <= z < y ==> csum[z] == Sum(counts, 0, z + 1)
    {
      sum := sum + counts[y];
      csum := csum + [sum];
    }
  }

  /** `trailing_mean`: window sums as differences of running sums. */
  method TrailingMean(counts: seq<real>, window: nat) returns (c: seq<real>)
    requires window >= 1
    ensures c == Means(counts, window)
  {
    var csum := RunningSums(counts);
    c := [];
    for y := 0 to |counts|
      invariant |c| == y && forall z :: 0 <= z < y ==> c[z] == Means(counts, window)[z]
    {
      var total := if y >= window then csum[y] - csum[y - window] else csum[y];
      WindowSum(counts, window, y);
      c := c + [Quotient(total, Span(window, y))];
    }
  }

  /** `emergence_index` for one row. */
  method EmergenceIndex(counts: seq<real>, total: real) returns (y0: nat)
    ensures y0 == Emergence(counts, total)
  {
    var csum := RunningSums(counts);
    y0 := 0;
    while y0 < |counts| && csum[y0] < total
      invariant y0 <= |counts| && Emergence(counts, total) == EmergenceFrom(counts, total, y0)
    {
      y0 := y0 + 1;
    }
  }

  /** `np.maximum.accumulate`. */
  method Peaks(c: seq<real>) returns (peak: seq<real>)
    ensures |peak| == |c| && forall y :: 0 <= y < |c| ==> peak[y] == Peak(c, y)
  {
    peak := [];
    for y := 0 to |c|
      invariant |peak| == y && forall z :: 0 <= z < y ==> peak[z] == Peak(c, z)
    {
      peak := peak + [if y == 0 then c[0] else Max(peak[y - 1], c[y])];
    }
  }

  datatype Ext = Inf | Fin(value: real)

  /** The running trough as year `y` begins. */
  function TroughBefore(c: seq<real>, y0: nat, rule: Rule, y: nat): Ext
    requires y <= |c|
  {
    if y == 0 || !Low(c, y0, rule, y - 1) then Inf else Fin(Trough(c, y0, rule, y - 1))
  }

  function Lower(trough: Ext, c: real): real {
    if trough.Inf? then c else Min(trough.value, c)
  }

  lemma TroughRuns(c: seq<real>, y0: nat, rule: Rule, y: nat)
    requires y < |c|
    ensures Lower(TroughBefore(c, y0, rule, y), c[y]) == Trough(c, y0, rule, y)
  {
  }

  /** One row's year, from the running trough: its stage, and the trough it leaves. */
  method Year(c: seq<real>, peak: seq<real>, y0: nat, rule: Rule, y: nat, trough: Ext) returns (stage: Stage, next: Ext)
    requires y < |c| == |peak| && peak[y] == Peak(c, y) && trough == TroughBefore(c, y0, rule, y)
    ensures stage == StageOf(c, y0, rule, y) && next == TroughBefore(c, y0, rule, y + 1)
  {
    stage := Absent;
    TroughRuns(c, y0, rule, y);
    var live := y >= y0;
    var active := live && Reaches(c[y], rule.activeShare, peak[y]);
    var young := (y - y0) as real < rule.establishYears;
    if active && young {
      stage := Emerging;
    }
    if active && !young {
      stage := Established;
    }
    next := if active || !live then Inf else Fin(Lower(trough, c[y]));
    var low := live && !active;
    var reviving := low && Reaches(c[y], rule.reviveRatio, next.value) && Reaches(c[y], rule.reviveFloor, peak[y]);
    if low && !reviving {
      stage := Declining;
    }
    if reviving {
      stage := Reviving;
    }
  }

  /** `stages` for one row. */
  method RowStages(counts: seq<real>, rule: Rule) returns (out: seq<Stage>)
    requires rule.window >= 1
    ensures |out| == |counts| && forall y :: 0 <= y < |counts| ==> out[y] == StageAt(counts, rule, y)
  {
    var c := TrailingMean(counts, rule.window);
    var y0 := EmergenceIndex(counts, rule.emergeTotal);
    var peak := Peaks(c);
    var trough := Inf;
    out := [];
    for y := 0 to |counts|
      invariant |out| == y && trough == TroughBefore(c, y0, rule, y)
      invariant forall z :: 0 <= z < y ==> out[z] == StageOf(c, y0, rule, z)
    {
      var stage;
      stage, trough := Year(c, peak, y0, rule, y, trough);
      out := out + [stage];
    }
  }

  /** `stages`: every row on its own. */
  method Stages(counts: seq<seq<real>>, rule: Rule) returns (out: seq<seq<Stage>>)
    requires rule.window >= 1
    ensures |out| == |counts|
    ensures forall r :: 0 <= r < |counts| ==> |out[r]| == |counts[r]|
    ensures forall r, y :: 0 <= r < |counts| && 0 <= y < |counts[r]| ==> out[r][y] == StageAt(counts[r], rule, y)
  {
    out := [];
    for r := 0 to |counts|
      invariant |out| == r
      invariant forall s :: 0 <= s < r ==> |out[s]| == |counts[s]|
      invariant forall s, y :: 0 <= s < r && 0 <= y < |counts[s]| ==> out[s][y] == StageAt(counts[s], rule, y)
    {
      var row := RowStages(counts[r], rule);
      out := out + [row];
    }
  }

  // ---- Causality ----

  lemma {:induction false} SumOfPrefix(counts: seq<real>, longer: seq<real>, lo: nat, hi: nat)
    requires lo <= hi <= |counts| && counts <= longer
    ensures Sum(longer, lo, hi) == Sum(counts, lo, hi)
    decreases hi
  {
    if lo < hi {
      SumOfPrefix(counts, longer, lo, hi - 1);
    }
  }

  lemma {:induction false} EmergenceOfPrefix(counts: seq<real>, longer: seq<real>, total: real, y: nat)
    requires counts <= longer && y <= |counts|
    ensures var a, b := EmergenceFrom(counts, total, y), EmergenceFrom(longer, total, y);
      if a < |counts| then b == a else b >= |counts|
    decreases |counts| - y
  {
    if y < |counts| {
      SumOfPrefix(counts, longer, 0, y + 1);
      if Sum(counts, 0, y + 1) < total {
        EmergenceOfPrefix(counts, longer, total, y + 1);
      }
    }
  }

  lemma MeansOfPrefix(counts: seq<real>, longer: seq<real>, window: nat)
    requires counts <= longer && window >= 1
    ensures Means(counts, window) <= Means(longer, window)
  {
    var c, d := Means(counts, window), Means(longer, window);
    forall y | 0 <= y < |counts| ensures d[y] == c[y] {
      SumOfPrefix(counts, longer, y + 1 - Span(window, y), y + 1);
    }
  }

  /** In a year the shorter timeline covers, it has emerged exactly when the longer one has, at the same time. */
  predicate SameEmergence(n: nat, y0: nat, z0: nat) {
    if y0 < n then z0 == y0 else z0 >= n
  }

  lemma {:induction false} PeakOfPrefix(c: seq<real>, d: seq<real>, y: nat)
    requires c <= d && y < |c|
    ensures Peak(d, y) == Peak(c, y)
  {
    if y > 0 {
      PeakOfPrefix(c, d, y - 1);
    }
  }

  lemma {:induction false} LeastOfPrefix(c: seq<real>, d: seq<real>, from: nat, y: nat)
    requires c <= d && from <= y < |c|
    ensures Least(d, from, y) == Least(c, from, y)
    decreases y
  {
    if from < y {
      LeastOfPrefix(c, d, from, y - 1);
    }
  }

  lemma {:induction false} SinceOfPrefix(c: seq<real>, d: seq<real>, y0: nat, z0: nat, rule: Rule, y: nat)
    requires c <= d && y < |c| && SameEmergence(|c|, y0, z0)
    ensures Since(d, z0, rule, y) == Since(c, y0, rule, y)
  {
    if y > 0 {
      PeakOfPrefix(c, d, y - 1);
      SinceOfPrefix(c, d, y0, z0, rule, y - 1);
    }
  }

  /** Later years never change an earlier stage. */
  lemma Causal(counts: seq<real>, longer: seq<real>, rule: Rule, y: nat)
    requires counts <= longer && rule.window >= 1 && y < |counts|
    ensures StageAt(longer, rule, y) == StageAt(counts, rule, y)
  {
    EmergenceOfPrefix(counts, longer, rule.emergeTotal, 0);
    MeansOfPrefix(counts, longer, rule.window);
    var c, d := Means(counts, rule.window), Means(longer, rule.window);
    var y0, z0 := Emergence(counts, rule.emergeTotal), Emergence(longer, rule.emergeTotal);
    PeakOfPrefix(c, d, y);
    SinceOfPrefix(c, d, y0, z0, rule, y);
    LeastOfPrefix(c, d, Since(c, y0, rule, y), y);
  }

  // ---- What the stages mean ----

  /** Releases up to and including year `y`. */
  function Cumulative(counts: seq<real>, y: nat): real
    requires y < |counts|
  {
    Sum(counts, 0, y + 1)
  }

  lemma {:induction false} EmergenceIsFirst(counts: seq<real>, total: real, y: nat)
    requires y <= |counts|
    ensures var y0 := EmergenceFrom(counts, total, y);
      && (forall z :: y <= z < y0 ==> Cumulative(counts, z) < total)
      && (y0 < |counts| ==> Cumulative(counts, y0) >= total)
    decreases |counts| - y
  {
    if y < |counts| && Sum(counts, 0, y + 1) < total {
      EmergenceIsFirst(counts, total, y + 1);
    }
  }

  /** A style is absent exactly while no year so far has brought its total to the threshold. */
  lemma AbsentUntilEmergence(counts: seq<real>, rule: Rule, y: nat)
    requires rule.window >= 1 && y < |counts|
    ensures StageAt(counts, rule, y) == Absent <==> forall z :: 0 <= z <= y ==> Cumulative(counts, z) < rule.emergeTotal
  {
    EmergenceIsFirst(counts, rule.emergeTotal, 0);
    var y0 := Emergence(counts, rule.emergeTotal);
    if y0 <= y {
      assert Cumulative(counts, y0) >= rule.emergeTotal;
    }
  }

  /** A style that was established once never emerges again. */
  lemma NoSecondEmergence(counts: seq<real>, rule: Rule, y: nat, later: nat)
    requires rule.window >= 1 && y < later < |counts|
    requires StageAt(counts, rule, y) == Established
    ensures StageAt(counts, rule, later) != Emerging && StageAt(counts, rule, later) != Absent
  {
  }

  /** The stretch is a run of inactive years that cannot be extended to the left. */
  lemma {:induction false} SinceIsStretch(c: seq<real>, y0: nat, rule: Rule, y: nat)
    requires y < |c| && Low(c, y0, rule, y)
    ensures var s := Since(c, y0, rule, y);
      && (forall z :: s <= z <= y ==> Low(c, y0, rule, z)) && Since(c, y0, rule, s) == s
      && (s == 0 || !Low(c, y0, rule, s - 1))
  {
    if y > 0 && Low(c, y0, rule, y - 1) {
      SinceIsStretch(c, y0, rule, y - 1);
    }
  }

  lemma {:induction false} LeastIs(c: seq<real>, from: nat, y: nat)
    requires from <= y < |c|
    ensures forall z :: from <= z <= y ==> Least(c, from, y) <= c[z]
    ensures exists z :: from <= z <= y && Least(c, from, y) == c[z]
    decreases y
  {
    if from < y {
      LeastIs(c, from, y - 1);
      assert Least(c, from, y) == Least(c, from, y - 1) || Least(c, from, y) == c[y];
    } else {
      assert Least(c, from, y) == c[y];
    }
  }

  lemma {:induction false} PeakIs(c: seq<real>, y: nat)
    requires y < |c|
    ensures forall z :: 0 <= z <= y ==> c[z] <= Peak(c, y)
    ensures exists z :: 0 <= z <= y && c[z] == Peak(c, y)
  {
    if y > 0 {
      PeakIs(c, y - 1);
      assert Peak(c, y) == Peak(c, y - 1) || Peak(c, y) == c[y];
    } else {
      assert c[0] == Peak(c, 0);
    }
  }

  predicate Nonnegative(counts: seq<real>) {
    forall y :: 0 <= y < |counts| ==> counts[y] >= 0.0
  }

  lemma {:induction false} SumNonnegative(counts: seq<real>, lo: nat, hi: nat)
    requires lo <= hi <= |counts| && Nonnegative(counts)
    ensures Sum(counts, lo, hi) >= 0.0
    decreases hi
  {
    if lo < hi {
      SumNonnegative(counts, lo, hi - 1);
    }
  }

  lemma QuotientNonnegative(x: real, n: nat)
    requires x >= 0.0 && n >= 1
    ensures Quotient(x, n) >= 0.0
  {
  }

  lemma MeansNonnegative(counts: seq<real>, window: nat)
    requires window >= 1 && Nonnegative(counts)
    ensures Nonnegative(Means(counts, window))
  {
    forall y | 0 <= y < |counts| ensures Mean(counts, window, y) >= 0.0 {
      SumNonnegative(counts, y + 1 - Span(window, y), y + 1);
      QuotientNonnegative(Sum(counts, y + 1 - Span(window, y), y + 1), Span(window, y));
    }
  }

  lemma LowStage(c: seq<real>, y0: nat, rule: Rule, x: nat)
    requires x < |c| && Low(c, y0, rule, x)
    ensures StageOf(c, y0, rule, x) == Declining || StageOf(c, y0, rule, x) == Reviving
  {
  }

  // ---- From rows to counts ----

  datatype Release = Release(style: nat, year: int, count: nat)

  /** Releases of a style in a year. */
  function Tally(rows: seq<Release>, style: nat, year: int): nat {
    if rows == [] then 0
    else
      var last := rows[|rows| - 1];
      Tally(rows[..|rows| - 1], style, year) + (if last.style == style && last.year == year then last.count else 0)
  }

  function Kept(rows: seq<Release>, lastYear: int): (r: seq<Release>)
    ensures forall i :: 0 <= i < |r| ==> r[i].year <= lastYear
  {
    if rows == [] then []
    else
      var front, last := Kept(rows[..|rows| - 1], lastYear), rows[|rows| - 1];
      if last.year <= lastYear then front + [last] else front
  }

  lemma {:induction false} KeptTally(rows: seq<Release>, lastYear: int, style: nat, year: int)
    requires year <= lastYear
    ensures Tally(Kept(rows, lastYear), style, year) == Tally(rows, style, year)
    decreases |rows|
  {
    if rows != [] {
      KeptTally(rows[..|rows| - 1], lastYear, style, year);
    }
  }

  function StylesOf(rows: seq<Release>): (r: seq<nat>)
    ensures |r| == |rows|
  {
    seq(|rows|, i requires 0 <= i < |rows| => rows[i].style)
  }

  function FirstYear(rows: seq<Release>, lastYear: int): (y: int)
    requires forall i :: 0 <= i < |rows| ==> rows[i].year <= lastYear
    ensures y <= lastYear && forall i :: 0 <= i < |rows| ==> y <= rows[i].year
  {
    if rows == [] then lastYear
    else
      var front, last := FirstYear(rows[..|rows| - 1], lastYear), rows[|rows| - 1].year;
      if last < front then last else front
  }

  function IndexOf(styles: seq<nat>, style: nat): (i: nat)
    requires style in styles
    ensures i < |styles| && styles[i] == style
  {
    if styles[0] == style then 0 else 1 + IndexOf(styles[1..], style)
  }

  /** A tally is the sum of the releases of the style's rows of the year: each row, wherever it stands, adds its own
      and no other. */
  lemma {:induction false} TallyOfRow(before: seq<Release>, row: Release, after: seq<Release>, style: nat, year: int)
    ensures Tally([], style, year) == 0
    ensures Tally(before + [row] + after, style, year)
      == Tally(before + after, style, year) + (if row.style == style && row.year == year then row.count else 0)
    decreases |after|
  {
    if after == [] {
      assert before + [row] + after == before + [row] && before + after == before;
    } else {
      var front, last := after[..|after| - 1], after[|after| - 1];
      TallyOfRow(before, row, front, style, year);
      assert before + [row] + after == before + [row] + front + [last];
      assert before + after == before + front + [last];
    }
  }

  /** Every cell holds its style's releases of its year. */
  ghost predicate Tallied(rows: seq<Release>, styles: seq<nat>, firstYear: int, counts: array2<nat>)
    reads counts
  {
    && counts.Length0 == |styles|
    && forall i, j :: 0 <= i < |styles| && 0 <= j < counts.Length1 ==> counts[i, j] == Tally(rows, styles[i], firstYear + j)
  }

  /** One row added to its style's year. */
  method AddRelease(kept: seq<Release>, k: nat, styles: seq<nat>, i: nat, firstYear: int, counts: array2<nat>)
    requires k < |kept| && i < |styles| && Ascending(styles) && styles[i] == kept[k].style
    requires firstYear <= kept[k].year < firstYear + counts.Length1 && Tallied(kept[..k], styles, firstYear, counts)
    modifies counts
    ensures Tallied(kept[..k + 1], styles, firstYear, counts)
  {
    var row := kept[k];
    assert kept[..k + 1][..k] == kept[..k] && kept[..k + 1][k] == row;
    counts[i, row.year - firstYear] := counts[i, row.year - firstYear] + row.count;
  }

  lemma {:induction false} KeptAre(rows: seq<Release>, lastYear: int)
    ensures forall r :: r in Kept(rows, lastYear) <==> r in rows && r.year <= lastYear
    decreases |rows|
  {
    if rows != [] {
      KeptAre(rows[..|rows| - 1], lastYear);
      assert rows == rows[..|rows| - 1] + [rows[|rows| - 1]];
    }
  }

  lemma StyleKept(kept: seq<Release>, s: nat)
    ensures s in StylesOf(kept) <==> exists r :: r in kept && r.style == s
  {
    if s in StylesOf(kept) {
      var i :| 0 <= i < |kept| && StylesOf(kept)[i] == s;
      assert kept[i] in kept;
    }
    if exists r :: r in kept && r.style == s {
      var r :| r in kept && r.style == s;
      var i :| 0 <= i < |kept| && kept[i] == r;
      assert StylesOf(kept)[i] == s;
    }
  }

  lemma StylesKept(rows: seq<Release>, lastYear: int)
    ensures forall s :: s in StylesOf(Kept(rows, lastYear)) <==> exists r :: r in rows && r.style == s && r.year <= lastYear
  {
    var kept := Kept(rows, lastYear);
    KeptAre(rows, lastYear);
    forall s ensures s in StylesOf(kept) <==> exists r :: r in rows && r.style == s && r.year <= lastYear {
      StyleKept(kept, s);
    }
  }

  /** `style_lifecycles`: the styles in order, and each one's releases per year up to the last complete year. */
  method CountReleases(rows: seq<Release>, lastYear: int) returns (styles: seq<nat>, firstYear: int, counts: array2<nat>)
    ensures Ascending(styles) && forall s :: s in styles <==> exists r :: r in rows && r.style == s && r.year <= lastYear
    ensures firstYear <= lastYear && counts.Length0 == |styles| && counts.Length1 == lastYear - firstYear + 1
    ensures forall i, j :: 0 <= i < |styles| && 0 <= j < counts.Length1 ==> counts[i, j] == Tally(rows, styles[i], firstYear + j)
    ensures forall r :: r in rows && r.year <= lastYear ==> firstYear <= r.year
  {
    var kept := Kept(rows, lastYear);
    styles := SortedSet(StylesOf(kept));
    firstYear := FirstYear(kept, lastYear);
    SortedSetIs(StylesOf(kept));
    KeptAre(rows, lastYear);
    counts := new nat[|styles|, lastYear - firstYear + 1]((i, j) => 0);
    for k := 0 to |kept|
      invariant Tallied(kept[..k], styles, firstYear, counts)
    {
      var row := kept[k];
      assert StylesOf(kept)[k] in StylesOf(kept);
      var i := IndexOf(styles, row.style);
      AddRelease(kept, k, styles, i, firstYear, counts);
    }
    assert kept[..|kept|] == kept;
    forall i, j | 0 <= i < |styles| && 0 <= j < counts.Length1 ensures counts[i, j] == Tally(rows, styles[i], firstYear + j) {
      KeptTally(rows, lastYear, styles[i], firstYear + j);
    }
    StylesKept(rows, lastYear);
  }
}
