/** `_fastrp`: the embedding computed in column blocks, in one pass or two, for all rows or some, with or
    without a pool, always performs the one sequence of float operations `Embed` names. */
module FastRP {
  import opened Adjacency
  import opened Propagator
  import Sorting

  /** Everything the embedding is a function of. `project(v, j)` is the projection's entry for row v, column j. */
  datatype Model = Model(ar: Arith, a: Matrix, project: (nat, nat) -> Single, dim: nat, weights: seq<Double>, selfWeight: Double)

  predicate Valid(m: Model) {
    MatrixValid(m.a) && m.dim >= 1 && exists k :: 0 <= k < |m.weights| && m.ar.nonzero(m.weights[k])
  }

  // ---- The embedding, one entry at a time ----

  function N(m: Model): nat { |m.a.nodes| }

  /** The matrix applied `k` times to a column. */
  function Power(ar: Arith, a: Matrix, x: seq<Single>, k: nat): (r: seq<Single>)
    requires MatrixValid(a) && |x| == |a.nodes|
    ensures |r| == |x|
  {
    if k == 0 then x else Times(ar, a, Power(ar, a, x, k - 1))
  }

  /** Column `j` of the projection. */
  function Projected(m: Model, j: nat): (r: seq<Single>)
    ensures |r| == N(m)
  {
    seq(N(m), v requires 0 <= v < N(m) => m.project(v, j))
  }

  /** Column `j` of the projection propagated `k` times. */
  function Column(m: Model, k: nat, j: nat): (r: seq<Single>)
    requires MatrixValid(m.a)
    ensures |r| == N(m)
  {
    Power(m.ar, m.a, Projected(m, j), k)
  }

  function AddSquare(ar: Arith, total: Double, x: Single): Double {
    ar.addD(total, ar.mulD(ar.widen(x), ar.widen(x)))
  }

  /** Row `v`'s squared norm over the first `j` columns of the k-th power, summed column by column. */
  function SumSq(m: Model, k: nat, v: nat, j: nat): Double
    requires MatrixValid(m.a) && v < N(m)
  {
    if j == 0 then m.ar.zeroD else AddSquare(m.ar, SumSq(m, k, v, j - 1), Column(m, k, j - 1)[v])
  }

  /** `weight / |row|`, a zero row counting as length one. */
  function Scale(ar: Arith, weight: Double, squares: Double): Single {
    var norm := ar.sqrt(squares);
    ar.narrow(ar.divD(weight, if ar.nonzero(norm) then norm else ar.oneD))
  }

  /** The order in which the two factors are multiplied differs between all rows and picked rows. */
  function Scaled(ar: Arith, picked: bool, scale: Single, x: Single): Single {
    if picked then ar.mul(x, scale) else ar.mul(scale, x)
  }

  function Term(m: Model, picked: bool, weight: Double, k: nat, v: nat, j: nat): Single
    requires MatrixValid(m.a) && v < N(m)
  {
    Scaled(m.ar, picked, Scale(m.ar, weight, SumSq(m, k, v, m.dim)), Column(m, k, j)[v])
  }

  /** The self term, then the terms of the first `t` weights that are not zero. */
  function Partial(m: Model, picked: bool, v: nat, j: nat, t: nat): Single
    requires MatrixValid(m.a) && v < N(m) && t <= |m.weights|
  {
    if t == 0 then
      if m.ar.nonzero(m.selfWeight) then m.ar.add(m.ar.zero, Term(m, picked, m.selfWeight, 0, v, j)) else m.ar.zero
    else if m.ar.nonzero(m.weights[t - 1]) then
      m.ar.add(Partial(m, picked, v, j, t - 1), Term(m, picked, m.weights[t - 1], t, v, j))
    else Partial(m, picked, v, j, t - 1)
  }

  /** Entry `j` of the embedding of row `v`. */
  function Embed(m: Model, picked: bool, v: nat, j: nat): Stored
    requires MatrixValid(m.a) && v < N(m)
  {
    m.ar.store(Partial(m, picked, v, j, |m.weights|))
  }

  /** One past the last weight that is not zero. */
  function Powers(ar: Arith, weights: seq<Double>): (p: nat)
    ensures p <= |weights| && forall k :: p <= k < |weights| ==> !ar.nonzero(weights[k])
    ensures p > 0 ==> ar.nonzero(weights[p - 1])
  {
    if weights == [] then 0
    else if ar.nonzero(weights[|weights| - 1]) then |weights|
    else Powers(ar, weights[..|weights| - 1])
  }

  lemma {:induction false} TrailingZeros(m: Model, picked: bool, v: nat, j: nat, p: nat, t: nat)
    requires MatrixValid(m.a) && v < N(m) && p <= t <= |m.weights|
    requires forall k :: p <= k < |m.weights| ==> !m.ar.nonzero(m.weights[k])
    ensures Partial(m, picked, v, j, t) == Partial(m, picked, v, j, p)
    decreases t
  {
    if p < t {
      TrailingZeros(m, picked, v, j, p, t - 1);
    }
  }

  lemma {:induction false} PickedPartial(m: Model, v: nat, j: nat, t: nat)
    requires MatrixValid(m.a) && v < N(m) && t <= |m.weights|
    requires forall x, y :: m.ar.mul(x, y) == m.ar.mul(y, x)
    ensures Partial(m, true, v, j, t) == Partial(m, false, v, j, t)
  {
    if t > 0 {
      PickedPartial(m, v, j, t - 1);
    }
  }

  /** Embedding picked rows is picking from the embedding of all, as long as a product does not depend on the
      order of its factors. */
  lemma SelectingRows(m: Model, v: nat, j: nat)
    requires MatrixValid(m.a) && v < N(m)
    requires forall x, y :: m.ar.mul(x, y) == m.ar.mul(y, x)
    ensures Embed(m, true, v, j) == Embed(m, false, v, j)
  {
    PickedPartial(m, v, j, |m.weights|);
  }

  /** One node without edges, embedded in one column from its projection 7 with self weight 5, in an arithmetic
      whose product is its first factor. */
  function OneNode(): Model {
    var ar := Arith(0, (x, y) => x + y, (x, y) => x, x => x, x => x, x => x, 0, 1, x => x != 0, (x, y) => x + y, (x, y) => x, (x, y) => x, x => x);
    Model(ar, Transition([0], [0, 0], [], [], [0]), (v, j) => 7, 1, [1], 5)
  }

  /** Where the order of the factors matters, the two paths can differ. */
  lemma OrderMatters()
    ensures Valid(OneNode()) && Embed(OneNode(), true, 0, 0) == 7 && Embed(OneNode(), false, 0, 0) == 6
  {
    var m := OneNode();
    assert Column(m, 1, 0)[0] == 0;
    assert Partial(m, true, 0, 0, 0) == 7 && Partial(m, false, 0, 0, 0) == 5;
    assert Partial(m, true, 0, 0, 1) == 7 && Partial(m, false, 0, 0, 1) == 6;
  }

  /** One node without edges whose only term multiplies the scale x and the entry y. */
  function OneProduct(mul: (Single, Single) -> Single, x: Single, y: Single): Model {
    var ar := Arith(y, (a, b) => b, mul, a => a, a => x, a => a, 0, 1, a => a != 0, (a, b) => a, (a, b) => a, (a, b) => a, a => a);
    Model(ar, Transition([0], [0, 0], [], [], [0]), (v, j) => y, 1, [1], 0)
  }

  lemma OneProductIs(mul: (Single, Single) -> Single, x: Single, y: Single)
    ensures var m := OneProduct(mul, x, y);
      Valid(m) && m.ar.mul == mul && Embed(m, true, 0, 0) == mul(y, x) && Embed(m, false, 0, 0) == mul(x, y)
  {
    var m := OneProduct(mul, x, y);
    assert m.ar.nonzero(m.weights[0]);
    assert Column(m, 1, 0)[0] == y;
  }

  predicate PathsAgree(m: Model, v: nat, j: nat)
    requires MatrixValid(m.a) && v < N(m)
  {
    Embed(m, true, v, j) == Embed(m, false, v, j)
  }

  /** Whatever the other operations, the two paths agree on all inputs exactly if multiplication commutes. */
  lemma SelectingExactly(mul: (Single, Single) -> Single)
    ensures (forall m: Model, v: nat, j: nat :: Valid(m) && m.ar.mul == mul && v < N(m) && j < m.dim ==> PathsAgree(m, v, j))
      <==> (forall x, y :: mul(x, y) == mul(y, x))
  {
    if x, y :| mul(x, y) != mul(y, x) {
      OneProductIs(mul, x, y);
      assert !PathsAgree(OneProduct(mul, x, y), 0, 0);
    } else {
      forall m: Model, v: nat, j: nat | Valid(m) && m.ar.mul == mul && v < N(m) && j < m.dim ensures PathsAgree(m, v, j) {
        SelectingRows(m, v, j);
      }
    }
  }

  // ---- Blocks ----

  function ColumnFrom(m: Model, k: nat, start: nat, c: nat): (r: seq<Single>)
    requires MatrixValid(m.a)
    ensures |r| == N(m)
  {
    Column(m, k, start + c)
  }

  /** Columns `start` to `stop` of the k-th power. */
  function Columns(m: Model, k: nat, start: nat, stop: nat): (b: Block)
    requires MatrixValid(m.a) && start <= stop
    ensures |b| == stop - start && IsBlock(b, N(m))
  {
    seq(stop - start, c requires 0 <= c < stop - start => ColumnFrom(m, k, start, c))
  }

  function Squares(m: Model, k: nat, j: nat): (r: seq<Double>)
    requires MatrixValid(m.a)
    ensures |r| == N(m)
  {
    seq(N(m), v requires 0 <= v < N(m) => SumSq(m, k, v, j))
  }

  /** One row slice of the projection. */
  method ProjectRows(m: Model, start: nat, stop: nat, lo: nat, hi: nat, out: array2<Single>)
    requires MatrixValid(m.a) && start <= stop && lo <= hi <= N(m) && out.Length0 == N(m) && out.Length1 == stop - start
    modifies out
    ensures Holds(out, Columns(m, 0, start, stop), lo, hi)
    ensures forall v, c :: 0 <= v < out.Length0 && !(lo <= v < hi) && 0 <= c < out.Length1 ==> out[v, c] == old(out[v, c])
  {
    ghost var want := Columns(m, 0, start, stop);
    for v := lo to hi
      invariant Holds(out, want, lo, v)
      invariant forall w, c :: 0 <= w < out.Length0 && !(lo <= w < hi) && 0 <= c < out.Length1 ==> out[w, c] == old(out[w, c])
    {
      for c := 0 to stop - start
        invariant Holds(out, want, lo, v)
        invariant forall d :: 0 <= d < c ==> out[v, d] == want[d][v]
        invariant forall w, d :: 0 <= w < out.Length0 && !(lo <= w < hi) && 0 <= d < out.Length1 ==> out[w, d] == old(out[w, d])
      {
        assert want[c] == Projected(m, start + c);
        out[v, c] := m.project(v, start + c);
      }
    }
  }

  /** `_Projector.__call__`: whole, or one slice of `TASK_ROWS` rows per task. */
  method Project(m: Model, threaded: bool, start: nat, stop: nat) returns (r: Block)
    requires MatrixValid(m.a) && start <= stop
    ensures r == Columns(m, 0, start, stop)
  {
    var out := new Single[N(m), stop - start];
    if threaded {
      var lo := 0;
      while lo < N(m)
        invariant 0 <= lo <= N(m)
        invariant Holds(out, Columns(m, 0, start, stop), 0, lo)
      {
        var hi := if lo + TASK_ROWS < N(m) then lo + TASK_ROWS else N(m);
        ProjectRows(m, start, stop, lo, hi, out);
        lo := hi;
      }
    } else {
      ProjectRows(m, start, stop, 0, N(m), out);
    }
    r := Contents(out);
    SameBlock(r, Columns(m, 0, start, stop), N(m));
  }

  lemma NextColumnPower(m: Model, k: nat, start: nat, c: nat)
    requires MatrixValid(m.a)
    ensures Times(m.ar, m.a, ColumnFrom(m, k, start, c)) == ColumnFrom(m, k + 1, start, c)
  {
  }

  lemma NextPower(m: Model, k: nat, start: nat, stop: nat)
    requires MatrixValid(m.a) && start <= stop
    ensures Product(m.ar, m.a, Columns(m, k, start, stop)) == Columns(m, k + 1, start, stop)
  {
    var next, now := Columns(m, k + 1, start, stop), Columns(m, k, start, stop);
    forall c | 0 <= c < stop - start ensures Product(m.ar, m.a, now)[c] == next[c] {
      NextColumnPower(m, k, start, c);
      assert now[c] == ColumnFrom(m, k, start, c) && next[c] == ColumnFrom(m, k + 1, start, c);
    }
  }

  /** One column's squares. */
  function AddSquares(ar: Arith, total: seq<Double>, column: seq<Single>): (r: seq<Double>)
    requires |total| == |column|
    ensures |r| == |total|
  {
    seq(|total|, v requires 0 <= v < |total| => AddSquare(ar, total[v], column[v]))
  }

  lemma NextSquares(m: Model, k: nat, j: nat, column: seq<Single>, total: seq<Double>)
    requires MatrixValid(m.a) && column == Column(m, k, j) && total == Squares(m, k, j)
    ensures AddSquares(m.ar, total, column) == Squares(m, k, j + 1)
  {
  }

  lemma NextInBlock(m: Model, k: nat, start: nat, stop: nat, block: Block, j: nat, total: seq<Double>)
    requires MatrixValid(m.a) && start <= stop && block == Columns(m, k, start, stop) && j < |block|
    requires total == Squares(m, k, start + j)
    ensures |block[j]| == N(m) && AddSquares(m.ar, total, block[j]) == Squares(m, k, start + j + 1)
  {
    NextSquares(m, k, start + j, block[j], total);
  }

  /** `_accumulate_squares`: the squares of a block's columns, added column by column. */
  method AccumulateSquares(m: Model, block: Block, total: seq<Double>, ghost k: nat, ghost start: nat, ghost stop: nat) returns (r: seq<Double>)
    requires MatrixValid(m.a) && start <= stop && block == Columns(m, k, start, stop) && total == Squares(m, k, start)
    ensures r == Squares(m, k, stop)
  {
    r := total;
    for j := 0 to |block|
      invariant r == Squares(m, k, start + j)
    {
      NextInBlock(m, k, start, stop, block, j, r);
      r := AddSquares(m.ar, r, block[j]);
    }
  }

  // ---- The rows returned ----

  datatype Rows = All | Picked(rows: seq<int>)

  function RowCount(m: Model, rows: Rows): nat {
    if rows.All? then N(m) else |rows.rows|
  }

  /** NumPy takes a negative position from the end, and refuses what is outside either way. */
  predicate RowsValid(m: Model, rows: Rows) {
    rows.Picked? ==> forall i :: 0 <= i < |rows.rows| ==> 0 <= rows.rows[i] + N(m) && rows.rows[i] < N(m)
  }

  function RowAt(m: Model, rows: Rows, i: nat): (v: nat)
    requires RowsValid(m, rows) && i < RowCount(m, rows)
    ensures v < N(m)
  {
    if rows.All? then i else if rows.rows[i] < 0 then rows.rows[i] + N(m) else rows.rows[i]
  }

  /** `_scale`: the scale of every returned row. */
  function Scales(m: Model, rows: Rows, weight: Double, squares: seq<Double>): (r: seq<Single>)
    requires RowsValid(m, rows) && |squares| == N(m)
    ensures |r| == RowCount(m, rows)
  {
    seq(RowCount(m, rows), i requires 0 <= i < RowCount(m, rows) => Scale(m.ar, weight, squares[RowAt(m, rows, i)]))
  }

  /** The scales with the whole squared norm of the k-th power. */
  function FullScales(m: Model, rows: Rows, weight: Double, k: nat): (r: seq<Single>)
    requires MatrixValid(m.a) && RowsValid(m, rows)
    ensures |r| == RowCount(m, rows)
  {
    Scales(m, rows, weight, Squares(m, k, m.dim))
  }

  // ---- The first pass: squared norms across all blocks ----

  predicate Weighs(m: Model, k: nat) {
    k < |m.weights| && m.ar.nonzero(m.weights[k])
  }

  /** The sums of the powers `from` to `to` whose weights are not zero, over the first `j` columns. */
  ghost predicate Summed(m: Model, sums: map<nat, seq<Double>>, from: nat, to: nat, j: nat)
    requires MatrixValid(m.a)
  {
    forall k :: from <= k < to && Weighs(m, k) ==> k in sums && sums[k] == Squares(m, k + 1, j)
  }

  ghost predicate SelfSummed(m: Model, selfSum: seq<Double>, j: nat)
    requires MatrixValid(m.a)
  {
    m.ar.nonzero(m.selfWeight) ==> selfSum == Squares(m, 0, j)
  }

  lemma SumAt(m: Model, sums: map<nat, seq<Double>>, k: nat, start: nat)
    requires MatrixValid(m.a) && Weighs(m, k) && Summed(m, sums, k, |m.weights|, start)
    ensures k in sums && sums[k] == Squares(m, k + 1, start)
  {
  }

  lemma SumSkipped(m: Model, sums: map<nat, seq<Double>>, k: nat, start: nat, stop: nat)
    requires MatrixValid(m.a) && k < |m.weights| && !Weighs(m, k)
    requires Summed(m, sums, 0, k, stop) && Summed(m, sums, k, |m.weights|, start)
    ensures Summed(m, sums, 0, k + 1, stop) && Summed(m, sums, k + 1, |m.weights|, start)
  {
  }

  lemma SumReplaced(m: Model, sums: map<nat, seq<Double>>, k: nat, sum: seq<Double>, start: nat, stop: nat)
    requires MatrixValid(m.a) && k < |m.weights| && sum == Squares(m, k + 1, stop)
    requires Summed(m, sums, 0, k, stop) && Summed(m, sums, k, |m.weights|, start)
    ensures Summed(m, sums[k := sum], 0, k + 1, stop) && Summed(m, sums[k := sum], k + 1, |m.weights|, start)
  {
  }

  /** One power's block added to its sum, if its weight is not zero. */
  method SumPower(m: Model, k: nat, current: Block, sums: map<nat, seq<Double>>, ghost start: nat, ghost stop: nat) returns (sums': map<nat, seq<Double>>)
    requires MatrixValid(m.a) && k < |m.weights| && start <= stop && current == Columns(m, k + 1, start, stop)
    requires Summed(m, sums, 0, k, stop) && Summed(m, sums, k, |m.weights|, start)
    ensures Summed(m, sums', 0, k + 1, stop) && Summed(m, sums', k + 1, |m.weights|, start)
  {
    sums' := sums;
    if m.ar.nonzero(m.weights[k]) {
      SumAt(m, sums, k, start);
      var sum := AccumulateSquares(m, current, sums[k], k + 1, start, stop);
      sums' := sums[k := sum];
      SumReplaced(m, sums, k, sum, start, stop);
    } else {
      SumSkipped(m, sums, k, start, stop);
    }
  }

  lemma RestNotSummed(m: Model, sums: map<nat, seq<Double>>, p: nat, start: nat, stop: nat)
    requires MatrixValid(m.a) && p <= |m.weights| && Summed(m, sums, 0, p, stop)
    requires forall k :: p <= k < |m.weights| ==> !m.ar.nonzero(m.weights[k])
    ensures Summed(m, sums, 0, |m.weights|, stop)
  {
  }

  /** One block of the first pass. */
  method SumBlock(m: Model, parts: seq<Part>, threaded: bool, start: nat, stop: nat, sums: map<nat, seq<Double>>, selfSum: seq<Double>)
    returns (sums': map<nat, seq<Double>>, selfSum': seq<Double>)
    requires MatrixValid(m.a) && Partition(m.a, parts) && start <= stop
    requires Summed(m, sums, 0, |m.weights|, start) && SelfSummed(m, selfSum, start)
    ensures Summed(m, sums', 0, |m.weights|, stop) && SelfSummed(m, selfSum', stop)
  {
    sums', selfSum' := sums, selfSum;
    var powers := Powers(m.ar, m.weights);
    var current := Project(m, threaded, start, stop);
    if m.ar.nonzero(m.selfWeight) {
      selfSum' := AccumulateSquares(m, current, selfSum, 0, start, stop);
    }
    for k := 0 to powers
      invariant current == Columns(m, k, start, stop)
      invariant Summed(m, sums', 0, k, stop) && Summed(m, sums', k, |m.weights|, start)
    {
      NextPower(m, k, start, stop);
      current := Propagate(m.ar, m.a, parts, threaded, current);
      sums' := SumPower(m, k, current, sums', start, stop);
    }
    RestNotSummed(m, sums', powers, start, stop);
  }

  function Stop(m: Model, start: nat, blockColumns: nat): nat {
    if start + blockColumns < m.dim then start + blockColumns else m.dim
  }

  function Zeros(m: Model): (r: seq<Double>)
    requires MatrixValid(m.a)
    ensures forall k :: r == Squares(m, k, 0)
  {
    seq(N(m), v requires 0 <= v < N(m) => m.ar.zeroD)
  }

  /** Zeroed sums for every weight that is not zero. */
  method ZeroSums(m: Model) returns (sums: map<nat, seq<Double>>)
    requires MatrixValid(m.a)
    ensures Summed(m, sums, 0, |m.weights|, 0)
  {
    sums := map[];
    for k := 0 to |m.weights|
      invariant Summed(m, sums, 0, k, 0)
    {
      if m.ar.nonzero(m.weights[k]) {
        sums := sums[k := Zeros(m)];
      }
    }
  }

  method FirstPass(m: Model, parts: seq<Part>, threaded: bool, blockColumns: nat) returns (sums: map<nat, seq<Double>>, selfSum: seq<Double>)
    requires MatrixValid(m.a) && Partition(m.a, parts) && blockColumns >= 1
    ensures Summed(m, sums, 0, |m.weights|, m.dim) && SelfSummed(m, selfSum, m.dim)
  {
    sums := ZeroSums(m);
    selfSum := Zeros(m);
    var start := 0;
    while start < m.dim
      invariant 0 <= start <= m.dim
      invariant Summed(m, sums, 0, |m.weights|, start) && SelfSummed(m, selfSum, start)
    {
      var stop := Stop(m, start, blockColumns);
      sums, selfSum := SumBlock(m, parts, threaded, start, stop, sums, selfSum);
      start := stop;
    }
  }

  // ---- The second pass: scaled contributions ----

  /** Column `j` of the returned rows after the first `t` weights. */
  function PartialColumn(m: Model, rows: Rows, j: nat, t: nat): (r: seq<Single>)
    requires MatrixValid(m.a) && RowsValid(m, rows) && t <= |m.weights|
    ensures |r| == RowCount(m, rows)
  {
    seq(RowCount(m, rows), i requires 0 <= i < RowCount(m, rows) => Partial(m, rows.Picked?, RowAt(m, rows, i), j, t))
  }

  function PartialFrom(m: Model, rows: Rows, start: nat, c: nat, t: nat): (r: seq<Single>)
    requires MatrixValid(m.a) && RowsValid(m, rows) && t <= |m.weights|
    ensures |r| == RowCount(m, rows)
  {
    PartialColumn(m, rows, start + c, t)
  }

  function PartialBlock(m: Model, rows: Rows, start: nat, stop: nat, t: nat): (b: Block)
    requires MatrixValid(m.a) && RowsValid(m, rows) && t <= |m.weights| && start <= stop
    ensures |b| == stop - start && IsBlock(b, RowCount(m, rows))
  {
    seq(stop - start, c requires 0 <= c < stop - start => PartialFrom(m, rows, start, c, t))
  }

  /** `block += scale * current` for one column, for all rows or the picked ones. */
  function AddColumn(m: Model, rows: Rows, block: seq<Single>, scale: seq<Single>, current: seq<Single>): (r: seq<Single>)
    requires RowsValid(m, rows) && |block| == |scale| == RowCount(m, rows) && |current| == N(m)
    ensures |r| == RowCount(m, rows)
  {
    seq(RowCount(m, rows), i requires 0 <= i < RowCount(m, rows) =>
      m.ar.add(block[i], Scaled(m.ar, rows.Picked?, scale[i], current[RowAt(m, rows, i)])))
  }

  function AddTerms(m: Model, rows: Rows, block: Block, scale: seq<Single>, current: Block): (r: Block)
    requires RowsValid(m, rows) && IsBlock(block, RowCount(m, rows)) && |scale| == RowCount(m, rows)
    requires |current| == |block| && IsBlock(current, N(m))
    ensures |r| == |block| && IsBlock(r, RowCount(m, rows))
  {
    seq(|block|, c requires 0 <= c < |block| => AddColumn(m, rows, block[c], scale, current[c]))
  }

  lemma NextColumn(m: Model, rows: Rows, k: nat, j: nat)
    requires MatrixValid(m.a) && RowsValid(m, rows) && Weighs(m, k)
    ensures AddColumn(m, rows, PartialColumn(m, rows, j, k), FullScales(m, rows, m.weights[k], k + 1), Column(m, k + 1, j))
      == PartialColumn(m, rows, j, k + 1)
  {
  }

  lemma NextTerm(m: Model, rows: Rows, start: nat, stop: nat, k: nat)
    requires MatrixValid(m.a) && RowsValid(m, rows) && Weighs(m, k) && start <= stop
    ensures AddTerms(m, rows, PartialBlock(m, rows, start, stop, k), FullScales(m, rows, m.weights[k], k + 1), Columns(m, k + 1, start, stop))
      == PartialBlock(m, rows, start, stop, k + 1)
  {
    forall c | 0 <= c < stop - start
      ensures AddColumn(m, rows, PartialBlock(m, rows, start, stop, k)[c], FullScales(m, rows, m.weights[k], k + 1), Columns(m, k + 1, start, stop)[c])
        == PartialBlock(m, rows, start, stop, k + 1)[c] {
      NextColumn(m, rows, k, start + c);
    }
  }

  lemma SkippedTerm(m: Model, rows: Rows, start: nat, stop: nat, k: nat)
    requires MatrixValid(m.a) && RowsValid(m, rows) && k < |m.weights| && !Weighs(m, k) && start <= stop
    ensures PartialBlock(m, rows, start, stop, k + 1) == PartialBlock(m, rows, start, stop, k)
  {
    forall c | 0 <= c < stop - start ensures PartialFrom(m, rows, start, c, k + 1) == PartialFrom(m, rows, start, c, k) {
    }
  }

  function ZeroColumn(m: Model, rows: Rows): (r: seq<Single>)
    ensures |r| == RowCount(m, rows)
  {
    seq(RowCount(m, rows), i requires 0 <= i < RowCount(m, rows) => m.ar.zero)
  }

  function ZeroBlock(m: Model, rows: Rows, width: nat): (b: Block)
    ensures |b| == width && IsBlock(b, RowCount(m, rows)) && forall c :: 0 <= c < width ==> b[c] == ZeroColumn(m, rows)
  {
    if width == 0 then [] else ZeroBlock(m, rows, width - 1) + [ZeroColumn(m, rows)]
  }

  lemma SelfTerm(m: Model, rows: Rows, start: nat, stop: nat)
    requires MatrixValid(m.a) && RowsValid(m, rows) && start <= stop
    ensures m.ar.nonzero(m.selfWeight) ==>
      AddTerms(m, rows, ZeroBlock(m, rows, stop - start), FullScales(m, rows, m.selfWeight, 0), Columns(m, 0, start, stop))
        == PartialBlock(m, rows, start, stop, 0)
    ensures !m.ar.nonzero(m.selfWeight) ==> ZeroBlock(m, rows, stop - start) == PartialBlock(m, rows, start, stop, 0)
  {
    forall c | 0 <= c < stop - start
      ensures m.ar.nonzero(m.selfWeight) ==>
        AddColumn(m, rows, ZeroColumn(m, rows), FullScales(m, rows, m.selfWeight, 0), Columns(m, 0, start, stop)[c]) == PartialFrom(m, rows, start, c, 0)
      ensures !m.ar.nonzero(m.selfWeight) ==> ZeroColumn(m, rows) == PartialFrom(m, rows, start, c, 0) {
    }
  }

  /** The scales the first pass leaves for the second. */
  ghost predicate Scalings(m: Model, rows: Rows, scales: map<nat, seq<Single>>, selfScale: seq<Single>)
    requires MatrixValid(m.a) && RowsValid(m, rows)
  {
    && (forall k: nat :: Weighs(m, k) ==> k in scales && scales[k] == FullScales(m, rows, m.weights[k], k + 1))
    && (m.ar.nonzero(m.selfWeight) ==> selfScale == FullScales(m, rows, m.selfWeight, 0))
  }

  /** The scale of a power when the block holds all its columns. */
  method OwnScale(m: Model, rows: Rows, weight: Double, current: Block, ghost k: nat) returns (scale: seq<Single>)
    requires MatrixValid(m.a) && RowsValid(m, rows) && current == Columns(m, k, 0, m.dim)
    ensures scale == FullScales(m, rows, weight, k)
  {
    var total := AccumulateSquares(m, current, Zeros(m), k, 0, m.dim);
    scale := Scales(m, rows, weight, total);
  }

  /** One power's contribution to a block; with a single block the norms are taken here. */
  method AddPower(m: Model, rows: Rows, start: nat, stop: nat, single: bool, scales: map<nat, seq<Single>>, k: nat, current: Block, block: Block)
    returns (block': Block)
    requires MatrixValid(m.a) && RowsValid(m, rows) && start <= stop && k < |m.weights|
    requires single ==> start == 0 && stop == m.dim
    requires !single && Weighs(m, k) ==> k in scales && scales[k] == FullScales(m, rows, m.weights[k], k + 1)
    requires current == Columns(m, k + 1, start, stop) && block == PartialBlock(m, rows, start, stop, k)
    ensures block' == PartialBlock(m, rows, start, stop, k + 1)
  {
    if !m.ar.nonzero(m.weights[k]) {
      SkippedTerm(m, rows, start, stop, k);
      return block;
    }
    assert Weighs(m, k);
    var scale;
    if single {
      scale := OwnScale(m, rows, m.weights[k], current, k + 1);
    } else {
      scale := scales[k];
    }
    NextTerm(m, rows, start, stop, k);
    block' := AddTerms(m, rows, block, scale, current);
  }

  /** The block's start: zeros, or the self term. */
  method StartBlock(m: Model, rows: Rows, start: nat, stop: nat, single: bool, selfScale: seq<Single>, current: Block) returns (block: Block)
    requires MatrixValid(m.a) && RowsValid(m, rows) && start <= stop && current == Columns(m, 0, start, stop)
    requires single ==> start == 0 && stop == m.dim
    requires !single && m.ar.nonzero(m.selfWeight) ==> selfScale == FullScales(m, rows, m.selfWeight, 0)
    ensures block == PartialBlock(m, rows, start, stop, 0)
  {
    block := ZeroBlock(m, rows, stop - start);
    SelfTerm(m, rows, start, stop);
    if m.ar.nonzero(m.selfWeight) {
      var scale := selfScale;
      if single {
        scale := OwnScale(m, rows, m.selfWeight, current, 0);
      }
      block := AddTerms(m, rows, block, scale, current);
    }
  }

  lemma RestSkipped(m: Model, rows: Rows, start: nat, stop: nat, p: nat)
    requires MatrixValid(m.a) && RowsValid(m, rows) && start <= stop && p <= |m.weights|
    requires forall k :: p <= k < |m.weights| ==> !m.ar.nonzero(m.weights[k])
    ensures PartialBlock(m, rows, start, stop, |m.weights|) == PartialBlock(m, rows, start, stop, p)
  {
    forall c | 0 <= c < stop - start ensures PartialFrom(m, rows, start, c, |m.weights|) == PartialFrom(m, rows, start, c, p) {
      forall i | 0 <= i < RowCount(m, rows)
        ensures PartialFrom(m, rows, start, c, |m.weights|)[i] == PartialFrom(m, rows, start, c, p)[i] {
        TrailingZeros(m, rows.Picked?, RowAt(m, rows, i), start + c, p, |m.weights|);
      }
    }
  }

  /** One block of the second pass. */
  method EmbedBlock(m: Model, rows: Rows, parts: seq<Part>, threaded: bool, start: nat, stop: nat, single: bool,
                    scales: map<nat, seq<Single>>, selfScale: seq<Single>) returns (block: Block)
    requires MatrixValid(m.a) && Partition(m.a, parts) && RowsValid(m, rows) && start <= stop
    requires single ==> start == 0 && stop == m.dim
    requires !single ==> Scalings(m, rows, scales, selfScale)
    ensures block == PartialBlock(m, rows, start, stop, |m.weights|)
  {
    var powers := Powers(m.ar, m.weights);
    var current := Project(m, threaded, start, stop);
    block := StartBlock(m, rows, start, stop, single, selfScale, current);
    for k := 0 to powers
      invariant current == Columns(m, k, start, stop)
      invariant block == PartialBlock(m, rows, start, stop, k)
    {
      NextPower(m, k, start, stop);
      current := Propagate(m.ar, m.a, parts, threaded, current);
      block := AddPower(m, rows, start, stop, single, scales, k, current, block);
    }
    RestSkipped(m, rows, start, stop, powers);
  }

  // ---- The whole embedding ----

  /** The scales of every weight that is not zero, from the summed squares. */
  method ScalesFrom(m: Model, rows: Rows, sums: map<nat, seq<Double>>, selfSum: seq<Double>)
    returns (scales: map<nat, seq<Single>>, selfScale: seq<Single>)
    requires MatrixValid(m.a) && RowsValid(m, rows)
    requires Summed(m, sums, 0, |m.weights|, m.dim) && SelfSummed(m, selfSum, m.dim)
    ensures Scalings(m, rows, scales, selfScale)
  {
    scales, selfScale := map[], [];
    for k := 0 to |m.weights|
      invariant forall l: nat :: l < k && Weighs(m, l) ==> l in scales && scales[l] == FullScales(m, rows, m.weights[l], l + 1)
    {
      if m.ar.nonzero(m.weights[k]) {
        assert Weighs(m, k);
        scales := scales[k := Scales(m, rows, m.weights[k], sums[k])];
      }
    }
    if m.ar.nonzero(m.selfWeight) {
      selfScale := Scales(m, rows, m.selfWeight, selfSum);
    }
  }

  /** Columns `from` to `to` of the output hold the embedding. */
  ghost predicate Written(m: Model, rows: Rows, out: array2<Stored>, from: nat, to: nat)
    requires MatrixValid(m.a) && RowsValid(m, rows) && out.Length0 == RowCount(m, rows) && to <= out.Length1
    reads out
  {
    forall i, j :: 0 <= i < RowCount(m, rows) && from <= j < to ==> out[i, j] == Embed(m, rows.Picked?, RowAt(m, rows, i), j)
  }

  /** One column of the output. */
  method StoreColumn(ar: Arith, out: array2<Stored>, j: nat, column: seq<Single>)
    requires j < out.Length1 && |column| == out.Length0
    modifies out
    ensures forall i :: 0 <= i < out.Length0 ==> out[i, j] == ar.store(column[i])
    ensures forall i, k :: 0 <= i < out.Length0 && 0 <= k < out.Length1 && k != j ==> out[i, k] == old(out[i, k])
  {
    for i := 0 to out.Length0
      invariant forall k :: 0 <= k < i ==> out[k, j] == ar.store(column[k])
      invariant forall i, k :: 0 <= i < out.Length0 && 0 <= k < out.Length1 && k != j ==> out[i, k] == old(out[i, k])
    {
      out[i, j] := ar.store(column[i]);
    }
  }

  /** `out[:, start:stop] = block`. */
  method StoreBlock(m: Model, rows: Rows, out: array2<Stored>, start: nat, stop: nat, block: Block)
    requires MatrixValid(m.a) && RowsValid(m, rows) && out.Length0 == RowCount(m, rows) && start <= stop <= out.Length1
    requires block == PartialBlock(m, rows, start, stop, |m.weights|)
    requires Written(m, rows, out, 0, start)
    modifies out
    ensures Written(m, rows, out, 0, stop)
  {
    for c := 0 to stop - start
      invariant Written(m, rows, out, 0, start + c)
    {
      assert block[c] == PartialColumn(m, rows, start + c, |m.weights|);
      StoreColumn(m.ar, out, start + c, block[c]);
    }
  }

  datatype Outcome = Embedded | ValueError | IndexError

  /** `_fastrp`. */
  method EmbedAll(m: Model, rows: Rows, blockColumns: nat, threads: nat) returns (out: array2<Stored>)
    requires Valid(m) && RowsValid(m, rows) && blockColumns >= 1 && threads >= 1
    ensures out.Length0 == RowCount(m, rows) && out.Length1 == m.dim && Written(m, rows, out, 0, m.dim)
  {
    var threaded := threads > 1;
    var parts := MakeParts(m.a, threads);
    out := new Stored[RowCount(m, rows), m.dim];
    var single := m.dim <= blockColumns;
    var scales, selfScale := map[], [];
    if !single {
      var sums, selfSum := FirstPass(m, parts, threaded, blockColumns);
      scales, selfScale := ScalesFrom(m, rows, sums, selfSum);
    }
    var start := 0;
    while start < m.dim
      invariant 0 <= start <= m.dim && (single ==> start == 0 || start == m.dim)
      invariant Written(m, rows, out, 0, start)
    {
      var stop := Stop(m, start, blockColumns);
      var block := EmbedBlock(m, rows, parts, threaded, start, stop, single, scales, selfScale);
      StoreBlock(m, rows, out, start, stop, block);
      start := stop;
    }
  }

  /** `fastrp`: whatever the block width, the threads and the order the pool runs tasks in, row i of the output
      is the embedding of the i-th row asked for. */
  method FastRP(m: Model, rows: Rows, blockColumns: int, threads: int) returns (outcome: Outcome, out: array2<Stored>)
    requires Valid(m)
    ensures outcome.ValueError? <==> blockColumns < 1 || threads < 1
    ensures outcome.IndexError? <==> (blockColumns >= 1 && threads >= 1 && rows.Picked? &&
      exists i :: 0 <= i < |rows.rows| && (rows.rows[i] + N(m) < 0 || rows.rows[i] >= N(m)))
    ensures outcome.Embedded? ==> out.Length0 == RowCount(m, rows) && out.Length1 == m.dim
    ensures outcome.Embedded? && rows.All? ==>
      forall v, j :: 0 <= v < out.Length0 == N(m) && 0 <= j < out.Length1 ==> out[v, j] == Embed(m, false, v, j)
    ensures outcome.Embedded? && rows.Picked? ==>
      forall i, j :: 0 <= i < out.Length0 == |rows.rows| && 0 <= j < out.Length1 ==>
        0 <= (if rows.rows[i] < 0 then rows.rows[i] + N(m) else rows.rows[i]) < N(m) &&
        out[i, j] == Embed(m, true, if rows.rows[i] < 0 then rows.rows[i] + N(m) else rows.rows[i], j)
  {
    out := new Stored[0, 0];
    if blockColumns < 1 || threads < 1 {
      outcome := ValueError;
    } else if !RowsValid(m, rows) {
      outcome := IndexError;
    } else {
      outcome := Embedded;
      out := EmbedAll(m, rows, blockColumns, threads);
    }
  }
}
