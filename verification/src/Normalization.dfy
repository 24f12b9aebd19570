/** What the embedding is worth as numbers: read through any exact reading of the bit patterns, a row is the
    weighted sum of the unit-length rows of the propagated projection. */
module Normalization {
  import opened Propagator
  import opened FastRP

  /** The real numbers that bit patterns stand for. */
  datatype Reading = Reading(single: Single -> real, double: Double -> real, stored: Stored -> real)
  {
    function Of(x: Single): real { single(x) }

    function OfDouble(x: Double): real { double(x) }

    function OfStored(x: Stored): real { stored(x) }
  }

  function Square(x: real): real { x * x }

  predicate IsRoot(root: real, x: real) {
    root >= 0.0 && Square(root) == x
  }

  /** Single-precision sums and products give the pattern of the exact result. */
  ghost predicate ExactSingles(ar: Arith, r: Reading) {
    && r.Of(ar.zero) == 0.0
    && (forall x, y {:trigger ar.add(x, y)} :: r.Of(ar.add(x, y)) == r.Of(x) + r.Of(y))
    && (forall x, y {:trigger ar.mul(x, y)} :: r.Of(ar.mul(x, y)) == r.Of(x) * r.Of(y))
  }

  ghost predicate ExactSquares(ar: Arith, r: Reading) {
    && r.OfDouble(ar.zeroD) == 0.0
    && (forall x {:trigger ar.widen(x)} :: r.OfDouble(ar.widen(x)) == r.Of(x))
    && (forall x, y {:trigger ar.addD(x, y)} :: r.OfDouble(ar.addD(x, y)) == r.OfDouble(x) + r.OfDouble(y))
    && (forall x, y {:trigger ar.mulD(x, y)} :: r.OfDouble(ar.mulD(x, y)) == r.OfDouble(x) * r.OfDouble(y))
  }

  ghost predicate ExactScales(ar: Arith, r: Reading) {
    && r.OfDouble(ar.oneD) == 1.0
    && (forall x {:trigger ar.nonzero(x)} :: ar.nonzero(x) <==> r.OfDouble(x) != 0.0)
    && (forall x {:trigger ar.sqrt(x)} :: r.OfDouble(x) >= 0.0 ==> IsRoot(r.OfDouble(ar.sqrt(x)), r.OfDouble(x)))
    && (forall x, y {:trigger ar.divD(x, y)} :: r.OfDouble(y) != 0.0 ==> r.OfDouble(ar.divD(x, y)) == r.OfDouble(x) / r.OfDouble(y))
    && (forall x {:trigger ar.narrow(x)} :: r.Of(ar.narrow(x)) == r.OfDouble(x))
  }

  /** Every operation gives the pattern of the exact result. */
  ghost predicate Exact(ar: Arith, r: Reading) {
    && ExactSingles(ar, r) && ExactSquares(ar, r) && ExactScales(ar, r)
    && (forall x {:trigger ar.store(x)} :: r.OfStored(ar.store(x)) == r.Of(x))
  }

  // ---- The embedding over the reals ----

  /** Entry c of row v of the projection after t applications of the matrix. */
  ghost function Propagated(m: Model, r: Reading, t: nat, v: nat, c: nat): real
    decreases t, 0
  {
    if t == 0 then r.Of(m.project(v, c))
    else if v + 1 < |m.a.indptr| then RowTimes(m, r, t - 1, c, m.a.indptr[v], m.a.indptr[v + 1])
    else 0.0
  }

  /** The matrix entries `from` to `to` times the rows they point at. */
  ghost function RowTimes(m: Model, r: Reading, t: nat, c: nat, from: nat, to: nat): real
    decreases t, to
  {
    if to <= from || to > |m.a.indices| || to > |m.a.data| then 0.0
    else RowTimes(m, r, t, c, from, to - 1) + r.Of(m.a.data[to - 1]) * Propagated(m, r, t, m.a.indices[to - 1], c)
  }

  ghost function SquaredLength(m: Model, r: Reading, t: nat, v: nat, columns: nat): real
  {
    if columns == 0 then 0.0
    else SquaredLength(m, r, t, v, columns - 1) + Square(Propagated(m, r, t, v, columns - 1))
  }

  /** The length a row is divided by: its own, or one for a zero row. */
  predicate IsLength(length: real, squared: real) {
    if squared == 0.0 then length == 1.0 else length > 0.0 && Square(length) == squared
  }

  ghost predicate Lengths(m: Model, r: Reading, v: nat, lengths: seq<real>)
  {
    |lengths| == |m.weights| + 1 && forall t :: 0 <= t < |lengths| ==> IsLength(lengths[t], SquaredLength(m, r, t, v, m.dim))
  }

  /** `w * x / length`, one entry's part of the sum. */
  function Weighed(w: real, x: real, length: real): real
    requires length > 0.0
  {
    w * x / length
  }

  /** sum_k w_k * normalize((P^(k+1) R)[v])[j] over the first t weights, plus self_weight * normalize(R[v])[j]. */
  ghost function WeightedSum(m: Model, r: Reading, v: nat, j: nat, lengths: seq<real>, t: nat): real
    requires t <= |m.weights| && Lengths(m, r, v, lengths)
  {
    if t == 0 then Weighed(r.OfDouble(m.selfWeight), Propagated(m, r, 0, v, j), lengths[0])
    else WeightedSum(m, r, v, j, lengths, t - 1) + Weighed(r.OfDouble(m.weights[t - 1]), Propagated(m, r, t, v, j), lengths[t])
  }

  // ---- Each operation of the embedding, read ----

  /** Column `x` holds the t-th power's column c. */
  ghost predicate ReadsAs(m: Model, r: Reading, t: nat, c: nat, x: seq<Single>) {
    |x| == N(m) && forall u: nat {:trigger x[u]} :: u < N(m) ==> r.Of(x[u]) == Propagated(m, r, t, u, c)
  }

  lemma {:induction false} DotReads(m: Model, r: Reading, t: nat, c: nat, x: seq<Single>, lo: nat, hi: nat)
    requires MatrixValid(m.a) && ExactSingles(m.ar, r) && ReadsAs(m, r, t, c, x) && lo <= hi <= |m.a.indices|
    ensures r.Of(Dot(m.ar, m.a.indices, m.a.data, x, lo, hi)) == RowTimes(m, r, t, c, lo, hi)
    decreases hi
  {
    if lo < hi {
      DotReads(m, r, t, c, x, lo, hi - 1);
    }
  }

  lemma RowBounds(a: Matrix, v: nat)
    requires MatrixValid(a) && v < |a.nodes|
    ensures |a.indptr| == |a.nodes| + 1 && 0 <= a.indptr[v] <= a.indptr[v + 1] <= |a.indices|
  {
  }

  lemma RowReads(m: Model, r: Reading, t: nat, v: nat, c: nat, x: seq<Single>)
    requires MatrixValid(m.a) && ExactSingles(m.ar, r) && ReadsAs(m, r, t, c, x) && v < N(m)
    ensures r.Of(Times(m.ar, m.a, x)[v]) == Propagated(m, r, t + 1, v, c)
  {
    RowBounds(m.a, v);
    DotReads(m, r, t, c, x, m.a.indptr[v], m.a.indptr[v + 1]);
  }

  lemma ProjectionReads(m: Model, r: Reading, c: nat)
    ensures ReadsAs(m, r, 0, c, Projected(m, c))
  {
  }

  lemma TimesReads(m: Model, r: Reading, t: nat, c: nat, x: seq<Single>)
    requires MatrixValid(m.a) && ExactSingles(m.ar, r) && ReadsAs(m, r, t, c, x)
    ensures ReadsAs(m, r, t + 1, c, Times(m.ar, m.a, x))
  {
    var next := Times(m.ar, m.a, x);
    forall u: nat | u < N(m) ensures r.Of(next[u]) == Propagated(m, r, t + 1, u, c) {
      RowReads(m, r, t, u, c, x);
    }
  }

  lemma PowerStep(m: Model, t: nat, c: nat, x: seq<Single>)
    requires MatrixValid(m.a) && x == Column(m, t, c)
    ensures Times(m.ar, m.a, x) == Column(m, t + 1, c)
  {
  }

  lemma NextColumn(m: Model, r: Reading, t: nat, c: nat, x: seq<Single>)
    requires MatrixValid(m.a) && ExactSingles(m.ar, r) && x == Column(m, t, c) && ReadsAs(m, r, t, c, x)
    ensures Times(m.ar, m.a, x) == Column(m, t + 1, c) && ReadsAs(m, r, t + 1, c, Times(m.ar, m.a, x))
  {
    PowerStep(m, t, c, x);
    TimesReads(m, r, t, c, x);
  }

  lemma ColumnReads(m: Model, r: Reading, t: nat, c: nat) returns (x: seq<Single>)
    requires MatrixValid(m.a) && ExactSingles(m.ar, r)
    ensures x == Column(m, t, c) && ReadsAs(m, r, t, c, x)
  {
    x := Projected(m, c);
    ProjectionReads(m, r, c);
    for k := 0 to t
      invariant x == Column(m, k, c) && ReadsAs(m, r, k, c, x)
    {
      NextColumn(m, r, k, c, x);
      x := Times(m.ar, m.a, x);
    }
  }

  lemma EntryReads(m: Model, r: Reading, t: nat, v: nat, c: nat) returns (x: Single)
    requires MatrixValid(m.a) && ExactSingles(m.ar, r) && v < N(m)
    ensures x == Column(m, t, c)[v] && r.Of(x) == Propagated(m, r, t, v, c)
  {
    var column := ColumnReads(m, r, t, c);
    x := column[v];
  }

  lemma SquareReads(ar: Arith, r: Reading, total: Double, x: Single, value: real)
    requires ExactSquares(ar, r) && r.Of(x) == value
    ensures r.OfDouble(AddSquare(ar, total, x)) == r.OfDouble(total) + Square(value)
  {
  }

  lemma SquareNotNegative(x: real)
    ensures Square(x) >= 0.0
  {
  }

  lemma NextSquares(m: Model, r: Reading, t: nat, v: nat, columns: nat, x: Single, total: Double)
    requires ExactSquares(m.ar, r) && r.Of(x) == Propagated(m, r, t, v, columns)
    requires r.OfDouble(total) == SquaredLength(m, r, t, v, columns) >= 0.0
    ensures r.OfDouble(AddSquare(m.ar, total, x)) == SquaredLength(m, r, t, v, columns + 1) >= 0.0
  {
    SquareReads(m.ar, r, total, x, r.Of(x));
    SquareNotNegative(r.Of(x));
  }

  lemma {:induction false} SquaresRead(m: Model, r: Reading, t: nat, v: nat, columns: nat) returns (total: Double)
    requires MatrixValid(m.a) && ExactSingles(m.ar, r) && ExactSquares(m.ar, r) && v < N(m)
    ensures total == SumSq(m, t, v, columns) && r.OfDouble(total) == SquaredLength(m, r, t, v, columns) >= 0.0
  {
    if columns == 0 {
      total := m.ar.zeroD;
    } else {
      var before := SquaresRead(m, r, t, v, columns - 1);
      var x := EntryReads(m, r, t, v, columns - 1);
      NextSquares(m, r, t, v, columns - 1, x, before);
      total := AddSquare(m.ar, before, x);
    }
  }

  function Mul(a: real, b: real): real { a * b }

  lemma MulPositive(a: real, b: real)
    requires a > 0.0 && b > 0.0
    ensures Mul(a, b) > 0.0
  {
  }

  lemma SquaresRise(a: real, b: real)
    requires 0.0 <= a < b
    ensures Square(a) < Square(b)
  {
    MulPositive(b - a, b + a);
    assert Mul(b - a, b + a) == Square(b) - Square(a);
  }

  /** The root of a squared length is the length, and of a zero row zero. */
  lemma RootIsLength(root: real, squared: real, length: real)
    requires squared >= 0.0 && IsRoot(root, squared) && IsLength(length, squared)
    ensures length > 0.0 && if squared == 0.0 then root == 0.0 else root == length
  {
    if squared == 0.0 {
      if root > 0.0 {
        SquaresRise(0.0, root);
      }
    } else if root < length {
      SquaresRise(root, length);
    } else if length < root {
      SquaresRise(length, root);
    }
  }

  /** The length the code divides by. */
  lemma LengthOf(ar: Arith, r: Reading, squares: Double) returns (length: real)
    requires ExactScales(ar, r) && r.OfDouble(squares) >= 0.0
    ensures IsLength(length, r.OfDouble(squares))
  {
    var norm := ar.sqrt(squares);
    length := if r.OfDouble(squares) == 0.0 then 1.0 else r.OfDouble(norm);
  }

  lemma ScaleReads(ar: Arith, r: Reading, weight: Double, squares: Double, length: real)
    requires ExactScales(ar, r) && r.OfDouble(squares) >= 0.0 && IsLength(length, r.OfDouble(squares))
    ensures length > 0.0 && r.Of(Scale(ar, weight, squares)) == r.OfDouble(weight) / length
  {
    var norm := ar.sqrt(squares);
    RootIsLength(r.OfDouble(norm), r.OfDouble(squares), length);
    var divisor := if ar.nonzero(norm) then norm else ar.oneD;
    assert r.OfDouble(divisor) == length;
    assert r.OfDouble(ar.divD(weight, divisor)) == r.OfDouble(weight) / length;
  }

  lemma Regroup(w: real, l: real, x: real)
    requires l != 0.0
    ensures w / l * x == w * x / l && x * (w / l) == w * x / l
  {
  }

  lemma ProductReads(ar: Arith, r: Reading, picked: bool, scale: Single, x: Single, w: real, length: real)
    requires ExactSingles(ar, r) && length > 0.0 && r.Of(scale) == w / length
    ensures r.Of(Scaled(ar, picked, scale, x)) == Weighed(w, r.Of(x), length)
  {
    Regroup(w, length, r.Of(x));
  }

  lemma ScaledReads(ar: Arith, r: Reading, picked: bool, weight: Double, squares: Double, x: Single, length: real)
    requires ExactSingles(ar, r) && ExactScales(ar, r) && r.OfDouble(squares) >= 0.0 && IsLength(length, r.OfDouble(squares))
    ensures length > 0.0 && r.Of(Scaled(ar, picked, Scale(ar, weight, squares), x)) == Weighed(r.OfDouble(weight), r.Of(x), length)
  {
    ScaleReads(ar, r, weight, squares, length);
    ProductReads(ar, r, picked, Scale(ar, weight, squares), x, r.OfDouble(weight), length);
  }

  lemma TermIs(m: Model, picked: bool, weight: Double, t: nat, v: nat, j: nat, squares: Double, x: Single)
    requires MatrixValid(m.a) && v < N(m) && squares == SumSq(m, t, v, m.dim) && x == Column(m, t, j)[v]
    ensures Term(m, picked, weight, t, v, j) == Scaled(m.ar, picked, Scale(m.ar, weight, squares), x)
  {
  }

  lemma TermReads(m: Model, r: Reading, picked: bool, weight: Double, t: nat, v: nat, j: nat, length: real)
    requires MatrixValid(m.a) && Exact(m.ar, r) && v < N(m) && IsLength(length, SquaredLength(m, r, t, v, m.dim))
    ensures length > 0.0 && r.Of(Term(m, picked, weight, t, v, j)) == Weighed(r.OfDouble(weight), Propagated(m, r, t, v, j), length)
  {
    var squares := SquaresRead(m, r, t, v, m.dim);
    var x := EntryReads(m, r, t, v, j);
    TermIs(m, picked, weight, t, v, j, squares, x);
    ScaledReads(m.ar, r, picked, weight, squares, x, length);
  }

  lemma NothingWeighed(x: real, l: real)
    requires l > 0.0
    ensures Weighed(0.0, x, l) == 0.0
  {
  }

  ghost predicate SumReads(m: Model, r: Reading, picked: bool, v: nat, j: nat, lengths: seq<real>, t: nat)
    requires MatrixValid(m.a) && v < N(m) && t <= |m.weights| && Lengths(m, r, v, lengths)
  {
    r.Of(Partial(m, picked, v, j, t)) == WeightedSum(m, r, v, j, lengths, t)
  }

  lemma SelfReads(m: Model, r: Reading, picked: bool, v: nat, j: nat, lengths: seq<real>)
    requires MatrixValid(m.a) && Exact(m.ar, r) && v < N(m) && Lengths(m, r, v, lengths)
    ensures SumReads(m, r, picked, v, j, lengths, 0)
  {
    TermReads(m, r, picked, m.selfWeight, 0, v, j, lengths[0]);
    NothingWeighed(Propagated(m, r, 0, v, j), lengths[0]);
  }

  lemma NextReads(m: Model, r: Reading, picked: bool, v: nat, j: nat, lengths: seq<real>, t: nat)
    requires MatrixValid(m.a) && Exact(m.ar, r) && v < N(m) && Lengths(m, r, v, lengths) && 0 < t <= |m.weights|
    requires SumReads(m, r, picked, v, j, lengths, t - 1)
    ensures SumReads(m, r, picked, v, j, lengths, t)
  {
    TermReads(m, r, picked, m.weights[t - 1], t, v, j, lengths[t]);
    NothingWeighed(Propagated(m, r, t, v, j), lengths[t]);
  }

  lemma {:induction false} PartialReads(m: Model, r: Reading, picked: bool, v: nat, j: nat, lengths: seq<real>, t: nat)
    requires MatrixValid(m.a) && Exact(m.ar, r) && v < N(m) && Lengths(m, r, v, lengths) && t <= |m.weights|
    ensures SumReads(m, r, picked, v, j, lengths, t)
  {
    if t == 0 {
      SelfReads(m, r, picked, v, j, lengths);
    } else {
      PartialReads(m, r, picked, v, j, lengths, t - 1);
      NextReads(m, r, picked, v, j, lengths, t);
    }
  }

  /** The documented sum: entry j of row v, for whole and picked rows alike. */
  lemma NormalizedSum(m: Model, r: Reading, picked: bool, v: nat, j: nat, lengths: seq<real>)
    requires MatrixValid(m.a) && Exact(m.ar, r) && v < N(m) && Lengths(m, r, v, lengths)
    ensures r.OfStored(Embed(m, picked, v, j)) == WeightedSum(m, r, v, j, lengths, |m.weights|)
  {
    PartialReads(m, r, picked, v, j, lengths, |m.weights|);
  }

  lemma LengthExists(m: Model, r: Reading, t: nat, v: nat) returns (length: real)
    requires MatrixValid(m.a) && Exact(m.ar, r) && v < N(m)
    ensures IsLength(length, SquaredLength(m, r, t, v, m.dim))
  {
    var squares := SquaresRead(m, r, t, v, m.dim);
    length := LengthOf(m.ar, r, squares);
  }

  /** There are such lengths. */
  lemma {:induction false} LengthsExist(m: Model, r: Reading, v: nat, n: nat) returns (lengths: seq<real>)
    requires MatrixValid(m.a) && Exact(m.ar, r) && v < N(m)
    ensures |lengths| == n && forall t :: 0 <= t < n ==> IsLength(lengths[t], SquaredLength(m, r, t, v, m.dim))
  {
    if n == 0 {
      lengths := [];
    } else {
      lengths := LengthsExist(m, r, v, n - 1);
      var length := LengthExists(m, r, n - 1, v);
      lengths := lengths + [length];
    }
  }

  // ---- Unit length ----

  /** The squared length of the embedded row v over its first columns. */
  ghost function EmbeddedLength(m: Model, r: Reading, picked: bool, v: nat, columns: nat): real
    requires MatrixValid(m.a) && v < N(m)
  {
    if columns == 0 then 0.0
    else EmbeddedLength(m, r, picked, v, columns - 1) + Square(r.OfStored(Embed(m, picked, v, columns - 1)))
  }

  /** Only the weight of power k is not zero. */
  ghost predicate OnlyWeight(m: Model, r: Reading, k: nat) {
    && k < |m.weights| && r.OfDouble(m.selfWeight) == 0.0
    && forall i :: 0 <= i < |m.weights| && i != k ==> r.OfDouble(m.weights[i]) == 0.0
  }

  lemma {:induction false} OneTerm(m: Model, r: Reading, v: nat, j: nat, lengths: seq<real>, k: nat, t: nat)
    requires OnlyWeight(m, r, k) && Lengths(m, r, v, lengths) && t <= |m.weights|
    ensures WeightedSum(m, r, v, j, lengths, t) == if t <= k then 0.0 else Weighed(r.OfDouble(m.weights[k]), Propagated(m, r, k + 1, v, j), lengths[k + 1])
  {
    NothingWeighed(Propagated(m, r, t, v, j), lengths[t]);
    if t > 0 {
      OneTerm(m, r, v, j, lengths, k, t - 1);
    }
  }

  lemma Distribute(a: real, b: real, c: real)
    ensures Mul(a + b, c) == Mul(a, c) + Mul(b, c) && Mul(c, a + b) == Mul(c, a) + Mul(c, b)
  {
  }

  lemma WeighedSquare(w: real, x: real, length: real)
    requires length > 0.0
    ensures Mul(Square(Weighed(w, x, length)), Square(length)) == Mul(Square(w), Square(x))
  {
    var q := Weighed(w, x, length);
    assert q * length == w * x;
    assert (q * q) * (length * length) == (q * length) * (q * length);
    assert (w * w) * (x * x) == (w * x) * (w * x);
  }

  lemma EntryScales(m: Model, r: Reading, picked: bool, v: nat, j: nat, lengths: seq<real>, k: nat)
    requires MatrixValid(m.a) && Exact(m.ar, r) && v < N(m) && OnlyWeight(m, r, k) && Lengths(m, r, v, lengths)
    ensures Mul(Square(r.OfStored(Embed(m, picked, v, j))), Square(lengths[k + 1]))
         == Mul(Square(r.OfDouble(m.weights[k])), Square(Propagated(m, r, k + 1, v, j)))
  {
    NormalizedSum(m, r, picked, v, j, lengths);
    OneTerm(m, r, v, j, lengths, k, |m.weights|);
    WeighedSquare(r.OfDouble(m.weights[k]), Propagated(m, r, k + 1, v, j), lengths[k + 1]);
  }

  lemma {:induction false} SquaresScale(m: Model, r: Reading, picked: bool, v: nat, lengths: seq<real>, k: nat, columns: nat)
    requires MatrixValid(m.a) && Exact(m.ar, r) && v < N(m) && OnlyWeight(m, r, k) && Lengths(m, r, v, lengths)
    ensures Mul(EmbeddedLength(m, r, picked, v, columns), Square(lengths[k + 1]))
         == Mul(Square(r.OfDouble(m.weights[k])), SquaredLength(m, r, k + 1, v, columns))
  {
    if columns > 0 {
      SquaresScale(m, r, picked, v, lengths, k, columns - 1);
      EntryScales(m, r, picked, v, columns - 1, lengths, k);
      Distribute(EmbeddedLength(m, r, picked, v, columns - 1), Square(r.OfStored(Embed(m, picked, v, columns - 1))), Square(lengths[k + 1]));
      Distribute(SquaredLength(m, r, k + 1, v, columns - 1), Square(Propagated(m, r, k + 1, v, columns - 1)), Square(r.OfDouble(m.weights[k])));
    }
  }

  lemma CancelSquare(a: real, b: real, c: real)
    requires c != 0.0 && Mul(a, c) == Mul(b, c)
    ensures a == b
  {
  }

  /** With one weight that is not zero every row has that length, or is zero where the propagated row is. */
  lemma UnitRow(m: Model, r: Reading, picked: bool, v: nat, k: nat)
    requires MatrixValid(m.a) && Exact(m.ar, r) && v < N(m) && OnlyWeight(m, r, k)
    ensures EmbeddedLength(m, r, picked, v, m.dim)
      == if SquaredLength(m, r, k + 1, v, m.dim) == 0.0 then 0.0 else Square(r.OfDouble(m.weights[k]))
  {
    var lengths := LengthsExist(m, r, v, |m.weights| + 1);
    SquaresScale(m, r, picked, v, lengths, k, m.dim);
    var squared, length := SquaredLength(m, r, k + 1, v, m.dim), lengths[k + 1];
    assert IsLength(length, squared);
    if squared != 0.0 {
      CancelSquare(EmbeddedLength(m, r, picked, v, m.dim), Square(r.OfDouble(m.weights[k])), squared);
    }
  }
}
