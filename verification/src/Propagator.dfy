/** One propagation step, `transition @ block`, as a whole or as row-slice tasks run in any order. Floats are
    bit patterns; their operations are arbitrary functions of which no law is assumed. */
module Propagator {
  import opened Adjacency
  import opened Graph
  import opened SortedSets
  import Sorting

  type Single = int
  type Double = int
  type Stored = int

  const TASK_ROWS: nat := 262144

  datatype Arith = Arith(
    zero: Single, add: (Single, Single) -> Single, mul: (Single, Single) -> Single,
    widen: Single -> Double, narrow: Double -> Single, store: Single -> Stored,
    zeroD: Double, oneD: Double, nonzero: Double -> bool,
    addD: (Double, Double) -> Double, mulD: (Double, Double) -> Double, divD: (Double, Double) -> Double, sqrt: Double -> Double)

  type Matrix = Transition<Single>

  predicate MatrixValid(a: Matrix) {
    Shaped(a) && Sorting.Below(a.indices, |a.nodes|)
  }

  /** One output entry: the products summed over a row's entries in their order. */
  function Dot(ar: Arith, indices: seq<nat>, data: seq<Single>, x: seq<Single>, lo: nat, hi: nat): Single
    requires lo <= hi <= |indices| == |data| && Sorting.Below(indices, |x|)
    decreases hi
  {
    if lo == hi then ar.zero
    else ar.add(Dot(ar, indices, data, x, lo, hi - 1), ar.mul(data[hi - 1], x[indices[hi - 1]]))
  }

  /** The matrix applied to a column. */
  function Times(ar: Arith, a: Matrix, x: seq<Single>): (r: seq<Single>)
    requires MatrixValid(a) && |x| == |a.nodes|
    ensures |r| == |x|
  {
    seq(|x|, v requires 0 <= v < |x| => Dot(ar, a.indices, a.data, x, a.indptr[v], a.indptr[v + 1]))
  }

  /** A block of columns of equal length. */
  type Block = seq<seq<Single>>

  predicate IsBlock(block: Block, n: nat) {
    forall c :: 0 <= c < |block| ==> |block[c]| == n
  }

  /** The matrix applied to every column of a block. */
  function Product(ar: Arith, a: Matrix, block: Block): (r: Block)
    requires MatrixValid(a) && IsBlock(block, |a.nodes|)
    ensures |r| == |block| && IsBlock(r, |a.nodes|)
  {
    seq(|block|, c requires 0 <= c < |block| => Times(ar, a, block[c]))
  }

  method DotColumn(ar: Arith, indices: seq<nat>, data: seq<Single>, x: seq<Single>, lo: nat, hi: nat) returns (r: Single)
    requires lo <= hi <= |indices| == |data| && Sorting.Below(indices, |x|)
    ensures r == Dot(ar, indices, data, x, lo, hi)
  {
    r := ar.zero;
    for e := lo to hi
      invariant r == Dot(ar, indices, data, x, lo, e)
    {
      r := ar.add(r, ar.mul(data[e], x[indices[e]]));
    }
  }

  // ---- Row slices ----

  /** `searchsorted` of a cut point in the row pointers. */
  function Cut(indptr: seq<nat>, target: real): (r: nat)
    ensures r <= |indptr|
  {
    if indptr == [] then 0
    else if indptr[|indptr| - 1] as real < target then |indptr|
    else Cut(indptr[..|indptr| - 1], target)
  }

  lemma {:induction false} CutInside(indptr: seq<nat>, target: real)
    requires indptr != [] && target <= indptr[|indptr| - 1] as real
    ensures Cut(indptr, target) < |indptr|
  {
  }

  /** About equal numbers of entries per part: i/parts of them before the i-th cut. */
  function Target(nnz: nat, parts: nat, i: nat): real
    requires parts > 0
  {
    (i as real / parts as real) * nnz as real
  }

  lemma FractionAtMostOne(i: nat, parts: nat)
    requires i <= parts && parts > 0
    ensures i as real / parts as real <= 1.0
  {
  }

  lemma ScaledDown(f: real, x: real)
    requires f <= 1.0 && x >= 0.0
    ensures f * x <= x
  {
  }

  lemma TargetInside(nnz: nat, parts: nat, i: nat)
    requires parts > 0 && i <= parts
    ensures Target(nnz, parts, i) <= nnz as real
  {
    FractionAtMostOne(i, parts);
    ScaledDown(i as real / parts as real, nnz as real);
  }

  function Cuts(indptr: seq<nat>, nnz: nat, parts: nat): seq<nat>
    requires parts > 0
  {
    seq(parts - 1, i requires 0 <= i < parts - 1 => Cut(indptr, Target(nnz, parts, i + 1)))
  }

  /** `[0, *unique(searchsorted(...)), n]`. */
  function Bounds(indptr: seq<nat>, nnz: nat, n: nat, parts: nat): seq<nat>
    requires parts > 0
  {
    [0] + SortedSet(Cuts(indptr, nnz, parts)) + [n]
  }

  predicate Rising(bounds: seq<nat>) {
    forall i, j :: 0 <= i <= j < |bounds| ==> bounds[i] <= bounds[j]
  }

  /** The bounds rise from the first row to the last. */
  lemma BoundsRise(indptr: seq<nat>, nnz: nat, n: nat, parts: nat)
    requires parts > 0 && Pointers(indptr, n, nnz)
    ensures var b := Bounds(indptr, nnz, n, parts); |b| >= 2 && b[0] == 0 && b[|b| - 1] == n && Rising(b)
  {
    var cuts := Cuts(indptr, nnz, parts);
    SortedSetIs(cuts);
    var unique := SortedSet(cuts);
    forall i | 0 <= i < |cuts| ensures cuts[i] <= n {
      TargetInside(nnz, parts, i + 1);
      CutInside(indptr, Target(nnz, parts, i + 1));
    }
    forall i | 0 <= i < |unique| ensures unique[i] <= n {
      assert unique[i] in unique;
    }
  }

  datatype Part = Part(lo: nat, hi: nat, indptr: seq<nat>, indices: seq<nat>, data: seq<Single>)

  /** The part's own CSR arrays are the matrix's rows `lo` to `hi`. */
  ghost predicate IsPart(a: Matrix, p: Part)
    requires MatrixValid(a)
  {
    && p.lo < p.hi <= |a.nodes|
    && p.indptr == seq(p.hi - p.lo + 1, i requires 0 <= i <= p.hi - p.lo => a.indptr[p.lo + i] - a.indptr[p.lo])
    && p.indices == a.indices[a.indptr[p.lo]..a.indptr[p.hi]]
    && p.data == a.data[a.indptr[p.lo]..a.indptr[p.hi]]
  }

  /** Row `v` belongs to part `k`. */
  predicate Covers(parts: seq<Part>, k: nat, v: nat) {
    k < |parts| && parts[k].lo <= v < parts[k].hi
  }

  ghost predicate Covered(parts: seq<Part>, v: nat) {
    exists k: nat :: Covers(parts, k, v)
  }

  /** The parts are slices of the matrix, and every row is in exactly one of them. */
  ghost predicate Partition(a: Matrix, parts: seq<Part>)
    requires MatrixValid(a)
  {
    && (forall k :: 0 <= k < |parts| ==> IsPart(a, parts[k]))
    && (forall v: nat :: v < |a.nodes| ==> Covered(parts, v))
    && (forall v: nat, k: nat, l: nat :: Covers(parts, k, v) && Covers(parts, l, v) ==> k == l)
  }

  function MakePart(a: Matrix, lo: nat, hi: nat): (p: Part)
    requires MatrixValid(a) && lo < hi <= |a.nodes|
    ensures IsPart(a, p) && p.lo == lo && p.hi == hi
  {
    Part(lo, hi,
         seq(hi - lo + 1, i requires 0 <= i <= hi - lo => a.indptr[lo + i] - a.indptr[lo]),
         a.indices[a.indptr[lo]..a.indptr[hi]],
         a.data[a.indptr[lo]..a.indptr[hi]])
  }

  lemma CoveredMore(parts: seq<Part>, p: Part, v: nat)
    requires Covered(parts, v) || p.lo <= v < p.hi
    ensures Covered(parts + [p], v)
  {
    var more := parts + [p];
    if Covered(parts, v) {
      var k: nat :| Covers(parts, k, v);
      assert Covers(more, k, v);
    } else {
      assert Covers(more, |parts|, v);
    }
  }

  /** The parts so far are slices in order and cover the rows below `upto`. */
  ghost predicate PartsTo(a: Matrix, parts: seq<Part>, upto: nat)
    requires MatrixValid(a)
  {
    && (forall k :: 0 <= k < |parts| ==> IsPart(a, parts[k]) && parts[k].hi <= upto)
    && (forall v: nat :: v < upto ==> Covered(parts, v))
    && (forall k, l :: 0 <= k < l < |parts| ==> parts[k].hi <= parts[l].lo)
  }

  lemma OnePartMore(a: Matrix, parts: seq<Part>, lo: nat, hi: nat)
    requires MatrixValid(a) && PartsTo(a, parts, lo) && lo < hi <= |a.nodes|
    ensures PartsTo(a, parts + [MakePart(a, lo, hi)], hi)
  {
    forall v: nat | v < hi ensures Covered(parts + [MakePart(a, lo, hi)], v) {
      CoveredMore(parts, MakePart(a, lo, hi), v);
    }
  }

  lemma PartsApart(a: Matrix, parts: seq<Part>, v: nat, k: nat, l: nat)
    requires MatrixValid(a) && PartsTo(a, parts, |a.nodes|) && k < |parts| && l < |parts|
    ensures k < l ==> !(Covers(parts, k, v) && Covers(parts, l, v))
  {
    if k < l {
      assert parts[k].hi <= parts[l].lo;
    }
  }

  lemma PartsPartition(a: Matrix, parts: seq<Part>)
    requires MatrixValid(a) && PartsTo(a, parts, |a.nodes|)
    ensures Partition(a, parts)
  {
    forall v: nat, k: nat, l: nat | Covers(parts, k, v) && Covers(parts, l, v) ensures k == l {
      PartsApart(a, parts, v, k, l);
      PartsApart(a, parts, v, l, k);
    }
  }

  /** The row slices of `_Propagator`: consecutive bounds, empty ones skipped. */
  method MakeParts(a: Matrix, threads: nat) returns (parts: seq<Part>)
    requires MatrixValid(a) && threads >= 1
    ensures Partition(a, parts)
  {
    var n := |a.nodes|;
    var tasks := (n + TASK_ROWS - 1) / TASK_ROWS;
    var most := if 4 * threads >= tasks then 4 * threads else tasks;
    var bounds := Bounds(a.indptr, |a.indices|, n, most);
    BoundsRise(a.indptr, |a.indices|, n, most);
    parts := [];
    for i := 0 to |bounds| - 1
      invariant PartsTo(a, parts, bounds[i])
    {
      var lo, hi := bounds[i], bounds[i + 1];
      assert lo <= hi <= bounds[|bounds| - 1];
      if lo < hi {
        OnePartMore(a, parts, lo, hi);
        parts := parts + [MakePart(a, lo, hi)];
      }
    }
    PartsPartition(a, parts);
  }

  /** A slice's own product is the whole's. */
  lemma {:induction false} DotOfSlice(ar: Arith, indices: seq<nat>, data: seq<Single>, x: seq<Single>, base: nat, top: nat, lo: nat, hi: nat)
    requires |indices| == |data| && Sorting.Below(indices, |x|) && base <= lo <= hi <= top <= |indices|
    ensures Dot(ar, indices[base..top], data[base..top], x, lo - base, hi - base) == Dot(ar, indices, data, x, lo, hi)
    decreases hi
  {
    if lo < hi {
      DotOfSlice(ar, indices, data, x, base, top, lo, hi - 1);
    }
  }

  /** Rows `lo` to `hi` of `out` hold the wanted columns. */
  predicate Holds(out: array2<Single>, want: Block, lo: nat, hi: nat)
    requires out.Length1 == |want| && hi <= out.Length0 && IsBlock(want, out.Length0)
    reads out
  {
    forall v, c :: lo <= v < hi && 0 <= c < |want| ==> out[v, c] == want[c][v]
  }

  /** Row `v`'s entries are inside the part's arrays. */
  predicate PartRowValid(p: Part, v: nat, n: nat) {
    && p.lo <= v < p.hi && |p.indptr| == p.hi - p.lo + 1 && p.indptr[v - p.lo] <= p.indptr[v - p.lo + 1] <= |p.indices| == |p.data|
    && Sorting.Below(p.indices, n)
  }

  lemma PartRow(a: Matrix, p: Part, v: nat)
    requires MatrixValid(a) && IsPart(a, p) && p.lo <= v < p.hi
    ensures |p.indptr| == p.hi - p.lo + 1
    ensures p.indptr[v - p.lo] == a.indptr[v] - a.indptr[p.lo] && p.indptr[v - p.lo + 1] == a.indptr[v + 1] - a.indptr[p.lo]
    ensures a.indptr[p.lo] <= a.indptr[v] <= a.indptr[v + 1] <= a.indptr[p.hi] <= |a.indices|
    ensures PartRowValid(p, v, |a.nodes|)
  {
    assert a.indptr[p.hi] <= a.indptr[|a.nodes|];
    assert forall e :: 0 <= e < |p.indices| ==> p.indices[e] == a.indices[a.indptr[p.lo] + e];
  }

  lemma PartPointers(a: Matrix, p: Part, v: nat) returns (base: nat, top: nat, lo: nat, hi: nat)
    requires MatrixValid(a) && IsPart(a, p) && p.lo <= v < p.hi && PartRowValid(p, v, |a.nodes|)
    ensures lo == a.indptr[v] && hi == a.indptr[v + 1] && base <= lo <= hi <= top <= |a.indices|
    ensures p.indptr[v - p.lo] == lo - base && p.indptr[v - p.lo + 1] == hi - base
    ensures p.indices == a.indices[base..top] && p.data == a.data[base..top]
  {
    PartRow(a, p, v);
    base, top, lo, hi := a.indptr[p.lo], a.indptr[p.hi], a.indptr[v], a.indptr[v + 1];
  }

  lemma PartDot(ar: Arith, p: Part, indices: seq<nat>, data: seq<Single>, x: seq<Single>, v: nat, base: nat, top: nat, lo: nat, hi: nat)
    requires |indices| == |data| && Sorting.Below(indices, |x|) && base <= lo <= hi <= top <= |indices|
    requires PartRowValid(p, v, |x|)
    requires p.indptr[v - p.lo] == lo - base && p.indptr[v - p.lo + 1] == hi - base
    requires p.indices == indices[base..top] && p.data == data[base..top]
    ensures Dot(ar, p.indices, p.data, x, p.indptr[v - p.lo], p.indptr[v - p.lo + 1]) == Dot(ar, indices, data, x, lo, hi)
  {
    DotOfSlice(ar, indices, data, x, base, top, lo, hi);
  }

  lemma ProductAt(ar: Arith, a: Matrix, block: Block, c: nat, v: nat)
    requires MatrixValid(a) && IsBlock(block, |a.nodes|) && c < |block| && v < |a.nodes|
    ensures a.indptr[v] <= a.indptr[v + 1] <= |a.indices|
    ensures Product(ar, a, block)[c][v] == Dot(ar, a.indices, a.data, block[c], a.indptr[v], a.indptr[v + 1])
  {
    assert a.indptr[v + 1] <= a.indptr[|a.nodes|];
  }

  /** The part's products over its row `v` are the whole product's row. */
  lemma RowIsProduct(ar: Arith, a: Matrix, p: Part, block: Block, v: nat)
    requires MatrixValid(a) && IsPart(a, p) && IsBlock(block, |a.nodes|) && p.lo <= v < p.hi
    requires PartRowValid(p, v, |a.nodes|)
    ensures forall c :: 0 <= c < |block| ==>
      Dot(ar, p.indices, p.data, block[c], p.indptr[v - p.lo], p.indptr[v - p.lo + 1]) == Product(ar, a, block)[c][v]
  {
    var base, top, lo, hi := PartPointers(a, p, v);
    forall c | 0 <= c < |block|
      ensures Dot(ar, p.indices, p.data, block[c], p.indptr[v - p.lo], p.indptr[v - p.lo + 1]) == Product(ar, a, block)[c][v] {
      PartDot(ar, p, a.indices, a.data, block[c], v, base, top, lo, hi);
      ProductAt(ar, a, block, c, v);
    }
  }

  /** One row of a part's product. */
  method RowInto(ar: Arith, p: Part, block: Block, v: nat, out: array2<Single>)
    requires PartRowValid(p, v, out.Length0) && IsBlock(block, out.Length0) && v < out.Length0 && out.Length1 == |block|
    modifies out
    ensures forall c :: 0 <= c < |block| ==>
      out[v, c] == Dot(ar, p.indices, p.data, block[c], p.indptr[v - p.lo], p.indptr[v - p.lo + 1])
    ensures forall w, d :: 0 <= w < out.Length0 && w != v && 0 <= d < out.Length1 ==> out[w, d] == old(out[w, d])
  {
    var lo, hi := p.indptr[v - p.lo], p.indptr[v - p.lo + 1];
    for c := 0 to |block|
      invariant forall d :: 0 <= d < c ==> out[v, d] == Dot(ar, p.indices, p.data, block[d], lo, hi)
      invariant forall w, d :: 0 <= w < out.Length0 && w != v && 0 <= d < out.Length1 ==> out[w, d] == old(out[w, d])
    {
      var r := DotColumn(ar, p.indices, p.data, block[c], lo, hi);
      out[v, c] := r;
    }
  }

  lemma RowIsWanted(ar: Arith, a: Matrix, p: Part, block: Block, v: nat, want: Block)
    requires MatrixValid(a) && IsPart(a, p) && IsBlock(block, |a.nodes|) && p.lo <= v < p.hi && want == Product(ar, a, block)
    ensures PartRowValid(p, v, |a.nodes|)
    ensures forall c :: 0 <= c < |block| ==>
      Dot(ar, p.indices, p.data, block[c], p.indptr[v - p.lo], p.indptr[v - p.lo + 1]) == want[c][v]
  {
    PartRow(a, p, v);
    RowIsProduct(ar, a, p, block, v);
  }

  /** Row `v` of the product, from the part. */
  method WantedRow(ar: Arith, ghost a: Matrix, p: Part, block: Block, v: nat, ghost want: Block, out: array2<Single>)
    requires MatrixValid(a) && IsPart(a, p) && IsBlock(block, |a.nodes|) && p.lo <= v < p.hi && want == Product(ar, a, block)
    requires out.Length0 == |a.nodes| && out.Length1 == |block| && v < |a.nodes|
    modifies out
    ensures forall c :: 0 <= c < |want| ==> out[v, c] == want[c][v]
    ensures forall w, d :: 0 <= w < out.Length0 && w != v && 0 <= d < out.Length1 ==> out[w, d] == old(out[w, d])
  {
    RowIsWanted(ar, a, p, block, v, want);
    RowInto(ar, p, block, v, out);
  }

  /** One task: the part's product written into the part's rows. */
  method RunTask(ar: Arith, ghost a: Matrix, p: Part, block: Block, out: array2<Single>)
    requires MatrixValid(a) && IsPart(a, p) && IsBlock(block, |a.nodes|)
    requires out.Length0 == |a.nodes| && out.Length1 == |block|
    modifies out
    ensures Holds(out, Product(ar, a, block), p.lo, p.hi)
    ensures forall v, c :: 0 <= v < out.Length0 && !(p.lo <= v < p.hi) && 0 <= c < out.Length1 ==> out[v, c] == old(out[v, c])
  {
    ghost var want := Product(ar, a, block);
    for v := p.lo to p.hi
      invariant forall w, c :: p.lo <= w < v && 0 <= c < |want| ==> out[w, c] == want[c][w]
      invariant forall w, c :: 0 <= w < out.Length0 && !(p.lo <= w < p.hi) && 0 <= c < out.Length1 ==> out[w, c] == old(out[w, c])
    {
      WantedRow(ar, a, p, block, v, want, out);
    }
  }

  function Ids(n: nat): (r: set<nat>)
    ensures forall k: nat :: k in r <==> k < n
  {
    if n == 0 then {} else Ids(n - 1) + {n - 1}
  }

  /** The columns an array holds. */
  function Contents(out: array2<Single>): (r: Block)
    reads out
    ensures |r| == out.Length1 && IsBlock(r, out.Length0)
    ensures forall c, v :: 0 <= c < out.Length1 && 0 <= v < out.Length0 ==> r[c][v] == out[v, c]
  {
    seq(out.Length1, c requires 0 <= c < out.Length1 reads out =>
      seq(out.Length0, v requires 0 <= v < out.Length0 reads out => out[v, c]))
  }

  lemma AllRowsDone(a: Matrix, parts: seq<Part>, out: array2<Single>, want: Block)
    requires MatrixValid(a) && Partition(a, parts) && out.Length0 == |a.nodes|
    requires out.Length1 == |want| && IsBlock(want, out.Length0)
    requires forall k: nat :: k < |parts| ==> Holds(out, want, parts[k].lo, parts[k].hi)
    ensures Holds(out, want, 0, |a.nodes|)
  {
    forall v, c | 0 <= v < |a.nodes| && 0 <= c < |want| ensures out[v, c] == want[c][v] {
      assert Covered(parts, v);
      var k: nat :| Covers(parts, k, v);
      assert Holds(out, want, parts[k].lo, parts[k].hi);
    }
  }

  /** The tasks run in any order, and together they write the whole product. */
  method RunTasks(ar: Arith, ghost a: Matrix, parts: seq<Part>, block: Block, out: array2<Single>)
    requires MatrixValid(a) && Partition(a, parts) && IsBlock(block, |a.nodes|)
    requires out.Length0 == |a.nodes| && out.Length1 == |block|
    modifies out
    ensures Holds(out, Product(ar, a, block), 0, |a.nodes|)
  {
    ghost var want := Product(ar, a, block);
    var pending: set<nat> := Ids(|parts|);
    while pending != {}
      invariant forall k :: k in pending ==> 0 <= k < |parts|
      invariant forall k: nat :: k < |parts| && k !in pending ==> Holds(out, want, parts[k].lo, parts[k].hi)
      decreases |pending|
    {
      var k :| k in pending;
      RunTask(ar, a, parts[k], block, out);
      pending := pending - {k};
    }
    AllRowsDone(a, parts, out, want);
  }

  lemma SameBlock(a: Block, b: Block, n: nat)
    requires |a| == |b| && IsBlock(a, n) && IsBlock(b, n)
    requires forall c, v :: 0 <= c < |a| && 0 <= v < n ==> a[c][v] == b[c][v]
    ensures a == b
  {
    forall c | 0 <= c < |a| ensures a[c] == b[c] {
    }
  }

  /** `_Propagator.__call__`: with a pool or without, the result is the whole product. */
  method Propagate(ar: Arith, a: Matrix, parts: seq<Part>, threaded: bool, block: Block) returns (r: Block)
    requires MatrixValid(a) && Partition(a, parts) && IsBlock(block, |a.nodes|)
    ensures r == Product(ar, a, block)
  {
    var out := new Single[|a.nodes|, |block|];
    if threaded {
      RunTasks(ar, a, parts, block, out);
    } else if |a.nodes| > 0 {
      var p := MakePart(a, 0, |a.nodes|);
      RunTask(ar, a, p, block, out);
    }
    r := Contents(out);
    SameBlock(r, Product(ar, a, block), |a.nodes|);
  }
}
