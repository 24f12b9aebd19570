/** A vertex whose surroundings did not change keeps its vector, bit for bit, even though vertices elsewhere
    come and go and every position shifts. */
module Locality {
  import opened Adjacency
  import opened FastRP
  import opened Graph
  import opened Propagator
  import opened SortedSets
  import Sorting

  /** A graph: its vertices' keys in ascending order, and its edges by position. */
  datatype Network = Network(nodes: seq<nat>, blocks: seq<Graph.Block>)

  predicate NetworkValid(g: Network) {
    Ascending(g.nodes) && AllValid(g.blocks, |g.nodes|)
  }

  predicate JoinedAt(g: Network, u: nat, v: nat, x: nat, y: nat) {
    u < |g.nodes| && v < |g.nodes| && g.nodes[u] == x && g.nodes[v] == y && Linked(g.blocks, u, v)
  }

  /** An edge joins the vertices with keys `x` and `y`. */
  ghost predicate Joined(g: Network, x: nat, y: nat) {
    exists u: nat, v: nat :: JoinedAt(g, u, v, x, y)
  }

  /** `y` is at most `h` hops from `x`. */
  ghost predicate Within(g: Network, x: nat, y: nat, h: nat)
    decreases h
  {
    x == y || (h > 0 && exists z :: Joined(g, x, z) && Within(g, z, y, h - 1))
  }

  ghost predicate SameEdgesAt(g: Network, g': Network, y: nat) {
    forall z :: Joined(g, y, z) <==> Joined(g', y, z)
  }

  /** No edge at any vertex within `h` hops of `x` was added or removed. */
  ghost predicate Undisturbed(g: Network, g': Network, x: nat, h: nat) {
    forall y :: Within(g, x, y, h) ==> SameEdgesAt(g, g', y)
  }

  lemma {:induction false} WithinMore(g: Network, x: nat, y: nat, h: nat, more: nat)
    requires Within(g, x, y, h) && h <= more
    ensures Within(g, x, y, more)
    decreases h
  {
    if x != y {
      var z :| Joined(g, x, z) && Within(g, z, y, h - 1);
      WithinMore(g, z, y, h - 1, more - 1);
    }
  }

  lemma UndisturbedLess(g: Network, g': Network, x: nat, h: nat, less: nat)
    requires Undisturbed(g, g', x, h) && less <= h
    ensures Undisturbed(g, g', x, less)
  {
    forall y | Within(g, x, y, less) ensures SameEdgesAt(g, g', y) {
      WithinMore(g, x, y, less, h);
    }
  }

  lemma UndisturbedNext(g: Network, g': Network, x: nat, z: nat, h: nat)
    requires Undisturbed(g, g', x, h) && h > 0 && Joined(g, x, z)
    ensures Undisturbed(g, g', z, h - 1)
  {
    forall y | Within(g, z, y, h - 1) ensures SameEdgesAt(g, g', y) {
      assert Within(g, x, y, h);
    }
  }

  // ---- A row by keys ----

  function KeysOf(nodes: seq<nat>, row: seq<nat>): (r: seq<nat>)
    requires Sorting.Below(row, |nodes|)
    ensures |r| == |row|
  {
    seq(|row|, i requires 0 <= i < |row| => nodes[row[i]])
  }

  /** The matrix of a network, one float per entry. */
  ghost predicate Transits(a: Matrix, g: Network, inverse: nat -> Single) {
    NetworkValid(g) && IsTransition(a, g.nodes, g.blocks, inverse) && MatrixValid(a)
  }

  lemma RowBelow(a: Matrix, v: nat)
    requires MatrixValid(a) && v < |a.nodes|
    ensures Sorting.Below(Row(a, v), |a.nodes|)
  {
  }

  lemma LinkedBack(blocks: seq<Graph.Block>, u: nat, v: nat)
    requires Linked(blocks, u, v)
    ensures Linked(blocks, v, u)
  {
    var k :| 0 <= k < |blocks| && LinkedIn(blocks[k], u, v);
    assert LinkedIn(blocks[k], v, u);
  }

  lemma JoinedPositions(g: Network, u: nat, v: nat)
    requires NetworkValid(g) && u < |g.nodes| && v < |g.nodes|
    ensures Joined(g, g.nodes[v], g.nodes[u]) <==> Linked(g.blocks, u, v)
  {
    if Linked(g.blocks, u, v) {
      LinkedBack(g.blocks, u, v);
      assert JoinedAt(g, v, u, g.nodes[v], g.nodes[u]);
    }
    if Joined(g, g.nodes[v], g.nodes[u]) {
      var s: nat, t: nat :| JoinedAt(g, s, t, g.nodes[v], g.nodes[u]);
      assert s == v && t == u;
      LinkedBack(g.blocks, v, u);
    }
  }

  lemma JoinedPosition(g: Network, v: nat, y: nat) returns (u: nat)
    requires NetworkValid(g) && v < |g.nodes| && Joined(g, g.nodes[v], y)
    ensures u < |g.nodes| && g.nodes[u] == y && Linked(g.blocks, u, v)
  {
    var s: nat, t: nat :| JoinedAt(g, s, t, g.nodes[v], y);
    u := t;
    JoinedPositions(g, u, v);
  }

  /** A row read by keys lists exactly the joined keys, in ascending order. */
  lemma RowByKeys(a: Matrix, g: Network, inverse: nat -> Single, v: nat)
    requires Transits(a, g, inverse) && v < |g.nodes|
    ensures Sorting.Below(Row(a, v), |g.nodes|) && Ascending(KeysOf(g.nodes, Row(a, v)))
    ensures forall y :: y in KeysOf(g.nodes, Row(a, v)) <==> Joined(g, g.nodes[v], y)
  {
    RowBelow(a, v);
    var row := Row(a, v);
    var keys := KeysOf(g.nodes, row);
    assert RowIs(a, g.blocks, inverse, v);
    forall y ensures y in keys <==> Joined(g, g.nodes[v], y) {
      if y in keys {
        var i :| 0 <= i < |keys| && keys[i] == y;
        assert row[i] in row;
        JoinedPositions(g, row[i], v);
      }
      if Joined(g, g.nodes[v], y) {
        var u := JoinedPosition(g, v, y);
        assert u in row;
        var i :| 0 <= i < |row| && row[i] == u;
        assert keys[i] == y;
      }
    }
  }

  /** Vertices with the same edges have the same rows by key, and so the same degree. */
  lemma SameRows(a: Matrix, g: Network, a': Matrix, g': Network, inverse: nat -> Single, v: nat, v': nat)
    requires Transits(a, g, inverse) && Transits(a', g', inverse)
    requires v < |g.nodes| && v' < |g'.nodes| && g.nodes[v] == g'.nodes[v'] && SameEdgesAt(g, g', g.nodes[v])
    ensures Sorting.Below(Row(a, v), |g.nodes|) && Sorting.Below(Row(a', v'), |g'.nodes|)
    ensures KeysOf(g.nodes, Row(a, v)) == KeysOf(g'.nodes, Row(a', v'))
  {
    RowByKeys(a, g, inverse, v);
    RowByKeys(a', g', inverse, v');
    AscendingUnique(KeysOf(g.nodes, Row(a, v)), KeysOf(g'.nodes, Row(a', v')));
  }

  // ---- Products by key ----

  /** The values a row picks from a column. */
  function Picks(x: seq<Single>, row: seq<nat>): (r: seq<Single>)
    requires Sorting.Below(row, |x|)
    ensures |r| == |row|
  {
    seq(|row|, i requires 0 <= i < |row| => x[row[i]])
  }

  /** The products of one weight with each value, summed in order. */
  function Weighted(ar: Arith, weight: Single, xs: seq<Single>): Single {
    if xs == [] then ar.zero else ar.add(Weighted(ar, weight, xs[..|xs| - 1]), ar.mul(weight, xs[|xs| - 1]))
  }

  lemma {:induction false} DotIsWeighted(ar: Arith, indices: seq<nat>, data: seq<Single>, x: seq<Single>, lo: nat, hi: nat, weight: Single)
    requires lo <= hi <= |indices| == |data| && Sorting.Below(indices, |x|)
    requires forall e :: lo <= e < hi ==> data[e] == weight
    ensures Sorting.Below(indices[lo..hi], |x|)
    ensures Dot(ar, indices, data, x, lo, hi) == Weighted(ar, weight, Picks(x, indices[lo..hi]))
    decreases hi
  {
    if lo < hi {
      DotIsWeighted(ar, indices, data, x, lo, hi - 1, weight);
      var picks := Picks(x, indices[lo..hi]);
      assert picks[..|picks| - 1] == Picks(x, indices[lo..hi - 1]);
    }
  }

  lemma TimesIsWeighted(ar: Arith, a: Matrix, g: Network, inverse: nat -> Single, x: seq<Single>, v: nat)
    requires Transits(a, g, inverse) && |x| == |a.nodes| && v < |a.nodes|
    ensures Sorting.Below(Row(a, v), |x|)
    ensures Times(ar, a, x)[v] == Weighted(ar, inverse(|Row(a, v)|), Picks(x, Row(a, v)))
  {
    assert RowIs(a, g.blocks, inverse, v);
    assert a.indptr[v + 1] <= a.indptr[|a.nodes|];
    DotIsWeighted(ar, a.indices, a.data, x, a.indptr[v], a.indptr[v + 1], inverse(a.degree[v]));
  }

  /** Two models that differ only in their graphs: the projection depends on a vertex's key and the column. */
  ghost predicate Comparable(m: Model, g: Network, m': Model, g': Network, keyed: (nat, nat) -> Single, inverse: nat -> Single) {
    && Transits(m.a, g, inverse) && Transits(m'.a, g', inverse)
    && m.ar == m'.ar && m.dim == m'.dim && m.weights == m'.weights && m.selfWeight == m'.selfWeight
    && (forall v, j {:trigger m.project(v, j)} :: 0 <= v < |g.nodes| ==> m.project(v, j) == keyed(g.nodes[v], j))
    && (forall v, j {:trigger m'.project(v, j)} :: 0 <= v < |g'.nodes| ==> m'.project(v, j) == keyed(g'.nodes[v], j))
  }

  /** A power of the projection agrees at a vertex undisturbed within one hop less. */
  lemma {:induction false} PowerAgrees(m: Model, g: Network, m': Model, g': Network, keyed: (nat, nat) -> Single, inverse: nat -> Single,
                                       k: nat, j: nat, v: nat, v': nat)
    requires Comparable(m, g, m', g', keyed, inverse)
    requires v < |g.nodes| && v' < |g'.nodes| && g.nodes[v] == g'.nodes[v']
    requires k > 0 ==> Undisturbed(g, g', g.nodes[v], k - 1)
    ensures Column(m, k, j)[v] == Column(m', k, j)[v']
    decreases k
  {
    if k > 0 {
      var x := g.nodes[v];
      assert Within(g, x, x, k - 1);
      SameRows(m.a, g, m'.a, g', inverse, v, v');
      var row, row' := Row(m.a, v), Row(m'.a, v');
      var before, before' := Column(m, k - 1, j), Column(m', k - 1, j);
      TimesIsWeighted(m.ar, m.a, g, inverse, before, v);
      TimesIsWeighted(m.ar, m'.a, g', inverse, before', v');
      var keys := KeysOf(g.nodes, row);
      RowByKeys(m.a, g, inverse, v);
      forall i | 0 <= i < |row| ensures before[row[i]] == before'[row'[i]] {
        assert keys[i] in keys && keys[i] == KeysOf(g'.nodes, row')[i];
        if k > 1 {
          UndisturbedNext(g, g', x, keys[i], k - 1);
        }
        PowerAgrees(m, g, m', g', keyed, inverse, k - 1, j, row[i], row'[i]);
      }
      assert |row| == |keys| == |row'|;
      assert Picks(before, row) == Picks(before', row');
    }
  }

  lemma {:induction false} SumAgrees(m: Model, g: Network, m': Model, g': Network, keyed: (nat, nat) -> Single, inverse: nat -> Single,
                                     k: nat, j: nat, v: nat, v': nat)
    requires Comparable(m, g, m', g', keyed, inverse)
    requires v < |g.nodes| && v' < |g'.nodes| && g.nodes[v] == g'.nodes[v']
    requires k > 0 ==> Undisturbed(g, g', g.nodes[v], k - 1)
    ensures SumSq(m, k, v, j) == SumSq(m', k, v', j)
    decreases j
  {
    if j > 0 {
      SumAgrees(m, g, m', g', keyed, inverse, k, j - 1, v, v');
      PowerAgrees(m, g, m', g', keyed, inverse, k, j - 1, v, v');
    }
  }

  /** So does a power's term, whatever its weight. */
  lemma TermAgrees(m: Model, g: Network, m': Model, g': Network, keyed: (nat, nat) -> Single, inverse: nat -> Single,
                   picked: bool, weight: Double, k: nat, j: nat, v: nat, v': nat)
    requires Comparable(m, g, m', g', keyed, inverse)
    requires v < |g.nodes| && v' < |g'.nodes| && g.nodes[v] == g'.nodes[v']
    requires k > 0 ==> Undisturbed(g, g', g.nodes[v], k - 1)
    ensures Term(m, picked, weight, k, v, j) == Term(m', picked, weight, k, v', j)
  {
    SumAgrees(m, g, m', g', keyed, inverse, k, m.dim, v, v');
    PowerAgrees(m, g, m', g', keyed, inverse, k, j, v, v');
  }

  lemma {:induction false} PartialAgrees(m: Model, g: Network, m': Model, g': Network, keyed: (nat, nat) -> Single, inverse: nat -> Single,
                                         picked: bool, j: nat, t: nat, v: nat, v': nat)
    requires Comparable(m, g, m', g', keyed, inverse)
    requires v < |g.nodes| && v' < |g'.nodes| && g.nodes[v] == g'.nodes[v']
    requires t <= |m.weights| && (t > 0 ==> Undisturbed(g, g', g.nodes[v], t - 1))
    ensures Partial(m, picked, v, j, t) == Partial(m', picked, v', j, t)
    decreases t
  {
    if t == 0 {
      TermAgrees(m, g, m', g', keyed, inverse, picked, m.selfWeight, 0, j, v, v');
    } else {
      TermAgrees(m, g, m', g', keyed, inverse, picked, m.weights[t - 1], t, j, v, v');
      if t > 1 {
        UndisturbedLess(g, g', g.nodes[v], t - 1, t - 2);
      }
      PartialAgrees(m, g, m', g', keyed, inverse, picked, j, t - 1, v, v');
    }
  }

  /** If no edge at a vertex within `len(weights) - 1` hops was added or removed, the vector is the same. */
  lemma VectorKept(m: Model, g: Network, m': Model, g': Network, keyed: (nat, nat) -> Single, inverse: nat -> Single,
                   picked: bool, j: nat, v: nat, v': nat)
    requires Comparable(m, g, m', g', keyed, inverse) && m.weights != []
    requires v < |g.nodes| && v' < |g'.nodes| && g.nodes[v] == g'.nodes[v']
    requires Undisturbed(g, g', g.nodes[v], |m.weights| - 1)
    ensures Embed(m, picked, v, j) == Embed(m', picked, v', j)
  {
    PartialAgrees(m, g, m', g', keyed, inverse, picked, j, |m.weights|, v, v');
  }
}
