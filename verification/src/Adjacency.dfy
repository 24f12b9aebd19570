/** `AdjacencyBuilder` and the transition matrix it builds. A weight is a value of an arbitrary type `F`, and
    `inverse` gives the rounded reciprocal of a degree. */
module Adjacency {
  import opened Basics
  import opened Graph
  import opened Scatter
  import opened SortedSets
  import Sorting

  const ROW_SLICE: nat := 1048576

  /** `D^-1 A` in CSR form, with the positions' keys and the degrees. */
  datatype Transition<F> = Transition(nodes: seq<nat>, indptr: seq<nat>, indices: seq<nat>, data: seq<F>, degree: seq<nat>)

  predicate Shaped<F>(a: Transition<F>) {
    Pointers(a.indptr, |a.nodes|, |a.indices|) && |a.data| == |a.indices| && |a.degree| == |a.nodes|
  }

  function Slice(indptr: seq<nat>, indices: seq<nat>, v: nat): seq<nat>
    requires v + 1 < |indptr| && indptr[v] <= indptr[v + 1] <= |indices|
  {
    indices[indptr[v]..indptr[v + 1]]
  }

  function Row<F>(a: Transition<F>, v: nat): seq<nat>
    requires Shaped(a) && v < |a.nodes|
  {
    Slice(a.indptr, a.indices, v)
  }

  /** Row `v` lists its neighbours once each in ascending order, and each entry is the rounded 1/degree. */
  ghost predicate RowIs<F>(a: Transition<F>, blocks: seq<Block>, inverse: nat -> F, v: nat)
    requires Shaped(a) && v < |a.nodes|
  {
    && Ascending(Row(a, v))
    && (forall u :: u in Row(a, v) <==> Linked(blocks, u, v))
    && a.degree[v] == |Row(a, v)|
    && (forall e :: a.indptr[v] <= e < a.indptr[v + 1] ==> a.data[e] == inverse(a.degree[v]))
  }

  /** `a` is the transition matrix of the graph over `nodes` with the edges in `blocks`. */
  ghost predicate IsTransition<F>(a: Transition<F>, nodes: seq<nat>, blocks: seq<Block>, inverse: nat -> F) {
    a.nodes == nodes && Shaped(a) && forall v :: 0 <= v < |nodes| ==> RowIs(a, blocks, inverse, v)
  }

  // ---- Sorting rows and collapsing duplicates ----

  /** `sum_duplicates`: every row sorted, with repeated columns collapsed. */
  method SumDuplicates(indptr: seq<nat>, indices: seq<nat>, n: nat) returns (ptr: seq<nat>, idx: seq<nat>)
    requires Pointers(indptr, n, |indices|)
    ensures Pointers(ptr, n, |idx|)
    ensures forall v :: 0 <= v < n ==> Slice(ptr, idx, v) == SortedSet(Slice(indptr, indices, v))
  {
    ptr, idx := [0], [];
    for v := 0 to n
      invariant |ptr| == v + 1 && ptr[0] == 0 && ptr[v] == |idx|
      invariant forall w, x :: 0 <= w <= x <= v ==> ptr[w] <= ptr[x]
      invariant forall w :: 0 <= w < v ==> idx[ptr[w]..ptr[w + 1]] == SortedSet(Slice(indptr, indices, w))
    {
      ghost var before := idx;
      var row := SortedSet(Slice(indptr, indices, v));
      idx := idx + row;
      assert idx[ptr[v]..] == row;
      forall w | 0 <= w < v ensures idx[ptr[w]..ptr[w + 1]] == before[ptr[w]..ptr[w + 1]] {
        assert ptr[w + 1] <= ptr[v];
      }
      ptr := ptr + [|idx|];
    }
  }

  function Degrees(indptr: seq<nat>, n: nat): (d: seq<nat>)
    requires |indptr| == n + 1 && forall v, w :: 0 <= v <= w <= n ==> indptr[v] <= indptr[w]
    ensures |d| == n
  {
    seq(n, v requires 0 <= v < n => indptr[v + 1] - indptr[v])
  }

  method FillRow<F>(data: array<F>, lo: nat, hi: nat, weight: F)
    requires lo <= hi <= data.Length
    modifies data
    ensures forall e :: lo <= e < hi ==> data[e] == weight
    ensures forall e :: 0 <= e < data.Length && !(lo <= e < hi) ==> data[e] == old(data[e])
  {
    for k := lo to hi
      invariant forall e :: lo <= e < k ==> data[e] == weight
      invariant forall e :: 0 <= e < data.Length && !(lo <= e < k) ==> data[e] == old(data[e])
    {
      data[k] := weight;
    }
  }

  /** One slice of rows: each row's entries get its weight. */
  method FillSlice<F>(data: array<F>, indptr: seq<nat>, weights: seq<F>, start: nat, stop: nat)
    requires start <= stop <= |weights| && Pointers(indptr, |weights|, data.Length)
    modifies data
    ensures forall v, e :: start <= v < stop && indptr[v] <= e < indptr[v + 1] ==> data[e] == weights[v]
    ensures forall e :: 0 <= e < data.Length && !(indptr[start] <= e < indptr[stop]) ==> data[e] == old(data[e])
  {
    for v := start to stop
      invariant forall w, e :: start <= w < v && indptr[w] <= e < indptr[w + 1] ==> data[e] == weights[w]
      invariant forall e :: 0 <= e < data.Length && !(indptr[start] <= e < indptr[v]) ==> data[e] == old(data[e])
    {
      assert indptr[v + 1] <= indptr[|weights|];
      assert forall w {:trigger indptr[w]} :: start <= w < v ==> indptr[w + 1] <= indptr[v];
      FillRow(data, indptr[v], indptr[v + 1], weights[v]);
    }
  }

  method FillWeights<F>(data: array<F>, indptr: seq<nat>, weights: seq<F>)
    requires Pointers(indptr, |weights|, data.Length)
    modifies data
    ensures forall v, e :: 0 <= v < |weights| && indptr[v] <= e < indptr[v + 1] ==> data[e] == weights[v]
  {
    var start := 0;
    while start < |weights|
      invariant 0 <= start <= |weights|
      invariant forall v, e :: 0 <= v < start && indptr[v] <= e < indptr[v + 1] ==> data[e] == weights[v]
    {
      var stop := if start + ROW_SLICE < |weights| then start + ROW_SLICE else |weights|;
      assert forall v {:trigger indptr[v]} :: 0 <= v < start ==> indptr[v + 1] <= indptr[start];
      FillSlice(data, indptr, weights, start, stop);
      start := stop;
    }
  }

  /** From scattered rows to the finished matrix: sort, collapse, weigh. */
  method Assemble<F>(nodes: seq<nat>, indptr: seq<nat>, indices: seq<nat>, inverse: nat -> F, one: F) returns (a: Transition<F>)
    requires Pointers(indptr, |nodes|, |indices|)
    ensures a.nodes == nodes && Shaped(a)
    ensures forall v :: 0 <= v < |nodes| ==>
      Row(a, v) == SortedSet(Slice(indptr, indices, v)) && a.degree[v] == |Row(a, v)|
    ensures forall v, e :: 0 <= v < |nodes| && a.indptr[v] <= e < a.indptr[v + 1] ==> a.data[e] == inverse(a.degree[v])
  {
    var n := |nodes|;
    var ptr, idx := SumDuplicates(indptr, indices, n);
    var degree := Degrees(ptr, n);
    var weights := seq(n, v requires 0 <= v < n => inverse(if degree[v] > 1 then degree[v] else 1));
    var data := new F[|idx|](_ => one);
    FillWeights(data, ptr, weights);
    a := Transition(nodes, ptr, idx, data[..], degree);
  }

  // ---- The builder ----

  lemma {:induction false} ScatteredGrows(blocks: seq<Block>, n: nat, v: nat, k: nat)
    requires AllValid(blocks, n) && k <= |blocks|
    ensures |Scattered(blocks[k..], n, v)| <= |Scattered(blocks, n, v)|
    decreases k
  {
    if k == 0 {
      assert blocks[0..] == blocks;
    } else {
      ScatteredGrows(blocks[1..], n, v, k - 1);
      assert blocks[1..][k - 1..] == blocks[k..];
    }
  }

  lemma NoLoop(blocks: seq<Block>, n: nat, v: nat)
    requires AllValid(blocks, n)
    ensures !Linked(blocks, v, v)
  {
    forall k | 0 <= k < |blocks| ensures !LinkedIn(blocks[k], v, v) {
      assert BlockValid(blocks[k], n);
    }
  }

  /** Both directions of one block. */
  method ScatterBoth(b: Block, indptr: seq<nat>, cursor: array<nat>, indices: array<nat>)
    requires cursor != indices && BlockValid(b, cursor.Length) && Pointers(indptr, cursor.Length, indices.Length)
    requires forall v :: 0 <= v < cursor.Length ==>
      indptr[v] <= cursor[v] && cursor[v] + Count(b.src, v, |b.src|) + Count(b.dst, v, |b.dst|) <= indptr[v + 1]
    modifies cursor, indices
    ensures forall v :: 0 <= v < cursor.Length ==>
      cursor[v] == old(cursor[v]) + Count(b.src, v, |b.src|) + Count(b.dst, v, |b.dst|)
    ensures forall v :: 0 <= v < cursor.Length ==>
      indptr[v] <= old(cursor[v]) <= cursor[v] <= indices.Length
      && indices[indptr[v]..cursor[v]]
        == old(indices[indptr[v]..cursor[v]]) + Cols(b.src, b.dst, v, |b.src|) + Cols(b.dst, b.src, v, |b.src|)
  {
    Fill(b.src, b.dst, indptr, cursor, indices);
    Fill(b.dst, b.src, indptr, cursor, indices);
  }

  /** Every row has room for exactly what will be scattered into it. */
  ghost predicate Planned(blocks: seq<Block>, n: nat, indptr: seq<nat>)
    requires AllValid(blocks, n) && |indptr| == n + 1
  {
    forall v :: 0 <= v < n ==> indptr[v + 1] == indptr[v] + |Scattered(blocks, n, v)|
  }

  /** Blocks `k` and later have been scattered, and nothing else. */
  ghost predicate ScatteredFrom(all: seq<Block>, n: nat, k: nat, indptr: seq<nat>, cursor: seq<nat>, indices: seq<nat>)
    requires AllValid(all, n) && k <= |all|
  {
    && |indptr| == n + 1 && |cursor| == n
    && (forall v :: 0 <= v < n ==> indptr[v] <= cursor[v] <= |indices|)
    && (forall v :: 0 <= v < n ==> indices[indptr[v]..cursor[v]] == Scattered(all[k..], n, v))
  }

  lemma NextScattered(all: seq<Block>, n: nat, k: nat, v: nat)
    requires AllValid(all, n) && k < |all| && BlockValid(all[k], n)
    ensures Scattered(all[k..], n, v)
      == Scattered(all[k + 1..], n, v) + Cols(all[k].src, all[k].dst, v, |all[k].src|) + Cols(all[k].dst, all[k].src, v, |all[k].src|)
  {
    assert all[k..][1..] == all[k + 1..];
  }

  lemma ScatteredNow(all: seq<Block>, n: nat, k: nat, indptr: seq<nat>, at: seq<nat>, was: seq<nat>, cursor: seq<nat>, indices: seq<nat>)
    requires AllValid(all, n) && k < |all| && BlockValid(all[k], n) && ScatteredFrom(all, n, k + 1, indptr, at, was)
    requires |cursor| == n && forall v :: 0 <= v < n ==> indptr[v] <= cursor[v] <= |indices|
    requires forall v :: 0 <= v < n ==>
      indices[indptr[v]..cursor[v]]
      == was[indptr[v]..at[v]] + Cols(all[k].src, all[k].dst, v, |all[k].src|) + Cols(all[k].dst, all[k].src, v, |all[k].src|)
    ensures ScatteredFrom(all, n, k, indptr, cursor, indices)
  {
    forall v | 0 <= v < n ensures indices[indptr[v]..cursor[v]] == Scattered(all[k..], n, v) {
      NextScattered(all, n, k, v);
    }
  }

  lemma FilledSizes(all: seq<Block>, n: nat, k: nat, indptr: seq<nat>, cursor: seq<nat>, indices: seq<nat>)
    requires AllValid(all, n) && k <= |all| && ScatteredFrom(all, n, k, indptr, cursor, indices)
    ensures forall v :: 0 <= v < n ==> cursor[v] == indptr[v] + |Scattered(all[k..], n, v)|
  {
    forall v | 0 <= v < n ensures cursor[v] == indptr[v] + |Scattered(all[k..], n, v)| {
      assert |indices[indptr[v]..cursor[v]]| == cursor[v] - indptr[v];
    }
  }

  /** The next block to be scattered fits into what is left of every row. */
  lemma BlockFits(all: seq<Block>, n: nat, k: nat, indptr: seq<nat>, cursor: seq<nat>)
    requires AllValid(all, n) && k < |all| && |indptr| == n + 1 && |cursor| == n
    requires forall v :: 0 <= v < n ==> indptr[v + 1] == indptr[v] + |Scattered(all, n, v)|
    requires forall v :: 0 <= v < n ==> cursor[v] == indptr[v] + |Scattered(all[k + 1..], n, v)|
    ensures forall v :: 0 <= v < n ==>
      cursor[v] + Count(all[k].src, v, |all[k].src|) + Count(all[k].dst, v, |all[k].dst|) <= indptr[v + 1]
  {
    assert all[k..][1..] == all[k + 1..] && BlockValid(all[k], n);
    forall v | 0 <= v < n ensures
      cursor[v] + Count(all[k].src, v, |all[k].src|) + Count(all[k].dst, v, |all[k].dst|) <= indptr[v + 1] {
      ScatteredGrows(all, n, v, k);
    }
  }

  method ScatterNext(ghost all: seq<Block>, ghost k: nat, b: Block, indptr: seq<nat>, cursor: array<nat>, indices: array<nat>)
    requires AllValid(all, cursor.Length) && k < |all| && b == all[k]
    requires cursor != indices && Pointers(indptr, cursor.Length, indices.Length) && Planned(all, cursor.Length, indptr)
    requires ScatteredFrom(all, cursor.Length, k + 1, indptr, cursor[..], indices[..])
    modifies cursor, indices
    ensures ScatteredFrom(all, cursor.Length, k, indptr, cursor[..], indices[..])
  {
    ghost var n, at, was := cursor.Length, cursor[..], indices[..];
    FilledSizes(all, n, k + 1, indptr, at, was);
    BlockFits(all, n, k, indptr, at);
    ScatterBoth(b, indptr, cursor, indices);
    forall v | 0 <= v < n
      ensures indices[..][indptr[v]..cursor[v]]
        == was[indptr[v]..at[v]] + Cols(b.src, b.dst, v, |b.src|) + Cols(b.dst, b.src, v, |b.src|) {
      assert indices[..][indptr[v]..cursor[v]] == indices[indptr[v]..cursor[v]];
      assert was[indptr[v]..at[v]] == old(indices[indptr[v]..cursor[v]]);
    }
    ScatteredNow(all, n, k, indptr, at, was, cursor[..], indices[..]);
  }

  lemma AllScattered(all: seq<Block>, n: nat, indptr: seq<nat>, cursor: seq<nat>, indices: seq<nat>)
    requires AllValid(all, n) && Pointers(indptr, n, |indices|) && Planned(all, n, indptr)
    requires ScatteredFrom(all, n, 0, indptr, cursor, indices)
    ensures forall v :: 0 <= v < n ==> Slice(indptr, indices, v) == Scattered(all, n, v)
  {
    assert all[0..] == all;
    forall v | 0 <= v < n ensures Slice(indptr, indices, v) == Scattered(all, n, v) {
      assert |indices[indptr[v]..cursor[v]]| == cursor[v] - indptr[v];
    }
  }

  predicate InRange(xs: seq<int>, n: nat) {
    forall i :: 0 <= i < |xs| ==> 0 <= xs[i] < n
  }

  function ToNat(xs: seq<int>, n: nat): (r: seq<nat>)
    requires InRange(xs, n)
    ensures |r| == |xs| && forall i :: 0 <= i < |xs| ==> r[i] == xs[i]
  {
    seq(|xs|, i requires 0 <= i < |xs| => xs[i])
  }

  lemma RowBuilt(blocks: seq<Block>, n: nat, v: nat, row: seq<nat>)
    requires AllValid(blocks, n) && row == SortedSet(Scattered(blocks, n, v))
    ensures Ascending(row) && forall u :: u in row <==> Linked(blocks, u, v)
  {
    SortedSetIs(Scattered(blocks, n, v));
    forall u ensures u in row <==> Linked(blocks, u, v) {
      ScatteredAre(blocks, n, v, u);
    }
  }

  lemma LinkedLast(blocks: seq<Block>, b: Block, u: nat, v: nat)
    ensures Linked(blocks + [b], u, v) <==> Linked(blocks, u, v) || LinkedIn(b, u, v)
  {
    var all := blocks + [b];
    if Linked(blocks, u, v) {
      var k :| 0 <= k < |blocks| && LinkedIn(blocks[k], u, v);
      assert LinkedIn(all[k], u, v);
    }
    if LinkedIn(b, u, v) {
      assert LinkedIn(all[|blocks|], u, v);
    }
  }

  lemma AllKnown(nodes: seq<nat>, a: seq<nat>, b: seq<nat>)
    ensures (forall k :: k in a + b ==> k in nodes) <==>
      (forall i :: 0 <= i < |a| ==> a[i] in nodes) && (forall i :: 0 <= i < |b| ==> b[i] in nodes)
  {
    if forall k :: k in a + b ==> k in nodes {
      forall i | 0 <= i < |a| ensures a[i] in nodes {
        assert (a + b)[i] in a + b;
      }
      forall i | 0 <= i < |b| ensures b[i] in nodes {
        assert (a + b)[|a| + i] in a + b;
      }
    }
  }

  lemma PairsByKey(nodes: seq<nat>, s: seq<nat>, t: seq<nat>, ps: seq<nat>, pt: seq<nat>, u: nat, v: nat)
    requires Ascending(nodes) && |s| == |t| == |ps| == |pt| && u < |nodes| && v < |nodes|
    requires forall i :: 0 <= i < |s| ==> ps[i] < |nodes| && nodes[ps[i]] == s[i]
    requires forall i :: 0 <= i < |s| ==> pt[i] < |nodes| && nodes[pt[i]] == t[i]
    ensures Pair(s, t, nodes[u], nodes[v]) <==> Pair(ps, pt, u, v)
  {
    if Pair(ps, pt, u, v) {
      var i :| 0 <= i < |ps| && ps[i] == u && pt[i] == v;
      assert s[i] == nodes[u] && t[i] == nodes[v];
    }
    if Pair(s, t, nodes[u], nodes[v]) {
      var i :| 0 <= i < |s| && s[i] == nodes[u] && t[i] == nodes[v];
      assert ps[i] == u && pt[i] == v;
    }
  }

  class AdjacencyBuilder {
    const nodes: seq<nat>
    var blocks: seq<Block>
    var built: bool

    ghost predicate Valid()
      reads this
    {
      AllValid(blocks, |nodes|)
    }

    constructor (nodes: seq<nat>)
      ensures Valid() && this.nodes == nodes && blocks == [] && !built && forall u, v :: !Linked(blocks, u, v)
    {
      this.nodes := nodes;
      blocks, built := [], false;
    }

    /** Adds the block's edges in either direction and drops its loops; a bad call adds nothing. */
    method AddEdgePositions(sources: seq<int>, targets: seq<int>) returns (r: Outcome<()>)
      requires Valid()
      modifies this
      ensures Valid() && built == old(built)
      ensures r.RuntimeError? <==> built
      ensures r.Ok? <==> !built && |sources| == |targets| && InRange(sources, |nodes|) && InRange(targets, |nodes|)
      ensures r.Ok? || r.RuntimeError? || r.ValueError?
      ensures !r.Ok? ==> blocks == old(blocks)
      ensures r.Ok? ==> forall u, v :: Linked(blocks, u, v) <==>
        Linked(old(blocks), u, v) || (u != v && exists i :: 0 <= i < |sources| && ((sources[i] == u && targets[i] == v) || (sources[i] == v && targets[i] == u)))
    {
      if built {
        return RuntimeError;
      }
      if |sources| != |targets| || !InRange(sources, |nodes|) || !InRange(targets, |nodes|) {
        return ValueError;
      }
      var src, dst := ToNat(sources, |nodes|), ToNat(targets, |nodes|);
      var block := LoopFree(src, dst);
      LoopFreeKeeps(src, dst, |nodes|);
      forall u, v ensures LinkedIn(block, u, v) <==> u != v && (Pair(src, dst, u, v) || Pair(src, dst, v, u)) {
        LoopFreePairs(src, dst, u, v);
        LoopFreePairs(src, dst, v, u);
      }
      blocks := blocks + [block];
      forall u, v ensures Linked(blocks, u, v) <==> Linked(old(blocks), u, v) || LinkedIn(block, u, v) {
        LinkedLast(old(blocks), block, u, v);
      }
      r := Ok(());
    }

    /** Adds edges given by keys; an unknown key adds nothing. */
    method AddEdges(sourceKeys: seq<nat>, targetKeys: seq<nat>) returns (r: Outcome<()>)
      requires Valid() && Ascending(nodes)
      modifies this
      ensures Valid() && built == old(built)
      ensures r.KeyError? <==> !(forall k :: k in sourceKeys + targetKeys ==> k in nodes)
      ensures r.Ok? <==> !r.KeyError? && !built && |sourceKeys| == |targetKeys|
      ensures !r.Ok? ==> blocks == old(blocks)
      ensures r.Ok? ==> forall u: nat, v: nat :: u < |nodes| && v < |nodes| ==> (Linked(blocks, u, v) <==>
        Linked(old(blocks), u, v) || (u != v && (Pair(sourceKeys, targetKeys, nodes[u], nodes[v]) || Pair(sourceKeys, targetKeys, nodes[v], nodes[u]))))
    {
      PositionsAre(nodes, sourceKeys);
      PositionsAre(nodes, targetKeys);
      var s, t := Positions(nodes, sourceKeys), Positions(nodes, targetKeys);
      AllKnown(nodes, sourceKeys, targetKeys);
      if s.KeyError? || t.KeyError? {
        return KeyError;
      }
      r := AddEdgePositions(s.value, t.value);
      if r.Ok? {
        forall u: nat, v: nat | u < |nodes| && v < |nodes|
          ensures Pair(sourceKeys, targetKeys, nodes[u], nodes[v]) <==> Pair(s.value, t.value, u, v) {
          PairsByKey(nodes, sourceKeys, targetKeys, s.value, t.value, u, v);
        }
      }
    }

    /** Pops the blocks one by one and scatters both directions of each. */
    method ScatterBlocks(indptr: seq<nat>, cursor: array<nat>, indices: array<nat>)
      requires Valid() && cursor != indices && cursor.Length == |nodes| && Pointers(indptr, |nodes|, indices.Length)
      requires cursor[..] == indptr[..|nodes|] && Planned(blocks, |nodes|, indptr)
      modifies this, cursor, indices
      ensures blocks == [] && built == old(built)
      ensures forall v :: 0 <= v < |nodes| ==> Slice(indptr, indices[..], v) == Scattered(old(blocks), |nodes|, v)
    {
      ghost var all := blocks;
      assert all[|all|..] == [];
      while blocks != []
        invariant |blocks| <= |all| && blocks == all[..|blocks|] && built == old(built)
        invariant ScatteredFrom(all, |nodes|, |blocks|, indptr, cursor[..], indices[..])
        decreases |blocks|
      {
        var b := blocks[|blocks| - 1];
        blocks := blocks[..|blocks| - 1];
        ScatterNext(all, |blocks|, b, indptr, cursor, indices);
      }
      AllScattered(all, |nodes|, indptr, cursor[..], indices[..]);
    }

    /** Assembles the matrix and releases the blocks; a second call fails. `one` stands in every entry until
        the weights are written. */
    method Build<F>(inverse: nat -> F, one: F) returns (r: Outcome<Transition<F>>)
      requires Valid()
      modifies this
      ensures Valid() && built
      ensures old(built) ==> r.RuntimeError? && blocks == old(blocks)
      ensures !old(built) ==> r.Ok? && blocks == [] && IsTransition(r.value, nodes, old(blocks), inverse)
    {
      if built {
        return RuntimeError;
      }
      built := true;
      ghost var all := blocks;
      var n := |nodes|;
      var counts := CountEntries(blocks, n);
      var indptr := RunningPointers(counts);
      var cursor := new nat[n](v requires 0 <= v < n => indptr[v]);
      var indices := new nat[indptr[n]];
      ScatterBlocks(indptr, cursor, indices);
      var a := Assemble(nodes, indptr, indices[..], inverse, one);
      forall v | 0 <= v < n ensures RowIs(a, all, inverse, v) {
        RowBuilt(all, n, v, Row(a, v));
      }
      r := Ok(a);
    }
  }

  // ---- What the matrix is ----

  /** The matrix is symmetric in shape and has no diagonal. */
  lemma RowsMirror<F>(a: Transition<F>, nodes: seq<nat>, blocks: seq<Block>, inverse: nat -> F, u: nat, v: nat)
    requires IsTransition(a, nodes, blocks, inverse) && AllValid(blocks, |nodes|) && u < |nodes| && v < |nodes|
    ensures u in Row(a, v) <==> v in Row(a, u)
    ensures v !in Row(a, v)
  {
    assert RowIs(a, blocks, inverse, u) && RowIs(a, blocks, inverse, v);
    NoLoop(blocks, |nodes|, v);
  }

  lemma {:induction false} SamePointers<F>(a: Transition<F>, b: Transition<F>, n: nat)
    requires Shaped(a) && Shaped(b) && n <= |a.nodes| == |b.nodes|
    requires forall v :: 0 <= v < |a.nodes| ==> Row(a, v) == Row(b, v)
    ensures a.indptr[..n + 1] == b.indptr[..n + 1]
    decreases n
  {
    if n > 0 {
      SamePointers(a, b, n - 1);
      assert |Row(a, n - 1)| == |Row(b, n - 1)|;
      assert a.indptr[n - 1] == a.indptr[..n][n - 1];
      assert a.indptr[..n + 1] == a.indptr[..n] + [a.indptr[n]];
      assert b.indptr[..n + 1] == b.indptr[..n] + [b.indptr[n]];
    }
  }

  lemma {:induction false} RowOfEntry(indptr: seq<nat>, n: nat, e: nat) returns (v: nat)
    requires n < |indptr| && indptr[0] == 0 && e < indptr[n]
    ensures v < n && indptr[v] <= e < indptr[v + 1]
  {
    if indptr[n - 1] <= e {
      v := n - 1;
    } else {
      v := RowOfEntry(indptr, n - 1, e);
    }
  }

  /** The matrix depends only on which nodes are joined: not on how edges were ordered, repeated, directed or
      split into blocks. */
  lemma OneMatrixPerGraph<F>(a: Transition<F>, b: Transition<F>, nodes: seq<nat>, blocks: seq<Block>, blocks': seq<Block>, inverse: nat -> F)
    requires IsTransition(a, nodes, blocks, inverse) && IsTransition(b, nodes, blocks', inverse)
    requires forall u, v :: Linked(blocks, u, v) <==> Linked(blocks', u, v)
    ensures a == b
  {
    forall v | 0 <= v < |nodes| ensures Row(a, v) == Row(b, v) {
      assert RowIs(a, blocks, inverse, v) && RowIs(b, blocks', inverse, v);
      AscendingUnique(Row(a, v), Row(b, v));
    }
    SamePointers(a, b, |nodes|);
    assert a.degree == b.degree by {
      forall v | 0 <= v < |nodes| ensures a.degree[v] == b.degree[v] {
        assert RowIs(a, blocks, inverse, v) && RowIs(b, blocks', inverse, v);
      }
    }
    forall e | 0 <= e < |a.indices| ensures a.indices[e] == b.indices[e] && a.data[e] == b.data[e] {
      var v := RowOfEntry(a.indptr, |nodes|, e);
      assert RowIs(a, blocks, inverse, v) && RowIs(b, blocks', inverse, v);
      assert Row(a, v)[e - a.indptr[v]] == Row(b, v)[e - a.indptr[v]];
    }
  }

  // ---- Entry by entry ----

  /** Whom v is joined to, by the edges of the blocks in either direction. */
  ghost predicate Neighbour(blocks: seq<Block>, v: nat, u: nat) {
    exists b, i :: b in blocks && 0 <= i < |b.src| == |b.dst| && ((b.src[i] == u && b.dst[i] == v) || (b.src[i] == v && b.dst[i] == u))
  }

  lemma NeighbourIs(blocks: seq<Block>, v: nat, u: nat)
    ensures Neighbour(blocks, v, u) <==> Linked(blocks, u, v)
  {
    if b, i :| b in blocks && 0 <= i < |b.src| == |b.dst| && ((b.src[i] == u && b.dst[i] == v) || (b.src[i] == v && b.dst[i] == u)) {
      var k :| 0 <= k < |blocks| && blocks[k] == b;
      assert LinkedIn(blocks[k], u, v);
    }
    if k :| 0 <= k < |blocks| && LinkedIn(blocks[k], u, v) {
      assert blocks[k] in blocks;
    }
  }

  lemma EntryAt<F>(a: Transition<F>, v: nat, e: nat)
    requires Shaped(a) && v < |a.nodes| && a.indptr[v] <= e < a.indptr[v + 1]
    ensures Row(a, v)[e - a.indptr[v]] == a.indices[e] && a.indices[e] in Row(a, v)
  {
    assert Row(a, v)[e - a.indptr[v]] == a.indices[e];
  }

  /** Between v's pointers stand the nodes v is joined to, each once and ascending, and every entry is the rounded
      reciprocal of how many they are. */
  lemma MatrixIs<F>(a: Transition<F>, nodes: seq<nat>, blocks: seq<Block>, inverse: nat -> F, v: nat, joined: set<nat>)
    requires IsTransition(a, nodes, blocks, inverse) && v < |nodes| && forall u :: u in joined <==> Neighbour(blocks, v, u)
    ensures |a.indptr| == |nodes| + 1 && 0 <= a.indptr[v] <= a.indptr[v + 1] <= |a.indices| == |a.data|
    ensures a.indptr[v + 1] - a.indptr[v] == |joined| && a.degree[v] == |joined|
    ensures forall e :: a.indptr[v] <= e < a.indptr[v + 1] ==> a.indices[e] in joined && a.data[e] == inverse(|joined|)
    ensures forall e, f :: a.indptr[v] <= e < f < a.indptr[v + 1] ==> a.indices[e] < a.indices[f]
  {
    var row := Row(a, v);
    assert RowIs(a, blocks, inverse, v);
    forall u ensures u in row <==> u in joined {
      NeighbourIs(blocks, v, u);
    }
    DistinctSize(row);
    assert SetOf(row) == joined;
    forall e | a.indptr[v] <= e < a.indptr[v + 1] ensures a.indices[e] in joined {
      EntryAt(a, v, e);
    }
    forall e, f | a.indptr[v] <= e < f < a.indptr[v + 1] ensures a.indices[e] < a.indices[f] {
      EntryAt(a, v, e);
      EntryAt(a, v, f);
    }
  }
}
