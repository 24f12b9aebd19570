/** `NodeIndex`, and what `AdjacencyBuilder` does with its edge blocks before the matrix is assembled: counts,
    row pointers and the scattering of columns into rows. */
module Graph {
  import opened Basics
  import opened Scatter
  import opened SortedSets
  import Sorting

  const MAX_NODES := 0x7FFF_FFFF

  datatype Outcome<T> = Ok(value: T) | ValueError | KeyError | RuntimeError

  // ---- Node positions ----

  predicate NeighboursDiffer(xs: seq<nat>) {
    forall i :: 0 <= i < |xs| - 1 ==> xs[i] != xs[i + 1]
  }

  /** The node set in ascending key order. */
  function NodeIndex(keys: seq<nat>): Outcome<seq<nat>> {
    var ordered := Sorting.Sorted(keys, Less);
    if |ordered| > MAX_NODES || !NeighboursDiffer(ordered) then ValueError else Ok(ordered)
  }

  lemma {:induction false} DistinctIsMultiplicity(xs: seq<nat>)
    ensures Distinct(xs) <==> forall x :: multiset(xs)[x] <= 1
    decreases |xs|
  {
    if xs != [] {
      var front, last := xs[..|xs| - 1], xs[|xs| - 1];
      DistinctIsMultiplicity(front);
      assert xs == front + [last];
      assert last in front <==> multiset(front)[last] >= 1;
      assert forall x :: multiset(xs)[x] == multiset(front)[x] + (if x == last then 1 else 0);
      if Distinct(front) && last !in front {
        forall i, j | 0 <= i < j < |xs| ensures xs[i] != xs[j] {
          assert xs[i] in front;
        }
      }
      if Distinct(xs) {
        assert forall i :: 0 <= i < |front| ==> front[i] == xs[i];
        assert last !in front;
      }
      if forall x :: multiset(xs)[x] <= 1 {
        assert multiset(xs)[last] <= 1;
        forall x ensures multiset(front)[x] <= 1 {
          assert multiset(xs)[x] <= 1;
        }
      }
    }
  }

  lemma {:induction false} SortedAscending(xs: seq<nat>)
    requires forall i, j :: 0 <= i < j < |xs| ==> xs[i] <= xs[j]
    ensures NeighboursDiffer(xs) <==> Ascending(xs)
    ensures Ascending(xs) <==> Distinct(xs)
  {
    if NeighboursDiffer(xs) {
      forall i, j | 0 <= i < j < |xs| ensures xs[i] < xs[j] {
        assert xs[i] != xs[i + 1];
      }
    }
  }

  /** A node set is accepted exactly when it fits and names no key twice; it is then held in ascending order. */
  lemma NodeIndexIs(keys: seq<nat>)
    ensures NodeIndex(keys).Ok? <==> |keys| <= MAX_NODES && Distinct(keys)
    ensures NodeIndex(keys).Ok? ==>
      Ascending(NodeIndex(keys).value) && forall k :: k in NodeIndex(keys).value <==> k in keys
  {
    var ordered := Sorting.Sorted(keys, Less);
    Sorting.SortedSorts(keys, Less);
    SortedAscending(ordered);
    DistinctIsMultiplicity(keys);
    DistinctIsMultiplicity(ordered);
    assert forall k :: k in keys <==> k in multiset(keys);
    assert forall k :: k in ordered <==> k in multiset(ordered);
  }

  /** `searchsorted` from the left. */
  function SearchSorted(nodes: seq<nat>, key: nat): (r: nat)
    ensures r <= |nodes|
  {
    if nodes == [] then 0
    else if nodes[|nodes| - 1] < key then |nodes|
    else SearchSorted(nodes[..|nodes| - 1], key)
  }

  predicate Found(nodes: seq<nat>, key: nat) {
    var at := SearchSorted(nodes, key);
    at < |nodes| && nodes[at] == key
  }

  function Positions(nodes: seq<nat>, wanted: seq<nat>): Outcome<seq<nat>> {
    if exists i :: 0 <= i < |wanted| && !Found(nodes, wanted[i]) then KeyError
    else Ok(seq(|wanted|, i requires 0 <= i < |wanted| => SearchSorted(nodes, wanted[i])))
  }

  lemma {:induction false} AllBelow(xs: seq<nat>, key: nat)
    requires forall i :: 0 <= i < |xs| ==> xs[i] < key
    ensures SearchSorted(xs, key) == |xs|
  {
  }

  lemma {:induction false} SearchFinds(nodes: seq<nat>, key: nat)
    requires Ascending(nodes)
    ensures Found(nodes, key) <==> key in nodes
    ensures forall i :: 0 <= i < |nodes| && nodes[i] == key ==> SearchSorted(nodes, key) == i
    decreases |nodes|
  {
    if nodes != [] {
      var front, last := nodes[..|nodes| - 1], nodes[|nodes| - 1];
      assert nodes == front + [last];
      if last >= key {
        SearchFinds(front, key);
        if key == last {
          AllBelow(front, key);
        }
      }
    }
  }

  /** Positions are found exactly when every key is a node, and they are where the keys stand. */
  lemma PositionsAre(nodes: seq<nat>, wanted: seq<nat>)
    requires Ascending(nodes)
    ensures Positions(nodes, wanted).Ok? <==> forall i :: 0 <= i < |wanted| ==> wanted[i] in nodes
    ensures Positions(nodes, wanted).Ok? || Positions(nodes, wanted).KeyError?
    ensures var r := Positions(nodes, wanted);
      r.Ok? ==> |r.value| == |wanted| && forall i :: 0 <= i < |wanted| ==> r.value[i] < |nodes| && nodes[r.value[i]] == wanted[i]
  {
    forall i | 0 <= i < |wanted| ensures Found(nodes, wanted[i]) <==> wanted[i] in nodes {
      SearchFinds(nodes, wanted[i]);
    }
  }

  // ---- Edge blocks ----

  datatype Block = Block(src: seq<nat>, dst: seq<nat>)

  predicate BlockValid(b: Block, n: nat) {
    |b.src| == |b.dst| && Sorting.Below(b.src, n) && Sorting.Below(b.dst, n) && forall i :: 0 <= i < |b.src| ==> b.src[i] != b.dst[i]
  }

  predicate AllValid(blocks: seq<Block>, n: nat) {
    forall k :: 0 <= k < |blocks| ==> BlockValid(blocks[k], n)
  }

  predicate Pair(src: seq<nat>, dst: seq<nat>, u: nat, v: nat)
    requires |src| == |dst|
  {
    exists i :: 0 <= i < |src| && src[i] == u && dst[i] == v
  }

  predicate LinkedIn(b: Block, u: nat, v: nat) {
    |b.src| == |b.dst| && (Pair(b.src, b.dst, u, v) || Pair(b.src, b.dst, v, u))
  }

  /** Some block holds the edge, in this or the other direction. */
  predicate Linked(blocks: seq<Block>, u: nat, v: nat) {
    exists k :: 0 <= k < |blocks| && LinkedIn(blocks[k], u, v)
  }

  /** The edges of a block that join two different nodes. */
  function LoopFree(src: seq<nat>, dst: seq<nat>): (b: Block)
    requires |src| == |dst|
    ensures |b.src| == |b.dst|
  {
    if src == [] then Block([], [])
    else
      var front := LoopFree(src[..|src| - 1], dst[..|src| - 1]);
      var u, v := src[|src| - 1], dst[|src| - 1];
      if u == v then front else Block(front.src + [u], front.dst + [v])
  }

  lemma {:induction false} LoopFreeKeeps(src: seq<nat>, dst: seq<nat>, n: nat)
    requires |src| == |dst| && Sorting.Below(src, n) && Sorting.Below(dst, n)
    ensures BlockValid(LoopFree(src, dst), n)
    decreases |src|
  {
    if src != [] {
      LoopFreeKeeps(src[..|src| - 1], dst[..|src| - 1], n);
    }
  }

  lemma PairLast(src: seq<nat>, dst: seq<nat>, x: nat, y: nat, u: nat, v: nat)
    requires |src| == |dst|
    ensures Pair(src + [x], dst + [y], u, v) <==> Pair(src, dst, u, v) || (x == u && y == v)
  {
    var s, d := src + [x], dst + [y];
    if Pair(src, dst, u, v) {
      var i :| 0 <= i < |src| && src[i] == u && dst[i] == v;
      assert s[i] == u && d[i] == v;
    }
    if x == u && y == v {
      assert s[|src|] == u && d[|src|] == v;
    }
  }

  lemma {:induction false} LoopFreePairs(src: seq<nat>, dst: seq<nat>, u: nat, v: nat)
    requires |src| == |dst|
    ensures Pair(LoopFree(src, dst).src, LoopFree(src, dst).dst, u, v) <==> u != v && Pair(src, dst, u, v)
    decreases |src|
  {
    if src != [] {
      var last := |src| - 1;
      LoopFreePairs(src[..last], dst[..last], u, v);
      var front := LoopFree(src[..last], dst[..last]);
      PairLast(src[..last], dst[..last], src[last], dst[last], u, v);
      assert src == src[..last] + [src[last]] && dst == dst[..last] + [dst[last]];
      PairLast(front.src, front.dst, src[last], dst[last], u, v);
    }
  }

  // ---- Row contents while scattering ----

  /** The columns scattered into row `v` by these blocks, the last block first, as they are popped. */
  function Scattered(blocks: seq<Block>, n: nat, v: nat): seq<nat>
    requires AllValid(blocks, n)
  {
    if blocks == [] then []
    else
      var b := blocks[0];
      Scattered(blocks[1..], n, v) + Cols(b.src, b.dst, v, |b.src|) + Cols(b.dst, b.src, v, |b.src|)
  }

  lemma {:induction false} InCols(src: seq<nat>, dst: seq<nat>, v: nat, u: nat, t: nat)
    requires t <= |src| == |dst|
    ensures u in Cols(src, dst, v, t) <==> exists i :: 0 <= i < t && src[i] == v && dst[i] == u
  {
    if t > 0 {
      InCols(src, dst, v, u, t - 1);
    }
  }

  lemma LinkedFirst(blocks: seq<Block>, u: nat, v: nat)
    requires blocks != []
    ensures Linked(blocks, u, v) <==> LinkedIn(blocks[0], u, v) || Linked(blocks[1..], u, v)
  {
    if Linked(blocks[1..], u, v) {
      var k :| 0 <= k < |blocks| - 1 && LinkedIn(blocks[1..][k], u, v);
      assert LinkedIn(blocks[k + 1], u, v);
    }
    if Linked(blocks, u, v) && !LinkedIn(blocks[0], u, v) {
      var k :| 0 <= k < |blocks| && LinkedIn(blocks[k], u, v);
      assert LinkedIn(blocks[1..][k - 1], u, v);
    }
  }

  /** What is scattered into row `v`: exactly the other ends of its edges. */
  lemma {:induction false} ScatteredAre(blocks: seq<Block>, n: nat, v: nat, u: nat)
    requires AllValid(blocks, n)
    ensures u in Scattered(blocks, n, v) <==> Linked(blocks, u, v)
    decreases |blocks|
  {
    if blocks != [] {
      var b, rest := blocks[0], blocks[1..];
      ScatteredAre(rest, n, v, u);
      InCols(b.src, b.dst, v, u, |b.src|);
      InCols(b.dst, b.src, v, u, |b.src|);
      LinkedFirst(blocks, u, v);
    }
  }

  /** `bincount` added into the counts. */
  method AddCounts(rows: seq<nat>, counts: array<nat>)
    requires Sorting.Below(rows, counts.Length)
    modifies counts
    ensures forall v :: 0 <= v < counts.Length ==> counts[v] == old(counts[v]) + Count(rows, v, |rows|)
  {
    for t := 0 to |rows|
      invariant forall v :: 0 <= v < counts.Length ==> counts[v] == old(counts[v]) + Count(rows, v, t)
    {
      counts[rows[t]] := counts[rows[t]] + 1;
    }
  }

  lemma {:induction false} SizeWithLast(blocks: seq<Block>, n: nat, v: nat)
    requires AllValid(blocks, n) && blocks != []
    ensures var front, b := blocks[..|blocks| - 1], blocks[|blocks| - 1];
      |Scattered(blocks, n, v)| == |Scattered(front, n, v)| + Count(b.src, v, |b.src|) + Count(b.dst, v, |b.src|)
    decreases |blocks|
  {
    if |blocks| > 1 {
      SizeWithLast(blocks[1..], n, v);
      assert blocks[1..][..|blocks| - 2] == blocks[..|blocks| - 1][1..];
    }
  }

  /** The entry counts of every row. */
  method CountEntries(blocks: seq<Block>, n: nat) returns (counts: array<nat>)
    requires AllValid(blocks, n)
    ensures fresh(counts) && counts.Length == n
    ensures forall v :: 0 <= v < n ==> counts[v] == |Scattered(blocks, n, v)|
  {
    counts := new nat[n](_ => 0);
    for k := 0 to |blocks|
      invariant forall v :: 0 <= v < n ==> counts[v] == |Scattered(blocks[..k], n, v)|
    {
      AddCounts(blocks[k].src, counts);
      AddCounts(blocks[k].dst, counts);
      assert blocks[..k + 1][..k] == blocks[..k];
      var b := blocks[k];
      forall v | 0 <= v < n
        ensures |Scattered(blocks[..k + 1], n, v)| == |Scattered(blocks[..k], n, v)| + Count(b.src, v, |b.src|) + Count(b.dst, v, |b.src|) {
        SizeWithLast(blocks[..k + 1], n, v);
      }
    }
    assert blocks[..|blocks|] == blocks;
  }

  /** Row pointers that start at zero and never fall. */
  predicate Pointers(indptr: seq<nat>, n: nat, size: nat) {
    && |indptr| == n + 1 && indptr[0] == 0 && indptr[n] == size
    && forall v, w :: 0 <= v <= w <= n ==> indptr[v] <= indptr[w]
  }

  /** `cumsum`. */
  method RunningPointers(counts: array<nat>) returns (indptr: seq<nat>)
    ensures |indptr| == counts.Length + 1 && Pointers(indptr, counts.Length, indptr[counts.Length])
    ensures forall v :: 0 <= v < counts.Length ==> indptr[v + 1] == indptr[v] + counts[v]
  {
    indptr := [0];
    for v := 0 to counts.Length
      invariant |indptr| == v + 1 && indptr[0] == 0
      invariant forall w :: 0 <= w < v ==> indptr[w + 1] == indptr[w] + counts[w]
      invariant forall w, x :: 0 <= w <= x <= v ==> indptr[w] <= indptr[x]
    {
      indptr := indptr + [indptr[v] + counts[v]];
    }
  }

  lemma PointersRoom(rows: seq<nat>, indptr: seq<nat>, cursor: seq<nat>, size: nat)
    requires Pointers(indptr, |cursor|, size) && Sorting.Below(rows, |cursor|)
    requires forall v :: 0 <= v < |cursor| ==> indptr[v] <= cursor[v] && cursor[v] + Count(rows, v, |rows|) <= indptr[v + 1]
    ensures Room(rows, cursor, size)
  {
    forall v, w | 0 <= v < w < |cursor| ensures cursor[v] + Count(rows, v, |rows|) <= cursor[w] {
      assert indptr[v + 1] <= indptr[w];
    }
    forall v | 0 <= v < |cursor| ensures cursor[v] + Count(rows, v, |rows|) <= size {
      assert indptr[v + 1] <= indptr[|cursor|];
    }
  }

  lemma FilledOutside(rows: seq<nat>, indptr: seq<nat>, cursor: seq<nat>, size: nat, v: nat, s: nat)
    requires Pointers(indptr, |cursor|, size) && Sorting.Below(rows, |cursor|) && v < |cursor|
    requires forall w :: 0 <= w < |cursor| ==> indptr[w] <= cursor[w] && cursor[w] + Count(rows, w, |rows|) <= indptr[w + 1]
    requires indptr[v] <= s < cursor[v]
    ensures !InWindow(rows, cursor, s)
  {
    forall w | 0 <= w < |cursor| ensures !(cursor[w] <= s < cursor[w] + Count(rows, w, |rows|)) {
      if w < v {
        assert indptr[w + 1] <= indptr[v];
      } else if w > v {
        assert indptr[v + 1] <= indptr[w];
      }
    }
  }

  lemma JoinedUp(was: seq<nat>, now: seq<nat>, lo: nat, mid: nat, more: seq<nat>)
    requires lo <= mid && mid + |more| <= |now| == |was|
    requires (forall s :: lo <= s < mid ==> now[s] == was[s]) && forall i :: 0 <= i < |more| ==> now[mid + i] == more[i]
    ensures now[lo..mid + |more|] == was[lo..mid] + more
  {
  }

  /** What was filled before stays. */
  lemma FilledKept(rows: seq<nat>, indptr: seq<nat>, at: seq<nat>, was: seq<nat>, now: seq<nat>, v: nat)
    requires Pointers(indptr, |at|, |was|) && Sorting.Below(rows, |at|) && v < |at| && |now| == |was|
    requires forall w :: 0 <= w < |at| ==> indptr[w] <= at[w] && at[w] + Count(rows, w, |rows|) <= indptr[w + 1]
    requires forall s :: 0 <= s < |now| && !InWindow(rows, at, s) ==> now[s] == was[s]
    ensures at[v] + Count(rows, v, |rows|) <= |was| && forall s :: indptr[v] <= s < at[v] ==> now[s] == was[s]
  {
    assert indptr[v + 1] <= indptr[|at|];
    forall s | indptr[v] <= s < at[v] ensures now[s] == was[s] {
      FilledOutside(rows, indptr, at, |was|, v, s);
    }
  }

  /** One directed half of a block: every row's filled part grows by the row's columns. */
  method Fill(rows: seq<nat>, cols: seq<nat>, indptr: seq<nat>, cursor: array<nat>, indices: array<nat>)
    requires |rows| == |cols| && cursor != indices && Pointers(indptr, cursor.Length, indices.Length)
    requires Sorting.Below(rows, cursor.Length)
    requires forall v :: 0 <= v < cursor.Length ==> indptr[v] <= cursor[v] && cursor[v] + Count(rows, v, |rows|) <= indptr[v + 1]
    modifies cursor, indices
    ensures forall v :: 0 <= v < cursor.Length ==> cursor[v] == old(cursor[v]) + Count(rows, v, |rows|)
    ensures forall v :: 0 <= v < cursor.Length ==>
      indptr[v] <= old(cursor[v]) <= cursor[v] <= indices.Length
      && indices[indptr[v]..cursor[v]] == old(indices[indptr[v]..cursor[v]]) + Cols(rows, cols, v, |rows|)
  {
    ghost var at, was := cursor[..], indices[..];
    PointersRoom(rows, indptr, at, indices.Length);
    ScatterBlock(rows, cols, cursor, indices);
    forall v | 0 <= v < cursor.Length
      ensures at[v] + Count(rows, v, |rows|) <= |was|
      ensures indices[..][indptr[v]..at[v] + Count(rows, v, |rows|)] == was[indptr[v]..at[v]] + Cols(rows, cols, v, |rows|) {
      FilledKept(rows, indptr, at, was, indices[..], v);
      JoinedUp(was, indices[..], indptr[v], at[v], Cols(rows, cols, v, |rows|));
    }
  }
}
