/** `scripts/independent_exact_top_k.py`: the streaming comparator, which reaches the same lists as
    `exact_top_k` by another road: per query, chunk after chunk, the best of the best so far and the chunk's best. */
module IndependentTopK {
  import opened Basics
  import opened Ranking
  import opened TopKMerge
  import opened TopKSelect
  import opened ExactTopK
  import Sorting

  function ScoresOf(es: seq<Entry>): seq<Score> {
    seq(|es|, i requires 0 <= i < |es| => es[i].score)
  }

  /** `np.flatnonzero(scores > boundary)`, taken. */
  function StrictlyAbove(es: seq<Entry>, boundary: Score): seq<Entry> {
    if es == [] then []
    else StrictlyAbove(es[..|es| - 1], boundary) + (if es[|es| - 1].score > boundary then [es[|es| - 1]] else [])
  }

  /** `np.flatnonzero(scores == boundary)`, taken. */
  function Tied(es: seq<Entry>, boundary: Score): seq<Entry> {
    if es == [] then []
    else Tied(es[..|es| - 1], boundary) + (if es[|es| - 1].score == boundary then [es[|es| - 1]] else [])
  }

  lemma {:induction false} FilterMembers(es: seq<Entry>, t: Score)
    ensures forall e :: e in StrictlyAbove(es, t) <==> e in es && e.score > t
    ensures forall e :: e in Tied(es, t) <==> e in es && e.score == t
    decreases |es|
  {
    if es != [] {
      FilterMembers(es[..|es| - 1], t);
      assert es == es[..|es| - 1] + [es[|es| - 1]];
    }
  }

  predicate PositionBefore(a: Entry, b: Entry) { a.pos < b.pos }

  function Count(k: nat, n: nat): nat { if k < n then k else n }

  ghost function AtLeast(row: seq<Score>, t: Score): set<nat> {
    set c: nat | c < |row| && row[c] >= t
  }

  /** Fewer than `cut` scores beat the cut-th largest, and at least `cut` reach it. */
  lemma CutCounts(row: seq<Score>, cut: nat)
    requires 1 <= cut <= |row|
    ensures |Above(row, KthLargest(row, cut))| < cut <= |AtLeast(row, KthLargest(row, cut))|
  {
    var less := (a: Score, b: Score) => a < b;
    Sorting.ArgsortSorts(row, less);
    var order := Sorting.Argsort(row, less);
    var at := |row| - cut;
    assert KthLargest(row, cut) == row[order[at]];
    KthLargestCuts(row, cut, order[at]);
    forall i, j | 0 <= i < j < |order| ensures row[order[i]] <= row[order[j]] && order[i] != order[j] {
      assert Sorting.Earlier(row, less, order[i], order[j]);
    }
    TailSize(order, at);
    SubsetSize(set i | at <= i < |order| :: order[i], AtLeast(row, row[order[at]]));
  }

  ghost function At(row: seq<Score>, t: Score): set<nat> {
    set c: nat | c < |row| && row[c] == t
  }

  lemma {:induction false} AboveCount(es: seq<Entry>, t: Score)
    ensures |StrictlyAbove(es, t)| == |Above(ScoresOf(es), t)|
    decreases |es|
  {
    var row := ScoresOf(es);
    if es == [] {
      assert Above(row, t) == {};
    } else {
      var last := |es| - 1;
      AboveCount(es[..last], t);
      assert ScoresOf(es[..last]) == row[..last];
      assert Above(row, t) == Above(row[..last], t) + if row[last] > t then {last} else {};
    }
  }

  lemma {:induction false} TiedCount(es: seq<Entry>, t: Score)
    ensures |Tied(es, t)| == |At(ScoresOf(es), t)|
    decreases |es|
  {
    var row := ScoresOf(es);
    if es == [] {
      assert At(row, t) == {};
    } else {
      var last := |es| - 1;
      TiedCount(es[..last], t);
      assert ScoresOf(es[..last]) == row[..last];
      assert At(row, t) == At(row[..last], t) + if row[last] == t then {last} else {};
    }
  }

  lemma PositionBeforeIsWeakOrder()
    ensures Sorting.WeakOrder(PositionBefore)
  {
  }

  lemma CutFits(es: seq<Entry>, count: nat)
    requires 1 <= count <= |es|
    ensures var boundary := KthLargest(ScoresOf(es), count);
      |StrictlyAbove(es, boundary)| <= count <= |StrictlyAbove(es, boundary)| + |Sorting.Sorted(Tied(es, boundary), PositionBefore)|
  {
    var boundary := KthLargest(ScoresOf(es), count);
    CutCounts(ScoresOf(es), count);
    AboveCount(es, boundary);
    TiedCount(es, boundary);
    assert AtLeast(ScoresOf(es), boundary) == Above(ScoresOf(es), boundary) + At(ScoresOf(es), boundary);
    PositionBeforeIsWeakOrder();
    Sorting.SortedSorts(Tied(es, boundary), PositionBefore);
  }

  /** `_select`: everything above the count-th largest score, then the ties at it by position, in rank order. */
  function Select(es: seq<Entry>, k: nat): (r: seq<Entry>)
    requires es != [] && k >= 1
    ensures |r| == Count(k, |es|)
  {
    var count := Count(k, |es|);
    var boundary := KthLargest(ScoresOf(es), count);
    var above := StrictlyAbove(es, boundary);
    var tied := Sorting.Sorted(Tied(es, boundary), PositionBefore);
    CutFits(es, count);
    Sorting.Sorted(above + tied[..count - |above|], Before)
  }

  // ---- The cut ----

  lemma BeforeIsWeakOrder()
    ensures Sorting.WeakOrder(Before)
  {
  }

  // ---- Selection selects the best k ----

  lemma ProperSubsetSize(a: set<Entry>, b: set<Entry>, e: Entry)
    requires a <= b && e in b && e !in a
    ensures |a| < |b|
  {
    SubsetSize(a + {e}, b);
  }

  /** A part of `s` of the right size, all of it before the rest, is the best k. */
  lemma CutIsTop(s: set<Entry>, part: set<Entry>, k: nat)
    requires part <= s && |part| == Count(k, |s|)
    requires forall x, y :: x in part && y in s - part ==> Before(x, y)
    ensures part == TopSet(s, k)
  {
    forall e | e in s ensures e in part <==> e in TopSet(s, k) {
      if e in part {
        forall a | a in Ahead(s, e) ensures a in part - {e} {
          assert a !in part ==> Before(e, a);
        }
        SubsetSize(Ahead(s, e), part - {e});
      } else {
        SubsetSize(part, Ahead(s, e));
        if |part| == |s| {
          ProperSubsetSize(part, s, e);
        }
      }
    }
  }

  lemma {:induction false} FilterDistinct(es: seq<Entry>, t: Score)
    requires Distinct(es)
    ensures Distinct(StrictlyAbove(es, t)) && Distinct(Tied(es, t))
    decreases |es|
  {
    if es != [] {
      var front, last := es[..|es| - 1], es[|es| - 1];
      FilterDistinct(front, t);
      FilterMembers(front, t);
      assert last !in front;
    }
  }

  lemma SameMembers(a: seq<Entry>, b: seq<Entry>)
    requires multiset(a) == multiset(b)
    ensures forall e :: e in a <==> e in b
  {
    forall e ensures e in a <==> e in b {
      assert e in a <==> e in multiset(a);
      assert e in b <==> e in multiset(b);
    }
  }

  lemma MultisetDistinct(es: seq<Entry>, l: seq<Entry>)
    requires Distinct(es) && multiset(l) == multiset(es)
    ensures Distinct(l)
  {
    forall i, j | 0 <= i < j < |l| ensures l[i] != l[j] {
      if l[i] == l[j] {
        TwiceCounts(l, i, j);
        OnceOnly(es, l[i]);
      }
    }
  }

  /** A permutation of distinct entries is distinct, and the rank order of distinct entries is their ranking. */
  lemma SortedRanks(es: seq<Entry>)
    requires Distinct(es)
    ensures Ranks(Sorting.Sorted(es, Before), SetOf(es))
  {
    BeforeIsWeakOrder();
    Sorting.SortedSorts(es, Before);
    var l := Sorting.Sorted(es, Before);
    SameMembers(l, es);
    MultisetDistinct(es, l);
    forall i, j | 0 <= i < j < |l| ensures Before(l[i], l[j]) {
      assert !Before(l[j], l[i]);
    }
  }

  lemma TieBefore(es: seq<Entry>, tied: seq<Entry>, m: nat, x: Entry, y: Entry)
    requires m <= |tied| && x in tied[..m] && y in tied && y !in tied[..m]
    requires forall e :: e in tied ==> e in es
    requires forall i, j :: 0 <= i < j < |es| ==> es[i].pos != es[j].pos
    requires forall i, j :: 0 <= i < j < |tied| ==> !PositionBefore(tied[j], tied[i])
    ensures x.pos < y.pos
  {
    var i :| 0 <= i < m && tied[i] == x;
    var j :| 0 <= j < |tied| && tied[j] == y;
    assert forall a :: 0 <= a < m ==> tied[a] == tied[..m][a] && tied[a] in tied[..m];
    assert x in es && y in es;
    var a :| 0 <= a < |es| && es[a] == x;
    var b :| 0 <= b < |es| && es[b] == y;
  }

  /** Everything above the boundary and the first m ties by position: all of it comes before the rest. */
  lemma ChosenCut(es: seq<Entry>, boundary: Score, above: seq<Entry>, tied: seq<Entry>, m: nat)
    requires Distinct(above) && Distinct(tied) && m <= |tied|
    requires forall i, j :: 0 <= i < j < |es| ==> es[i].pos != es[j].pos
    requires forall e :: e in above <==> e in es && e.score > boundary
    requires forall e :: e in tied <==> e in es && e.score == boundary
    requires forall i, j :: 0 <= i < j < |tied| ==> !PositionBefore(tied[j], tied[i])
    ensures Distinct(above + tied[..m]) && SetOf(above + tied[..m]) <= SetOf(es)
    ensures forall x, y :: x in SetOf(above + tied[..m]) && y in SetOf(es) - SetOf(above + tied[..m]) ==> Before(x, y)
  {
    var first := tied[..m];
    var chosen := above + first;
    assert forall e :: e in chosen <==> e in above || e in first;
    assert forall i :: 0 <= i < m ==> first[i] == tied[i] && first[i] in tied;
    forall i, j | 0 <= i < j < |chosen| ensures chosen[i] != chosen[j] {
      if i < |above| <= j {
        assert chosen[i] in above && chosen[j] in tied;
      }
    }
    forall x, y | x in chosen && y in es && y !in chosen ensures Before(x, y) {
      if y.score == boundary && x in first {
        TieBefore(es, tied, m, x, y);
      }
    }
  }

  /** `_select` returns the ranking of the best k. */
  lemma SelectRanksTop(es: seq<Entry>, k: nat)
    requires es != [] && k >= 1 && Distinct(es)
    requires forall i, j :: 0 <= i < j < |es| ==> es[i].pos != es[j].pos
    ensures Ranks(Select(es, k), TopSet(SetOf(es), k))
  {
    var count := Count(k, |es|);
    var boundary := KthLargest(ScoresOf(es), count);
    CutFits(es, count);
    FilterDistinct(es, boundary);
    FilterMembers(es, boundary);
    PositionBeforeIsWeakOrder();
    Sorting.SortedSorts(Tied(es, boundary), PositionBefore);
    var above, tied := StrictlyAbove(es, boundary), Sorting.Sorted(Tied(es, boundary), PositionBefore);
    MultisetDistinct(Tied(es, boundary), tied);
    SameMembers(tied, Tied(es, boundary));
    var chosen := above + tied[..count - |above|];
    ChosenCut(es, boundary, above, tied, count - |above|);
    DistinctSize(chosen);
    DistinctSize(es);
    CutIsTop(SetOf(es), SetOf(chosen), k);
    SortedRanks(chosen);
  }

  // ---- The streaming method ----

  predicate From(start: nat, c: nat) {
    start <= c
  }

  ghost function Range(start: nat, stop: nat): set<nat> {
    set c: nat | c < stop && From(start, c)
  }

  /** Query `own`'s candidates at positions from `start` to `stop`, itself left out. */
  ghost function Between(p: Problem, own: nat, start: nat, stop: nat): set<Entry> {
    set c | c in Range(start, stop) && c != own :: Entry(p.score(own, c), c)
  }

  /** `similarities[row, keep]` with the positions kept. */
  function Chunk(p: Problem, own: nat, start: nat, stop: nat): seq<Entry>
    decreases stop - start
  {
    if start >= stop then []
    else (if start == own then [] else [Entry(p.score(own, start), start)]) + Chunk(p, own, start + 1, stop)
  }

  lemma {:induction false} ChunkHolds(p: Problem, own: nat, start: nat, stop: nat)
    ensures SetOf(Chunk(p, own, start, stop)) == Between(p, own, start, stop)
    ensures forall i :: 0 <= i < |Chunk(p, own, start, stop)| ==> start <= Chunk(p, own, start, stop)[i].pos < stop
    ensures forall i, j :: 0 <= i < j < |Chunk(p, own, start, stop)| ==> Chunk(p, own, start, stop)[i].pos < Chunk(p, own, start, stop)[j].pos
    decreases stop - start
  {
    if start < stop {
      ChunkHolds(p, own, start + 1, stop);
      var here := if start == own then [] else [Entry(p.score(own, start), start)];
      var rest := Chunk(p, own, start + 1, stop);
      assert SetOf(here + rest) == SetOf(here) + SetOf(rest);
      assert Range(start, stop) == {start} + Range(start + 1, stop);
      assert Between(p, own, start, stop) == SetOf(here) + Between(p, own, start + 1, stop);
    }
  }

  lemma BetweenJoins(p: Problem, own: nat, mid: nat, stop: nat)
    requires mid <= stop
    ensures Between(p, own, 0, stop) == Between(p, own, 0, mid) + Between(p, own, mid, stop)
  {
    assert Range(0, stop) == Range(0, mid) + Range(mid, stop);
  }

  /** One chunk for one query: the running best k and the chunk's, selected again. */
  function Fold(p: Problem, own: nat, k: nat, running: seq<Entry>, start: nat, stop: nat): seq<Entry>
    requires k >= 1
  {
    var chunk := Chunk(p, own, start, stop);
    if chunk == [] then running else Select(running + Select(chunk, k), k)
  }

  lemma SetOfBoth(a: seq<Entry>, s: set<Entry>, b: seq<Entry>, t: set<Entry>)
    requires Ranks(a, s) && Ranks(b, t)
    ensures SetOf(a + b) == s + t
  {
  }

  lemma TopOfTops(s: set<Entry>, t: set<Entry>, k: nat)
    ensures TopSet(TopSet(s, k) + TopSet(t, k), k) == TopSet(s + t, k)
  {
    MergeLaw(s, TopSet(t, k), k);
    MergeLaw(t, s, k);
    assert s + TopSet(t, k) == TopSet(t, k) + s;
    assert s + t == t + s;
  }

  lemma BothDistinct(p: Problem, own: nat, k: nat, running: seq<Entry>, local: seq<Entry>, start: nat, stop: nat)
    requires Ranks(running, TopSet(Between(p, own, 0, start), k)) && Ranks(local, TopSet(Between(p, own, start, stop), k))
    ensures Distinct(running + local)
    ensures forall i, j :: 0 <= i < j < |running + local| ==> (running + local)[i].pos != (running + local)[j].pos
  {
    var both := running + local;
    forall i, j | 0 <= i < j < |both| ensures both[i].pos != both[j].pos && both[i] != both[j] {
      assert both[i] in running || both[i] in local;
      assert both[j] in running || both[j] in local;
      if j < |running| {
        assert Before(running[i], running[j]) && running[i] in running && running[j] in running;
      } else if |running| <= i {
        assert Before(local[i - |running|], local[j - |running|]);
        assert local[i - |running|] in local && local[j - |running|] in local;
      } else {
        assert running[i] in running && local[j - |running|] in local;
      }
    }
  }

  /** The top k of a merge of chunk top-ks is the top k of the whole. */
  lemma FoldRanksTop(p: Problem, own: nat, k: nat, running: seq<Entry>, start: nat, stop: nat)
    requires k >= 1 && start <= stop
    requires Ranks(running, TopSet(Between(p, own, 0, start), k))
    ensures Ranks(Fold(p, own, k, running, start, stop), TopSet(Between(p, own, 0, stop), k))
  {
    ChunkHolds(p, own, start, stop);
    BetweenJoins(p, own, start, stop);
    var chunk, earlier, coming := Chunk(p, own, start, stop), Between(p, own, 0, start), Between(p, own, start, stop);
    if chunk == [] {
      assert coming == {};
      assert earlier + coming == earlier;
    } else {
      SelectRanksTop(chunk, k);
      var both := running + Select(chunk, k);
      BothDistinct(p, own, k, running, Select(chunk, k), start, stop);
      SelectRanksTop(both, k);
      SetOfBoth(running, TopSet(earlier, k), Select(chunk, k), TopSet(coming, k));
      TopOfTops(earlier, coming, k);
    }
  }

  datatype Outcome = Rankings(rows: seq<seq<Entry>>) | InvalidArguments | QueryOutsideCatalog

  predicate ArgumentsValid(p: Problem, k: int, queryRows: int, candidateRows: int) {
    1 <= k < p.n && queryRows >= 1 && candidateRows >= 1
  }

  predicate QueriesInside(p: Problem, queries: seq<int>) {
    forall i :: 0 <= i < |queries| ==> 0 <= queries[i] < p.n
  }

  method FoldBatch(p: Problem, current: seq<nat>, k: nat, candidateRows: nat) returns (lists: seq<seq<Entry>>)
    requires k >= 1 && candidateRows >= 1
    ensures |lists| == |current|
    ensures forall i :: 0 <= i < |current| ==> Ranks(lists[i], TopSet(Between(p, current[i], 0, p.n), k))
  {
    lists := seq(|current|, _ => []);
    var start := 0;
    forall i | 0 <= i < |current| ensures Ranks(lists[i], TopSet(Between(p, current[i], 0, 0), k)) {
      assert Range(0, 0) == {};
      assert TopSet(Between(p, current[i], 0, 0), k) == {};
    }
    while start < p.n
      invariant start <= p.n && |lists| == |current|
      invariant forall i :: 0 <= i < |current| ==> Ranks(lists[i], TopSet(Between(p, current[i], 0, start), k))
    {
      var stop := if start + candidateRows < p.n then start + candidateRows else p.n;
      var row := 0;
      while row < |current|
        invariant row <= |current| == |lists|
        invariant forall i :: 0 <= i < row ==> Ranks(lists[i], TopSet(Between(p, current[i], 0, stop), k))
        invariant forall i :: row <= i < |current| ==> Ranks(lists[i], TopSet(Between(p, current[i], 0, start), k))
      {
        FoldRanksTop(p, current[row], k, lists[row], start, stop);
        lists := lists[row := Fold(p, current[row], k, lists[row], start, stop)];
        row := row + 1;
      }
      start := stop;
    }
  }

  lemma WholeRow(p: Problem, own: nat, k: nat, l: seq<Entry>)
    requires own < p.n && k < p.n && Ranks(l, TopSet(Between(p, own, 0, p.n), k))
    ensures |l| == k && Ranks(l, TopSet(Others(p, own), k))
  {
    assert Between(p, own, 0, p.n) == Others(p, own) by {
      forall c: nat | c < p.n ensures c in Range(0, p.n) {}
    }
    OthersSize(p, own, p.n);
    TopSize(Others(p, own), k);
    RankingSize(l, TopSet(Others(p, own), k));
  }

  /** Row i ranks the k best candidates of query i. */
  ghost predicate Ranked(p: Problem, queries: seq<nat>, k: nat, rows: seq<seq<Entry>>) {
    |rows| == |queries| && forall i :: 0 <= i < |rows| ==> |rows[i]| == k && Ranks(rows[i], TopSet(Others(p, queries[i]), k))
  }

  lemma RankedBoth(p: Problem, queries: seq<nat>, k: nat, rows: seq<seq<Entry>>, more: seq<nat>, lists: seq<seq<Entry>>)
    requires Ranked(p, queries, k, rows) && Ranked(p, more, k, lists)
    ensures Ranked(p, queries + more, k, rows + lists)
  {
  }

  /** One batch of queries. */
  method RankBatch(p: Problem, current: seq<nat>, k: nat, candidateRows: nat) returns (lists: seq<seq<Entry>>)
    requires 1 <= k < p.n && candidateRows >= 1 && forall i :: 0 <= i < |current| ==> current[i] < p.n
    ensures Ranked(p, current, k, lists)
  {
    lists := FoldBatch(p, current, k, candidateRows);
    forall i | 0 <= i < |lists| ensures |lists[i]| == k && Ranks(lists[i], TopSet(Others(p, current[i]), k)) {
      WholeRow(p, current[i], k, lists[i]);
    }
  }

  /** All batches. */
  method RankAll(p: Problem, queries: seq<nat>, k: nat, queryRows: nat, candidateRows: nat) returns (rows: seq<seq<Entry>>)
    requires 1 <= k < p.n && queryRows >= 1 && candidateRows >= 1 && forall i :: 0 <= i < |queries| ==> queries[i] < p.n
    ensures Ranked(p, queries, k, rows)
  {
    rows := [];
    var lo := 0;
    while lo < |queries|
      invariant lo <= |queries| && Ranked(p, queries[..lo], k, rows)
    {
      var hi := if lo + queryRows < |queries| then lo + queryRows else |queries|;
      var current := queries[lo..hi];
      var lists := RankBatch(p, current, k, candidateRows);
      RankedBoth(p, queries[..lo], k, rows, current, lists);
      assert queries[..hi] == queries[..lo] + current;
      rows, lo := rows + lists, hi;
    }
    assert queries[..|queries|] == queries;
  }

  /** `independent_top_k`: for every batch and chunk size, each query's row is the ranking of its k best candidates,
      all k of them. */
  method IndependentTopK(p: Problem, queries: seq<int>, k: int, queryRows: int, candidateRows: int) returns (out: Outcome)
    ensures out.InvalidArguments? <==> !ArgumentsValid(p, k, queryRows, candidateRows)
    ensures out.QueryOutsideCatalog? <==> ArgumentsValid(p, k, queryRows, candidateRows) && !QueriesInside(p, queries)
    ensures out.Rankings? ==> |out.rows| == |queries| && forall i :: 0 <= i < |queries| ==>
      |out.rows[i]| == k && Ranks(out.rows[i], TopSet(Others(p, queries[i]), k))
  {
    if !(1 <= k < p.n && queryRows >= 1 && candidateRows >= 1) {
      return InvalidArguments;
    }
    if i :| 0 <= i < |queries| && !(0 <= queries[i] < p.n) {
      return QueryOutsideCatalog;
    }
    var positions: seq<nat> := seq(|queries|, i requires 0 <= i < |queries| => queries[i]);
    var rows := RankAll(p, positions, k, queryRows, candidateRows);
    out := Rankings(rows);
  }

  /** The two algorithms agree: on the same scores the comparator's row is the published row. */
  lemma AgreesWithExact(p: Problem, r: nat, published: seq<Entry>, row: seq<Entry>)
    requires p.Valid() && r < p.n && p.k < p.n && Exact(p, r, published)
    requires |row| == p.k && Ranks(row, TopSet(Others(p, r), p.k))
    ensures row == published
  {
    RankingUnique(published[..p.k], row, TopSet(Others(p, r), p.k));
  }
}
