/** Merging candidates into the running lists of `TopKState`: pad, partition on the packed key,
    turn padding back into empty slots, raise the threshold. */
module TopKMerge {
  import opened Ranking
  import Float32
  import Sorting

  function LowWord(position: int): int {
    position % 0x1_0000_0000
  }

  /** The order of the packed keys of two slots. */
  predicate KeyBefore(a: Entry, b: Entry) {
    a.score > b.score || (a.score == b.score && LowWord(a.pos) < LowWord(b.pos))
  }

  /** Slots compare as the float32 keys they are packed into. */
  lemma KeyBeforeIsRankKey(a: Float32.Word, p: int, b: Float32.Word, q: int)
    requires !Float32.IsNaN(a) && !Float32.IsNaN(b)
    ensures Float32.RankKey(a, p) < Float32.RankKey(b, q)
       <==> KeyBefore(Entry(Float32.Ordinal(a), p), Entry(Float32.Ordinal(b), q))
  {
    Float32.RankKeyEmbedsOrder(a, p, b, q);
    Float32.OrdinalOrdersValues(a, b);
    Float32.OrdinalOrdersValues(b, a);
  }

  /** `l` holds exactly `s`, unsorted, every other slot unfilled. */
  ghost predicate Lists(l: seq<Entry>, s: set<Entry>) {
    && AllValid(s)
    && |s| <= |l|
    && multiset(l) == multiset(s)[UNFILLED := |l| - |s|]
  }

  /** What `argpartition(keys, k - 1)[:k]` promises: `k` of the slots, none of those left out
      with a smaller key. */
  ghost predicate IsKBest(best: multiset<Entry>, slots: multiset<Entry>, k: nat) {
    && |best| == k
    && best <= slots
    && forall x, y :: x in best && y in slots - best ==> !KeyBefore(y, x)
  }

  function EmptyPads(l: seq<Entry>): (r: seq<Entry>)
    ensures |r| == |l|
  {
    seq(|l|, i requires 0 <= i < |l| => if l[i].pos == PAD_POSITION then Entry(l[i].score, EMPTY_POSITION) else l[i])
  }

  ghost function Slots(former: seq<Entry>, candidates: seq<Entry>, padding: nat): multiset<Entry> {
    multiset(former) + multiset(candidates) + multiset{}[PADDING := padding]
  }

  /** One row of a merge: `result` is some `k` best slots of the old list and the candidates. */
  ghost predicate MergedRow(former: seq<Entry>, candidates: seq<Entry>, result: seq<Entry>) {
    exists best: seq<Entry>, padding: nat ::
      IsKBest(multiset(best), Slots(former, candidates, padding), |former|) && result == EmptyPads(best)
  }

  function MinScore(l: seq<Entry>): (m: Score)
    requires l != []
    ensures exists e :: e in l && e.score == m
    ensures forall e :: e in l ==> m <= e.score
  {
    if |l| == 1 then
      assert l[0] in l;
      l[0].score
    else
      var rest := MinScore(l[1..]);
      assert l == [l[0]] + l[1..];
      if l[0].score < rest then l[0].score else rest
  }

  /** `np.maximum(best_scores.min(axis=-1), _FLOOR)`. */
  function Threshold(l: seq<Entry>): Score
    requires l != []
  {
    var m := MinScore(l);
    if m < FLOOR then FLOOR else m
  }

  // ---- What one merge keeps ----

  ghost predicate SplitInto(best: multiset<Entry>, top: set<Entry>, k: nat) {
    && (forall e :: e in top ==> best[e] == 1)
    && (forall e :: e in best ==> e in top || e == UNFILLED || e == PADDING)
    && |best| == k
  }

  lemma MultisetSize(a: multiset<Entry>, b: multiset<Entry>)
    requires a <= b
    ensures |a| <= |b|
  {
    assert b == a + (b - a);
  }

  lemma FitsIn(a: set<Entry>, e: Entry, best: multiset<Entry>)
    requires e in best && e !in a && forall x :: x in a ==> x in best
    ensures |a| < |best|
  {
    assert multiset(a + {e}) <= best;
    MultisetSize(multiset(a + {e}), best);
  }

  lemma KBestIsTop(s: set<Entry>, added: set<Entry>, padding: nat, best: multiset<Entry>, k: nat)
    requires AllValid(s + added) && s !! added && |s| <= k
    requires IsKBest(best, multiset(s)[UNFILLED := k - |s|] + multiset(added) + multiset{}[PADDING := padding], k)
    ensures SplitInto(best, TopSet(s + added, k), k)
  {
    var all := s + added;
    var slots := multiset(s)[UNFILLED := k - |s|] + multiset(added) + multiset{}[PADDING := padding];
    forall e | e in slots ensures e in all || e == UNFILLED || e == PADDING {}
    forall e | e in all ensures slots[e] == 1 {}
    forall e | e in all ensures e in best <==> e in TopSet(all, k) {
      if e in best && |Ahead(all, e)| >= k {
        assert forall a :: a in Ahead(all, e) ==> a in slots && KeyBefore(a, e);
        assert forall a :: a in Ahead(all, e) ==> a in best;
        FitsIn(Ahead(all, e), e, best);
      } else if e !in best && |Ahead(all, e)| < k {
        forall x | x in best ensures x in Ahead(all, e) && best[x] == 1 {
          assert e in slots - best;
          assert !KeyBefore(e, x);
        }
        assert best <= multiset(Ahead(all, e));
        MultisetSize(best, multiset(Ahead(all, e)));
      }
    }
  }

  lemma {:induction false} EmptyPadsCounts(l: seq<Entry>, top: set<Entry>)
    requires AllValid(top)
    requires forall e :: e in l ==> e in top || e == UNFILLED || e == PADDING
    ensures forall e :: e in top ==> multiset(EmptyPads(l))[e] == multiset(l)[e]
    ensures forall e :: e in EmptyPads(l) ==> e in top || e == UNFILLED
    decreases |l|
  {
    if l != [] {
      var front, last := l[..|l| - 1], l[|l| - 1];
      assert l == front + [last];
      EmptyPadsCounts(front, top);
      assert EmptyPads(l) == EmptyPads(front) + EmptyPads([last]);
      assert last in l;
      assert EmptyPads([last]) == [if last == PADDING then UNFILLED else last];
    }
  }

  /** A multiset of `top`, each once, and unfilled slots. */
  lemma FilledOut(m: multiset<Entry>, top: set<Entry>)
    requires AllValid(top)
    requires forall e :: e in top ==> m[e] == 1
    requires forall e :: e in m ==> e in top || e == UNFILLED
    ensures |top| <= |m| && m == multiset(top)[UNFILLED := |m| - |top|]
  {
    assert m == multiset(top) + multiset{}[UNFILLED := m[UNFILLED]];
  }

  /** Merging new candidates into a row listing `s` leaves a row listing the best k of both,
      whatever order the partition leaves the slots in. */
  lemma MergeKeepsTop(former: seq<Entry>, s: set<Entry>, candidates: seq<Entry>, added: set<Entry>, result: seq<Entry>)
    requires Lists(former, s) && MergedRow(former, candidates, result)
    requires AllValid(added) && multiset(candidates) == multiset(added) && s !! added
    ensures |result| == |former| && Lists(result, TopSet(s + added, |former|))
  {
    var k := |former|;
    var best: seq<Entry>, padding: nat :|
      IsKBest(multiset(best), Slots(former, candidates, padding), k) && result == EmptyPads(best);
    KBestIsTop(s, added, padding, multiset(best), k);
    var top := TopSet(s + added, k);
    forall e | e in best ensures e in top || e == UNFILLED || e == PADDING {
      assert e in multiset(best);
    }
    EmptyPadsCounts(best, top);
    var filled := multiset(result);
    forall e | e in top ensures filled[e] == 1 {
      assert multiset(best)[e] == 1;
    }
    forall e | e in filled ensures e in top || e == UNFILLED {
      assert e in result;
    }
    FilledOut(filled, top);
  }

  /** The threshold of a list of the best k: the k-th best score once k are known, the floor before. */
  lemma ThresholdIsKthBest(l: seq<Entry>, s: set<Entry>)
    requires l != [] && Lists(l, s)
    ensures |s| < |l| ==> Threshold(l) == FLOOR
    ensures |s| == |l| ==> (forall e :: e in s ==> Threshold(l) <= e.score) && exists e :: e in s && e.score == Threshold(l)
  {
    var m := MinScore(l);
    var lowest :| lowest in l && lowest.score == m;
    assert lowest in multiset(l);
    if |s| < |l| {
      assert UNFILLED in multiset(l);
      assert UNFILLED in l;
    } else {
      assert lowest in s;
      forall e | e in s ensures m <= e.score {
        assert e in multiset(l);
        assert e in l;
      }
    }
  }

  // ---- The published order ----

  /** A published row: the ranking of `s`, then unfilled slots (-inf, -1). */
  ghost predicate Publishes(l: seq<Entry>, s: set<Entry>) {
    && |s| <= |l|
    && Ranks(l[..|s|], s)
    && forall i :: |s| <= i < |l| ==> l[i] == UNFILLED
  }

  lemma KeyBeforeIsWeakOrder()
    ensures Sorting.WeakOrder(KeyBefore)
  {
  }

  /** `sorted_lists` on one row. */
  function SortedList(l: seq<Entry>): seq<Entry> {
    Sorting.Sorted(l, KeyBefore)
  }

  ghost predicate KeysAscend(l: seq<Entry>) {
    forall i, j :: 0 <= i < j < |l| ==> !KeyBefore(l[j], l[i])
  }

  lemma TwiceCounts<T>(l: seq<T>, i: nat, j: nat)
    requires i < j < |l| && l[i] == l[j]
    ensures multiset(l)[l[i]] >= 2
  {
    assert l == l[..j] + [l[j]] + l[j + 1..];
    assert l[..j][i] == l[i];
    assert l[i] in multiset(l[..j]);
  }

  lemma FilledStrictly(sorted: seq<Entry>, s: set<Entry>, i: nat, j: nat)
    requires Lists(sorted, s) && KeysAscend(sorted)
    requires i < j < |sorted| && sorted[i] in s && sorted[j] in s
    ensures Before(sorted[i], sorted[j])
  {
    assert !KeyBefore(sorted[j], sorted[i]);
    if sorted[i] == sorted[j] {
      TwiceCounts(sorted, i, j);
    }
  }

  ghost predicate FilledOrNot(l: seq<Entry>, s: set<Entry>) {
    forall i :: 0 <= i < |l| ==> l[i] in s || l[i] == UNFILLED
  }

  lemma {:induction false} AllUnfilled(l: seq<Entry>)
    requires forall c :: 0 <= c < |l| ==> l[c] == UNFILLED
    ensures Lists(l, {})
    decreases |l|
  {
    if l != [] {
      assert l == l[..|l| - 1] + [UNFILLED];
      AllUnfilled(l[..|l| - 1]);
    }
  }

  lemma HeadIsFilled(head: seq<Entry>, tail: seq<Entry>, s: set<Entry>)
    requires Lists(head + tail, s)
    requires forall i :: 0 <= i < |head| ==> head[i] in s
    requires forall i :: 0 <= i < |tail| ==> tail[i] == UNFILLED
    ensures |head| == |s|
  {
    AllUnfilled(tail);
    var h, t := multiset(head), multiset(tail);
    assert multiset(head + tail) == h + t;
    assert t == multiset{}[UNFILLED := |tail|];
    assert forall e :: e in h ==> e in head;
    forall e ensures h[e] == multiset(s)[e] {
      assert e in h ==> e in s;
      assert (h + t)[e] == h[e] + t[e];
      assert e in s ==> (h + t)[e] == 1 && e != UNFILLED;
    }
    assert h == multiset(s);
  }

  lemma {:induction false} FilledPrefix(sorted: seq<Entry>, s: set<Entry>, n: nat) returns (m: nat)
    requires n <= |sorted| && AllValid(s) && FilledOrNot(sorted, s) && KeysAscend(sorted)
    ensures m <= n && forall i :: 0 <= i < n ==> (i < m <==> sorted[i] in s)
  {
    m := 0;
    if n > 0 {
      m := FilledPrefix(sorted, s, n - 1);
      assert m < n - 1 ==> !KeyBefore(sorted[n - 1], sorted[m]);
      if sorted[n - 1] in s {
        m := n;
      }
    }
  }

  /** Filled slots come before unfilled ones, and number |s|. */
  lemma FilledFirst(sorted: seq<Entry>, s: set<Entry>)
    requires Lists(sorted, s) && FilledOrNot(sorted, s) && KeysAscend(sorted)
    ensures forall i :: 0 <= i < |sorted| ==> (i < |s| <==> sorted[i] in s)
  {
    var m := FilledPrefix(sorted, s, |sorted|);
    HeadIsFilled(sorted[..m], sorted[m..], s) by {
      assert sorted == sorted[..m] + sorted[m..];
      assert forall i :: 0 <= i < |sorted[m..]| ==> sorted[m..][i] == sorted[m + i];
    }
  }

  lemma SortedPublishes(sorted: seq<Entry>, s: set<Entry>)
    requires Lists(sorted, s) && KeysAscend(sorted)
    ensures Publishes(sorted, s)
  {
    var n := |s|;
    forall i | 0 <= i < |sorted| ensures sorted[i] in s || sorted[i] == UNFILLED {
      assert sorted[i] in multiset(sorted);
    }
    FilledFirst(sorted, s);
    var front := sorted[..n];
    forall e | e in s ensures e in front {
      assert e in multiset(sorted);
      var i :| 0 <= i < |sorted| && sorted[i] == e;
      assert front[i] == e;
    }
    forall i, j | 0 <= i < j < n ensures Before(front[i], front[j]) {
      FilledStrictly(sorted, s, i, j);
    }
    assert forall i :: 0 <= i < n ==> front[i] == sorted[i];
    assert forall e :: e in front ==> e in s;
  }

  lemma SortedListPublishes(l: seq<Entry>, s: set<Entry>)
    requires Lists(l, s)
    ensures |SortedList(l)| == |l| && Publishes(SortedList(l), s)
  {
    KeyBeforeIsWeakOrder();
    Sorting.SortedSorts(l, KeyBefore);
    SortedPublishes(SortedList(l), s);
  }

  /** Every slot of a published row is determined by the set it ranks. */
  lemma PublishedUnique(a: seq<Entry>, b: seq<Entry>, s: set<Entry>)
    requires Publishes(a, s) && Publishes(b, s) && |a| == |b|
    ensures a == b
  {
    RankingUnique(a[..|s|], b[..|s|], s);
    assert forall i :: 0 <= i < |s| ==> a[i] == a[..|s|][i] && b[i] == b[..|s|][i];
  }

  lemma HeadIsKBest(head: seq<Entry>, tail: seq<Entry>)
    requires KeysAscend(head + tail)
    ensures IsKBest(multiset(head), multiset(head + tail), |head|)
  {
    assert multiset(head + tail) == multiset(head) + multiset(tail);
    assert multiset(head + tail) - multiset(head) == multiset(tail);
    forall x, y | x in multiset(head) && y in multiset(tail) ensures !KeyBefore(y, x) {
      var i :| 0 <= i < |head| && head[i] == x;
      var j :| 0 <= j < |tail| && tail[j] == y;
      assert (head + tail)[i] == x && (head + tail)[|head| + j] == y;
    }
  }

  /** The first `k` slots in key order are a `k` best: the choice `Merge` below makes. */
  lemma SortedPrefixIsKBest(slots: seq<Entry>, k: nat)
    requires k <= |slots|
    ensures |SortedList(slots)| == |slots|
    ensures IsKBest(multiset(SortedList(slots)[..k]), multiset(slots), k)
  {
    KeyBeforeIsWeakOrder();
    Sorting.SortedSorts(slots, KeyBefore);
    var sorted := SortedList(slots);
    assert sorted == sorted[..k] + sorted[k..];
    HeadIsKBest(sorted[..k], sorted[k..]);
  }

  // ---- The arrays ----

  /** The candidates for touched row `i`, of a flat list ordered by touched row. */
  function CandidatesOf(candRows: seq<nat>, candidates: seq<Entry>, i: nat): seq<Entry>
    requires |candRows| == |candidates|
  {
    if candRows == [] then []
    else
      (if candRows[0] == i then [candidates[0]] else []) + CandidatesOf(candRows[1..], candidates[1..], i)
  }

  method WidestRow(candRows: seq<nat>, candidates: seq<Entry>, n: nat) returns (width: nat)
    requires |candRows| == |candidates|
    ensures forall i :: 0 <= i < n ==> |CandidatesOf(candRows, candidates, i)| <= width
  {
    width := 0;
    for i := 0 to n
      invariant forall m :: 0 <= m < i ==> |CandidatesOf(candRows, candidates, m)| <= width
    {
      var count := |CandidatesOf(candRows, candidates, i)|;
      width := if count > width then count else width;
    }
  }

  ghost predicate MergedTo(was: seq<Entry>, candidates: seq<Entry>, now: seq<Entry>, threshold: Score) {
    MergedRow(was, candidates, now) && now != [] && threshold == Threshold(now)
  }

  ghost predicate TouchedMerged(was: seq<seq<Entry>>, touched: seq<nat>, candRows: seq<nat>, candidates: seq<Entry>, n: nat,
                                now: seq<seq<Entry>>, nowThresholds: seq<Score>)
    requires |candRows| == |candidates| && n <= |touched| && |now| == |was| == |nowThresholds|
    requires forall i :: 0 <= i < |touched| ==> touched[i] < |was|
  {
    forall i :: 0 <= i < n ==>
      MergedTo(was[touched[i]], CandidatesOf(candRows, candidates, i), now[touched[i]], nowThresholds[touched[i]])
  }

  ghost predicate OthersKept(was: seq<seq<Entry>>, wasThresholds: seq<Score>, changed: seq<nat>, now: seq<seq<Entry>>, nowThresholds: seq<Score>)
    requires |now| == |was| == |nowThresholds| == |wasThresholds|
  {
    forall r :: 0 <= r < |was| && r !in changed ==> now[r] == was[r] && nowThresholds[r] == wasThresholds[r]
  }

  /** The first `n` touched rows are merged and their thresholds raised; all other rows are as before. */
  ghost predicate MergedRows(was: seq<seq<Entry>>, wasThresholds: seq<Score>, touched: seq<nat>, candRows: seq<nat>,
                             candidates: seq<Entry>, n: nat, now: seq<seq<Entry>>, nowThresholds: seq<Score>)
    requires |candRows| == |candidates| && n <= |touched|
    requires forall i :: 0 <= i < |touched| ==> touched[i] < |was|
  {
    && |now| == |was| == |nowThresholds| == |wasThresholds|
    && TouchedMerged(was, touched, candRows, candidates, n, now, nowThresholds)
    && OthersKept(was, wasThresholds, touched[..n], now, nowThresholds)
  }

  lemma TouchedStep(was: seq<seq<Entry>>, touched: seq<nat>, candRows: seq<nat>, candidates: seq<Entry>, n: nat,
                    mid: seq<seq<Entry>>, midThresholds: seq<Score>, l: seq<Entry>)
    requires |candRows| == |candidates| && n < |touched| && |mid| == |was| == |midThresholds|
    requires forall i :: 0 <= i < |touched| ==> touched[i] < |was|
    requires forall i :: 0 <= i < n ==> touched[i] != touched[n]
    requires TouchedMerged(was, touched, candRows, candidates, n, mid, midThresholds)
    requires l != [] && MergedRow(was[touched[n]], CandidatesOf(candRows, candidates, n), l)
    ensures TouchedMerged(was, touched, candRows, candidates, n + 1, mid[touched[n] := l], midThresholds[touched[n] := Threshold(l)])
  {
    var r, now, nowThresholds := touched[n], mid[touched[n] := l], midThresholds[touched[n] := Threshold(l)];
    assert MergedTo(was[r], CandidatesOf(candRows, candidates, n), now[r], nowThresholds[r]);
    forall i | 0 <= i < n
      ensures MergedTo(was[touched[i]], CandidatesOf(candRows, candidates, i), now[touched[i]], nowThresholds[touched[i]])
    {
      var q := touched[i];
      assert now[q] == mid[q] && nowThresholds[q] == midThresholds[q];
    }
  }

  lemma OthersStep(was: seq<seq<Entry>>, wasThresholds: seq<Score>, changed: seq<nat>, r: nat,
                   mid: seq<seq<Entry>>, midThresholds: seq<Score>, l: seq<Entry>, t: Score)
    requires |mid| == |was| == |midThresholds| == |wasThresholds| && r < |was|
    requires OthersKept(was, wasThresholds, changed, mid, midThresholds)
    ensures OthersKept(was, wasThresholds, changed + [r], mid[r := l], midThresholds[r := t])
  {
    forall q | 0 <= q < |was| && q !in changed + [r]
      ensures mid[r := l][q] == was[q] && midThresholds[r := t][q] == wasThresholds[q]
    {
      assert r in changed + [r];
    }
  }

  lemma NotYetMerged(touched: seq<nat>, n: nat)
    requires n < |touched| && forall i, j :: 0 <= i < j < |touched| ==> touched[i] != touched[j]
    ensures touched[n] !in touched[..n] && touched[..n + 1] == touched[..n] + [touched[n]]
    ensures forall i :: 0 <= i < n ==> touched[i] != touched[n]
  {
  }

  lemma MergedRowsStep(was: seq<seq<Entry>>, wasThresholds: seq<Score>, touched: seq<nat>, candRows: seq<nat>,
                       candidates: seq<Entry>, n: nat, mid: seq<seq<Entry>>, midThresholds: seq<Score>, l: seq<Entry>)
    requires |candRows| == |candidates| && n < |touched|
    requires forall i :: 0 <= i < |touched| ==> touched[i] < |was|
    requires forall i, j :: 0 <= i < j < |touched| ==> touched[i] != touched[j]
    requires MergedRows(was, wasThresholds, touched, candRows, candidates, n, mid, midThresholds)
    requires l != [] && MergedRow(mid[touched[n]], CandidatesOf(candRows, candidates, n), l)
    ensures MergedRows(was, wasThresholds, touched, candRows, candidates, n + 1,
                       mid[touched[n] := l], midThresholds[touched[n] := Threshold(l)])
  {
    NotYetMerged(touched, n);
    TouchedStep(was, touched, candRows, candidates, n, mid, midThresholds, l);
    OthersStep(was, wasThresholds, touched[..n], touched[n], mid, midThresholds, l, Threshold(l));
  }

  lemma {:induction false} AllPadding(n: nat)
    ensures multiset(seq(n, _ => PADDING)) == multiset{}[PADDING := n]
  {
    if n > 0 {
      assert seq(n, _ => PADDING) == seq(n - 1, _ => PADDING) + [PADDING];
      AllPadding(n - 1);
    }
  }

  class TopKState {
    const rows: nat
    const k: nat
    const scores: array2<Score>
    const positions: array2<int>
    const thresholds: array<Score>

    ghost predicate Valid()
      reads this
    {
      && k >= 1
      && scores.Length0 == positions.Length0 == thresholds.Length == rows
      && scores.Length1 == positions.Length1 == k
      && scores != positions
    }

    /** Row `r` as the slots it stores. */
    function List(r: nat): (l: seq<Entry>)
      requires Valid() && r < rows
      reads this, scores, positions
      ensures |l| == k
    {
      seq(k, c requires 0 <= c < k reads this, scores, positions => Entry(scores[r, c], positions[r, c]))
    }

    /** Every row, in order. */
    function AllLists(): (ls: seq<seq<Entry>>)
      requires Valid()
      reads this, scores, positions
      ensures |ls| == rows && forall r :: 0 <= r < rows ==> ls[r] == List(r) && |ls[r]| == k
    {
      seq(rows, r requires 0 <= r < rows && Valid() reads this, scores, positions => List(r))
    }

    /** `TopKState.empty`. */
    constructor (n: nat, k: nat)
      requires k >= 1
      ensures Valid() && rows == n && this.k == k
      ensures fresh(scores) && fresh(positions) && fresh(thresholds)
      ensures forall r :: 0 <= r < n ==> Lists(AllLists()[r], {}) && thresholds[r] == FLOOR
    {
      this.rows := n;
      this.k := k;
      scores := new Score[n, k]((_, _) => NEG_INF);
      positions := new int[n, k]((_, _) => EMPTY_POSITION);
      thresholds := new Score[n](_ => FLOOR);
      new;
      forall r | 0 <= r < n ensures Lists(List(r), {}) {
        assert forall c :: 0 <= c < k ==> List(r)[c] == UNFILLED;
        AllUnfilled(List(r));
      }
    }

    method StoreRow(r: nat, l: seq<Entry>)
      requires Valid() && r < rows && |l| == k
      modifies scores, positions, thresholds
      ensures AllLists() == old(AllLists())[r := l]
      ensures thresholds[..] == old(thresholds[..])[r := Threshold(l)]
    {
      for c := 0 to k
        invariant forall d :: 0 <= d < c ==> scores[r, d] == l[d].score && positions[r, d] == l[d].pos
        invariant forall q, d :: 0 <= q < rows && q != r && 0 <= d < k ==>
          scores[q, d] == old(scores[q, d]) && positions[q, d] == old(positions[q, d])
        invariant thresholds[..] == old(thresholds[..])
      {
        scores[r, c] := l[c].score;
        positions[r, c] := l[c].pos;
      }
      thresholds[r] := Threshold(l);
      assert List(r) == l;
      assert forall q :: 0 <= q < rows && q != r ==> List(q) == old(List(q));
    }

    method MergeRow(r: nat, candidates: seq<Entry>, width: nat)
      requires Valid() && r < rows && |candidates| <= width
      modifies scores, positions, thresholds
      ensures MergedRow(old(AllLists())[r], candidates, AllLists()[r])
      ensures AllLists() == old(AllLists())[r := AllLists()[r]]
      ensures thresholds[..] == old(thresholds[..])[r := Threshold(AllLists()[r])]
    {
      var padding := width - |candidates|;
      var pads := seq(padding, _ => PADDING);
      var slots := List(r) + candidates + pads;
      SortedPrefixIsKBest(slots, k);
      var best := SortedList(slots)[..k];
      AllPadding(padding);
      assert multiset(slots) == Slots(List(r), candidates, padding);
      assert MergedRow(List(r), candidates, EmptyPads(best));
      StoreRow(r, EmptyPads(best));
    }

    /** `_merge`: every touched row keeps its best `k` of old and new; no other row changes. */
    method Merge(touched: seq<nat>, candRows: seq<nat>, candidates: seq<Entry>)
      requires Valid() && |candRows| == |candidates|
      requires forall i :: 0 <= i < |touched| ==> touched[i] < rows
      requires forall i, j :: 0 <= i < j < |touched| ==> touched[i] != touched[j]
      modifies scores, positions, thresholds
      ensures MergedRows(old(AllLists()), old(thresholds[..]), touched, candRows, candidates, |touched|, AllLists(), thresholds[..])
    {
      var width := WidestRow(candRows, candidates, |touched|);
      for i := 0 to |touched|
        invariant MergedRows(old(AllLists()), old(thresholds[..]), touched, candRows, candidates, i, AllLists(), thresholds[..])
      {
        ghost var mid, midThresholds := AllLists(), thresholds[..];
        MergeRow(touched[i], CandidatesOf(candRows, candidates, i), width);
        MergedRowsStep(old(AllLists()), old(thresholds[..]), touched, candRows, candidates, i,
                       mid, midThresholds, AllLists()[touched[i]]);
      }
    }
  }
}
