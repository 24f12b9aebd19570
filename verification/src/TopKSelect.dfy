/** Candidate selection on one padded block of scores: the first-sight cut, and the segment pass in its two
    views, against the entries that can still reach a row's list. */
module TopKSelect {
  import opened Basics
  import opened Ranking
  import Sorting

  const SEGMENT := 64
  const COLUMN_SEGMENT := 16
  const POS_INF: Score := 0x7F80_0000

  /** All-pairs scoring of `n` catalog rows, cut into blocks of `block` rows. */
  datatype Problem = Problem(n: nat, k: nat, block: nat, score: (nat, nat) -> Score)
  {
    ghost predicate Valid() {
      && n < PAD_POSITION && k >= 1 && block >= 1 && block % 64 == 0
      && (forall a: nat, b: nat {:trigger score(a, b)} :: a < n && b < n ==> score(a, b) == score(b, a) && FLOOR <= score(a, b) < POS_INF)
    }

    /** The first row of block `b`: `b * block`. */
    function Start(b: nat): nat {
      Times(b, block)
    }

    /** The block of row `r`: `r / block`. */
    function BlockOf(r: nat): nat
      requires block >= 1
      decreases r
    {
      if r < block then 0 else 1 + BlockOf(r - block)
    }

    /** How many blocks there are: `-(-n // block)`. */
    function Blocks(): nat
      requires block >= 1
    {
      if n == 0 then 0 else BlockOf(n - 1) + 1
    }

    /** How many rows block `b` has. */
    function Rows(b: nat): nat {
      if n < Start(b) then 0 else if n - Start(b) < block then n - Start(b) else block
    }

    /** Block `b` is padded to a whole number of segments of 64. */
    function SegmentCount(b: nat): nat {
      (Rows(b) + 63) / 64
    }

    function Padded(b: nat): nat {
      64 * SegmentCount(b)
    }

    /** Row `r`'s entries for the columns of the blocks in `sources`, never itself. */
    function Entries(r: nat, sources: set<nat>): set<Entry>
      requires block >= 1
    {
      set c: nat | c < n && c != r && BlockOf(c) in sources :: Entry(score(r, c), c)
    }

    lemma {:induction false} InBlock(r: nat, b: nat)
      requires block >= 1
      ensures BlockOf(r) == b <==> Start(b) <= r < Start(b) + block
      decreases r
    {
      if r >= block && b > 0 {
        InBlock(r - block, b - 1);
      }
    }

    lemma RowInBlock(r: nat, b: nat)
      requires block >= 1
      ensures r < n && BlockOf(r) == b <==> Start(b) <= r < Start(b) + Rows(b)
    {
      InBlock(r, b);
    }
  }

  // ---- What selection must keep ----

  /** A threshold read at some moment is justified by the entries merged until then: it is the floor, or
      `k` of them reach it. More merging keeps it justified, so a stale one stays justified. */
  ghost predicate Justified(seen: set<Entry>, t: Score, k: nat) {
    t >= FLOOR && (t > FLOOR ==> |set e | e in seen && e.score >= t| >= k)
  }

  /** The block's entries a task passes on: all that tie or beat the block's own k-th best when the row
      looks unfilled, else all that reach the threshold. */
  function Admit(incoming: set<Entry>, t: Score, k: nat): set<Entry> {
    if t == FLOOR then set e | e in incoming && |set x | x in incoming && x.score > e.score| < k
    else set e | e in incoming && e.score >= t
  }

  /** A candidate dropped against a justified threshold, however stale, or by the first-sight cut, is
      outside the row's best k from then on. */
  lemma AdmitKeepsTop(seen: set<Entry>, incoming: set<Entry>, t: Score, k: nat)
    requires Justified(seen, t, k)
    ensures TopSet(seen + Admit(incoming, t, k), k) == TopSet(seen + incoming, k)
  {
    var all := seen + incoming;
    forall e | e in TopSet(all, k) ensures e in seen + Admit(incoming, t, k) {
      if e in incoming && e !in Admit(incoming, t, k) {
        var better := if t == FLOOR then set x | x in incoming && x.score > e.score else set x | x in seen && x.score >= t;
        assert forall x :: x in better ==> x in Ahead(all, e);
        SubsetSize(better, Ahead(all, e));
      }
    }
    Sandwich(all, seen + Admit(incoming, t, k), k);
  }

  // ---- Flat selection and the segment pass ----

  /** The places of `row` that reach `t`, in order, counted from `first`: `np.nonzero(row >= t)`. */
  function Hits(row: seq<Score>, t: Score, first: nat): seq<nat> {
    if row == [] then []
    else (if row[0] >= t then [first] else []) + Hits(row[1..], t, first + 1)
  }

  lemma InConcat<T>(a: seq<T>, b: seq<T>, x: T)
    ensures x in a + b <==> x in a || x in b
  {
  }

  lemma {:induction false} HitsMember(row: seq<Score>, t: Score, first: nat, c: nat)
    ensures c in Hits(row, t, first) <==> first <= c < first + |row| && row[c - first] >= t
    decreases |row|
  {
    if row != [] {
      var here, tail := if row[0] >= t then [first] else [], row[1..];
      HitsMember(tail, t, first + 1, c);
      var rest := Hits(tail, t, first + 1);
      InConcat(here, rest, c);
      assert first < c < first + |row| ==> tail[c - (first + 1)] == row[c - first];
    }
  }

  lemma Associate<T>(a: seq<T>, b: seq<T>, c: seq<T>)
    ensures a + (b + c) == a + b + c
  {
  }

  lemma {:induction false} HitsOfConcat(a: seq<Score>, b: seq<Score>, t: Score, first: nat)
    ensures Hits(a + b, t, first) == Hits(a, t, first) + Hits(b, t, first + |a|)
    decreases |a|
  {
    if a == [] {
      assert a + b == b;
    } else {
      var here, tail := if a[0] >= t then [first] else [], a[1..];
      calc {
        Hits(a + b, t, first);
        { assert (a + b)[0] == a[0] && (a + b)[1..] == tail + b; }
        here + Hits(tail + b, t, first + 1);
        { HitsOfConcat(tail, b, t, first + 1); }
        here + (Hits(tail, t, first + 1) + Hits(b, t, first + |a|));
        { Associate(here, Hits(tail, t, first + 1), Hits(b, t, first + |a|)); }
        Hits(a, t, first) + Hits(b, t, first + |a|);
      }
    }
  }

  function MaxOf(run: seq<Score>): Score
    requires run != []
  {
    if |run| == 1 then run[0]
    else
      var rest := MaxOf(run[1..]);
      if run[0] > rest then run[0] else rest
  }

  /** A run whose maximum misses the threshold has no hit. */
  lemma {:induction false} PrunedHits(run: seq<Score>, t: Score, first: nat)
    requires run != []
    ensures MaxOf(run) < t ==> Hits(run, t, first) == []
    decreases |run|
  {
    if |run| > 1 {
      PrunedHits(run[1..], t, first + 1);
    }
  }

  predicate Uniform(segments: seq<seq<Score>>, width: nat) {
    forall i :: 0 <= i < |segments| ==> |segments[i]| == width
  }

  /** `row.reshape(m, width)`. */
  function Segments(row: seq<Score>, width: nat, m: nat): (s: seq<seq<Score>>)
    requires width >= 1 && |row| == Times(m, width)
    ensures |s| == m && Uniform(s, width)
  {
    if m == 0 then []
    else
      [row[..width]] + Segments(row[width..], width, m - 1)
  }

  lemma {:induction false} GroupRow(width: nat, m: nat, g: nat, o: nat)
    requires g < m && o < width
    ensures Times(g, width) + o < Times(m, width)
    decreases m
  {
    if g < m - 1 {
      GroupRow(width, m - 1, g, o);
    }
  }

  lemma SuffixAt(row: seq<Score>, from_: nat, i: nat)
    requires from_ + i < |row|
    ensures row[from_..][i] == row[from_ + i]
  {
  }

  /** `segment * width + offset` inverts the reshape. */
  lemma {:induction false} SegmentAt(row: seq<Score>, width: nat, m: nat, s: nat, o: nat)
    requires width >= 1 && |row| == Times(m, width) && s < m && o < width
    ensures Times(s, width) + o < |row| && Segments(row, width, m)[s][o] == row[Times(s, width) + o]
  {
    GroupRow(width, m, s, o);
    var tail := row[width..];
    assert Segments(row, width, m) == [row[..width]] + Segments(tail, width, m - 1);
    if s > 0 {
      SegmentAt(tail, width, m - 1, s - 1, o);
      SuffixAt(row, width, Times(s - 1, width) + o);
    }
  }

  /** One row of the segment pass: only runs whose maximum reaches the threshold are looked at. */
  function SegmentHits(segments: seq<seq<Score>>, width: nat, t: Score, first: nat): seq<nat>
    requires width >= 1 && Uniform(segments, width)
    decreases |segments|
  {
    if segments == [] then []
    else
      (if MaxOf(segments[0]) >= t then Hits(segments[0], t, Times(first, width)) else [])
      + SegmentHits(segments[1..], width, t, first + 1)
  }

  function Flatten(segments: seq<seq<Score>>): seq<Score> {
    if segments == [] then [] else segments[0] + Flatten(segments[1..])
  }

  lemma {:induction false} FlattenSegments(row: seq<Score>, width: nat, m: nat)
    requires width >= 1 && |row| == Times(m, width)
    ensures Flatten(Segments(row, width, m)) == row
  {
    if m > 0 {
      FlattenSegments(row[width..], width, m - 1);
      assert Segments(row, width, m)[1..] == Segments(row[width..], width, m - 1);
    }
  }

  lemma {:induction false} SegmentHitsFlat(segments: seq<seq<Score>>, width: nat, t: Score, first: nat)
    requires width >= 1 && Uniform(segments, width)
    ensures SegmentHits(segments, width, t, first) == Hits(Flatten(segments), t, Times(first, width))
    decreases |segments|
  {
    if segments != [] {
      SegmentHitsFlat(segments[1..], width, t, first + 1);
      PrunedHits(segments[0], t, Times(first, width));
      HitsOfConcat(segments[0], Flatten(segments[1..]), t, Times(first, width));
    }
  }

  /** Pruning by segment maximum loses nothing and lists nothing twice: it is the flat scan. */
  lemma SegmentHitsAreHits(row: seq<Score>, width: nat, m: nat, t: Score)
    requires width >= 1 && |row| == Times(m, width)
    ensures SegmentHits(Segments(row, width, m), width, t, 0) == Hits(row, t, 0)
  {
    SegmentHitsFlat(Segments(row, width, m), width, t, 0);
    FlattenSegments(row, width, m);
  }

  // ---- The first-sight cut ----

  /** `np.partition(row, n - cut)[n - cut]`: the cut-th largest score. */
  function KthLargest(row: seq<Score>, cut: nat): Score
    requires 1 <= cut <= |row|
  {
    Sorting.Sorted(row, (a, b) => a < b)[|row| - cut]
  }

  function FirstSightHits(row: seq<Score>, k: nat): seq<nat>
    requires row != [] && k >= 1
  {
    var cut := if k < |row| then k else |row|;
    var kth := KthLargest(row, cut);
    Hits(row, if kth < FLOOR then FLOOR else kth, 0)
  }

  ghost function Above(row: seq<Score>, t: Score): set<nat> {
    set c: nat | c < |row| && row[c] > t
  }

  lemma {:induction false} TailSize(order: seq<nat>, lo: nat)
    requires lo <= |order| && forall i, j :: 0 <= i < j < |order| ==> order[i] != order[j]
    ensures |set i | lo <= i < |order| :: order[i]| == |order| - lo
    decreases |order| - lo
  {
    var tail := set i | lo <= i < |order| :: order[i];
    if lo < |order| {
      TailSize(order, lo + 1);
      assert tail == {order[lo]} + set i | lo + 1 <= i < |order| :: order[i];
    } else {
      assert tail == {};
    }
  }

  /** A score is kept iff fewer than `cut` beat it. */
  lemma KthLargestCuts(row: seq<Score>, cut: nat, c: nat)
    requires 1 <= cut <= |row| && c < |row|
    ensures row[c] >= KthLargest(row, cut) ==> |Above(row, row[c])| < cut
    ensures row[c] < KthLargest(row, cut) ==> |Above(row, row[c])| >= cut && cut < |row|
  {
    var less := (a: Score, b: Score) => a < b;
    Sorting.ArgsortSorts(row, less);
    var order := Sorting.Argsort(row, less);
    var at := |row| - cut;
    var kth := row[order[at]];
    assert kth == KthLargest(row, cut);
    forall i, j | 0 <= i < j < |order| ensures row[order[i]] <= row[order[j]] && order[i] != order[j] {
      assert Sorting.Earlier(row, less, order[i], order[j]);
    }
    TailSize(order, at);
    TailSize(order, at + 1);
    if row[c] >= kth {
      forall x | x in Above(row, row[c]) ensures x in set i | at + 1 <= i < |order| :: order[i] {
        assert x in order;
        var i :| 0 <= i < |order| && order[i] == x;
      }
      SubsetSize(Above(row, row[c]), set i | at + 1 <= i < |order| :: order[i]);
    } else {
      SubsetSize(set i | at <= i < |order| :: order[i], Above(row, row[c]));
      assert c in order;
      var i :| 0 <= i < |order| && order[i] == c;
      assert i < at;
    }
  }

  /** One row of `_update`'s selection: the columns passed on to the merge. */
  function Selected(row: seq<Score>, segments: seq<seq<Score>>, width: nat, t: Score, k: nat): seq<nat>
    requires row != [] && k >= 1 && width >= 1 && Uniform(segments, width)
  {
    if t == FLOOR then FirstSightHits(row, k) else SegmentHits(segments, width, t, 0)
  }

  /** The row of scores and the entries it stands for: column `c` is position `start + c`, and the
      columns that are padding or the row itself hold -inf. */
  ghost predicate RowHolds(row: seq<Score>, start: nat, incoming: set<Entry>) {
    && (forall c: nat :: c < |row| ==> row[c] == NEG_INF || (row[c] >= FLOOR && Entry(row[c], start + c) in incoming))
    && (forall e :: e in incoming ==> start <= e.pos < start + |row| && row[e.pos - start] == e.score >= FLOOR)
  }

  lemma {:induction false} EntryCount(row: seq<Score>, start: nat, columns: set<nat>)
    requires forall c :: c in columns ==> c < |row|
    ensures |set c | c in columns :: Entry(row[c], start + c)| == |columns|
    decreases columns
  {
    var entries := set c | c in columns :: Entry(row[c], start + c);
    if columns == {} {
      assert entries == {};
    } else {
      var d :| d in columns;
      EntryCount(row, start, columns - {d});
      assert entries == (set c | c in columns - {d} :: Entry(row[c], start + c)) + {Entry(row[d], start + d)};
    }
  }

  lemma AboveSize(row: seq<Score>, start: nat, incoming: set<Entry>, t: Score)
    requires RowHolds(row, start, incoming) && t >= FLOOR
    ensures |Above(row, t)| == |set x | x in incoming && x.score > t|
  {
    EntryCount(row, start, Above(row, t));
    var entries := set c | c in Above(row, t) :: Entry(row[c], start + c);
    forall x | x in incoming && x.score > t ensures x in entries {
      assert x.pos - start in Above(row, t);
    }
    assert entries == set x | x in incoming && x.score > t;
  }

  lemma FirstSightIsAdmit(row: seq<Score>, start: nat, incoming: set<Entry>, k: nat, c: nat)
    requires row != [] && k >= 1 && RowHolds(row, start, incoming)
    ensures c in FirstSightHits(row, k) <==> c < |row| && Entry(row[c], start + c) in Admit(incoming, FLOOR, k)
  {
    var cut := if k < |row| then k else |row|;
    var kth := KthLargest(row, cut);
    HitsMember(row, if kth < FLOOR then FLOOR else kth, 0, c);
    if c < |row| {
      KthLargestCuts(row, cut, c);
      if row[c] >= FLOOR {
        AboveSize(row, start, incoming, row[c]);
      }
    }
  }

  lemma SegmentPassIsAdmit(row: seq<Score>, start: nat, incoming: set<Entry>, t: Score, k: nat, width: nat, m: nat, c: nat)
    requires width >= 1 && |row| == Times(m, width)
    requires RowHolds(row, start, incoming) && t > FLOOR
    ensures c in SegmentHits(Segments(row, width, m), width, t, 0) <==> c < |row| && Entry(row[c], start + c) in Admit(incoming, t, k)
  {
    HitsMember(row, t, 0, c);
    SegmentHitsAreHits(row, width, m, t);
  }

  /** Selection, in either view, passes on exactly the admitted entries. */
  lemma SelectedIsAdmit(row: seq<Score>, start: nat, incoming: set<Entry>, t: Score, k: nat, width: nat, m: nat, c: nat)
    requires row != [] && k >= 1 && width >= 1 && |row| == Times(m, width)
    requires RowHolds(row, start, incoming) && t >= FLOOR
    ensures c in Selected(row, Segments(row, width, m), width, t, k) <==> c < |row| && Entry(row[c], start + c) in Admit(incoming, t, k)
  {
    if t == FLOOR {
      FirstSightIsAdmit(row, start, incoming, k, c);
    } else {
      SegmentPassIsAdmit(row, start, incoming, t, k, width, m, c);
    }
  }

  // ---- The block of scores of a task ----

  function Cell(p: Problem, i: nat, j: nat, r: nat, c: nat): Score {
    if r >= p.Rows(i) || c >= p.Rows(j) || (i == j && r == c) then NEG_INF
    else p.score(p.Start(i) + r, p.Start(j) + c)
  }

  /** `left @ right.T` with padding rows and columns, and the diagonal of a diagonal block, at -inf. */
  function ScoreBlock(p: Problem, i: nat, j: nat): seq<seq<Score>> {
    seq(p.Padded(i), r requires 0 <= r < p.Padded(i) => seq(p.Padded(j), c requires 0 <= c < p.Padded(j) => Cell(p, i, j, r, c)))
  }

  /** Column `c` of the block as the transposed view reads it: `scores.reshape(m, width, cols)` groups
      the rows, and `transpose(2, 0, 1)` puts the column first. */
  function ColumnView(scores: seq<seq<Score>>, c: nat, width: nat, m: nat): seq<seq<Score>>
    requires width >= 1 && |scores| == Times(m, width) && forall r :: 0 <= r < |scores| ==> c < |scores[r]|
  {
    seq(m, g requires 0 <= g < m => seq(width, o requires 0 <= o < width =>
      assert Times(g, width) + o < |scores| by { GroupRow(width, m, g, o); }
      scores[Times(g, width) + o][c]))
  }

  function Column(scores: seq<seq<Score>>, c: nat): seq<Score>
    requires forall r :: 0 <= r < |scores| ==> c < |scores[r]|
  {
    seq(|scores|, r requires 0 <= r < |scores| => scores[r][c])
  }

  /** The transposed view of a column is the reshape of that column. */
  lemma ColumnViewIsSegments(scores: seq<seq<Score>>, c: nat, width: nat, m: nat)
    requires width >= 1 && |scores| == Times(m, width) && forall r :: 0 <= r < |scores| ==> c < |scores[r]|
    ensures ColumnView(scores, c, width, m) == Segments(Column(scores, c), width, m)
  {
    var view, segments := ColumnView(scores, c, width, m), Segments(Column(scores, c), width, m);
    forall g | 0 <= g < m ensures view[g] == segments[g] {
      forall o | 0 <= o < width ensures view[g][o] == segments[g][o] {
        GroupRow(width, m, g, o);
        SegmentAt(Column(scores, c), width, m, g, o);
      }
    }
  }

  lemma PaddedRows(p: Problem, b: nat)
    ensures p.Rows(b) <= p.Padded(b)
  {
  }

  lemma CellHolds(p: Problem, i: nat, j: nat, r: nat, c: nat)
    requires p.Valid() && r < p.Rows(i) && p.Start(i) + r < p.n
    ensures var s := Cell(p, i, j, r, c);
      s == NEG_INF || (s >= FLOOR && Entry(s, p.Start(j) + c) in p.Entries(p.Start(i) + r, {j}))
  {
    p.RowInBlock(p.Start(i) + r, i);
    p.RowInBlock(p.Start(j) + c, j);
    p.RowInBlock(p.Start(i) + r, j);
  }

  lemma EntryInRow(p: Problem, i: nat, j: nat, r: nat, e: Entry)
    requires p.Valid() && r < p.Rows(i) && p.Start(i) + r < p.n
    requires e in p.Entries(p.Start(i) + r, {j})
    ensures p.Start(j) <= e.pos < p.Start(j) + p.Rows(j) <= p.Start(j) + p.Padded(j)
    ensures Cell(p, i, j, r, e.pos - p.Start(j)) == e.score >= FLOOR
  {
    PaddedRows(p, j);
    p.RowInBlock(e.pos, j);
    p.RowInBlock(p.Start(i) + r, i);
  }

  lemma CellsHold(p: Problem, i: nat, j: nat, r: nat, row: seq<Score>)
    requires p.Valid() && r < p.Rows(i) && p.Start(i) + r < p.n
    requires |row| == p.Padded(j) && forall c :: 0 <= c < |row| ==> row[c] == Cell(p, i, j, r, c)
    ensures RowHolds(row, p.Start(j), p.Entries(p.Start(i) + r, {j}))
  {
    forall c | 0 <= c < |row| {
      CellHolds(p, i, j, r, c);
    }
    forall e | e in p.Entries(p.Start(i) + r, {j}) {
      EntryInRow(p, i, j, r, e);
    }
  }

  /** A row of a task's block holds the row's entries from the task's column block. */
  lemma RowOfBlock(p: Problem, i: nat, j: nat, r: nat)
    requires p.Valid() && r < p.Rows(i)
    ensures r < p.Padded(i) && p.Start(i) + r < p.n
    ensures RowHolds(ScoreBlock(p, i, j)[r], p.Start(j), p.Entries(p.Start(i) + r, {j}))
  {
    PaddedRows(p, i);
    p.RowInBlock(p.Start(i) + r, i);
    CellsHold(p, i, j, r, ScoreBlock(p, i, j)[r]);
  }

  /** A column of a task's block, read as a row by symmetry, holds the column's entries from the task's
      row block. */
  lemma ColumnOfBlock(p: Problem, i: nat, j: nat, c: nat)
    requires p.Valid() && c < p.Rows(j) && i != j
    ensures c < p.Padded(j) && p.Start(j) + c < p.n
    ensures RowHolds(Column(ScoreBlock(p, i, j), c), p.Start(i), p.Entries(p.Start(j) + c, {i}))
  {
    RowOfBlock(p, j, i, c);
    var column, row := Column(ScoreBlock(p, i, j), c), ScoreBlock(p, j, i)[c];
    forall r | 0 <= r < |row| ensures column[r] == row[r] {
      assert column[r] == Cell(p, i, j, r, c) && row[r] == Cell(p, j, i, c, r);
      p.RowInBlock(p.Start(i) + r, i);
    }
    assert column == row;
  }

  lemma WholeSegments(p: Problem, b: nat)
    requires p.Rows(b) > 0
    ensures p.Padded(b) == Times(p.SegmentCount(b), SEGMENT) == Times(4 * p.SegmentCount(b), COLUMN_SEGMENT) > 0
  {
    TimesIsProduct(p.SegmentCount(b), SEGMENT);
    TimesIsProduct(4 * p.SegmentCount(b), COLUMN_SEGMENT);
  }

  /** The selection of a row passes on exactly its admitted entries. */
  ghost predicate SelectsAdmitted(row: seq<Score>, segments: seq<seq<Score>>, width: nat, start: nat, incoming: set<Entry>, t: Score, k: nat) {
    && row != [] && k >= 1 && width >= 1 && Uniform(segments, width)
    && forall c: nat :: c in Selected(row, segments, width, t, k) <==> c < |row| && Entry(row[c], start + c) in Admit(incoming, t, k)
  }

  lemma AdmittedSelected(row: seq<Score>, start: nat, incoming: set<Entry>, t: Score, k: nat, width: nat, m: nat)
    requires row != [] && k >= 1 && width >= 1 && |row| == Times(m, width)
    requires RowHolds(row, start, incoming) && t >= FLOOR
    ensures SelectsAdmitted(row, Segments(row, width, m), width, start, incoming, t, k)
  {
    forall c: nat ensures c in Selected(row, Segments(row, width, m), width, t, k) <==> c < |row| && Entry(row[c], start + c) in Admit(incoming, t, k) {
      SelectedIsAdmit(row, start, incoming, t, k, width, m, c);
    }
  }

  lemma BlockShape(p: Problem, i: nat, j: nat)
    ensures |ScoreBlock(p, i, j)| == p.Padded(i)
    ensures forall r :: 0 <= r < |ScoreBlock(p, i, j)| ==> |ScoreBlock(p, i, j)[r]| == p.Padded(j)
  {
  }

  /** The row update of task (i, j): the segments are the block's rows cut into runs of 64. Its
      candidates are exactly the admitted entries. */
  lemma RowUpdateSelects(p: Problem, i: nat, j: nat, r: nat, t: Score)
    requires p.Valid() && r < p.Rows(i) && p.Rows(j) > 0 && t >= FLOOR
    ensures var scores, m := ScoreBlock(p, i, j), p.SegmentCount(j);
      && r < |scores| && |scores[r]| == Times(m, SEGMENT)
      && SelectsAdmitted(scores[r], Segments(scores[r], SEGMENT, m), SEGMENT, p.Start(j), p.Entries(p.Start(i) + r, {j}), t, p.k)
  {
    BlockShape(p, i, j);
    WholeSegments(p, j);
    RowOfBlock(p, i, j, r);
    AdmittedSelected(ScoreBlock(p, i, j)[r], p.Start(j), p.Entries(p.Start(i) + r, {j}), t, p.k, SEGMENT, p.SegmentCount(j));
  }

  lemma ColumnSelects(scores: seq<seq<Score>>, c: nat, start: nat, incoming: set<Entry>, t: Score, k: nat, m: nat)
    requires |scores| == Times(m, COLUMN_SEGMENT) > 0 && forall q :: 0 <= q < |scores| ==> c < |scores[q]|
    requires k >= 1 && t >= FLOOR && RowHolds(Column(scores, c), start, incoming)
    ensures SelectsAdmitted(Column(scores, c), ColumnView(scores, c, COLUMN_SEGMENT, m), COLUMN_SEGMENT, start, incoming, t, k)
  {
    ColumnViewIsSegments(scores, c, COLUMN_SEGMENT, m);
    AdmittedSelected(Column(scores, c), start, incoming, t, k, COLUMN_SEGMENT, m);
  }

  /** The column update of task (i, j), through the transposed view in runs of 16. */
  lemma ColumnUpdateSelects(p: Problem, i: nat, j: nat, c: nat, t: Score)
    requires p.Valid() && c < p.Rows(j) && p.Rows(i) > 0 && i != j && t >= FLOOR
    ensures var scores, m := ScoreBlock(p, i, j), 4 * p.SegmentCount(i);
      && |scores| == Times(m, COLUMN_SEGMENT) && (forall q :: 0 <= q < |scores| ==> c < |scores[q]|)
      && SelectsAdmitted(Column(scores, c), ColumnView(scores, c, COLUMN_SEGMENT, m), COLUMN_SEGMENT, p.Start(i), p.Entries(p.Start(j) + c, {i}), t, p.k)
  {
    BlockShape(p, i, j);
    WholeSegments(p, i);
    ColumnOfBlock(p, i, j, c);
    ColumnSelects(ScoreBlock(p, i, j), c, p.Start(i), p.Entries(p.Start(j) + c, {i}), t, p.k, 4 * p.SegmentCount(i));
  }
}
