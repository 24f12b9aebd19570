/** `exact_top_k` run task by task over the arrays of `TopKState`: every block of scores is folded into its row
    block's lists and then its column block's, and each finished row block is published in order. */
module SerialTopK {
  import opened Basics
  import opened ExactTopK
  import opened Ranking
  import opened SortedSets
  import opened TopKMerge
  import opened TopKSelect
  import opened TopKUpdate

  // ---- What one update passes on ----

  lemma AscendingFrom(x: nat, rest: seq<nat>)
    requires Ascending(rest) && forall c :: c in rest ==> x < c
    ensures Ascending([x] + rest)
  {
    forall i, j | 0 <= i < j < 1 + |rest| ensures ([x] + rest)[i] < ([x] + rest)[j] {
      assert rest[j - 1] in rest;
    }
  }

  lemma {:induction false} HitsAscend(row: seq<Score>, t: Score, first: nat)
    ensures Ascending(Hits(row, t, first)) && forall c :: c in Hits(row, t, first) ==> first <= c < first + |row|
    decreases |row|
  {
    if row != [] {
      HitsAscend(row[1..], t, first + 1);
      AscendingFrom(first, Hits(row[1..], t, first + 1));
    }
  }

  /** A row's chosen columns come out once each. */
  lemma SelectedAscend(row: seq<Score>, segments: seq<seq<Score>>, width: nat, t: Score, k: nat)
    requires row != [] && k >= 1 && width >= 1 && Uniform(segments, width) && Flatten(segments) == row
    ensures Ascending(Selected(row, segments, width, t, k))
    ensures forall c :: c in Selected(row, segments, width, t, k) ==> c < |row|
  {
    if t == FLOOR {
      var cut := if k < |row| then k else |row|;
      var kth := KthLargest(row, cut);
      HitsAscend(row, if kth < FLOOR then FLOOR else kth, 0);
    } else {
      SegmentHitsFlat(segments, width, t, 0);
      HitsAscend(row, t, 0);
    }
  }

  lemma {:induction false} DistinctMultiset(es: seq<Entry>, s: set<Entry>)
    requires Distinct(es) && forall e :: e in es <==> e in s
    ensures multiset(es) == multiset(s)
  {
    forall e ensures multiset(es)[e] == multiset(s)[e] {
      OnceOnly(es, e);
      assert e in es <==> e in multiset(es);
    }
  }

  predicate ListedAt(row: seq<Score>, start: nat, cols: seq<nat>, e: Entry) {
    start <= e.pos && e.pos - start in cols && EntryAt(row, start, e.pos - start) == e
  }

  lemma SameMembers(es: seq<Entry>, s: set<Entry>)
    requires (forall i :: 0 <= i < |es| ==> es[i] in s) && forall e :: e in s ==> e in es
    ensures forall e :: e in es <==> e in s
  {
  }

  lemma ColumnListed(row: seq<Score>, start: nat, cols: seq<nat>, c: nat)
    requires c in cols
    ensures EntryAt(row, start, c) in EntriesAt(row, start, cols)
  {
    var i :| 0 <= i < |cols| && cols[i] == c;
    assert EntriesAt(row, start, cols)[i] == EntryAt(row, start, c);
  }

  lemma ColumnsDistinct(row: seq<Score>, start: nat, cols: seq<nat>)
    requires Ascending(cols)
    ensures Distinct(EntriesAt(row, start, cols))
  {
    var es := EntriesAt(row, start, cols);
    forall i, j | 0 <= i < j < |es| ensures es[i] != es[j] {
      assert es[i].pos == start + cols[i] && es[j].pos == start + cols[j];
    }
  }

  /** The entries of ascending columns are the given set, each once. */
  lemma EntriesAre(row: seq<Score>, start: nat, cols: seq<nat>, s: set<Entry>)
    requires Ascending(cols) && forall c :: c in cols ==> EntryAt(row, start, c) in s
    requires forall e :: e in s ==> ListedAt(row, start, cols, e)
    ensures multiset(EntriesAt(row, start, cols)) == multiset(s)
  {
    var es := EntriesAt(row, start, cols);
    forall e | e in s ensures e in es {
      assert ListedAt(row, start, cols, e);
      ColumnListed(row, start, cols, e.pos - start);
    }
    forall i | 0 <= i < |es| ensures es[i] in s {
      assert cols[i] in cols;
    }
    ColumnsDistinct(row, start, cols);
    SameMembers(es, s);
    DistinctMultiset(es, s);
  }

  /** The columns are exactly those whose entry is admitted. */
  ghost predicate PassesExactly(row: seq<Score>, start: nat, cols: seq<nat>, admitted: set<Entry>) {
    forall c: nat :: c in cols <==> c < |row| && EntryAt(row, start, c) in admitted
  }

  /** Ascending columns that are exactly the admitted ones pass on exactly the admitted entries, each once. */
  lemma RowPasses(row: seq<Score>, start: nat, incoming: set<Entry>, cols: seq<nat>, admitted: set<Entry>)
    requires Ascending(cols) && PassesExactly(row, start, cols, admitted)
    requires RowHolds(row, start, incoming) && admitted <= incoming
    ensures multiset(EntriesAt(row, start, cols)) == multiset(admitted)
  {
    forall e | e in admitted ensures ListedAt(row, start, cols, e) {
      assert e in incoming;
      assert EntryAt(row, start, e.pos - start) == e;
    }
    EntriesAre(row, start, cols, admitted);
  }

  // ---- The two views of a task's block ----

  function RowView(p: Problem, i: nat, j: nat): (v: seq<seq<seq<Score>>>)
    requires p.Padded(j) == Times(p.SegmentCount(j), SEGMENT)
    ensures |v| == p.Padded(i)
  {
    seq(p.Padded(i), r requires 0 <= r < p.Padded(i) => Segments(ScoreBlock(p, i, j)[r], SEGMENT, p.SegmentCount(j)))
  }

  /** `scores.T`. */
  function Transposed(p: Problem, i: nat, j: nat): (s: seq<seq<Score>>)
    ensures |s| == p.Padded(j)
  {
    seq(p.Padded(j), c requires 0 <= c < p.Padded(j) => Column(ScoreBlock(p, i, j), c))
  }

  function TransposedView(p: Problem, i: nat, j: nat): (v: seq<seq<seq<Score>>>)
    requires p.Padded(i) == Times(4 * p.SegmentCount(i), COLUMN_SEGMENT)
    ensures |v| == p.Padded(j)
  {
    seq(p.Padded(j), c requires 0 <= c < p.Padded(j) => ColumnView(ScoreBlock(p, i, j), c, COLUMN_SEGMENT, 4 * p.SegmentCount(i)))
  }

  lemma CellBelow(p: Problem, i: nat, j: nat, r: nat, c: nat)
    requires p.Valid()
    ensures Cell(p, i, j, r, c) < POS_INF
  {
    if r < p.Rows(i) && c < p.Rows(j) {
      p.RowInBlock(p.Start(i) + r, i);
      p.RowInBlock(p.Start(j) + c, j);
    }
  }

  lemma RowViewIsView(p: Problem, i: nat, j: nat)
    requires p.Valid() && p.Rows(j) > 0
    ensures p.Padded(j) == Times(p.SegmentCount(j), SEGMENT) && IsView(View(ScoreBlock(p, i, j), RowView(p, i, j), SEGMENT))
  {
    WholeSegments(p, j);
    var scores := ScoreBlock(p, i, j);
    forall r | 0 <= r < |scores| ensures Flatten(RowView(p, i, j)[r]) == scores[r] {
      FlattenSegments(scores[r], SEGMENT, p.SegmentCount(j));
    }
    forall r, c | 0 <= r < |scores| && 0 <= c < |scores[r]| ensures scores[r][c] < POS_INF {
      CellBelow(p, i, j, r, c);
    }
  }

  lemma TransposedIsView(p: Problem, i: nat, j: nat)
    requires p.Valid() && p.Rows(i) > 0
    ensures p.Padded(i) == Times(4 * p.SegmentCount(i), COLUMN_SEGMENT)
    ensures IsView(View(Transposed(p, i, j), TransposedView(p, i, j), COLUMN_SEGMENT))
  {
    WholeSegments(p, i);
    var scores, view := Transposed(p, i, j), TransposedView(p, i, j);
    forall c | 0 <= c < |scores| ensures Uniform(view[c], COLUMN_SEGMENT) && Flatten(view[c]) == scores[c] && scores[c] != [] {
      ColumnViewIsSegments(ScoreBlock(p, i, j), c, COLUMN_SEGMENT, 4 * p.SegmentCount(i));
      FlattenSegments(Column(ScoreBlock(p, i, j), c), COLUMN_SEGMENT, 4 * p.SegmentCount(i));
    }
    forall c, r | 0 <= c < |scores| && 0 <= r < |scores[c]| ensures scores[c][r] < POS_INF {
      CellBelow(p, i, j, r, c);
    }
  }

  /** Task (i, j)'s block as its row update reads it. */
  function RowBlock(p: Problem, i: nat, j: nat): (v: BlockView)
    requires p.Valid() && p.Rows(j) > 0
    ensures |v.scores| == p.Padded(i)
  {
    RowViewIsView(p, i, j);
    View(ScoreBlock(p, i, j), RowView(p, i, j), SEGMENT)
  }

  /** The block as its column update reads it. */
  function ColumnBlock(p: Problem, i: nat, j: nat): (v: BlockView)
    requires p.Valid() && p.Rows(i) > 0
    ensures |v.scores| == p.Padded(j)
  {
    TransposedIsView(p, i, j);
    View(Transposed(p, i, j), TransposedView(p, i, j), COLUMN_SEGMENT)
  }

  lemma RowChosen(p: Problem, i: nat, j: nat, r: nat, t: Score, row: seq<Score>, view: seq<seq<Score>>)
    requires p.Valid() && r < p.Rows(i) && p.Rows(j) > 0 && t >= FLOOR
    requires r < p.Padded(i) && p.Padded(j) == Times(p.SegmentCount(j), SEGMENT)
    requires row == ScoreBlock(p, i, j)[r] && view == Segments(row, SEGMENT, p.SegmentCount(j)) && row != []
    ensures PassesExactly(row, p.Start(j), Selected(row, view, SEGMENT, t, p.k), Admit(p.Entries(p.Start(i) + r, {j}), t, p.k))
  {
    var cols, admitted := Selected(row, view, SEGMENT, t, p.k), Admit(p.Entries(p.Start(i) + r, {j}), t, p.k);
    RowUpdateSelects(p, i, j, r, t);
    forall c: nat ensures c in cols <==> c < |row| && EntryAt(row, p.Start(j), c) in admitted {
    }
  }

  /** In the row view of task (i, j), local row r passes on its admitted entries from block j. */
  lemma RowViewPasses(p: Problem, i: nat, j: nat, r: nat, t: Score)
    requires p.Valid() && r < p.Rows(i) && p.Rows(j) > 0 && t >= FLOOR && r < p.Padded(i)
    ensures var v := RowBlock(p, i, j);
      multiset(EntriesAt(v.scores[r], p.Start(j), Chosen(v, r, t, p.k))) == multiset(Admit(p.Entries(p.Start(i) + r, {j}), t, p.k))
  {
    var v := RowBlock(p, i, j);
    var row, view := v.scores[r], v.segments[r];
    RowOfBlock(p, i, j, r);
    SelectedAscend(row, view, SEGMENT, t, p.k);
    WholeSegments(p, j);
    RowChosen(p, i, j, r, t, row, view);
    RowPasses(row, p.Start(j), p.Entries(p.Start(i) + r, {j}), Selected(row, view, SEGMENT, t, p.k), Admit(p.Entries(p.Start(i) + r, {j}), t, p.k));
  }

  lemma ColumnChosen(p: Problem, i: nat, j: nat, c: nat, t: Score, row: seq<Score>, view: seq<seq<Score>>)
    requires p.Valid() && c < p.Rows(j) && p.Rows(i) > 0 && i != j && t >= FLOOR
    requires c < p.Padded(j) && p.Padded(i) == Times(4 * p.SegmentCount(i), COLUMN_SEGMENT)
    requires row == Column(ScoreBlock(p, i, j), c) && view == ColumnView(ScoreBlock(p, i, j), c, COLUMN_SEGMENT, 4 * p.SegmentCount(i))
    requires row != [] && Uniform(view, COLUMN_SEGMENT)
    ensures PassesExactly(row, p.Start(i), Selected(row, view, COLUMN_SEGMENT, t, p.k), Admit(p.Entries(p.Start(j) + c, {i}), t, p.k))
  {
    var cols, admitted := Selected(row, view, COLUMN_SEGMENT, t, p.k), Admit(p.Entries(p.Start(j) + c, {i}), t, p.k);
    ColumnUpdateSelects(p, i, j, c, t);
    forall r: nat ensures r in cols <==> r < |row| && EntryAt(row, p.Start(i), r) in admitted {
    }
  }

  /** In the transposed view, local column c passes on its admitted entries from block i. */
  lemma TransposedPasses(p: Problem, i: nat, j: nat, c: nat, t: Score)
    requires p.Valid() && c < p.Rows(j) && p.Rows(i) > 0 && i != j && t >= FLOOR && c < p.Padded(j)
    ensures var v := ColumnBlock(p, i, j);
      multiset(EntriesAt(v.scores[c], p.Start(i), Chosen(v, c, t, p.k))) == multiset(Admit(p.Entries(p.Start(j) + c, {i}), t, p.k))
  {
    var v := ColumnBlock(p, i, j);
    var row, view := v.scores[c], v.segments[c];
    ColumnOfBlock(p, i, j, c);
    SelectedAscend(row, view, COLUMN_SEGMENT, t, p.k);
    WholeSegments(p, i);
    ColumnChosen(p, i, j, c, t, row, view);
    RowPasses(row, p.Start(i), p.Entries(p.Start(j) + c, {i}), Selected(row, view, COLUMN_SEGMENT, t, p.k), Admit(p.Entries(p.Start(j) + c, {i}), t, p.k));
  }

  // ---- One update keeps the lists exact ----

  /** A row is left alone if it is given no entries, else merged with them in some order. */
  ghost predicate GivenSet(merged: (nat, seq<Entry>) -> bool, kept: nat -> bool, q: nat, s: set<Entry>) {
    if s == {} then kept(q) else exists flat :: multiset(flat) == multiset(s) && merged(q, flat)
  }

  lemma GivenAsSet(merged: (nat, seq<Entry>) -> bool, kept: nat -> bool, q: nat, entries: seq<Entry>, s: set<Entry>)
    requires GivenEntries(merged, kept, q, entries) && multiset(entries) == multiset(s)
    ensures GivenSet(merged, kept, q, s)
  {
    if entries == [] {
      assert |multiset(s)| == 0;
    } else {
      assert entries[0] in multiset(s);
    }
  }

  /** A row given its admitted entries from a block not seen before is exact for one block more. */
  lemma RowFolded(p: Problem, r: nat, was: seq<seq<Entry>>, wasThresholds: seq<Score>, folded: set<nat>, source: nat,
                  now: seq<seq<Entry>>, nowThresholds: seq<Score>)
    requires p.Valid() && r < p.n == |was| == |wasThresholds| == |now| == |nowThresholds|
    requires ListInv(p, r, was[r], wasThresholds[r], folded) && source !in folded
    requires GivenSet(MergedHere(was, now, nowThresholds), KeptHere(was, wasThresholds, now, nowThresholds), r,
                      Admit(p.Entries(r, {source}), wasThresholds[r], p.k))
    ensures ListInv(p, r, now[r], nowThresholds[r], folded + {source})
  {
    var t := wasThresholds[r];
    var added := Admit(p.Entries(r, {source}), t, p.k);
    ListJustified(p, r, was[r], t, folded);
    if added == {} {
      assert KeptHere(was, wasThresholds, now, nowThresholds)(r);
      NothingToGain(p, r, folded, source, t);
    } else {
      var flat :| multiset(flat) == multiset(added) && MergedHere(was, now, nowThresholds)(r, flat);
      assert MergedTo(was[r], flat, now[r], nowThresholds[r]);
      assert MergeOf(was[r], added, now[r]);
      MergedIsTop(p, r, was[r], t, folded, source, t, now[r]);
    }
  }

  // ---- The schedule ----

  /** In the phase of block i, once its tasks up to j are done, row r has seen block c. */
  predicate SeenNow(p: Problem, i: nat, j: nat, r: nat, c: nat)
    requires p.block >= 1
  {
    Earlier(p, r, i, c) || (p.BlockOf(r) == i && i <= c < j) || (i < p.BlockOf(r) < j && c == i)
  }

  /** The blocks row r has seen in the phase of block i once its tasks up to j are done. */
  function Seen(p: Problem, i: nat, j: nat, r: nat): set<nat>
    requires p.block >= 1
  {
    set c: nat | c < p.Blocks() && SeenNow(p, i, j, r, c)
  }

  /** The same between a task's row update and its column update. */
  function SeenHalf(p: Problem, i: nat, j: nat, r: nat): set<nat>
    requires p.block >= 1
  {
    if p.BlockOf(r) == i then Seen(p, i, j, r) + {j} else Seen(p, i, j, r)
  }

  lemma RowHalf(p: Problem, i: nat, j: nat, r: nat)
    requires p.Valid() && i <= j < p.Blocks()
    ensures p.BlockOf(r) == i ==> j !in Seen(p, i, j, r)
    ensures p.BlockOf(r) == j && i != j ==> i !in SeenHalf(p, i, j, r)
    ensures i == j ==> Seen(p, i, j + 1, r) == SeenHalf(p, i, j, r)
    ensures i != j ==> Seen(p, i, j + 1, r) == (if p.BlockOf(r) == j then SeenHalf(p, i, j, r) + {i} else SeenHalf(p, i, j, r))
  {
    forall c: nat ensures c in Seen(p, i, j + 1, r) <==>
      c in Seen(p, i, j, r) || (p.BlockOf(r) == i && c == j) || (p.BlockOf(r) == j && i < j && c == i) {
      assert c in Seen(p, i, j + 1, r) <==> c < p.Blocks() && SeenNow(p, i, j + 1, r, c);
      assert c in Seen(p, i, j, r) <==> c < p.Blocks() && SeenNow(p, i, j, r, c);
    }
  }

  lemma PhaseBegins(p: Problem, i: nat, r: nat)
    requires p.Valid()
    ensures Seen(p, i, i, r) == SeenBefore(p, r, i)
  {
    forall c: nat | c < p.Blocks() ensures SeenNow(p, i, i, r, c) <==> Earlier(p, r, i, c) {
    }
  }

  lemma PhaseEnds(p: Problem, i: nat, r: nat)
    requires p.Valid() && i < p.Blocks() && r < p.n
    ensures Seen(p, i, p.Blocks(), r) == SeenBefore(p, r, i + 1)
  {
    BlockInRange(p, r);
    forall c: nat | c < p.Blocks() ensures SeenNow(p, i, p.Blocks(), r, c) <==> Earlier(p, r, i + 1, c) {
    }
  }

  // ---- The run ----

  /** Every row's list is the best k of the blocks it has seen in phase i before task j, and its threshold goes
      with it. */
  ghost predicate ExactSeen(p: Problem, lists: seq<seq<Entry>>, thresholds: seq<Score>, i: nat, j: nat)
    requires p.block >= 1
  {
    |lists| == |thresholds| == p.n && forall r: nat :: r < p.n ==> ListInv(p, r, lists[r], thresholds[r], Seen(p, i, j, r))
  }

  ghost predicate ExactHalf(p: Problem, lists: seq<seq<Entry>>, thresholds: seq<Score>, i: nat, j: nat)
    requires p.block >= 1
  {
    |lists| == |thresholds| == p.n && forall r: nat :: r < p.n ==> ListInv(p, r, lists[r], thresholds[r], SeenHalf(p, i, j, r))
  }

  lemma OtherRow(p: Problem, b: nat, r: nat)
    requires p.Valid() && r < p.n && p.BlockOf(r) != b
    ensures !(p.Start(b) <= r < p.Start(b) + p.Rows(b))
  {
    p.RowInBlock(r, b);
  }

  /** Every row of block b is given its admitted entries from block `source`, every other row is kept. */
  ghost predicate BlockGiven(p: Problem, b: nat, source: nat, read: seq<Score>, merged: (nat, seq<Entry>) -> bool, kept: nat -> bool)
    requires p.Valid()
  {
    && |read| == p.Rows(b)
    && (forall x: nat :: x < |read| ==> GivenSet(merged, kept, p.Start(b) + x, Admit(p.Entries(p.Start(b) + x, {source}), read[x], p.k)))
    && (forall q: nat :: q < p.n && !(p.Start(b) <= q < p.Start(b) + p.Rows(b)) ==> kept(q))
  }

  lemma RowsGiven(p: Problem, i: nat, j: nat, read: seq<Score>, merged: (nat, seq<Entry>) -> bool, kept: nat -> bool)
    requires p.Valid() && |read| == p.Rows(i) <= p.Padded(i) && p.Rows(j) > 0 && forall x :: 0 <= x < |read| ==> read[x] >= FLOOR
    requires ChosenGiven(merged, kept, read, RowBlock(p, i, j), p.Start(i), p.Start(j), p.k, p.n)
    ensures BlockGiven(p, i, j, read, merged, kept)
  {
    forall x: nat | x < |read|
      ensures GivenSet(merged, kept, p.Start(i) + x, Admit(p.Entries(p.Start(i) + x, {j}), read[x], p.k))
    {
      RowViewPasses(p, i, j, x, read[x]);
      GivenAsSet(merged, kept, p.Start(i) + x, ChosenEntries(RowBlock(p, i, j), read, p.Start(j), p.k, x),
                 Admit(p.Entries(p.Start(i) + x, {j}), read[x], p.k));
    }
  }

  lemma ColumnsGiven(p: Problem, i: nat, j: nat, read: seq<Score>, merged: (nat, seq<Entry>) -> bool, kept: nat -> bool)
    requires p.Valid() && |read| == p.Rows(j) <= p.Padded(j) && p.Rows(i) > 0 && i != j && forall x :: 0 <= x < |read| ==> read[x] >= FLOOR
    requires ChosenGiven(merged, kept, read, ColumnBlock(p, i, j), p.Start(j), p.Start(i), p.k, p.n)
    ensures BlockGiven(p, j, i, read, merged, kept)
  {
    forall x: nat | x < |read|
      ensures GivenSet(merged, kept, p.Start(j) + x, Admit(p.Entries(p.Start(j) + x, {i}), read[x], p.k))
    {
      TransposedPasses(p, i, j, x, read[x]);
      GivenAsSet(merged, kept, p.Start(j) + x, ChosenEntries(ColumnBlock(p, i, j), read, p.Start(i), p.k, x),
                 Admit(p.Entries(p.Start(j) + x, {i}), read[x], p.k));
    }
  }

  // ---- What the loops do, as a relation between snapshots of the arrays ----

  datatype Snapshot = Snapshot(lists: seq<seq<Entry>>, thresholds: seq<Score>)

  predicate Sized(p: Problem, s: Snapshot) {
    |s.lists| == |s.thresholds| == p.n
  }

  predicate AboveFloor(s: Snapshot) {
    forall r :: 0 <= r < |s.thresholds| ==> s.thresholds[r] >= FLOOR
  }

  /** The rows from `lo` to `lo + n` were given what they choose from a block, against the thresholds in `s`. */
  ghost predicate Folded(s: Snapshot, t: Snapshot, v: BlockView, lo: nat, n: nat, colStart: nat, k: nat) {
    && k >= 1 && lo + n <= |s.thresholds|
    && BlockFolded(s.lists, s.thresholds, s.thresholds[lo..lo + n], v, lo, colStart, k, t.lists, t.thresholds)
  }

  /** The row update of task (i, j). */
  ghost predicate RowStep(p: Problem, i: nat, j: nat, s: Snapshot, t: Snapshot)
    requires p.Valid()
  {
    Sized(p, s) && p.Rows(j) > 0 && Folded(s, t, RowBlock(p, i, j), p.Start(i), p.Rows(i), p.Start(j), p.k)
  }

  /** The column update of task (i, j). */
  ghost predicate ColumnStep(p: Problem, i: nat, j: nat, s: Snapshot, t: Snapshot)
    requires p.Valid()
  {
    Sized(p, s) && p.Rows(i) > 0 && Folded(s, t, ColumnBlock(p, i, j), p.Start(j), p.Rows(j), p.Start(i), p.k)
  }

  ghost function RowUpdates(p: Problem, i: nat, j: nat): (Snapshot, Snapshot) -> bool {
    (s: Snapshot, t: Snapshot) => p.Valid() && RowStep(p, i, j, s, t)
  }

  ghost function ColumnUpdates(p: Problem, i: nat, j: nat): (Snapshot, Snapshot) -> bool {
    (s: Snapshot, t: Snapshot) => p.Valid() && ColumnStep(p, i, j, s, t)
  }

  /** First `a`, then `b`. */
  ghost predicate Both<T(!new)>(a: (T, T) -> bool, b: (T, T) -> bool, s: T, t: T) {
    exists mid :: a(s, mid) && b(mid, t)
  }

  /** A task: its row update and, off the diagonal, its column update. */
  ghost predicate TaskStep(p: Problem, i: nat, j: nat, s: Snapshot, t: Snapshot)
    requires p.Valid()
  {
    if i == j then RowStep(p, i, j, s, t) else Both(RowUpdates(p, i, j), ColumnUpdates(p, i, j), s, t)
  }

  ghost predicate Link<T(!new)>(step: (nat, T, T) -> bool, i: nat, j: nat, s: T, mid: T, t: T)
    requires i < j
    decreases j - 1, 1
  {
    Chain(step, i, j - 1, s, mid) && step(j - 1, mid, t)
  }

  /** Steps `i` up to `j`, one after another, lead from `s` to `t`. */
  ghost predicate Chain<T(!new)>(step: (nat, T, T) -> bool, i: nat, j: nat, s: T, t: T)
    requires i <= j
    decreases j, 0
  {
    if i == j then t == s else exists mid :: Link(step, i, j, s, mid, t)
  }

  lemma ChainMore<T(!new)>(step: (nat, T, T) -> bool, i: nat, j: nat, s: T, mid: T, t: T)
    requires i <= j && Chain(step, i, j, s, mid) && step(j, mid, t)
    ensures Chain(step, i, j + 1, s, t)
  {
    assert Link(step, i, j + 1, s, mid, t);
  }

  /** What every step carries forward holds at the end of a chain. */
  lemma {:induction false} ChainKeeps<T(!new)>(step: (nat, T, T) -> bool, inv: (nat, T) -> bool, i: nat, j: nat, s: T, t: T)
    requires i <= j && Chain(step, i, j, s, t) && inv(i, s)
    requires forall n: nat, a, b :: i <= n < j && inv(n, a) && step(n, a, b) ==> inv(n + 1, b)
    ensures inv(j, t)
    decreases j
  {
    if i < j {
      var mid :| Link(step, i, j, s, mid, t);
      ChainKeeps(step, inv, i, j - 1, s, mid);
    }
  }

  ghost function Tasks(p: Problem, i: nat): (nat, Snapshot, Snapshot) -> bool {
    (j: nat, s: Snapshot, t: Snapshot) => p.Valid() && TaskStep(p, i, j, s, t)
  }

  /** The tasks of phase i before task j, in order. */
  ghost predicate PhaseSteps(p: Problem, i: nat, j: nat, s: Snapshot, t: Snapshot)
    requires i <= j && p.Valid()
  {
    Chain(Tasks(p, i), i, j, s, t)
  }

  ghost predicate PublishedTo(p: Problem, lo: nat, hi: nat, t: Snapshot, before: map<nat, seq<Entry>>, out: map<nat, seq<Entry>>) {
    && (forall r: nat :: r in out <==> r in before || lo <= r < hi)
    && (forall r: nat :: r in out ==> if lo <= r < hi then r < |t.lists| && out[r] == SortedList(t.lists[r]) else out[r] == before[r])
  }

  /** Block b's rows are published as they stand in `t`, sorted, beside what was published before. */
  ghost predicate PublishStep(p: Problem, b: nat, t: Snapshot, before: map<nat, seq<Entry>>, out: map<nat, seq<Entry>>) {
    PublishedTo(p, p.Start(b), p.Start(b) + p.Rows(b), t, before, out)
  }

  /** The arrays, and what has been published. */
  datatype Published = Published(arrays: Snapshot, published: map<nat, seq<Entry>>)

  /** One phase, published at its end. */
  ghost predicate PhaseStep(p: Problem, i: nat, s: Published, t: Published)
    requires p.Valid()
  {
    i < p.Blocks() && PhaseSteps(p, i, p.Blocks(), s.arrays, t.arrays) && PublishStep(p, i, t.arrays, s.published, t.published)
  }

  ghost function Phases(p: Problem): (nat, Published, Published) -> bool {
    (i: nat, s: Published, t: Published) => p.Valid() && PhaseStep(p, i, s, t)
  }

  /** The phases from `start` before phase i, in order. */
  ghost predicate RunSteps(p: Problem, start: nat, i: nat, s: Published, t: Published)
    requires start <= i
  {
    Chain(Phases(p), start, i, s, t)
  }

  // ---- What the relation gives ----

  /** From `s` to `t`, block b was given its admitted entries from block `source`. */
  ghost predicate GivenStep(p: Problem, b: nat, source: nat, s: Snapshot, t: Snapshot)
    requires p.Valid()
  {
    && |s.lists| == |s.thresholds| == |t.lists| == |t.thresholds| == p.n && p.Start(b) + p.Rows(b) <= p.n
    && BlockGiven(p, b, source, s.thresholds[p.Start(b)..p.Start(b) + p.Rows(b)], MergedHere(s.lists, t.lists, t.thresholds),
                  KeptHere(s.lists, s.thresholds, t.lists, t.thresholds))
  }

  lemma RowStepGives(p: Problem, i: nat, j: nat, s: Snapshot, t: Snapshot)
    requires p.Valid() && i <= j < p.Blocks() && RowStep(p, i, j, s, t) && AboveFloor(s)
    ensures GivenStep(p, i, j, s, t)
  {
    PaddedRows(p, i);
    RowsGiven(p, i, j, s.thresholds[p.Start(i)..p.Start(i) + p.Rows(i)], MergedHere(s.lists, t.lists, t.thresholds),
              KeptHere(s.lists, s.thresholds, t.lists, t.thresholds));
  }

  lemma ColumnStepGives(p: Problem, i: nat, j: nat, s: Snapshot, t: Snapshot)
    requires p.Valid() && i < j < p.Blocks() && ColumnStep(p, i, j, s, t) && AboveFloor(s)
    ensures GivenStep(p, j, i, s, t)
  {
    PaddedRows(p, j);
    ColumnsGiven(p, i, j, s.thresholds[p.Start(j)..p.Start(j) + p.Rows(j)], MergedHere(s.lists, t.lists, t.thresholds),
                 KeptHere(s.lists, s.thresholds, t.lists, t.thresholds));
  }

  lemma GivenOwnSet(p: Problem, b: nat, source: nat, read: seq<Score>, merged: (nat, seq<Entry>) -> bool, kept: nat -> bool, r: nat)
    requires p.Valid() && r < p.n && p.BlockOf(r) == b && BlockGiven(p, b, source, read, merged, kept)
    ensures p.Start(b) <= r < p.Start(b) + |read|
    ensures GivenSet(merged, kept, r, Admit(p.Entries(r, {source}), read[r - p.Start(b)], p.k))
  {
    var local := LocalRow(p, b, r);
    assert GivenSet(merged, kept, p.Start(b) + local, Admit(p.Entries(p.Start(b) + local, {source}), read[local], p.k));
  }

  lemma GivenOwnRead(p: Problem, b: nat, source: nat, thresholds: seq<Score>, merged: (nat, seq<Entry>) -> bool, kept: nat -> bool, r: nat)
    requires p.Valid() && r < p.n == |thresholds| && p.BlockOf(r) == b && p.Start(b) + p.Rows(b) <= p.n
    requires BlockGiven(p, b, source, thresholds[p.Start(b)..p.Start(b) + p.Rows(b)], merged, kept)
    ensures GivenSet(merged, kept, r, Admit(p.Entries(r, {source}), thresholds[r], p.k))
  {
    var read := thresholds[p.Start(b)..p.Start(b) + p.Rows(b)];
    GivenOwnSet(p, b, source, read, merged, kept, r);
    assert read[r - p.Start(b)] == thresholds[r];
  }

  lemma GivenOwnStep(p: Problem, b: nat, source: nat, s: Snapshot, t: Snapshot, r: nat)
    requires p.Valid() && r < p.n && GivenStep(p, b, source, s, t) && p.BlockOf(r) == b
    ensures GivenSet(MergedHere(s.lists, t.lists, t.thresholds), KeptHere(s.lists, s.thresholds, t.lists, t.thresholds), r,
                     Admit(p.Entries(r, {source}), s.thresholds[r], p.k))
  {
    var merged, kept := MergedHere(s.lists, t.lists, t.thresholds), KeptHere(s.lists, s.thresholds, t.lists, t.thresholds);
    GivenOwnRead(p, b, source, s.thresholds, merged, kept, r);
  }

  lemma GivenOwnRow(p: Problem, b: nat, source: nat, s: Snapshot, t: Snapshot, r: nat, seen: set<nat>)
    requires p.Valid() && r < p.n && GivenStep(p, b, source, s, t) && p.BlockOf(r) == b
    requires ListInv(p, r, s.lists[r], s.thresholds[r], seen) && source !in seen
    ensures ListInv(p, r, t.lists[r], t.thresholds[r], seen + {source})
  {
    GivenOwnStep(p, b, source, s, t, r);
    RowFolded(p, r, s.lists, s.thresholds, seen, source, t.lists, t.thresholds);
  }

  lemma GivenOtherRow(p: Problem, b: nat, source: nat, s: Snapshot, t: Snapshot, r: nat)
    requires p.Valid() && r < p.n && GivenStep(p, b, source, s, t) && p.BlockOf(r) != b
    ensures t.lists[r] == s.lists[r] && t.thresholds[r] == s.thresholds[r]
  {
    OtherRow(p, b, r);
    assert KeptHere(s.lists, s.thresholds, t.lists, t.thresholds)(r);
  }

  /** After block `source` was given to block b, a row's list is exact for what it has now seen. */
  lemma GivenRow(p: Problem, b: nat, source: nat, s: Snapshot, t: Snapshot, r: nat, seen: set<nat>)
    requires p.Valid() && r < p.n && GivenStep(p, b, source, s, t)
    requires ListInv(p, r, s.lists[r], s.thresholds[r], seen) && (p.BlockOf(r) == b ==> source !in seen)
    ensures ListInv(p, r, t.lists[r], t.thresholds[r], if p.BlockOf(r) == b then seen + {source} else seen)
  {
    if p.BlockOf(r) == b {
      GivenOwnRow(p, b, source, s, t, r, seen);
    } else {
      GivenOtherRow(p, b, source, s, t, r);
    }
  }

  lemma RowsExact(p: Problem, i: nat, j: nat, s: Snapshot, t: Snapshot)
    requires p.Valid() && i <= j < p.Blocks() && ExactSeen(p, s.lists, s.thresholds, i, j) && GivenStep(p, i, j, s, t)
    ensures ExactHalf(p, t.lists, t.thresholds, i, j)
  {
    forall r: nat | r < p.n ensures ListInv(p, r, t.lists[r], t.thresholds[r], SeenHalf(p, i, j, r)) {
      RowHalf(p, i, j, r);
      GivenRow(p, i, j, s, t, r, Seen(p, i, j, r));
    }
  }

  lemma ColumnsExact(p: Problem, i: nat, j: nat, s: Snapshot, t: Snapshot)
    requires p.Valid() && i < j < p.Blocks() && ExactHalf(p, s.lists, s.thresholds, i, j) && GivenStep(p, j, i, s, t)
    ensures ExactSeen(p, t.lists, t.thresholds, i, j + 1)
  {
    forall r: nat | r < p.n ensures ListInv(p, r, t.lists[r], t.thresholds[r], Seen(p, i, j + 1, r)) {
      RowHalf(p, i, j, r);
      GivenRow(p, j, i, s, t, r, SeenHalf(p, i, j, r));
    }
  }

  lemma SeenAboveFloor(p: Problem, s: Snapshot, i: nat, j: nat)
    requires p.Valid() && ExactSeen(p, s.lists, s.thresholds, i, j)
    ensures AboveFloor(s)
  {
    forall r: nat | r < p.n ensures s.thresholds[r] >= FLOOR {
      ListJustified(p, r, s.lists[r], s.thresholds[r], Seen(p, i, j, r));
    }
  }

  lemma HalfAboveFloor(p: Problem, s: Snapshot, i: nat, j: nat)
    requires p.Valid() && ExactHalf(p, s.lists, s.thresholds, i, j)
    ensures AboveFloor(s)
  {
    forall r: nat | r < p.n ensures s.thresholds[r] >= FLOOR {
      ListJustified(p, r, s.lists[r], s.thresholds[r], SeenHalf(p, i, j, r));
    }
  }

  lemma RowStepExact(p: Problem, i: nat, j: nat, s: Snapshot, t: Snapshot)
    requires p.Valid() && i <= j < p.Blocks() && RowStep(p, i, j, s, t) && ExactSeen(p, s.lists, s.thresholds, i, j)
    ensures ExactHalf(p, t.lists, t.thresholds, i, j)
  {
    SeenAboveFloor(p, s, i, j);
    RowStepGives(p, i, j, s, t);
    RowsExact(p, i, j, s, t);
  }

  lemma ColumnStepExact(p: Problem, i: nat, j: nat, s: Snapshot, t: Snapshot)
    requires p.Valid() && i < j < p.Blocks() && ColumnStep(p, i, j, s, t) && ExactHalf(p, s.lists, s.thresholds, i, j)
    ensures ExactSeen(p, t.lists, t.thresholds, i, j + 1)
  {
    HalfAboveFloor(p, s, i, j);
    ColumnStepGives(p, i, j, s, t);
    ColumnsExact(p, i, j, s, t);
  }

  lemma DiagonalDone(p: Problem, lists: seq<seq<Entry>>, thresholds: seq<Score>, i: nat)
    requires p.Valid() && i < p.Blocks() && ExactHalf(p, lists, thresholds, i, i)
    ensures ExactSeen(p, lists, thresholds, i, i + 1)
  {
    forall r: nat | r < p.n ensures ListInv(p, r, lists[r], thresholds[r], Seen(p, i, i + 1, r)) {
      RowHalf(p, i, i, r);
      assert ListInv(p, r, lists[r], thresholds[r], SeenHalf(p, i, i, r));
    }
  }

  lemma DiagonalExact(p: Problem, i: nat, s: Snapshot, t: Snapshot)
    requires p.Valid() && i < p.Blocks() && RowStep(p, i, i, s, t) && ExactSeen(p, s.lists, s.thresholds, i, i)
    ensures ExactSeen(p, t.lists, t.thresholds, i, i + 1)
  {
    RowStepExact(p, i, i, s, t);
    DiagonalDone(p, t.lists, t.thresholds, i);
  }

  lemma OffDiagonalExact(p: Problem, i: nat, j: nat, s: Snapshot, t: Snapshot)
    requires p.Valid() && i < j < p.Blocks() && Both(RowUpdates(p, i, j), ColumnUpdates(p, i, j), s, t)
    requires ExactSeen(p, s.lists, s.thresholds, i, j)
    ensures ExactSeen(p, t.lists, t.thresholds, i, j + 1)
  {
    var mid :| RowUpdates(p, i, j)(s, mid) && ColumnUpdates(p, i, j)(mid, t);
    RowStepExact(p, i, j, s, mid);
    ColumnStepExact(p, i, j, mid, t);
  }

  lemma TaskExact(p: Problem, i: nat, j: nat, s: Snapshot, t: Snapshot)
    requires p.Valid() && i <= j < p.Blocks() && TaskStep(p, i, j, s, t) && ExactSeen(p, s.lists, s.thresholds, i, j)
    ensures ExactSeen(p, t.lists, t.thresholds, i, j + 1)
  {
    if i == j {
      DiagonalExact(p, i, s, t);
    } else {
      OffDiagonalExact(p, i, j, s, t);
    }
  }

  ghost function TasksExact(p: Problem, i: nat): (nat, Snapshot) -> bool {
    (j: nat, s: Snapshot) => p.block >= 1 && ExactSeen(p, s.lists, s.thresholds, i, j)
  }

  lemma OneTaskKeeps(p: Problem, i: nat, j: nat, a: Snapshot, b: Snapshot)
    requires p.Valid() && i <= j < p.Blocks() && TasksExact(p, i)(j, a) && Tasks(p, i)(j, a, b)
    ensures TasksExact(p, i)(j + 1, b)
  {
    TaskExact(p, i, j, a, b);
  }

  lemma TasksKeep(p: Problem, i: nat)
    requires p.Valid()
    ensures forall j: nat, a, b :: i <= j < p.Blocks() && TasksExact(p, i)(j, a) && Tasks(p, i)(j, a, b) ==> TasksExact(p, i)(j + 1, b)
  {
    forall j: nat, a, b | i <= j < p.Blocks() && TasksExact(p, i)(j, a) && Tasks(p, i)(j, a, b) ensures TasksExact(p, i)(j + 1, b) {
      OneTaskKeeps(p, i, j, a, b);
    }
  }

  lemma PhaseExact(p: Problem, i: nat, s: Snapshot, t: Snapshot)
    requires p.Valid() && i <= p.Blocks() && PhaseSteps(p, i, p.Blocks(), s, t) && ExactSeen(p, s.lists, s.thresholds, i, i)
    ensures ExactSeen(p, t.lists, t.thresholds, i, p.Blocks())
  {
    TasksKeep(p, i);
    ChainKeeps(Tasks(p, i), TasksExact(p, i), i, p.Blocks(), s, t);
  }

  lemma BeginPhase(p: Problem, lists: seq<seq<Entry>>, thresholds: seq<Score>, i: nat)
    requires p.Valid() && Enterable(p, lists, thresholds, i)
    ensures ExactSeen(p, lists, thresholds, i, i)
  {
    forall r: nat | r < p.n ensures ListInv(p, r, lists[r], thresholds[r], Seen(p, i, i, r)) {
      PhaseBegins(p, i, r);
    }
  }

  lemma EndPhase(p: Problem, lists: seq<seq<Entry>>, thresholds: seq<Score>, i: nat)
    requires p.Valid() && i < p.Blocks() && ExactSeen(p, lists, thresholds, i, p.Blocks())
    ensures Enterable(p, lists, thresholds, i + 1)
  {
    forall r | 0 <= r < p.n ensures ListInv(p, r, lists[r], thresholds[r], SeenBefore(p, r, i + 1)) {
      PhaseEnds(p, i, r);
    }
  }

  /** At the end of a phase the lists of its block are final, and sorting them publishes them. */
  lemma BlockIsFinal(p: Problem, lists: seq<seq<Entry>>, thresholds: seq<Score>, i: nat, r: nat)
    requires p.Valid() && Enterable(p, lists, thresholds, i + 1) && r < p.n && p.BlockOf(r) == i
    ensures Exact(p, r, SortedList(lists[r]))
  {
    var seen := SeenBefore(p, r, i + 1);
    assert ListInv(p, r, lists[r], thresholds[r], seen);
    AllBlocksAreOthers(p, r, seen);
    SortedListPublishes(lists[r], TopSet(Others(p, r), p.k));
    OthersSize(p, r, p.n);
    TopSize(Others(p, r), p.k);
  }

  /** Exactly the rows of the blocks from `startBlock` up to `i` are published, each with its exact list. */
  ghost predicate PublishedBlocks(p: Problem, published: map<nat, seq<Entry>>, startBlock: nat, i: nat)
    requires p.block >= 1
  {
    && (forall r: nat :: r in published <==> r < p.n && startBlock <= p.BlockOf(r) < i)
    && (forall r: nat :: r in published ==> Exact(p, r, published[r]))
  }

  lemma BlockPublished(p: Problem, t: Snapshot, before: map<nat, seq<Entry>>, out: map<nat, seq<Entry>>, startBlock: nat, i: nat)
    requires p.Valid() && startBlock <= i < p.Blocks() && PublishedBlocks(p, before, startBlock, i)
    requires PublishStep(p, i, t, before, out) && Enterable(p, t.lists, t.thresholds, i + 1)
    ensures PublishedBlocks(p, out, startBlock, i + 1)
  {
    forall r: nat ensures r < p.n && p.BlockOf(r) == i <==> p.Start(i) <= r < p.Start(i) + p.Rows(i) {
      p.RowInBlock(r, i);
    }
    forall r: nat | r in out ensures Exact(p, r, out[r]) {
      if p.Start(i) <= r < p.Start(i) + p.Rows(i) {
        BlockIsFinal(p, t.lists, t.thresholds, i, r);
      } else {
        assert r in before;
      }
    }
  }

  ghost predicate RunExact(p: Problem, start: nat, i: nat, s: Published)
    requires p.block >= 1
  {
    start <= i && Enterable(p, s.arrays.lists, s.arrays.thresholds, i) && PublishedBlocks(p, s.published, start, i)
  }

  lemma PhaseArrays(p: Problem, i: nat, s: Snapshot, t: Snapshot)
    requires p.Valid() && i < p.Blocks() && Enterable(p, s.lists, s.thresholds, i) && PhaseSteps(p, i, p.Blocks(), s, t)
    ensures Enterable(p, t.lists, t.thresholds, i + 1)
  {
    BeginPhase(p, s.lists, s.thresholds, i);
    PhaseExact(p, i, s, t);
    EndPhase(p, t.lists, t.thresholds, i);
  }

  lemma PhaseKeeps(p: Problem, start: nat, i: nat, s: Published, t: Published)
    requires p.Valid() && RunExact(p, start, i, s) && PhaseStep(p, i, s, t)
    ensures RunExact(p, start, i + 1, t)
  {
    PhaseArrays(p, i, s.arrays, t.arrays);
    BlockPublished(p, t.arrays, s.published, t.published, start, i);
  }

  ghost function RunsExact(p: Problem, start: nat): (nat, Published) -> bool {
    (i: nat, s: Published) => p.block >= 1 && RunExact(p, start, i, s)
  }

  lemma PhasesKeep(p: Problem, start: nat)
    requires p.Valid()
    ensures forall i: nat, a, b :: start <= i < p.Blocks() && RunsExact(p, start)(i, a) && Phases(p)(i, a, b) ==> RunsExact(p, start)(i + 1, b)
  {
    forall i: nat, a, b | start <= i < p.Blocks() && RunsExact(p, start)(i, a) && Phases(p)(i, a, b) ensures RunsExact(p, start)(i + 1, b) {
      PhaseKeeps(p, start, i, a, b);
    }
  }

  /** From lists that may be entered at `start`, the run publishes exactly the rows of the blocks from there on,
      each with its exact list, and leaves lists that may be entered again. */
  lemma RunIsExact(p: Problem, start: nat, s: Snapshot, t: Published)
    requires p.Valid() && start <= p.Blocks() && RunSteps(p, start, p.Blocks(), Published(s, map[]), t)
    requires Enterable(p, s.lists, s.thresholds, start)
    ensures Enterable(p, t.arrays.lists, t.arrays.thresholds, p.Blocks()) && PublishedBlocks(p, t.published, start, p.Blocks())
  {
    PhasesKeep(p, start);
    assert RunsExact(p, start)(start, Published(s, map[]));
    ChainKeeps(Phases(p), RunsExact(p, start), start, p.Blocks(), Published(s, map[]), t);
    assert RunsExact(p, start)(p.Blocks(), t);
  }

  // ---- The loops ----

  function Snap(state: TopKState): (s: Snapshot)
    requires state.Valid()
    reads state, state.scores, state.positions, state.thresholds
  {
    Snapshot(state.AllLists(), state.thresholds[..])
  }

  ghost predicate Fits(p: Problem, state: TopKState)
    reads state
  {
    state.Valid() && state.rows == p.n && state.k == p.k
  }

  lemma FoldKeepsFloor(s: Snapshot, t: Snapshot, read: seq<Score>, v: BlockView, rowStart: nat, colStart: nat, k: nat)
    requires k >= 1 && AboveFloor(s) && BlockFolded(s.lists, s.thresholds, read, v, rowStart, colStart, k, t.lists, t.thresholds)
    ensures AboveFloor(t)
  {
    var merged, kept := MergedHere(s.lists, t.lists, t.thresholds), KeptHere(s.lists, s.thresholds, t.lists, t.thresholds);
    forall q | 0 <= q < |t.thresholds| ensures t.thresholds[q] >= FLOOR {
      if rowStart <= q < rowStart + |read| {
        assert GivenEntries(merged, kept, rowStart + (q - rowStart), ChosenEntries(v, read, colStart, k, q - rowStart));
      } else {
        assert kept(q);
      }
    }
  }

  lemma BlocksReady(p: Problem, i: nat, j: nat)
    requires p.Valid() && i <= j < p.Blocks()
    ensures p.Start(i) + p.Rows(i) <= p.n && 0 < p.Rows(i) <= p.Padded(i)
    ensures p.Start(j) + p.Rows(j) <= p.n && 0 < p.Rows(j) <= p.Padded(j)
  {
    BlockHasRows(p, i);
    BlockHasRows(p, j);
    PaddedRows(p, i);
    PaddedRows(p, j);
  }

  /** One update of the arrays, in either view. */
  method FoldBlock(state: TopKState, rowStart: nat, colStart: nat, v: BlockView, validRows: nat)
    requires state.Valid() && AboveFloor(Snap(state)) && validRows <= |v.scores| && rowStart + validRows <= state.rows
    modifies state.scores, state.positions, state.thresholds
    ensures Folded(old(Snap(state)), Snap(state), v, rowStart, validRows, colStart, state.k) && AboveFloor(Snap(state))
  {
    ghost var s := Snap(state);
    Update(state, rowStart, colStart, v, validRows);
    FoldKeepsFloor(s, Snap(state), s.thresholds[rowStart..rowStart + validRows], v, rowStart, colStart, state.k);
  }

  /** A task's row update. */
  method FoldRows(p: Problem, state: TopKState, i: nat, j: nat)
    requires p.Valid() && Fits(p, state) && i <= j < p.Blocks() && AboveFloor(Snap(state))
    modifies state.scores, state.positions, state.thresholds
    ensures RowStep(p, i, j, old(Snap(state)), Snap(state)) && AboveFloor(Snap(state))
  {
    BlocksReady(p, i, j);
    FoldBlock(state, p.Start(i), p.Start(j), RowBlock(p, i, j), p.Rows(i));
  }

  /** A task's column update, through the transposed view. */
  method FoldColumns(p: Problem, state: TopKState, i: nat, j: nat)
    requires p.Valid() && Fits(p, state) && i < j < p.Blocks() && AboveFloor(Snap(state))
    modifies state.scores, state.positions, state.thresholds
    ensures ColumnStep(p, i, j, old(Snap(state)), Snap(state)) && AboveFloor(Snap(state))
  {
    BlocksReady(p, i, j);
    FoldBlock(state, p.Start(j), p.Start(i), ColumnBlock(p, i, j), p.Rows(j));
  }

  /** One task. */
  method RunTask(p: Problem, state: TopKState, i: nat, j: nat)
    requires p.Valid() && Fits(p, state) && i <= j < p.Blocks() && AboveFloor(Snap(state))
    modifies state.scores, state.positions, state.thresholds
    ensures TaskStep(p, i, j, old(Snap(state)), Snap(state)) && AboveFloor(Snap(state))
  {
    ghost var s := Snap(state);
    FoldRows(p, state, i, j);
    if i != j {
      ghost var mid := Snap(state);
      FoldColumns(p, state, i, j);
      assert RowUpdates(p, i, j)(s, mid) && ColumnUpdates(p, i, j)(mid, Snap(state));
    }
  }

  /** All tasks of one phase. */
  method RunPhase(p: Problem, state: TopKState, i: nat)
    requires p.Valid() && Fits(p, state) && i < p.Blocks() && AboveFloor(Snap(state))
    modifies state.scores, state.positions, state.thresholds
    ensures PhaseSteps(p, i, p.Blocks(), old(Snap(state)), Snap(state)) && AboveFloor(Snap(state))
  {
    ghost var s := Snap(state);
    for j := i to p.Blocks()
      invariant PhaseSteps(p, i, j, s, Snap(state)) && AboveFloor(Snap(state))
    {
      ghost var mid := Snap(state);
      RunTask(p, state, i, j);
      assert Tasks(p, i)(j, mid, Snap(state));
      ChainMore(Tasks(p, i), i, j, s, mid, Snap(state));
    }
  }

  lemma PublishedNext(p: Problem, lo: nat, r: nat, t: Snapshot, before: map<nat, seq<Entry>>, out: map<nat, seq<Entry>>)
    requires lo <= r < |t.lists| && PublishedTo(p, lo, r, t, before, out)
    ensures PublishedTo(p, lo, r + 1, t, before, out[r := SortedList(t.lists[r])])
  {
  }

  /** The finished lists of block b, sorted: what `on_block` is given. */
  method PublishBlock(p: Problem, state: TopKState, b: nat, published: map<nat, seq<Entry>>) returns (out: map<nat, seq<Entry>>)
    requires Fits(p, state) && p.Start(b) + p.Rows(b) <= p.n
    ensures PublishStep(p, b, Snap(state), published, out)
  {
    out := published;
    for r := p.Start(b) to p.Start(b) + p.Rows(b)
      invariant PublishedTo(p, p.Start(b), r, Snap(state), published, out)
    {
      PublishedNext(p, p.Start(b), r, Snap(state), published, out);
      out := out[r := SortedList(state.List(r))];
    }
  }

  /** `exact_top_k`, one task after another. */
  method RunBlocks(p: Problem, state: TopKState, startBlock: nat) returns (published: map<nat, seq<Entry>>)
    requires p.Valid() && Fits(p, state) && startBlock <= p.Blocks() && AboveFloor(Snap(state))
    modifies state.scores, state.positions, state.thresholds
    ensures RunSteps(p, startBlock, p.Blocks(), Published(old(Snap(state)), map[]), Published(Snap(state), published))
  {
    ghost var s := Published(Snap(state), map[]);
    published := map[];
    for i := startBlock to p.Blocks()
      invariant RunSteps(p, startBlock, i, s, Published(Snap(state), published)) && AboveFloor(Snap(state))
    {
      ghost var mid := Published(Snap(state), published);
      BlockHasRows(p, i);
      RunPhase(p, state, i);
      published := PublishBlock(p, state, i, published);
      assert Phases(p)(i, mid, Published(Snap(state), published));
      ChainMore(Phases(p), startBlock, i, s, mid, Published(Snap(state), published));
    }
  }

  lemma EmptyStateEnterable(p: Problem, lists: seq<seq<Entry>>, thresholds: seq<Score>)
    requires p.Valid() && |lists| == |thresholds| == p.n
    requires forall r :: 0 <= r < p.n ==> |lists[r]| == p.k && TopKMerge.Lists(lists[r], {}) && thresholds[r] == FLOOR
    ensures Enterable(p, lists, thresholds, 0)
  {
    forall r | 0 <= r < p.n ensures ListInv(p, r, lists[r], thresholds[r], SeenBefore(p, r, 0)) {
      assert SeenBefore(p, r, 0) == {};
      assert TopSet(p.Entries(r, {}), p.k) == {};
      ThresholdIsKthBest(lists[r], {});
    }
  }

  /** A whole run from empty lists publishes every row's exact list and nothing else; a block size that is no
      multiple of the segment is refused (ValueError). */
  method RunAll(p: Problem) returns (ok: bool, published: map<nat, seq<Entry>>)
    requires p.block % SEGMENT == 0 ==> p.Valid()
    ensures ok <==> p.block % SEGMENT == 0
    ensures ok ==> forall r: nat :: (r in published <==> r < p.n) && (r < p.n ==> Exact(p, r, published[r]))
  {
    published := map[];
    if p.block % SEGMENT != 0 {
      return false, published;
    }
    var state := new TopKState(p.n, p.k);
    ghost var s := Snap(state);
    EmptyStateEnterable(p, s.lists, s.thresholds);
    published := RunBlocks(p, state, 0);
    RunIsExact(p, 0, s, Published(Snap(state), published));
    forall r: nat | r < p.n ensures p.BlockOf(r) < p.Blocks() {
      BlockInRange(p, r);
    }
    ok := true;
  }

  lemma EnterableAboveFloor(p: Problem, s: Snapshot, startBlock: nat)
    requires p.Valid() && Enterable(p, s.lists, s.thresholds, startBlock)
    ensures AboveFloor(s)
  {
    forall r: nat | r < p.n ensures s.thresholds[r] >= FLOOR {
      ListJustified(p, r, s.lists[r], s.thresholds[r], SeenBefore(p, r, startBlock));
    }
  }

  /** A run resumed from saved lists publishes the remaining rows' exact lists. */
  method ResumeAt(p: Problem, state: TopKState, startBlock: nat) returns (published: map<nat, seq<Entry>>)
    requires p.Valid() && Fits(p, state) && startBlock <= p.Blocks()
    requires Enterable(p, Snap(state).lists, Snap(state).thresholds, startBlock)
    modifies state.scores, state.positions, state.thresholds
    ensures PublishedBlocks(p, published, startBlock, p.Blocks())
    ensures Enterable(p, Snap(state).lists, Snap(state).thresholds, p.Blocks())
  {
    ghost var s := Snap(state);
    EnterableAboveFloor(p, s, startBlock);
    published := RunBlocks(p, state, startBlock);
    RunIsExact(p, startBlock, s, Published(Snap(state), published));
  }
}
