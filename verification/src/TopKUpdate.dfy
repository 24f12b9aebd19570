/** `_update`: candidates of a block of scores selected against thresholds read beforehand, grouped by row
    with one stable sort, and merged. */
module TopKUpdate {
  import opened Basics
  import opened Ranking
  import opened SortedSets
  import opened TopKMerge
  import opened TopKSelect
  import Sorting

  /** One candidate: the local row it is for, and its entry. */
  datatype Item = Item(row: nat, entry: Entry)

  function RowOf(items: seq<Item>): (r: seq<nat>)
    ensures |r| == |items|
  {
    seq(|items|, i requires 0 <= i < |items| => items[i].row)
  }

  function EntryOf(items: seq<Item>): (r: seq<Entry>)
    ensures |r| == |items|
  {
    seq(|items|, i requires 0 <= i < |items| => items[i].entry)
  }

  function EntryAt(row: seq<Score>, start: nat, c: nat): Entry {
    Entry(if c < |row| then row[c] else NEG_INF, start + c)
  }

  /** The entries of some columns of a row. */
  function EntriesAt(row: seq<Score>, start: nat, cols: seq<nat>): (r: seq<Entry>)
    ensures |r| == |cols|
  {
    seq(|cols|, i requires 0 <= i < |cols| => EntryAt(row, start, cols[i]))
  }

  function ItemsAt(q: nat, entries: seq<Entry>): seq<Item> {
    if entries == [] then [] else [Item(q, entries[0])] + ItemsAt(q, entries[1..])
  }

  /** The entries of the items for row `r`, in order. */
  function ForRow(items: seq<Item>, r: nat): seq<Entry> {
    if items == [] then [] else (if items[0].row == r then [items[0].entry] else []) + ForRow(items[1..], r)
  }

  lemma {:induction false} ForRowJoin(a: seq<Item>, b: seq<Item>, r: nat)
    ensures ForRow(a + b, r) == ForRow(a, r) + ForRow(b, r)
  {
    if a == [] {
      assert a + b == b;
    } else {
      var here, tail := if a[0].row == r then [a[0].entry] else [], a[1..];
      assert (a + b)[0] == a[0] && (a + b)[1..] == tail + b;
      ForRowJoin(tail, b, r);
      Associate(here, ForRow(tail, r), ForRow(b, r));
    }
  }

  lemma {:induction false} ForRowOfItemsAt(q: nat, entries: seq<Entry>, r: nat)
    ensures ForRow(ItemsAt(q, entries), r) == if q == r then entries else []
    decreases |entries|
  {
    if entries != [] {
      ForRowOfItemsAt(q, entries[1..], r);
      assert ItemsAt(q, entries)[1..] == ItemsAt(q, entries[1..]);
    }
  }

  lemma {:induction false} ForRowCounts(items: seq<Item>, r: nat, e: Entry)
    ensures multiset(ForRow(items, r))[e] == multiset(items)[Item(r, e)]
  {
    if items != [] {
      ForRowCounts(items[1..], r, e);
      assert items == [items[0]] + items[1..];
    }
  }

  /** Reordering the items reorders a row's entries and nothing else. */
  lemma ForRowReordered(a: seq<Item>, b: seq<Item>, r: nat)
    requires multiset(a) == multiset(b)
    ensures multiset(ForRow(a, r)) == multiset(ForRow(b, r))
  {
    forall e ensures multiset(ForRow(a, r))[e] == multiset(ForRow(b, r))[e] {
      ForRowCounts(a, r, e);
      ForRowCounts(b, r, e);
    }
  }

  lemma {:induction false} ForRowEmpty(items: seq<Item>, r: nat)
    ensures ForRow(items, r) == [] <==> r !in RowOf(items)
  {
    if items != [] {
      ForRowEmpty(items[1..], r);
      assert RowOf(items) == [items[0].row] + RowOf(items[1..]);
    }
  }

  // ---- Selection ----

  /** A block of scores beside its view in runs. */
  datatype View = View(scores: seq<seq<Score>>, segments: seq<seq<seq<Score>>>, width: nat)

  /** Each row's runs, joined, are the row. */
  predicate IsView(v: View) {
    && v.width >= 1 && |v.segments| == |v.scores|
    && (forall r :: 0 <= r < |v.scores| ==> v.scores[r] != [] && Uniform(v.segments[r], v.width) && Flatten(v.segments[r]) == v.scores[r])
    && (forall r, c :: 0 <= r < |v.scores| && 0 <= c < |v.scores[r]| ==> v.scores[r][c] < POS_INF)
  }

  type BlockView = v: View | IsView(v) witness View([], [], 1)

  /** The columns row `r` passes on to the merge. */
  function Chosen(v: BlockView, r: nat, t: Score, k: nat): seq<nat>
    requires k >= 1 && r < |v.scores|
  {
    Selected(v.scores[r], v.segments[r], v.width, t, k)
  }

  lemma NoHits(row: seq<Score>, t: Score)
    requires forall c :: 0 <= c < |row| ==> row[c] < t
    ensures Hits(row, t, 0) == []
  {
    forall c: nat ensures c !in Hits(row, t, 0) {
      HitsMember(row, t, 0, c);
    }
    NoMembers(Hits(row, t, 0));
  }

  /** Rows with an infinite threshold, taken out of the segment pass, give no candidates. */
  lemma NoneReachInfinity(row: seq<Score>, segments: seq<seq<Score>>, width: nat)
    requires width >= 1 && Uniform(segments, width) && Flatten(segments) == row
    requires forall c :: 0 <= c < |row| ==> row[c] < POS_INF
    ensures SegmentHits(segments, width, POS_INF, 0) == []
  {
    SegmentHitsFlat(segments, width, POS_INF, 0);
    NoHits(row, POS_INF);
  }

  function SightEntries(scores: seq<seq<Score>>, thresholds: seq<Score>, start: nat, k: nat, n: nat, r: nat): seq<Entry>
    requires k >= 1 && n <= |thresholds| == |scores| && forall q :: 0 <= q < |scores| ==> scores[q] != []
  {
    if r < n && thresholds[r] == FLOOR then EntriesAt(scores[r], start, FirstSightHits(scores[r], k)) else []
  }

  function PassEntries(v: BlockView, thresholds: seq<Score>, start: nat, n: nat, r: nat): seq<Entry>
    requires n <= |thresholds| == |v.scores|
  {
    if r < n then EntriesAt(v.scores[r], start, SegmentHits(v.segments[r], v.width, thresholds[r], 0)) else []
  }

  /** The entries row `r` is to be merged with. */
  function ChosenEntries(v: BlockView, read: seq<Score>, start: nat, k: nat, r: nat): seq<Entry>
    requires k >= 1 && |read| <= |v.scores|
  {
    if r < |read| then EntriesAt(v.scores[r], start, Chosen(v, r, read[r], k)) else []
  }

  /** The first-sight candidates of the rows whose threshold is the floor. */
  method FirstSight(scores: seq<seq<Score>>, thresholds: seq<Score>, start: nat, k: nat) returns (items: seq<Item>)
    requires k >= 1 && |thresholds| == |scores| && forall r :: 0 <= r < |scores| ==> scores[r] != []
    ensures forall r: nat :: ForRow(items, r) == SightEntries(scores, thresholds, start, k, |scores|, r)
  {
    items := [];
    for q := 0 to |scores|
      invariant forall r: nat :: ForRow(items, r) == SightEntries(scores, thresholds, start, k, q, r)
    {
      if thresholds[q] == FLOOR {
        ghost var before := items;
        var entries := EntriesAt(scores[q], start, FirstSightHits(scores[q], k));
        items := items + ItemsAt(q, entries);
        forall r: nat ensures ForRow(items, r) == ForRow(before, r) + (if q == r then entries else []) {
          ForRowJoin(before, ItemsAt(q, entries), r);
          ForRowOfItemsAt(q, entries, r);
        }
      }
    }
  }

  /** The segment pass. */
  method SegmentPass(v: BlockView, thresholds: seq<Score>, start: nat) returns (items: seq<Item>)
    requires |thresholds| == |v.scores|
    ensures forall r: nat :: ForRow(items, r) == PassEntries(v, thresholds, start, |v.scores|, r)
  {
    items := [];
    for q := 0 to |v.scores|
      invariant forall r: nat :: ForRow(items, r) == PassEntries(v, thresholds, start, q, r)
    {
      ghost var before := items;
      var entries := EntriesAt(v.scores[q], start, SegmentHits(v.segments[q], v.width, thresholds[q], 0));
      items := items + ItemsAt(q, entries);
      forall r: nat ensures ForRow(items, r) == ForRow(before, r) + (if q == r then entries else []) {
        ForRowJoin(before, ItemsAt(q, entries), r);
        ForRowOfItemsAt(q, entries, r);
      }
    }
  }

  /** All candidates of a block, against the thresholds as they were read. */
  method SelectCandidates(v: BlockView, read: seq<Score>, validRows: nat, start: nat, k: nat) returns (items: seq<Item>)
    requires k >= 1 && validRows == |read| <= |v.scores|
    requires forall r :: 0 <= r < validRows ==> read[r] >= FLOOR
    ensures forall r: nat :: ForRow(items, r) == ChosenEntries(v, read, start, k, r)
  {
    var n := |v.scores|;
    var thresholds := seq(n, r requires 0 <= r < n => if r < |read| then read[r] else POS_INF);
    var first := FirstSight(v.scores, thresholds, start, k);
    thresholds := seq(n, r requires 0 <= r < n && |thresholds| == n => if thresholds[r] == FLOOR then POS_INF else thresholds[r]);
    var rest := SegmentPass(v, thresholds, start);
    items := first + rest;
    forall r: nat ensures ForRow(items, r) == ChosenEntries(v, read, start, k, r) {
      ForRowJoin(first, rest, r);
      if r < n && thresholds[r] == POS_INF {
        NoneReachInfinity(v.scores[r], v.segments[r], v.width);
      }
    }
  }

  // ---- Grouping ----

  /** `np.unique(rows, return_inverse=True)` of ascending rows. */
  method Group(rows: seq<nat>) returns (touched: seq<nat>, local: seq<nat>)
    requires forall i, j :: 0 <= i < j < |rows| ==> rows[i] <= rows[j]
    ensures Ascending(touched) && |local| == |rows|
    ensures forall i :: 0 <= i < |rows| ==> local[i] < |touched| && touched[local[i]] == rows[i]
    ensures forall t :: t in touched ==> t in rows
  {
    touched, local := [], [];
    for i := 0 to |rows|
      invariant Ascending(touched) && |local| == i
      invariant forall j :: 0 <= j < i ==> local[j] < |touched| && touched[local[j]] == rows[j]
      invariant forall t :: t in touched ==> t in rows[..i]
      invariant touched != [] ==> i > 0 && touched[|touched| - 1] == rows[i - 1]
      invariant i > 0 ==> touched != []
    {
      assert rows[..i + 1] == rows[..i] + [rows[i]];
      if touched == [] || touched[|touched| - 1] != rows[i] {
        touched := touched + [rows[i]];
      }
      local := local + [|touched| - 1];
    }
    assert rows[..|rows|] == rows;
  }

  /** The candidates the merge finds for the t-th touched row are that row's items. */
  lemma {:induction false} CandidatesAreForRow(items: seq<Item>, touched: seq<nat>, local: seq<nat>, t: nat)
    requires Ascending(touched) && |local| == |items| && t < |touched|
    requires forall i :: 0 <= i < |items| ==> local[i] < |touched| && touched[local[i]] == items[i].row
    ensures CandidatesOf(local, EntryOf(items), t) == ForRow(items, touched[t])
    decreases |items|
  {
    if items != [] {
      CandidatesAreForRow(items[1..], touched, local[1..], t);
      assert EntryOf(items)[1..] == EntryOf(items[1..]);
      assert local[0] == t <==> items[0].row == touched[t];
    }
  }

  predicate RowLess(a: Item, b: Item) { a.row < b.row }

  // ---- The update ----

  function Shifted(touched: seq<nat>, rowStart: nat): (r: seq<nat>)
    ensures |r| == |touched| && forall i :: 0 <= i < |r| ==> r[i] == rowStart + touched[i]
  {
    seq(|touched|, i requires 0 <= i < |touched| => rowStart + touched[i])
  }

  lemma TouchedIsValid(items: seq<Item>, sorted: seq<Item>, r: nat, validRows: nat)
    requires multiset(sorted) == multiset(items) && r in RowOf(sorted)
    requires forall q: nat :: q >= validRows ==> ForRow(items, q) == []
    ensures r < validRows
  {
    ForRowEmpty(sorted, r);
    ForRowReordered(sorted, items, r);
  }

  /** The items' rows are grouped: `local` leads each item to its row in `touched`. */
  ghost predicate Grouped(sorted: seq<Item>, touched: seq<nat>, local: seq<nat>) {
    && Ascending(touched) && |local| == |sorted|
    && (forall i :: 0 <= i < |sorted| ==> local[i] < |touched| && touched[local[i]] == sorted[i].row)
    && (forall t :: t in touched ==> t in RowOf(sorted))
  }

  lemma TouchedAreValid(items: seq<Item>, sorted: seq<Item>, touched: seq<nat>, local: seq<nat>, validRows: nat)
    requires multiset(sorted) == multiset(items) && Grouped(sorted, touched, local)
    requires forall q: nat :: q >= validRows ==> ForRow(items, q) == []
    ensures forall i :: 0 <= i < |touched| ==> touched[i] < validRows
  {
    forall i | 0 <= i < |touched| ensures touched[i] < validRows {
      assert touched[i] in touched;
      TouchedIsValid(items, sorted, touched[i], validRows);
    }
  }

  lemma ShiftedDistinct(touched: seq<nat>, rowStart: nat, validRows: nat)
    requires Ascending(touched) && forall i :: 0 <= i < |touched| ==> touched[i] < validRows
    ensures var global := Shifted(touched, rowStart);
      && (forall i :: 0 <= i < |global| ==> global[i] < rowStart + validRows)
      && (forall i, j :: 0 <= i < j < |global| ==> global[i] != global[j])
  {
  }

  /** The items in row order, and the distinct rows they are for, all of them valid. */
  ghost predicate ItemsGrouped(items: seq<Item>, rowStart: nat, validRows: nat, sorted: seq<Item>, touched: seq<nat>,
                               local: seq<nat>, global: seq<nat>)
  {
    && multiset(sorted) == multiset(items) && Grouped(sorted, touched, local) && global == Shifted(touched, rowStart)
    && forall i :: 0 <= i < |touched| ==> touched[i] < validRows
  }

  /** One stable sort by row groups the items; `global` are the rows they are for. */
  method GroupItems(items: seq<Item>, rowStart: nat, validRows: nat)
    returns (sorted: seq<Item>, touched: seq<nat>, local: seq<nat>, global: seq<nat>)
    requires forall q: nat :: q >= validRows ==> ForRow(items, q) == []
    ensures ItemsGrouped(items, rowStart, validRows, sorted, touched, local, global) && |local| == |sorted|
    ensures forall i :: 0 <= i < |global| ==> global[i] < rowStart + validRows
    ensures forall i, j :: 0 <= i < j < |global| ==> global[i] != global[j]
  {
    sorted := Sorting.Sorted(items, RowLess);
    assert Sorting.WeakOrder(RowLess);
    Sorting.SortedSorts(items, RowLess);
    touched, local := Group(RowOf(sorted));
    TouchedAreValid(items, sorted, touched, local, validRows);
    ShiftedDistinct(touched, rowStart, validRows);
    global := Shifted(touched, rowStart);
  }

  /** The row's list now holds the best of what it held and the entries, and its threshold goes with it. */
  ghost function MergedHere(was: seq<seq<Entry>>, now: seq<seq<Entry>>, nowThresholds: seq<Score>): (nat, seq<Entry>) -> bool {
    (q: nat, flat: seq<Entry>) => q < |was| == |now| == |nowThresholds| && MergedTo(was[q], flat, now[q], nowThresholds[q])
  }

  lemma GroupsMerged(was: seq<seq<Entry>>, global: seq<nat>, local: seq<nat>, candidates: seq<Entry>, now: seq<seq<Entry>>, nowThresholds: seq<Score>)
    requires |local| == |candidates| && |now| == |was| == |nowThresholds|
    requires forall i :: 0 <= i < |global| ==> global[i] < |was|
    requires TouchedMerged(was, global, local, candidates, |global|, now, nowThresholds)
    ensures forall t :: 0 <= t < |global| ==> MergedHere(was, now, nowThresholds)(global[t], CandidatesOf(local, candidates, t))
  {
  }

  ghost function KeptHere(was: seq<seq<Entry>>, wasThresholds: seq<Score>, now: seq<seq<Entry>>, nowThresholds: seq<Score>): nat -> bool {
    (q: nat) => q < |was| == |now| == |nowThresholds| == |wasThresholds| && now[q] == was[q] && nowThresholds[q] == wasThresholds[q]
  }

  lemma RestKept(was: seq<seq<Entry>>, wasThresholds: seq<Score>, global: seq<nat>, now: seq<seq<Entry>>, nowThresholds: seq<Score>)
    requires |now| == |was| == |nowThresholds| == |wasThresholds| && OthersKept(was, wasThresholds, global, now, nowThresholds)
    ensures forall q: nat :: q < |was| && q !in global ==> KeptHere(was, wasThresholds, now, nowThresholds)(q)
  {
  }

  /** `merged` holds of the row and its entries in some order. */
  ghost predicate SomeOrder(merged: (nat, seq<Entry>) -> bool, q: nat, entries: seq<Entry>) {
    exists flat :: multiset(flat) == multiset(entries) && merged(q, flat)
  }

  /** A row is left alone if it has no entries, else given them in some order. */
  ghost predicate GivenEntries(merged: (nat, seq<Entry>) -> bool, kept: nat -> bool, q: nat, entries: seq<Entry>) {
    if entries == [] then kept(q) else SomeOrder(merged, q, entries)
  }

  ghost predicate AllGiven(merged: (nat, seq<Entry>) -> bool, kept: nat -> bool, items: seq<Item>, rowStart: nat, validRows: nat, rows: nat) {
    && (forall r: nat :: r < validRows ==> GivenEntries(merged, kept, rowStart + r, ForRow(items, r)))
    && (forall q: nat :: q < rows && !(rowStart <= q < rowStart + validRows) ==> kept(q))
  }

  lemma GroupHasEntries(items: seq<Item>, sorted: seq<Item>, touched: seq<nat>, local: seq<nat>, t: nat)
    requires multiset(sorted) == multiset(items) && Grouped(sorted, touched, local) && t < |touched|
    ensures multiset(CandidatesOf(local, EntryOf(sorted), t)) == multiset(ForRow(items, touched[t]))
    ensures ForRow(items, touched[t]) != []
  {
    assert touched[t] in touched;
    ForRowReordered(sorted, items, touched[t]);
    ForRowEmpty(sorted, touched[t]);
    CandidatesAreForRow(sorted, touched, local, t);
  }

  lemma NotTouched(sorted: seq<Item>, touched: seq<nat>, local: seq<nat>, r: nat)
    requires Grouped(sorted, touched, local) && r !in touched
    ensures r !in RowOf(sorted)
  {
    forall i | 0 <= i < |sorted| ensures RowOf(sorted)[i] != r {
      assert touched[local[i]] in touched;
    }
  }

  lemma NotShifted(touched: seq<nat>, rowStart: nat, r: nat)
    requires r !in touched
    ensures rowStart + r !in Shifted(touched, rowStart)
  {
  }

  lemma UntouchedRow(items: seq<Item>, sorted: seq<Item>, touched: seq<nat>, local: seq<nat>, rowStart: nat, r: nat)
    requires multiset(sorted) == multiset(items) && Grouped(sorted, touched, local) && r !in touched
    ensures ForRow(items, r) == [] && rowStart + r !in Shifted(touched, rowStart)
  {
    NotTouched(sorted, touched, local, r);
    NotShifted(touched, rowStart, r);
    ForRowEmpty(sorted, r);
    ForRowReordered(sorted, items, r);
  }

  ghost predicate EachGroup(merged: (nat, seq<Entry>) -> bool, sorted: seq<Item>, local: seq<nat>, global: seq<nat>)
    requires |local| == |sorted|
  {
    forall t :: 0 <= t < |global| ==> merged(global[t], CandidatesOf(local, EntryOf(sorted), t))
  }

  lemma TouchedRow(merged: (nat, seq<Entry>) -> bool, items: seq<Item>, sorted: seq<Item>, touched: seq<nat>,
                   local: seq<nat>, global: seq<nat>, rowStart: nat, t: nat)
    requires multiset(sorted) == multiset(items) && Grouped(sorted, touched, local) && global == Shifted(touched, rowStart)
    requires EachGroup(merged, sorted, local, global) && t < |touched|
    ensures ForRow(items, touched[t]) != [] && SomeOrder(merged, rowStart + touched[t], ForRow(items, touched[t]))
  {
    GroupHasEntries(items, sorted, touched, local, t);
    assert merged(global[t], CandidatesOf(local, EntryOf(sorted), t));
  }

  lemma TouchedGiven(merged: (nat, seq<Entry>) -> bool, kept: nat -> bool, items: seq<Item>, sorted: seq<Item>, touched: seq<nat>,
                     local: seq<nat>, global: seq<nat>, rowStart: nat, r: nat)
    requires multiset(sorted) == multiset(items) && Grouped(sorted, touched, local) && global == Shifted(touched, rowStart)
    requires EachGroup(merged, sorted, local, global) && r in touched
    ensures GivenEntries(merged, kept, rowStart + r, ForRow(items, r))
  {
    var t: nat :| t < |touched| && touched[t] == r;
    TouchedRow(merged, items, sorted, touched, local, global, rowStart, t);
  }

  /** Merging group by group gives every row exactly its own items. */
  lemma RowGiven(merged: (nat, seq<Entry>) -> bool, kept: nat -> bool, items: seq<Item>, sorted: seq<Item>, touched: seq<nat>,
                 local: seq<nat>, global: seq<nat>, rowStart: nat, validRows: nat, r: nat)
    requires ItemsGrouped(items, rowStart, validRows, sorted, touched, local, global) && EachGroup(merged, sorted, local, global)
    requires rowStart + r !in global ==> kept(rowStart + r)
    ensures GivenEntries(merged, kept, rowStart + r, ForRow(items, r))
  {
    if r in touched {
      TouchedGiven(merged, kept, items, sorted, touched, local, global, rowStart, r);
    } else {
      UntouchedRow(items, sorted, touched, local, rowStart, r);
    }
  }

  lemma GroupsGiven(merged: (nat, seq<Entry>) -> bool, kept: nat -> bool, items: seq<Item>, sorted: seq<Item>, touched: seq<nat>,
                    local: seq<nat>, global: seq<nat>, rowStart: nat, validRows: nat, rows: nat)
    requires ItemsGrouped(items, rowStart, validRows, sorted, touched, local, global) && EachGroup(merged, sorted, local, global)
    requires rowStart + validRows <= rows && forall q: nat :: q < rows && q !in global ==> kept(q)
    ensures AllGiven(merged, kept, items, rowStart, validRows, rows)
  {
    forall r: nat | r < validRows ensures GivenEntries(merged, kept, rowStart + r, ForRow(items, r)) {
      RowGiven(merged, kept, items, sorted, touched, local, global, rowStart, validRows, r);
    }
  }

  /** Every valid row was merged with its own items, every other row is as it was. */
  ghost predicate ItemsMerged(was: seq<seq<Entry>>, wasThresholds: seq<Score>, items: seq<Item>, rowStart: nat, validRows: nat,
                              now: seq<seq<Entry>>, nowThresholds: seq<Score>)
  {
    && |was| == |now| == |wasThresholds| == |nowThresholds| && rowStart + validRows <= |was|
    && AllGiven(MergedHere(was, now, nowThresholds), KeptHere(was, wasThresholds, now, nowThresholds), items, rowStart, validRows, |was|)
  }

  lemma AllMerged(was: seq<seq<Entry>>, wasThresholds: seq<Score>, items: seq<Item>, sorted: seq<Item>, touched: seq<nat>,
                  local: seq<nat>, global: seq<nat>, rowStart: nat, validRows: nat, now: seq<seq<Entry>>, nowThresholds: seq<Score>)
    requires ItemsGrouped(items, rowStart, validRows, sorted, touched, local, global) && rowStart + validRows <= |was|
    requires |local| == |sorted| && MergedRows(was, wasThresholds, global, local, EntryOf(sorted), |global|, now, nowThresholds)
    ensures ItemsMerged(was, wasThresholds, items, rowStart, validRows, now, nowThresholds)
  {
    var merged, kept := MergedHere(was, now, nowThresholds), KeptHere(was, wasThresholds, now, nowThresholds);
    assert global[..|global|] == global;
    GroupsMerged(was, global, local, EntryOf(sorted), now, nowThresholds);
    RestKept(was, wasThresholds, global, now, nowThresholds);
    GroupsGiven(merged, kept, items, sorted, touched, local, global, rowStart, validRows, |was|);
  }

  /** Merging the groups: every row with items is merged with them. */
  method MergeGroups(state: TopKState, rowStart: nat, validRows: nat, ghost items: seq<Item>, sorted: seq<Item>, ghost touched: seq<nat>,
                     local: seq<nat>, global: seq<nat>)
    requires state.Valid() && rowStart + validRows <= state.rows
    requires ItemsGrouped(items, rowStart, validRows, sorted, touched, local, global)
    requires forall i :: 0 <= i < |global| ==> global[i] < rowStart + validRows
    requires forall i, j :: 0 <= i < j < |global| ==> global[i] != global[j]
    modifies state.scores, state.positions, state.thresholds
    ensures ItemsMerged(old(state.AllLists()), old(state.thresholds[..]), items, rowStart, validRows, state.AllLists(), state.thresholds[..])
  {
    state.Merge(global, local, EntryOf(sorted));
    AllMerged(old(state.AllLists()), old(state.thresholds[..]), items, sorted, touched, local, global, rowStart, validRows,
              state.AllLists(), state.thresholds[..]);
  }

  /** Sorting the items by row, grouping and merging. */
  method MergeItems(state: TopKState, rowStart: nat, validRows: nat, items: seq<Item>)
    requires state.Valid() && rowStart + validRows <= state.rows
    requires forall q: nat :: q >= validRows ==> ForRow(items, q) == []
    modifies state.scores, state.positions, state.thresholds
    ensures ItemsMerged(old(state.AllLists()), old(state.thresholds[..]), items, rowStart, validRows, state.AllLists(), state.thresholds[..])
  {
    var sorted, touched, local, global := GroupItems(items, rowStart, validRows);
    MergeGroups(state, rowStart, validRows, items, sorted, touched, local, global);
  }

  lemma NothingMerged(was: seq<seq<Entry>>, wasThresholds: seq<Score>, rowStart: nat, validRows: nat)
    requires |was| == |wasThresholds| && rowStart + validRows <= |was|
    ensures ItemsMerged(was, wasThresholds, [], rowStart, validRows, was, wasThresholds)
  {
  }

  ghost predicate ChosenGiven(merged: (nat, seq<Entry>) -> bool, kept: nat -> bool, read: seq<Score>, v: BlockView, rowStart: nat,
                              colStart: nat, k: nat, rows: nat)
    requires k >= 1 && |read| <= |v.scores|
  {
    && (forall r: nat :: r < |read| ==> GivenEntries(merged, kept, rowStart + r, ChosenEntries(v, read, colStart, k, r)))
    && (forall q: nat :: q < rows && !(rowStart <= q < rowStart + |read|) ==> kept(q))
  }

  lemma ItemsChosen(merged: (nat, seq<Entry>) -> bool, kept: nat -> bool, read: seq<Score>, v: BlockView, items: seq<Item>,
                    rowStart: nat, colStart: nat, k: nat, rows: nat)
    requires k >= 1 && |read| <= |v.scores|
    requires forall r: nat :: ForRow(items, r) == ChosenEntries(v, read, colStart, k, r)
    requires AllGiven(merged, kept, items, rowStart, |read|, rows)
    ensures ChosenGiven(merged, kept, read, v, rowStart, colStart, k, rows)
  {
    forall r: nat | r < |read| ensures GivenEntries(merged, kept, rowStart + r, ChosenEntries(v, read, colStart, k, r)) {
      assert GivenEntries(merged, kept, rowStart + r, ForRow(items, r));
    }
  }

  /** Every row `read` has a threshold for was merged with what it chose from the block, every other row is as
      it was. */
  ghost predicate BlockFolded(was: seq<seq<Entry>>, wasThresholds: seq<Score>, read: seq<Score>, v: BlockView, rowStart: nat,
                              colStart: nat, k: nat, now: seq<seq<Entry>>, nowThresholds: seq<Score>)
    requires k >= 1
  {
    && |was| == |now| == |wasThresholds| == |nowThresholds| && rowStart + |read| <= |was| && |read| <= |v.scores|
    && ChosenGiven(MergedHere(was, now, nowThresholds), KeptHere(was, wasThresholds, now, nowThresholds), read, v, rowStart, colStart, k, |was|)
  }

  lemma ItemsAreChosen(was: seq<seq<Entry>>, wasThresholds: seq<Score>, read: seq<Score>, v: BlockView, items: seq<Item>,
                       rowStart: nat, colStart: nat, k: nat, now: seq<seq<Entry>>, nowThresholds: seq<Score>)
    requires k >= 1 && |read| <= |v.scores|
    requires forall r: nat :: ForRow(items, r) == ChosenEntries(v, read, colStart, k, r)
    requires ItemsMerged(was, wasThresholds, items, rowStart, |read|, now, nowThresholds)
    ensures BlockFolded(was, wasThresholds, read, v, rowStart, colStart, k, now, nowThresholds)
  {
    ItemsChosen(MergedHere(was, now, nowThresholds), KeptHere(was, wasThresholds, now, nowThresholds), read, v, items, rowStart, colStart, k, |was|);
  }

  /** `_update`: the selected entries of every valid row, chosen against the thresholds as they stood, are merged
      into its list; no other row changes. */
  method Update(state: TopKState, rowStart: nat, colStart: nat, v: BlockView, validRows: nat)
    requires state.Valid() && validRows <= |v.scores| && rowStart + validRows <= state.rows
    requires forall r :: 0 <= r < state.rows ==> state.thresholds[r] >= FLOOR
    modifies state.scores, state.positions, state.thresholds
    ensures BlockFolded(old(state.AllLists()), old(state.thresholds[..]), old(state.thresholds[rowStart..rowStart + validRows]),
                        v, rowStart, colStart, state.k, state.AllLists(), state.thresholds[..])
  {
    var read := state.thresholds[rowStart..rowStart + validRows];
    var items := SelectCandidates(v, read, validRows, colStart, state.k);
    ghost var was, wasThresholds := state.AllLists(), state.thresholds[..];
    if items != [] {
      MergeItems(state, rowStart, validRows, items);
    } else {
      NothingMerged(was, wasThresholds, rowStart, validRows);
    }
    ItemsAreChosen(was, wasThresholds, read, v, items, rowStart, colStart, state.k, state.AllLists(), state.thresholds[..]);
  }
}
