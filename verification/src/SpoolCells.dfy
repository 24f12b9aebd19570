/** What a complete spool holds, cell by cell. */
module SpoolCells {
  import opened Basics
  import opened ExactLists
  import opened ExactTopK
  import opened Ranking
  import opened SpoolFiles
  import opened SpoolRun
  import opened TopKSelect

  lemma PartsAre(l: seq<Entry>)
    ensures PartOf(PositionPart, l) == PositionsOf(l) && PartOf(ScorePart, l) == ScoresOf(l)
  {
  }

  lemma RowAtIs(cells: seq<int>, n: nat, k: nat, r: nat)
    requires r < n && |cells| == Times(n, k)
    ensures 0 <= r * k && r * k + k <= |cells| && RowAt(cells, k, r) == cells[r * k..r * k + k]
  {
    TimesIsProduct(r, k);
    TimesRise(r + 1, n, k);
  }

  /** The two halves of a row, final on their own, come from one list. */
  lemma FinalRowsRanked(p: Problem, r: nat, positions: seq<int>, scores: seq<int>)
    requires p.Valid() && r < p.n && FinalRow(p, r, positions, PositionPart) && FinalRow(p, r, scores, ScorePart)
    ensures RankedRow(p, r, positions, scores)
  {
    var l :| Exact(p, r, l) && positions == PartOf(PositionPart, l);
    PartsAre(l);
    FinalIs(p, r, l, ScorePart);
    RowUnique(p, r, scores, PartOf(ScorePart, l), ScorePart);
    ExactlyRanked(p, r, l);
  }

  lemma RankedRowsFinal(p: Problem, r: nat, positions: seq<int>, scores: seq<int>)
    requires p.Valid() && r < p.n && RankedRow(p, r, positions, scores)
    ensures FinalRow(p, r, positions, PositionPart) && FinalRow(p, r, scores, ScorePart)
  {
    var l := seq(p.k, i requires 0 <= i < p.k => Entry(scores[i], positions[i]));
    assert PositionsOf(l) == positions && ScoresOf(l) == scores;
    PartsAre(l);
    ExactlyRanked(p, r, l);
    FinalIs(p, r, l, PositionPart);
    FinalIs(p, r, l, ScorePart);
  }

  ghost predicate RowsRanked(p: Problem, positions: seq<int>, scores: seq<int>) {
    && |positions| == |scores| == Times(p.n, p.k)
    && forall r: nat :: r < p.n ==> RankedRow(p, r, RowAt(positions, p.k, r), RowAt(scores, p.k, r))
  }

  /** A spool is exact if and only if every row of its two files reads as the exact row does. */
  lemma ExactlyRows(p: Problem, d: Disk)
    requires p.Valid()
    ensures ExactSpool(p, d) <==> d.positions.Cells? && d.scores.Cells? && RowsRanked(p, d.positions.cells, d.scores.cells)
  {
    if ExactSpool(p, d) {
      forall r: nat | r < p.n {
        FinalRowsRanked(p, r, RowAt(d.positions.cells, p.k, r), RowAt(d.scores.cells, p.k, r));
      }
    }
    if d.positions.Cells? && d.scores.Cells? && RowsRanked(p, d.positions.cells, d.scores.cells) {
      forall r: nat | r < p.n {
        RankedRowsFinal(p, r, RowAt(d.positions.cells, p.k, r), RowAt(d.scores.cells, p.k, r));
      }
    }
  }

  /** Row r of an exact spool stands at cells r * k to r * k + k of both files. */
  lemma ExactCells(p: Problem, d: Disk, r: nat)
    requires p.Valid() && r < p.n && ExactSpool(p, d)
    ensures d.positions.Cells? && d.scores.Cells? && |d.positions.cells| == |d.scores.cells| == p.n * p.k
    ensures 0 <= r * p.k && r * p.k + p.k <= p.n * p.k
    ensures RankedRow(p, r, d.positions.cells[r * p.k..r * p.k + p.k], d.scores.cells[r * p.k..r * p.k + p.k])
  {
    ExactlyRows(p, d);
    TimesIsProduct(p.n, p.k);
    RowAtIs(d.positions.cells, p.n, p.k, r);
    RowAtIs(d.scores.cells, p.n, p.k, r);
  }

  /** Under one identity, over any crashes and restarts, whenever the metadata says complete: row r's cells. */
  lemma CompleteCells(of: Identities, x: int, ws: seq<World>, i: nat, r: nat)
    requires Sound(of) && History(of, ws) && Untouched(ws[0], x) && OnlyRuns(ws, x) && i < |ws|
    requires ws[i].disk.meta == Meta(x, true) && r < of(x).n
    ensures var p, d := of(x), ws[i].disk;
      && d.positions.Cells? && d.scores.Cells? && |d.positions.cells| == |d.scores.cells| == p.n * p.k
      && 0 <= r * p.k && r * p.k + p.k <= p.n * p.k
      && RankedRow(p, r, d.positions.cells[r * p.k..r * p.k + p.k], d.scores.cells[r * p.k..r * p.k + p.k])
  {
    CompleteMeansExact(of, x, ws, i);
    ExactCells(of(x), ws[i].disk, r);
  }

  /** The metadata is complete and no work is left but dropping the checkpoint. */
  predicate Settled(w: World, x: int) {
    w.disk.meta == Meta(x, true) && (w.process.Stopped? || w.process == Finishing(true))
  }

  lemma SettledStays(of: Identities, x: int, w: World, w': World)
    requires Settled(w, x) && Step(of, w, w') && (w'.process.Stopped? || w'.me == x)
    ensures Settled(w', x) && w'.disk.positions == w.disk.positions && w'.disk.scores == w.disk.scores
  {
  }

  /** A complete spool is left as it is, however often its identity is started again. */
  lemma {:induction false} CompleteStays(of: Identities, x: int, ws: seq<World>, i: nat, j: nat)
    requires History(of, ws) && OnlyRuns(ws, x) && i <= j < |ws| && Settled(ws[i], x)
    ensures Settled(ws[j], x) && ws[j].disk.positions == ws[i].disk.positions && ws[j].disk.scores == ws[i].disk.scores
    decreases j
  {
    if i < j {
      CompleteStays(of, x, ws, i, j - 1);
      assert Step(of, ws[j - 1], ws[j]);
      SettledStays(of, x, ws[j - 1], ws[j]);
    }
  }

  // ---- The window is reached ----

  lemma HistoryOn(of: Identities, ws: seq<World>, w: World)
    requires History(of, ws) && Step(of, ws[|ws| - 1], w)
    ensures History(of, ws + [w])
  {
    var longer := ws + [w];
    forall i, j | 0 <= i && j == i + 1 < |longer| ensures Step(of, longer[i], longer[j]) {
      if j < |ws| {
        assert Step(of, ws[i], ws[j]);
      }
    }
  }

  /** y at work on its k-th cleaning operation, or past the last. */
  ghost function CleaningAt(p: Problem, y: int, d: Disk, k: nat): World
    requires p.block >= 1
  {
    World(Cleaned(p, y, d, k), if k == 6 then Computing(0, EmptyLists(p), EmptyThresholds(p)) else Cleaning(k), y)
  }

  lemma {:induction false} CleansUpTo(of: Identities, x: int, y: int, d: Disk, k: nat) returns (ws: seq<World>)
    requires Sound(of) && x != y && d.meta == Meta(x, true) && k <= 6
    ensures History(of, ws) && ws[0] == World(d, Stopped, x) && ws[|ws| - 1] == CleaningAt(of(y), y, d, k)
  {
    if k == 0 {
      ws := [World(d, Stopped, x)];
      assert Start(ws[0], CleaningAt(of(y), y, d, 0));
    } else {
      ws := CleansUpTo(of, x, y, d, k - 1);
      assert Clean(of(y), ws[|ws| - 1], CleaningAt(of(y), y, d, k));
    }
    HistoryOn(of, ws, CleaningAt(of(y), y, d, k));
    ws := ws + [CleaningAt(of(y), y, d, k)];
  }

  /** After any of another identity's first five operations its process can die, and then x's exact spool is left saying
      that it is complete while it is not exact. */
  lemma FalseClaimReached(of: Identities, x: int, y: int, d: Disk, k: nat) returns (ws: seq<World>)
    requires Sound(of) && x != y && of(x).n > 0 && d.meta == Meta(x, true) && ExactSpool(of(x), d) && 1 <= k <= 5
    ensures History(of, ws) && ws[0] == World(d, Stopped, x) && ws[|ws| - 1].process.Stopped?
    ensures ws[|ws| - 1].disk.meta == Meta(x, true) && !ExactSpool(of(x), ws[|ws| - 1].disk)
  {
    ws := CleansUpTo(of, x, y, d, k);
    var dead := World(Cleaned(of(y), y, d, k), Stopped, y);
    assert Crash(of(y), ws[|ws| - 1], dead);
    HistoryOn(of, ws, dead);
    ws := ws + [dead];
    CleanedIs(of(y), y, d, k);
    CleaningWindow(of, x, y, d, k);
  }
}
