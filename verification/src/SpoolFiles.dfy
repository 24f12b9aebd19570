/** The row files of a spool as their four-byte cells: `_write_rows` seeks and overwrites, and a crash inside it
    leaves anything in the cells it was to write. */
module SpoolFiles {
  import opened Basics
  import opened ExactTopK
  import opened Ranking
  import opened TopKMerge
  import opened TopKSelect

  /** A row file, `positions.i32` or `scores.f32`: k cells a row, row after row. */
  datatype RowFile = Missing | Cells(cells: seq<int>)

  function Positions(l: seq<Entry>): seq<int> { seq(|l|, i requires 0 <= i < |l| => l[i].pos) }

  function Scores(l: seq<Entry>): seq<int> { seq(|l|, i requires 0 <= i < |l| => l[i].score) }

  /** What a row file keeps of a published list. */
  datatype Part = PositionPart | ScorePart

  function PartOf(part: Part, l: seq<Entry>): (r: seq<int>)
    ensures |r| == |l|
  {
    if part.PositionPart? then Positions(l) else Scores(l)
  }

  /** Row r of a file with `k` cells a row. */
  function RowAt(cells: seq<int>, k: nat, r: nat): seq<int> {
    if Times(r, k) + k <= |cells| then cells[Times(r, k)..Times(r, k) + k] else []
  }

  // ---- Writing ----

  /** Writing `data` at cell `start`: a gap before it reads as zeros, what is behind it stays. */
  function Overwrite(cells: seq<int>, start: nat, data: seq<int>): (r: seq<int>) {
    var reach := if |cells| < start then cells + seq(start - |cells|, _ => 0) else cells;
    reach[..start] + data + (if start + |data| < |reach| then reach[start + |data|..] else [])
  }

  /** Local row x of block b as `on_block` is given it. */
  function BlockRow(p: Problem, b: nat, out: map<nat, seq<Entry>>, part: Part, x: nat): seq<int> {
    if p.Start(b) + x in out then PartOf(part, out[p.Start(b) + x]) else []
  }

  /** The first `m` of them, joined. */
  function BlockCells(p: Problem, b: nat, out: map<nat, seq<Entry>>, part: Part, m: nat): seq<int> {
    if m == 0 then [] else BlockCells(p, b, out, part, m - 1) + BlockRow(p, b, out, part, m - 1)
  }

  /** `_write_rows` of a block: seek to `start_row * row_bytes` and write. */
  ghost predicate BlockWritten(p: Problem, b: nat, was: RowFile, now: RowFile, out: map<nat, seq<Entry>>, part: Part) {
    was.Cells? && now == Cells(Overwrite(was.cells, Times(p.Start(b), p.k), BlockCells(p, b, out, part, p.Rows(b))))
  }

  predicate InBlockCells(p: Problem, b: nat, i: nat) {
    Times(p.Start(b), p.k) <= i < Times(p.Start(b) + p.Rows(b), p.k)
  }

  /** A crash inside it: the cells to be written may hold anything. */
  ghost predicate BlockTorn(p: Problem, b: nat, was: RowFile, now: RowFile) {
    && was.Cells? && now.Cells? && |now.cells| == |was.cells|
    && forall i :: 0 <= i < |was.cells| && !InBlockCells(p, b, i) ==> now.cells[i] == was.cells[i]
  }

  // ---- Where rows lie ----

  lemma {:induction false} TimesRise(a: nat, b: nat, k: nat)
    requires a <= b
    ensures Times(a, k) <= Times(b, k)
    decreases b
  {
    if a < b {
      TimesRise(a, b - 1, k);
    }
  }

  lemma {:induction false} TimesSum(a: nat, b: nat, k: nat)
    ensures Times(a + b, k) == Times(a, k) + Times(b, k)
  {
    if a > 0 {
      TimesSum(a - 1, b, k);
    }
  }

  /** No cell of a row outside block b is among the block's cells. */
  lemma RowApart(p: Problem, b: nat, r: nat, i: nat)
    requires p.block >= 1 && r < p.n && p.BlockOf(r) != b && Times(r, p.k) <= i < Times(r, p.k) + p.k
    ensures !InBlockCells(p, b, i)
  {
    p.RowInBlock(r, b);
    if r < p.Start(b) {
      TimesRise(r + 1, p.Start(b), p.k);
    } else {
      TimesRise(p.Start(b) + p.Rows(b), r, p.k);
    }
  }

  lemma RowFits(p: Problem, r: nat)
    requires r < p.n
    ensures Times(r, p.k) + p.k <= Times(p.n, p.k)
  {
    TimesRise(r + 1, p.n, p.k);
  }

  // ---- What a file may hold ----

  /** Row r of a file holds its part of the exact list. */
  ghost predicate FinalRow(p: Problem, r: nat, row: seq<int>, part: Part) {
    exists l :: Exact(p, r, l) && row == PartOf(part, l)
  }

  /** The file has its full size, and its rows of the blocks below b are final. */
  ghost predicate FileFinal(p: Problem, f: RowFile, b: nat, part: Part)
    requires p.block >= 1
  {
    && f.Cells? && |f.cells| == Times(p.n, p.k)
    && forall r: nat :: r < p.n && p.BlockOf(r) < b ==> FinalRow(p, r, RowAt(f.cells, p.k, r), part)
  }

  ghost predicate BlockExact(p: Problem, b: nat, out: map<nat, seq<Entry>>)
    requires p.block >= 1
  {
    forall r: nat :: r < p.n && p.BlockOf(r) == b ==> r in out && Exact(p, r, out[r])
  }

  lemma FileFinalBelow(p: Problem, f: RowFile, b: nat, part: Part, c: nat)
    requires p.block >= 1 && FileFinal(p, f, b, part) && c <= b
    ensures FileFinal(p, f, c, part)
  {
  }

  /** A torn write leaves every row of every other block as it was. */
  lemma TornElsewhere(p: Problem, b: nat, was: RowFile, now: RowFile, r: nat)
    requires p.block >= 1 && BlockTorn(p, b, was, now) && |was.cells| == Times(p.n, p.k) && r < p.n && p.BlockOf(r) != b
    ensures RowAt(now.cells, p.k, r) == RowAt(was.cells, p.k, r)
  {
    RowFits(p, r);
    forall i | Times(r, p.k) <= i < Times(r, p.k) + p.k ensures now.cells[i] == was.cells[i] {
      RowApart(p, b, r, i);
    }
  }

  /** So the blocks below its own stay final. */
  lemma FileTorn(p: Problem, b: nat, was: RowFile, now: RowFile, part: Part, c: nat)
    requires p.Valid() && FileFinal(p, was, c, part) && c <= b && BlockTorn(p, b, was, now)
    ensures FileFinal(p, now, c, part)
  {
    forall r: nat | r < p.n && p.BlockOf(r) < c ensures FinalRow(p, r, RowAt(now.cells, p.k, r), part) {
      TornElsewhere(p, b, was, now, r);
    }
  }

  /** The joined rows of a block, each `k` cells, and where each of them lies. */
  lemma {:induction false} BlockCellsAt(p: Problem, b: nat, out: map<nat, seq<Entry>>, part: Part, m: nat, x: nat)
    requires forall y: nat :: y < m ==> |BlockRow(p, b, out, part, y)| == p.k
    ensures |BlockCells(p, b, out, part, m)| == Times(m, p.k)
    ensures x < m ==> Times(x, p.k) + p.k <= Times(m, p.k)
    ensures x < m ==> BlockCells(p, b, out, part, m)[Times(x, p.k)..Times(x, p.k) + p.k] == BlockRow(p, b, out, part, x)
    decreases m
  {
    if m > 0 {
      BlockCellsAt(p, b, out, part, m - 1, x);
      var front, last := BlockCells(p, b, out, part, m - 1), BlockRow(p, b, out, part, m - 1);
      if x < m - 1 {
        assert (front + last)[Times(x, p.k)..Times(x, p.k) + p.k] == front[Times(x, p.k)..Times(x, p.k) + p.k];
      }
    }
  }

  lemma BlockRowsFull(p: Problem, b: nat, out: map<nat, seq<Entry>>, part: Part)
    requires p.block >= 1 && BlockExact(p, b, out)
    ensures forall x: nat :: x < p.Rows(b) ==> |BlockRow(p, b, out, part, x)| == p.k
  {
    forall x: nat | x < p.Rows(b) ensures |BlockRow(p, b, out, part, x)| == p.k {
      p.RowInBlock(p.Start(b) + x, b);
    }
  }

  lemma OverwriteAt(cells: seq<int>, start: nat, data: seq<int>, lo: nat, hi: nat)
    requires start + |data| <= |cells| && lo <= hi <= |data|
    ensures |Overwrite(cells, start, data)| == |cells|
    ensures Overwrite(cells, start, data)[start + lo..start + hi] == data[lo..hi]
    ensures forall i :: 0 <= i < |cells| && !(start <= i < start + |data|) ==> Overwrite(cells, start, data)[i] == cells[i]
  {
  }

  /** The block's cells are those its rows fill. */
  lemma BlockFits(p: Problem, b: nat, out: map<nat, seq<Entry>>, part: Part)
    requires p.Valid() && BlockExact(p, b, out) && b < p.Blocks()
    ensures Times(p.Start(b), p.k) + |BlockCells(p, b, out, part, p.Rows(b))| == Times(p.Start(b) + p.Rows(b), p.k) <= Times(p.n, p.k)
  {
    BlockHasRows(p, b);
    BlockRowsFull(p, b, out, part);
    BlockCellsAt(p, b, out, part, p.Rows(b), 0);
    TimesSum(p.Start(b), p.Rows(b), p.k);
    TimesRise(p.Start(b) + p.Rows(b), p.n, p.k);
  }

  /** A write keeps the file's size and touches none but the block's cells. */
  lemma WriteInBlock(p: Problem, b: nat, was: RowFile, now: RowFile, out: map<nat, seq<Entry>>, part: Part)
    requires p.Valid() && was.Cells? && |was.cells| == Times(p.n, p.k) && BlockExact(p, b, out) && b < p.Blocks()
    requires BlockWritten(p, b, was, now, out, part)
    ensures BlockTorn(p, b, was, now)
  {
    BlockFits(p, b, out, part);
    OverwriteAt(was.cells, Times(p.Start(b), p.k), BlockCells(p, b, out, part, p.Rows(b)), 0, 0);
  }

  /** A stretch of the data, read back from where it was written. */
  lemma PlacedAt(cells: seq<int>, start: nat, data: seq<int>, lo: nat, k: nat, at: nat, row: seq<int>)
    requires start + |data| <= |cells| && lo + k <= |data| && data[lo..lo + k] == row && at == start + lo
    ensures at + k <= |Overwrite(cells, start, data)| && Overwrite(cells, start, data)[at..at + k] == row
  {
    OverwriteAt(cells, start, data, lo, lo + k);
  }

  /** It puts each of the block's rows in its place. */
  lemma RowPlaced(p: Problem, b: nat, was: RowFile, now: RowFile, out: map<nat, seq<Entry>>, part: Part, x: nat)
    requires p.Valid() && was.Cells? && |was.cells| == Times(p.n, p.k) && BlockExact(p, b, out) && b < p.Blocks()
    requires BlockWritten(p, b, was, now, out, part) && x < p.Rows(b)
    ensures RowAt(now.cells, p.k, p.Start(b) + x) == BlockRow(p, b, out, part, x)
  {
    BlockFits(p, b, out, part);
    BlockRowsFull(p, b, out, part);
    BlockCellsAt(p, b, out, part, p.Rows(b), x);
    TimesSum(p.Start(b), x, p.k);
    PlacedAt(was.cells, Times(p.Start(b), p.k), BlockCells(p, b, out, part, p.Rows(b)), Times(x, p.k), p.k,
             Times(p.Start(b) + x, p.k), BlockRow(p, b, out, part, x));
  }

  lemma FinalIs(p: Problem, r: nat, l: seq<Entry>, part: Part)
    requires Exact(p, r, l)
    ensures FinalRow(p, r, PartOf(part, l), part)
  {
  }

  lemma OwnRow(p: Problem, b: nat, was: RowFile, now: RowFile, out: map<nat, seq<Entry>>, part: Part, r: nat)
    requires p.Valid() && was.Cells? && |was.cells| == Times(p.n, p.k) && BlockExact(p, b, out) && b < p.Blocks()
    requires BlockWritten(p, b, was, now, out, part) && r < p.n && p.BlockOf(r) == b
    ensures RowAt(now.cells, p.k, r) == PartOf(part, out[r])
  {
    var x := LocalRow(p, b, r);
    RowPlaced(p, b, was, now, out, part, x);
    assert BlockRow(p, b, out, part, x) == PartOf(part, out[r]);
  }

  lemma FileWritten(p: Problem, b: nat, was: RowFile, now: RowFile, out: map<nat, seq<Entry>>, part: Part)
    requires p.Valid() && FileFinal(p, was, b, part) && BlockExact(p, b, out) && BlockWritten(p, b, was, now, out, part)
    requires b < p.Blocks()
    ensures FileFinal(p, now, b + 1, part)
  {
    WriteInBlock(p, b, was, now, out, part);
    FileTorn(p, b, was, now, part, b);
    forall r: nat | r < p.n && p.BlockOf(r) < b + 1 ensures FinalRow(p, r, RowAt(now.cells, p.k, r), part) {
      if p.BlockOf(r) == b {
        OwnRow(p, b, was, now, out, part, r);
        FinalIs(p, r, out[r], part);
      }
    }
  }

  // ---- Whole files ----

  /** Every row is final. */
  ghost predicate ExactFile(p: Problem, f: RowFile, part: Part) {
    && f.Cells? && |f.cells| == Times(p.n, p.k)
    && forall r: nat :: r < p.n ==> FinalRow(p, r, RowAt(f.cells, p.k, r), part)
  }

  lemma AllBlocksFinal(p: Problem, f: RowFile, part: Part)
    requires p.Valid() && FileFinal(p, f, p.Blocks(), part)
    ensures ExactFile(p, f, part)
  {
    forall r: nat | r < p.n ensures FinalRow(p, r, RowAt(f.cells, p.k, r), part) {
      BlockInRange(p, r);
    }
  }

  /** Cell i belongs to one row. */
  lemma {:induction false} RowOfCell(n: nat, k: nat, i: nat) returns (r: nat)
    requires i < Times(n, k)
    ensures r < n && Times(r, k) <= i < Times(r, k) + k
    decreases n
  {
    if Times(n - 1, k) <= i {
      r := n - 1;
    } else {
      r := RowOfCell(n - 1, k, i);
    }
  }

  lemma RowUnique(p: Problem, r: nat, row: seq<int>, other: seq<int>, part: Part)
    requires FinalRow(p, r, row, part) && FinalRow(p, r, other, part)
    ensures row == other
  {
    var a :| Exact(p, r, a) && row == PartOf(part, a);
    var b :| Exact(p, r, b) && other == PartOf(part, b);
    PublishedUnique(a, b, TopSet(Others(p, r), p.k));
  }

  /** There is one exact file. */
  lemma ExactFileUnique(p: Problem, f: RowFile, g: RowFile, part: Part)
    requires p.Valid() && ExactFile(p, f, part) && ExactFile(p, g, part)
    ensures f == g
  {
    forall i | 0 <= i < |f.cells| ensures f.cells[i] == g.cells[i] {
      var r := RowOfCell(p.n, p.k, i);
      RowFits(p, r);
      RowUnique(p, r, RowAt(f.cells, p.k, r), RowAt(g.cells, p.k, r), part);
      assert f.cells[i] == RowAt(f.cells, p.k, r)[i - Times(r, p.k)];
    }
  }

  // ---- Files that no exact run left ----

  /** A file just created by truncation, of whatever size. */
  predicate Zeros(f: RowFile) {
    f.Cells? && forall i :: 0 <= i < |f.cells| ==> f.cells[i] == 0
  }

  predicate Unusable(f: RowFile) {
    f.Missing? || Zeros(f)
  }

  lemma RanksMember(a: seq<Entry>, s: set<Entry>)
    requires Ranks(a, s) && s != {}
    ensures a != [] && a[0] in s
  {
    RankingSize(a, s);
  }

  lemma FirstNotSelf(p: Problem, l: seq<Entry>)
    requires p.k >= 1 && Exact(p, 0, l)
    ensures |l| == p.k && l[0].pos != 0
  {
    var s := TopSet(Others(p, 0), p.k);
    if s != {} {
      RanksMember(l[..|s|], s);
    } else {
      assert l[0] == UNFILLED;
    }
  }

  lemma FirstCell(p: Problem, f: RowFile)
    requires p.Valid() && p.n > 0 && ExactFile(p, f, PositionPart)
    ensures |f.cells| > 0 && f.cells[0] != 0
  {
    RowFits(p, 0);
    var l :| Exact(p, 0, l) && RowAt(f.cells, p.k, 0) == PartOf(PositionPart, l);
    FirstNotSelf(p, l);
    assert RowAt(f.cells, p.k, 0)[0] == f.cells[0];
  }

  /** A missing or blank positions file is never exact: row 0's first neighbour is not row 0. */
  lemma UnusableNotExact(p: Problem, f: RowFile)
    requires p.Valid() && p.n > 0 && Unusable(f)
    ensures !ExactFile(p, f, PositionPart)
  {
    if ExactFile(p, f, PositionPart) {
      FirstCell(p, f);
    }
  }
}
