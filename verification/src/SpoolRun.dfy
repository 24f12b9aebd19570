/** `compute_to_spool`: the steps runs take on one directory's files, under one identity or several, with a crash
    possible between any two of them and in the middle of a row write, and restarts after it. */
module SpoolRun {
  import opened Basics
  import opened ExactTopK
  import opened Ranking
  import opened SpoolFiles
  import opened TopKMerge
  import opened TopKSelect

  /** `meta.json`: which run the directory belongs to, and whether it finished. */
  datatype Meta = NoMeta | Meta(identity: int, complete: bool)

  /** `checkpoint.npz`. */
  datatype Checkpoint = NoCheckpoint | Saved(lists: seq<seq<Entry>>, thresholds: seq<Score>, next: nat)

  datatype Disk = Disk(meta: Meta, checkpoint: Checkpoint, positions: RowFile, scores: RowFile)

  /** Where a live process is. The lists and thresholds are the running state of `exact_top_k`. */
  datatype Process =
    | Stopped
    | Cleaning(done: nat)
    | Computing(b: nat, lists: seq<seq<Entry>>, thresholds: seq<Score>)
    | Writing(b: nat, lists: seq<seq<Entry>>, thresholds: seq<Score>, out: map<nat, seq<Entry>>, positionsWritten: bool)
    | AfterBlock(next: nat, lists: seq<seq<Entry>>, thresholds: seq<Score>)
    | Finishing(metaWritten: bool)

  /** The directory and the process at work in it, one at a time; `me` is the identity it runs under. */
  datatype World = World(disk: Disk, process: Process, me: int)

  /** What an identity computes: the scores, with the sizes. */
  type Identities = int -> Problem

  ghost predicate Sound(of: Identities) {
    forall me {:trigger of(me)} :: of(me).Valid()
  }

  ghost predicate PhaseBy(p: Problem, run: seq<State>, last: State, b: nat, lists: seq<seq<Entry>>, thresholds: seq<Score>,
                          lists': seq<seq<Entry>>, thresholds': seq<Score>, out: map<nat, seq<Entry>>)
    requires p.block >= 1
  {
    && IsRun(p, run) && run[0] == EntryState(p, lists, thresholds, b) && run[|run| - 1] == last
    && last.phase == b + 1 && last.tasks == FreshTasks(p, b + 1)
    && last.lists == lists' && last.thresholds == thresholds' && last.published == out
  }

  /** Some interleaving of block b's phase, entered with the given lists, publishes `out`. */
  ghost predicate PhaseRun(p: Problem, b: nat, lists: seq<seq<Entry>>, thresholds: seq<Score>,
                           lists': seq<seq<Entry>>, thresholds': seq<Score>, out: map<nat, seq<Entry>>)
    requires p.block >= 1
  {
    exists run: seq<State>, last: State :: PhaseBy(p, run, last, b, lists, thresholds, lists', thresholds', out)
  }

  // ---- The steps ----

  /** How a process of identity `me` begins: it returns at once, resumes, or cleans up first. */
  function Entered(d: Disk, me: int): Process {
    if d.meta == Meta(me, true) then Stopped
    else if d.meta == Meta(me, false) && d.checkpoint.Saved? then Computing(d.checkpoint.next, d.checkpoint.lists, d.checkpoint.thresholds)
    else Cleaning(0)
  }

  ghost predicate Start(w: World, w': World) {
    w.process.Stopped? && w' == World(w.disk, Entered(w.disk, w'.me), w'.me)
  }

  /** A row file truncated to its full size. */
  function Blank(p: Problem): RowFile {
    Cells(seq(Times(p.n, p.k), _ => 0))
  }

  /** The k-th file operation of a fresh run: unlink the three files, create the two row files at full size, and
      write the metadata last. */
  function CleanOp(p: Problem, me: int, d: Disk, k: nat): Disk {
    match k
    case 0 => d.(positions := Missing)
    case 1 => d.(scores := Missing)
    case 2 => d.(checkpoint := NoCheckpoint)
    case 3 => d.(positions := Blank(p))
    case 4 => d.(scores := Blank(p))
    case 5 => d.(meta := Meta(me, false))
    case _ => d
  }

  ghost predicate Clean(p: Problem, w: World, w': World) {
    && w.process.Cleaning? && w.process.done <= 5
    && w' == World(CleanOp(p, w.me, w.disk, w.process.done),
                   if w.process.done == 5 then Computing(0, EmptyLists(p), EmptyThresholds(p)) else Cleaning(w.process.done + 1), w.me)
  }

  ghost predicate Compute(p: Problem, w: World, w': World)
    requires p.block >= 1
  {
    && w.process.Computing? && w.process.b < p.Blocks() && w'.process.Writing?
    && w' == World(w.disk, Writing(w.process.b, w'.process.lists, w'.process.thresholds, w'.process.out, false), w.me)
    && PhaseRun(p, w.process.b, w.process.lists, w.process.thresholds, w'.process.lists, w'.process.thresholds, w'.process.out)
  }

  /** `on_block`: the block's positions, then its scores. */
  ghost predicate WriteBlock(p: Problem, w: World, w': World) {
    && w.process.Writing?
    && if !w.process.positionsWritten then
      && w' == World(w.disk.(positions := w'.disk.positions), w.process.(positionsWritten := true), w.me)
      && BlockWritten(p, w.process.b, w.disk.positions, w'.disk.positions, w.process.out, PositionPart)
    else
      && w' == World(w.disk.(scores := w'.disk.scores), AfterBlock(w.process.b + 1, w.process.lists, w.process.thresholds), w.me)
      && BlockWritten(p, w.process.b, w.disk.scores, w'.disk.scores, w.process.out, ScorePart)
  }

  /** `after_block`: a checkpoint when it is due, saved atomically, but none after the last block. */
  ghost predicate NextBlock(p: Problem, w: World, w': World)
    requires p.block >= 1
  {
    && w.process.AfterBlock?
    && w' == World(w'.disk, Computing(w.process.next, w.process.lists, w.process.thresholds), w.me)
    && (w'.disk == w.disk
        || (w.process.next < p.Blocks()
            && w'.disk == w.disk.(checkpoint := Saved(w.process.lists, w.process.thresholds, w.process.next))))
  }

  /** The last block is done: record completion, drop the checkpoint, return. */
  ghost predicate Complete(p: Problem, w: World, w': World)
    requires p.block >= 1
  {
    || (w.process.Computing? && w.process.b == p.Blocks() && w' == w.(process := Finishing(false)))
    || (w.process == Finishing(false) && w' == World(w.disk.(meta := Meta(w.me, true)), Finishing(true), w.me))
    || (w.process == Finishing(true) && w' == World(w.disk.(checkpoint := NoCheckpoint), Stopped, w.me))
  }

  /** The process dies: between two operations, inside a row write, or with a row file created but not yet sized. */
  ghost predicate Crash(p: Problem, w: World, w': World) {
    && !w.process.Stopped? && w'.process.Stopped? && w'.me == w.me
    && (|| w'.disk == w.disk
        || (w.process == Cleaning(3) && w'.disk == w.disk.(positions := Cells([])))
        || (w.process == Cleaning(4) && w'.disk == w.disk.(scores := Cells([])))
        || (w.process.Writing? && !w.process.positionsWritten && w'.disk == w.disk.(positions := w'.disk.positions)
            && BlockTorn(p, w.process.b, w.disk.positions, w'.disk.positions))
        || (w.process.Writing? && w.process.positionsWritten && w'.disk == w.disk.(scores := w'.disk.scores)
            && BlockTorn(p, w.process.b, w.disk.scores, w'.disk.scores)))
  }

  /** A step of the live process. */
  ghost predicate Work(p: Problem, w: World, w': World)
    requires p.block >= 1
  {
    Clean(p, w, w') || Compute(p, w, w') || WriteBlock(p, w, w') || NextBlock(p, w, w') || Complete(p, w, w')
  }

  ghost predicate Step(of: Identities, w: World, w': World) {
    Start(w, w') || (of(w.me).block >= 1 && Work(of(w.me), w, w')) || Crash(of(w.me), w, w')
  }

  ghost predicate History(of: Identities, ws: seq<World>) {
    ws != [] && forall i, j :: 0 <= i && j == i + 1 < |ws| ==> Step(of, ws[i], ws[j])
  }

  /** A directory that is empty or another identity's, in whatever state, and no process at work in it. */
  predicate Untouched(w: World, x: int) {
    w.process.Stopped? && (w.disk.meta.NoMeta? || w.disk.meta.identity != x)
  }

  // ---- When another run's cleaning is cut short ----

  /** The process has begun to remove what was there. */
  predicate Removing(w: World) {
    w.process.Cleaning? && w.process.done >= 1
  }

  /** It dies before it has written its metadata. */
  predicate DiesRemoving(w: World, w': World) {
    Removing(w) && w'.process.Stopped?
  }

  predicate WritesMeta(w: World, w': World) {
    || (w.process == Cleaning(5) && w'.process.Computing?)
    || (w.process == Finishing(false) && w'.process == Finishing(true))
  }

  /** Step m of the history writes the metadata. */
  predicate MetaAt(ws: seq<World>, m: nat) {
    m + 1 < |ws| && WritesMeta(ws[m], ws[m + 1])
  }

  predicate InterruptedAt(ws: seq<World>, j: nat, i: nat) {
    j < i < |ws| && DiesRemoving(ws[j], ws[j + 1]) && forall m: nat :: j < m < i ==> !MetaAt(ws, m)
  }

  /** Since the metadata was last written, some process died between its first unlink and its metadata write. */
  ghost predicate Interrupted(ws: seq<World>, i: nat) {
    exists j: nat :: InterruptedAt(ws, j, i)
  }

  function InterruptedNext(h: bool, w: World, w': World): bool {
    if WritesMeta(w, w') then false else h || DiesRemoving(w, w')
  }

  /** The same, step by step. */
  lemma InterruptedStep(ws: seq<World>, i: nat)
    requires i + 1 < |ws|
    ensures Interrupted(ws, i + 1) <==> InterruptedNext(Interrupted(ws, i), ws[i], ws[i + 1])
  {
    if Interrupted(ws, i + 1) {
      var j: nat :| InterruptedAt(ws, j, i + 1);
      assert j < i ==> InterruptedAt(ws, j, i) && !MetaAt(ws, i);
    }
    if DiesRemoving(ws[i], ws[i + 1]) {
      assert InterruptedAt(ws, i, i + 1);
    } else if Interrupted(ws, i) && !WritesMeta(ws[i], ws[i + 1]) {
      var j: nat :| InterruptedAt(ws, j, i);
      assert InterruptedAt(ws, j, i + 1);
    }
  }

  // ---- The invariant, for the claims of one identity ----

  /** Every row of the blocks below b is final on disk. */
  ghost predicate FinalBelow(p: Problem, d: Disk, b: nat)
    requires p.block >= 1
  {
    FileFinal(p, d.positions, b, PositionPart) && FileFinal(p, d.scores, b, ScorePart)
  }

  /** What x's metadata and checkpoint promise, unless the files under them were being removed. */
  ghost predicate DiskInv(p: Problem, x: int, d: Disk, touched: bool)
    requires p.block >= 1
  {
    && (d.meta == Meta(x, true) ==> if touched then Unusable(d.positions) else FinalBelow(p, d, p.Blocks()))
    && (d.meta == Meta(x, false) && d.checkpoint.Saved? ==>
          && d.checkpoint.next < p.Blocks()
          && if touched then d.positions.Missing?
             else Enterable(p, d.checkpoint.lists, d.checkpoint.thresholds, d.checkpoint.next) && FinalBelow(p, d, d.checkpoint.next))
  }

  predicate CleaningInv(p: Problem, x: int, w: World)
    requires w.process.Cleaning?
  {
    var done := w.process.done;
    && done <= 5
    && (1 <= done <= 3 ==> w.disk.positions.Missing?)
    && (done >= 3 ==> w.disk.checkpoint.NoCheckpoint?)
    && (done >= 4 ==> w.disk.positions == Blank(p))
    && (done >= 5 ==> w.disk.scores == Blank(p))
    && (w.me == x ==> w.disk.meta != Meta(x, true) && (w.disk.meta == Meta(x, false) ==> w.disk.checkpoint.NoCheckpoint?))
  }

  /** A run of x at block b, with its running state. */
  ghost predicate Running(p: Problem, x: int, d: Disk, b: nat, next: nat, lists: seq<seq<Entry>>, thresholds: seq<Score>)
    requires p.block >= 1
  {
    && d.meta == Meta(x, false) && FinalBelow(p, d, b) && Enterable(p, lists, thresholds, next)
    && (d.checkpoint.Saved? ==> d.checkpoint.next <= b)
  }

  ghost predicate WritingInv(p: Problem, x: int, d: Disk, b: nat, lists: seq<seq<Entry>>, thresholds: seq<Score>,
                             out: map<nat, seq<Entry>>, positionsWritten: bool)
    requires p.block >= 1
  {
    && b < p.Blocks() && Running(p, x, d, b, b + 1, lists, thresholds) && BlockExact(p, b, out)
    && (positionsWritten ==> FileFinal(p, d.positions, b + 1, PositionPart))
  }

  ghost predicate RunningInv(p: Problem, x: int, d: Disk, process: Process)
    requires p.block >= 1
  {
    match process
    case Computing(b, lists, thresholds) => Running(p, x, d, b, b, lists, thresholds)
    case Writing(b, lists, thresholds, out, positionsWritten) => WritingInv(p, x, d, b, lists, thresholds, out, positionsWritten)
    case AfterBlock(next, lists, thresholds) => Running(p, x, d, next, next, lists, thresholds)
    case Finishing(metaWritten) => d.meta == Meta(x, metaWritten) && FinalBelow(p, d, p.Blocks())
    case _ => true
  }

  /** x's checkpoint leads into a positions file that is gone. */
  predicate Lost(x: int, d: Disk) {
    d.meta == Meta(x, false) && d.checkpoint.Saved? && d.positions.Missing?
  }

  /** A run resumed from there: no block can be written, so none ever is. */
  predicate StuckInv(p: Problem, x: int, d: Disk, process: Process)
    requires p.block >= 1
  {
    Lost(x, d) && ((process.Computing? && process.b < p.Blocks()) || (process.Writing? && !process.positionsWritten))
  }

  ghost predicate ProcessInv(of: Identities, x: int, w: World, h: bool)
    requires Sound(of)
  {
    match w.process
    case Stopped => true
    case Cleaning(_) => CleaningInv(of(w.me), x, w)
    case _ =>
      if w.me != x then w.disk.meta.Meta? && w.disk.meta.identity == w.me
      else if h then StuckInv(of(x), x, w.disk, w.process)
      else RunningInv(of(x), x, w.disk, w.process)
  }

  ghost predicate Inv(of: Identities, x: int, w: World, h: bool)
    requires Sound(of)
  {
    DiskInv(of(x), x, w.disk, h || Removing(w)) && ProcessInv(of, x, w, h)
  }

  // ---- What a phase gives ----

  lemma PhaseOut(p: Problem, last: State, b: nat)
    requires p.Valid() && ExactTopK.Inv(p, last, b) && last.phase == b + 1
    ensures BlockExact(p, b, last.published)
  {
    forall r: nat | r < p.n && p.BlockOf(r) == b ensures r in last.published && Exact(p, r, last.published[r]) {
      PublishedExact(p, last, b, r);
    }
  }

  lemma PhaseEnd(p: Problem, run: seq<State>, last: State, b: nat, lists: seq<seq<Entry>>, thresholds: seq<Score>)
    requires p.Valid() && Enterable(p, lists, thresholds, b)
    requires IsRun(p, run) && run[0] == EntryState(p, lists, thresholds, b) && run[|run| - 1] == last
    ensures ExactTopK.Inv(p, last, b)
  {
    EntryInv(p, lists, thresholds, b);
    RunKeeps(p, run, b, |run| - 1);
  }

  /** A phase publishes its block's exact lists and leaves lists the next phase may be entered with. */
  lemma PhaseRunExact(p: Problem, b: nat, lists: seq<seq<Entry>>, thresholds: seq<Score>,
                      lists': seq<seq<Entry>>, thresholds': seq<Score>, out: map<nat, seq<Entry>>)
    requires p.Valid() && Enterable(p, lists, thresholds, b)
    requires PhaseRun(p, b, lists, thresholds, lists', thresholds', out)
    ensures Enterable(p, lists', thresholds', b + 1) && BlockExact(p, b, out)
  {
    var run: seq<State>, last: State :| PhaseBy(p, run, last, b, lists, thresholds, lists', thresholds', out);
    PhaseEnd(p, run, last, b, lists, thresholds);
    SavedEnterable(p, last, b);
    PhaseOut(p, last, b);
  }

  // ---- Every step keeps the invariant ----

  lemma StartKeeps(of: Identities, x: int, w: World, w': World, h: bool)
    requires Sound(of) && Inv(of, x, w, h) && Start(w, w')
    ensures Inv(of, x, w', h)
  {
  }

  lemma BlankIsSized(p: Problem)
    requires p.block >= 1
    ensures FileFinal(p, Blank(p), 0, PositionPart) && FileFinal(p, Blank(p), 0, ScorePart) && Zeros(Blank(p))
  {
  }

  lemma CleanKeeps(of: Identities, x: int, w: World, w': World, h: bool)
    requires Sound(of) && Inv(of, x, w, h) && Clean(of(w.me), w, w')
    ensures Inv(of, x, w', InterruptedNext(h, w, w'))
  {
    BlankIsSized(of(w.me));
    if w.process.done == 5 {
      EmptyEnterable(of(w.me));
    }
  }

  lemma BlockComputed(p: Problem, x: int, d: Disk, b: nat, lists: seq<seq<Entry>>, thresholds: seq<Score>,
                      lists': seq<seq<Entry>>, thresholds': seq<Score>, out: map<nat, seq<Entry>>)
    requires p.Valid() && b < p.Blocks() && Running(p, x, d, b, b, lists, thresholds)
    requires PhaseRun(p, b, lists, thresholds, lists', thresholds', out)
    ensures WritingInv(p, x, d, b, lists', thresholds', out, false)
  {
    PhaseRunExact(p, b, lists, thresholds, lists', thresholds', out);
  }

  lemma ComputeKeeps(p: Problem, x: int, d: Disk, process: Process, process': Process)
    requires p.Valid() && RunningInv(p, x, d, process) && Compute(p, World(d, process, x), World(d, process', x))
    ensures RunningInv(p, x, d, process')
  {
    BlockComputed(p, x, d, process.b, process.lists, process.thresholds, process'.lists, process'.thresholds, process'.out);
  }

  lemma PositionsWritten(p: Problem, x: int, d: Disk, g: RowFile, b: nat, lists: seq<seq<Entry>>, thresholds: seq<Score>, out: map<nat, seq<Entry>>)
    requires p.Valid() && WritingInv(p, x, d, b, lists, thresholds, out, false)
    requires BlockWritten(p, b, d.positions, g, out, PositionPart)
    ensures WritingInv(p, x, d.(positions := g), b, lists, thresholds, out, true)
  {
    FileWritten(p, b, d.positions, g, out, PositionPart);
    FileFinalBelow(p, g, b + 1, PositionPart, b);
  }

  lemma PositionsKeep(p: Problem, x: int, d: Disk, g: RowFile, process: Process)
    requires p.Valid() && process.Writing? && !process.positionsWritten && RunningInv(p, x, d, process)
    requires BlockWritten(p, process.b, d.positions, g, process.out, PositionPart)
    ensures RunningInv(p, x, d.(positions := g), process.(positionsWritten := true))
  {
    PositionsWritten(p, x, d, g, process.b, process.lists, process.thresholds, process.out);
  }

  lemma ScoresKeep(p: Problem, x: int, d: Disk, g: RowFile, process: Process)
    requires p.Valid() && process.Writing? && process.positionsWritten && RunningInv(p, x, d, process)
    requires BlockWritten(p, process.b, d.scores, g, process.out, ScorePart)
    ensures RunningInv(p, x, d.(scores := g), AfterBlock(process.b + 1, process.lists, process.thresholds))
  {
    FileWritten(p, process.b, d.scores, g, process.out, ScorePart);
  }

  /** Row files that are final at least as far may take the old ones' place under a checkpoint. */
  lemma CheckpointKept(p: Problem, x: int, d: Disk, d': Disk, b: nat)
    requires p.Valid() && DiskInv(p, x, d, false) && d.meta == d'.meta == Meta(x, false) && d'.checkpoint == d.checkpoint
    requires FinalBelow(p, d', b) && (d.checkpoint.Saved? ==> d.checkpoint.next <= b)
    ensures DiskInv(p, x, d', false)
  {
    if d.checkpoint.Saved? {
      FileFinalBelow(p, d'.positions, b, PositionPart, d.checkpoint.next);
      FileFinalBelow(p, d'.scores, b, ScorePart, d.checkpoint.next);
    }
  }

  ghost predicate Undisturbed(p: Problem, x: int, d: Disk, process: Process)
    requires p.block >= 1
  {
    DiskInv(p, x, d, false) && RunningInv(p, x, d, process)
  }

  lemma WriteScoresKeeps(p: Problem, x: int, d: Disk, g: RowFile, process: Process)
    requires p.Valid() && Undisturbed(p, x, d, process) && process.Writing? && process.positionsWritten
    requires BlockWritten(p, process.b, d.scores, g, process.out, ScorePart)
    ensures Undisturbed(p, x, d.(scores := g), AfterBlock(process.b + 1, process.lists, process.thresholds))
  {
    ScoresKeep(p, x, d, g, process);
    CheckpointKept(p, x, d, d.(scores := g), process.b + 1);
  }

  lemma WritePositionsKeeps(p: Problem, x: int, d: Disk, g: RowFile, process: Process)
    requires p.Valid() && Undisturbed(p, x, d, process) && process.Writing? && !process.positionsWritten
    requires BlockWritten(p, process.b, d.positions, g, process.out, PositionPart)
    ensures Undisturbed(p, x, d.(positions := g), process.(positionsWritten := true))
  {
    PositionsKeep(p, x, d, g, process);
    CheckpointKept(p, x, d, d.(positions := g), process.b);
  }

  lemma WriteKeeps(p: Problem, x: int, d: Disk, process: Process, d': Disk, process': Process)
    requires p.Valid() && Undisturbed(p, x, d, process)
    requires WriteBlock(p, World(d, process, x), World(d', process', x))
    ensures Undisturbed(p, x, d', process')
  {
    if process.positionsWritten {
      WriteScoresKeeps(p, x, d, d'.scores, process);
      assert d' == d.(scores := d'.scores) && process' == AfterBlock(process.b + 1, process.lists, process.thresholds);
    } else {
      WritePositionsKeeps(p, x, d, d'.positions, process);
      assert d' == d.(positions := d'.positions) && process' == process.(positionsWritten := true);
    }
  }

  lemma MoveKeeps(p: Problem, x: int, d: Disk, process: Process, d': Disk, process': Process)
    requires p.Valid() && Undisturbed(p, x, d, process)
    requires NextBlock(p, World(d, process, x), World(d', process', x)) || Complete(p, World(d, process, x), World(d', process', x))
    ensures Undisturbed(p, x, d', process')
  {
  }

  /** x's own undisturbed run. */
  lemma OwnWorkKeeps(p: Problem, x: int, d: Disk, process: Process, d': Disk, process': Process)
    requires p.Valid() && Undisturbed(p, x, d, process) && !process.Cleaning?
    requires Work(p, World(d, process, x), World(d', process', x))
    ensures Undisturbed(p, x, d', process')
  {
    if Compute(p, World(d, process, x), World(d', process', x)) {
      ComputeKeeps(p, x, d, process, process');
    } else if WriteBlock(p, World(d, process, x), World(d', process', x)) {
      WriteKeeps(p, x, d, process, d', process');
    } else {
      MoveKeeps(p, x, d, process, d', process');
    }
  }

  /** x's run into a lost file: it computes, and cannot write. */
  lemma StuckKeeps(p: Problem, x: int, d: Disk, process: Process, d': Disk, process': Process)
    requires p.Valid() && StuckInv(p, x, d, process) && Work(p, World(d, process, x), World(d', process', x))
    ensures d' == d && StuckInv(p, x, d, process')
  {
  }

  predicate AtWork(w: World) {
    !w.process.Stopped? && !w.process.Cleaning?
  }

  /** Another identity's run leaves x without a claim. */
  lemma OtherWorkKeeps(of: Identities, x: int, w: World, w': World, h: bool)
    requires Sound(of) && Inv(of, x, w, h) && w.me != x && AtWork(w) && Work(of(w.me), w, w')
    ensures Inv(of, x, w', InterruptedNext(h, w, w'))
  {
  }

  lemma WorkKeeps(of: Identities, x: int, w: World, w': World, h: bool)
    requires Sound(of) && Inv(of, x, w, h) && AtWork(w) && Work(of(w.me), w, w')
    ensures Inv(of, x, w', InterruptedNext(h, w, w'))
  {
    if w.me != x {
      OtherWorkKeeps(of, x, w, w', h);
    } else if h {
      StuckKeeps(of(x), x, w.disk, w.process, w'.disk, w'.process);
    } else {
      OwnWorkKeeps(of(x), x, w.disk, w.process, w'.disk, w'.process);
    }
  }

  /** A row write cut short leaves what the checkpoint relies on. */
  lemma TornKeeps(p: Problem, x: int, d: Disk, process: Process, d': Disk)
    requires p.Valid() && DiskInv(p, x, d, false) && RunningInv(p, x, d, process) && process.Writing?
    requires Crash(p, World(d, process, x), World(d', Stopped, x))
    ensures DiskInv(p, x, d', false)
  {
    if d.checkpoint.Saved? && d' != d {
      if process.positionsWritten {
        FileTorn(p, process.b, d.scores, d'.scores, ScorePart, d.checkpoint.next);
      } else {
        FileTorn(p, process.b, d.positions, d'.positions, PositionPart, d.checkpoint.next);
      }
    }
  }

  lemma CrashKeeps(of: Identities, x: int, w: World, w': World, h: bool)
    requires Sound(of) && Inv(of, x, w, h) && Crash(of(w.me), w, w')
    ensures Inv(of, x, w', InterruptedNext(h, w, w'))
  {
    if w.me == x && w.process.Writing? && !h {
      TornKeeps(of(x), x, w.disk, w.process, w'.disk);
    }
  }

  lemma StepKeeps(of: Identities, x: int, w: World, w': World, h: bool)
    requires Sound(of) && Inv(of, x, w, h) && Step(of, w, w')
    ensures Inv(of, x, w', InterruptedNext(h, w, w'))
  {
    if Start(w, w') {
      StartKeeps(of, x, w, w', h);
    } else if Crash(of(w.me), w, w') {
      CrashKeeps(of, x, w, w', h);
    } else if Clean(of(w.me), w, w') {
      CleanKeeps(of, x, w, w', h);
    } else {
      WorkKeeps(of, x, w, w', h);
    }
  }

  /** Every state of every history satisfies the invariant. */
  lemma {:induction false} HistoryKeeps(of: Identities, x: int, ws: seq<World>, i: nat)
    requires Sound(of) && History(of, ws) && Untouched(ws[0], x) && i < |ws|
    ensures Inv(of, x, ws[i], Interrupted(ws, i))
  {
    if i == 0 {
      assert !Interrupted(ws, 0);
    } else {
      HistoryKeeps(of, x, ws, i - 1);
      assert Step(of, ws[i - 1], ws[i]);
      StepKeeps(of, x, ws[i - 1], ws[i], Interrupted(ws, i - 1));
      InterruptedStep(ws, i - 1);
    }
  }

  // ---- What it gives ----

  /** The rows of a complete spool: every row is the exact list. */
  ghost predicate ExactSpool(p: Problem, d: Disk) {
    ExactFile(p, d.positions, PositionPart) && ExactFile(p, d.scores, ScorePart)
  }

  lemma FinalIsExact(p: Problem, d: Disk)
    requires p.Valid() && FinalBelow(p, d, p.Blocks())
    ensures ExactSpool(p, d)
  {
    AllBlocksFinal(p, d.positions, PositionPart);
    AllBlocksFinal(p, d.scores, ScorePart);
  }

  /** Main result, for a directory that any number of identities use in turn, with any crashes and restarts: a spool
      whose metadata says complete holds the exact rows if and only if no process has died, or is at work, between
      its first unlink and its metadata write since then. */
  lemma CompleteExactly(of: Identities, x: int, ws: seq<World>, i: nat)
    requires Sound(of) && History(of, ws) && Untouched(ws[0], x) && i < |ws|
    requires ws[i].disk.meta == Meta(x, true) && of(x).n > 0
    ensures ExactSpool(of(x), ws[i].disk) <==> !Interrupted(ws, i) && !Removing(ws[i])
  {
    HistoryKeeps(of, x, ws, i);
    if Interrupted(ws, i) || Removing(ws[i]) {
      UnusableNotExact(of(x), ws[i].disk.positions);
    } else {
      FinalIsExact(of(x), ws[i].disk);
    }
  }

  /** No identity but x is ever at work. */
  predicate OnlyRuns(ws: seq<World>, x: int) {
    forall i :: 0 <= i < |ws| ==> ws[i].process.Stopped? || ws[i].me == x
  }

  /** x's metadata or checkpoint promises something of the row files. */
  predicate Claims(x: int, d: Disk) {
    d.meta == Meta(x, true) || (d.meta == Meta(x, false) && d.checkpoint.Saved?)
  }

  /** x's own steps never remove what it has claimed. */
  lemma OwnStepHonest(of: Identities, x: int, w: World, w': World, h: bool)
    requires Sound(of) && Inv(of, x, w, h) && Step(of, w, w') && InterruptedNext(h, w, w')
    requires (w.process.Stopped? || w.me == x) && (h ==> !Claims(x, w.disk))
    ensures !Claims(x, w'.disk)
  {
  }

  /** If x's row files were cut off, x had claimed nothing of them. */
  ghost predicate NoFalseClaim(x: int, ws: seq<World>, i: nat)
    requires i < |ws|
  {
    Interrupted(ws, i) ==> !Claims(x, ws[i].disk)
  }

  lemma HonestAt(of: Identities, x: int, ws: seq<World>, i: nat)
    requires Sound(of) && History(of, ws) && Untouched(ws[0], x) && OnlyRuns(ws, x) && i + 1 < |ws|
    requires NoFalseClaim(x, ws, i)
    ensures NoFalseClaim(x, ws, i + 1)
  {
    if Interrupted(ws, i + 1) {
      InterruptedStep(ws, i);
      HistoryKeeps(of, x, ws, i);
      OwnStepHonest(of, x, ws[i], ws[i + 1], Interrupted(ws, i));
    }
  }

  lemma {:induction false} OwnNeverInterrupts(of: Identities, x: int, ws: seq<World>, i: nat)
    requires Sound(of) && History(of, ws) && Untouched(ws[0], x) && OnlyRuns(ws, x) && i < |ws|
    ensures NoFalseClaim(x, ws, i)
  {
    if i > 0 {
      OwnNeverInterrupts(of, x, ws, i - 1);
      HonestAt(of, x, ws, i - 1);
    }
  }

  /** Under one identity, from an empty directory or another run's leftovers, over any crashes and restarts: whenever
      the metadata says complete, every row on disk is the exact list. */
  lemma CompleteMeansExact(of: Identities, x: int, ws: seq<World>, i: nat)
    requires Sound(of) && History(of, ws) && Untouched(ws[0], x) && OnlyRuns(ws, x) && i < |ws|
    requires ws[i].disk.meta == Meta(x, true)
    ensures ExactSpool(of(x), ws[i].disk)
  {
    HistoryKeeps(of, x, ws, i);
    OwnNeverInterrupts(of, x, ws, i);
    FinalIsExact(of(x), ws[i].disk);
  }

  /** Two histories that completed, one of them perhaps uninterrupted, left the same two files. */
  lemma SameSpool(of: Identities, x: int, ws: seq<World>, i: nat, vs: seq<World>, j: nat)
    requires Sound(of) && History(of, ws) && Untouched(ws[0], x) && OnlyRuns(ws, x) && i < |ws| && ws[i].disk.meta == Meta(x, true)
    requires History(of, vs) && Untouched(vs[0], x) && OnlyRuns(vs, x) && j < |vs| && vs[j].disk.meta == Meta(x, true)
    ensures ws[i].disk.positions == vs[j].disk.positions && ws[i].disk.scores == vs[j].disk.scores
  {
    CompleteMeansExact(of, x, ws, i);
    CompleteMeansExact(of, x, vs, j);
    ExactFileUnique(of(x), ws[i].disk.positions, vs[j].disk.positions, PositionPart);
    ExactFileUnique(of(x), ws[i].disk.scores, vs[j].disk.scores, ScorePart);
  }

  /** The directory after the first k operations of another identity's fresh run. */
  function Cleaned(p: Problem, me: int, d: Disk, k: nat): Disk {
    if k == 0 then d else CleanOp(p, me, Cleaned(p, me, d, k - 1), k - 1)
  }

  lemma {:induction false} CleanedIs(p: Problem, me: int, d: Disk, k: nat)
    requires k <= 6
    ensures var left := Cleaned(p, me, d, k);
      && (k <= 5 ==> left.meta == d.meta) && (k == 6 ==> left.meta == Meta(me, false))
      && (1 <= k <= 3 ==> left.positions.Missing?) && (4 <= k ==> left.positions == Blank(p))
  {
    if k > 0 {
      CleanedIs(p, me, d, k - 1);
    }
  }

  /** The window, operation by operation: a crash before the first of the six or after the last leaves no false
      claim, and a crash anywhere between them does. */
  lemma CleaningWindow(of: Identities, x: int, y: int, d: Disk, k: nat)
    requires Sound(of) && x != y && of(x).n > 0 && d.meta == Meta(x, true) && ExactSpool(of(x), d) && k <= 6
    ensures var left := Cleaned(of(y), y, d, k);
      (left.meta == Meta(x, true) ==> ExactSpool(of(x), left)) <==> k == 0 || k == 6
  {
    var left := Cleaned(of(y), y, d, k);
    CleanedIs(of(y), y, d, k);
    if 1 <= k <= 5 {
      BlankIsSized(of(y));
      UnusableNotExact(of(x), left.positions);
    }
  }
}
