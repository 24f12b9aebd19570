/** A run of `compute_to_spool` that is not cut short completes its spool, unless its checkpoint was orphaned by
    another identity's crash. */
module SpoolEnds {
  import opened Basics
  import opened ExactTopK
  import opened Ranking
  import Runs
  import opened SpoolFiles
  import opened SpoolRun
  import opened TopKMerge
  import opened TopKSelect
  import Termination

  /** A step of x's own, without a crash. */
  ghost predicate OwnStep(of: Identities, x: int, w: World, w': World) {
    w'.me == x && (Start(w, w') || (of(x).block >= 1 && w.me == x && Work(of(x), w, w')))
  }

  ghost function OwnSteps(of: Identities, x: int): (World, World) -> bool {
    (w: World, w': World) => OwnStep(of, x, w, w')
  }

  function Completed(x: int): World -> bool {
    (w: World) => w.disk.meta == Meta(x, true)
  }

  /** x may go on from here: nothing it relies on was removed. */
  ghost function Going(of: Identities, x: int): World -> bool {
    (w: World) => Sound(of) && SpoolRun.Inv(of, x, w, false) && (w.process.Stopped? || w.me == x) && w.disk.meta != Meta(x, true)
  }

  /** How many steps are left at most. */
  function Remaining(p: Problem, process: Process): nat
    requires p.block >= 1
  {
    var blocks := p.Blocks();
    match process
    case Stopped => 4 * blocks + 14
    case Cleaning(done) => 4 * blocks + 6 + Termination.Left(6, done)
    case Computing(b, _, _) => 4 * Termination.Left(blocks, b) + 5
    case Writing(b, _, _, _, written) => 4 * Termination.Left(blocks, b) + (if written then 3 else 4)
    case AfterBlock(next, _, _) => 4 * Termination.Left(blocks, next) + 6
    case Finishing(_) => 4
  }

  function Measure(of: Identities, x: int): World -> int {
    (w: World) => if of(x).block >= 1 then Remaining(of(x), w.process) else 0
  }

  // ---- The next step ----

  /** The block at hand can be computed. */
  lemma PhaseExists(p: Problem, b: nat, lists: seq<seq<Entry>>, thresholds: seq<Score>) returns (last: State)
    requires p.Valid() && Enterable(p, lists, thresholds, b) && b < p.Blocks()
    ensures PhaseRun(p, b, lists, thresholds, last.lists, last.thresholds, last.published)
  {
    var s := EntryState(p, lists, thresholds, b);
    EntryInv(p, lists, thresholds, b);
    var run := Termination.PhaseEnds(p, s, b);
    last := run[|run| - 1];
    assert PhaseBy(p, run, last, b, lists, thresholds, last.lists, last.thresholds, last.published);
  }

  function Written(p: Problem, b: nat, f: RowFile, out: map<nat, seq<Entry>>, part: Part): RowFile {
    if f.Missing? then Missing else Cells(Overwrite(f.cells, Times(p.Start(b), p.k), BlockCells(p, b, out, part, p.Rows(b))))
  }

  lemma ComputeExists(p: Problem, x: int, d: Disk, b: nat, lists: seq<seq<Entry>>, thresholds: seq<Score>) returns (process': Process)
    requires p.Valid() && Running(p, x, d, b, b, lists, thresholds) && b < p.Blocks()
    ensures Compute(p, World(d, Computing(b, lists, thresholds), x), World(d, process', x))
    ensures process'.Writing? && process'.b == b && !process'.positionsWritten
  {
    var last := PhaseExists(p, b, lists, thresholds);
    process' := Writing(b, last.lists, last.thresholds, last.published, false);
  }

  /** The next step of a running process of x. */
  lemma WorkExists(p: Problem, x: int, d: Disk, process: Process) returns (d': Disk, process': Process)
    requires p.Valid() && RunningInv(p, x, d, process) && !process.Stopped? && !process.Cleaning?
    requires d.meta != Meta(x, true)
    ensures Work(p, World(d, process, x), World(d', process', x))
    ensures d'.meta == Meta(x, true) || Remaining(p, process') < Remaining(p, process)
  {
    d' := d;
    match process
    case Computing(b, lists, thresholds) =>
      if b == p.Blocks() {
        process' := Finishing(false);
      } else {
        process' := ComputeExists(p, x, d, b, lists, thresholds);
      }
    case Writing(b, lists, thresholds, out, written) =>
      if written {
        d', process' := d.(scores := Written(p, b, d.scores, out, ScorePart)), AfterBlock(b + 1, lists, thresholds);
      } else {
        d', process' := d.(positions := Written(p, b, d.positions, out, PositionPart)), process.(positionsWritten := true);
      }
      assert WriteBlock(p, World(d, process, x), World(d', process', x));
    case AfterBlock(next, lists, thresholds) =>
      process' := Computing(next, lists, thresholds);
      assert NextBlock(p, World(d, process, x), World(d', process', x));
    case Finishing(written) =>
      d', process' := d.(meta := Meta(x, true)), Finishing(true);
      assert Complete(p, World(d, process, x), World(d', process', x));
  }

  lemma CleanExists(of: Identities, x: int, w: World) returns (w': World)
    requires Sound(of) && w.process.Cleaning? && w.process.done <= 5 && w.me == x
    ensures Clean(of(x), w, w') && w'.me == x && Remaining(of(x), w'.process) < Remaining(of(x), w.process)
  {
    var done := w.process.done;
    w' := World(CleanOp(of(x), x, w.disk, done),
                if done == 5 then Computing(0, EmptyLists(of(x)), EmptyThresholds(of(x))) else Cleaning(done + 1), x);
  }

  /** Some step of x's leads on. */
  lemma OwnStepExists(of: Identities, x: int, w: World) returns (w': World)
    requires Going(of, x)(w)
    ensures OwnStep(of, x, w, w') && (w'.disk.meta == Meta(x, true) || Remaining(of(x), w'.process) < Remaining(of(x), w.process))
  {
    if w.process.Stopped? {
      w' := World(w.disk, Entered(w.disk, x), x);
    } else if w.process.Cleaning? {
      w' := CleanExists(of, x, w);
    } else {
      var d', process' := WorkExists(of(x), x, w.disk, w.process);
      w' := World(d', process', x);
      assert w == World(w.disk, w.process, x);
    }
  }

  lemma OwnStepIsStep(of: Identities, x: int, w: World, w': World)
    requires Sound(of) && OwnStep(of, x, w, w')
    ensures Step(of, w, w') && !DiesRemoving(w, w')
  {
  }

  lemma GoesOn(of: Identities, x: int, w: World)
    requires Going(of, x)(w)
    ensures Runs.GoesOn(OwnSteps(of, x), Going(of, x), Completed(x), Measure(of, x), w)
  {
    var w' := OwnStepExists(of, x, w);
    OwnStepIsStep(of, x, w, w');
    SpoolRun.StepKeeps(of, x, w, w', false);
    assert OwnSteps(of, x)(w, w');
  }

  // ---- Completion ----

  /** From here a history of x's own steps without a crash completes the spool. */
  ghost predicate CanComplete(of: Identities, x: int, w: World) {
    exists ws :: Runs.PathTo(OwnSteps(of, x), ws, w, Completed(x))
  }

  lemma Completes(of: Identities, x: int, w: World)
    requires Going(of, x)(w)
    ensures CanComplete(of, x, w)
  {
    forall v | Going(of, x)(v) ensures Runs.GoesOn(OwnSteps(of, x), Going(of, x), Completed(x), Measure(of, x), v) {
      GoesOn(of, x, v);
    }
    var ws := Runs.Reaches(OwnSteps(of, x), Going(of, x), Completed(x), Measure(of, x), w);
  }

  /** Without a lost file, what an interruption left does not stand in x's way. */
  lemma NotLostGoes(of: Identities, x: int, w: World, h: bool)
    requires Sound(of) && SpoolRun.Inv(of, x, w, h) && (w.process.Stopped? || w.me == x) && w.disk.meta != Meta(x, true)
    requires !Lost(x, w.disk)
    ensures Going(of, x)(w)
  {
  }

  /** A lost world: only x is at work, at most as far as its first write. */
  ghost predicate LostWorld(of: Identities, x: int, w: World)
    requires Sound(of)
  {
    Lost(x, w.disk) && w.disk.checkpoint.next < of(x).Blocks()
    && (w.process.Stopped? || (w.me == x && StuckInv(of(x), x, w.disk, w.process)))
  }

  lemma LostStays(of: Identities, x: int, w: World, w': World)
    requires Sound(of) && LostWorld(of, x, w) && OwnStep(of, x, w, w')
    ensures LostWorld(of, x, w')
  {
    if !w.process.Stopped? {
      StuckKeeps(of(x), x, w.disk, w.process, w'.disk, w'.process);
    }
  }

  lemma {:induction false} LostForever(of: Identities, x: int, ws: seq<World>, i: nat)
    requires Sound(of) && Runs.Path(OwnSteps(of, x), ws) && LostWorld(of, x, ws[0]) && i < |ws|
    ensures LostWorld(of, x, ws[i])
  {
    if i > 0 {
      LostForever(of, x, ws, i - 1);
      assert OwnSteps(of, x)(ws[i - 1], ws[i]);
      LostStays(of, x, ws[i - 1], ws[i]);
    }
  }

  lemma LostIsStuck(of: Identities, x: int, w: World, h: bool)
    requires Sound(of) && SpoolRun.Inv(of, x, w, h) && (w.process.Stopped? || w.me == x) && Lost(x, w.disk)
    ensures LostWorld(of, x, w)
  {
  }

  /** In every state of every history, when no other identity is at work: x can complete its spool if and only if it
      has done so or its checkpoint does not lead into a missing positions file. */
  lemma CompletesExactly(of: Identities, x: int, ws: seq<World>, i: nat)
    requires Sound(of) && History(of, ws) && Untouched(ws[0], x) && i < |ws| && (ws[i].process.Stopped? || ws[i].me == x)
    ensures CanComplete(of, x, ws[i]) <==> !Lost(x, ws[i].disk)
  {
    var w, h := ws[i], Interrupted(ws, i);
    HistoryKeeps(of, x, ws, i);
    if w.disk.meta == Meta(x, true) {
      assert Runs.PathTo(OwnSteps(of, x), [w], w, Completed(x));
    } else if Lost(x, w.disk) {
      LostIsStuck(of, x, w, h);
      forall vs | Runs.PathTo(OwnSteps(of, x), vs, w, Completed(x)) ensures false {
        LostForever(of, x, vs, |vs| - 1);
      }
    } else {
      NotLostGoes(of, x, w, h);
      Completes(of, x, w);
    }
  }

  /** Under one identity nothing is ever lost, so after any crashes a restart that is left alone completes. */
  lemma OwnRunsComplete(of: Identities, x: int, ws: seq<World>, i: nat)
    requires Sound(of) && History(of, ws) && Untouched(ws[0], x) && OnlyRuns(ws, x) && i < |ws|
    ensures CanComplete(of, x, ws[i])
  {
    HistoryKeeps(of, x, ws, i);
    OwnNeverInterrupts(of, x, ws, i);
    CompletesExactly(of, x, ws, i);
  }
}
