/** Every interleaving of `exact_top_k`'s tasks ends: each step lowers a measure, and a run that can go no further
    has published every row. */
module Termination {
  import opened Basics
  import opened ExactTopK
  import opened Ranking
  import Runs
  import opened TopKMerge
  import opened TopKSelect

  function Left(n: nat, done: nat): nat {
    if done <= n then n - done else 0
  }

  /** The steps of the column update that is still to come. */
  function ColumnLeft(n: nat, col: bool): nat {
    if col then 0 else 3 * n + 2
  }

  /** How many more steps a task can take at most, over `n` rows. */
  function TaskLeft(n: nat, l: Local): nat {
    match l
    case Finished => 0
    case Reading(col, read) => ColumnLeft(n, col) + Left(n, |read|) + 2 * n + 2
    case Holding(col, _, loaded, stored) => ColumnLeft(n, col) + Left(n, |loaded|) + Left(n, |stored|) + 1
  }

  function MostLeft(n: nat): nat {
    6 * n + 4
  }

  function TasksLeft(n: nat, tasks: map<nat, Local>, m: nat): nat {
    if m == 0 then 0 else TasksLeft(n, tasks, m - 1) + (if m - 1 in tasks then TaskLeft(n, tasks[m - 1]) else 0)
  }

  function PhaseSteps(p: Problem): nat
    requires p.block >= 1
  {
    Times(p.Blocks(), MostLeft(p.n)) + 1
  }

  /** The measure: whole phases to come, then what is left of the present one. */
  function Measure(p: Problem, s: State): nat
    requires p.block >= 1
  {
    Times(Left(p.Blocks(), s.phase), PhaseSteps(p)) + TasksLeft(p.n, s.tasks, p.Blocks())
  }

  lemma {:induction false} SameLeft(n: nat, tasks: map<nat, Local>, tasks': map<nat, Local>, m: nat)
    requires forall j: nat :: j < m ==> (j in tasks <==> j in tasks') && (j in tasks ==> tasks[j] == tasks'[j])
    ensures TasksLeft(n, tasks, m) == TasksLeft(n, tasks', m)
  {
    if m > 0 {
      SameLeft(n, tasks, tasks', m - 1);
    }
  }

  /** When one task's remainder shrinks, the total does. */
  lemma {:induction false} OneLess(n: nat, tasks: map<nat, Local>, j: nat, l: Local, m: nat)
    requires j < m && j in tasks && TaskLeft(n, l) < TaskLeft(n, tasks[j])
    ensures TasksLeft(n, tasks[j := l], m) < TasksLeft(n, tasks, m)
    decreases m
  {
    if j == m - 1 {
      SameLeft(n, tasks, tasks[j := l], m - 1);
    } else {
      OneLess(n, tasks, j, l, m - 1);
    }
  }

  lemma {:induction false} LeftAtMost(n: nat, tasks: map<nat, Local>, m: nat)
    ensures TasksLeft(n, tasks, m) <= Times(m, MostLeft(n))
  {
    if m > 0 {
      LeftAtMost(n, tasks, m - 1);
    }
  }

  lemma {:induction false} BelowSize(s: set<nat>, n: nat)
    requires forall x :: x in s ==> x < n
    ensures |s| <= n
  {
    if n == 0 {
      assert s == {};
    } else {
      BelowSize(s - {n - 1}, n - 1);
      assert s <= (s - {n - 1}) + {n - 1};
      SubsetSize(s, (s - {n - 1}) + {n - 1});
    }
  }

  /** One row more among fewer than `n`. */
  lemma RowsLeft(keys: set<nat>, r: nat, n: nat)
    requires r !in keys && r < n && forall x :: x in keys ==> x < n
    ensures Left(n, |keys + {r}|) < Left(n, |keys|)
  {
    BelowSize(keys + {r}, n);
  }

  lemma ReadBelow(p: Problem, s: State, j: nat)
    requires p.block >= 1 && |s.folded| == |s.lists| == p.n && j in s.tasks && TaskInv(p, s, j) && !s.tasks[j].Finished?
    ensures forall r :: r in s.tasks[j].read ==> r < p.n
  {
    forall r | r in s.tasks[j].read ensures r < p.n {
      assert ReadInv(p, r, Target(s, j, s.tasks[j].col), s.tasks[j].read[r], s.folded);
    }
  }

  lemma MapSize<V>(m: map<nat, V>)
    ensures |m| == |m.Keys|
  {
  }

  lemma ReadLess(p: Problem, s: State, j: nat, r: nat)
    requires p.block >= 1 && |s.folded| == |s.lists| == p.n && j in s.tasks && TaskInv(p, s, j) && CanRead(p, s, j, r)
    ensures TaskLeft(p.n, DoRead(s, j, r).tasks[j]) < TaskLeft(p.n, s.tasks[j])
  {
    ReadBelow(p, s, j);
    KeyAdded(s.tasks[j].read, r, s.thresholds[r], p.n);
  }

  /** One row more under a map. */
  lemma KeyAdded<V>(m: map<nat, V>, r: nat, v: V, n: nat)
    requires r !in m && r < n && forall x :: x in m ==> x < n
    ensures Left(n, |m[r := v]|) < Left(n, |m|)
  {
    RowsLeft(m.Keys, r, n);
    assert m[r := v].Keys == m.Keys + {r};
    MapSize(m);
    MapSize(m[r := v]);
  }

  lemma LoadLess(p: Problem, s: State, j: nat, r: nat)
    requires p.block >= 1 && |s.folded| == |s.lists| == p.n && j in s.tasks && TaskInv(p, s, j) && CanLoad(p, s, j, r)
    ensures TaskLeft(p.n, DoLoad(s, j, r).tasks[j]) < TaskLeft(p.n, s.tasks[j])
  {
    ReadBelow(p, s, j);
    KeyAdded(s.tasks[j].loaded, r, s.lists[r], p.n);
  }

  lemma StoreLess(p: Problem, s: State, j: nat, r: nat, merged: seq<Entry>)
    requires p.block >= 1 && |s.folded| == |s.lists| == p.n && j in s.tasks && TaskInv(p, s, j) && CanStore(p, s, j, r, merged)
    ensures TaskLeft(p.n, DoStore(s, j, r, merged).tasks[j]) < TaskLeft(p.n, s.tasks[j])
  {
    ReadBelow(p, s, j);
    RowsLeft(s.tasks[j].stored, r, p.n);
  }

  lemma LockLess(n: nat, col: bool, read: map<nat, Score>)
    ensures TaskLeft(n, Holding(col, read, map[], {})) < TaskLeft(n, Reading(col, read))
  {
  }

  lemma OverLess(n: nat, s: State, j: nat, l: Local)
    requires !l.Finished?
    ensures TaskLeft(n, NextLocal(s, j, l.col)) < TaskLeft(n, l)
  {
  }

  /** The end of a phase outweighs all the steps its successor can take. */
  lemma PhaseFalls(blocks: nat, phase: nat, steps: nat, over: nat, begun: nat)
    requires phase < blocks && begun < steps
    ensures Times(Left(blocks, phase + 1), steps) + begun < Times(Left(blocks, phase), steps) + over
  {
    assert Left(blocks, phase) == Left(blocks, phase + 1) + 1;
  }

  lemma BegunAtMost(p: Problem, tasks: map<nat, Local>)
    requires p.block >= 1
    ensures TasksLeft(p.n, tasks, p.Blocks()) < PhaseSteps(p)
  {
    LeftAtMost(p.n, tasks, p.Blocks());
  }

  lemma FinishLess(p: Problem, s: State)
    requires p.Valid() && CanFinish(p, s)
    ensures Measure(p, DoFinish(p, s)) < Measure(p, s)
  {
    BegunAtMost(p, FreshTasks(p, s.phase + 1));
    PhaseFalls(p.Blocks(), s.phase, PhaseSteps(p), TasksLeft(p.n, s.tasks, p.Blocks()),
               TasksLeft(p.n, FreshTasks(p, s.phase + 1), p.Blocks()));
  }

  /** Step `a` moves task `j` on by one. */
  lemma TaskStepLess(p: Problem, s: State, start: nat, a: Action)
    requires p.Valid() && Inv(p, s, start) && Enabled(p, s, a) && !a.Finish?
    ensures a.j in s.tasks && a.j < p.Blocks() && Apply(p, s, a).phase == s.phase
    ensures var t := Apply(p, s, a).tasks; a.j in t && t == s.tasks[a.j := t[a.j]] && TaskLeft(p.n, t[a.j]) < TaskLeft(p.n, s.tasks[a.j])
  {
    assert TaskInv(p, s, a.j);
    match a
    case Read(j, r) => ReadLess(p, s, j, r);
    case Lock(j) => LockLess(p.n, s.tasks[j].col, s.tasks[j].read);
    case Load(j, r) => LoadLess(p, s, j, r);
    case Store(j, r, merged) => StoreLess(p, s, j, r, merged);
    case Unlock(j) => OverLess(p.n, s, j, s.tasks[j]);
    case Skip(j) => OverLess(p.n, s, j, s.tasks[j]);
  }

  /** Every step of every interleaving lowers the measure. */
  lemma StepLess(p: Problem, s: State, start: nat, a: Action)
    requires p.Valid() && Inv(p, s, start) && Enabled(p, s, a)
    ensures Measure(p, Apply(p, s, a)) < Measure(p, s)
  {
    if a.Finish? {
      FinishLess(p, s);
    } else {
      TaskStepLess(p, s, start, a);
      OneLess(p.n, s.tasks, a.j, Apply(p, s, a).tasks[a.j], p.Blocks());
    }
  }

  lemma {:induction false} RunFalls(p: Problem, run: seq<State>, start: nat, i: nat)
    requires p.Valid() && IsRun(p, run) && Inv(p, run[0], start) && start <= run[0].phase && i < |run|
    ensures Measure(p, run[i]) + i <= Measure(p, run[0])
  {
    if i > 0 {
      RunFalls(p, run, start, i - 1);
      RunKeeps(p, run, start, i - 1);
      assert Next(p, run[i - 1], run[i]);
      var a :| IsStep(p, run[i - 1], a, run[i]);
      StepLess(p, run[i - 1], start, a);
    }
  }

  /** No step can be taken. */
  ghost predicate Stopped(p: Problem, s: State)
    requires p.block >= 1
  {
    forall a :: !Enabled(p, s, a)
  }

  lemma StoppedAtEnd(p: Problem, s: State, start: nat)
    requires p.Valid() && Inv(p, s, start)
    ensures Stopped(p, s) <==> s.phase == p.Blocks()
  {
    if s.phase < p.Blocks() {
      var a := Progress(p, s, start);
    } else {
      assert s.tasks.Keys == {};
    }
  }

  /** Runs are no longer than the measure of their first state allows, and one that cannot be continued has
      published every row's exact list. */
  lemma RunsEnd(p: Problem, run: seq<State>, last: State)
    requires p.Valid() && IsRun(p, run) && run[0] == EntryState(p, EmptyLists(p), EmptyThresholds(p), 0) && last == run[|run| - 1]
    ensures |run| <= Measure(p, run[0]) + 1
    ensures Stopped(p, last) <==> last.phase == p.Blocks()
    ensures Stopped(p, last) ==> forall r :: 0 <= r < p.n ==> PublishedExactly(p, last, r)
  {
    EmptyEnterable(p);
    EntryInv(p, EmptyLists(p), EmptyThresholds(p), 0);
    RunFalls(p, run, 0, |run| - 1);
    RunKeeps(p, run, 0, |run| - 1);
    StoppedAtEnd(p, last, 0);
    if Stopped(p, last) {
      ExactAllPairs(p, run, last);
    }
  }

  ghost predicate Reached(p: Problem, s: State, start: nat)
    requires p.block >= 1
  {
    Inv(p, s, start) && start <= s.phase
  }

  predicate PhaseBegins(p: Problem, s: State, b: nat)
    requires p.block >= 1
  {
    s.phase == b && s.tasks == FreshTasks(p, b)
  }

  lemma StepReached(p: Problem, s: State, start: nat, a: Action)
    requires p.Valid() && Reached(p, s, start) && Enabled(p, s, a)
    ensures Reached(p, Apply(p, s, a), start) && Measure(p, Apply(p, s, a)) < Measure(p, s)
  {
    StepLess(p, s, start, a);
    StepKeeps(p, s, start, a);
  }

  /** A step stays in the phase or begins the next. */
  lemma StepPhase(p: Problem, s: State, start: nat, a: Action)
    requires p.Valid() && Inv(p, s, start) && Enabled(p, s, a)
    ensures Apply(p, s, a).phase == s.phase || PhaseBegins(p, Apply(p, s, a), s.phase + 1)
  {
    if !a.Finish? {
      TaskStepLess(p, s, start, a);
    }
  }

  /** Until the last block is published some step leads on. */
  lemma StepOn(p: Problem, s: State, start: nat) returns (t: State)
    requires p.Valid() && Reached(p, s, start) && s.phase < p.Blocks()
    ensures Next(p, s, t) && Reached(p, t, start) && Measure(p, t) < Measure(p, s)
    ensures t.phase == s.phase || PhaseBegins(p, t, s.phase + 1)
  {
    var a := Progress(p, s, start);
    t := Apply(p, s, a);
    assert IsStep(p, s, a, t);
    StepReached(p, s, start, a);
    StepPhase(p, s, start, a);
  }

  ghost function Nexts(p: Problem): (State, State) -> bool {
    (s: State, t: State) => p.block >= 1 && Next(p, s, t)
  }

  /** In the phase of block b. */
  ghost function InPhase(p: Problem, start: nat, b: nat): State -> bool {
    (s: State) => p.block >= 1 && Reached(p, s, start) && s.phase == b < p.Blocks()
  }

  function Begins(p: Problem, b: nat): State -> bool {
    (s: State) => p.block >= 1 && PhaseBegins(p, s, b)
  }

  function Steps(p: Problem): State -> int {
    (s: State) => if p.block >= 1 then Measure(p, s) else 0
  }

  lemma StepFits(p: Problem, start: nat, b: nat, s: State, t: State)
    requires p.Valid() && s.phase == b < p.Blocks() && Next(p, s, t) && Reached(p, t, start) && Measure(p, t) < Measure(p, s)
    requires t.phase == b || PhaseBegins(p, t, b + 1)
    ensures Nexts(p)(s, t) && Steps(p)(t) < Steps(p)(s) && 0 <= Steps(p)(s)
    ensures Begins(p, b + 1)(t) || InPhase(p, start, b)(t)
  {
  }

  lemma PhaseGoesOn(p: Problem, start: nat, b: nat, s: State)
    requires p.Valid() && InPhase(p, start, b)(s)
    ensures Runs.GoesOn(Nexts(p), InPhase(p, start, b), Begins(p, b + 1), Steps(p), s)
  {
    var t := StepOn(p, s, start);
    StepFits(p, start, b, s, t);
    Runs.GoesOnBy(Nexts(p), InPhase(p, start, b), Begins(p, b + 1), Steps(p), s, t);
  }

  lemma PathIsRun(p: Problem, run: seq<State>)
    requires p.block >= 1 && Runs.Path(Nexts(p), run)
    ensures IsRun(p, run)
  {
    forall i, j | 0 <= i < |run| && j == i + 1 < |run| ensures Next(p, run[i], run[j]) {
      assert Nexts(p)(run[i], run[j]);
    }
  }

  /** From any reachable state some run leads to the end of the present phase. */
  lemma PhaseEnds(p: Problem, s: State, start: nat) returns (run: seq<State>)
    requires p.Valid() && Reached(p, s, start) && s.phase < p.Blocks()
    ensures IsRun(p, run) && run[0] == s && PhaseBegins(p, run[|run| - 1], s.phase + 1)
  {
    forall t | InPhase(p, start, s.phase)(t) ensures Runs.GoesOn(Nexts(p), InPhase(p, start, s.phase), Begins(p, s.phase + 1), Steps(p), t) {
      PhaseGoesOn(p, start, s.phase, t);
    }
    run := Runs.Reaches(Nexts(p), InPhase(p, start, s.phase), Begins(p, s.phase + 1), Steps(p), s);
    PathIsRun(p, run);
    assert Begins(p, s.phase + 1)(run[|run| - 1]);
  }
}
