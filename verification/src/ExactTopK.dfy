/** `exact_top_k` as its pool runs it: phases of concurrent tasks that read thresholds without the lock and
    merge under it. Every interleaving publishes the exact lists. */
module ExactTopK {
  import opened Ranking
  import opened TopKMerge
  import opened TopKSelect

  /** Where task (phase, j) is. `col` is false while it updates the row block's lists and true while it
      updates the column block's. `read` holds the thresholds read so far, `loaded` the lists copied under
      the lock, `stored` the rows already written back. */
  datatype Local =
    | Reading(col: bool, read: map<nat, Score>)
    | Holding(col: bool, read: map<nat, Score>, loaded: map<nat, seq<Entry>>, stored: set<nat>)
    | Finished

  /** `folded[r]` records the column blocks merged into row r's list so far. */
  datatype State = State(
    phase: nat,
    lists: seq<seq<Entry>>,
    thresholds: seq<Score>,
    holder: map<nat, nat>,
    tasks: map<nat, Local>,
    folded: seq<set<nat>>,
    published: map<nat, seq<Entry>>)

  datatype Action =
    | Read(j: nat, r: nat)
    | Lock(j: nat)
    | Load(j: nat, r: nat)
    | Store(j: nat, r: nat, merged: seq<Entry>)
    | Unlock(j: nat)
    | Skip(j: nat)
    | Finish

  function Target(s: State, j: nat, col: bool): nat { if col then j else s.phase }

  function Source(s: State, j: nat, col: bool): nat { if col then s.phase else j }

  function RowsOf(p: Problem, b: nat): set<nat>
    requires p.block >= 1
  {
    set r: nat | r < p.n && p.BlockOf(r) == b
  }

  /** What task j passes on to the merge of row r, given the threshold it read. */
  function Candidates(p: Problem, s: State, j: nat, col: bool, read: map<nat, Score>, r: nat): set<Entry>
    requires p.block >= 1 && r in read
  {
    Admit(p.Entries(r, {Source(s, j, col)}), read[r], p.k)
  }

  predicate ReadAll(p: Problem, s: State, j: nat, l: Local)
    requires p.block >= 1 && !l.Finished?
  {
    l.read.Keys == RowsOf(p, Target(s, j, l.col))
  }

  /** Row r has candidates, so the merge touches it. */
  predicate Touched(p: Problem, s: State, j: nat, l: Local, r: nat)
    requires p.block >= 1 && !l.Finished?
  {
    r in l.read && Candidates(p, s, j, l.col, l.read, r) != {}
  }

  /** After its row update a task goes on to its column update, unless its block is on the diagonal. */
  function NextLocal(s: State, j: nat, col: bool): Local {
    if col || j == s.phase then Finished else Reading(true, map[])
  }

  /** `state.thresholds[row_start : row_start + valid_rows]`, read row by row and without the lock. */
  ghost predicate CanRead(p: Problem, s: State, j: nat, r: nat)
    requires p.block >= 1
  {
    j in s.tasks && s.tasks[j].Reading? && r < p.n && r < |s.thresholds|
    && p.BlockOf(r) == Target(s, j, s.tasks[j].col) && r !in s.tasks[j].read
  }

  ghost function DoRead(s: State, j: nat, r: nat): State
    requires j in s.tasks && s.tasks[j].Reading? && r < |s.thresholds|
  {
    s.(tasks := s.tasks[j := Reading(s.tasks[j].col, s.tasks[j].read[r := s.thresholds[r]])])
  }

  /** `with lock:`, entered only when some row has candidates. */
  ghost predicate CanLock(p: Problem, s: State, j: nat)
    requires p.block >= 1
  {
    j in s.tasks && s.tasks[j].Reading? && ReadAll(p, s, j, s.tasks[j])
    && Target(s, j, s.tasks[j].col) !in s.holder
    && exists r :: r in s.tasks[j].read && Touched(p, s, j, s.tasks[j], r)
  }

  ghost function DoLock(s: State, j: nat): State
    requires j in s.tasks && s.tasks[j].Reading?
  {
    s.(tasks := s.tasks[j := Holding(s.tasks[j].col, s.tasks[j].read, map[], {})],
       holder := s.holder[Target(s, j, s.tasks[j].col) := j])
  }

  /** `_merge` copies the list of a touched row. */
  ghost predicate CanLoad(p: Problem, s: State, j: nat, r: nat)
    requires p.block >= 1
  {
    j in s.tasks && s.tasks[j].Holding? && r < |s.lists|
    && Touched(p, s, j, s.tasks[j], r) && r !in s.tasks[j].loaded
  }

  ghost function DoLoad(s: State, j: nat, r: nat): State
    requires j in s.tasks && s.tasks[j].Holding? && r < |s.lists|
  {
    s.(tasks := s.tasks[j := s.tasks[j].(loaded := s.tasks[j].loaded[r := s.lists[r]])])
  }

  /** `merged` is a merge of list `loaded` and the candidates in any order. */
  ghost predicate MergeOf(loaded: seq<Entry>, candidates: set<Entry>, merged: seq<Entry>) {
    exists flat: seq<Entry> :: multiset(flat) == multiset(candidates) && MergedRow(loaded, flat, merged)
  }

  /** `_merge` writes a row's list and threshold back. */
  ghost predicate CanStore(p: Problem, s: State, j: nat, r: nat, merged: seq<Entry>)
    requires p.block >= 1
  {
    j in s.tasks && s.tasks[j].Holding? && r in s.tasks[j].read && r < |s.lists| == |s.thresholds| == |s.folded|
    && r in s.tasks[j].loaded && r !in s.tasks[j].stored && merged != []
    && MergeOf(s.tasks[j].loaded[r], Candidates(p, s, j, s.tasks[j].col, s.tasks[j].read, r), merged)
  }

  ghost function DoStore(s: State, j: nat, r: nat, merged: seq<Entry>): State
    requires j in s.tasks && s.tasks[j].Holding? && r < |s.lists| == |s.thresholds| == |s.folded| && merged != []
  {
    s.(tasks := s.tasks[j := s.tasks[j].(stored := s.tasks[j].stored + {r})],
       lists := s.lists[r := merged],
       thresholds := s.thresholds[r := Threshold(merged)],
       folded := s.folded[r := s.folded[r] + {Source(s, j, s.tasks[j].col)}])
  }

  /** The lock is released once every touched row is written. */
  ghost predicate CanUnlock(p: Problem, s: State, j: nat)
    requires p.block >= 1
  {
    j in s.tasks && s.tasks[j].Holding?
    && forall r :: r in s.tasks[j].read && Touched(p, s, j, s.tasks[j], r) ==> r in s.tasks[j].stored
  }

  /** `_update` returns without the lock when no row has candidates. */
  ghost predicate CanSkip(p: Problem, s: State, j: nat)
    requires p.block >= 1
  {
    j in s.tasks && s.tasks[j].Reading? && ReadAll(p, s, j, s.tasks[j])
    && forall r :: r in s.tasks[j].read ==> !Touched(p, s, j, s.tasks[j], r)
  }

  function FoldIn(p: Problem, s: State, target: nat, source: nat): seq<set<nat>>
    requires p.block >= 1
  {
    seq(|s.folded|, r requires 0 <= r < |s.folded| =>
      if p.BlockOf(r) == target then s.folded[r] + {source} else s.folded[r])
  }

  /** Task j's update is over: it lets go of `released`, and its block counts as folded in. */
  ghost function Over(p: Problem, s: State, j: nat, released: set<nat>): State
    requires p.block >= 1 && j in s.tasks && !s.tasks[j].Finished?
  {
    s.(tasks := s.tasks[j := NextLocal(s, j, s.tasks[j].col)],
       holder := s.holder - released,
       folded := FoldIn(p, s, Target(s, j, s.tasks[j].col), Source(s, j, s.tasks[j].col)))
  }

  /** Block j has a task in the phase of block `phase`. */
  predicate Open(phase: nat, j: nat) {
    phase <= j
  }

  function FreshTasks(p: Problem, phase: nat): map<nat, Local>
    requires p.block >= 1
  {
    map j: nat | j < p.Blocks() && Open(phase, j) :: Reading(false, map[])
  }

  /** All futures of the phase are done: its block is published in order, and the next phase begins. */
  ghost predicate CanFinish(p: Problem, s: State)
    requires p.block >= 1
  {
    s.phase < p.Blocks() && (forall j :: j in s.tasks ==> s.tasks[j].Finished?)
    && forall r :: r in RowsOf(p, s.phase) ==> r < |s.lists|
  }

  ghost function DoFinish(p: Problem, s: State): State
    requires p.block >= 1 && CanFinish(p, s)
  {
    s.(phase := s.phase + 1,
       tasks := FreshTasks(p, s.phase + 1),
       published := s.published + map r | r in RowsOf(p, s.phase) :: SortedList(s.lists[r]))
  }

  ghost predicate Enabled(p: Problem, s: State, a: Action)
    requires p.block >= 1
  {
    match a
    case Read(j, r) => CanRead(p, s, j, r)
    case Lock(j) => CanLock(p, s, j)
    case Load(j, r) => CanLoad(p, s, j, r)
    case Store(j, r, merged) => CanStore(p, s, j, r, merged)
    case Unlock(j) => CanUnlock(p, s, j)
    case Skip(j) => CanSkip(p, s, j)
    case Finish => CanFinish(p, s)
  }

  ghost function Apply(p: Problem, s: State, a: Action): State
    requires p.block >= 1 && Enabled(p, s, a)
  {
    match a
    case Read(j, r) => DoRead(s, j, r)
    case Lock(j) => DoLock(s, j)
    case Load(j, r) => DoLoad(s, j, r)
    case Store(j, r, merged) => DoStore(s, j, r, merged)
    case Unlock(j) => Over(p, s, j, {Target(s, j, s.tasks[j].col)})
    case Skip(j) => Over(p, s, j, {})
    case Finish => DoFinish(p, s)
  }

  // ---- The invariant ----

  /** The entries of the first m positions, without r's own. */
  function OthersBelow(p: Problem, r: nat, m: nat): set<Entry> {
    set c: nat | c < m && c != r :: Entry(p.score(r, c), c)
  }

  /** Everything row r should be ranked among: all other rows. */
  function Others(p: Problem, r: nat): set<Entry> {
    OthersBelow(p, r, p.n)
  }

  predicate Passed(l: Local, col: bool, r: nat) {
    match l
    case Finished => true
    case Reading(c, _) => c && !col
    case Holding(c, _, _, stored) => (c && !col) || (c == col && r in stored)
  }

  /** The schedule: row r has seen column block b. */
  predicate Done(p: Problem, s: State, r: nat, b: nat)
    requires p.block >= 1
  {
    var a := p.BlockOf(r);
    || b < s.phase
    || a < s.phase
    || (a == s.phase && b in s.tasks && Passed(s.tasks[b], false, r))
    || (a > s.phase && b == s.phase && a in s.tasks && Passed(s.tasks[a], true, r))
  }

  /** The list is the best k of what was folded in, and the threshold goes with it. */
  ghost predicate ListInv(p: Problem, r: nat, l: seq<Entry>, threshold: Score, folded: set<nat>)
    requires p.block >= 1
  {
    && |l| == p.k >= 1
    && Lists(l, TopSet(p.Entries(r, folded), p.k))
    && threshold == Threshold(l)
  }

  ghost predicate FoldInv(p: Problem, s: State, r: nat)
    requires p.block >= 1 && r < |s.folded|
  {
    forall b: nat :: b in s.folded[r] <==> b < p.Blocks() && Done(p, s, r, b)
  }

  ghost predicate RowInv(p: Problem, s: State, r: nat)
    requires p.block >= 1 && r < |s.lists| && r < |s.thresholds| && r < |s.folded|
  {
    ListInv(p, r, s.lists[r], s.thresholds[r], s.folded[r]) && FoldInv(p, s, r)
  }

  ghost predicate ReadInv(p: Problem, r: nat, target: nat, t: Score, folded: seq<set<nat>>)
    requires p.block >= 1 && |folded| == p.n
  {
    r < p.n && p.BlockOf(r) == target && Justified(p.Entries(r, folded[r]), t, p.k)
  }

  ghost predicate TaskInv(p: Problem, s: State, j: nat)
    requires p.block >= 1 && j in s.tasks && |s.folded| == |s.lists| == p.n
  {
    var l := s.tasks[j];
    !l.Finished? ==>
      && (l.col ==> j != s.phase)
      && (forall r :: r in l.read ==> ReadInv(p, r, Target(s, j, l.col), l.read[r], s.folded))
      && (l.Holding? ==>
            && ReadAll(p, s, j, l)
            && Target(s, j, l.col) in s.holder && s.holder[Target(s, j, l.col)] == j
            && l.stored <= l.loaded.Keys <= l.read.Keys
            && (forall r :: r in l.loaded ==> Touched(p, s, j, l, r))
            && (forall r :: r in l.loaded && r !in l.stored ==> l.loaded[r] == s.lists[r]))
  }

  ghost predicate HolderInv(s: State) {
    forall b :: b in s.holder ==>
      s.holder[b] in s.tasks && s.tasks[s.holder[b]].Holding? && Target(s, s.holder[b], s.tasks[s.holder[b]].col) == b
  }

  ghost predicate PublishedInv(p: Problem, s: State, start: nat)
    requires p.block >= 1
  {
    && (forall r: nat :: r in s.published <==> r < p.n && start <= p.BlockOf(r) < s.phase)
    && (forall r :: r in s.published ==> |s.published[r]| == p.k && Publishes(s.published[r], TopSet(Others(p, r), p.k)))
  }

  ghost predicate Shape(p: Problem, s: State)
    requires p.block >= 1
  {
    && |s.lists| == |s.thresholds| == |s.folded| == p.n
    && s.phase <= p.Blocks()
    && s.tasks.Keys == (set j: nat | j < p.Blocks() && Open(s.phase, j))
  }

  ghost predicate RowsInv(p: Problem, s: State)
    requires p.block >= 1 && Shape(p, s)
  {
    forall r :: 0 <= r < p.n ==> RowInv(p, s, r)
  }

  ghost predicate TasksInv(p: Problem, s: State)
    requires p.block >= 1 && Shape(p, s)
  {
    forall j :: j in s.tasks ==> TaskInv(p, s, j)
  }

  /** What holds in every reachable state of a run that began at block `start`. */
  ghost predicate Inv(p: Problem, s: State, start: nat)
    requires p.block >= 1
  {
    && Shape(p, s)
    && RowsInv(p, s)
    && TasksInv(p, s)
    && HolderInv(s)
    && PublishedInv(p, s, start)
  }

  // ---- Facts about entries ----

  lemma EntriesValid(p: Problem, r: nat, sources: set<nat>)
    requires p.Valid() && r < p.n
    ensures AllValid(p.Entries(r, sources))
  {
  }

  lemma EntriesSplit(p: Problem, r: nat, sources: set<nat>, b: nat)
    requires p.Valid() && r < p.n
    ensures p.Entries(r, sources + {b}) == p.Entries(r, sources) + p.Entries(r, {b})
    ensures b !in sources ==> p.Entries(r, sources) !! p.Entries(r, {b})
  {
  }

  lemma {:induction false} BlockMonotone(p: Problem, a: nat, b: nat)
    requires p.block >= 1 && a <= b
    ensures p.BlockOf(a) <= p.BlockOf(b)
    decreases b
  {
    if a >= p.block {
      BlockMonotone(p, a - p.block, b - p.block);
    }
  }

  lemma {:induction false} BlockInRange(p: Problem, r: nat)
    requires p.block >= 1 && r < p.n
    ensures p.BlockOf(r) < p.Blocks()
  {
    BlockMonotone(p, r, p.n - 1);
  }

  lemma {:induction false} BlockStarts(p: Problem, b: nat, r: nat)
    requires p.Valid() && r < p.n && b <= p.BlockOf(r)
    ensures p.Start(b) <= r
    decreases r
  {
    if b > 0 {
      BlockStarts(p, b - 1, r - p.block);
    }
  }

  lemma BlockHasRows(p: Problem, b: nat)
    requires p.Valid() && b < p.Blocks()
    ensures p.Rows(b) > 0 && p.Start(b) + p.Rows(b) <= p.n
  {
    BlockStarts(p, b, p.n - 1);
  }

  lemma LocalRow(p: Problem, b: nat, r: nat) returns (local: nat)
    requires p.Valid() && r < p.n && p.BlockOf(r) == b
    ensures local < p.Rows(b) && r == p.Start(b) + local
  {
    p.RowInBlock(r, b);
    local := r - p.Start(b);
  }

  /** A row that has seen every block has seen every other row. */
  lemma AllBlocksAreOthers(p: Problem, r: nat, sources: set<nat>)
    requires p.Valid() && r < p.n && forall b: nat :: b < p.Blocks() ==> b in sources
    ensures p.Entries(r, sources) == Others(p, r)
  {
    forall c: nat | c < p.n ensures p.BlockOf(c) in sources {
      BlockInRange(p, c);
    }
  }

  lemma JustifiedGrows(seen: set<Entry>, more: set<Entry>, t: Score, k: nat)
    requires Justified(seen, t, k) && seen <= more
    ensures Justified(more, t, k)
  {
    SubsetSize(set e | e in seen && e.score >= t, set e | e in more && e.score >= t);
  }

  /** A threshold that goes with a list is justified by what the list was merged from. */
  lemma ListJustified(p: Problem, r: nat, l: seq<Entry>, t: Score, folded: set<nat>)
    requires p.Valid() && r < p.n && ListInv(p, r, l, t, folded)
    ensures Justified(p.Entries(r, folded), t, p.k) && t >= FLOOR
  {
    var seen := p.Entries(r, folded);
    var top := TopSet(seen, p.k);
    ThresholdIsKthBest(l, top);
    TopSize(seen, p.k);
    if t > FLOOR {
      SubsetSize(top, set e | e in seen && e.score >= t);
    }
  }

  lemma StoredIsJustified(p: Problem, s: State, r: nat)
    requires p.Valid() && r < |s.lists| && r < |s.thresholds| && r < |s.folded| && r < p.n && RowInv(p, s, r)
    ensures Justified(p.Entries(r, s.folded[r]), s.thresholds[r], p.k)
  {
    ListJustified(p, r, s.lists[r], s.thresholds[r], s.folded[r]);
  }

  // ---- Every step keeps the invariant ----

  lemma SameTouched(p: Problem, s: State, t: State, i: nat, l: Local, m: Local)
    requires p.Valid() && t.phase == s.phase && !l.Finished? && !m.Finished? && l.col == m.col && l.read == m.read
    ensures forall r :: Touched(p, t, i, m, r) == Touched(p, s, i, l, r)
  {
  }

  /** Task i sees the same lists, and no fewer folded blocks: what it read and loaded still stands. */
  lemma TaskKept(p: Problem, s: State, t: State, i: nat)
    requires p.Valid() && i in s.tasks && i in t.tasks && t.tasks[i] == s.tasks[i] && t.phase == s.phase
    requires |s.folded| == |s.lists| == |t.folded| == |t.lists| == p.n
    requires TaskInv(p, s, i)
    requires forall r :: 0 <= r < p.n ==> s.folded[r] <= t.folded[r]
    requires var l := s.tasks[i]; l.Holding? ==>
      && Target(s, i, l.col) in t.holder && t.holder[Target(s, i, l.col)] == i
      && forall r :: r in l.loaded && r < p.n ==> t.lists[r] == s.lists[r]
    ensures TaskInv(p, t, i)
  {
    var l := s.tasks[i];
    if !l.Finished? {
      forall r | r in l.read ensures ReadInv(p, r, Target(t, i, l.col), l.read[r], t.folded) {
        assert ReadInv(p, r, Target(s, i, l.col), l.read[r], s.folded);
        JustifiedGrows(p.Entries(r, s.folded[r]), p.Entries(r, t.folded[r]), l.read[r], p.k);
      }
      SameTouched(p, s, t, i, l, l);
    }
  }

  /** A step that moves only task j along, before any more of its rows count as done. */
  ghost predicate LocalStep(s: State, t: State, j: nat) {
    && s.phase == t.phase && s.lists == t.lists && s.thresholds == t.thresholds && s.folded == t.folded
    && s.published == t.published
    && j in s.tasks && j in t.tasks && t.tasks == s.tasks[j := t.tasks[j]]
    && (forall b :: b in s.holder ==> b in t.holder && t.holder[b] == s.holder[b])
    && (forall col, r :: Passed(s.tasks[j], col, r) == Passed(t.tasks[j], col, r))
  }

  lemma LocalStepKeepsRow(p: Problem, s: State, t: State, j: nat, r: nat)
    requires p.Valid() && Shape(p, s) && LocalStep(s, t, j) && r < p.n && RowInv(p, s, r)
    ensures RowInv(p, t, r)
  {
    forall b: nat ensures Done(p, t, r, b) == Done(p, s, r, b) {
    }
  }

  lemma LocalStepKeepsTasks(p: Problem, s: State, t: State, j: nat)
    requires p.Valid() && Shape(p, s) && TasksInv(p, s) && LocalStep(s, t, j) && TaskInv(p, t, j)
    ensures TasksInv(p, t)
  {
    forall i | i in t.tasks ensures TaskInv(p, t, i) {
      if i != j {
        assert TaskInv(p, s, i);
        TaskKept(p, s, t, i);
      }
    }
  }

  lemma LocalStepKeeps(p: Problem, s: State, t: State, start: nat, j: nat)
    requires p.Valid() && Inv(p, s, start) && LocalStep(s, t, j) && TaskInv(p, t, j) && HolderInv(t)
    ensures Inv(p, t, start)
  {
    forall r | 0 <= r < p.n ensures RowInv(p, t, r) {
      assert RowInv(p, s, r);
      LocalStepKeepsRow(p, s, t, j, r);
    }
    LocalStepKeepsTasks(p, s, t, j);
    assert PublishedInv(p, t, start);
  }

  lemma ReadKeeps(p: Problem, s: State, start: nat, j: nat, r: nat)
    requires p.Valid() && Inv(p, s, start) && CanRead(p, s, j, r)
    ensures Inv(p, DoRead(s, j, r), start)
  {
    var t := DoRead(s, j, r);
    assert RowInv(p, s, r);
    StoredIsJustified(p, s, r);
    assert TaskInv(p, s, j);
    assert TaskInv(p, t, j);
    LocalStepKeeps(p, s, t, start, j);
  }

  lemma LockedTask(p: Problem, s: State, t: State, j: nat)
    requires p.Valid() && j in s.tasks && s.tasks[j].Reading? && ReadAll(p, s, j, s.tasks[j])
    requires |s.folded| == |s.lists| == p.n && TaskInv(p, s, j)
    requires t == s.(tasks := s.tasks[j := Holding(s.tasks[j].col, s.tasks[j].read, map[], {})],
                     holder := s.holder[Target(s, j, s.tasks[j].col) := j])
    ensures TaskInv(p, t, j)
  {
  }

  lemma LockHolds(s: State, j: nat)
    requires HolderInv(s) && j in s.tasks && s.tasks[j].Reading? && Target(s, j, s.tasks[j].col) !in s.holder
    ensures HolderInv(DoLock(s, j))
  {
  }

  lemma LockIsLocal(p: Problem, s: State, j: nat)
    requires p.Valid() && Shape(p, s) && CanLock(p, s, j)
    ensures LocalStep(s, DoLock(s, j), j)
  {
  }

  lemma LockKeeps(p: Problem, s: State, start: nat, j: nat)
    requires p.Valid() && Inv(p, s, start) && CanLock(p, s, j)
    ensures Inv(p, DoLock(s, j), start)
  {
    var t := DoLock(s, j);
    LockedTask(p, s, t, j);
    LockHolds(s, j);
    LockIsLocal(p, s, j);
    LocalStepKeeps(p, s, t, start, j);
  }

  lemma LoadedTask(p: Problem, s: State, j: nat, r: nat)
    requires p.Valid() && |s.folded| == |s.lists| == p.n && CanLoad(p, s, j, r) && TaskInv(p, s, j)
    ensures TaskInv(p, DoLoad(s, j, r), j)
  {
    var t := DoLoad(s, j, r);
    SameTouched(p, s, t, j, s.tasks[j], t.tasks[j]);
  }

  lemma LoadHolds(p: Problem, s: State, j: nat, r: nat)
    requires p.block >= 1 && HolderInv(s) && CanLoad(p, s, j, r)
    ensures HolderInv(DoLoad(s, j, r))
  {
  }

  lemma LoadIsLocal(p: Problem, s: State, j: nat, r: nat)
    requires p.block >= 1 && CanLoad(p, s, j, r)
    ensures LocalStep(s, DoLoad(s, j, r), j)
  {
  }

  lemma LoadKeeps(p: Problem, s: State, start: nat, j: nat, r: nat)
    requires p.Valid() && Inv(p, s, start) && CanLoad(p, s, j, r)
    ensures Inv(p, DoLoad(s, j, r), start)
  {
    LoadedTask(p, s, j, r);
    LoadHolds(p, s, j, r);
    LoadIsLocal(p, s, j, r);
    LocalStepKeeps(p, s, DoLoad(s, j, r), start, j);
  }

  /** Task j holds the lock of row r's block and has loaded the row. */
  ghost predicate Storing(p: Problem, s: State, j: nat, r: nat)
    requires p.block >= 1
  {
    && Shape(p, s) && r < p.n && j in s.tasks && s.tasks[j].Holding? && r in s.tasks[j].loaded
    && p.BlockOf(r) == Target(s, j, s.tasks[j].col) && (s.tasks[j].col ==> j != s.phase)
  }

  lemma MergedIsTop(p: Problem, r: nat, l: seq<Entry>, threshold: Score, folded: set<nat>, source: nat, t: Score, merged: seq<Entry>)
    requires p.Valid() && r < p.n && ListInv(p, r, l, threshold, folded) && source !in folded
    requires Justified(p.Entries(r, folded), t, p.k)
    requires MergeOf(l, Admit(p.Entries(r, {source}), t, p.k), merged)
    ensures ListInv(p, r, merged, if merged == [] then 0 else Threshold(merged), folded + {source})
  {
    var seen, incoming := p.Entries(r, folded), p.Entries(r, {source});
    var added := Admit(incoming, t, p.k);
    var flat: seq<Entry> :| multiset(flat) == multiset(added) && MergedRow(l, flat, merged);
    EntriesValid(p, r, {source});
    EntriesSplit(p, r, folded, source);
    MergeKeepsTop(l, TopSet(seen, p.k), flat, added, merged);
    MergeLaw(seen, added, p.k);
    AdmitKeepsTop(seen, incoming, t, p.k);
  }

  /** The row a store writes: new entries, each for the first time, and nothing of value dropped. */
  lemma StoredRow(p: Problem, s: State, start: nat, j: nat, r: nat, merged: seq<Entry>)
    requires p.Valid() && Inv(p, s, start) && CanStore(p, s, j, r, merged)
    ensures Storing(p, s, j, r)
    ensures Source(s, j, s.tasks[j].col) !in s.folded[r] && Source(s, j, s.tasks[j].col) < p.Blocks()
    ensures ListInv(p, r, merged, Threshold(merged), s.folded[r] + {Source(s, j, s.tasks[j].col)})
  {
    var l := s.tasks[j];
    var source := Source(s, j, l.col);
    assert TaskInv(p, s, j);
    assert ReadInv(p, r, Target(s, j, l.col), l.read[r], s.folded);
    assert RowInv(p, s, r);
    assert source !in s.folded[r] by {
      assert !Done(p, s, r, source);
    }
    MergedIsTop(p, r, s.lists[r], s.thresholds[r], s.folded[r], source, l.read[r], merged);
  }

  lemma StoreDone(p: Problem, s: State, t: State, j: nat, r: nat, q: nat)
    requires p.Valid() && Storing(p, s, j, r) && q < p.n && t.phase == s.phase
    requires t.tasks == s.tasks[j := s.tasks[j].(stored := s.tasks[j].stored + {r})]
    ensures forall b: nat :: b < p.Blocks() ==>
      (Done(p, t, q, b) <==> Done(p, s, q, b) || (q == r && b == Source(s, j, s.tasks[j].col)))
  {
  }

  lemma StoreKeepsRow(p: Problem, s: State, j: nat, r: nat, merged: seq<Entry>, q: nat)
    requires p.Valid() && Storing(p, s, j, r) && q < p.n && merged != [] && RowInv(p, s, q)
    requires ListInv(p, r, merged, Threshold(merged), s.folded[r] + {Source(s, j, s.tasks[j].col)})
    requires Source(s, j, s.tasks[j].col) < p.Blocks()
    ensures RowInv(p, DoStore(s, j, r, merged), q)
  {
    StoreDone(p, s, DoStore(s, j, r, merged), j, r, q);
  }

  lemma StoreKeepsOther(p: Problem, s: State, j: nat, r: nat, merged: seq<Entry>, i: nat)
    requires p.Valid() && Storing(p, s, j, r) && merged != [] && i in s.tasks && TaskInv(p, s, i) && i != j
    requires s.tasks[i].Holding? ==> r !in s.tasks[i].loaded
    ensures TaskInv(p, DoStore(s, j, r, merged), i)
  {
    TaskKept(p, s, DoStore(s, j, r, merged), i);
  }

  /** Only the lock's holder has the row loaded. */
  lemma LockExcludes(p: Problem, s: State, j: nat, r: nat, i: nat)
    requires p.Valid() && Storing(p, s, j, r) && i in s.tasks && i != j && TaskInv(p, s, i) && TaskInv(p, s, j)
    ensures s.tasks[i].Holding? ==> r !in s.tasks[i].loaded
  {
  }

  lemma StoringTask(p: Problem, s: State, t: State, j: nat, r: nat)
    requires p.Valid() && Storing(p, s, j, r) && TaskInv(p, s, j)
    requires t.phase == s.phase && t.holder == s.holder && |t.lists| == |t.folded| == p.n
    requires t.tasks == s.tasks[j := s.tasks[j].(stored := s.tasks[j].stored + {r})]
    requires forall q :: 0 <= q < p.n && q != r ==> t.lists[q] == s.lists[q] && t.folded[q] == s.folded[q]
    requires s.folded[r] <= t.folded[r]
    ensures TaskInv(p, t, j)
  {
    var l := s.tasks[j];
    forall q | q in l.read ensures ReadInv(p, q, Target(t, j, l.col), l.read[q], t.folded) {
      assert ReadInv(p, q, Target(s, j, l.col), l.read[q], s.folded);
      JustifiedGrows(p.Entries(q, s.folded[q]), p.Entries(q, t.folded[q]), l.read[q], p.k);
    }
    SameTouched(p, s, t, j, l, t.tasks[j]);
  }

  lemma StoreKeepsTask(p: Problem, s: State, j: nat, r: nat, merged: seq<Entry>, i: nat)
    requires p.Valid() && Storing(p, s, j, r) && merged != [] && i in s.tasks && TaskInv(p, s, i) && TaskInv(p, s, j)
    ensures TaskInv(p, DoStore(s, j, r, merged), i)
  {
    if i == j {
      StoringTask(p, s, DoStore(s, j, r, merged), j, r);
    } else {
      LockExcludes(p, s, j, r, i);
      StoreKeepsOther(p, s, j, r, merged, i);
    }
  }

  lemma StoreKeepsRows(p: Problem, s: State, j: nat, r: nat, merged: seq<Entry>)
    requires p.Valid() && Storing(p, s, j, r) && merged != [] && RowsInv(p, s)
    requires ListInv(p, r, merged, Threshold(merged), s.folded[r] + {Source(s, j, s.tasks[j].col)})
    requires Source(s, j, s.tasks[j].col) < p.Blocks()
    ensures RowsInv(p, DoStore(s, j, r, merged))
  {
    forall q | 0 <= q < p.n ensures RowInv(p, DoStore(s, j, r, merged), q) {
      assert RowInv(p, s, q);
      StoreKeepsRow(p, s, j, r, merged, q);
    }
  }

  lemma StoreKeepsTasks(p: Problem, s: State, j: nat, r: nat, merged: seq<Entry>)
    requires p.Valid() && Storing(p, s, j, r) && merged != [] && TasksInv(p, s)
    ensures TasksInv(p, DoStore(s, j, r, merged))
  {
    forall i | i in s.tasks ensures TaskInv(p, DoStore(s, j, r, merged), i) {
      assert TaskInv(p, s, i) && TaskInv(p, s, j);
      StoreKeepsTask(p, s, j, r, merged, i);
    }
  }

  lemma StoreKeepsRest(p: Problem, s: State, start: nat, j: nat, r: nat, merged: seq<Entry>)
    requires p.Valid() && Storing(p, s, j, r) && merged != [] && HolderInv(s) && PublishedInv(p, s, start)
    ensures Shape(p, DoStore(s, j, r, merged)) && HolderInv(DoStore(s, j, r, merged))
    ensures PublishedInv(p, DoStore(s, j, r, merged), start)
  {
  }

  lemma StoreKeeps(p: Problem, s: State, start: nat, j: nat, r: nat, merged: seq<Entry>)
    requires p.Valid() && Inv(p, s, start) && CanStore(p, s, j, r, merged)
    ensures Inv(p, DoStore(s, j, r, merged), start)
  {
    StoredRow(p, s, start, j, r, merged);
    StoreKeepsRows(p, s, j, r, merged);
    StoreKeepsTasks(p, s, j, r, merged);
    StoreKeepsRest(p, s, start, j, r, merged);
  }

  /** Task j may end its update: every row read, every touched row stored. */
  ghost predicate CanEnd(p: Problem, s: State, j: nat)
    requires p.block >= 1
  {
    && j in s.tasks && !s.tasks[j].Finished? && ReadAll(p, s, j, s.tasks[j])
    && forall r :: r in s.tasks[j].read && Touched(p, s, j, s.tasks[j], r) ==> s.tasks[j].Holding? && r in s.tasks[j].stored
  }

  lemma OverDone(p: Problem, s: State, t: State, j: nat, r: nat)
    requires p.Valid() && Shape(p, s) && r < p.n && j in s.tasks && !s.tasks[j].Finished?
    requires t.phase == s.phase && t.tasks == s.tasks[j := NextLocal(s, j, s.tasks[j].col)]
    requires s.tasks[j].col ==> j != s.phase
    ensures forall b: nat :: b < p.Blocks() ==> (Done(p, t, r, b) <==>
      Done(p, s, r, b) || (p.BlockOf(r) == Target(s, j, s.tasks[j].col) && b == Source(s, j, s.tasks[j].col)))
  {
    BlockInRange(p, r);
  }

  lemma OverFold(p: Problem, s: State, j: nat, released: set<nat>, r: nat)
    requires p.Valid() && Shape(p, s) && r < p.n && CanEnd(p, s, j) && FoldInv(p, s, r)
    requires s.tasks[j].col ==> j != s.phase
    ensures FoldInv(p, Over(p, s, j, released), r)
  {
    OverDone(p, s, Over(p, s, j, released), j, r);
  }

  lemma NothingToGain(p: Problem, r: nat, folded: set<nat>, source: nat, t: Score)
    requires p.Valid() && r < p.n && Justified(p.Entries(r, folded), t, p.k)
    requires Admit(p.Entries(r, {source}), t, p.k) == {}
    ensures TopSet(p.Entries(r, folded + {source}), p.k) == TopSet(p.Entries(r, folded), p.k)
  {
    EntriesSplit(p, r, folded, source);
    AdmitKeepsTop(p.Entries(r, folded), p.Entries(r, {source}), t, p.k);
    assert p.Entries(r, folded) + {} == p.Entries(r, folded);
  }

  /** The rows of a finished update: stored, or with nothing to gain from the block. */
  lemma OverList(p: Problem, s: State, j: nat, released: set<nat>, r: nat)
    requires p.Valid() && Shape(p, s) && r < p.n && CanEnd(p, s, j) && RowInv(p, s, r)
    requires r in s.tasks[j].read ==> ReadInv(p, r, Target(s, j, s.tasks[j].col), s.tasks[j].read[r], s.folded)
    ensures ListInv(p, r, s.lists[r], s.thresholds[r], Over(p, s, j, released).folded[r])
  {
    var l := s.tasks[j];
    var source := Source(s, j, l.col);
    if p.BlockOf(r) == Target(s, j, l.col) {
      assert r in RowsOf(p, Target(s, j, l.col));
      if Touched(p, s, j, l, r) {
        assert Done(p, s, r, source);
        assert s.folded[r] + {source} == s.folded[r];
      } else {
        NothingToGain(p, r, s.folded[r], source, l.read[r]);
      }
    }
  }

  lemma OverKeepsRow(p: Problem, s: State, j: nat, released: set<nat>, r: nat)
    requires p.Valid() && Shape(p, s) && r < p.n && CanEnd(p, s, j) && TaskInv(p, s, j) && RowInv(p, s, r)
    ensures RowInv(p, Over(p, s, j, released), r)
  {
    OverFold(p, s, j, released, r);
    OverList(p, s, j, released, r);
  }

  lemma OverKeepsRows(p: Problem, s: State, j: nat, released: set<nat>)
    requires p.Valid() && Shape(p, s) && RowsInv(p, s) && CanEnd(p, s, j) && TaskInv(p, s, j)
    ensures RowsInv(p, Over(p, s, j, released))
  {
    forall r | 0 <= r < p.n ensures RowInv(p, Over(p, s, j, released), r) {
      assert RowInv(p, s, r);
      OverKeepsRow(p, s, j, released, r);
    }
  }

  lemma OverKeepsTasks(p: Problem, s: State, j: nat, released: set<nat>)
    requires p.Valid() && Shape(p, s) && TasksInv(p, s) && CanEnd(p, s, j)
    requires forall b :: b in s.holder && b in released ==> s.holder[b] == j
    ensures TasksInv(p, Over(p, s, j, released))
  {
    var t := Over(p, s, j, released);
    forall i | i in t.tasks ensures TaskInv(p, t, i) {
      if i != j {
        assert TaskInv(p, s, i);
        TaskKept(p, s, t, i);
      }
    }
  }

  lemma OverKeeps(p: Problem, s: State, start: nat, j: nat, released: set<nat>)
    requires p.Valid() && Inv(p, s, start) && CanEnd(p, s, j)
    requires forall b :: b in s.holder ==> (b in released <==> s.holder[b] == j)
    ensures Inv(p, Over(p, s, j, released), start)
  {
    assert TaskInv(p, s, j);
    OverKeepsRows(p, s, j, released);
    OverKeepsTasks(p, s, j, released);
  }

  lemma UnlockKeeps(p: Problem, s: State, start: nat, j: nat)
    requires p.Valid() && Inv(p, s, start) && CanUnlock(p, s, j)
    ensures Inv(p, Over(p, s, j, {Target(s, j, s.tasks[j].col)}), start)
  {
    assert TaskInv(p, s, j);
    OverKeeps(p, s, start, j, {Target(s, j, s.tasks[j].col)});
  }

  lemma SkipKeeps(p: Problem, s: State, start: nat, j: nat)
    requires p.Valid() && Inv(p, s, start) && CanSkip(p, s, j)
    ensures Inv(p, Over(p, s, j, {}), start)
  {
    OverKeeps(p, s, start, j, {});
  }

  /** The lists of the phase's block are final when its tasks are. */
  lemma FinalList(p: Problem, s: State, start: nat, r: nat)
    requires p.Valid() && Inv(p, s, start) && CanFinish(p, s) && r in RowsOf(p, s.phase)
    ensures Lists(s.lists[r], TopSet(Others(p, r), p.k))
  {
    assert RowInv(p, s, r);
    forall b: nat | b < p.Blocks() ensures b in s.folded[r] {
      assert Done(p, s, r, b);
    }
    AllBlocksAreOthers(p, r, s.folded[r]);
  }

  /** At a phase's end the rows of its block have seen every block, the later ones every block up to it. */
  lemma FinishKeepsFold(p: Problem, s: State, r: nat)
    requires p.Valid() && Shape(p, s) && CanFinish(p, s) && r < p.n && FoldInv(p, s, r)
    ensures FoldInv(p, DoFinish(p, s), r)
  {
    BlockInRange(p, r);
    forall b: nat | b < p.Blocks() ensures Done(p, DoFinish(p, s), r, b) <==> Done(p, s, r, b) {}
  }

  lemma FinishPublishes(p: Problem, s: State, start: nat)
    requires p.Valid() && Inv(p, s, start) && CanFinish(p, s) && start <= s.phase
    ensures PublishedInv(p, DoFinish(p, s), start)
  {
    var t := DoFinish(p, s);
    forall r | r in t.published ensures |t.published[r]| == p.k && Publishes(t.published[r], TopSet(Others(p, r), p.k)) {
      if r in RowsOf(p, s.phase) {
        FinalList(p, s, start, r);
        assert RowInv(p, s, r);
        SortedListPublishes(s.lists[r], TopSet(Others(p, r), p.k));
      }
    }
  }

  lemma FinishKeeps(p: Problem, s: State, start: nat)
    requires p.Valid() && Inv(p, s, start) && CanFinish(p, s) && start <= s.phase
    ensures Inv(p, DoFinish(p, s), start)
  {
    forall r | 0 <= r < p.n ensures RowInv(p, DoFinish(p, s), r) {
      assert RowInv(p, s, r);
      FinishKeepsFold(p, s, r);
    }
    FinishPublishes(p, s, start);
  }

  lemma StepKeeps(p: Problem, s: State, start: nat, a: Action)
    requires p.Valid() && Inv(p, s, start) && start <= s.phase && Enabled(p, s, a)
    ensures Inv(p, Apply(p, s, a), start) && start <= Apply(p, s, a).phase
  {
    match a
    case Read(j, r) => ReadKeeps(p, s, start, j, r);
    case Lock(j) => LockKeeps(p, s, start, j);
    case Load(j, r) => LoadKeeps(p, s, start, j, r);
    case Store(j, r, merged) => StoreKeeps(p, s, start, j, r, merged);
    case Unlock(j) => UnlockKeeps(p, s, start, j);
    case Skip(j) => SkipKeeps(p, s, start, j);
    case Finish => FinishKeeps(p, s, start);
  }

  // ---- Whole runs ----

  /** Row r has seen block c when block b's phase begins. */
  predicate Earlier(p: Problem, r: nat, b: nat, c: nat)
    requires p.block >= 1
  {
    c < b || p.BlockOf(r) < b
  }

  function SeenBefore(p: Problem, r: nat, b: nat): set<nat>
    requires p.block >= 1
  {
    set c: nat | c < p.Blocks() && Earlier(p, r, b, c)
  }

  /** The state of a run entered at block `b` with the given lists: `b` is 0 for a fresh run, and a
      checkpoint's `next_block` for a resumed one. */
  function EntryState(p: Problem, lists: seq<seq<Entry>>, thresholds: seq<Score>, b: nat): State
    requires p.block >= 1
  {
    State(b, lists, thresholds, map[], FreshTasks(p, b), seq(p.n, r requires 0 <= r < p.n => SeenBefore(p, r, b)), map[])
  }

  /** `TopKState.empty`. */
  function EmptyLists(p: Problem): seq<seq<Entry>> { seq(p.n, _ => seq(p.k, _ => UNFILLED)) }

  function EmptyThresholds(p: Problem): seq<Score> { seq(p.n, _ => FLOOR) }

  /** Lists and thresholds from which a run may be entered at block `b`. */
  ghost predicate Enterable(p: Problem, lists: seq<seq<Entry>>, thresholds: seq<Score>, b: nat)
    requires p.block >= 1
  {
    && |lists| == |thresholds| == p.n && b <= p.Blocks()
    && forall r :: 0 <= r < p.n ==> ListInv(p, r, lists[r], thresholds[r], SeenBefore(p, r, b))
  }

  ghost predicate IsStep(p: Problem, s: State, a: Action, t: State)
    requires p.block >= 1
  {
    Enabled(p, s, a) && t == Apply(p, s, a)
  }

  ghost predicate Next(p: Problem, s: State, t: State)
    requires p.block >= 1
  {
    exists a :: IsStep(p, s, a, t)
  }

  ghost predicate IsRun(p: Problem, run: seq<State>)
    requires p.block >= 1
  {
    run != [] && forall i, j :: 0 <= i < |run| && j == i + 1 < |run| ==> Next(p, run[i], run[j])
  }

  lemma EmptyEnterable(p: Problem)
    requires p.Valid()
    ensures Enterable(p, EmptyLists(p), EmptyThresholds(p), 0)
  {
    forall r | 0 <= r < p.n ensures ListInv(p, r, EmptyLists(p)[r], EmptyThresholds(p)[r], SeenBefore(p, r, 0)) {
      var l := EmptyLists(p)[r];
      AllUnfilled(l);
      assert SeenBefore(p, r, 0) == {};
      assert TopSet(p.Entries(r, {}), p.k) == {};
      ThresholdIsKthBest(l, {});
    }
  }

  lemma EntryInv(p: Problem, lists: seq<seq<Entry>>, thresholds: seq<Score>, b: nat)
    requires p.Valid() && Enterable(p, lists, thresholds, b)
    ensures Inv(p, EntryState(p, lists, thresholds, b), b)
  {
    var s := EntryState(p, lists, thresholds, b);
    forall r | 0 <= r < p.n ensures RowInv(p, s, r) {
      assert ListInv(p, r, lists[r], thresholds[r], SeenBefore(p, r, b));
      forall c: nat ensures c in s.folded[r] <==> c < p.Blocks() && Done(p, s, r, c) {
        assert c in SeenBefore(p, r, b) <==> c < p.Blocks() && Earlier(p, r, b, c);
      }
    }
  }

  /** Every state of every interleaving satisfies the invariant. */
  lemma {:induction false} RunKeeps(p: Problem, run: seq<State>, start: nat, i: nat)
    requires p.Valid() && IsRun(p, run) && Inv(p, run[0], start) && start <= run[0].phase && i < |run|
    ensures Inv(p, run[i], start) && start <= run[i].phase
  {
    if i > 0 {
      RunKeeps(p, run, start, i - 1);
      assert Next(p, run[i - 1], run[i]);
      var a :| IsStep(p, run[i - 1], a, run[i]);
      StepKeeps(p, run[i - 1], start, a);
    }
  }

  lemma OthersNext(p: Problem, r: nat, m: nat)
    ensures OthersBelow(p, r, m + 1) == if m == r then OthersBelow(p, r, m) else OthersBelow(p, r, m) + {Entry(p.score(r, m), m)}
    ensures Entry(p.score(r, m), m) !in OthersBelow(p, r, m)
  {
  }

  lemma {:induction false} OthersSize(p: Problem, r: nat, m: nat)
    requires r < p.n && m <= p.n
    ensures |OthersBelow(p, r, m)| == if r < m then m - 1 else m
    decreases m
  {
    if m == 0 {
      assert OthersBelow(p, r, 0) == {};
    } else {
      OthersSize(p, r, m - 1);
      OthersNext(p, r, m - 1);
    }
  }

  /** Row r's published list is the exact one: the first min(k, n - 1) other rows by (score descending,
      position ascending), and unfilled slots after them. */
  ghost predicate Exact(p: Problem, r: nat, l: seq<Entry>) {
    && |l| == p.k
    && Publishes(l, TopSet(Others(p, r), p.k))
    && |TopSet(Others(p, r), p.k)| == if p.n - 1 < p.k then p.n - 1 else p.k
  }

  ghost predicate PublishedExactly(p: Problem, s: State, r: nat) {
    r in s.published && Exact(p, r, s.published[r])
  }

  lemma PublishedExact(p: Problem, s: State, start: nat, r: nat)
    requires p.Valid() && Inv(p, s, start) && r in s.published
    ensures r < p.n && Exact(p, r, s.published[r])
  {
    OthersSize(p, r, p.n);
    TopSize(Others(p, r), p.k);
  }

  /** Main result. Whatever the interleaving of reads, locks and merges, a finished run has published
      every row's exact list. */
  lemma ExactAllPairs(p: Problem, run: seq<State>, last: State)
    requires p.Valid() && IsRun(p, run) && run[0] == EntryState(p, EmptyLists(p), EmptyThresholds(p), 0)
    requires last == run[|run| - 1] && last.phase == p.Blocks()
    ensures forall r :: 0 <= r < p.n ==> PublishedExactly(p, last, r)
  {
    EmptyEnterable(p);
    EntryInv(p, EmptyLists(p), EmptyThresholds(p), 0);
    RunKeeps(p, run, 0, |run| - 1);
    forall r | 0 <= r < p.n ensures PublishedExactly(p, last, r) {
      BlockInRange(p, r);
      PublishedExact(p, last, 0, r);
    }
  }

  /** What a run publishes does not depend on the interleaving, nor on the block it was entered at. */
  lemma PublishedAgree(p: Problem, s: State, t: State, start: nat, start': nat, r: nat)
    requires p.Valid() && Inv(p, s, start) && Inv(p, t, start')
    requires r in s.published && r in t.published
    ensures s.published[r] == t.published[r]
  {
    PublishedUnique(s.published[r], t.published[r], TopSet(Others(p, r), p.k));
  }

  /** Lists and thresholds saved between phases may be resumed from. */
  lemma SavedEnterable(p: Problem, s: State, start: nat)
    requires p.Valid() && Inv(p, s, start) && s.tasks == FreshTasks(p, s.phase)
    ensures Enterable(p, s.lists, s.thresholds, s.phase)
  {
    forall r | 0 <= r < p.n ensures ListInv(p, r, s.lists[r], s.thresholds[r], SeenBefore(p, r, s.phase)) {
      assert RowInv(p, s, r);
      assert s.folded[r] == SeenBefore(p, r, s.phase);
    }
  }

  lemma RaisedThreshold(p: Problem, r: nat, folded: set<nat>, more: set<nat>, before: Score, l: seq<Entry>, after: Score)
    requires p.Valid() && r < p.n && folded <= more && ListInv(p, r, l, after, more)
    requires Justified(p.Entries(r, folded), before, p.k)
    ensures before <= after
  {
    var seen, top := p.Entries(r, more), TopSet(p.Entries(r, more), p.k);
    ThresholdIsKthBest(l, top);
    TopSize(seen, p.k);
    if before > FLOOR {
      var reach := set e | e in p.Entries(r, folded) && e.score >= before;
      SubsetSize(reach, seen);
      var e :| e in top && e.score == after;
      if e.score < before {
        SubsetSize(reach, Ahead(seen, e));
      }
    }
  }

  /** Raising never stops: no step lowers a row's threshold. */
  lemma ThresholdsRise(p: Problem, s: State, start: nat, a: Action, r: nat)
    requires p.Valid() && Inv(p, s, start) && start <= s.phase && Enabled(p, s, a) && r < p.n
    ensures s.thresholds[r] <= Apply(p, s, a).thresholds[r]
  {
    var t := Apply(p, s, a);
    StepKeeps(p, s, start, a);
    assert RowInv(p, s, r) && RowInv(p, t, r);
    if a.Store? && a.r == r {
      StoredIsJustified(p, s, r);
      RaisedThreshold(p, r, s.folded[r], t.folded[r], s.thresholds[r], t.lists[r], t.thresholds[r]);
    }
  }

  lemma {:induction false} Flat(s: set<Entry>) returns (flat: seq<Entry>)
    ensures multiset(flat) == multiset(s)
  {
    flat := [];
    if s != {} {
      var e :| e in s;
      var rest := Flat(s - {e});
      flat := [e] + rest;
      assert s == (s - {e}) + {e};
    }
  }

  lemma SomeMerge(loaded: seq<Entry>, candidates: set<Entry>) returns (merged: seq<Entry>)
    requires loaded != []
    ensures merged != [] && MergeOf(loaded, candidates, merged)
  {
    var flat := Flat(candidates);
    var slots := loaded + flat;
    SortedPrefixIsKBest(slots, |loaded|);
    var best := SortedList(slots)[..|loaded|];
    assert multiset(slots) == Slots(loaded, flat, 0);
    merged := EmptyPads(best);
    assert MergedRow(loaded, flat, merged);
  }

  lemma HolderMoves(p: Problem, s: State, j: nat) returns (a: Action)
    requires p.Valid() && Shape(p, s) && RowsInv(p, s) && j in s.tasks && TaskInv(p, s, j) && s.tasks[j].Holding?
    ensures Enabled(p, s, a)
  {
    var l := s.tasks[j];
    if r :| r in l.read && Touched(p, s, j, l, r) && r !in l.stored {
      assert ReadInv(p, r, Target(s, j, l.col), l.read[r], s.folded);
      if r in l.loaded {
        assert RowInv(p, s, r);
        var merged := SomeMerge(l.loaded[r], Candidates(p, s, j, l.col, l.read, r));
        a := Store(j, r, merged);
      } else {
        a := Load(j, r);
      }
    } else {
      a := Unlock(j);
    }
  }

  /** No interleaving gets stuck: until the last block is published some step can be taken. */
  lemma Progress(p: Problem, s: State, start: nat) returns (a: Action)
    requires p.Valid() && Inv(p, s, start) && s.phase < p.Blocks()
    ensures Enabled(p, s, a)
  {
    if j :| j in s.tasks && !s.tasks[j].Finished? {
      assert TaskInv(p, s, j);
      if s.tasks[j].Holding? {
        a := HolderMoves(p, s, j);
      } else if r :| r in RowsOf(p, Target(s, j, s.tasks[j].col)) && r !in s.tasks[j].read {
        a := Read(j, r);
      } else {
        forall r | r in s.tasks[j].read ensures r in RowsOf(p, Target(s, j, s.tasks[j].col)) {
          assert ReadInv(p, r, Target(s, j, s.tasks[j].col), s.tasks[j].read[r], s.folded);
        }
        assert ReadAll(p, s, j, s.tasks[j]);
        var target := Target(s, j, s.tasks[j].col);
        if !exists r :: r in s.tasks[j].read && Touched(p, s, j, s.tasks[j], r) {
          a := Skip(j);
        } else if target in s.holder {
          assert TaskInv(p, s, s.holder[target]);
          a := HolderMoves(p, s, s.holder[target]);
        } else {
          a := Lock(j);
        }
      }
    } else {
      a := Finish;
    }
  }
}
