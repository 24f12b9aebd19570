/** Runs of a step relation, and runs found by following a falling measure. */
module Runs {

  /** Each state of the run is followed by a next one. */
  ghost predicate Path<T(!new)>(next: (T, T) -> bool, run: seq<T>) {
    run != [] && forall i, j :: 0 <= i < |run| && j == i + 1 < |run| ==> next(run[i], run[j])
  }

  ghost predicate PathTo<T(!new)>(next: (T, T) -> bool, run: seq<T>, first: T, goal: T -> bool) {
    Path(next, run) && run[0] == first && goal(run[|run| - 1])
  }

  /** A next state that is the goal, or goes on with less to do. */
  ghost predicate GoesOn<T(!new)>(next: (T, T) -> bool, going: T -> bool, goal: T -> bool, measure: T -> int, x: T) {
    exists y :: next(x, y) && (goal(y) || (going(y) && measure(y) < measure(x) && 0 <= measure(x)))
  }

  lemma GoesOnBy<T(!new)>(next: (T, T) -> bool, going: T -> bool, goal: T -> bool, measure: T -> int, x: T, y: T)
    requires next(x, y) && (goal(y) || (going(y) && measure(y) < measure(x) && 0 <= measure(x)))
    ensures GoesOn(next, going, goal, measure, x)
  {
  }

  lemma PathPrepended<T(!new)>(next: (T, T) -> bool, x: T, y: T, run: seq<T>, goal: T -> bool)
    requires next(x, y) && PathTo(next, run, y, goal)
    ensures PathTo(next, [x] + run, x, goal)
  {
    var longer := [x] + run;
    forall i, j | 0 <= i < |longer| && j == i + 1 < |longer| ensures next(longer[i], longer[j]) {
      if i > 0 {
        assert next(run[i - 1], run[j - 1]);
      }
    }
  }

  /** If every state that is going goes on, some run leads to the goal. */
  lemma {:induction false} Reaches<T(!new)>(next: (T, T) -> bool, going: T -> bool, goal: T -> bool, measure: T -> int, x: T) returns (run: seq<T>)
    requires going(x) && forall y :: going(y) ==> GoesOn(next, going, goal, measure, y)
    ensures PathTo(next, run, x, goal)
    decreases measure(x)
  {
    assert GoesOn(next, going, goal, measure, x);
    var y :| next(x, y) && (goal(y) || (going(y) && measure(y) < measure(x) && 0 <= measure(x)));
    var rest := [y];
    if !goal(y) {
      rest := Reaches(next, going, goal, measure, y);
    }
    PathPrepended(next, x, y, rest, goal);
    run := [x] + rest;
  }
}
