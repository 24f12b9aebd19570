/** What an exact row holds, in plain terms: positions and scores slot by slot. */
module ExactLists {
  import opened ExactTopK
  import opened Ranking
  import opened TopKMerge
  import opened TopKSelect

  /** How many neighbours row r has room for: the smaller of k and the number of other rows. */
  function Kept(p: Problem): nat
    requires p.n > 0
  {
    if p.k < p.n - 1 then p.k else p.n - 1
  }

  /** Score s at position a goes before score t at position b. */
  predicate Beats(s: int, a: int, t: int, b: int) {
    s > t || (s == t && a < b)
  }

  /** The row's slots: other rows with their scores, best first, then (-1, -inf). */
  ghost predicate SlotsRead(p: Problem, r: nat, positions: seq<int>, scores: seq<int>)
    requires p.n > 0
  {
    && |positions| == |scores| == p.k
    && (forall i :: 0 <= i < Kept(p) ==> 0 <= positions[i] < p.n && positions[i] != r && scores[i] == p.score(r, positions[i]))
    && (forall i :: Kept(p) <= i < p.k ==> positions[i] == -1 && scores[i] == NEG_INF)
    && (forall i, j :: 0 <= i < j < Kept(p) ==> Beats(scores[i], positions[i], scores[j], positions[j]))
  }

  /** Whoever is left out comes after all who are kept. */
  ghost predicate OthersAfter(p: Problem, r: nat, positions: seq<int>, scores: seq<int>)
    requires p.n > 0 && |positions| == |scores| == p.k
  {
    forall c: nat, i :: c < p.n && c != r && c !in positions[..Kept(p)] && 0 <= i < Kept(p) ==>
      Beats(scores[i], positions[i], p.score(r, c), c)
  }

  ghost predicate RankedRow(p: Problem, r: nat, positions: seq<int>, scores: seq<int>)
    requires p.n > 0
  {
    SlotsRead(p, r, positions, scores) && OthersAfter(p, r, positions, scores)
  }

  function PositionsOf(l: seq<Entry>): (s: seq<int>)
    ensures |s| == |l| && forall i :: 0 <= i < |l| ==> s[i] == l[i].pos
  {
    seq(|l|, i requires 0 <= i < |l| => l[i].pos)
  }

  function ScoresOf(l: seq<Entry>): (s: seq<int>)
    ensures |s| == |l| && forall i :: 0 <= i < |l| ==> s[i] == l[i].score
  {
    seq(|l|, i requires 0 <= i < |l| => l[i].score)
  }

  lemma OtherIs(p: Problem, r: nat, e: Entry)
    ensures e in Others(p, r) <==> 0 <= e.pos < p.n && e.pos != r && e.score == p.score(r, e.pos)
  {
  }

  /** Whoever is outside the best k comes after all of them. */
  lemma TopBeatsRest(s: set<Entry>, k: nat, e: Entry, x: Entry)
    requires e in TopSet(s, k) && x in s && x !in TopSet(s, k)
    ensures Before(e, x)
  {
    if Before(x, e) {
      SubsetSize(Ahead(s, x), Ahead(s, e));
    }
  }

  /** Row r's exact list: the kept slots, as entries. */
  lemma ExactKeeps(p: Problem, r: nat, l: seq<Entry>, e: Entry)
    requires p.n > 0 && Exact(p, r, l)
    ensures |TopSet(Others(p, r), p.k)| == Kept(p) <= |l|
    ensures e in l[..Kept(p)] <==> e in TopSet(Others(p, r), p.k)
  {
  }

  lemma ExactSlots(p: Problem, r: nat, l: seq<Entry>)
    requires p.Valid() && r < p.n && Exact(p, r, l)
    ensures forall i :: 0 <= i < Kept(p) ==> l[i] in Others(p, r) && 0 <= l[i].pos < p.n && l[i].pos != r && l[i].score == p.score(r, l[i].pos)
    ensures forall i :: Kept(p) <= i < p.k ==> l[i] == UNFILLED
    ensures forall i, j :: 0 <= i < j < Kept(p) ==> Before(l[i], l[j])
  {
    var m := Kept(p);
    ExactKeeps(p, r, l, UNFILLED);
    forall i | 0 <= i < m ensures l[i] in Others(p, r) && 0 <= l[i].pos < p.n && l[i].pos != r && l[i].score == p.score(r, l[i].pos) {
      assert l[i] in l[..m];
      ExactKeeps(p, r, l, l[i]);
      OtherIs(p, r, l[i]);
    }
    forall i, j | 0 <= i < j < m ensures Before(l[i], l[j]) {
      assert Before(l[..m][i], l[..m][j]);
    }
  }

  lemma Positioned(l: seq<Entry>, m: nat, x: Entry)
    requires m <= |l|
    ensures x in l[..m] ==> x.pos in PositionsOf(l)[..m]
  {
    if x in l[..m] {
      var i :| 0 <= i < m && l[i] == x;
      assert PositionsOf(l)[..m][i] == x.pos;
    }
  }

  lemma LeftOut(p: Problem, r: nat, l: seq<Entry>, c: nat, i: nat)
    requires p.Valid() && r < p.n && Exact(p, r, l) && c < p.n && c != r && i < Kept(p) <= |l|
    requires c !in PositionsOf(l)[..Kept(p)]
    ensures Before(l[i], Entry(p.score(r, c), c))
  {
    var x := Entry(p.score(r, c), c);
    OtherIs(p, r, x);
    ExactKeeps(p, r, l, x);
    ExactKeeps(p, r, l, l[i]);
    assert l[i] in l[..Kept(p)];
    Positioned(l, Kept(p), x);
    TopBeatsRest(Others(p, r), p.k, l[i], x);
  }

  lemma ExactSlotsRead(p: Problem, r: nat, l: seq<Entry>)
    requires p.Valid() && r < p.n && Exact(p, r, l)
    ensures SlotsRead(p, r, PositionsOf(l), ScoresOf(l))
  {
    ExactKeeps(p, r, l, UNFILLED);
    ExactSlots(p, r, l);
  }

  lemma ExactOthersAfter(p: Problem, r: nat, l: seq<Entry>)
    requires p.Valid() && r < p.n && Exact(p, r, l)
    ensures OthersAfter(p, r, PositionsOf(l), ScoresOf(l))
  {
    ExactKeeps(p, r, l, UNFILLED);
    forall c: nat, i | c < p.n && c != r && c !in PositionsOf(l)[..Kept(p)] && 0 <= i < Kept(p)
      ensures Beats(ScoresOf(l)[i], PositionsOf(l)[i], p.score(r, c), c) {
      LeftOut(p, r, l, c, i);
    }
  }

  // ---- And back ----

  lemma RankedOther(p: Problem, r: nat, l: seq<Entry>, i: nat)
    requires p.n > 0 && RankedRow(p, r, PositionsOf(l), ScoresOf(l)) && i < Kept(p)
    ensures l[i] in Others(p, r)
  {
    var q := PositionsOf(l)[i];
    assert l[i].pos == q && l[i].score == ScoresOf(l)[i];
    OtherIs(p, r, l[i]);
  }

  lemma {:induction false} PrefixSet(l: seq<Entry>, m: nat)
    requires m <= |l| && forall i, j :: 0 <= i < j < m ==> Before(l[i], l[j])
    ensures |set i | 0 <= i < m :: l[i]| == m
  {
    var s := set i | 0 <= i < m :: l[i];
    if m == 0 {
      assert s == {};
    } else {
      PrefixSet(l, m - 1);
      assert s == (set i | 0 <= i < m - 1 :: l[i]) + {l[m - 1]};
      assert forall i :: 0 <= i < m - 1 ==> Before(l[i], l[m - 1]);
    }
  }

  lemma SlotsOrdered(p: Problem, r: nat, l: seq<Entry>)
    requires p.n > 0 && RankedRow(p, r, PositionsOf(l), ScoresOf(l))
    ensures forall i, j :: 0 <= i < j < Kept(p) ==> Before(l[i], l[j])
  {
    forall i, j | 0 <= i < j < Kept(p) ensures Before(l[i], l[j]) {
      assert Beats(ScoresOf(l)[i], PositionsOf(l)[i], ScoresOf(l)[j], PositionsOf(l)[j]);
    }
  }

  /** Only the slots before it are ahead of a kept slot. */
  lemma AheadOfSlot(p: Problem, r: nat, l: seq<Entry>, i: nat, x: Entry)
    requires p.Valid() && r < p.n && RankedRow(p, r, PositionsOf(l), ScoresOf(l)) && i < Kept(p)
    requires x in Others(p, r) && Before(x, l[i])
    ensures exists j :: 0 <= j < i && l[j] == x
  {
    OtherIs(p, r, x);
    SlotsOrdered(p, r, l);
    assert x.pos in PositionsOf(l)[..Kept(p)];
    var j :| 0 <= j < Kept(p) && PositionsOf(l)[j] == x.pos;
    assert l[j] == x;
  }

  lemma SlotIsTop(p: Problem, r: nat, l: seq<Entry>, i: nat)
    requires p.Valid() && r < p.n && RankedRow(p, r, PositionsOf(l), ScoresOf(l)) && i < Kept(p)
    ensures l[i] in TopSet(Others(p, r), p.k)
  {
    SlotsOrdered(p, r, l);
    RankedOther(p, r, l, i);
    PrefixSet(l, i);
    var before := set j | 0 <= j < i :: l[j];
    forall x | x in Ahead(Others(p, r), l[i]) ensures x in before {
      AheadOfSlot(p, r, l, i, x);
    }
    SubsetSize(Ahead(Others(p, r), l[i]), before);
  }

  lemma SubsetOfSize<T>(a: set<T>, b: set<T>)
    requires a <= b && |a| >= |b|
    ensures a == b
  {
    assert b == a + (b - a);
  }

  /** The kept slots are the whole best k: they are part of it, and as many. */
  lemma SlotsAreTop(p: Problem, r: nat, l: seq<Entry>)
    requires p.Valid() && r < p.n && RankedRow(p, r, PositionsOf(l), ScoresOf(l))
    ensures (set i | 0 <= i < Kept(p) :: l[i]) == TopSet(Others(p, r), p.k) && |TopSet(Others(p, r), p.k)| == Kept(p)
  {
    var kept, top := set i | 0 <= i < Kept(p) :: l[i], TopSet(Others(p, r), p.k);
    SlotsOrdered(p, r, l);
    PrefixSet(l, Kept(p));
    forall e | e in kept ensures e in top {
      var i :| 0 <= i < Kept(p) && l[i] == e;
      SlotIsTop(p, r, l, i);
    }
    OthersSize(p, r, p.n);
    TopSize(Others(p, r), p.k);
    SubsetOfSize(kept, top);
  }

  /** A list is the exact one if and only if its slots read so. */
  lemma ExactlyRanked(p: Problem, r: nat, l: seq<Entry>)
    requires p.Valid() && r < p.n
    ensures Exact(p, r, l) <==> RankedRow(p, r, PositionsOf(l), ScoresOf(l))
  {
    if Exact(p, r, l) {
      ExactSlotsRead(p, r, l);
      ExactOthersAfter(p, r, l);
    } else if RankedRow(p, r, PositionsOf(l), ScoresOf(l)) {
      SlotsAreTop(p, r, l);
      SlotsOrdered(p, r, l);
      var head, top := l[..Kept(p)], TopSet(Others(p, r), p.k);
      forall e ensures e in head <==> e in top {
        assert e in head <==> e in set i | 0 <= i < Kept(p) :: l[i];
      }
      forall i | Kept(p) <= i < |l| ensures l[i] == UNFILLED {
        assert PositionsOf(l)[i] == -1 && ScoresOf(l)[i] == NEG_INF;
      }
      assert Ranks(head, top);
    }
  }

  /** What a finished run published for a row, whatever the interleaving. */
  lemma RunPublishesRanked(p: Problem, run: seq<State>, last: State, r: nat)
    requires p.Valid() && IsRun(p, run) && run[0] == EntryState(p, EmptyLists(p), EmptyThresholds(p), 0)
    requires last == run[|run| - 1] && last.phase == p.Blocks() && r < p.n
    ensures r in last.published && RankedRow(p, r, PositionsOf(last.published[r]), ScoresOf(last.published[r]))
  {
    ExactAllPairs(p, run, last);
    assert PublishedExactly(p, last, r);
    ExactlyRanked(p, r, last.published[r]);
  }
}
