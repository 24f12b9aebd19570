/** The published rank order (score descending, position ascending) and the best k of a set of candidates. */
module Ranking {

  /** The ordinal of a float32 (see `Float32.Ordinal`): an integer ordered exactly as the float. NEG_INF is minus
      infinity, and FLOOR, the smallest finite float32, follows it. */
  type Score = int

  const NEG_INF: Score := -0x7F80_0000
  const FLOOR: Score := -0x7F7F_FFFF
  const EMPTY_POSITION := -1
  const PAD_POSITION := 0x7FFF_FFFF

  datatype Entry = Entry(score: Score, pos: int)

  const UNFILLED := Entry(NEG_INF, EMPTY_POSITION)
  const PADDING := Entry(NEG_INF, PAD_POSITION)

  predicate Before(a: Entry, b: Entry) {
    a.score > b.score || (a.score == b.score && a.pos < b.pos)
  }

  /** A real candidate: a finite score at a catalog position. */
  predicate Valid(e: Entry) {
    FLOOR <= e.score && 0 <= e.pos < PAD_POSITION
  }

  ghost predicate AllValid(s: set<Entry>) {
    forall e :: e in s ==> Valid(e)
  }

  function Ahead(s: set<Entry>, e: Entry): set<Entry> {
    set x | x in s && Before(x, e)
  }

  /** The best `k` of `s`: the entries with fewer than `k` entries ahead of them. */
  function TopSet(s: set<Entry>, k: nat): set<Entry> {
    set e | e in s && |Ahead(s, e)| < k
  }

  lemma SubsetSize<T>(a: set<T>, b: set<T>)
    requires a <= b
    ensures |a| <= |b|
  {
    assert b == a + (b - a);
  }

  lemma {:induction false} HasLast(s: set<Entry>) returns (last: Entry)
    requires s != {}
    ensures last in s && forall x :: x in s && x != last ==> Before(x, last)
  {
    var e :| e in s;
    if s == {e} {
      last := e;
    } else {
      var rest := HasLast(s - {e});
      last := if Before(rest, e) then e else rest;
      forall x | x in s && x != last ensures Before(x, last) {
        if x != e && x != rest {
          assert x in s - {e};
        }
      }
    }
  }

  /** The best k of a set really number k (or all of a smaller set). */
  lemma {:induction false} TopSize(s: set<Entry>, k: nat)
    ensures |TopSet(s, k)| == if |s| < k then |s| else k
  {
    if s == {} {
      assert TopSet(s, k) == {};
    } else {
      var last := HasLast(s);
      var rest := s - {last};
      TopSize(rest, k);
      assert Ahead(s, last) == rest;
      forall e | e in rest ensures Ahead(s, e) == Ahead(rest, e) {
        assert Before(e, last);
      }
      if |rest| < k {
        assert TopSet(s, k) == TopSet(rest, k) + {last};
      } else {
        assert TopSet(s, k) == TopSet(rest, k);
      }
    }
  }

  /** Candidates outside the best k may be left out: every set between the best k and the
      whole has the same best k. */
  lemma Sandwich(s: set<Entry>, kept: set<Entry>, k: nat)
    requires TopSet(s, k) <= kept <= s
    ensures TopSet(kept, k) == TopSet(s, k)
  {
    forall e | e in kept ensures e in TopSet(kept, k) <==> e in TopSet(s, k) {
      SubsetSize(Ahead(kept, e), Ahead(s, e));
      if e !in TopSet(s, k) {
        var top := TopSet(s, k);
        SubsetSize(Ahead(s, e), s);
        TopSize(s, k);
        forall x | x in top ensures Before(x, e) {
          if Before(e, x) {
            SubsetSize(Ahead(s, e), Ahead(s, x));
          }
        }
        SubsetSize(top, Ahead(kept, e));
      }
    }
  }

  /** Merging into a running best k loses nothing. */
  lemma MergeLaw(s: set<Entry>, t: set<Entry>, k: nat)
    ensures TopSet(TopSet(s, k) + t, k) == TopSet(s + t, k)
  {
    forall e | e in TopSet(s + t, k) ensures e in TopSet(s, k) + t {
      SubsetSize(Ahead(s, e), Ahead(s + t, e));
    }
    Sandwich(s + t, TopSet(s, k) + t, k);
  }

  /** `l` is the ranking of `s`: its entries, each once, in rank order. */
  ghost predicate Ranks(l: seq<Entry>, s: set<Entry>) {
    && (forall e :: e in l <==> e in s)
    && forall i, j :: 0 <= i < j < |l| ==> Before(l[i], l[j])
  }

  lemma RestRanks(a: seq<Entry>, s: set<Entry>)
    requires a != [] && Ranks(a, s)
    ensures Ranks(a[1..], s - {a[0]})
  {
    forall e ensures e in a[1..] <==> e in s - {a[0]} {
      if e in a[1..] {
        var i :| 0 <= i < |a[1..]| && a[1..][i] == e;
        assert a[i + 1] == e && Before(a[0], a[i + 1]);
      }
    }
  }

  lemma MultisetWith(s: set<Entry>, e: Entry)
    requires e !in s
    ensures multiset(s + {e}) == multiset(s) + multiset{e}
  {
  }

  /** A ranking lists its set without repetition. */
  lemma {:induction false} RankingSize(a: seq<Entry>, s: set<Entry>)
    requires Ranks(a, s)
    ensures |a| == |s|
    ensures multiset(a) == multiset(s)
    decreases |a|
  {
    if a == [] {
      assert s == {};
    } else {
      assert a[0] in s;
      RestRanks(a, s);
      var rest := s - {a[0]};
      RankingSize(a[1..], rest);
      assert a == [a[0]] + a[1..];
      MultisetWith(rest, a[0]);
      assert s == rest + {a[0]};
    }
  }

  /** A set has one ranking. */
  lemma {:induction false} RankingUnique(a: seq<Entry>, b: seq<Entry>, s: set<Entry>)
    requires Ranks(a, s) && Ranks(b, s)
    ensures a == b
    decreases |a|
  {
    RankingSize(a, s);
    RankingSize(b, s);
    if a != [] {
      assert a[0] in b && b[0] in a;
      assert a[0] == b[0];
      RestRanks(a, s);
      RestRanks(b, s);
      RankingUnique(a[1..], b[1..], s - {a[0]});
      assert a == [a[0]] + a[1..] && b == [b[0]] + b[1..];
    }
  }
}
