/** `_scatter`: one block of directed entries counting-sorted into CSR row slots. */
module Scatter {
  import Sorting

  predicate Less(a: nat, b: nat) { a < b }

  /** How often row `v` occurs among the first `t` entries. */
  function Count(rows: seq<nat>, v: nat, t: nat): (c: nat)
    requires t <= |rows|
    ensures c <= t
  {
    if t == 0 then 0 else Count(rows, v, t - 1) + (if rows[t - 1] == v then 1 else 0)
  }

  /** The columns of row `v`'s entries among the first `t`, in their order. */
  function Cols(rows: seq<nat>, cols: seq<nat>, v: nat, t: nat): (r: seq<nat>)
    requires t <= |rows| == |cols|
    ensures |r| == Count(rows, v, t)
  {
    if t == 0 then [] else Cols(rows, cols, v, t - 1) + (if rows[t - 1] == v then [cols[t - 1]] else [])
  }

  /** The slot of entry `t`: past its row's cursor by the number of earlier entries of the same row. */
  function Slot(rows: seq<nat>, cursor: seq<nat>, t: nat): nat
    requires t < |rows| && Sorting.Below(rows, |cursor|)
  {
    cursor[rows[t]] + Count(rows, rows[t], t)
  }

  /** Every row's cursor leaves room for its entries before the next row's cursor and the end. */
  predicate Room(rows: seq<nat>, cursor: seq<nat>, size: nat) {
    && Sorting.Below(rows, |cursor|)
    && (forall v, w :: 0 <= v < w < |cursor| ==> cursor[v] + Count(rows, v, |rows|) <= cursor[w])
    && (forall v :: 0 <= v < |cursor| ==> cursor[v] + Count(rows, v, |rows|) <= size)
  }

  lemma {:induction false} CountGrows(rows: seq<nat>, v: nat, t: nat, u: nat)
    requires t <= u <= |rows|
    ensures Count(rows, v, t) <= Count(rows, v, u)
    ensures t < u && rows[t] == v ==> Count(rows, v, t) < Count(rows, v, u)
    decreases u
  {
    if t < u {
      CountGrows(rows, v, t, u - 1);
    }
  }

  /** Every write lands inside its own row's window, in a slot no other entry takes. */
  lemma SlotFresh(rows: seq<nat>, cursor: seq<nat>, size: nat, t: nat, u: nat)
    requires Room(rows, cursor, size) && t < |rows| && u < |rows|
    ensures cursor[rows[t]] <= Slot(rows, cursor, t) < cursor[rows[t]] + Count(rows, rows[t], |rows|) <= size
    ensures t != u ==> Slot(rows, cursor, t) != Slot(rows, cursor, u)
  {
    CountGrows(rows, rows[t], t, |rows|);
    CountGrows(rows, rows[u], u, |rows|);
    if rows[t] == rows[u] {
      CountGrows(rows, rows[t], if t < u then t else u, if t < u then u else t);
    }
  }

  /** Entry `t` is its row's entry number `Count(.., t)`. */
  lemma {:induction false} ColsAt(rows: seq<nat>, cols: seq<nat>, v: nat, t: nat, n: nat)
    requires t < n <= |rows| == |cols| && rows[t] == v
    ensures Count(rows, v, t) < Count(rows, v, n) && Cols(rows, cols, v, n)[Count(rows, v, t)] == cols[t]
    decreases n
  {
    if t < n - 1 {
      ColsAt(rows, cols, v, t, n - 1);
    }
  }

  /** Every place of a row's list is some entry's. */
  lemma {:induction false} EntryAt(rows: seq<nat>, v: nat, i: nat, n: nat) returns (t: nat)
    requires n <= |rows| && i < Count(rows, v, n)
    ensures t < n && rows[t] == v && Count(rows, v, t) == i
    decreases n
  {
    if rows[n - 1] == v && Count(rows, v, n - 1) == i {
      t := n - 1;
    } else {
      t := EntryAt(rows, v, i, n - 1);
    }
  }

  // ---- The rank within a run of equal rows ----

  /** Where the run of equal values around `q` begins. */
  function RunStart(s: seq<nat>, q: nat): (r: nat)
    requires q < |s|
    ensures r <= q
  {
    if q == 0 || s[q - 1] != s[q] then q else RunStart(s, q - 1)
  }

  lemma {:induction false} NoneBefore(rows: seq<nat>, v: nat, t: nat)
    requires t <= |rows| && forall x :: 0 <= x < t ==> rows[x] != v
    ensures Count(rows, v, t) == 0
  {
    if t > 0 {
      NoneBefore(rows, v, t - 1);
    }
  }

  lemma {:induction false} NoneBetween(rows: seq<nat>, v: nat, t: nat, u: nat)
    requires t <= u <= |rows| && forall x :: t <= x < u ==> rows[x] != v
    ensures Count(rows, v, u) == Count(rows, v, t)
    decreases u
  {
    if t < u {
      NoneBetween(rows, v, t, u - 1);
    }
  }

  lemma PlaceOf(rows: seq<nat>, order: seq<nat>, x: nat) returns (j: nat)
    requires Sorting.IsArgsort(rows, Less, order) && x < |rows|
    ensures j < |order| && order[j] == x
  {
    assert x in order;
    j :| 0 <= j < |order| && order[j] == x;
  }

  /** Entries of one row come out in the order they came in. */
  lemma TiesKeepOrder(rows: seq<nat>, order: seq<nat>, j: nat, q: nat)
    requires Sorting.IsArgsort(rows, Less, order) && j < |order| && q < |order|
    requires rows[order[j]] == rows[order[q]]
    ensures j < q <==> order[j] < order[q]
  {
    if j < q {
      assert Sorting.Earlier(rows, Less, order[j], order[q]);
    } else if q < j {
      assert Sorting.Earlier(rows, Less, order[q], order[j]);
    }
  }

  lemma SameRowBefore(rows: seq<nat>, order: seq<nat>, q: nat, x: nat)
    requires Sorting.IsArgsort(rows, Less, order) && q < |order| && x < order[q] && rows[x] == rows[order[q]]
    ensures q > 0 && rows[order[q - 1]] == rows[order[q]]
  {
    var j := PlaceOf(rows, order, x);
    TiesKeepOrder(rows, order, j, q);
    assert Sorting.Earlier(rows, Less, order[q - 1], order[q]);
    assert j < q - 1 ==> Sorting.Earlier(rows, Less, order[j], order[q - 1]);
  }

  /** In stable order the rank within a run is the number of earlier entries of the same row. */
  lemma {:induction false} RankIsCount(rows: seq<nat>, order: seq<nat>, q: nat)
    requires Sorting.IsArgsort(rows, Less, order) && q < |order|
    ensures q - RunStart(Sorting.Take(rows, order), q) == Count(rows, rows[order[q]], order[q])
    decreases q
  {
    var s, t, v := Sorting.Take(rows, order), order[q], rows[order[q]];
    if q == 0 || s[q - 1] != s[q] {
      forall x | 0 <= x < t ensures rows[x] != v {
        if rows[x] == v {
          SameRowBefore(rows, order, q, x);
        }
      }
      NoneBefore(rows, v, t);
    } else {
      RankIsCount(rows, order, q - 1);
      var t0 := order[q - 1];
      assert Sorting.Earlier(rows, Less, t0, t);
      forall x | t0 + 1 <= x < t ensures rows[x] != v {
        if rows[x] == v {
          var j := PlaceOf(rows, order, x);
          TiesKeepOrder(rows, order, q - 1, j);
          TiesKeepOrder(rows, order, j, q);
        }
      }
      NoneBetween(rows, v, t0 + 1, t);
    }
  }

  lemma {:induction false} CountIsMultiplicity(rows: seq<nat>, v: nat, t: nat)
    requires t <= |rows|
    ensures Count(rows, v, t) == multiset(rows[..t])[v]
  {
    if t > 0 {
      CountIsMultiplicity(rows, v, t - 1);
      assert rows[..t] == rows[..t - 1] + [rows[t - 1]];
    } else {
      assert rows[..0] == [];
    }
  }

  lemma CountSorted(rows: seq<nat>, v: nat)
    ensures Count(Sorting.Sorted(rows, Less), v, |rows|) == Count(rows, v, |rows|)
  {
    var s := Sorting.Sorted(rows, Less);
    Sorting.SortedSorts(rows, Less);
    CountIsMultiplicity(rows, v, |rows|);
    CountIsMultiplicity(s, v, |rows|);
    assert rows[..|rows|] == rows && s[..|rows|] == s;
  }

  lemma {:induction false} CountRun(s: seq<nat>, x: nat, start: nat, stop: nat, v: nat)
    requires start <= stop <= |s| && forall i :: start <= i < stop ==> s[i] == x
    ensures Count(s, v, stop) == Count(s, v, start) + (if v == x then stop - start else 0)
    decreases stop
  {
    if start < stop {
      CountRun(s, x, start, stop - 1, v);
    }
  }

  // ---- The two writes ----

  function Slots(rows: seq<nat>, cursor: seq<nat>): (r: seq<nat>)
    requires Sorting.Below(rows, |cursor|)
    ensures |r| == |rows|
  {
    seq(|rows|, t requires 0 <= t < |rows| => Slot(rows, cursor, t))
  }

  lemma SlotsFresh(rows: seq<nat>, cursor: seq<nat>, size: nat)
    requires Room(rows, cursor, size)
    ensures Sorting.Below(Slots(rows, cursor), size)
    ensures forall t, u :: 0 <= t < |rows| && 0 <= u < |rows| && t != u ==> Slots(rows, cursor)[t] != Slots(rows, cursor)[u]
  {
    forall t, u | 0 <= t < |rows| && 0 <= u < |rows|
      ensures Slots(rows, cursor)[t] < size && (t != u ==> Slots(rows, cursor)[t] != Slots(rows, cursor)[u]) {
      SlotFresh(rows, cursor, size, t, u);
    }
  }

  lemma SlotInOrder(rows: seq<nat>, order: seq<nat>, cursor: seq<nat>, p: nat)
    requires Sorting.Below(rows, |cursor|) && Sorting.IsArgsort(rows, Less, order) && p < |order|
    ensures var s := Sorting.Take(rows, order); Slots(rows, cursor)[order[p]] == cursor[s[p]] + (p - RunStart(s, p))
  {
    RankIsCount(rows, order, p);
  }

  /** The write of the p-th entry in sorted order, to the slot that is its own. */
  method WriteEntry(rows: seq<nat>, cols: seq<nat>, order: seq<nat>, cursor: array<nat>, indices: array<nat>, p: nat, start: nat)
    requires |rows| == |cols| && cursor != indices && Sorting.Below(rows, cursor.Length) && Sorting.IsArgsort(rows, Less, order)
    requires p < |order| && start == RunStart(Sorting.Take(rows, order), p) && Slots(rows, cursor[..])[order[p]] < indices.Length
    modifies indices
    ensures var slot := Slots(rows, cursor[..])[order[p]];
      indices[slot] == cols[order[p]] && forall s :: 0 <= s < indices.Length && s != slot ==> indices[s] == old(indices[s])
  {
    SlotInOrder(rows, order, cursor[..], p);
    indices[cursor[rows[order[p]]] + (p - start)] := cols[order[p]];
  }

  lemma OrderDistinct(rows: seq<nat>, order: seq<nat>, p: nat)
    requires Sorting.IsArgsort(rows, Less, order) && p < |order|
    ensures forall q :: 0 <= q < p ==> order[q] != order[p]
  {
    forall q | 0 <= q < p ensures order[q] != order[p] {
      assert Sorting.Earlier(rows, Less, order[q], order[p]);
    }
  }

  /** The scattered write: each entry's column to its slot, everything else as it was. */
  method WriteEntries(rows: seq<nat>, cols: seq<nat>, order: seq<nat>, cursor: array<nat>, indices: array<nat>)
    requires |rows| == |cols| && cursor != indices && Room(rows, cursor[..], indices.Length)
    requires Sorting.IsArgsort(rows, Less, order)
    modifies indices
    ensures Sorting.Below(Slots(rows, cursor[..]), indices.Length)
    ensures forall t :: 0 <= t < |rows| ==> indices[Slots(rows, cursor[..])[t]] == cols[t]
    ensures forall s :: 0 <= s < indices.Length && s !in Slots(rows, cursor[..]) ==> indices[s] == old(indices[s])
  {
    var sortedRows := Sorting.Take(rows, order);
    ghost var slots := Slots(rows, cursor[..]);
    SlotsFresh(rows, cursor[..], indices.Length);
    var start := 0;
    for p := 0 to |order|
      invariant p > 0 ==> start == RunStart(sortedRows, p - 1)
      invariant forall q :: 0 <= q < p ==> indices[slots[order[q]]] == cols[order[q]]
      invariant forall s :: 0 <= s < indices.Length && s !in slots ==> indices[s] == old(indices[s])
    {
      if p == 0 || sortedRows[p - 1] != sortedRows[p] {
        start := p;
      }
      WriteEntry(rows, cols, order, cursor, indices, p, start);
      OrderDistinct(rows, order, p);
    }
    forall t | 0 <= t < |rows| ensures indices[slots[t]] == cols[t] {
      var q := PlaceOf(rows, order, t);
    }
  }

  /** Each run moves its row's cursor on by its length. */
  method AdvanceCursors(rows: seq<nat>, order: seq<nat>, cursor: array<nat>)
    requires Sorting.Below(rows, cursor.Length) && Sorting.Below(order, |rows|)
    modifies cursor
    ensures forall v :: 0 <= v < cursor.Length ==>
      cursor[v] == old(cursor[v]) + Count(Sorting.Take(rows, order), v, |order|)
  {
    var sortedRows := Sorting.Take(rows, order);
    var start := 0;
    for p := 0 to |order|
      invariant 0 <= start <= p
      invariant p == |order| ==> start == p
      invariant p < |order| ==> forall i :: start <= i < p ==> sortedRows[i] == sortedRows[p]
      invariant forall v :: 0 <= v < cursor.Length ==> cursor[v] == old(cursor[v]) + Count(sortedRows, v, start)
    {
      if p + 1 == |order| || sortedRows[p + 1] != sortedRows[p] {
        forall v | 0 <= v < cursor.Length
          ensures Count(sortedRows, v, p + 1) == Count(sortedRows, v, start) + (if v == sortedRows[p] then p + 1 - start else 0) {
          CountRun(sortedRows, sortedRows[p], start, p + 1, v);
        }
        cursor[sortedRows[p]] := cursor[sortedRows[p]] + (p + 1 - start);
        start := p + 1;
      }
    }
  }

  /** Slot `s` is in the part of some row that this block fills. */
  ghost predicate InWindow(rows: seq<nat>, cursor: seq<nat>, s: nat) {
    exists v :: 0 <= v < |cursor| && cursor[v] <= s < cursor[v] + Count(rows, v, |rows|)
  }

  lemma OutsideUntouched(rows: seq<nat>, cursor: seq<nat>, size: nat)
    requires Room(rows, cursor, size)
    ensures forall s :: 0 <= s < size && !InWindow(rows, cursor, s) ==> s !in Slots(rows, cursor)
  {
    forall t | 0 <= t < |rows| ensures InWindow(rows, cursor, Slots(rows, cursor)[t]) {
      SlotFresh(rows, cursor, size, t, t);
    }
  }

  /** Once every entry is in its slot, every row's window holds the row's columns in order. */
  lemma WindowsHold(rows: seq<nat>, cols: seq<nat>, cursor: seq<nat>, after: seq<nat>)
    requires |rows| == |cols| && Room(rows, cursor, |after|)
    requires Sorting.Below(Slots(rows, cursor), |after|)
    requires forall t :: 0 <= t < |rows| ==> after[Slots(rows, cursor)[t]] == cols[t]
    ensures forall v, i :: 0 <= v < |cursor| && 0 <= i < Count(rows, v, |rows|) ==>
      after[cursor[v] + i] == Cols(rows, cols, v, |rows|)[i]
  {
    forall v, i | 0 <= v < |cursor| && 0 <= i < Count(rows, v, |rows|)
      ensures after[cursor[v] + i] == Cols(rows, cols, v, |rows|)[i] {
      var t := EntryAt(rows, v, i, |rows|);
      ColsAt(rows, cols, v, t, |rows|);
      assert Slots(rows, cursor)[t] == cursor[v] + i;
    }
  }

  lemma CountsSorted(rows: seq<nat>, order: seq<nat>, n: nat)
    requires order == Sorting.Argsort(rows, Less) && Sorting.IsArgsort(rows, Less, order)
    ensures forall v :: 0 <= v < n ==> Count(Sorting.Take(rows, order), v, |order|) == Count(rows, v, |rows|)
  {
    forall v | 0 <= v < n ensures Count(Sorting.Take(rows, order), v, |order|) == Count(rows, v, |rows|) {
      CountSorted(rows, v);
    }
  }

  /** `_scatter`: each row's window gets the row's columns in order, every cursor moves to the end of its
      window, and no slot outside the windows changes. */
  method ScatterBlock(rows: seq<nat>, cols: seq<nat>, cursor: array<nat>, indices: array<nat>)
    requires |rows| == |cols| && cursor != indices && Room(rows, cursor[..], indices.Length)
    modifies cursor, indices
    ensures forall v :: 0 <= v < cursor.Length ==> cursor[v] == old(cursor[v]) + Count(rows, v, |rows|)
    ensures forall v, i :: 0 <= v < cursor.Length && 0 <= i < Count(rows, v, |rows|) ==>
      indices[old(cursor[v]) + i] == Cols(rows, cols, v, |rows|)[i]
    ensures forall s :: 0 <= s < indices.Length && !InWindow(rows, old(cursor[..]), s) ==> indices[s] == old(indices[s])
  {
    if rows == [] {
      return;
    }
    Sorting.ArgsortSorts(rows, Less);
    var order := Sorting.Argsort(rows, Less);
    ghost var at := cursor[..];
    WriteEntries(rows, cols, order, cursor, indices);
    OutsideUntouched(rows, at, indices.Length);
    WindowsHold(rows, cols, at, indices[..]);
    CountsSorted(rows, order, cursor.Length);
    AdvanceCursors(rows, order, cursor);
  }
}
