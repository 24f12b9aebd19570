/** The consent-filtered activity reads, page by page after the last key. Purposes, subjects, users, types and
    row keys are numbers; SQL statements are functions of the tables they read. */
module Activity {
  import opened Basics
  import Sorting

  datatype Option<T> = None | Some(value: T)

  datatype Time = Time(at: int, aware: bool)

  /** One row of `activity.events` or `activity.impressions`: its primary key is (at, id); `kind` is the event
      type or the policy; `snapshot` the purposes stored at write time. */
  datatype Row = Row(id: nat, at: int, subject: nat, kind: nat, snapshot: set<nat>)

  datatype Grant = Grant(user: nat, purpose: nat, grantedAt: int, revoked: bool)

  /** The consent tables as one statement sees them, with its NOW(). */
  datatype Consents = Consents(subjects: seq<(nat, nat)>, grants: seq<Grant>, now: int)

  datatype Outcome = Rows(rows: seq<Row>) | ConsentPurposeError | ValueError

  // ---- The checks ----

  /** `dict.fromkeys`: first occurrences in order. */
  function Unique(xs: seq<nat>): (r: seq<nat>)
    ensures forall x :: x in r <==> x in xs
    ensures forall i, j :: 0 <= i < j < |r| ==> r[i] != r[j]
  {
    if xs == [] then []
    else
      var front, last := Unique(xs[..|xs| - 1]), xs[|xs| - 1];
      assert xs == xs[..|xs| - 1] + [last];
      if last in front then front else front + [last]
  }

  /** `_validated_purposes`. */
  function ValidatedPurposes(purposes: seq<nat>, published: set<nat>): Option<seq<nat>> {
    var ordered := Unique(purposes);
    if ordered == [] || exists i :: 0 <= i < |ordered| && ordered[i] !in published then None else Some(ordered)
  }

  predicate WindowValid(since: Time, until: Time) {
    since.aware && until.aware && since.at < until.at
  }

  /** Accepted exactly when some purpose is given and all are published; then each is kept once. */
  lemma PurposesChecked(purposes: seq<nat>, published: set<nat>)
    ensures ValidatedPurposes(purposes, published).Some? <==> purposes != [] && forall x :: x in purposes ==> x in published
    ensures ValidatedPurposes(purposes, published).Some? ==>
      forall x :: x in ValidatedPurposes(purposes, published).value <==> x in purposes
  {
    var ordered := Unique(purposes);
    if purposes != [] {
      assert purposes[0] in ordered;
    }
    assert forall i :: 0 <= i < |ordered| ==> ordered[i] in ordered;
  }

  // ---- Eligible subjects ----

  predicate Grants(s: (nat, nat), g: Grant, purpose: nat, subject: nat, now: int) {
    s.0 == g.user && s.1 == subject && g.purpose == purpose && !g.revoked && g.grantedAt <= now
  }

  /** The subject's user holds an unrevoked grant in effect now. */
  predicate Granted(c: Consents, purpose: nat, subject: nat) {
    exists i, j :: 0 <= i < |c.subjects| && 0 <= j < |c.grants| && Grants(c.subjects[i], c.grants[j], purpose, subject, c.now)
  }

  /** `training_eligible_subjects`. */
  function EligibleSubjects(c: Consents, purpose: nat): (r: set<nat>)
    ensures forall s :: s in r <==> Granted(c, purpose, s)
  {
    var r := set i, j | 0 <= i < |c.subjects| && 0 <= j < |c.grants| && Grants(c.subjects[i], c.grants[j], purpose, c.subjects[i].1, c.now) :: c.subjects[i].1;
    r
  }

  /** `_eligible_for_all`: `seen(i)` is what the i-th purpose's statement sees. */
  method EligibleForAll(seen: nat -> Consents, purposes: seq<nat>, subjects: Option<set<nat>>) returns (r: set<nat>)
    requires purposes != []
    ensures forall s :: s in r <==>
      (forall i :: 0 <= i < |purposes| ==> Granted(seen(i), purposes[i], s)) && (subjects.Some? ==> s in subjects.value)
  {
    var eligible := EligibleSubjects(seen(0), purposes[0]);
    if eligible == {} {
      r := {};
      assert forall s :: s in eligible <==> Granted(seen(0), purposes[0], s);
      return;
    }
    for i := 1 to |purposes|
      invariant forall s :: s in eligible <==> forall k :: 0 <= k < i ==> Granted(seen(k), purposes[k], s)
    {
      var granted := EligibleSubjects(seen(i), purposes[i]);
      ghost var before := eligible;
      eligible := eligible * granted;
      forall s ensures s in eligible <==> forall k :: 0 <= k < i + 1 ==> Granted(seen(k), purposes[k], s) {
        assert s in granted <==> Granted(seen(i), purposes[i], s);
        assert s in before <==> forall k :: 0 <= k < i ==> Granted(seen(k), purposes[k], s);
      }
      if eligible == {} {
        r := {};
        return;
      }
    }
    r := if subjects.Some? then eligible * subjects.value else eligible;
  }

  // ---- One page ----

  /** What a read admits. An empty `kinds` admits every kind. */
  datatype Filter = Filter(since: int, until: int, purposes: seq<nat>, eligible: set<nat>, kinds: seq<nat>)

  predicate Admits(f: Filter, row: Row) {
    && f.since <= row.at < f.until
    && (forall i :: 0 <= i < |f.purposes| ==> f.purposes[i] in row.snapshot)
    && row.subject in f.eligible
    && (f.kinds == [] || row.kind in f.kinds)
  }

  /** The primary key's order. */
  predicate KeyLess(a: Row, b: Row) {
    a.at < b.at || (a.at == b.at && a.id < b.id)
  }

  predicate SameKey(a: Row, b: Row) {
    a.at == b.at && a.id == b.id
  }

  /** No two rows of a table share a key. */
  predicate KeysUnique(table: seq<Row>) {
    forall i, j :: 0 <= i < j < |table| ==> !SameKey(table[i], table[j])
  }

  predicate After(cursor: Option<Row>, row: Row) {
    cursor.Some? ==> KeyLess(cursor.value, row)
  }

  /** The statement's WHERE clause. */
  function Where(table: seq<Row>, f: Filter, cursor: Option<Row>): (r: seq<Row>)
  {
    if table == [] then []
    else
      var front, last := Where(table[..|table| - 1], f, cursor), table[|table| - 1];
      if Admits(f, last) && After(cursor, last) then front + [last] else front
  }

  /** The matching rows in key order. */
  function Matching(table: seq<Row>, f: Filter, cursor: Option<Row>): seq<Row> {
    Sorting.Sorted(Where(table, f, cursor), KeyLess)
  }

  /** One page: the first `limit` matching rows. */
  function Page(table: seq<Row>, f: Filter, cursor: Option<Row>, limit: nat): (r: seq<Row>)
    ensures |r| <= limit
  {
    var rows := Matching(table, f, cursor);
    if |rows| <= limit then rows else rows[..limit]
  }

  predicate Ascending(rows: seq<Row>) {
    Ascends(rows, KeyLess)
  }

  lemma {:induction false} WhereIs(table: seq<Row>, f: Filter, cursor: Option<Row>)
    ensures forall row :: row in Where(table, f, cursor) <==> row in table && Admits(f, row) && After(cursor, row)
    decreases |table|
  {
    if table != [] {
      WhereIs(table[..|table| - 1], f, cursor);
      assert table == table[..|table| - 1] + [table[|table| - 1]];
    }
  }

  lemma {:induction false} WhereUnique(table: seq<Row>, f: Filter, cursor: Option<Row>)
    requires KeysUnique(table)
    ensures KeysUnique(Where(table, f, cursor))
    decreases |table|
  {
    if table != [] {
      var front, last := table[..|table| - 1], table[|table| - 1];
      WhereUnique(front, f, cursor);
      WhereIs(front, f, cursor);
      var rows := Where(front, f, cursor);
      forall i | 0 <= i < |rows| ensures !SameKey(rows[i], last) {
        assert rows[i] in front;
      }
    }
  }

  lemma KeyLessIsWeakOrder()
    ensures Sorting.WeakOrder(KeyLess)
  {
  }

  lemma DifferentKeys(rows: seq<Row>, i: nat, j: nat)
    requires KeysUnique(rows) && i < |rows| && j < |rows| && i != j
    ensures !SameKey(rows[i], rows[j])
  {
    if i < j {
      assert !SameKey(rows[i], rows[j]);
    } else {
      assert !SameKey(rows[j], rows[i]);
    }
  }

  /** Rows with distinct keys sort into strictly ascending order. */
  lemma SortedByKey(rows: seq<Row>)
    requires KeysUnique(rows)
    ensures Ascending(Sorting.Sorted(rows, KeyLess))
  {
    KeyLessIsWeakOrder();
    Sorting.ArgsortSorts(rows, KeyLess);
    var order := Sorting.Argsort(rows, KeyLess);
    forall i, j | 0 <= i < j < |order| ensures KeyLess(rows[order[i]], rows[order[j]]) {
      assert Sorting.Earlier(rows, KeyLess, order[i], order[j]);
      DifferentKeys(rows, order[i], order[j]);
    }
  }

  /** Matching rows come out exactly once each, in strictly ascending key order. */
  lemma MatchingIs(table: seq<Row>, f: Filter, cursor: Option<Row>)
    requires KeysUnique(table)
    ensures Ascending(Matching(table, f, cursor))
    ensures forall row :: row in Matching(table, f, cursor) <==> row in table && Admits(f, row) && After(cursor, row)
  {
    var rows := Where(table, f, cursor);
    var sorted := Sorting.Sorted(rows, KeyLess);
    KeyLessIsWeakOrder();
    Sorting.SortedSorts(rows, KeyLess);
    WhereIs(table, f, cursor);
    WhereUnique(table, f, cursor);
    assert forall row :: row in sorted <==> row in multiset(sorted);
    assert forall row :: row in rows <==> row in multiset(rows);
    SortedByKey(rows);
  }

  lemma RowsFollowing(all: seq<Row>, i: nat, row: Row)
    requires Ascending(all) && i < |all|
    ensures row in all[i + 1..] <==> row in all && KeyLess(all[i], row)
  {
    forall k | 0 <= k <= i ensures !KeyLess(all[i], all[k]) {
      assert k == i || KeyLess(all[k], all[i]);
    }
    if row in all && KeyLess(all[i], row) {
      var k :| 0 <= k < |all| && all[k] == row;
      assert all[i + 1..][k - i - 1] == row;
    }
  }

  /** Resuming after the i-th matching row gives exactly the rows that follow it. */
  lemma ResumesAfter(table: seq<Row>, f: Filter, i: nat)
    requires KeysUnique(table) && i < |Matching(table, f, None)|
    ensures var all := Matching(table, f, None); Matching(table, f, Some(all[i])) == all[i + 1..]
  {
    var all := Matching(table, f, None);
    MatchingIs(table, f, None);
    MatchingIs(table, f, Some(all[i]));
    var rest := Matching(table, f, Some(all[i]));
    forall row ensures row in rest <==> row in all[i + 1..] {
      RowsFollowing(all, i, row);
    }
    AscendsUnique(rest, all[i + 1..], KeyLess);
  }

  // ---- Paging ----

  /** At most `limit` rows of `all` from the n-th on. */
  function Chunk(all: seq<Row>, n: nat, limit: nat): seq<Row>
    requires n <= |all|
  {
    if |all| - n <= limit then all[n..] else all[n..n + limit]
  }

  /** The cursor once `n` rows of `all` have been read. */
  function CursorAfter(all: seq<Row>, n: nat): Option<Row>
    requires n <= |all|
  {
    if n == 0 then None else Some(all[n - 1])
  }

  lemma RestIsChunk(all: seq<Row>, n: nat, limit: nat)
    requires n <= |all|
    ensures (if |all[n..]| <= limit then all[n..] else all[n..][..limit]) == Chunk(all, n, limit)
  {
  }

  lemma PageIsChunk(table: seq<Row>, f: Filter, n: nat, limit: nat)
    requires KeysUnique(table) && n <= |Matching(table, f, None)|
    ensures var all := Matching(table, f, None); Page(table, f, CursorAfter(all, n), limit) == Chunk(all, n, limit)
  {
    var all := Matching(table, f, None);
    if n == 0 {
      assert all[0..] == all;
    } else {
      ResumesAfter(table, f, n - 1);
      assert Matching(table, f, CursorAfter(all, n)) == all[n..];
    }
    RestIsChunk(all, n, limit);
  }

  lemma ChunkExtends(all: seq<Row>, n: nat, limit: nat)
    requires n <= |all|
    ensures var page := Chunk(all, n, limit);
      all[..n] + page == all[..n + |page|] && (|page| < limit ==> n + |page| == |all|) && (page == [] ==> limit == 0 || n == |all|)
    ensures var page := Chunk(all, n, limit); page != [] ==> CursorAfter(all, n + |page|) == Some(page[|page| - 1])
  {
  }

  /** `_keyset_pages` over a table that does not change: every admitted row exactly once, in key order. Without
      room for a row on a page nothing is read. */
  method KeysetPages(table: seq<Row>, f: Filter, batchSize: nat) returns (rows: seq<Row>)
    requires KeysUnique(table)
    ensures batchSize >= 1 ==> rows == Matching(table, f, None)
    ensures batchSize == 0 ==> rows == []
  {
    ghost var all := Matching(table, f, None);
    ghost var n := 0;
    rows := [];
    var cursor: Option<Row> := None;
    PageIsChunk(table, f, 0, batchSize);
    var page := Page(table, f, cursor, batchSize);
    while page != []
      invariant n <= |all| && rows == all[..n] && (batchSize == 0 ==> n == 0)
      invariant page == Chunk(all, n, batchSize)
      decreases |all| - n
    {
      ChunkExtends(all, n, batchSize);
      rows := rows + page;
      n := n + |page|;
      if |page| < batchSize {
        return;
      }
      cursor := Some(page[|page| - 1]);
      PageIsChunk(table, f, n, batchSize);
      page := Page(table, f, cursor, batchSize);
    }
    ChunkExtends(all, n, batchSize);
  }

  function CursorAt(pages: seq<seq<Row>>, n: nat): Option<Row>
    requires n <= |pages|
  {
    if n == 0 || pages[n - 1] == [] then None else Some(pages[n - 1][|pages[n - 1]| - 1])
  }

  ghost predicate PageAt(tables: seq<seq<Row>>, f: Filter, batchSize: nat, pages: seq<seq<Row>>, n: nat)
    requires n < |pages| == |tables|
  {
    KeysUnique(tables[n]) && pages[n] == Page(tables[n], f, CursorAt(pages, n), batchSize) && (n > 0 ==> pages[n - 1] != [])
  }

  /** Pages of a table that changes between them: the n-th page is read from `tables[n]`, after the last row
      of the page before. */
  ghost predicate PagesOf(tables: seq<seq<Row>>, f: Filter, batchSize: nat, pages: seq<seq<Row>>) {
    |pages| == |tables| && forall n :: 0 <= n < |pages| ==> PageAt(tables, f, batchSize, pages, n)
  }

  function Joined(pages: seq<seq<Row>>): seq<Row> {
    if pages == [] then [] else Joined(pages[..|pages| - 1]) + pages[|pages| - 1]
  }

  lemma PageIs(table: seq<Row>, f: Filter, cursor: Option<Row>, limit: nat)
    requires KeysUnique(table)
    ensures Ascending(Page(table, f, cursor, limit))
    ensures forall row :: row in Page(table, f, cursor, limit) ==> row in table && Admits(f, row) && After(cursor, row)
  {
    MatchingIs(table, f, cursor);
    var rows := Matching(table, f, cursor);
    assert forall row :: row in Page(table, f, cursor, limit) ==> row in rows;
  }

  lemma AppendAscending(a: seq<Row>, b: seq<Row>)
    requires Ascending(a) && Ascending(b)
    requires a != [] ==> forall row :: row in b ==> KeyLess(a[|a| - 1], row)
    ensures Ascending(a + b)
  {
    forall i, j | 0 <= i < |a| && 0 <= j < |b| ensures KeyLess(a[i], b[j]) {
      assert b[j] in b;
      assert i == |a| - 1 || KeyLess(a[i], a[|a| - 1]);
    }
  }

  lemma FewerPages(tables: seq<seq<Row>>, f: Filter, batchSize: nat, pages: seq<seq<Row>>)
    requires PagesOf(tables, f, batchSize, pages) && pages != []
    ensures PagesOf(tables[..|pages| - 1], f, batchSize, pages[..|pages| - 1])
  {
    var before := pages[..|pages| - 1];
    forall n | 0 <= n < |before| ensures PageAt(tables[..|before|], f, batchSize, before, n) {
      assert PageAt(tables, f, batchSize, pages, n);
      assert CursorAt(before, n) == CursorAt(pages, n);
    }
  }

  /** The row was admitted, and in its table when its page was read. */
  ghost predicate ReadFrom(tables: seq<seq<Row>>, f: Filter, row: Row) {
    Admits(f, row) && exists n :: 0 <= n < |tables| && row in tables[n]
  }

  lemma ReadFromMore(tables: seq<seq<Row>>, f: Filter, row: Row)
    requires tables != [] && Admits(f, row)
    requires ReadFrom(tables[..|tables| - 1], f, row) || row in tables[|tables| - 1]
    ensures ReadFrom(tables, f, row)
  {
    if row !in tables[|tables| - 1] {
      var n :| 0 <= n < |tables| - 1 && row in tables[..|tables| - 1][n];
      assert row in tables[n];
    }
  }

  predicate EndsWithLastPage(pages: seq<seq<Row>>) {
    pages != [] && pages[|pages| - 1] != [] ==>
      Joined(pages) != [] && Joined(pages)[|Joined(pages)| - 1] == pages[|pages| - 1][|pages[|pages| - 1]| - 1]
  }

  lemma NextPageLater(pages: seq<seq<Row>>, n: nat)
    requires n < |pages| && EndsWithLastPage(pages[..n]) && (n > 0 ==> pages[n - 1] != [])
    requires forall row :: row in pages[n] ==> After(CursorAt(pages, n), row)
    ensures var read := Joined(pages[..n]); read != [] ==> forall row :: row in pages[n] ==> KeyLess(read[|read| - 1], row)
  {
  }

  lemma InEither(a: seq<Row>, b: seq<Row>, row: Row)
    requires row in a + b
    ensures row in a || row in b
  {
  }

  /** Whatever is inserted or removed between pages, the rows read ascend strictly, so none is read twice, and
      each was admitted and in its table when it was read. */
  lemma {:induction false} PagesNeverRepeat(tables: seq<seq<Row>>, f: Filter, batchSize: nat, pages: seq<seq<Row>>)
    requires PagesOf(tables, f, batchSize, pages)
    ensures Ascending(Joined(pages))
    ensures forall row :: row in Joined(pages) ==> ReadFrom(tables, f, row)
    ensures EndsWithLastPage(pages)
    decreases |pages|
  {
    if pages != [] {
      var last := |pages| - 1;
      var before := pages[..last];
      FewerPages(tables, f, batchSize, pages);
      PagesNeverRepeat(tables[..last], f, batchSize, before);
      assert PageAt(tables, f, batchSize, pages, last);
      PageIs(tables[last], f, CursorAt(pages, last), batchSize);
      NextPageLater(pages, last);
      AppendAscending(Joined(before), pages[last]);
      forall row | row in Joined(pages) ensures ReadFrom(tables, f, row) {
        InEither(Joined(before), pages[last], row);
        ReadFromMore(tables, f, row);
      }
    }
  }

  // ---- The reads ----

  /** Both consent checks, the window, and the caller's own restrictions. */
  predicate Consented(seen: nat -> Consents, checked: seq<nat>, since: int, until: int, kinds: seq<nat>, subjects: Option<set<nat>>, row: Row) {
    && since <= row.at < until
    && (forall i :: 0 <= i < |checked| ==> checked[i] in row.snapshot && Granted(seen(i), checked[i], row.subject))
    && (subjects.Some? ==> row.subject in subjects.value)
    && (kinds == [] || row.kind in kinds)
  }

  /** Some user of the subject holds a grant of the purpose that is not revoked and has taken effect. */
  ghost predicate HoldsGrant(c: Consents, purpose: nat, subject: nat) {
    exists user, g :: (user, subject) in c.subjects && g in c.grants
      && g.user == user && g.purpose == purpose && !g.revoked && g.grantedAt <= c.now
  }

  lemma GrantedIs(c: Consents, purpose: nat, subject: nat)
    ensures Granted(c, purpose, subject) <==> HoldsGrant(c, purpose, subject)
  {
    if Granted(c, purpose, subject) {
      var i, j :| 0 <= i < |c.subjects| && 0 <= j < |c.grants| && Grants(c.subjects[i], c.grants[j], purpose, subject, c.now);
      assert (c.subjects[i].0, subject) == c.subjects[i] && c.subjects[i] in c.subjects && c.grants[j] in c.grants;
    }
    if HoldsGrant(c, purpose, subject) {
      var user, g :| (user, subject) in c.subjects && g in c.grants
        && g.user == user && g.purpose == purpose && !g.revoked && g.grantedAt <= c.now;
      var i :| 0 <= i < |c.subjects| && c.subjects[i] == (user, subject);
      var j :| 0 <= j < |c.grants| && c.grants[j] == g;
      assert Grants(c.subjects[i], c.grants[j], purpose, subject, c.now);
    }
  }

  /** A row passes both consent checks exactly if it lies in the half-open window, is of a kind and subject asked for,
      and for every purpose carries it in its own snapshot and has a subject who holds a grant of it now. */
  lemma ConsentedExactly(seen: nat -> Consents, checked: seq<nat>, since: int, until: int, kinds: seq<nat>,
                         subjects: Option<set<nat>>, row: Row)
    ensures Consented(seen, checked, since, until, kinds, subjects, row)
      <==> (since <= row.at && row.at < until && (kinds != [] ==> row.kind in kinds) && (subjects == None || row.subject in subjects.value)
            && forall i :: 0 <= i < |checked| ==> checked[i] in row.snapshot && HoldsGrant(seen(i), checked[i], row.subject))
  {
    forall i: nat | i < |checked| ensures Granted(seen(i), checked[i], row.subject) <==> HoldsGrant(seen(i), checked[i], row.subject) {
      GrantedIs(seen(i), checked[i], row.subject);
    }
  }

  /** So nothing is read of a subject all of whose grants of some purpose are revoked or still to come. */
  lemma NothingWithoutGrant(seen: nat -> Consents, checked: seq<nat>, since: int, until: int, kinds: seq<nat>,
                            subjects: Option<set<nat>>, row: Row, i: nat)
    requires i < |checked|
    requires forall user, g :: (user, row.subject) in seen(i).subjects && g in seen(i).grants && g.user == user ==>
      g.purpose != checked[i] || g.revoked || g.grantedAt > seen(i).now
    ensures !Consented(seen, checked, since, until, kinds, subjects, row)
  {
    GrantedIs(seen(i), checked[i], row.subject);
  }

  lemma AdmitsConsented(seen: nat -> Consents, f: Filter, subjects: Option<set<nat>>)
    requires forall s :: s in f.eligible <==>
      (forall i :: 0 <= i < |f.purposes| ==> Granted(seen(i), f.purposes[i], s)) && (subjects.Some? ==> s in subjects.value)
    ensures forall row :: Admits(f, row) <==> Consented(seen, f.purposes, f.since, f.until, f.kinds, subjects, row)
  {
  }

  lemma NoneAdmitted(table: seq<Row>, f: Filter)
    requires KeysUnique(table) && f.eligible == {}
    ensures Matching(table, f, None) == []
  {
    MatchingIs(table, f, None);
    NoMembers(Matching(table, f, None));
  }

  /** `read_events` and `read_impressions`: errors first, nothing at all without an eligible subject, and
      otherwise exactly the rows both consent checks admit. */
  method Read(table: seq<Row>, seen: nat -> Consents, published: set<nat>, since: Time, until: Time, purposes: seq<nat>,
              kinds: seq<nat>, subjects: Option<set<nat>>, batchSize: nat) returns (out: Outcome)
    requires KeysUnique(table)
    ensures out.ConsentPurposeError? <==> purposes == [] || exists x :: x in purposes && x !in published
    ensures out.ValueError? <==> !out.ConsentPurposeError? && !(since.aware && until.aware && since.at < until.at)
    ensures out.Rows? ==> ValidatedPurposes(purposes, published).Some? && Ascending(out.rows)
    ensures out.Rows? ==> forall i, j :: 0 <= i < j < |out.rows| ==>
      out.rows[i].at < out.rows[j].at || (out.rows[i].at == out.rows[j].at && out.rows[i].id < out.rows[j].id)
    ensures out.Rows? && batchSize == 0 ==> out.rows == []
    ensures out.Rows? && batchSize >= 1 ==> forall row :: row in out.rows <==>
      row in table && Consented(seen, ValidatedPurposes(purposes, published).value, since.at, until.at, kinds, subjects, row)
  {
    PurposesChecked(purposes, published);
    var checked := ValidatedPurposes(purposes, published);
    if checked.None? {
      return ConsentPurposeError;
    }
    if !WindowValid(since, until) {
      return ValueError;
    }
    assert purposes[0] in checked.value;
    var eligible := EligibleForAll(seen, checked.value, subjects);
    var f := Filter(since.at, until.at, checked.value, eligible, kinds);
    MatchingIs(table, f, None);
    AdmitsConsented(seen, f, subjects);
    var rows := [];
    if eligible == {} {
      NoneAdmitted(table, f);
    } else {
      rows := KeysetPages(table, f, batchSize);
    }
    out := Rows(rows);
  }
}
