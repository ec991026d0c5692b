/**
 * Keyset-paged lists: each page reads the rows after its cursor, in order, one
 * more than the limit, and its cursor names the last row kept. Any strict total
 * order of rows will do; other rows may come, change and go between pages.
 */
module Pages {
  import opened Base

  /** `before` is a strict total order of the rows in `dom`. */
  ghost predicate Linear<R(!new)>(dom: R -> bool, before: (R, R) -> bool) {
    && (forall a :: dom(a) ==> !before(a, a))
    && (forall a, b :: dom(a) && dom(b) ==> a == b || before(a, b) || before(b, a))
    && (forall a, b, c :: dom(a) && dom(b) && dom(c) && before(a, b) && before(b, c) ==> before(a, c))
  }

  /** A table: rows of `dom`, none twice, in whatever order the database keeps them. */
  ghost predicate Table<R(!new)>(dom: R -> bool, db: seq<R>) {
    && (forall r :: r in db ==> dom(r))
    && (forall i, j :: 0 <= i < j < |db| ==> db[i] != db[j])
  }

  predicate Ascending<R>(before: (R, R) -> bool, s: seq<R>) {
    forall i, j :: 0 <= i < j < |s| ==> before(s[i], s[j])
  }

  predicate Past<R>(before: (R, R) -> bool, cursor: Option<R>, r: R) {
    cursor.None? || before(cursor.value, r)
  }

  /** The rows the keyset clause admits. */
  function After<R>(before: (R, R) -> bool, db: seq<R>, cursor: Option<R>): seq<R> {
    if db == [] then []
    else (if Past(before, cursor, db[0]) then [db[0]] else []) + After(before, db[1..], cursor)
  }

  function Insert<R>(before: (R, R) -> bool, r: R, s: seq<R>): seq<R> {
    if s == [] then [r] else if before(r, s[0]) then [r] + s else [s[0]] + Insert(before, r, s[1..])
  }

  function Sort<R>(before: (R, R) -> bool, s: seq<R>): seq<R> {
    if s == [] then [] else Insert(before, s[0], Sort(before, s[1..]))
  }

  datatype Page<R> = Page(rows: seq<R>, next: Option<R>)

  function ReadPage<R>(before: (R, R) -> bool, db: seq<R>, cursor: Option<R>, limit: nat): Page<R>
    requires limit > 0
  {
    var found := Sort(before, After(before, db, cursor));
    var fetched := if |found| > limit + 1 then found[..limit + 1] else found;
    if |fetched| > limit then Page(fetched[..limit], Some(fetched[limit - 1])) else Page(fetched, None)
  }

  /** A walk that reads `dbs[k]` for its k-th page: the rows it returns, and whether it reached the last page. */
  function Walk<R>(before: (R, R) -> bool, dbs: seq<seq<R>>, cursor: Option<R>, limit: nat): (seq<R>, bool)
    requires limit > 0
    decreases |dbs|
  {
    if dbs == [] then ([], false)
    else
      var page := ReadPage(before, dbs[0], cursor, limit);
      if page.next.None? then (page.rows, true)
      else
        var rest := Walk(before, dbs[1..], page.next, limit);
        (page.rows + rest.0, rest.1)
  }

  // ---- Sorting ----

  lemma {:induction false} InsertSorts<R(!new)>(dom: R -> bool, before: (R, R) -> bool, r: R, s: seq<R>)
    requires Linear(dom, before) && Ascending(before, s) && dom(r) && forall x :: x in s ==> dom(x) && x != r
    ensures Ascending(before, Insert(before, r, s))
    ensures forall x :: x in Insert(before, r, s) <==> x in s || x == r
    ensures |Insert(before, r, s)| == |s| + 1
  {
    if s != [] && !before(r, s[0]) {
      InsertSorts(dom, before, r, s[1..]);
      var rest := Insert(before, r, s[1..]);
      forall x | x in rest ensures before(s[0], x) {
        if x != r { var k :| 0 <= k < |s[1..]| && s[1..][k] == x; assert s[k + 1] == x; }
      }
    } else if s != [] {
      forall k | 0 <= k < |s| ensures before(r, s[k]) { if k > 0 { assert before(s[0], s[k]); } }
    }
  }

  lemma {:induction false} SortSorts<R(!new)>(dom: R -> bool, before: (R, R) -> bool, s: seq<R>)
    requires Linear(dom, before) && Table(dom, s)
    ensures Ascending(before, Sort(before, s))
    ensures forall x :: x in Sort(before, s) <==> x in s
    ensures |Sort(before, s)| == |s|
  {
    if s == [] {
    } else {
      SortSorts(dom, before, s[1..]);
      InsertSorts(dom, before, s[0], Sort(before, s[1..]));
    }
  }

  lemma {:induction false} AfterFilters<R(!new)>(dom: R -> bool, before: (R, R) -> bool, db: seq<R>, cursor: Option<R>)
    requires Table(dom, db)
    ensures Table(dom, After(before, db, cursor))
    ensures forall x :: x in After(before, db, cursor) <==> x in db && Past(before, cursor, x)
  {
    if db == [] {
    } else {
      assert db[0] !in db[1..];
      AfterFilters(dom, before, db[1..], cursor);
    }
  }

  lemma EmptyOrNot<R(!new)>(t: seq<R>)
    ensures t == [] || exists x :: x in t
  {
    if t != [] { assert t[0] in t; }
  }

  lemma RestMoves<R(!new)>(dom: R -> bool, before: (R, R) -> bool, s: seq<R>, t: seq<R>, x: R)
    requires Linear(dom, before) && Ascending(before, s) && s != [] && t != [] && s[0] == t[0]
    requires x in s[1..] && dom(s[0]) && forall x :: x in s ==> x in t
    ensures x in t[1..]
  {
    var k :| 0 <= k < |s[1..]| && s[1..][k] == x;
    assert s[k + 1] == x && before(s[0], x);
    assert x in s && x in t;
    var m :| 0 <= m < |t| && t[m] == x;
    assert t[1..][m - 1] == x;
  }

  /** An ascending list is determined by the rows in it. */
  lemma {:induction false} AscendingIsUnique<R(!new)>(dom: R -> bool, before: (R, R) -> bool, s: seq<R>, t: seq<R>)
    requires Linear(dom, before) && Ascending(before, s) && Ascending(before, t)
    requires (forall x :: x in s ==> dom(x)) && (forall x :: x in s <==> x in t)
    ensures s == t
  {
    if s == [] {
      EmptyOrNot(t);
    } else {
      assert s[0] in s && s[0] in t;
      assert t[0] in t && t[0] in s;
      var j :| 0 <= j < |t| && t[j] == s[0];
      var i :| 0 <= i < |s| && s[i] == t[0];
      assert s[0] == t[0];
      forall x ensures x in s[1..] <==> x in t[1..] {
        if x in s[1..] { RestMoves(dom, before, s, t, x); }
        if x in t[1..] { RestMoves(dom, before, t, s, x); }
      }
      AscendingIsUnique(dom, before, s[1..], t[1..]);
    }
  }

  // ---- One page ----

  lemma CutCovers<R(!new)>(before: (R, R) -> bool, found: seq<R>, limit: nat)
    requires Ascending(before, found) && 0 < limit < |found|
    ensures Ascending(before, found[..limit]) && found[limit - 1] in found[..limit]
    ensures forall r :: r in found[..limit] ==> r in found && (r == found[limit - 1] || before(r, found[limit - 1]))
    ensures forall r :: r in found && r !in found[..limit] ==> before(found[limit - 1], r)
  {
    assert found[..limit][limit - 1] == found[limit - 1];
    forall r | r in found && r !in found[..limit] ensures before(found[limit - 1], r) {
      assert found == found[..limit] + found[limit..];
      var k :| 0 <= k < |found[limit..]| && found[limit..][k] == r;
      assert found[limit + k] == r;
    }
    forall r | r in found[..limit] ensures r == found[limit - 1] || before(r, found[limit - 1]) {
      var k :| 0 <= k < limit && found[..limit][k] == r;
    }
  }

  /** A page holds, in order, the rows from its cursor up to the next one; without a next one, all that are left. */
  lemma PageCovers<R(!new)>(dom: R -> bool, before: (R, R) -> bool, db: seq<R>, cursor: Option<R>, limit: nat)
    requires Linear(dom, before) && Table(dom, db) && limit > 0
    ensures var page := ReadPage(before, db, cursor, limit);
      && Ascending(before, page.rows)
      && (forall r :: r in page.rows ==> r in db && Past(before, cursor, r))
      && (page.next.None? ==> forall r :: r in db && Past(before, cursor, r) ==> r in page.rows)
      && (page.next.Some? ==>
            && page.next.value in page.rows && |page.rows| == limit
            && (forall r :: r in page.rows ==> r == page.next.value || before(r, page.next.value))
            && (forall r :: r in db && Past(before, cursor, r) && r !in page.rows ==> before(page.next.value, r)))
  {
    AfterFilters(dom, before, db, cursor);
    SortSorts(dom, before, After(before, db, cursor));
    var found := Sort(before, After(before, db, cursor));
    if |found| > limit {
      assert ReadPage(before, db, cursor, limit) == Page(found[..limit], Some(found[limit - 1]));
      CutCovers(before, found, limit);
    }
  }

  // ---- A walk while rows change ----

  ghost predicate Tables<R(!new)>(dom: R -> bool, dbs: seq<seq<R>>) {
    forall k :: 0 <= k < |dbs| ==> Table(dom, dbs[k])
  }

  lemma {:induction false} WalkAscends<R(!new)>(
    dom: R -> bool, before: (R, R) -> bool, dbs: seq<seq<R>>, cursor: Option<R>, limit: nat)
    requires Linear(dom, before) && Tables(dom, dbs) && limit > 0 && (cursor.Some? ==> dom(cursor.value))
    ensures var got := Walk(before, dbs, cursor, limit).0;
      && Ascending(before, got)
      && forall r :: r in got ==> dom(r) && Past(before, cursor, r) && exists k :: 0 <= k < |dbs| && r in dbs[k]
    decreases |dbs|
  {
    if dbs == [] {
    } else {
      PageCovers(dom, before, dbs[0], cursor, limit);
      var page := ReadPage(before, dbs[0], cursor, limit);
      if page.next.Some? {
        WalkAscends(dom, before, dbs[1..], page.next, limit);
        var rest := Walk(before, dbs[1..], page.next, limit).0;
        forall r | r in rest ensures exists k :: 0 <= k < |dbs| && r in dbs[k] {
          var k :| 0 <= k < |dbs[1..]| && r in dbs[1..][k];
          assert r in dbs[k + 1];
        }
        forall i, j | 0 <= i < |page.rows| && 0 <= j < |rest| ensures before(page.rows[i], rest[j]) {
          assert page.rows[i] in page.rows && rest[j] in rest;
        }
      }
    }
  }

  lemma {:induction false} WalkReaches<R(!new)>(
    dom: R -> bool, before: (R, R) -> bool, dbs: seq<seq<R>>, cursor: Option<R>, limit: nat, r: R)
    requires Linear(dom, before) && Tables(dom, dbs) && limit > 0 && (cursor.Some? ==> dom(cursor.value))
    requires Past(before, cursor, r) && forall k :: 0 <= k < |dbs| ==> r in dbs[k]
    requires Walk(before, dbs, cursor, limit).1
    ensures r in Walk(before, dbs, cursor, limit).0
    decreases |dbs|
  {
    PageCovers(dom, before, dbs[0], cursor, limit);
    var page := ReadPage(before, dbs[0], cursor, limit);
    if page.next.Some? && r !in page.rows {
      WalkReaches(dom, before, dbs[1..], page.next, limit, r);
    }
  }

  lemma {:induction false} AscendingOnce<R(!new)>(dom: R -> bool, before: (R, R) -> bool, s: seq<R>, r: R)
    requires Linear(dom, before) && Ascending(before, s) && forall x :: x in s ==> dom(x)
    ensures multiset(s)[r] == if r in s then 1 else 0
  {
    if s == [] {
    } else {
      AscendingOnce(dom, before, s[1..], r);
      assert s == [s[0]] + s[1..];
      assert s[0] in s && !before(s[0], s[0]);
      assert forall k :: 0 <= k < |s[1..]| ==> s[1..][k] == s[k + 1] && before(s[0], s[k + 1]);
    }
  }

  /**
   * A walk to the last page returns exactly once every row that stays in
   * place throughout, and no row twice, whatever happens to other rows
   * between its pages.
   */
  lemma WalkReturnsOnce<R(!new)>(dom: R -> bool, before: (R, R) -> bool, dbs: seq<seq<R>>, limit: nat, r: R)
    requires Linear(dom, before) && Tables(dom, dbs) && limit > 0
    ensures var (got, finished) := Walk(before, dbs, None, limit);
      && multiset(got)[r] <= 1
      && (finished && (forall k :: 0 <= k < |dbs| ==> r in dbs[k]) ==> multiset(got)[r] == 1)
  {
    WalkAscends(dom, before, dbs, None, limit);
    var (got, finished) := Walk(before, dbs, None, limit);
    AscendingOnce(dom, before, got, r);
    if finished && forall k :: 0 <= k < |dbs| ==> r in dbs[k] {
      WalkReaches(dom, before, dbs, None, limit, r);
    }
  }

  // ---- A walk once rows stop changing ----

  /** The rows after the next cursor are those after this one, less the page. */
  lemma PageConsumes<R(!new)>(dom: R -> bool, before: (R, R) -> bool, db: seq<R>, cursor: Option<R>, limit: nat)
    requires Linear(dom, before) && Table(dom, db) && limit > 0 && (cursor.Some? ==> dom(cursor.value))
    ensures var page := ReadPage(before, db, cursor, limit);
      var left := Sort(before, After(before, db, cursor));
      && left == page.rows + (if page.next.Some? then Sort(before, After(before, db, page.next)) else [])
      && (page.next.Some? ==> |After(before, db, page.next)| == |After(before, db, cursor)| - limit)
  {
    PageCovers(dom, before, db, cursor, limit);
    AfterFilters(dom, before, db, cursor);
    SortSorts(dom, before, After(before, db, cursor));
    var page := ReadPage(before, db, cursor, limit);
    var left := Sort(before, After(before, db, cursor));
    if page.next.Some? {
      AfterFilters(dom, before, db, page.next);
      SortSorts(dom, before, After(before, db, page.next));
      var rest := Sort(before, After(before, db, page.next));
      forall i, j | 0 <= i < |page.rows| && 0 <= j < |rest| ensures before(page.rows[i], rest[j]) {
        assert page.rows[i] in page.rows && rest[j] in rest;
      }
      forall x ensures x in left <==> x in page.rows + rest {
        if x in rest && cursor.Some? { assert page.next.value in page.rows; }
      }
      AscendingIsUnique(dom, before, left, page.rows + rest);
    }
  }

  lemma AllAreLeft<R(!new)>(dom: R -> bool, before: (R, R) -> bool, db: seq<R>)
    requires Linear(dom, before) && Table(dom, db)
    ensures Sort(before, After(before, db, None)) == Sort(before, db)
  {
    AfterFilters(dom, before, db, None);
    SortSorts(dom, before, After(before, db, None));
    SortSorts(dom, before, db);
    AscendingIsUnique(dom, before, Sort(before, After(before, db, None)), Sort(before, db));
  }

  lemma NextIsRow<R(!new)>(dom: R -> bool, before: (R, R) -> bool, db: seq<R>, cursor: Option<R>, limit: nat)
    requires Linear(dom, before) && Table(dom, db) && limit > 0
    ensures var page := ReadPage(before, db, cursor, limit);
      page.next.Some? ==> dom(page.next.value) && |After(before, db, cursor)| > limit
  {
    PageCovers(dom, before, db, cursor, limit);
    AfterFilters(dom, before, db, cursor);
    SortSorts(dom, before, After(before, db, cursor));
  }

  /** The whole list, read page by page until no cursor comes back. */
  method ExportAll<R(==, !new)>(ghost dom: R -> bool, before: (R, R) -> bool, db: seq<R>, limit: nat)
    returns (entries: seq<R>)
    requires Linear(dom, before) && Table(dom, db) && limit > 0
    ensures Ascending(before, entries) && |entries| == |db|
    ensures forall r :: r in entries <==> r in db
  {
    entries := [];
    var cursor: Option<R> := None;
    ghost var all := Sort(before, db);
    AllAreLeft(dom, before, db);
    SortSorts(dom, before, db);
    var more := true;
    while more
      invariant cursor.Some? ==> dom(cursor.value)
      invariant entries + (if more then Sort(before, After(before, db, cursor)) else []) == all
      decreases if more then |After(before, db, cursor)| + 1 else 0
    {
      PageConsumes(dom, before, db, cursor, limit);
      NextIsRow(dom, before, db, cursor, limit);
      var page := ReadPage(before, db, cursor, limit);
      entries := entries + page.rows;
      more := page.next.Some?;
      if more { cursor := page.next; }
    }
    assert entries + [] == entries;
  }

  /** Once rows stop changing, a walk from any cursor ends within one page per `limit` rows left. */
  lemma {:induction false} WalkEnds<R(!new)>(
    dom: R -> bool, before: (R, R) -> bool, db: seq<R>, dbs: seq<seq<R>>, cursor: Option<R>, limit: nat)
    requires Linear(dom, before) && Table(dom, db) && limit > 0 && (cursor.Some? ==> dom(cursor.value))
    requires (forall k :: 0 <= k < |dbs| ==> dbs[k] == db) && dbs != [] && |dbs| * limit >= |After(before, db, cursor)|
    ensures Walk(before, dbs, cursor, limit).1
    decreases |dbs|
  {
    NextIsRow(dom, before, db, cursor, limit);
    var page := ReadPage(before, db, cursor, limit);
    if page.next.None? {
    } else {
      assert (|dbs| - 1) * limit == |dbs| * limit - limit;
      assert |dbs| > 1;
      PageConsumes(dom, before, db, cursor, limit);
      WalkEnds(dom, before, db, dbs[1..], page.next, limit);
    }
  }
}
