/** Keyset pagination of a player's match history. */
module History {
  import opened Wrappers
  import opened Sorting

  type UserId = string

  /** UUIDs and instants are compared as numbers. */
  datatype MatchRow = MatchRow(id: nat, playerA: UserId, playerB: UserId, ended: bool, endedAt: Option<int>)

  datatype Cursor = Cursor(ts: int, id: nat)

  datatype Page = Page(items: seq<MatchRow>, nextCursor: Option<Cursor>)

  predicate Mine(row: MatchRow, user: UserId) {
    row.ended && row.endedAt.Some? && (row.playerA == user || row.playerB == user)
  }

  predicate After(row: MatchRow, cursor: Option<Cursor>) {
    cursor.None? ||
    (row.endedAt.Some? &&
      (row.endedAt.value < cursor.value.ts || (row.endedAt.value == cursor.value.ts && row.id < cursor.value.id)))
  }

  function Ts(row: MatchRow): int {
    if row.endedAt.Some? then row.endedAt.value else 0
  }

  /** endedAt descending, then id descending. */
  predicate NewestFirst(x: MatchRow, y: MatchRow) {
    Ts(x) > Ts(y) || (Ts(x) == Ts(y) && x.id >= y.id)
  }

  function Where(rows: seq<MatchRow>, user: UserId, cursor: Option<Cursor>): seq<MatchRow> {
    if rows == [] then []
    else (if Mine(rows[0], user) && After(rows[0], cursor) then [rows[0]] else []) + Where(rows[1..], user, cursor)
  }

  /** Every match that the query selects, in order. */
  function Selected(rows: seq<MatchRow>, user: UserId, cursor: Option<Cursor>): seq<MatchRow> {
    StableSort(Where(rows, user, cursor), NewestFirst)
  }

  function Take(rows: seq<MatchRow>, n: nat): seq<MatchRow> {
    if |rows| <= n then rows else rows[..n]
  }

  function CursorOf(row: MatchRow): Cursor {
    Cursor(Ts(row), row.id)
  }

  /** One match more than a page is fetched, to see whether another page follows. */
  function PageOf(selected: seq<MatchRow>, limit: nat): Page {
    var found := Take(selected, limit + 1);
    var hasMore := |found| > limit;
    var items := if hasMore then found[..limit] else found;
    Page(items, if hasMore && items != [] then Some(CursorOf(items[|items| - 1])) else None)
  }

  function GetHistory(rows: seq<MatchRow>, user: UserId, limit: nat, cursor: Option<Cursor>): Page {
    PageOf(Selected(rows, user, cursor), limit)
  }

  function IdOf(row: MatchRow): nat { row.id }

  predicate DistinctIds(rows: seq<MatchRow>) {
    DistinctBy(rows, IdOf)
  }

  // ----- the selection after a cursor is a suffix of the whole selection

  function Keep(rows: seq<MatchRow>, cursor: Option<Cursor>): (r: seq<MatchRow>)
    ensures forall x :: x in r ==> x in rows
  {
    if rows == [] then [] else (if After(rows[0], cursor) then [rows[0]] else []) + Keep(rows[1..], cursor)
  }

  lemma KeepCons(x: MatchRow, s: seq<MatchRow>, cursor: Option<Cursor>)
    ensures Keep([x] + s, cursor) == if After(x, cursor) then [x] + Keep(s, cursor) else Keep(s, cursor)
  {
    assert ([x] + s)[1..] == s;
  }

  lemma InsertFirst(x: MatchRow, kept: seq<MatchRow>, s: seq<MatchRow>)
    requires SortedBy(s, NewestFirst) && s != [] && NewestFirst(x, s[0]) && forall y :: y in kept ==> y in s
    ensures Insert(x, kept, NewestFirst) == [x] + kept
  {
    if kept != [] {
      assert kept[0] in s;
    }
  }

  lemma InsertLater(x: MatchRow, y: MatchRow, s: seq<MatchRow>)
    requires !NewestFirst(x, y)
    ensures Insert(x, [y] + s, NewestFirst) == [y] + Insert(x, s, NewestFirst)
  {
    assert ([y] + s)[1..] == s;
  }

  lemma KeepAfterFirstInsert(x: MatchRow, s: seq<MatchRow>, cursor: Option<Cursor>)
    requires SortedBy(s, NewestFirst) && (s == [] || NewestFirst(x, s[0]))
    ensures Keep(Insert(x, s, NewestFirst), cursor) ==
            if After(x, cursor) then Insert(x, Keep(s, cursor), NewestFirst) else Keep(s, cursor)
  {
    KeepCons(x, s, cursor);
    if s == [] {
      assert [x] + s == [x];
    } else {
      InsertFirst(x, Keep(s, cursor), s);
    }
  }

  lemma KeepAfterLaterInsert(x: MatchRow, y: MatchRow, rest: seq<MatchRow>, cursor: Option<Cursor>)
    requires !NewestFirst(x, y)
    requires Keep(Insert(x, rest, NewestFirst), cursor) ==
             if After(x, cursor) then Insert(x, Keep(rest, cursor), NewestFirst) else Keep(rest, cursor)
    ensures Keep(Insert(x, [y] + rest, NewestFirst), cursor) ==
            if After(x, cursor) then Insert(x, Keep([y] + rest, cursor), NewestFirst) else Keep([y] + rest, cursor)
  {
    InsertLater(x, y, rest);
    KeepCons(y, rest, cursor);
    KeepCons(y, Insert(x, rest, NewestFirst), cursor);
    InsertLater(x, y, Keep(rest, cursor));
  }

  /** What comes after a cursor is downward closed: nothing newer than a dropped match is kept. */
  lemma {:induction false} KeepAfterInsert(x: MatchRow, s: seq<MatchRow>, cursor: Option<Cursor>)
    requires SortedBy(s, NewestFirst)
    ensures Keep(Insert(x, s, NewestFirst), cursor) ==
            if After(x, cursor) then Insert(x, Keep(s, cursor), NewestFirst) else Keep(s, cursor)
  {
    if s == [] || NewestFirst(x, s[0]) {
      KeepAfterFirstInsert(x, s, cursor);
    } else {
      var y, rest := s[0], s[1..];
      assert s == [y] + rest;
      KeepAfterInsert(x, rest, cursor);
      KeepAfterLaterInsert(x, y, rest, cursor);
    }
  }

  lemma {:induction false} KeepAfterSort(s: seq<MatchRow>, cursor: Option<Cursor>)
    ensures Keep(StableSort(s, NewestFirst), cursor) == StableSort(Keep(s, cursor), NewestFirst)
  {
    if s != [] {
      KeepAfterSort(s[1..], cursor);
      assert TotalPreorder(NewestFirst);
      StableSortSorts(s[1..], NewestFirst);
      KeepAfterInsert(s[0], StableSort(s[1..], NewestFirst), cursor);
      var kept := Keep(s[1..], cursor);
      assert ([s[0]] + kept)[1..] == kept && [] + kept == kept;
    }
  }

  predicate Weaker(c: Option<Cursor>, d: Option<Cursor>) {
    c.None? || (d.Some? && (d.value.ts < c.value.ts || (d.value.ts == c.value.ts && d.value.id <= c.value.id)))
  }

  lemma WhereCons(rows: seq<MatchRow>, user: UserId, c: Option<Cursor>)
    requires rows != []
    ensures var rest := Where(rows[1..], user, c);
            Where(rows, user, c) == if Mine(rows[0], user) && After(rows[0], c) then [rows[0]] + rest else rest
  {
    assert [] + Where(rows[1..], user, c) == Where(rows[1..], user, c);
  }

  lemma {:induction false} WhereLater(rows: seq<MatchRow>, user: UserId, c: Option<Cursor>, d: Option<Cursor>)
    requires Weaker(c, d)
    ensures Where(rows, user, d) == Keep(Where(rows, user, c), d)
  {
    if rows != [] {
      WhereLater(rows[1..], user, c, d);
      KeepCons(rows[0], Where(rows[1..], user, c), d);
      assert After(rows[0], d) ==> After(rows[0], c);
      WhereCons(rows, user, c);
      WhereCons(rows, user, d);
    }
  }

  lemma {:induction false} WhereSelects(rows: seq<MatchRow>, user: UserId, c: Option<Cursor>)
    requires DistinctIds(rows)
    ensures forall x :: x in Where(rows, user, c) <==> x in rows && Mine(x, user) && After(x, c)
    ensures DistinctIds(Where(rows, user, c))
  {
    if rows != [] {
      WhereSelects(rows[1..], user, c);
      var rest := Where(rows[1..], user, c);
      assert forall x :: x in rows <==> x == rows[0] || x in rows[1..];
      forall i | 0 <= i < |rest|
        ensures rest[i].id != rows[0].id
      {
        assert rest[i] in rest;
        var j :| 0 <= j < |rows[1..]| && rows[1..][j] == rest[i];
        assert rows[j + 1] == rest[i];
      }
    }
  }

  /** Strictly newer: what the order is between different matches. */
  predicate Strict(s: seq<MatchRow>) {
    forall i, j :: 0 <= i < j < |s| ==> NewestFirst(s[i], s[j]) && s[i].id != s[j].id
  }

  lemma SelectedIsStrict(rows: seq<MatchRow>, user: UserId, c: Option<Cursor>)
    requires DistinctIds(rows)
    ensures Strict(Selected(rows, user, c))
    ensures forall x :: x in Selected(rows, user, c) <==> x in rows && Mine(x, user) && After(x, c)
  {
    var found := Where(rows, user, c);
    WhereSelects(rows, user, c);
    assert TotalPreorder(NewestFirst);
    StableSortSorts(found, NewestFirst);
    ReorderKeepsDistinct(found, Selected(rows, user, c), IdOf);
  }

  /** Keeping what comes after the i-th of a strictly ordered list keeps exactly its tail. */
  lemma {:induction false} KeepTail(s: seq<MatchRow>, i: nat)
    requires Strict(s) && i < |s| && forall x :: x in s ==> x.endedAt.Some?
    ensures Keep(s, Some(CursorOf(s[i]))) == s[i + 1..]
  {
    if i > 0 {
      KeepTail(s[1..], i - 1);
      assert s[1..][i - 1] == s[i];
      assert s[1..][i..] == s[i + 1..];
    } else {
      KeepAll(s[1..], Some(CursorOf(s[0])));
    }
  }

  lemma {:induction false} KeepAll(s: seq<MatchRow>, cursor: Option<Cursor>)
    requires forall x :: x in s ==> After(x, cursor)
    ensures Keep(s, cursor) == s
  {
    if s != [] {
      KeepAll(s[1..], cursor);
    }
  }

  lemma LaterIsKept(rows: seq<MatchRow>, user: UserId, c: Option<Cursor>, d: Option<Cursor>)
    requires Weaker(c, d)
    ensures Selected(rows, user, d) == Keep(Selected(rows, user, c), d)
  {
    WhereLater(rows, user, c, d);
    KeepAfterSort(Where(rows, user, c), d);
  }

  lemma LaterThan(row: MatchRow, c: Option<Cursor>)
    requires row.endedAt.Some? && After(row, c)
    ensures Weaker(c, Some(CursorOf(row)))
  {}

  lemma SelectedEnded(rows: seq<MatchRow>, user: UserId, c: Option<Cursor>)
    requires DistinctIds(rows)
    ensures Strict(Selected(rows, user, c))
    ensures forall x :: x in Selected(rows, user, c) ==> x.endedAt.Some? && After(x, c)
  {
    SelectedIsStrict(rows, user, c);
  }

  /** The page after a match continues right behind it, ties on endedAt included. */
  lemma NextPageContinues(rows: seq<MatchRow>, user: UserId, c: Option<Cursor>, n: nat)
    requires DistinctIds(rows) && 1 <= n <= |Selected(rows, user, c)|
    ensures var all := Selected(rows, user, c);
            Selected(rows, user, Some(CursorOf(all[n - 1]))) == all[n..]
  {
    var all := Selected(rows, user, c);
    var last := all[n - 1];
    SelectedEnded(rows, user, c);
    LaterThan(last, c);
    LaterIsKept(rows, user, c, Some(CursorOf(last)));
    KeepTail(all, n - 1);
  }

  // ----- following nextCursor to the end

  /** The pages obtained by following nextCursor until it is null. */
  function Crawl(rows: seq<MatchRow>, user: UserId, limit: nat, cursor: Option<Cursor>): seq<Page>
    requires limit >= 1 && DistinctIds(rows)
    decreases |Selected(rows, user, cursor)|
  {
    var page := GetHistory(rows, user, limit, cursor);
    if page.nextCursor.None? then [page]
    else
      OnePage(Selected(rows, user, cursor), limit);
      NextPageContinues(rows, user, cursor, limit);
      [page] + Crawl(rows, user, limit, page.nextCursor)
  }

  function Items(pages: seq<Page>): seq<MatchRow> {
    if pages == [] then [] else pages[0].items + Items(pages[1..])
  }

  function PageCount(n: nat, limit: nat): nat
    requires limit >= 1
    decreases n
  {
    if n <= limit then 1 else 1 + PageCount(n - limit, limit)
  }

  /** The ceiling of n / limit, and one page for an empty history. */
  predicate IsCeiling(pages: nat, n: nat, limit: nat) {
    if n == 0 then pages == 1 else (pages - 1) * limit < n <= pages * limit
  }

  lemma {:induction false} PageCountIsCeiling(n: nat, limit: nat)
    requires limit >= 1
    ensures IsCeiling(PageCount(n, limit), n, limit)
    decreases n
  {
    if n > limit {
      PageCountIsCeiling(n - limit, limit);
      var pages := PageCount(n - limit, limit);
      assert (pages + 1) * limit == pages * limit + limit;
      assert (pages - 1) * limit == pages * limit - limit;
    }
  }

  lemma OnePage(all: seq<MatchRow>, limit: nat)
    requires limit >= 1
    ensures var page := PageOf(all, limit);
            if |all| > limit
            then page == Page(all[..limit], Some(CursorOf(all[limit - 1])))
            else page == Page(all, None)
  {
    if |all| > limit {
      assert all[..limit + 1][..limit] == all[..limit];
    }
  }

  lemma CrawlUnfolds(rows: seq<MatchRow>, user: UserId, limit: nat, cursor: Option<Cursor>)
    requires limit >= 1 && DistinctIds(rows)
    ensures var page := GetHistory(rows, user, limit, cursor);
            Crawl(rows, user, limit, cursor) ==
            if page.nextCursor.None? then [page] else [page] + Crawl(rows, user, limit, page.nextCursor)
  {
  }

  lemma JoinPages(all: seq<MatchRow>, limit: nat, next: Option<Cursor>, rest: seq<Page>)
    requires limit >= 1 && |all| > limit
    requires Items(rest) == all[limit..] && |rest| == PageCount(|all[limit..]|, limit)
    ensures var pages := [Page(all[..limit], next)] + rest;
            Items(pages) == all && |pages| == PageCount(|all|, limit)
  {
    var pages := [Page(all[..limit], next)] + rest;
    assert pages[1..] == rest;
    assert all == all[..limit] + all[limit..];
  }

  lemma LastPage(all: seq<MatchRow>)
    ensures Items([Page(all, None)]) == all
  {
    assert [Page(all, None)][1..] == [];
  }

  /** From any cursor on, the pages spell out the selection, and there are as many as it needs. */
  lemma {:induction false} CrawlFrom(rows: seq<MatchRow>, user: UserId, limit: nat, cursor: Option<Cursor>,
                                     all: seq<MatchRow>)
    requires limit >= 1 && DistinctIds(rows) && all == Selected(rows, user, cursor)
    ensures var pages := Crawl(rows, user, limit, cursor);
            Items(pages) == all && |pages| == PageCount(|all|, limit)
    decreases |all|
  {
    OnePage(all, limit);
    CrawlUnfolds(rows, user, limit, cursor);
    if |all| > limit {
      var next := Some(CursorOf(all[limit - 1]));
      NextPageContinues(rows, user, cursor, limit);
      CrawlFrom(rows, user, limit, next, all[limit..]);
      JoinPages(all, limit, next, Crawl(rows, user, limit, next));
    } else {
      LastPage(all);
    }
  }

  /** Newest first, and by descending id within one instant. */
  predicate NewestDown(items: seq<MatchRow>) {
    forall i, j :: 0 <= i < j < |items| ==>
      && items[i].endedAt.Some? && items[j].endedAt.Some?
      && (|| items[i].endedAt.value > items[j].endedAt.value
          || (items[i].endedAt == items[j].endedAt && items[i].id > items[j].id))
  }

  lemma StrictMeaning(items: seq<MatchRow>)
    requires Strict(items) && forall x :: x in items ==> x.endedAt.Some?
    ensures NewestDown(items)
  {
    forall i, j | 0 <= i < j < |items|
      ensures items[i].endedAt.Some? && items[j].endedAt.Some?
      ensures || items[i].endedAt.value > items[j].endedAt.value
              || (items[i].endedAt == items[j].endedAt && items[i].id > items[j].id)
    {
      assert NewestFirst(items[i], items[j]) && items[i] in items && items[j] in items;
    }
  }

  predicate EndedMatchOf(x: MatchRow, user: UserId) {
    x.ended && x.endedAt != None && user in {x.playerA, x.playerB}
  }

  lemma SelectionMeaning(rows: seq<MatchRow>, user: UserId)
    requires DistinctIds(rows)
    ensures NewestDown(Selected(rows, user, None))
    ensures forall x :: x in Selected(rows, user, None) <==> x in rows && EndedMatchOf(x, user)
  {
    SelectedIsStrict(rows, user, None);
    StrictMeaning(Selected(rows, user, None));
  }

  /**
   * Following nextCursor to null yields every ended match of the user exactly
   * once, newest first, in max(1, ceil(N / limit)) pages.
   */
  lemma CrawlSeesEveryMatchOnce(rows: seq<MatchRow>, user: UserId, limit: nat)
    requires limit >= 1 && DistinctIds(rows)
    ensures var pages := Crawl(rows, user, limit, None);
            var items := Items(pages);
            && (forall x :: x in items <==> x in rows && EndedMatchOf(x, user))
            && NewestDown(items)
            && IsCeiling(|pages|, |items|, limit)
  {
    var all := Selected(rows, user, None);
    CrawlFrom(rows, user, limit, None, all);
    SelectionMeaning(rows, user);
    PageCountIsCeiling(|all|, limit);
  }
}
