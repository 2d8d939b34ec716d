/** Keyset pagination: pages defined by the row they follow, over a table that changes
    between one page and the next. */
module Paging {
  import opened Wrappers
  import opened Text
  import opened Sets
  import opened Tables

  /** Where a row stands in a listing: its sort instant, then its key or id. */
  datatype Position = Position(at: Instant, id: string)

  /** `(at, id) < (?, ?)` */
  predicate Before(a: Position, b: Position) {
    a.at < b.at || (a.at == b.at && Less(a.id, b.id))
  }

  datatype Page = Page(items: seq<Position>, next: Option<Position>)

  /** The rows a page may show: all of them, or those before the cursor. */
  function Eligible(rows: set<Position>, after: Option<Position>): set<Position> {
    set p | p in rows && (after.Some? ==> Before(p, after.value))
  }

  predicate Descending(items: seq<Position>) {
    forall i, j :: 0 <= i < j < |items| ==> Before(items[j], items[i])
  }

  /** `items` are the `n` latest of `rows`, latest first. */
  ghost predicate Latest(rows: set<Position>, n: nat, items: seq<Position>) {
    && Descending(items)
    && (forall p :: p in items ==> p in rows)
    && |items| == Min(n, |rows|)
    && (forall p, q :: p in rows && p !in items && q in items ==> Before(p, q))
  }

  /** The page that follows `after`, newest first, and the cursor if there is more. */
  ghost predicate IsPage(rows: set<Position>, after: Option<Position>, limit: nat, page: Page) {
    var eligible := Eligible(rows, after);
    && Latest(eligible, limit, page.items)
    && page.next == if |eligible| > limit && limit > 0 then Some(page.items[limit - 1]) else None
  }

  // ---- the order ------------------------------------------------------------------------

  lemma BeforeTransitive(a: Position, b: Position, c: Position)
    requires Before(a, b) && Before(b, c)
    ensures Before(a, c)
  {
    if a.at == b.at == c.at { LessTransitive(a.id, b.id, c.id); }
  }

  lemma BeforeIrreflexive(a: Position)
    ensures !Before(a, a)
  {
    LessIrreflexive(a.id);
  }

  lemma BeforeTotal(a: Position, b: Position)
    ensures a == b || Before(a, b) || Before(b, a)
  {
    LessTotal(a.id, b.id);
  }

  lemma {:induction false} LatestExists(rows: set<Position>) returns (latest: Position)
    requires rows != {}
    ensures latest in rows && forall p :: p in rows && p != latest ==> Before(p, latest)
  {
    var x :| x in rows;
    if rows == {x} {
      latest := x;
    } else {
      var y := LatestExists(rows - {x});
      BeforeTotal(x, y);
      if Before(x, y) {
        latest := y;
      } else {
        latest := x;
        forall p | p in rows && p != x ensures Before(p, x) {
          if p != y { BeforeTransitive(p, y, x); }
        }
      }
    }
  }

  // ---- fetching ---------------------------------------------------------------------------

  /** ORDER BY at DESC, id DESC LIMIT n */
  method SelectLatest(rows: set<Position>, n: nat) returns (items: seq<Position>)
    ensures Latest(rows, n, items)
  {
    items := [];
    var left := rows;
    while |items| < n && left != {}
      invariant left <= rows && |items| + |left| == |rows| && |items| <= n
      invariant Descending(items)
      invariant forall p :: p in items <==> p in rows && p !in left
      invariant forall p, q :: p in left && q in items ==> Before(p, q)
      decreases left
    {
      ghost var last := LatestExists(left);
      var latest :| latest in left && forall p :: p in left && p != latest ==> Before(p, latest);
      items := items + [latest];
      left := left - {latest};
    }
  }

  /** One page: one row more than it will show is asked for, and its presence is how the
      page knows there is another one. */
  method FetchPage(rows: set<Position>, after: Option<Position>, limit: nat) returns (page: Page)
    requires limit >= 1
    ensures IsPage(rows, after, limit, page)
  {
    var eligible := Eligible(rows, after);
    var found := SelectLatest(eligible, limit + 1);
    if |found| <= limit {
      page := Page(found, None);
    } else {
      var shown := found[..limit];
      page := Page(shown, Some(shown[|shown| - 1]));
      forall p, q | p in eligible && p !in shown && q in shown ensures Before(p, q) {
        if p in found {
          assert p == found[limit];
        }
      }
    }
  }

  // ---- walks ------------------------------------------------------------------------------

  function After(pages: seq<Page>, i: nat): Option<Position>
    requires i <= |pages|
  {
    if i == 0 then None else pages[i - 1].next
  }

  /** A walk as far as it has gone: page `i` was fetched from the table as it stood in `tables[i]`,
      each from the cursor of the page before it. */
  ghost predicate WalkSoFar(tables: seq<set<Position>>, limit: nat, pages: seq<Page>) {
    && |tables| == |pages| > 0 && limit >= 1
    && (forall i :: 0 <= i < |pages| ==> IsPage(tables[i], After(pages, i), limit, pages[i]))
    && (forall i :: 0 <= i < |pages| - 1 ==> pages[i].next.Some?)
  }

  /** A walk to the end: its last page has no cursor. */
  ghost predicate Walk(tables: seq<set<Position>>, limit: nat, pages: seq<Page>) {
    WalkSoFar(tables, limit, pages) && pages[|pages| - 1].next == None
  }

  predicate Shows(pages: seq<Page>, i: int, p: Position) {
    0 <= i < |pages| && p in pages[i].items
  }

  /** What the pages of a walk say about each other: rows stand before the cursor that led to
      their page and at or after the one it ends with; rows not shown stand before both. */
  ghost predicate Chained(tables: seq<set<Position>>, pages: seq<Page>) {
    && |tables| == |pages|
    && (forall i, p :: Shows(pages, i, p) ==> p in tables[i] && Follows(p, After(pages, i)))
    && (forall i :: 0 <= i < |pages| - 1 ==> pages[i].next.Some? && Shows(pages, i, pages[i].next.value))
    && (forall i, p :: 0 <= i < |pages| - 1 && Shows(pages, i, p) && p != pages[i].next.value ==>
          Before(pages[i].next.value, p))
    && (forall i, p :: 0 <= i < |pages| - 1 && p in tables[i] && Follows(p, After(pages, i)) && !Shows(pages, i, p) ==>
          Before(p, pages[i].next.value))
  }

  predicate Follows(p: Position, after: Option<Position>) {
    after.Some? ==> Before(p, after.value)
  }

  lemma PageFacts(rows: set<Position>, after: Option<Position>, limit: nat, page: Page)
    requires limit >= 1 && IsPage(rows, after, limit, page)
    ensures forall p :: p in page.items ==> p in rows && Follows(p, after)
    ensures page.next.Some? ==> page.next.value in page.items
    ensures page.next.Some? ==> forall p :: p in page.items && p != page.next.value ==> Before(page.next.value, p)
    ensures page.next.Some? ==>
              forall p :: p in rows && Follows(p, after) && p !in page.items ==> Before(p, page.next.value)
  {
    if page.next.Some? {
      assert |page.items| == limit && page.next.value == page.items[limit - 1];
      forall p | p in rows && Follows(p, after) && p !in page.items ensures Before(p, page.next.value) {
        assert p in Eligible(rows, after);
      }
    }
  }

  lemma WalkIsChained(tables: seq<set<Position>>, limit: nat, pages: seq<Page>)
    requires WalkSoFar(tables, limit, pages)
    ensures Chained(tables, pages)
  {
    forall i | 0 <= i < |pages|
      ensures IsPage(tables[i], After(pages, i), limit, pages[i])
      ensures i < |pages| - 1 ==> pages[i].next.Some? && Shows(pages, i, pages[i].next.value)
    {
      PageFacts(tables[i], After(pages, i), limit, pages[i]);
    }
    forall i, p | Shows(pages, i, p)
      ensures p in tables[i] && Follows(p, After(pages, i))
      ensures i < |pages| - 1 && p != pages[i].next.value ==> Before(pages[i].next.value, p)
    {
      PageFacts(tables[i], After(pages, i), limit, pages[i]);
    }
    forall i, p | 0 <= i < |pages| - 1 && p in tables[i] && Follows(p, After(pages, i)) && !Shows(pages, i, p)
      ensures Before(p, pages[i].next.value)
    {
      PageFacts(tables[i], After(pages, i), limit, pages[i]);
    }
  }

  /** The cursors of a walk only fall. */
  lemma {:induction false} CursorsFall(tables: seq<set<Position>>, pages: seq<Page>, i: nat, j: nat)
    requires Chained(tables, pages) && i < j < |pages|
    ensures pages[i].next.Some? && After(pages, j).Some?
    ensures After(pages, j) == pages[i].next || Before(After(pages, j).value, pages[i].next.value)
    decreases j
  {
    if i + 1 < j {
      CursorsFall(tables, pages, i, j - 1);
      var cursor := pages[j - 1].next.value;
      assert Shows(pages, j - 1, cursor);
      assert Before(cursor, After(pages, j - 1).value);
      if After(pages, j - 1) != pages[i].next {
        BeforeTransitive(cursor, After(pages, j - 1).value, pages[i].next.value);
      }
    }
  }

  /** Later pages show earlier rows. */
  lemma LaterPagesAreBefore(tables: seq<set<Position>>, pages: seq<Page>, i: nat, p: Position, j: nat, q: Position)
    requires Chained(tables, pages) && i < j && Shows(pages, i, p) && Shows(pages, j, q)
    ensures Before(q, p)
  {
    CursorsFall(tables, pages, i, j);
    var cursor := pages[i].next.value;
    assert Follows(q, After(pages, j));
    if After(pages, j) != pages[i].next { BeforeTransitive(q, After(pages, j).value, cursor); }
    if p != cursor { BeforeTransitive(q, cursor, p); }
  }

  /** Whatever is written between pages, no position is shown twice: not on two pages, and
      not twice on one.  The walk need not have come to its end. */
  lemma NoPositionTwice(tables: seq<set<Position>>, limit: nat, pages: seq<Page>, p: Position)
    requires WalkSoFar(tables, limit, pages)
    ensures forall i, j :: Shows(pages, i, p) && Shows(pages, j, p) ==> i == j
    ensures forall i :: 0 <= i < |pages| ==> |ToSet(pages[i].items)| == |pages[i].items|
  {
    BeforeIrreflexive(p);
    WalkIsChained(tables, limit, pages);
    forall i, j | Shows(pages, i, p) && Shows(pages, j, p) ensures i == j {
      if i < j { LaterPagesAreBefore(tables, pages, i, p, j, p); }
      if j < i { LaterPagesAreBefore(tables, pages, j, p, i, p); }
    }
    forall i | 0 <= i < |pages| ensures |ToSet(pages[i].items)| == |pages[i].items| {
      ItemsAreDistinct(pages[i].items);
    }
  }

  /** A page without a cursor shows everything there was left to show. */
  lemma LastPageShowsAll(rows: set<Position>, after: Option<Position>, limit: nat, page: Page)
    requires limit >= 1 && IsPage(rows, after, limit, page) && page.next == None
    ensures forall p :: p in rows && Follows(p, after) ==> p in page.items
  {
    var eligible := Eligible(rows, after);
    AllShown(eligible, page.items);
    forall p | p in rows && Follows(p, after) ensures p in page.items {
      assert p in eligible;
    }
  }

  /** A position the table held at every fetch is shown. */
  lemma SteadyPositionShown(tables: seq<set<Position>>, limit: nat, pages: seq<Page>, p: Position)
    requires Walk(tables, limit, pages) && forall i :: 0 <= i < |tables| ==> p in tables[i]
    ensures exists i :: Shows(pages, i, p)
  {
    var n := |pages| - 1;
    WalkIsChained(tables, limit, pages);
    if forall i :: 0 <= i < n ==> !Shows(pages, i, p) {
      StillAhead(tables, pages, p, n);
      LastPageShowsAll(tables[n], After(pages, n), limit, pages[n]);
      assert Shows(pages, n, p);
    }
  }

  lemma {:induction false} StillAhead(tables: seq<set<Position>>, pages: seq<Page>, p: Position, n: nat)
    requires Chained(tables, pages) && n < |pages|
    requires (forall i :: 0 <= i < |tables| ==> p in tables[i]) && forall i :: 0 <= i < n ==> !Shows(pages, i, p)
    ensures Follows(p, After(pages, n))
  {
    if n > 0 {
      StillAhead(tables, pages, p, n - 1);
      assert p in tables[n - 1] && !Shows(pages, n - 1, p);
    }
  }

  /** A list of as many distinct rows as there are holds them all. */
  lemma AllShown(rows: set<Position>, items: seq<Position>)
    requires Descending(items) && (forall p :: p in items ==> p in rows) && |items| == |rows|
    ensures forall p :: p in rows ==> p in items
  {
    ItemsAreDistinct(items);
    var shown := ToSet(items);
    assert shown <= rows;
    SubsetOfSameSize(shown, rows);
  }

  lemma {:induction false} ItemsAreDistinct(items: seq<Position>)
    requires Descending(items)
    ensures |ToSet(items)| == |items|
  {
    if items != [] {
      var rest := items[1..];
      ItemsAreDistinct(rest);
      BeforeIrreflexive(items[0]);
      assert items[0] !in rest;
      assert ToSet(items) == ToSet(rest) + {items[0]};
    }
  }

  /** A walk shows every row that stayed where it was exactly once, whatever else was written,
      moved or removed between its pages. */
  lemma SteadyPositionShownOnce(tables: seq<set<Position>>, limit: nat, pages: seq<Page>, p: Position)
    requires Walk(tables, limit, pages) && forall i :: 0 <= i < |tables| ==> p in tables[i]
    ensures exists i :: Shows(pages, i, p) && forall j :: Shows(pages, j, p) ==> j == i
  {
    SteadyPositionShown(tables, limit, pages, p);
    NoPositionTwice(tables, limit, pages, p);
  }

  /** When a row's sort instant never goes back, a walk shows no id twice: a row that moves,
      moves away from what is still to come. */
  lemma NoIdTwice(tables: seq<set<Position>>, limit: nat, pages: seq<Page>, i: nat, p: Position, j: nat, q: Position)
    requires WalkSoFar(tables, limit, pages) && Shows(pages, i, p) && Shows(pages, j, q) && i <= j && p.id == q.id
    requires forall m, n, a, b ::
               0 <= m <= n < |tables| && a in tables[m] && b in tables[n] && a.id == b.id ==> a.at <= b.at
    ensures i == j && p == q
  {
    LessIrreflexive(p.id);
    WalkIsChained(tables, limit, pages);
    assert p in tables[i] && q in tables[j];
    if i < j {
      LaterPagesAreBefore(tables, pages, i, p, j, q);
    } else {
      assert p.at == q.at;
    }
  }

  // ---- a table nobody writes to -------------------------------------------------------------

  /** How many pages `n` rows take: at least one, and no page is empty but the only one. */
  function PageCount(n: nat, limit: nat): nat
    requires limit >= 1
  {
    if n == 0 then 1 else (n + limit - 1) / limit
  }

  lemma RowsLeft(rows: set<Position>, after: Option<Position>, limit: nat, page: Page)
    requires limit >= 1 && IsPage(rows, after, limit, page) && page.next.Some?
    ensures |page.items| == limit && |Eligible(rows, page.next)| == |Eligible(rows, after)| - limit
    ensures Eligible(rows, page.next) != {}
  {
    var eligible, rest := Eligible(rows, after), Eligible(rows, page.next);
    var shown := ToSet(page.items);
    var cursor := page.next.value;
    ItemsAreDistinct(page.items);
    BeforeIrreflexive(cursor);
    forall p | p in eligible ensures p in rest <==> p !in shown {
      if p in shown && p != cursor {
        assert Before(cursor, p);
        if Before(p, cursor) { BeforeTransitive(cursor, p, cursor); }
      }
    }
    forall p | p in rest ensures p in eligible {
      if after.Some? { BeforeTransitive(p, cursor, after.value); }
    }
    assert rest == eligible - shown;
  }

  /** How many rows so many full pages show. */
  function FullPages(i: nat, limit: nat): nat {
    if i == 0 then 0 else FullPages(i - 1, limit) + limit
  }

  lemma {:induction false} FullPagesShow(i: nat, limit: nat)
    ensures FullPages(i, limit) == i * limit
  {
    if i > 0 { FullPagesShow(i - 1, limit); }
  }

  lemma OnePageLess(rows: set<Position>, tables: seq<set<Position>>, limit: nat, pages: seq<Page>, i: nat)
    requires Walk(tables, limit, pages) && 0 < i < |pages| && tables[i - 1] == rows
    ensures |Eligible(rows, After(pages, i))| == |Eligible(rows, After(pages, i - 1))| - limit
    ensures Eligible(rows, After(pages, i)) != {}
  {
    RowsLeft(rows, After(pages, i - 1), limit, pages[i - 1]);
  }

  /** How many rows are left where page `i` begins. */
  function Left(rows: set<Position>, pages: seq<Page>, i: nat): int
    requires i <= |pages|
  {
    |Eligible(rows, After(pages, i))|
  }

  lemma {:induction false} LeftAfter(rows: set<Position>, pages: seq<Page>, limit: nat, i: nat)
    requires i < |pages| && Left(rows, pages, 0) == |rows|
    requires forall k :: 0 < k < |pages| ==> Left(rows, pages, k) == Left(rows, pages, k - 1) - limit
    ensures Left(rows, pages, i) == |rows| - FullPages(i, limit)
  {
    if i > 0 { LeftAfter(rows, pages, limit, i - 1); }
  }

  /** On a table that does not change, a walk takes exactly the pages its rows need, and no
      cursor leads to an empty page. */
  lemma FrozenWalk(rows: set<Position>, tables: seq<set<Position>>, limit: nat, pages: seq<Page>)
    requires Walk(tables, limit, pages) && forall k :: 0 <= k < |tables| ==> tables[k] == rows
    ensures |pages| == PageCount(|rows|, limit)
    ensures forall i :: 0 < i < |pages| ==> pages[i].items != []
  {
    var n := |pages| - 1;
    assert Eligible(rows, None) == rows;
    forall i | 0 < i < |pages|
      ensures Left(rows, pages, i) == Left(rows, pages, i - 1) - limit
      ensures Eligible(rows, After(pages, i)) != {} && pages[i].items != []
    {
      assert tables[i - 1] == rows && tables[i] == rows;
      OnePageLess(rows, tables, limit, pages, i);
    }
    LeftAfter(rows, pages, limit, n);
    FullPagesShow(n, limit);
    LastPageLeft(rows, tables, limit, pages);
    PagesNeeded(|rows|, limit, n);
  }

  lemma LastPageLeft(rows: set<Position>, tables: seq<set<Position>>, limit: nat, pages: seq<Page>)
    requires Walk(tables, limit, pages) && tables[|pages| - 1] == rows
    ensures Left(rows, pages, |pages| - 1) <= limit
  {
  }

  lemma PagesNeeded(rows: nat, limit: nat, n: nat)
    requires limit >= 1 && 0 <= rows - n * limit <= limit && (n > 0 ==> rows - n * limit > 0)
    ensures PageCount(rows, limit) == n + 1
  {
    if rows > 0 {
      var r := rows - n * limit;
      if n == 0 {
        assert rows + limit - 1 == limit + (rows - 1);
        Quotient(rows + limit - 1, limit, 1, rows - 1);
      } else {
        assert rows + limit - 1 == (n + 1) * limit + (r - 1);
        Quotient(rows + limit - 1, limit, n + 1, r - 1);
      }
    }
  }

  lemma Quotient(a: nat, d: nat, q: nat, r: nat)
    requires d >= 1 && a == q * d + r && r < d
    ensures a / d == q
  {
    var e := a / d - q;
    assert a == a / d * d + a % d;
    assert e * d == r - a % d;
    assert e >= 1 ==> e * d >= d;
    assert e <= -1 ==> e * d + d <= 0;
  }
}
