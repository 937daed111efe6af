/**
 * audit-governance-service/src/routes-logs.ts: walking /logs/search page by
 * page. `ts` is in microseconds, the resolution of a TIMESTAMPTZ; the cursor
 * goes through a Date and so keeps milliseconds only.
 */
module Pagination {
  import opened Options
  import opened Sets
  import Cursor
  import Lines

  datatype Row = Row(ts: int, id: nat)

  /** a stands before b in ORDER BY ts DESC, id DESC. */
  predicate Before(a: Row, b: Row) { a.ts > b.ts || (a.ts == b.ts && a.id > b.id) }

  datatype Mark = Mark(ts: int, id: nat)

  /** toISOString: whole milliseconds. */
  function MarkOf(r: Row): Mark { Mark(r.ts - r.ts % 1000, r.id) }

  /** (ts, id) < (cursor.ts, cursor.id); no cursor lets everything pass. */
  predicate Below(r: Row, c: Option<Mark>) {
    c.Some? ==> r.ts < c.value.ts || (r.ts == c.value.ts && r.id < c.value.id)
  }

  datatype Page = Page(items: seq<Row>, next: Option<Mark>)

  predicate Sorted(rs: seq<Row>) { forall i, j :: 0 <= i < j < |rs| ==> Before(rs[i], rs[j]) }

  function Candidates(table: set<Row>, c: Option<Mark>): set<Row> {
    set r | r in table && Below(r, c)
  }

  /** The answer of one search: the first `limit` candidates, and a cursor if there are more. */
  predicate IsPage(table: set<Row>, c: Option<Mark>, limit: nat, p: Page) {
    && Sorted(p.items)
    && (forall r <- p.items :: r in Candidates(table, c))
    && (forall r <- Candidates(table, c), i <- p.items :: r in p.items || Before(i, r))
    && if |Candidates(table, c)| > limit
       then |p.items| == limit && limit > 0 && p.next == Some(MarkOf(p.items[limit - 1]))
       else |p.items| == |Candidates(table, c)| && p.next == None
  }

  lemma Order(a: Row, b: Row, c: Row)
    ensures a == b || Before(a, b) || Before(b, a)
    ensures !Before(a, a) && !(Before(a, b) && Before(b, a))
    ensures Before(a, b) && Before(b, c) ==> Before(a, c)
  {
  }

  // --------------------------------------------------------- the handler

  predicate Leads(first: Row, rows: set<Row>) { forall r <- rows :: r == first || Before(first, r) }

  /** The better of two leaders leads both. */
  lemma LeadsBoth(first: Row, rows: set<Row>, r: Row)
    requires Leads(first, rows)
    ensures Before(r, first) ==> Leads(r, rows + {r})
    ensures !Before(r, first) ==> Leads(first, rows + {r})
  {
    forall x | x in rows {
      Order(r, first, x);
    }
    Order(r, first, r);
  }

  method FirstOf(rows: set<Row>) returns (first: Row)
    requires rows != {}
    ensures first in rows && Leads(first, rows)
  {
    hide Leads;
    first :| first in rows;
    var rest := rows - {first};
    assert Leads(first, rows - rest) by {
      assert rows - rest == {first};
      LeadsItself(first);
    }
    while rest != {}
      invariant first in rows && rest <= rows
      invariant Leads(first, rows - rest)
    {
      var r :| r in rest;
      LeadsBoth(first, rows - rest, r);
      assert rows - (rest - {r}) == (rows - rest) + {r};
      if Before(r, first) {
        first := r;
      }
      rest := rest - {r};
    }
    assert rows - rest == rows;
  }

  lemma LeadsItself(r: Row)
    ensures Leads(r, {r})
  {
  }

  /** The query with LIMIT limit + 1, and the slicing that follows it. */
  method Search(table: set<Row>, c: Option<Mark>, limit: nat) returns (p: Page)
    requires 1 <= limit <= 1_000
    ensures IsPage(table, c, limit, p)
  {
    var cands := Candidates(table, c);
    var left := cands;
    var rows: seq<Row> := [];
    while left != {} && |rows| < limit + 1
      invariant left <= cands && |rows| + |left| == |cands| && |rows| <= limit + 1
      invariant Sorted(rows)
      invariant forall r <- rows :: r in cands && r !in left
      invariant forall r <- cands :: r in left || r in rows
      invariant forall r <- left, i <- rows :: Before(i, r)
      decreases |left|
    {
      var first := FirstOf(left);
      rows, left := rows + [first], left - {first};
    }
    var hasMore := |rows| > limit;
    var items := if hasMore then rows[..limit] else rows;
    p := Page(items, if hasMore then Some(MarkOf(items[|items| - 1])) else None);
    if hasMore {
      assert rows[limit] in rows && items == rows[..limit];
      forall r, i | r in cands && i in items ensures r in items || Before(i, r) {
        if r in rows && r !in items {
          assert r == rows[limit];
        }
      }
    }
  }

  // ------------------------------------------------------------------- walks

  function CursorAt(pages: seq<Page>, k: nat): Option<Mark>
    requires k <= |pages|
  {
    if k == 0 then None else pages[k - 1].next
  }

  /** Rows are only ever inserted. */
  predicate Growing(tables: seq<set<Row>>) { forall i, j :: 0 <= i <= j < |tables| ==> tables[i] <= tables[j] }

  /** Page k is taken from table k, following the cursor of page k - 1. */
  predicate Walk(tables: seq<set<Row>>, limit: nat, pages: seq<Page>) {
    && |tables| == |pages|
    && (forall k :: 0 <= k < |pages| ==> IsPage(tables[k], CursorAt(pages, k), limit, pages[k]))
    && (forall k :: 0 <= k < |pages| - 1 ==> pages[k].next.Some?)
    && Growing(tables)
  }

  /** The walk ended with a null cursor. */
  predicate Complete(pages: seq<Page>) { pages != [] && pages[|pages| - 1].next.None? }

  lemma BelowMarkIsAfter(r: Row, last: Row)
    requires Below(r, Some(MarkOf(last)))
    ensures Before(last, r)
  {
  }

  lemma LastIsLast(rs: seq<Row>, i: nat)
    requires Sorted(rs) && i < |rs|
    ensures rs[i] == rs[|rs| - 1] || Before(rs[i], rs[|rs| - 1])
  {
  }

  predicate EndsWith(items: seq<Row>, last: Row) { last in items && forall r <- items :: r == last || Before(r, last) }

  lemma PageEnd(table: set<Row>, c: Option<Mark>, limit: nat, p: Page) returns (last: Row)
    requires IsPage(table, c, limit, p) && p.next.Some?
    ensures p.next == Some(MarkOf(last)) && EndsWith(p.items, last) && last in table && Below(last, c)
  {
    last := p.items[|p.items| - 1];
    assert last in p.items;
    forall i | 0 <= i < |p.items| ensures p.items[i] == last || Before(p.items[i], last) {
      LastIsLast(p.items, i);
    }
  }

  /** The row whose mark is the cursor of page k: the last one of the page before. */
  lemma LastBefore(tables: seq<set<Row>>, limit: nat, pages: seq<Page>, k: nat) returns (last: Row)
    requires Walk(tables, limit, pages) && 0 < k < |pages|
    ensures CursorAt(pages, k) == Some(MarkOf(last)) && EndsWith(pages[k - 1].items, last)
    ensures |tables| == |pages| && last in tables[k - 1] && Below(last, CursorAt(pages, k - 1))
  {
    hide Below, IsPage, EndsWith;
    last := PageEnd(tables[k - 1], CursorAt(pages, k - 1), limit, pages[k - 1]);
  }

  /** Cursors only move down the order. */
  lemma {:induction false} LaterIsAfter(tables: seq<set<Row>>, limit: nat, pages: seq<Page>, j: nat, i: nat, k: nat,
                                        r: Row)
    requires Walk(tables, limit, pages) && j < k < |pages| && i < |pages[j].items| && Below(r, CursorAt(pages, k))
    ensures Before(pages[j].items[i], r)
    decreases k
  {
    hide Walk, CursorAt, Below, Before, MarkOf;
    var last := LastBefore(tables, limit, pages, k);
    BelowMarkIsAfter(r, last);
    var item := pages[j].items[i];
    if j < k - 1 {
      LaterIsAfter(tables, limit, pages, j, i, k - 1, last);
    }
    Order(item, last, r);
  }

  /** Read page after page, the items are in strictly descending order, so none is there twice. */
  predicate InOrder(pages: seq<Page>) {
    && (forall k :: 0 <= k < |pages| ==> Sorted(pages[k].items))
    && (forall j, k :: 0 <= j < k < |pages| ==> AllBefore(pages[j].items, pages[k].items))
  }

  predicate AllBefore(a: seq<Row>, b: seq<Row>) {
    forall i, n :: 0 <= i < |a| && 0 <= n < |b| ==> Before(a[i], b[n])
  }

  lemma ItemIsBelow(tables: seq<set<Row>>, limit: nat, pages: seq<Page>, k: nat, n: nat)
    requires Walk(tables, limit, pages) && k < |pages| && n < |pages[k].items|
    ensures Below(pages[k].items[n], CursorAt(pages, k)) && pages[k].items[n] in tables[k]
  {
    hide Before;
    assert IsPage(tables[k], CursorAt(pages, k), limit, pages[k]);
    assert pages[k].items[n] in pages[k].items;
  }

  /** Whatever is inserted between the pages, none of the rows is returned twice or out of order. */
  lemma ItemsInOrder(tables: seq<set<Row>>, limit: nat, pages: seq<Page>)
    requires Walk(tables, limit, pages)
    ensures InOrder(pages)
  {
    forall k | 0 <= k < |pages| ensures Sorted(pages[k].items) {
      assert IsPage(tables[k], CursorAt(pages, k), limit, pages[k]);
    }
    hide Before, Below, IsPage, Walk, Sorted;
    forall j, k | 0 <= j < k < |pages| ensures AllBefore(pages[j].items, pages[k].items) {
      forall i, n | 0 <= i < |pages[j].items| && 0 <= n < |pages[k].items|
        ensures Before(pages[j].items[i], pages[k].items[n])
      {
        ItemIsBelow(tables, limit, pages, k, n);
        LaterIsAfter(tables, limit, pages, j, i, k, pages[k].items[n]);
      }
    }
  }

  /** Truncating a's timestamp does not hide b, which comes after a. */
  predicate SafePair(a: Row, b: Row) { Before(a, b) ==> Below(b, Some(MarkOf(a))) }

  predicate Safe(rows: set<Row>) { forall a <- rows, b <- rows :: SafePair(a, b) }

  /**
   * Exactly which pairs are hidden: a is not on a millisecond, and b, after a, is in the same one but not below its
   * start.
   */
  lemma HiddenIff(a: Row, b: Row)
    requires Before(a, b)
    ensures !SafePair(a, b) <==>
        a.ts % 1000 != 0 && a.ts - a.ts % 1000 <= b.ts && (b.ts == a.ts - a.ts % 1000 ==> b.id >= a.id)
  {
  }

  /** Whole milliseconds are safe. */
  lemma MillisecondsAreSafe(rows: set<Row>)
    requires forall r <- rows :: r.ts % 1000 == 0
    ensures Safe(rows)
  {
  }

  lemma {:induction false} SortedSet(rs: seq<Row>)
    requires Sorted(rs)
    ensures |set r | r in rs| == |rs|
  {
    if rs != [] {
      var n := |rs| - 1;
      var init := rs[..n];
      SortedSet(init);
      assert (set r | r in rs) == (set r | r in init) + {rs[n]};
      assert rs[n] !in init;
    }
  }

  /** A page without a cursor holds every candidate. */
  lemma LastPageHasAll(table: set<Row>, c: Option<Mark>, limit: nat, p: Page)
    requires IsPage(table, c, limit, p) && p.next.None?
    ensures forall r <- Candidates(table, c) :: r in p.items
  {
    SortedSet(p.items);
    var items := set r | r in p.items;
    CardinalityMonotone(items, Candidates(table, c));
  }

  /** On a safe table a candidate that is not on the page is still below the next cursor. */
  lemma NotSkipped(table: set<Row>, c: Option<Mark>, limit: nat, p: Page, r: Row)
    requires IsPage(table, c, limit, p) && p.next.Some? && Safe(table)
    requires r in Candidates(table, c) && r !in p.items
    ensures Below(r, p.next)
  {
    var last := p.items[|p.items| - 1];
    assert last in p.items && Before(last, r) && SafePair(last, r);
  }

  predicate ReturnedBy(pages: seq<Page>, k: nat, r: Row)
    requires k <= |pages|
  {
    exists j :: 0 <= j < k && r in pages[j].items
  }

  lemma SafeWithin(rows: set<Row>, more: set<Row>)
    requires rows <= more && Safe(more)
    ensures Safe(rows)
  {
    hide SafePair;
  }

  lemma StillBelow(tables: seq<set<Row>>, limit: nat, pages: seq<Page>, k: nat, r: Row)
    requires Walk(tables, limit, pages) && k < |pages| - 1 && Safe(tables[k])
    requires r in tables[k] && Below(r, CursorAt(pages, k)) && r !in pages[k].items
    ensures Below(r, CursorAt(pages, k + 1))
  {
    hide Below, Safe;
    assert IsPage(tables[k], CursorAt(pages, k), limit, pages[k]);
    hide IsPage;
    NotSkipped(tables[k], CursorAt(pages, k), limit, pages[k], r);
  }

  lemma BelowStart(r: Row)
    ensures Below(r, None)
  {
  }

  lemma WalkGrows(tables: seq<set<Row>>, limit: nat, pages: seq<Page>)
    requires Walk(tables, limit, pages)
    ensures |tables| == |pages| && Growing(tables)
    ensures CursorAt(pages, 0) == None
  {
    hide IsPage;
  }

  /** While the walk goes on, a row that was there at the start was returned or is still to come. */
  lemma {:induction false} ReturnedOrBelow(tables: seq<set<Row>>, limit: nat, pages: seq<Page>, k: nat, r: Row)
    requires Walk(tables, limit, pages) && k < |pages| && r in tables[0] && Safe(tables[|tables| - 1])
    ensures ReturnedBy(pages, k, r) || Below(r, CursorAt(pages, k))
    decreases k
  {
    BelowStart(r);
    hide IsPage, Safe, Walk, Below;
    WalkGrows(tables, limit, pages);
    if k > 0 {
      ReturnedOrBelow(tables, limit, pages, k - 1, r);
      assert r in tables[k - 1] && tables[k - 1] <= tables[|tables| - 1];
      if ReturnedBy(pages, k - 1, r) {
        var j :| 0 <= j < k - 1 && r in pages[j].items;
      } else if r !in pages[k - 1].items {
        SafeWithin(tables[k - 1], tables[|tables| - 1]);
        StillBelow(tables, limit, pages, k - 1, r);
      }
    }
  }

  /** Although rows are inserted between pages, a complete walk returns every row that was there at the start. */
  lemma WalkReturnsAll(tables: seq<set<Row>>, limit: nat, pages: seq<Page>, r: Row)
    requires Walk(tables, limit, pages) && Complete(pages) && r in tables[0] && Safe(tables[|tables| - 1])
    ensures ReturnedBy(pages, |pages|, r)
  {
    hide Safe, Below;
    var k := |pages| - 1;
    ReturnedOrBelow(tables, limit, pages, k, r);
    if ReturnedBy(pages, k, r) {
      var j :| 0 <= j < k && r in pages[j].items;
    } else {
      assert IsPage(tables[k], CursorAt(pages, k), limit, pages[k]);
      hide IsPage;
      LastPageHasAll(tables[k], CursorAt(pages, k), limit, pages[k]);
    }
  }

  // ------------------------------------------------------------ fixed tables

  predicate Fixed(tables: seq<set<Row>>, table: set<Row>) { forall k :: 0 <= k < |tables| ==> tables[k] == table }

  /** A later cursor leaves fewer candidates. */
  lemma FewerCandidates(table: set<Row>, c: Option<Mark>, last: Row)
    requires last in table && Below(last, c)
    ensures |Candidates(table, Some(MarkOf(last)))| < |Candidates(table, c)|
  {
    var before, after := Candidates(table, c), Candidates(table, Some(MarkOf(last)));
    forall r | r in after ensures r in before {
      BelowMarkIsAfter(r, last);
    }
    assert last in before && last !in after;
    CardinalityMonotone(after, before);
  }

  /** Every page with a successor uses up candidates, so a walk has at most one page more than rows. */
  lemma {:induction false} WalkIsFinite(tables: seq<set<Row>>, table: set<Row>, limit: nat, pages: seq<Page>, k: nat)
    requires Walk(tables, limit, pages) && Fixed(tables, table) && k < |pages|
    ensures k + |Candidates(table, CursorAt(pages, k))| <= |table|
    decreases k
  {
    hide Walk, Below;
    if k == 0 {
      CardinalityMonotone(Candidates(table, None), table);
    } else {
      WalkIsFinite(tables, table, limit, pages, k - 1);
      var last := LastBefore(tables, limit, pages, k);
      hide Candidates;
      FewerCandidates(table, CursorAt(pages, k - 1), last);
    }
  }

  /**
   * Page by page, a walk over a fixed table is the full sorted list: all rows, each once, in order, in finitely many
   * pages.
   */
  lemma WalkIsListing(tables: seq<set<Row>>, table: set<Row>, limit: nat, pages: seq<Page>)
    requires Walk(tables, limit, pages) && Fixed(tables, table) && Complete(pages) && Safe(table)
    ensures |pages| <= |table| + 1
    ensures forall r :: r in table <==> ReturnedBy(pages, |pages|, r)
    ensures InOrder(pages)
  {
    hide Safe, Below, IsPage, InOrder;
    WalkIsFinite(tables, table, limit, pages, |pages| - 1);
    ItemsInOrder(tables, limit, pages);
    forall r | r in table ensures ReturnedBy(pages, |pages|, r) {
      WalkReturnsAll(tables, limit, pages, r);
    }
    forall j, n | 0 <= j < |pages| && 0 <= n < |pages[j].items| ensures pages[j].items[n] in table {
      ItemIsBelow(tables, limit, pages, j, n);
    }
  }

  /**
   * Whenever a page ends at a, the row b that a's truncated timestamp hides is never returned, on that page or on
   * any other, whatever the page size.
   */
  lemma PageEndLoses(tables: seq<set<Row>>, limit: nat, pages: seq<Page>, j: nat, a: Row, b: Row)
    requires Walk(tables, limit, pages) && !SafePair(a, b)
    requires j < |pages| && pages[j].items != [] && pages[j].items[|pages[j].items| - 1] == a
    ensures !ReturnedBy(pages, |pages|, b)
  {
    ItemsInOrder(tables, limit, pages);
    hide *;
    forall k | 0 <= k < |pages| ensures b !in pages[k].items {
      if b in pages[k].items {
        var n :| 0 <= n < |pages[k].items| && pages[k].items[n] == b;
        if k <= j {
          BeforeTheEnd(pages, k, n, j);
          NotBoth(a, b);
        } else {
          NextAfter(tables, limit, pages, j, a, b);
          ItemIsBelow(tables, limit, pages, k, n);
          NeverBelow(tables, limit, pages, j + 1, k, b);
        }
      }
    }
    NotReturned(pages, b);
  }

  lemma NotReturned(pages: seq<Page>, b: Row)
    requires forall k :: 0 <= k < |pages| ==> b !in pages[k].items
    ensures !ReturnedBy(pages, |pages|, b)
  {
  }

  lemma NotBoth(a: Row, b: Row)
    requires !SafePair(a, b)
    ensures a != b && !Before(b, a)
  {
  }

  lemma NextAfter(tables: seq<set<Row>>, limit: nat, pages: seq<Page>, j: nat, a: Row, b: Row)
    requires Walk(tables, limit, pages) && !SafePair(a, b)
    requires j < |pages| - 1 && pages[j].items != [] && pages[j].items[|pages[j].items| - 1] == a
    ensures !Below(b, CursorAt(pages, j + 1))
  {
    hide Below, Growing, Sorted, Candidates;
    assert IsPage(tables[j], CursorAt(pages, j), limit, pages[j]) && pages[j].next.Some?;
  }

  lemma BeforeTheEnd(pages: seq<Page>, k: nat, n: nat, j: nat)
    requires InOrder(pages) && k <= j < |pages| && n < |pages[k].items| && pages[j].items != []
    ensures var b, a := pages[k].items[n], pages[j].items[|pages[j].items| - 1];
            b == a || Before(b, a)
  {
    hide Before;
    if k < j {
      assert AllBefore(pages[k].items, pages[j].items);
    } else {
      LastIsLast(pages[j].items, n);
    }
  }

  lemma {:induction false} NeverBelow(tables: seq<set<Row>>, limit: nat, pages: seq<Page>, m: nat, k: nat, b: Row)
    requires Walk(tables, limit, pages) && m <= k < |pages| && !Below(b, CursorAt(pages, m))
    ensures !Below(b, CursorAt(pages, k))
    decreases k
  {
    hide *;
    if m < k {
      NeverBelow(tables, limit, pages, m, k - 1, b);
      var last := LastBefore(tables, limit, pages, k);
      NotBelowLater(b, CursorAt(pages, k - 1), last);
    }
  }

  lemma NotBelowLater(b: Row, c: Option<Mark>, last: Row)
    requires !Below(b, c) && Below(last, c)
    ensures !Below(b, Some(MarkOf(last)))
  {
  }

  /** The rows up to and including a. */
  function UpTo(table: set<Row>, a: Row): set<Row> { set r | r in table && !Before(a, r) }

  /** So with as many rows on a page as there are up to a, the hidden row is lost for certain. */
  lemma UnsafePairIsLost(tables: seq<set<Row>>, table: set<Row>, limit: nat, pages: seq<Page>, a: Row, b: Row)
    requires Walk(tables, limit, pages) && Fixed(tables, table) && pages != []
    requires a in table && b in table && !SafePair(a, b) && limit == |UpTo(table, a)|
    ensures !ReturnedBy(pages, |pages|, b)
  {
    hide Below;
    assert IsPage(table, None, limit, pages[0]);
    FirstPageEndsAt(table, limit, pages[0], a, b);
    PageEndLoses(tables, limit, pages, 0, a, b);
  }

  /** The first page is exactly the rows up to a, so its cursor is the mark of a. */
  lemma FirstPageEndsAt(table: set<Row>, limit: nat, p: Page, a: Row, b: Row)
    requires IsPage(table, None, limit, p) && a in table && b in table && Before(a, b) && limit == |UpTo(table, a)|
    ensures p.items != [] && p.items[|p.items| - 1] == a
  {
    var up := UpTo(table, a);
    assert Candidates(table, None) == table && b !in up && a in up;
    CardinalityMonotone(up, table);
    assert |table| > limit;
    SortedSet(p.items);
    var on := set r | r in p.items;
    assert on == up by { FirstRows(table, p.items, a); }
    var last := p.items[limit - 1];
    assert last in on;
    var i :| 0 <= i < |p.items| && p.items[i] == a;
    LastIsLast(p.items, i);
  }

  /** As many rows as there are up to a, none of them after a row that was left out: they are the rows up to a. */
  lemma FirstRows(table: set<Row>, items: seq<Row>, a: Row)
    requires a in table && |set r | r in items| == |UpTo(table, a)|
    requires forall r <- items :: r in table
    requires forall r <- table, i <- items :: r in items || Before(i, r)
    ensures (set r | r in items) == UpTo(table, a)
  {
    var up, on := UpTo(table, a), set r | r in items;
    if a !in items {
      assert on <= up - {a};
      CardinalityMonotone(on, up - {a});
    } else {
      assert up <= on;
      CardinalityMonotone(up, on);
    }
  }

  lemma FirstExists(rows: set<Row>) returns (first: Row)
    requires rows != {}
    ensures first in rows && Leads(first, rows)
  {
    var x :| x in rows;
    if rows == {x} {
      first := x;
    } else {
      first := FirstExists(rows - {x});
      LeadsBoth(first, rows - {x}, x);
      assert (rows - {x}) + {x} == rows;
      if Before(x, first) {
        first := x;
      }
    }
  }

  lemma ListingExists(rows: set<Row>) returns (rs: seq<Row>)
    ensures Sorted(rs) && |rs| == |rows| && forall r :: r in rs <==> r in rows
  {
    if rows == {} {
      rs := [];
    } else {
      var first := FirstExists(rows);
      var rest := ListingExists(rows - {first});
      rs := [first] + rest;
    }
  }

  lemma PageExists(table: set<Row>, c: Option<Mark>, limit: nat) returns (p: Page)
    requires 1 <= limit
    ensures IsPage(table, c, limit, p)
  {
    var rs := ListingExists(Candidates(table, c));
    if |rs| <= limit {
      p := Page(rs, None);
    } else {
      var items := rs[..limit];
      p := Page(items, Some(MarkOf(items[limit - 1])));
      forall r, i | r in Candidates(table, c) && i in items ensures r in items || Before(i, r) {
        var m :| 0 <= m < |rs| && rs[m] == r;
        var n :| 0 <= n < limit && rs[n] == i;
        if m < limit {
          assert items[m] == r;
        }
      }
    }
  }

  lemma SomeWalk(table: set<Row>, limit: nat) returns (tables: seq<set<Row>>, pages: seq<Page>)
    requires 1 <= limit
    ensures Walk(tables, limit, pages) && Fixed(tables, table) && Complete(pages)
  {
    var p := PageExists(table, None, limit);
    tables, pages := [table], [p];
    while pages[|pages| - 1].next.Some?
      invariant pages != [] && Walk(tables, limit, pages) && Fixed(tables, table)
      decreases |table| + 1 - |pages|
    {
      WalkIsFinite(tables, table, limit, pages, |pages| - 1);
      var c := pages[|pages| - 1].next;
      p := PageExists(table, c, limit);
      WalkExtends(tables, table, limit, pages, p);
      tables, pages := tables + [table], pages + [p];
      WalkIsFinite(tables, table, limit, pages, |pages| - 1);
    }
  }

  lemma FixedGrows(tables: seq<set<Row>>, table: set<Row>)
    requires Fixed(tables, table)
    ensures Growing(tables)
  {
  }

  lemma WalkExtends(tables: seq<set<Row>>, table: set<Row>, limit: nat, pages: seq<Page>, p: Page)
    requires pages != [] && Walk(tables, limit, pages) && Fixed(tables, table)
    requires pages[|pages| - 1].next.Some? && IsPage(table, pages[|pages| - 1].next, limit, p)
    ensures Walk(tables + [table], limit, pages + [p]) && Fixed(tables + [table], table)
  {
    hide IsPage, Growing;
    var ts, ps := tables + [table], pages + [p];
    FixedGrows(ts, table);
    forall k | 0 <= k < |ps| ensures IsPage(ts[k], CursorAt(ps, k), limit, ps[k]) {
      if k < |pages| {
        assert CursorAt(ps, k) == CursorAt(pages, k);
      }
    }
  }

  /** A walk over the fixed table, to the end. */
  predicate FullWalk(tables: seq<set<Row>>, table: set<Row>, limit: nat, pages: seq<Page>) {
    1 <= limit && Walk(tables, limit, pages) && Fixed(tables, table) && Complete(pages)
  }

  predicate ReturnsAll(pages: seq<Page>, table: set<Row>) { forall r <- table :: ReturnedBy(pages, |pages|, r) }

  /** On pages of one row every row ends a page, so each unsafe pair loses a row. */
  lemma OneByOneLoses(tables: seq<set<Row>>, table: set<Row>, pages: seq<Page>, a: Row, b: Row)
    requires FullWalk(tables, table, 1, pages) && a in table && b in table && !SafePair(a, b)
    ensures !ReturnsAll(pages, table)
  {
    hide SafePair, IsPage, Growing, Fixed;
    if ReturnedBy(pages, |pages|, a) {
      var j :| 0 <= j < |pages| && a in pages[j].items;
      AtMostLimit(tables[j], CursorAt(pages, j), 1, pages[j]);
      PageEndLoses(tables, 1, pages, j, a, b);
    }
  }

  lemma AtMostLimit(table: set<Row>, c: Option<Mark>, limit: nat, p: Page)
    requires IsPage(table, c, limit, p)
    ensures |p.items| <= limit
  {
  }

  /** A fixed table is walked without loss, for every page size the schema accepts, exactly when it is safe. */
  lemma LosslessIff(table: set<Row>)
    ensures Safe(table) <==>
              forall tables, limit: nat, pages :: limit <= 1_000 && FullWalk(tables, table, limit, pages) ==>
                ReturnsAll(pages, table)
  {
    if Safe(table) {
      forall tables, limit: nat, pages | FullWalk(tables, table, limit, pages) ensures ReturnsAll(pages, table) {
        WalkIsListing(tables, table, limit, pages);
      }
    } else {
      var a, b :| a in table && b in table && !SafePair(a, b);
      var tables, pages := SomeWalk(table, 1);
      OneByOneLoses(tables, table, pages, a, b);
      assert FullWalk(tables, table, 1, pages) && !ReturnsAll(pages, table);
    }
  }

  // ------------------------------------------------------ cursors as text

  /** How timestamps and ids are written into a cursor, and how the database reads them back. */
  datatype Codec = Codec(showTs: int -> Lines.Bytes, readTs: Lines.Bytes -> Option<int>,
                         showId: nat -> Lines.Bytes, readId: Lines.Bytes -> Option<nat>, isDate: Lines.Bytes -> bool)

  predicate TsReadsBack(c: Codec, ts: int) {
    var s := c.showTs(ts);
    s != [] && Cursor.BAR !in s && c.isDate(s) && c.readTs(s) == Some(ts)
  }

  predicate IdReadsBack(c: Codec, id: nat) { c.showId(id) != [] && c.readId(c.showId(id)) == Some(id) }

  /** Whole milliseconds and ids read back as they were written, and a timestamp holds no bar. */
  ghost predicate ValidCodec(c: Codec) {
    && (forall ts :: ts % 1000 == 0 ==> TsReadsBack(c, ts))
    && (forall id :: IdReadsBack(c, id))
  }

  // Decimal numbers are such a codec.

  const ZERO: Lines.Byte := 48
  const MINUS: Lines.Byte := 45

  predicate IsDigit(d: Lines.Byte) { ZERO <= d <= ZERO + 9 }

  predicate Digits(s: Lines.Bytes) { forall i :: 0 <= i < |s| ==> IsDigit(s[i]) }

  predicate IsNumber(s: Lines.Bytes) { s != [] && Digits(s) }

  function ShowNat(n: nat): (s: Lines.Bytes)
    ensures IsNumber(s)
  {
    if n < 10 then [ZERO + n] else ShowNat(n / 10) + [ZERO + n % 10]
  }

  function Value(s: Lines.Bytes): nat
    requires Digits(s)
  {
    if s == [] then 0 else 10 * Value(s[..|s| - 1]) + (s[|s| - 1] - ZERO)
  }

  function ReadNat(s: Lines.Bytes): Option<nat> { if IsNumber(s) then Some(Value(s)) else None }

  function ShowInt(i: int): Lines.Bytes { if i < 0 then [MINUS] + ShowNat(-i) else ShowNat(i) }

  function ReadInt(s: Lines.Bytes): Option<int> {
    if s != [] && s[0] == MINUS then
      match ReadNat(s[1..])
      case None => None
      case Some(n) => var i: int := 0 - n; Some(i)
    else
      match ReadNat(s)
      case None => None
      case Some(n) => var i: int := n; Some(i)
  }

  const DECIMAL := Codec(ShowInt, ReadInt, ShowNat, ReadNat, s => ReadInt(s).Some?)

  lemma {:induction false} NatReadsBack(n: nat)
    ensures ReadNat(ShowNat(n)) == Some(n)
  {
    var s := ShowNat(n);
    if n < 10 {
      assert s[..0] == [] && Value([]) == 0;
    } else {
      NatReadsBack(n / 10);
      assert s[..|s| - 1] == ShowNat(n / 10);
    }
  }

  lemma IntReadsBack(i: int)
    ensures var s := ShowInt(i);
            s != [] && Cursor.BAR !in s && ReadInt(s) == Some(i)
  {
    hide ShowNat, ReadNat;
    var n := if i < 0 then -i else i;
    var s := ShowNat(n);
    NatReadsBack(n);
    assert IsDigit(s[0]) && ([MINUS] + s)[1..] == s;
    assert forall d <- s :: IsDigit(d);
  }

  /** So the lemmas about clients are not about nothing. */
  lemma DecimalIsValid()
    ensures ValidCodec(DECIMAL)
  {
    hide ShowNat, ReadNat, ShowInt, ReadInt;
    forall ts ensures TsReadsBack(DECIMAL, ts) {
      IntReadsBack(ts);
    }
    forall id ensures IdReadsBack(DECIMAL, id) {
      NatReadsBack(id);
    }
  }

  function CursorText(c: Codec, m: Mark): Lines.Bytes {
    Cursor.EncodeCursor(Cursor.Position(c.showTs(m.ts), c.showId(m.id)))
  }

  /** Where a request starts: at the top, at a mark, or nowhere, when the database cannot read a part. */
  datatype Given = Top | From(mark: Mark) | Unreadable

  /** A missing cursor and one that decodeCursor refuses both mean the top. */
  function GivenBy(c: Codec, raw: Option<Lines.Bytes>): Given {
    if raw.None? then Top
    else
      var p := Cursor.DecodeCursor(raw.value, c.isDate);
      if p.None? then Top
      else
        match (c.readTs(p.value.ts), c.readId(p.value.id))
        case (Some(ts), Some(id)) => From(Mark(ts, id))
        case _ => Unreadable
  }

  function MarkGiven(g: Given): Option<Mark> { if g.From? then Some(g.mark) else None }

  /** The cursor text of a row leads back to the row's mark. */
  lemma CursorTextReadsBack(c: Codec, r: Row)
    requires ValidCodec(c)
    ensures GivenBy(c, Some(CursorText(c, MarkOf(r)))) == From(MarkOf(r))
  {
    var m := MarkOf(r);
    assert TsReadsBack(c, m.ts) && IdReadsBack(c, m.id);
    hide Cursor.EncodeCursor, Cursor.DecodeCursor;
    Cursor.CursorRoundTripIff(Cursor.Position(c.showTs(m.ts), c.showId(m.id)), c.isDate);
  }

  datatype TextPage = TextPage(items: seq<Row>, next: Option<Lines.Bytes>)

  function Shown(c: Codec, p: Page): TextPage {
    TextPage(p.items, if p.next.Some? then Some(CursorText(c, p.next.value)) else None)
  }

  /** What the client gets for a cursor text. */
  ghost predicate IsTextPage(c: Codec, table: set<Row>, raw: Option<Lines.Bytes>, limit: nat, t: TextPage) {
    && GivenBy(c, raw) != Unreadable
    && exists p :: IsPage(table, MarkGiven(GivenBy(c, raw)), limit, p) && t == Shown(c, p)
  }

  /** The whole handler, from the cursor text to the next one. */
  method SearchText(c: Codec, table: set<Row>, raw: Option<Lines.Bytes>, limit: nat) returns (r: Option<TextPage>)
    requires 1 <= limit <= 1_000
    ensures r.Some? ==> IsTextPage(c, table, raw, limit, r.value)
    ensures r.None? <==> GivenBy(c, raw) == Unreadable
    ensures raw.Some? && Cursor.DecodeCursor(raw.value, c.isDate).None? ==>
        r.Some? && IsTextPage(c, table, None, limit, r.value)
  {
    hide IsPage, CursorText, Cursor.DecodeCursor;
    var given := GivenBy(c, raw);
    if given.Unreadable? {
      return None;
    }
    var p := Search(table, MarkGiven(given), limit);
    return Some(Shown(c, p));
  }

  function TextAt(ts: seq<TextPage>, k: nat): Option<Lines.Bytes>
    requires k <= |ts|
  {
    if k == 0 then None else ts[k - 1].next
  }

  /** A client that sends back each nextCursor as it got it. */
  ghost predicate TextWalk(c: Codec, tables: seq<set<Row>>, limit: nat, ts: seq<TextPage>) {
    && |tables| == |ts| && Growing(tables)
    && (forall k :: 0 <= k < |ts| ==> IsTextPage(c, tables[k], TextAt(ts, k), limit, ts[k]))
    && (forall k :: 0 <= k < |ts| - 1 ==> ts[k].next.Some?)
  }

  /** The first pages of a walk, and the text pages that show them. */
  ghost predicate ShownWalk(c: Codec, tables: seq<set<Row>>, limit: nat, ts: seq<TextPage>, pages: seq<Page>) {
    && |pages| <= |ts| == |tables|
    && forall k :: 0 <= k < |pages| ==>
        IsPage(tables[k], CursorAt(pages, k), limit, pages[k]) && ts[k] == Shown(c, pages[k])
  }

  /** The cursor text of a page with a successor leads to the mark it was made from. */
  lemma NextLeadsOn(c: Codec, table: set<Row>, mark: Option<Mark>, limit: nat, p: Page)
    requires ValidCodec(c) && IsPage(table, mark, limit, p)
    ensures MarkGiven(GivenBy(c, Shown(c, p).next)) == p.next
  {
    if p.next.Some? {
      var last := PageEnd(table, mark, limit, p);
      hide IsPage, CursorText, GivenBy, MarkOf;
      CursorTextReadsBack(c, last);
    }
  }

  /** Following the cursor texts is following the marks, so what is proved of walks holds for clients. */
  lemma TextWalkIsWalk(c: Codec, tables: seq<set<Row>>, limit: nat, ts: seq<TextPage>) returns (pages: seq<Page>)
    requires ValidCodec(c) && TextWalk(c, tables, limit, ts)
    ensures Walk(tables, limit, pages) && |pages| == |ts| && forall k :: 0 <= k < |ts| ==> ts[k] == Shown(c, pages[k])
  {
    hide IsPage, GivenBy, CursorText, ValidCodec, Growing;
    pages := [];
    while |pages| < |ts|
      invariant ShownWalk(c, tables, limit, ts, pages)
    {
      var k := |pages|;
      assert IsTextPage(c, tables[k], TextAt(ts, k), limit, ts[k]);
      var p :| IsPage(tables[k], MarkGiven(GivenBy(c, TextAt(ts, k))), limit, p) && ts[k] == Shown(c, p);
      if k > 0 {
        NextLeadsOn(c, tables[k - 1], CursorAt(pages, k - 1), limit, pages[k - 1]);
      } else {
        NoTextIsTop(c);
      }
      ShownWalkGrows(c, tables, limit, ts, pages, p);
      pages := pages + [p];
    }
  }

  lemma NoTextIsTop(c: Codec)
    ensures MarkGiven(GivenBy(c, None)) == None
  {
  }

  lemma ShownWalkGrows(c: Codec, tables: seq<set<Row>>, limit: nat, ts: seq<TextPage>, pages: seq<Page>, p: Page)
    requires ShownWalk(c, tables, limit, ts, pages) && |pages| < |ts|
    requires IsPage(tables[|pages|], CursorAt(pages, |pages|), limit, p) && ts[|pages|] == Shown(c, p)
    ensures ShownWalk(c, tables, limit, ts, pages + [p])
  {
    hide IsPage, CursorText;
    var more := pages + [p];
    forall k | 0 <= k < |more| ensures IsPage(tables[k], CursorAt(more, k), limit, more[k]) &&
        ts[k] == Shown(c, more[k]) {
      assert CursorAt(more, k) == CursorAt(pages, k);
    }
  }

  /** A client that follows the cursors of a fixed safe table to the end has read its full sorted list. */
  lemma ClientReadsListing(c: Codec, tables: seq<set<Row>>, table: set<Row>, limit: nat, ts: seq<TextPage>)
    requires ValidCodec(c) && TextWalk(c, tables, limit, ts) && Fixed(tables, table) && Safe(table)
    requires ts != [] && ts[|ts| - 1].next.None?
    ensures |ts| <= |table| + 1
    ensures forall r :: r in table <==> exists j :: 0 <= j < |ts| && r in ts[j].items
    ensures forall j, k :: 0 <= j < k < |ts| ==> AllBefore(ts[j].items, ts[k].items)
    ensures forall j :: 0 <= j < |ts| ==> Sorted(ts[j].items)
  {
    hide Walk, Safe, ValidCodec, TextWalk, CursorText, AllBefore, Sorted;
    var pages := TextWalkIsWalk(c, tables, limit, ts);
    WalkIsListing(tables, table, limit, pages);
    forall r ensures ReturnedBy(pages, |pages|, r) <==> exists j :: 0 <= j < |ts| && r in ts[j].items {
      if j :| 0 <= j < |ts| && r in ts[j].items {
        assert r in pages[j].items;
      }
      if ReturnedBy(pages, |pages|, r) {
        var j :| 0 <= j < |pages| && r in pages[j].items;
        assert r in ts[j].items;
      }
    }
  }
}
