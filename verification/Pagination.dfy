/** data-product-api-service: keyset pagination, from the SQL of
    infrastructure/persistence/postgres-serving-store.ts to the cursors of
    application/services/event-performance-query.service.ts. */
module Pagination {
  import opened Options
  import opened Json
  import opened StableSort
  import QueryPolicy

  /** A row of the result set by column; a value is its place in the column's order. */
  type Row = map<Text, int>

  function Column(row: Row, field: Text): int { if field in row then row[field] else 0 }

  function SortKey(row: Row, sort: seq<Text>): (key: seq<int>)
    ensures |key| == |sort| && forall i :: 0 <= i < |sort| ==> key[i] == Column(row, sort[i])
  {
    if sort == [] then [] else [Column(row, sort[0])] + SortKey(row, sort[1..])
  }

  /** ORDER BY c1 ASC, c2 ASC, ... */
  predicate Ahead(a: seq<int>, b: seq<int>)
    requires |a| == |b|
  {
    a != [] && (a[0] < b[0] || (a[0] == b[0] && Ahead(a[1..], b[1..])))
  }

  /** (c1 > v1) OR (c1 = v1 AND c2 > v2) OR ... */
  predicate Keyset(last: seq<int>, key: seq<int>)
    requires |last| == |key|
  {
    exists i :: 0 <= i < |key| && Disjunct(last, key, i)
  }

  predicate Disjunct(last: seq<int>, key: seq<int>, i: nat)
    requires |last| == |key| && i < |key|
  {
    key[i] > last[i] && forall j :: 0 <= j < i ==> key[j] == last[j]
  }

  /** The keyset condition means: later in the ORDER BY. */
  lemma {:induction false} KeysetIsAhead(last: seq<int>, key: seq<int>)
    requires |last| == |key|
    ensures Keyset(last, key) <==> Ahead(last, key)
  {
    if key != [] {
      KeysetIsAhead(last[1..], key[1..]);
      if last[0] < key[0] {
        assert Disjunct(last, key, 0);
      } else if last[0] == key[0] {
        if i :| 0 <= i < |key| && Disjunct(last, key, i) {
          assert Disjunct(last[1..], key[1..], i - 1);
        }
        if i :| 0 <= i < |key[1..]| && Disjunct(last[1..], key[1..], i) {
          assert forall j :: 0 < j < i + 1 ==> key[j] == key[1..][j - 1] && last[j] == last[1..][j - 1];
          assert Disjunct(last, key, i + 1);
        }
      }
    }
  }

  lemma {:induction false} AheadTotal(a: seq<int>, b: seq<int>)
    requires |a| == |b|
    ensures !(Ahead(a, b) && Ahead(b, a)) && (a == b || Ahead(a, b) || Ahead(b, a)) && !Ahead(a, a)
  {
    if a != [] {
      AheadTotal(a[1..], b[1..]);
      AheadTotal(a[1..], a[1..]);
      assert a == [a[0]] + a[1..] && b == [b[0]] + b[1..];
    }
  }

  lemma {:induction false} AheadTransitive(a: seq<int>, b: seq<int>, c: seq<int>)
    requires |a| == |b| == |c| && Ahead(a, b) && Ahead(b, c)
    ensures Ahead(a, c)
  {
    if a[0] == b[0] == c[0] {
      AheadTransitive(a[1..], b[1..], c[1..]);
    }
  }

  function Order(sort: seq<Text>): (Row, Row) -> bool {
    (a: Row, b: Row) => !Ahead(SortKey(b, sort), SortKey(a, sort))
  }

  lemma OrderTotal(sort: seq<Text>)
    ensures TotalPreorder(Order(sort))
  {
    var leq := Order(sort);
    forall a, b ensures leq(a, b) || leq(b, a) {
      AheadTotal(SortKey(a, sort), SortKey(b, sort));
    }
    forall a, b, c | leq(a, b) && leq(b, c) ensures leq(a, c) {
      var x, y, z := SortKey(a, sort), SortKey(b, sort), SortKey(c, sort);
      AheadTotal(x, y);
      AheadTotal(y, z);
      AheadTotal(x, z);
      if Ahead(x, y) && Ahead(y, z) {
        AheadTransitive(x, y, z);
      }
    }
  }

  // ------------------------------------------------------------ pages

  predicate After(last: seq<int>, row: Row, sort: seq<Text>) {
    |last| == |sort| && Keyset(last, SortKey(row, sort))
  }

  /** The WHERE clause a cursor adds. */
  function Matching(rows: seq<Row>, sort: seq<Text>, cursor: Option<seq<int>>): seq<Row> {
    match cursor
    case None => rows
    case Some(last) => Filter(rows, (r: Row) => After(last, r, sort))
  }

  /** Rows in an order the query may return them in: ties in any order, another each time. */
  ghost predicate Answer(rows: seq<Row>, sort: seq<Text>, cursor: Option<seq<int>>, out: seq<Row>) {
    Sorted(out, Order(sort)) && multiset(out) == multiset(Matching(rows, sort, cursor))
  }

  /** The pages of a client that follows nextCursor to the end: each asks for one row more
      than a page, and there is a next page exactly when that row came. */
  ghost predicate Crawl(rows: seq<Row>, sort: seq<Text>, size: nat, cursor: Option<seq<int>>, pages: seq<seq<Row>>)
    requires size > 0
    decreases |pages|
  {
    pages != [] && exists out :: Answer(rows, sort, cursor, out) && Turn(rows, sort, size, out, pages)
  }

  ghost predicate Turn(rows: seq<Row>, sort: seq<Text>, size: nat, out: seq<Row>, pages: seq<seq<Row>>)
    requires size > 0 && pages != []
    decreases |pages|, 0
  {
    if |out| > size then
      pages[0] == out[..size] && Crawl(rows, sort, size, Some(SortKey(out[size - 1], sort)), pages[1..])
    else pages == [out]
  }

  function Flatten(pages: seq<seq<Row>>): seq<Row> {
    if pages == [] then [] else pages[0] + Flatten(pages[1..])
  }

  // ------------------------------------------------------------ rows without ties

  /** No two rows tie under the sort. */
  predicate Separated(rows: seq<Row>, sort: seq<Text>) {
    forall i, j :: 0 <= i < j < |rows| ==> SortKey(rows[i], sort) != SortKey(rows[j], sort)
  }

  ghost predicate SeparatedContents(rows: multiset<Row>, sort: seq<Text>) {
    forall a, b :: a in rows && b in rows && SortKey(a, sort) == SortKey(b, sort) ==> a == b && rows[a] == 1
  }

  lemma {:induction false} TwoPlaces(rows: seq<Row>, r: Row) returns (i: nat, j: nat)
    requires multiset(rows)[r] >= 2
    ensures i < j < |rows| && rows[i] == r && rows[j] == r
  {
    assert rows == [rows[0]] + rows[1..];
    if rows[0] == r {
      assert r in multiset(rows[1..]);
      var k :| 0 <= k < |rows[1..]| && rows[1..][k] == r;
      i, j := 0, k + 1;
    } else {
      var a, b := TwoPlaces(rows[1..], r);
      i, j := a + 1, b + 1;
    }
  }

  lemma SamePlaceTwice(rows: seq<Row>, i: nat, j: nat)
    requires i < j < |rows| && rows[i] == rows[j]
    ensures multiset(rows)[rows[i]] >= 2
  {
    assert rows == rows[..j] + rows[j..];
    assert rows[..j][i] in multiset(rows[..j]) && rows[j..][0] in multiset(rows[j..]);
  }

  lemma SeparatedIff(rows: seq<Row>, sort: seq<Text>)
    ensures Separated(rows, sort) <==> SeparatedContents(multiset(rows), sort)
  {
    if Separated(rows, sort) {
      forall a, b | a in multiset(rows) && b in multiset(rows) && SortKey(a, sort) == SortKey(b, sort)
        ensures a == b && multiset(rows)[a] == 1
      {
        var i, j :| 0 <= i < |rows| && rows[i] == a && 0 <= j < |rows| && rows[j] == b;
        if multiset(rows)[a] >= 2 {
          var k, l := TwoPlaces(rows, a);
        }
      }
    }
    if SeparatedContents(multiset(rows), sort) {
      forall i, j | 0 <= i < j < |rows| ensures SortKey(rows[i], sort) != SortKey(rows[j], sort) {
        assert rows[i] in multiset(rows) && rows[j] in multiset(rows);
        if rows[i] == rows[j] {
          SamePlaceTwice(rows, i, j);
        }
      }
    }
  }

  /** Sorted without ties is strictly ahead all along. */
  predicate StrictlySorted(rows: seq<Row>, sort: seq<Text>) {
    forall i, j :: 0 <= i < j < |rows| ==> Ahead(SortKey(rows[i], sort), SortKey(rows[j], sort))
  }

  lemma SortedIsStrict(rows: seq<Row>, sort: seq<Text>)
    requires Sorted(rows, Order(sort)) && Separated(rows, sort)
    ensures StrictlySorted(rows, sort)
  {
    forall i, j | 0 <= i < j < |rows| ensures Ahead(SortKey(rows[i], sort), SortKey(rows[j], sort)) {
      assert Order(sort)(rows[i], rows[j]);
      AheadTotal(SortKey(rows[i], sort), SortKey(rows[j], sort));
    }
  }

  lemma StrictIsSeparated(rows: seq<Row>, sort: seq<Text>)
    requires StrictlySorted(rows, sort)
    ensures Separated(rows, sort)
  {
    forall i, j | 0 <= i < j < |rows| ensures SortKey(rows[i], sort) != SortKey(rows[j], sort) {
      AheadTotal(SortKey(rows[i], sort), SortKey(rows[j], sort));
    }
  }

  /** Rows without ties have one order. */
  lemma {:induction false} OneOrder(a: seq<Row>, b: seq<Row>, sort: seq<Text>)
    requires StrictlySorted(a, sort) && StrictlySorted(b, sort) && multiset(a) == multiset(b)
    ensures a == b
  {
    hide Ahead, SortKey;
    SameElements(a, b);
    if a != [] {
      assert a[0] in a && b[0] in b;
      assert a[0] in b && b[0] in a;
      HeadsMeet(a, b, sort);
      SameTails(a, b);
      OneOrder(a[1..], b[1..], sort);
      assert a == [a[0]] + a[1..] && b == [b[0]] + b[1..];
    }
  }

  lemma HeadsMeet(a: seq<Row>, b: seq<Row>, sort: seq<Text>)
    requires StrictlySorted(a, sort) && StrictlySorted(b, sort)
    requires a != [] && b != [] && a[0] in b && b[0] in a
    ensures a[0] == b[0]
  {
    hide Ahead, SortKey;
    var i :| 0 <= i < |b| && b[i] == a[0];
    var j :| 0 <= j < |a| && a[j] == b[0];
    if i > 0 && j > 0 {
      AheadTotal(SortKey(a[0], sort), SortKey(b[0], sort));
    }
  }

  /** In a strictly sorted list, the rows after one are those that follow it. */
  lemma {:induction false} AfterIsSuffix(full: seq<Row>, sort: seq<Text>, k: nat)
    requires StrictlySorted(full, sort) && 0 < k <= |full|
    ensures Matching(full, sort, Some(SortKey(full[k - 1], sort))) == full[k..]
  {
    var last := SortKey(full[k - 1], sort);
    var keep := (r: Row) => After(last, r, sort);
    forall r | r in full[..k] ensures !keep(r) {
      var i :| 0 <= i < k && full[i] == r;
      KeysetIsAhead(last, SortKey(r, sort));
      AheadTotal(last, SortKey(r, sort));
    }
    forall r | r in full[k..] ensures keep(r) {
      var i :| k <= i < |full| && full[i] == r;
      KeysetIsAhead(last, SortKey(r, sort));
    }
    assert full == full[..k] + full[k..];
    FilterAppend(full[..k], full[k..], keep);
    FilterNone(full[..k], keep);
    FilterAll(full[k..], keep);
  }

  // ------------------------------------------------------------ what a crawl delivers

  /** Where a crawl that has delivered the first k rows stands. */
  function CursorAt(full: seq<Row>, sort: seq<Text>, k: nat): Option<seq<int>>
    requires k <= |full|
  {
    if k == 0 then None else Some(SortKey(full[k - 1], sort))
  }

  /** With no ties the next answer is exactly the rest of the list. */
  lemma AnswerIsRest(rows: seq<Row>, full: seq<Row>, sort: seq<Text>, k: nat, out: seq<Row>)
    requires multiset(full) == multiset(rows) && StrictlySorted(full, sort) && k <= |full|
    requires Answer(rows, sort, CursorAt(full, sort, k), out)
    ensures out == full[k..]
  {
    hide Ahead, SortKey, Filter;
    StrictIsSeparated(full, sort);
    if k > 0 {
      var last := SortKey(full[k - 1], sort);
      FilterSameContents(rows, full, (r: Row) => After(last, r, sort));
      AfterIsSuffix(full, sort, k);
    }
    assert full[0..] == full;
    assert multiset(out) == multiset(full[k..]);
    RestSeparated(full, sort, k);
    SeparatedIff(full[k..], sort);
    SeparatedIff(out, sort);
    SortedIsStrict(out, sort);
    OneOrder(out, full[k..], sort);
  }

  lemma RestSeparated(full: seq<Row>, sort: seq<Text>, k: nat)
    requires StrictlySorted(full, sort) && k <= |full|
    ensures StrictlySorted(full[k..], sort) && Separated(full[k..], sort)
  {
    hide Ahead, SortKey;
    assert forall i :: 0 <= i < |full| - k ==> full[k..][i] == full[k + i];
    StrictIsSeparated(full[k..], sort);
  }

  lemma {:induction false} CrawlIsRest(rows: seq<Row>, full: seq<Row>, sort: seq<Text>, size: nat, k: nat,
                                       pages: seq<seq<Row>>)
    requires size > 0 && multiset(full) == multiset(rows) && StrictlySorted(full, sort) && k <= |full|
    requires Crawl(rows, sort, size, CursorAt(full, sort, k), pages)
    ensures Flatten(pages) == full[k..]
    ensures forall i :: 0 <= i < |pages| - 1 ==> |pages[i]| == size
    decreases |pages|
  {
    hide Ahead, SortKey, Answer, StrictlySorted;
    var out :| Answer(rows, sort, CursorAt(full, sort, k), out) && Turn(rows, sort, size, out, pages);
    AnswerIsRest(rows, full, sort, k, out);
    if |out| > size {
      assert out[size - 1] == full[k + size - 1];
      CrawlIsRest(rows, full, sort, size, k + size, pages[1..]);
      assert full[k..] == full[k..][..size] + full[k + size..];
    } else {
      assert Flatten(pages) == pages[0] + Flatten([]);
    }
  }

  /** When no two rows tie, following the cursors delivers every row exactly once, in order,
      in full pages but for the last; whatever the page size. */
  lemma CrawlDelivers(rows: seq<Row>, sort: seq<Text>, size: nat, pages: seq<seq<Row>>)
    requires size > 0 && Separated(rows, sort) && Crawl(rows, sort, size, None, pages)
    ensures Flatten(pages) == Sort(rows, Order(sort)) && multiset(Flatten(pages)) == multiset(rows)
    ensures forall i :: 0 <= i < |pages| - 1 ==> |pages[i]| == size
  {
    hide Crawl;
    var full := Sort(rows, Order(sort));
    OrderTotal(sort);
    SortSorts(rows, Order(sort));
    SeparatedIff(rows, sort);
    SeparatedIff(full, sort);
    SortedIsStrict(full, sort);
    CrawlIsRest(rows, full, sort, size, 0, pages);
    assert full[0..] == full;
  }

  // ------------------------------------------------------------ ties

  lemma AnswerIsAfter(rows: seq<Row>, sort: seq<Text>, last: seq<int>, out: seq<Row>)
    requires Answer(rows, sort, Some(last), out)
    ensures forall r :: r in out ==> After(last, r, sort)
  {
    hide After, Sorted;
    FilterMembers(rows, (r: Row) => After(last, r, sort));
    SameElements(out, Matching(rows, sort, Some(last)));
  }

  lemma AfterChains(a: seq<int>, first: Row, r: Row, sort: seq<Text>)
    requires After(a, first, sort) && After(SortKey(first, sort), r, sort)
    ensures After(a, r, sort) && Ahead(SortKey(first, sort), SortKey(r, sort))
  {
    hide Ahead, SortKey, Keyset;
    var last, key := SortKey(first, sort), SortKey(r, sort);
    KeysetIsAhead(a, last);
    KeysetIsAhead(last, key);
    AheadTransitive(a, last, key);
    KeysetIsAhead(a, key);
  }

  lemma AfterIsAhead(first: Row, r: Row, sort: seq<Text>)
    requires After(SortKey(first, sort), r, sort)
    ensures Ahead(SortKey(first, sort), SortKey(r, sort))
  {
    hide Ahead, SortKey, Keyset;
    KeysetIsAhead(SortKey(first, sort), SortKey(r, sort));
  }

  /** One row a page: each is strictly after the one before. */
  lemma {:induction false} SingleSteps(rows: seq<Row>, sort: seq<Text>, cursor: Option<seq<int>>, pages: seq<seq<Row>>)
    requires Crawl(rows, sort, 1, cursor, pages)
    ensures StrictlySorted(Flatten(pages), sort)
    ensures cursor.Some? ==> forall r :: r in Flatten(pages) ==> After(cursor.value, r, sort)
    decreases |pages|
  {
    hide Ahead, SortKey, Sorted, After, Matching, Answer;
    var out :| Answer(rows, sort, cursor, out) && Turn(rows, sort, 1, out, pages);
    if cursor.Some? {
      AnswerIsAfter(rows, sort, cursor.value, out);
    }
    if |out| > 1 {
      var first, rest := out[0], Flatten(pages[1..]);
      var last := SortKey(first, sort);
      SingleSteps(rows, sort, Some(last), pages[1..]);
      assert pages[0] == [first];
      forall r | r in rest ensures Ahead(last, SortKey(r, sort)) {
        AfterIsAhead(first, r, sort);
      }
      StrictCons(first, rest, sort);
      if cursor.Some? {
        assert first in out;
        forall r | r in rest ensures After(cursor.value, r, sort) {
          AfterChains(cursor.value, first, r, sort);
        }
      }
    } else {
      assert Flatten(pages) == out + Flatten([]);
    }
  }

  lemma StrictCons(first: Row, rest: seq<Row>, sort: seq<Text>)
    requires StrictlySorted(rest, sort) && forall r :: r in rest ==> Ahead(SortKey(first, sort), SortKey(r, sort))
    ensures StrictlySorted([first] + rest, sort)
  {
    hide Ahead, SortKey;
  }

  /** So two rows that tie are never both delivered. */
  lemma TiesAreLost(rows: seq<Row>, sort: seq<Text>, pages: seq<seq<Row>>)
    requires Crawl(rows, sort, 1, None, pages) && !Separated(rows, sort)
    ensures multiset(Flatten(pages)) != multiset(rows)
  {
    hide Crawl;
    SingleSteps(rows, sort, None, pages);
    StrictIsSeparated(Flatten(pages), sort);
    SeparatedIff(Flatten(pages), sort);
    SeparatedIff(rows, sort);
  }

  lemma {:induction false} FilterShrinks(rows: seq<Row>, keep: Row -> bool, wider: Row -> bool, x: Row)
    requires (forall r :: keep(r) ==> wider(r)) && x in rows && wider(x) && !keep(x)
    ensures |Filter(rows, keep)| < |Filter(rows, wider)|
  {
    if x in rows[1..] {
      FilterShrinks(rows[1..], keep, wider, x);
    } else {
      FilterNoMore(rows[1..], keep, wider);
    }
  }

  lemma {:induction false} FilterNoMore(rows: seq<Row>, keep: Row -> bool, wider: Row -> bool)
    requires forall r :: keep(r) ==> wider(r)
    ensures |Filter(rows, keep)| <= |Filter(rows, wider)|
  {
    if rows != [] {
      FilterNoMore(rows[1..], keep, wider);
    }
  }

  lemma {:induction false} FilterLength(rows: seq<Row>, keep: Row -> bool)
    ensures |Filter(rows, keep)| <= |rows| && (Filter(rows, keep) == rows || |Filter(rows, keep)| < |rows|)
  {
    if rows != [] {
      FilterLength(rows[1..], keep);
    }
  }

  /** A row the cursor points at is not returned again. */
  lemma MatchingShrinks(rows: seq<Row>, sort: seq<Text>, cursor: Option<seq<int>>, row: Row)
    requires row in Matching(rows, sort, cursor)
    ensures |Matching(rows, sort, Some(SortKey(row, sort)))| < |Matching(rows, sort, cursor)|
  {
    hide Ahead, SortKey, Keyset;
    var last := SortKey(row, sort);
    var keep := (r: Row) => After(last, r, sort);
    KeysetIsAhead(last, last);
    AheadTotal(last, last);
    match cursor
    case None =>
      FilterMembers(rows, keep);
      FilterLength(rows, keep);
    case Some(before) =>
      var wider := (r: Row) => After(before, r, sort);
      FilterMembers(rows, wider);
      forall r | keep(r) ensures wider(r) {
        KeysetIsAhead(before, last);
        KeysetIsAhead(last, SortKey(r, sort));
        AheadTransitive(before, last, SortKey(r, sort));
        KeysetIsAhead(before, SortKey(r, sort));
      }
      FilterShrinks(rows, keep, wider, row);
  }

  /** A client always gets to the end. */
  lemma {:induction false} CrawlExists(rows: seq<Row>, sort: seq<Text>, size: nat,
                                       cursor: Option<seq<int>>) returns (pages: seq<seq<Row>>)
    requires size > 0
    ensures Crawl(rows, sort, size, cursor, pages)
    decreases |Matching(rows, sort, cursor)|
  {
    hide Ahead, SortKey, Matching, Sort, Sorted;
    var matching := Matching(rows, sort, cursor);
    var out := Sort(matching, Order(sort));
    OrderTotal(sort);
    SortSorts(matching, Order(sort));
    assert Answer(rows, sort, cursor, out);
    if |out| > size {
      var row := out[size - 1];
      assert row in multiset(out);
      MatchingShrinks(rows, sort, cursor, row);
      var rest := CrawlExists(rows, sort, size, Some(SortKey(row, sort)));
      pages := [out[..size]] + rest;
      assert pages[1..] == rest;
    } else {
      pages := [out];
    }
    assert Turn(rows, sort, size, out, pages);
  }

  /** Paging is complete for every page size exactly when no two rows tie under the sort. */
  lemma PagingCompleteIff(rows: seq<Row>, sort: seq<Text>)
    ensures (forall size: nat, pages ::
               size > 0 && Crawl(rows, sort, size, None, pages) ==> multiset(Flatten(pages)) == multiset(rows))
            <==> Separated(rows, sort)
  {
    hide Crawl, Separated;
    if Separated(rows, sort) {
      forall size: nat, pages | size > 0 && Crawl(rows, sort, size, None, pages)
        ensures multiset(Flatten(pages)) == multiset(rows)
      {
        CrawlDelivers(rows, sort, size, pages);
      }
    } else {
      var pages := CrawlExists(rows, sort, 1, None);
      TiesAreLost(rows, sort, pages);
    }
  }

  lemma TieStays(a: Row, b: Row, requested: seq<Text>, defaults: seq<Text>)
    requires var full := QueryPolicy.Complete(requested, defaults); SortKey(a, full) == SortKey(b, full)
    ensures SortKey(a, defaults) == SortKey(b, defaults)
  {
    var full := QueryPolicy.Complete(requested, defaults);
    var x, y := (f: Text) => Column(a, f), (f: Text) => Column(b, f);
    forall f | f in full ensures x(f) == y(f) {
      var k :| 0 <= k < |full| && full[k] == f;
      assert SortKey(a, full)[k] == SortKey(b, full)[k];
    }
    QueryPolicy.TiesAgreeOnDefaults(requested, defaults, x, y);
    assert forall k :: 0 <= k < |defaults| ==>
      SortKey(a, defaults)[k] == x(defaults[k]) && SortKey(b, defaults)[k] == y(defaults[k]);
  }

  /** The sort completion is what rules ties out: if the default fields tell rows apart, so
      does any completed sort. */
  lemma CompletedSortSeparates(rows: seq<Row>, requested: seq<Text>, defaults: seq<Text>)
    requires Separated(rows, defaults)
    ensures Separated(rows, QueryPolicy.Complete(requested, defaults))
  {
    hide SortKey, QueryPolicy.Complete;
    var full := QueryPolicy.Complete(requested, defaults);
    forall i, j | 0 <= i < j < |rows| ensures SortKey(rows[i], full) != SortKey(rows[j], full) {
      if SortKey(rows[i], full) == SortKey(rows[j], full) {
        TieStays(rows[i], rows[j], requested, defaults);
      }
    }
  }
}
