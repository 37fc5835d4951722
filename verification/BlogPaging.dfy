/** Keyset pagination of the public blog list (src/blog/blog.service.ts:380-558). */
module BlogPaging {
  import opened Wrappers

  /** `id` stands for the row's place in the database's id order. */
  datatype Blog = Blog(id: int, publishedAt: int, published: bool, isDeleted: bool, text: string)

  datatype SortOrder = Asc | Desc

  datatype Cursor = Cursor(publishedAt: int, id: int)

  /** The `cursor` parameter after base64 and JSON decoding; fields the object lacks are `None`. */
  datatype CursorText = NoCursor | Undecodable | Decoded(publishedAt: Option<int>, id: Option<int>)

  datatype BlogError = InvalidCursor

  datatype Response = Response(data: seq<Blog>, nextCursor: Option<Cursor>, total: Option<nat>)

  // ---------------------------------------------------------------- The query

  predicate Visible(b: Blog, search: Blog -> bool) {
    b.published && !b.isDeleted && search(b)
  }

  /** The keyset condition for rows after the cursor. */
  predicate Past(order: SortOrder, c: Cursor, b: Blog) {
    match order
    case Desc => b.publishedAt < c.publishedAt || (b.publishedAt == c.publishedAt && b.id < c.id)
    case Asc => b.publishedAt > c.publishedAt || (b.publishedAt == c.publishedAt && b.id > c.id)
  }

  function KeyOf(b: Blog): Cursor {
    Cursor(b.publishedAt, b.id)
  }

  /** `a` is listed before `b`: the sort key, then the id, both in the requested direction. */
  predicate Before(order: SortOrder, a: Blog, b: Blog) {
    Past(order, KeyOf(a), b)
  }

  function Matching(table: seq<Blog>, search: Blog -> bool, order: SortOrder, cursor: Option<Cursor>): seq<Blog> {
    if table == [] then []
    else
      var b := table[0];
      (if Visible(b, search) && (cursor.None? || Past(order, cursor.value, b)) then [b] else [])
      + Matching(table[1..], search, order, cursor)
  }

  function Insert(order: SortOrder, b: Blog, s: seq<Blog>): seq<Blog> {
    if s == [] || Before(order, b, s[0]) then [b] + s else [s[0]] + Insert(order, b, s[1..])
  }

  /** `orderBy`. */
  function Sorted(order: SortOrder, rows: seq<Blog>): seq<Blog> {
    if rows == [] then [] else Insert(order, rows[0], Sorted(order, rows[1..]))
  }

  function Listing(table: seq<Blog>, search: Blog -> bool, order: SortOrder, cursor: Option<Cursor>): seq<Blog> {
    Sorted(order, Matching(table, search, order, cursor))
  }

  function Take(s: seq<Blog>, skip: nat, limit: nat): seq<Blog> {
    var from := Min(skip, |s|);
    s[from..Min(from + limit, |s|)]
  }

  function NextCursor(data: seq<Blog>, limit: nat): Option<Cursor>
    requires limit >= 1
  {
    if |data| == limit then Some(KeyOf(data[|data| - 1])) else None
  }

  function GetPublicBlogs(table: seq<Blog>, search: Blog -> bool, order: SortOrder, cursor: CursorText, page: nat,
                          limit: nat)
    : Result<Response, BlogError>
    requires page >= 1 && limit >= 1
  {
    match cursor
    case NoCursor =>
      var list := Listing(table, search, order, None);
      var data := Take(list, (page - 1) * limit, limit);
      Success(Response(data, NextCursor(data, limit), Some(|list|)))
    case Undecodable => Failure(InvalidCursor)
    case Decoded(publishedAt, id) =>
      if publishedAt.None? || id.None? then Failure(InvalidCursor)
      else
        var data := PageAfter(table, search, order, Some(Cursor(publishedAt.value, id.value)), limit);
        Success(Response(data, NextCursor(data, limit), None))
  }

  function PageAfter(table: seq<Blog>, search: Blog -> bool, order: SortOrder, cursor: Option<Cursor>,
                     limit: nat): seq<Blog> {
    Take(Listing(table, search, order, cursor), 0, limit)
  }

  /** The `cursor` parameter a client sends back: what it was given, decoded. */
  function TextOf(cursor: Option<Cursor>): CursorText {
    match cursor
    case None => NoCursor
    case Some(c) => Decoded(Some(c.publishedAt), Some(c.id))
  }

  /** A first request and a request with a cursor the service gave out answer with the page after that point. */
  lemma RequestIsPage(table: seq<Blog>, search: Blog -> bool, order: SortOrder, cursor: Option<Cursor>, limit: nat)
    requires limit >= 1
    ensures var r := GetPublicBlogs(table, search, order, TextOf(cursor), 1, limit);
            && r.Success? && r.value.data == PageAfter(table, search, order, cursor, limit)
            && (r.value.nextCursor.Some? <==> |r.value.data| == limit)
            && (r.value.nextCursor.Some? ==> r.value.nextCursor == Some(KeyOf(r.value.data[limit - 1])))
            && r.value.total == if cursor.None? then Some(|Listing(table, search, order, None)|) else None
  {
    assert Take(Listing(table, search, order, cursor), (1 - 1) * limit, limit)
        == PageAfter(table, search, order, cursor, limit);
  }

  // ---------------------------------------------------------------- Sorting

  ghost predicate StrictlySorted(order: SortOrder, s: seq<Blog>) {
    forall i, j :: 0 <= i < j < |s| ==> Before(order, s[i], s[j])
  }

  predicate UniqueIds(s: seq<Blog>) {
    forall i, j :: 0 <= i < j < |s| ==> s[i].id != s[j].id
  }

  lemma {:induction false} InsertElements(order: SortOrder, b: Blog, s: seq<Blog>, x: Blog)
    ensures x in Insert(order, b, s) <==> x == b || x in s
  {
    if s != [] && !Before(order, b, s[0]) {
      InsertElements(order, b, s[1..], x);
      assert s == [s[0]] + s[1..];
    }
  }

  lemma {:induction false} InsertSorted(order: SortOrder, b: Blog, s: seq<Blog>)
    requires StrictlySorted(order, s) && forall i :: 0 <= i < |s| ==> s[i].id != b.id
    ensures StrictlySorted(order, Insert(order, b, s))
  {
    if s != [] && !Before(order, b, s[0]) {
      var rest := Insert(order, b, s[1..]);
      InsertSorted(order, b, s[1..]);
      forall j | 0 <= j < |rest|
        ensures Before(order, s[0], rest[j])
      {
        InsertElements(order, b, s[1..], rest[j]);
      }
    }
  }

  lemma {:induction false} SortedElements(order: SortOrder, rows: seq<Blog>, x: Blog)
    ensures x in Sorted(order, rows) <==> x in rows
  {
    if rows != [] {
      SortedElements(order, rows[1..], x);
      InsertElements(order, rows[0], Sorted(order, rows[1..]), x);
      assert rows == [rows[0]] + rows[1..];
    }
  }

  lemma {:induction false} SortedSorts(order: SortOrder, rows: seq<Blog>)
    requires UniqueIds(rows)
    ensures StrictlySorted(order, Sorted(order, rows))
  {
    if rows != [] {
      var rest := Sorted(order, rows[1..]);
      SortedSorts(order, rows[1..]);
      forall i | 0 <= i < |rest|
        ensures rest[i].id != rows[0].id
      {
        SortedElements(order, rows[1..], rest[i]);
      }
      InsertSorted(order, rows[0], rest);
    }
  }

  lemma {:induction false} MatchingElements(table: seq<Blog>, search: Blog -> bool, order: SortOrder,
                                            cursor: Option<Cursor>, x: Blog)
    ensures x in Matching(table, search, order, cursor)
            <==> x in table && Visible(x, search) && (cursor.None? || Past(order, cursor.value, x))
  {
    if table != [] {
      MatchingElements(table[1..], search, order, cursor, x);
      assert table == [table[0]] + table[1..];
    }
  }

  lemma {:induction false} MatchingUnique(table: seq<Blog>, search: Blog -> bool, order: SortOrder,
                                          cursor: Option<Cursor>)
    requires UniqueIds(table)
    ensures UniqueIds(Matching(table, search, order, cursor))
  {
    if table != [] {
      var rest := Matching(table[1..], search, order, cursor);
      MatchingUnique(table[1..], search, order, cursor);
      forall i | 0 <= i < |rest|
        ensures rest[i].id != table[0].id
      {
        MatchingElements(table[1..], search, order, cursor, rest[i]);
      }
    }
  }

  /** The query's answer: strictly in order, and exactly the visible rows after the cursor. */
  lemma ListingExact(table: seq<Blog>, search: Blog -> bool, order: SortOrder, cursor: Option<Cursor>, x: Blog)
    requires UniqueIds(table)
    ensures StrictlySorted(order, Listing(table, search, order, cursor))
    ensures x in Listing(table, search, order, cursor)
            <==> x in table && Visible(x, search) && (cursor.None? || Past(order, cursor.value, x))
  {
    MatchingUnique(table, search, order, cursor);
    SortedSorts(order, Matching(table, search, order, cursor));
    SortedElements(order, Matching(table, search, order, cursor), x);
    MatchingElements(table, search, order, cursor, x);
  }

  // ---------------------------------------------------------------- Following the cursor

  /** The rows seen by following `nextCursor`, the table being `tables[i]` at the i-th request. */
  function Traverse(tables: seq<seq<Blog>>, search: Blog -> bool, order: SortOrder, cursor: Option<Cursor>,
                    limit: nat): seq<Blog>
    requires limit >= 1
    decreases |tables|
  {
    if tables == [] then []
    else
      var data := PageAfter(tables[0], search, order, cursor, limit);
      var next := NextCursor(data, limit);
      if next.None? then data else data + Traverse(tables[1..], search, order, next, limit)
  }

  /** The traversal reaches a page without a next cursor. */
  predicate Finishes(tables: seq<seq<Blog>>, search: Blog -> bool, order: SortOrder, cursor: Option<Cursor>, limit: nat)
    requires limit >= 1
    decreases |tables|
  {
    tables != [] &&
    var next := NextCursor(PageAfter(tables[0], search, order, cursor, limit), limit);
    next.None? || Finishes(tables[1..], search, order, next, limit)
  }

  ghost predicate After(order: SortOrder, cursor: Option<Cursor>, s: seq<Blog>) {
    cursor.Some? ==> forall i :: 0 <= i < |s| ==> Past(order, cursor.value, s[i])
  }

  lemma PageFacts(table: seq<Blog>, search: Blog -> bool, order: SortOrder, cursor: Option<Cursor>, limit: nat)
    requires UniqueIds(table) && limit >= 1
    ensures var data := PageAfter(table, search, order, cursor, limit);
            StrictlySorted(order, data) && After(order, cursor, data)
  {
    var list, data := Listing(table, search, order, cursor), PageAfter(table, search, order, cursor, limit);
    forall i | 0 <= i < |data|
      ensures cursor.Some? ==> Past(order, cursor.value, data[i])
    {
      assert data[i] == list[i] && list[i] in list;
      ListingExact(table, search, order, cursor, list[i]);
    }
    if data != [] {
      ListingExact(table, search, order, cursor, data[0]);
    }
  }

  /** A visible row after the cursor is on the page, or the page is full and the row comes after it. */
  lemma OnPageOrLater(table: seq<Blog>, search: Blog -> bool, order: SortOrder, cursor: Option<Cursor>, limit: nat,
                      x: Blog)
    requires UniqueIds(table) && limit >= 1 && x in table && Visible(x, search)
    requires cursor.Some? ==> Past(order, cursor.value, x)
    ensures var data := PageAfter(table, search, order, cursor, limit);
            x in data || (|data| == limit && Before(order, data[limit - 1], x))
  {
    var list, data := Listing(table, search, order, cursor), PageAfter(table, search, order, cursor, limit);
    ListingExact(table, search, order, cursor, x);
    var k :| 0 <= k < |list| && list[k] == x;
    if k < limit {
      assert data[k] == x;
    } else {
      assert data[limit - 1] == list[limit - 1];
    }
  }

  /** Whatever happens to the table between pages, the rows seen are strictly in order, so never repeated. */
  lemma {:induction false} TraverseInOrder(tables: seq<seq<Blog>>, search: Blog -> bool, order: SortOrder,
                                           cursor: Option<Cursor>, limit: nat)
    requires limit >= 1 && forall i :: 0 <= i < |tables| ==> UniqueIds(tables[i])
    ensures var seen := Traverse(tables, search, order, cursor, limit);
            StrictlySorted(order, seen) && After(order, cursor, seen)
    decreases |tables|
  {
    if tables != [] {
      var data := PageAfter(tables[0], search, order, cursor, limit);
      PageFacts(tables[0], search, order, cursor, limit);
      var next := NextCursor(data, limit);
      if next.Some? {
        TraverseInOrder(tables[1..], search, order, next, limit);
        JoinSorted(order, cursor, data, Traverse(tables[1..], search, order, next, limit));
      }
    }
  }

  lemma JoinSorted(order: SortOrder, cursor: Option<Cursor>, data: seq<Blog>, rest: seq<Blog>)
    requires data != [] && StrictlySorted(order, data) && After(order, cursor, data)
    requires StrictlySorted(order, rest) && After(order, Some(KeyOf(data[|data| - 1])), rest)
    ensures StrictlySorted(order, data + rest) && After(order, cursor, data + rest)
  {
    var last := data[|data| - 1];
    forall j | 0 <= j < |rest|
      ensures Before(order, last, rest[j])
    {
    }
    forall i, j | 0 <= i < j < |data + rest|
      ensures Before(order, (data + rest)[i], (data + rest)[j])
    {
      if i < |data| <= j {
        assert i < |data| - 1 ==> Before(order, data[i], last);
      }
    }
  }

  /** A row that stays visible and unchanged throughout is seen. */
  lemma {:induction false} StableRowIsSeen(tables: seq<seq<Blog>>, search: Blog -> bool, order: SortOrder,
                                           cursor: Option<Cursor>, limit: nat, x: Blog)
    requires limit >= 1 && forall i :: 0 <= i < |tables| ==> UniqueIds(tables[i]) && x in tables[i]
    requires Finishes(tables, search, order, cursor, limit)
    requires Visible(x, search) && (cursor.Some? ==> Past(order, cursor.value, x))
    ensures x in Traverse(tables, search, order, cursor, limit)
    decreases |tables|
  {
    var data := PageAfter(tables[0], search, order, cursor, limit);
    OnPageOrLater(tables[0], search, order, cursor, limit, x);
    if x !in data {
      StableRowIsSeen(tables[1..], search, order, NextCursor(data, limit), limit, x);
    }
  }

  /**
   Following the cursor from the first page to the end, under any inserts, deletes and edits
   between requests, shows every row that stays visible and unchanged exactly once, and all rows
   in order.
   */
  lemma TraversalUnderChange(tables: seq<seq<Blog>>, search: Blog -> bool, order: SortOrder, limit: nat, x: Blog)
    requires limit >= 1 && forall i :: 0 <= i < |tables| ==> UniqueIds(tables[i]) && x in tables[i]
    requires Finishes(tables, search, order, None, limit) && Visible(x, search)
    ensures var seen := Traverse(tables, search, order, None, limit);
            && StrictlySorted(order, seen)
            && exists k :: 0 <= k < |seen| && seen[k] == x && forall j :: 0 <= j < |seen| && j != k ==> seen[j] != x
  {
    var seen := Traverse(tables, search, order, None, limit);
    TraverseInOrder(tables, search, order, None, limit);
    StableRowIsSeen(tables, search, order, None, limit, x);
    var k :| 0 <= k < |seen| && seen[k] == x;
    assert forall j :: 0 <= j < |seen| && j != k ==> seen[j] != x;
  }

  // ---------------------------------------------------------------- A table that does not change

  lemma {:induction false} SortedListUnique(order: SortOrder, s: seq<Blog>, t: seq<Blog>)
    requires StrictlySorted(order, s) && StrictlySorted(order, t)
    requires forall x :: x in s <==> x in t
    ensures s == t
  {
    assert t != [] ==> t[0] in t;
    if s != [] {
      assert s[0] in t;
      assert t[0] in s;
      var i :| 0 <= i < |t| && t[i] == s[0];
      var j :| 0 <= j < |s| && s[j] == t[0];
      assert i == 0 && j == 0;
      forall x
        ensures x in s[1..] <==> x in t[1..]
      {
        TailElements(order, s, x);
        TailElements(order, t, x);
      }
      SortedListUnique(order, s[1..], t[1..]);
      assert s == [s[0]] + s[1..] && t == [t[0]] + t[1..];
    }
  }

  lemma TailElements(order: SortOrder, s: seq<Blog>, x: Blog)
    requires StrictlySorted(order, s) && s != []
    ensures x in s[1..] <==> x in s && x != s[0]
  {
    assert s == [s[0]] + s[1..];
    if x in s[1..] {
      var k :| 0 <= k < |s[1..]| && s[1..][k] == x;
      assert Before(order, s[0], s[k + 1]);
    }
  }

  /** After the last row of a full page, what is listed is the rest of the list. */
  lemma RestOfList(table: seq<Blog>, search: Blog -> bool, order: SortOrder, cursor: Option<Cursor>, limit: nat)
    requires UniqueIds(table) && limit >= 1 && limit <= |Listing(table, search, order, cursor)|
    ensures var list := Listing(table, search, order, cursor);
            Listing(table, search, order, Some(KeyOf(list[limit - 1]))) == list[limit..]
  {
    var list := Listing(table, search, order, cursor);
    var next := Some(KeyOf(list[limit - 1]));
    var rest := Listing(table, search, order, next);
    ListingExact(table, search, order, cursor, list[0]);
    ListingExact(table, search, order, next, list[0]);
    forall x
      ensures x in rest <==> x in list[limit..]
    {
      ListingExact(table, search, order, cursor, x);
      ListingExact(table, search, order, next, x);
      if x in list {
        var k :| 0 <= k < |list| && list[k] == x;
        if k < limit { NotLater(order, list, k, limit); }
        if k >= limit { assert list[limit..][k - limit] == x; }
      }
      if x in rest {
        assert Past(order, next.value, x);
        if cursor.Some? {
          assert list[limit - 1] in list;
          ListingExact(table, search, order, cursor, list[limit - 1]);
        }
        assert x in list;
      }
    }
    SortedListUnique(order, rest, list[limit..]);
  }

  lemma NotLater(order: SortOrder, list: seq<Blog>, k: nat, limit: nat)
    requires StrictlySorted(order, list) && k < limit <= |list|
    ensures !Before(order, list[limit - 1], list[k]) && list[k] !in list[limit..]
  {
  }

  function Copies(table: seq<Blog>, n: nat): seq<seq<Blog>> {
    seq(n, _ => table)
  }

  /** Requests needed to see `n` rows, `limit` at a time, and then a page that is not full. */
  function Requests(n: nat, limit: nat): nat
    requires limit >= 1
  {
    if n < limit then 1 else 1 + Requests(n - limit, limit)
  }

  lemma {:induction false} RequestsExact(n: nat, limit: nat)
    requires limit >= 1
    ensures (Requests(n, limit) - 1) * limit <= n < Requests(n, limit) * limit
  {
    if n >= limit {
      RequestsExact(n - limit, limit);
      var r := Requests(n - limit, limit);
      assert (r + 1) * limit == r * limit + limit;
      assert (r - 1) * limit == r * limit - limit;
    }
  }

  /** A full page is the start of the list, and its cursor leads to the rest. */
  lemma FullPage(table: seq<Blog>, search: Blog -> bool, order: SortOrder, cursor: Option<Cursor>, limit: nat)
    requires UniqueIds(table) && 1 <= limit <= |Listing(table, search, order, cursor)|
    ensures var list := Listing(table, search, order, cursor);
            var data := PageAfter(table, search, order, cursor, limit);
            var next := NextCursor(data, limit);
            && next.Some? && data == list[..limit] && list == data + list[limit..]
            && Listing(table, search, order, next) == list[limit..]
  {
    var list := Listing(table, search, order, cursor);
    var data := PageAfter(table, search, order, cursor, limit);
    assert data == list[..limit] && data[limit - 1] == list[limit - 1];
    RestOfList(table, search, order, cursor, limit);
  }

  lemma LastPage(table: seq<Blog>, search: Blog -> bool, order: SortOrder, cursor: Option<Cursor>, limit: nat)
    requires |Listing(table, search, order, cursor)| < limit
    ensures PageAfter(table, search, order, cursor, limit) == Listing(table, search, order, cursor)
  {
  }

  /** On a table that does not change, the pages make up the whole list, and the traversal ends when it should. */
  lemma {:induction false} FrozenTraversal(table: seq<Blog>, search: Blog -> bool, order: SortOrder,
                                           cursor: Option<Cursor>, limit: nat, n: nat)
    requires UniqueIds(table) && limit >= 1
    ensures var list := Listing(table, search, order, cursor);
            && (Finishes(Copies(table, n), search, order, cursor, limit) <==> n >= Requests(|list|, limit))
            && (n >= Requests(|list|, limit) ==> Traverse(Copies(table, n), search, order, cursor, limit) == list)
    decreases n
  {
    var list := Listing(table, search, order, cursor);
    if n > 0 {
      assert Copies(table, n)[0] == table && Copies(table, n)[1..] == Copies(table, n - 1);
      if |list| >= limit {
        var next := NextCursor(PageAfter(table, search, order, cursor, limit), limit);
        FullPage(table, search, order, cursor, limit);
        FrozenTraversal(table, search, order, next, limit, n - 1);
      } else {
        LastPage(table, search, order, cursor, limit);
      }
    }
  }
}
