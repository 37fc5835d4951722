/**
 What a page of public blogs holds, said of the rows and their rank alone
 (src/blog/blog.service.ts:380-558).
 */
module BlogMeaning {
  import opened Wrappers
  import opened BlogPaging

  /** `a` comes before `b`: newest first or oldest first, rows of the same moment by id the same way. */
  predicate Precedes(order: SortOrder, a: Blog, b: Blog) {
    if order.Desc?
    then a.publishedAt > b.publishedAt || (a.publishedAt == b.publishedAt && a.id > b.id)
    else a.publishedAt < b.publishedAt || (a.publishedAt == b.publishedAt && a.id < b.id)
  }

  /** Row `b` comes after the place the cursor names. */
  predicate Beyond(order: SortOrder, cursor: Option<Cursor>, b: Blog) {
    cursor.None? ||
    var c := cursor.value;
    if order.Desc?
    then b.publishedAt < c.publishedAt || (b.publishedAt == c.publishedAt && b.id < c.id)
    else b.publishedAt > c.publishedAt || (b.publishedAt == c.publishedAt && b.id > c.id)
  }

  /** A row the reader may get: published, not deleted, matching the search, beyond the cursor. */
  predicate Eligible(table: seq<Blog>, search: Blog -> bool, order: SortOrder, cursor: Option<Cursor>, b: Blog) {
    b in table && b.published && !b.isDeleted && search(b) && Beyond(order, cursor, b)
  }

  /** How many eligible rows come before `x`. */
  ghost function Rank(table: seq<Blog>, search: Blog -> bool, order: SortOrder, cursor: Option<Cursor>, x: Blog): nat {
    |set b | b in table && Eligible(table, search, order, cursor, b) && Precedes(order, b, x)|
  }

  lemma ListEligible(table: seq<Blog>, search: Blog -> bool, order: SortOrder, cursor: Option<Cursor>)
    requires UniqueIds(table)
    ensures var list := Listing(table, search, order, cursor);
            && (forall x :: x in list <==> Eligible(table, search, order, cursor, x))
            && forall i, j :: 0 <= i < j < |list| ==> Precedes(order, list[i], list[j])
  {
    var list := Listing(table, search, order, cursor);
    forall x
      ensures x in list <==> Eligible(table, search, order, cursor, x)
    {
      ListingExact(table, search, order, cursor, x);
    }
    forall i, j | 0 <= i < j < |list|
      ensures Precedes(order, list[i], list[j])
    {
      ListingExact(table, search, order, cursor, list[i]);
      assert Before(order, list[i], list[j]);
    }
  }

  /** In an ordered list a row's place is the number of rows that come before it. */
  lemma PlaceIsCount(order: SortOrder, list: seq<Blog>, k: nat)
    requires k < |list| && forall i, j :: 0 <= i < j < |list| ==> Precedes(order, list[i], list[j])
    ensures |set b | b in list && Precedes(order, b, list[k])| == k
  {
    var earlier := set b | b in list && Precedes(order, b, list[k]);
    forall i | k <= i < |list|
      ensures !Precedes(order, list[i], list[k])
    {
      if i > k { assert Precedes(order, list[k], list[i]); }
    }
    forall b
      ensures b in earlier <==> b in list[..k]
    {
      if b in earlier {
        var i :| 0 <= i < |list| && list[i] == b;
        assert list[..k][i] == b;
      }
    }
    assert earlier == set b | b in list[..k];
    forall i, j | 0 <= i < j < k
      ensures list[..k][i] != list[..k][j]
    {
      assert Precedes(order, list[i], list[j]);
    }
    DistinctCount(list[..k]);
  }

  lemma {:induction false} DistinctCount(s: seq<Blog>)
    requires forall i, j :: 0 <= i < j < |s| ==> s[i] != s[j]
    ensures |set b | b in s| == |s|
  {
    if s != [] {
      var n := |s| - 1;
      DistinctCount(s[..n]);
      assert (set b | b in s) == (set b | b in s[..n]) + {s[n]};
      assert s[n] !in s[..n];
    }
  }

  lemma PlaceIsRank(table: seq<Blog>, search: Blog -> bool, order: SortOrder, cursor: Option<Cursor>, k: nat)
    requires UniqueIds(table) && k < |Listing(table, search, order, cursor)|
    ensures Rank(table, search, order, cursor, Listing(table, search, order, cursor)[k]) == k
  {
    var list := Listing(table, search, order, cursor);
    ListEligible(table, search, order, cursor);
    PlaceIsCount(order, list, k);
    assert (set b | b in table && Eligible(table, search, order, cursor, b) && Precedes(order, b, list[k]))
        == (set b | b in list && Precedes(order, b, list[k]));
  }

  /** A slice of the list holds exactly the rows of those ranks. */
  lemma SliceByRank(table: seq<Blog>, search: Blog -> bool, order: SortOrder, cursor: Option<Cursor>, skip: nat,
                    limit: nat, x: Blog)
    requires UniqueIds(table)
    ensures var data := Take(Listing(table, search, order, cursor), skip, limit);
            && |data| <= limit
            && (forall i, j :: 0 <= i < j < |data| ==> Precedes(order, data[i], data[j]))
            && (x in data <==>
                  Eligible(table, search, order, cursor, x)
                  && skip <= Rank(table, search, order, cursor, x) < skip + limit)
  {
    var list := Listing(table, search, order, cursor);
    var data := Take(list, skip, limit);
    ListEligible(table, search, order, cursor);
    assert forall i :: 0 <= i < |data| ==> data[i] == list[skip + i];
    if x in list {
      var k :| 0 <= k < |list| && list[k] == x;
      PlaceIsRank(table, search, order, cursor, k);
      if skip <= k < skip + limit { assert data[k - skip] == x; }
      if x in data {
        var i :| 0 <= i < |data| && data[i] == x;
        PlaceIsRank(table, search, order, cursor, skip + i);
      }
    }
  }

  /** The place a cursor names, and the ranks a page starts from. */
  function CursorOf(text: CursorText): Option<Cursor> {
    if text.Decoded? && text.publishedAt.Some? && text.id.Some?
    then Some(Cursor(text.publishedAt.value, text.id.value))
    else None
  }

  function SkipOf(text: CursorText, page: nat, limit: nat): nat
    requires page >= 1
  {
    if text.NoCursor? then (page - 1) * limit else 0
  }

  /**
   A whole response. An unreadable or incomplete cursor is an error. Otherwise the page holds, in
   order, exactly the eligible rows whose rank is in the page's range: from (page - 1) * limit without
   a cursor, from 0 beyond one. A full page names its last row as the next cursor, and only a request
   without a cursor is told how many rows there are.
   */
  lemma PageHolds(table: seq<Blog>, search: Blog -> bool, order: SortOrder, text: CursorText, page: nat, limit: nat,
                  x: Blog)
    requires UniqueIds(table) && page >= 1 && limit >= 1
    ensures var r := GetPublicBlogs(table, search, order, text, page, limit);
            var cursor, skip := CursorOf(text), SkipOf(text, page, limit);
            && (r == Failure(InvalidCursor) <==> !text.NoCursor? && cursor.None?)
            && (r.Success? ==>
                  var data := r.value.data;
                  && |data| <= limit
                  && (forall i, j :: 0 <= i < j < |data| ==> Precedes(order, data[i], data[j]))
                  && (x in data <==>
                        Eligible(table, search, order, cursor, x)
                        && skip <= Rank(table, search, order, cursor, x) < skip + limit)
                  && r.value.nextCursor ==
                     (if |data| == limit then Some(Cursor(data[limit - 1].publishedAt, data[limit - 1].id)) else None)
                  && (text.NoCursor? ==>
                        r.value.total == Some(|set b | b in table && Eligible(table, search, order, None, b)|))
                  && (!text.NoCursor? ==> r.value.total.None?))
  {
    var r := GetPublicBlogs(table, search, order, text, page, limit);
    if r.Success? {
      SliceByRank(table, search, order, CursorOf(text), SkipOf(text, page, limit), limit, x);
      if text.NoCursor? { TotalIsCount(table, search, order); }
    }
  }

  lemma TotalIsCount(table: seq<Blog>, search: Blog -> bool, order: SortOrder)
    requires UniqueIds(table)
    ensures |Listing(table, search, order, None)| == |set b | b in table && Eligible(table, search, order, None, b)|
  {
    var list := Listing(table, search, order, None);
    ListEligible(table, search, order, None);
    forall i, j | 0 <= i < j < |list|
      ensures list[i] != list[j]
    {
      assert Precedes(order, list[i], list[j]);
    }
    DistinctCount(list);
    assert (set b | b in list) == set b | b in table && Eligible(table, search, order, None, b);
  }
}
