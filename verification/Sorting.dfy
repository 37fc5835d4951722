/** Sorted integer sequences: a sort, and the fact that sorted order plus multiplicity fixes a sequence. */
module Sorting {
  import opened Wrappers

  ghost predicate Sorted(s: seq<int>) {
    forall i, j :: 0 <= i < j < |s| ==> s[i] <= s[j]
  }

  ghost predicate Bounded(s: seq<int>, lo: int, hi: int) {
    forall i :: 0 <= i < |s| ==> lo <= s[i] <= hi
  }

  lemma SortedConcat(a: seq<int>, b: seq<int>, lo: int, mid: int, hi: int)
    requires Sorted(a) && Bounded(a, lo, mid) && Sorted(b) && Bounded(b, mid, hi) && lo <= mid <= hi
    ensures Sorted(a + b) && Bounded(a + b, lo, hi)
  {
  }

  lemma CountConcat(a: seq<int>, b: seq<int>, x: int)
    ensures multiset(a + b)[x] == multiset(a)[x] + multiset(b)[x]
  {
  }

  lemma CountSnoc(s: seq<int>, y: int, x: int)
    ensures multiset(s + [y])[x] == multiset(s)[x] + if x == y then 1 else 0
  {
  }

  lemma HeadIsLeast(s: seq<int>, x: int)
    requires Sorted(s) && s != [] && x in multiset(s)
    ensures s[0] <= x
  {
    var i :| 0 <= i < |s| && s[i] == x;
  }

  function Insert(x: int, s: seq<int>): seq<int> {
    if s == [] || x <= s[0] then [x] + s else [s[0]] + Insert(x, s[1..])
  }

  ghost predicate AtLeastAll(lo: int, s: seq<int>) {
    forall i :: 0 <= i < |s| ==> lo <= s[i]
  }

  lemma SortedCons(x: int, s: seq<int>)
    requires Sorted(s) && AtLeastAll(x, s)
    ensures Sorted([x] + s)
  {
  }

  lemma {:induction false} InsertSorted(x: int, s: seq<int>, lo: int)
    requires Sorted(s) && AtLeastAll(lo, s) && lo <= x
    ensures Sorted(Insert(x, s)) && AtLeastAll(lo, Insert(x, s))
  {
    if s == [] || x <= s[0] {
      SortedCons(x, s);
    } else {
      InsertSorted(x, s[1..], s[0]);
      SortedCons(s[0], Insert(x, s[1..]));
    }
  }

  lemma {:induction false} InsertCount(x: int, s: seq<int>)
    ensures multiset(Insert(x, s)) == multiset(s) + multiset{x}
  {
    if s != [] {
      InsertCount(x, s[1..]);
      assert s == [s[0]] + s[1..];
    }
  }

  function Sort(s: seq<int>): seq<int> {
    if s == [] then [] else Insert(s[0], Sort(s[1..]))
  }

  lemma {:induction false} SortSorts(s: seq<int>)
    ensures Sorted(Sort(s)) && multiset(Sort(s)) == multiset(s)
  {
    if s != [] {
      var rest := Sort(s[1..]);
      SortSorts(s[1..]);
      InsertSorted(s[0], rest, if rest == [] then s[0] else Min(s[0], rest[0]));
      InsertCount(s[0], rest);
      assert s == [s[0]] + s[1..];
    }
  }

  ghost predicate SameCounts(s: seq<int>, t: seq<int>) {
    forall x :: multiset(s)[x] == multiset(t)[x]
  }

  lemma SameHead(s: seq<int>, t: seq<int>)
    requires Sorted(s) && Sorted(t) && SameCounts(s, t) && s != []
    ensures t != [] && s[0] == t[0]
  {
    assert s[0] in s && s[0] in multiset(s);
    assert multiset(t)[s[0]] > 0;
    HeadIsLeast(t, s[0]);
    assert t[0] in t && t[0] in multiset(t);
    assert multiset(s)[t[0]] > 0;
    HeadIsLeast(s, t[0]);
  }

  lemma DropHead(s: seq<int>, x: int)
    requires s != []
    ensures multiset(s)[x] == multiset(s[1..])[x] + if x == s[0] then 1 else 0
  {
    assert s == [s[0]] + s[1..];
  }

  lemma TailsAgree(s: seq<int>, t: seq<int>)
    requires Sorted(s) && Sorted(t) && SameCounts(s, t) && s != [] && t != [] && s[0] == t[0]
    ensures Sorted(s[1..]) && Sorted(t[1..]) && SameCounts(s[1..], t[1..])
  {
    forall x
      ensures multiset(s[1..])[x] == multiset(t[1..])[x]
    {
      DropHead(s, x);
      DropHead(t, x);
    }
  }

  /** Sorted order and multiplicities determine a sequence. */
  lemma {:induction false} SortedUnique(s: seq<int>, t: seq<int>)
    requires Sorted(s) && Sorted(t) && SameCounts(s, t)
    ensures s == t
  {
    if s != [] {
      SameHead(s, t);
      TailsAgree(s, t);
      SortedUnique(s[1..], t[1..]);
      assert s == [s[0]] + s[1..] && t == [t[0]] + t[1..];
    } else if t != [] {
      SameHead(t, s);
    }
  }
}
