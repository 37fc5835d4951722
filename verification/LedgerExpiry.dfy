/** The expiry sweep of src/points/points.service.ts:417-451 on ledger values. */
module LedgerExpiry {
  import opened Wrappers
  import opened Ledger

  predicate IsDue(b: Batch, now: int) {
    b.status == ACTIVE && b.expiresAt.Some? && b.expiresAt.value <= now
  }

  function Due(batches: seq<Batch>, now: int): set<int> {
    set i | 0 <= i < |batches| && IsDue(batches[i], now)
  }

  /** An answer to the query for at most `limit` due batches, earliest expiry first. */
  ghost predicate DuePage(batches: seq<Batch>, now: int, limit: nat, page: seq<int>) {
    && InRange(page, |batches|) && Distinct(page) && |page| == Min(limit, |Due(batches, now)|)
    && (forall j :: 0 <= j < |page| ==> IsDue(batches[page[j]], now))
    && (forall j, k :: 0 <= j < k < |page| ==> batches[page[j]].expiresAt.value <= batches[page[k]].expiresAt.value)
    && (forall i, j :: i in Due(batches, now) && i !in page && 0 <= j < |page|
         ==> batches[page[j]].expiresAt.value <= batches[i].expiresAt.value)
  }

  function Lapsed(b: Batch): Batch {
    b.(remaining := 0, status := EXPIRED)
  }

  function ExpireRows(batches: seq<Batch>, page: seq<int>): (r: seq<Batch>)
    requires InRange(page, |batches|)
    ensures |r| == |batches|
  {
    if page == [] then batches
    else
      var last := page[|page| - 1];
      ExpireRows(batches, page[..|page| - 1])[last := Lapsed(batches[last])]
  }

  /** What the chosen batches still held for one user. */
  function Swept(batches: seq<Batch>, page: seq<int>, user: string): int
    requires InRange(page, |batches|)
  {
    if page == [] then 0
    else
      var b := batches[page[|page| - 1]];
      Swept(batches, page[..|page| - 1], user) + if b.userId == user then b.remaining else 0
  }

  function Expire(book: Book, page: seq<int>): Book
    requires InRange(page, |book.batches|)
  {
    book.(batches := ExpireRows(book.batches, page),
          accounts := map u | u in book.accounts ::
            book.accounts[u].(currentPoints := book.accounts[u].currentPoints - Swept(book.batches, page, u)))
  }

  /** Exactly the chosen batches lapse. */
  lemma {:induction false} ExpireRowsAt(batches: seq<Batch>, page: seq<int>, i: int)
    requires InRange(page, |batches|) && 0 <= i < |batches|
    ensures ExpireRows(batches, page)[i] == if i in page then Lapsed(batches[i]) else batches[i]
  {
    if page != [] {
      ExpireRowsAt(batches, page[..|page| - 1], i);
      assert page == page[..|page| - 1] + [page[|page| - 1]];
    }
  }

  lemma {:induction false} SweepSums(batches: seq<Batch>, page: seq<int>, user: string)
    requires InRange(page, |batches|) && Distinct(page)
    requires forall j :: 0 <= j < |page| ==> batches[page[j]].status == ACTIVE
    ensures Sum(ExpireRows(batches, page), SpendableBy(user))
            == Sum(batches, SpendableBy(user)) - Swept(batches, page, user)
    ensures Sum(ExpireRows(batches, page), EarnedBy(user)) == Sum(batches, EarnedBy(user))
  {
    if page != [] {
      var last, rest := page[|page| - 1], page[..|page| - 1];
      SweepSums(batches, rest, user);
      ExpireRowsAt(batches, rest, last);
      SumUpdate(ExpireRows(batches, rest), SpendableBy(user), last, Lapsed(batches[last]));
      SumUpdate(ExpireRows(batches, rest), EarnedBy(user), last, Lapsed(batches[last]));
    }
  }

  lemma {:induction false} SweptNonNegative(batches: seq<Batch>, page: seq<int>, user: string)
    requires InRange(page, |batches|) && forall i :: 0 <= i < |batches| ==> BatchOk(batches[i])
    ensures Swept(batches, page, user) >= 0
  {
    if page != [] {
      SweptNonNegative(batches, page[..|page| - 1], user);
    }
  }

  lemma {:induction false} SweptOfStranger(batches: seq<Batch>, page: seq<int>, user: string)
    requires InRange(page, |batches|) && forall i :: 0 <= i < |batches| ==> batches[i].userId != user
    ensures Swept(batches, page, user) == 0
  {
    if page != [] {
      SweptOfStranger(batches, page[..|page| - 1], user);
    }
  }

  ghost predicate ActivePage(batches: seq<Batch>, page: seq<int>) {
    && InRange(page, |batches|) && Distinct(page)
    && forall j :: 0 <= j < |page| ==> batches[page[j]].status == ACTIVE
  }

  lemma ExpireTotals(book: Book, page: seq<int>, user: string)
    requires ActivePage(book.batches, page) && TotalsAgree(book, user)
    requires forall i :: 0 <= i < |book.batches| ==> book.batches[i].userId in book.accounts
    ensures TotalsAgree(Expire(book, page), user)
  {
    SweepSums(book.batches, page, user);
    if user !in book.accounts {
      SweptOfStranger(book.batches, page, user);
    }
  }

  lemma ExpireKeepsInv(book: Book, page: seq<int>)
    requires Inv(book) && ActivePage(book.batches, page)
    ensures Inv(Expire(book, page))
  {
    var after := Expire(book, page);
    forall user
      ensures TotalsAgree(after, user)
      ensures AccountOf(after.accounts, user).tierId == TierAfter(after.history, user)
    {
      ExpireTotals(book, page, user);
      assert AccountOf(book.accounts, user).tierId == TierAfter(book.history, user);
    }
    forall i | 0 <= i < |after.batches|
      ensures BatchOk(after.batches[i]) && after.batches[i].userId in after.accounts
    {
      ExpireRowsAt(book.batches, page, i);
    }
  }

  lemma NothingToExpire(book: Book)
    ensures Expire(book, []) == book
  {
    assert Expire(book, []).accounts == book.accounts;
  }

  // ---------------------------------------------------------------- How many calls a sweep takes

  lemma {:induction false} PageCardinality(page: seq<int>)
    requires Distinct(page)
    ensures |set i | i in page| == |page|
  {
    if page != [] {
      var last, rest := page[|page| - 1], page[..|page| - 1];
      PageCardinality(rest);
      assert (set i | i in page) == (set i | i in rest) + {last};
    }
  }

  /** One call takes exactly its page off the due batches. */
  lemma DueShrinks(batches: seq<Batch>, now: int, limit: nat, page: seq<int>)
    requires DuePage(batches, now, limit, page)
    ensures |Due(ExpireRows(batches, page), now)| == |Due(batches, now)| - |page|
  {
    var before, after, chosen := Due(batches, now), Due(ExpireRows(batches, page), now), set i | i in page;
    forall i | 0 <= i < |batches| {
      ExpireRowsAt(batches, page, i);
    }
    assert after == before - chosen;
    assert chosen <= before;
    PageCardinality(page);
  }

  /** ceil(n / limit), counted off. */
  function CallsFor(n: nat, limit: nat): nat
    requires limit >= 1
  {
    if n == 0 then 0 else 1 + CallsFor(if n <= limit then 0 else n - limit, limit)
  }

  lemma {:induction false} CallsForIsCeiling(n: nat, limit: nat)
    requires limit >= 1
    ensures CallsFor(n, limit) * limit >= n
    ensures n > 0 ==> (CallsFor(n, limit) - 1) * limit < n
  {
    if n > limit {
      CallsForIsCeiling(n - limit, limit);
      var c := CallsFor(n - limit, limit);
      assert (c + 1) * limit == c * limit + limit;
      assert (c - 1) * limit == c * limit - limit;
    } else if n > 0 {
      assert CallsFor(n, limit) == 1 + CallsFor(0, limit);
    }
  }

  /** Calls at a fixed `now`, each with a page its query may return in the state it meets. */
  ghost predicate Calls(batches: seq<Batch>, now: int, limit: nat, pages: seq<seq<int>>)
    decreases |pages|
  {
    pages == [] ||
    (DuePage(batches, now, limit, pages[0]) && Calls(ExpireRows(batches, pages[0]), now, limit, pages[1..]))
  }

  ghost function AfterCalls(batches: seq<Batch>, now: int, limit: nat, pages: seq<seq<int>>): seq<Batch>
    requires Calls(batches, now, limit, pages)
    decreases |pages|
  {
    if pages == [] then batches else AfterCalls(ExpireRows(batches, pages[0]), now, limit, pages[1..])
  }

  /**
   With a limit of at least one, a sweep takes exactly ceil(n / limit) working calls: those calls
   and no later ones find something, and nothing is due any more exactly when they have been made.
   */
  lemma {:induction false} SweepLength(batches: seq<Batch>, now: int, limit: nat, pages: seq<seq<int>>)
    requires limit >= 1 && Calls(batches, now, limit, pages)
    ensures var needed := CallsFor(|Due(batches, now)|, limit);
            && (Due(AfterCalls(batches, now, limit, pages), now) == {} <==> |pages| >= needed)
            && forall c :: 0 <= c < |pages| ==> (pages[c] != [] <==> c < needed)
    decreases |pages|
  {
    if pages != [] {
      var next, rest := ExpireRows(batches, pages[0]), pages[1..];
      DueShrinks(batches, now, limit, pages[0]);
      SweepLength(next, now, limit, rest);
      var needed, later := CallsFor(|Due(batches, now)|, limit), CallsFor(|Due(next, now)|, limit);
      assert needed == if |Due(batches, now)| == 0 then 0 else 1 + later;
      forall c | 0 <= c < |pages|
        ensures pages[c] != [] <==> c < needed
      {
        if c > 0 { assert pages[c] == rest[c - 1]; }
      }
    }
  }
}
