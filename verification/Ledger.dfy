/**
 The loyalty ledger of src/points/points.service.ts as values: point batches, cached account
 totals, redemptions and tier history. Rows are identified by their position; a query answer is a
 sequence of positions, and every answer the database may give is allowed.
 */
module Ledger {
  import opened Wrappers

  datatype Status = ACTIVE | REDEEMED | EXPIRED | ADJUSTED

  datatype Batch = Batch(userId: string, points: int, remaining: int, status: Status, earnedAt: int,
                         expiresAt: Option<int>)

  datatype Account = Account(currentPoints: int, totalEarned: int, totalRedeemed: int, tierId: Option<string>)

  datatype Redemption = Redemption(userId: string, points: int)

  datatype TierChange = TierChange(userId: string, oldTierId: Option<string>, newTierId: Option<string>)

  datatype Book = Book(batches: seq<Batch>, accounts: map<string, Account>, redemptions: seq<Redemption>,
                       history: seq<TierChange>)

  const NEW_ACCOUNT := Account(0, 0, 0, None)
  const EMPTY_BOOK := Book([], map[], [], [])

  function AccountOf(accounts: map<string, Account>, user: string): Account {
    if user in accounts then accounts[user] else NEW_ACCOUNT
  }

  /** `getOrCreateUserLoyalty`. */
  function Opened(accounts: map<string, Account>, user: string): map<string, Account> {
    accounts[user := AccountOf(accounts, user)]
  }

  // ---------------------------------------------------------------- Sums over rows

  function Sum<T>(rows: seq<T>, f: T -> int): int {
    if rows == [] then 0 else Sum(rows[..|rows| - 1], f) + f(rows[|rows| - 1])
  }

  lemma {:induction false} SumUpdate<T>(rows: seq<T>, f: T -> int, i: nat, row: T)
    requires i < |rows|
    ensures Sum(rows[i := row], f) == Sum(rows, f) - f(rows[i]) + f(row)
  {
    var n := |rows| - 1;
    if i == n {
      assert rows[i := row][..n] == rows[..n];
    } else {
      assert rows[i := row][..n] == rows[..n][i := row];
      SumUpdate(rows[..n], f, i, row);
    }
  }

  lemma SumAppend<T>(rows: seq<T>, f: T -> int, row: T)
    ensures Sum(rows + [row], f) == Sum(rows, f) + f(row)
  {
    assert (rows + [row])[..|rows|] == rows;
  }

  lemma {:induction false} SumConcat<T>(a: seq<T>, b: seq<T>, f: T -> int)
    ensures Sum(a + b, f) == Sum(a, f) + Sum(b, f)
  {
    if b == [] {
      assert a + b == a;
    } else {
      var n := |b| - 1;
      assert (a + b)[..|a + b| - 1] == a + b[..n];
      SumConcat(a, b[..n], f);
    }
  }

  lemma {:induction false} SumZero<T>(rows: seq<T>, f: T -> int)
    requires forall i :: 0 <= i < |rows| ==> f(rows[i]) == 0
    ensures Sum(rows, f) == 0
  {
    if rows != [] {
      SumZero(rows[..|rows| - 1], f);
    }
  }

  lemma {:induction false} SumNonNegative<T>(rows: seq<T>, f: T -> int)
    requires forall i :: 0 <= i < |rows| ==> f(rows[i]) >= 0
    ensures Sum(rows, f) >= 0
  {
    if rows != [] {
      SumNonNegative(rows[..|rows| - 1], f);
    }
  }

  function SpendableBy(user: string): Batch -> int {
    (b: Batch) => if b.userId == user && b.status == ACTIVE then b.remaining else 0
  }

  function EarnedBy(user: string): Batch -> int {
    (b: Batch) => if b.userId == user then b.points else 0
  }

  function RedeemedBy(user: string): Redemption -> int {
    (r: Redemption) => if r.userId == user then r.points else 0
  }

  // ---------------------------------------------------------------- The ledger invariant

  predicate BatchOk(b: Batch) {
    0 < b.points && 0 <= b.remaining <= b.points && (b.remaining == 0 <==> b.status != ACTIVE)
  }

  ghost predicate TotalsAgree(book: Book, user: string) {
    var a := AccountOf(book.accounts, user);
    && a.currentPoints == Sum(book.batches, SpendableBy(user))
    && a.totalEarned == Sum(book.batches, EarnedBy(user))
    && a.totalRedeemed == Sum(book.redemptions, RedeemedBy(user))
  }

  /** The tier a user's history leads to. */
  function TierAfter(history: seq<TierChange>, user: string): Option<string> {
    if history == [] then None
    else
      var last := history[|history| - 1];
      if last.userId == user then last.newTierId else TierAfter(history[..|history| - 1], user)
  }

  /** Each entry starts at the tier the previous one led to, and changes it. */
  ghost predicate HistoryChained(history: seq<TierChange>) {
    forall i :: 0 <= i < |history| ==>
      history[i].oldTierId == TierAfter(history[..i], history[i].userId) && history[i].oldTierId != history[i].newTierId
  }

  ghost predicate Inv(book: Book) {
    && (forall i :: 0 <= i < |book.batches| ==> BatchOk(book.batches[i]) && book.batches[i].userId in book.accounts)
    && (forall user :: TotalsAgree(book, user))
    && HistoryChained(book.history)
    && (forall user :: AccountOf(book.accounts, user).tierId == TierAfter(book.history, user))
  }

  // ---------------------------------------------------------------- Awarding

  function Award(book: Book, user: string, points: int, now: int, expiresAt: Option<int>): Book {
    var accounts := Opened(book.accounts, user);
    if points <= 0 then book.(accounts := accounts)
    else
      var a := accounts[user];
      book.(batches := book.batches + [Batch(user, points, points, ACTIVE, now, expiresAt)],
            accounts := accounts[user := a.(currentPoints := a.currentPoints + points,
                                            totalEarned := a.totalEarned + points)])
  }

  lemma AwardTotals(book: Book, user: string, points: int, now: int, expiresAt: Option<int>, u: string)
    requires TotalsAgree(book, u) && AccountOf(book.accounts, u).tierId == TierAfter(book.history, u)
    ensures var after := Award(book, user, points, now, expiresAt);
            TotalsAgree(after, u) && AccountOf(after.accounts, u).tierId == TierAfter(after.history, u)
  {
    if points > 0 {
      var batch := Batch(user, points, points, ACTIVE, now, expiresAt);
      SumAppend(book.batches, SpendableBy(u), batch);
      SumAppend(book.batches, EarnedBy(u), batch);
    }
  }

  lemma AwardKeepsInv(book: Book, user: string, points: int, now: int, expiresAt: Option<int>)
    requires Inv(book)
    ensures Inv(Award(book, user, points, now, expiresAt))
  {
    forall u
      ensures TotalsAgree(Award(book, user, points, now, expiresAt), u)
      ensures AccountOf(Award(book, user, points, now, expiresAt).accounts, u).tierId == TierAfter(book.history, u)
    {
      AwardTotals(book, user, points, now, expiresAt, u);
    }
  }

  // ---------------------------------------------------------------- Redeeming

  datatype RedeemError = PointsNotPositive | InsufficientPoints | FailedToRedeem

  predicate Redeemable(batches: seq<Batch>, user: string, i: int) {
    0 <= i < |batches| && batches[i].userId == user && batches[i].status == ACTIVE
  }

  predicate InRange(order: seq<int>, n: int) {
    forall j :: 0 <= j < |order| ==> 0 <= order[j] < n
  }

  predicate Distinct(order: seq<int>) {
    forall j, k :: 0 <= j < k < |order| ==> order[j] != order[k]
  }

  /** An answer to the query for a user's ACTIVE batches, oldest first; ties in any order. */
  ghost predicate RedeemOrder(batches: seq<Batch>, user: string, order: seq<int>) {
    && (forall i :: i in order <==> Redeemable(batches, user, i))
    && Distinct(order)
    && (forall j, k :: 0 <= j < k < |order| && Redeemable(batches, user, order[j])
         && Redeemable(batches, user, order[k])
         ==> batches[order[j]].earnedAt <= batches[order[k]].earnedAt)
  }

  function Deducted(b: Batch, deduct: int): Batch {
    b.(remaining := b.remaining - deduct, status := if b.remaining - deduct == 0 then REDEEMED else ACTIVE)
  }

  /** The redemption loop: the rows it leaves and what it could not redeem. */
  function Drain(batches: seq<Batch>, order: seq<int>, need: int): (r: (seq<Batch>, int))
    requires InRange(order, |batches|)
    ensures |r.0| == |batches|
    decreases |order|
  {
    if order == [] || need <= 0 then (batches, need)
    else
      var b := batches[order[0]];
      var deduct := Min(b.remaining, need);
      Drain(batches[order[0] := Deducted(b, deduct)], order[1..], need - deduct)
  }

  function Redeem(book: Book, user: string, points: int, order: seq<int>): (Book, Result<int, RedeemError>)
    requires InRange(order, |book.batches|)
  {
    if points <= 0 then (book, Failure(PointsNotPositive))
    else
      var ready := book.(accounts := Opened(book.accounts, user));
      var a := ready.accounts[user];
      if a.currentPoints < points then (ready, Failure(InsufficientPoints))
      else
        var (batches, left) := Drain(book.batches, order, points);
        if left > 0 then (ready, Failure(FailedToRedeem))
        else
          (ready.(batches := batches,
                   redemptions := book.redemptions + [Redemption(user, points)],
                   accounts := ready.accounts[user := a.(currentPoints := a.currentPoints - points,
                                                          totalRedeemed := a.totalRedeemed + points)]),
           Success(points))
  }

  /** Rows of one user that a drain may start from. */
  ghost predicate Drainable(batches: seq<Batch>, user: string, order: seq<int>) {
    && (forall i :: 0 <= i < |batches| ==> BatchOk(batches[i]))
    && InRange(order, |batches|)
    && (forall j :: 0 <= j < |order| ==> Redeemable(batches, user, order[j]))
    && Distinct(order)
  }

  /** The sum of what the first `j` batches of the order hold. */
  function HeldBefore(batches: seq<Batch>, order: seq<int>, j: nat): int
    requires j <= |order| && InRange(order, |batches|)
  {
    if j == 0 then 0 else HeldBefore(batches, order, j - 1) + batches[order[j - 1]].remaining
  }

  /** First in, first out, in closed form: what the batch at place `j` gives up. */
  function Share(batches: seq<Batch>, order: seq<int>, need: int, j: nat): int
    requires j < |order| && InRange(order, |batches|)
  {
    Max(0, Min(batches[order[j]].remaining, need - HeldBefore(batches, order, j)))
  }

  lemma {:induction false} HeldBeforeTail(batches: seq<Batch>, order: seq<int>, b: Batch, j: nat)
    requires j < |order| && InRange(order, |batches|)
    requires Distinct(order)
    ensures HeldBefore(batches, order, j + 1)
            == batches[order[0]].remaining + HeldBefore(batches[order[0] := b], order[1..], j)
  {
    if j > 0 {
      HeldBeforeTail(batches, order, b, j - 1);
    }
  }

  lemma {:induction false} HeldBeforeMonotone(batches: seq<Batch>, order: seq<int>, j: nat, k: nat)
    requires j <= k <= |order| && InRange(order, |batches|)
    requires forall i :: 0 <= i < |batches| ==> batches[i].remaining >= 0
    ensures HeldBefore(batches, order, j) <= HeldBefore(batches, order, k)
  {
    if j < k {
      HeldBeforeMonotone(batches, order, j, k - 1);
    }
  }

  /** Rows outside the order are not touched. */
  lemma {:induction false} DrainFrame(batches: seq<Batch>, order: seq<int>, need: int, i: int)
    requires InRange(order, |batches|) && 0 <= i < |batches| && i !in order
    ensures |Drain(batches, order, need).0| == |batches| && Drain(batches, order, need).0[i] == batches[i]
    decreases |order|
  {
    if order != [] && need > 0 {
      var b := batches[order[0]];
      var deduct := Min(b.remaining, need);
      DrainFrame(batches[order[0] := Deducted(b, deduct)], order[1..], need - deduct, i);
    }
  }

  /** After one step the remaining rows are still drainable. */
  lemma DrainStep(batches: seq<Batch>, user: string, order: seq<int>, need: int)
    requires Drainable(batches, user, order) && order != [] && need > 0
    ensures var b := batches[order[0]];
            Drainable(batches[order[0] := Deducted(b, Min(b.remaining, need))], user, order[1..])
  {
    var b := batches[order[0]];
    assert Redeemable(batches, user, order[0]);
    var next := batches[order[0] := Deducted(b, Min(b.remaining, need))];
    forall j | 0 <= j < |order[1..]|
      ensures Redeemable(next, user, order[1..][j])
    {
      assert Redeemable(batches, user, order[j + 1]);
    }
  }

  /**
   Redemption is first in, first out: each batch gives up exactly its closed-form share, a batch
   becomes REDEEMED exactly when it is used up, and what is left over is what the batches lacked.
   */
  lemma {:induction false} DrainShares(batches: seq<Batch>, user: string, order: seq<int>, need: int, j: nat)
    requires Drainable(batches, user, order) && need >= 0 && j < |order|
    ensures var after := Drain(batches, order, need).0;
            |after| == |batches| && after[order[j]] == Deducted(batches[order[j]], Share(batches, order, need, j))
    decreases |order|
  {
    assert Redeemable(batches, user, order[j]) && Redeemable(batches, user, order[0]);
    if need > 0 {
      var b := batches[order[0]];
      var deduct := Min(b.remaining, need);
      var next := batches[order[0] := Deducted(b, deduct)];
      DrainStep(batches, user, order, need);
      if j == 0 {
        assert order[0] !in order[1..];
        DrainFrame(next, order[1..], need - deduct, order[0]);
      } else {
        DrainShares(next, user, order[1..], need - deduct, j - 1);
        HeldBeforeTail(batches, order, Deducted(b, deduct), j - 1);
        ShareNext(batches, user, order, need, j);
      }
    } else {
      HeldBeforeMonotone(batches, order, 0, j);
    }
  }

  lemma ShareNext(batches: seq<Batch>, user: string, order: seq<int>, need: int, j: nat)
    requires Drainable(batches, user, order) && need > 0 && 0 < j < |order|
    ensures var b := batches[order[0]];
            var deduct := Min(b.remaining, need);
            Share(batches[order[0] := Deducted(b, deduct)], order[1..], need - deduct, j - 1)
                == Share(batches, order, need, j)
  {
    var b := batches[order[0]];
    var deduct := Min(b.remaining, need);
    var next := batches[order[0] := Deducted(b, deduct)];
    HeldBeforeTail(batches, order, Deducted(b, deduct), j - 1);
    if deduct < b.remaining {
      HeldBeforeMonotone(next, order[1..], 0, j - 1);
    }
  }

  /** A batch is touched only after every batch before it in the order is used up. */
  lemma FirstInFirstOut(batches: seq<Batch>, user: string, order: seq<int>, need: int, j: nat, k: nat)
    requires Drainable(batches, user, order) && need >= 0 && j < k < |order|
    requires Drain(batches, order, need).0[order[k]] != batches[order[k]]
    ensures Drain(batches, order, need).0[order[j]].remaining == 0
    ensures Drain(batches, order, need).0[order[j]].status == REDEEMED
  {
    DrainShares(batches, user, order, need, j);
    DrainShares(batches, user, order, need, k);
    assert Redeemable(batches, user, order[j]) && Redeemable(batches, user, order[k]);
    HeldBeforeMonotone(batches, order, j + 1, k);
  }

  /** What leaves the user's batches is what was redeemed; other users and lifetime points are untouched. */
  lemma {:induction false} DrainSums(batches: seq<Batch>, user: string, order: seq<int>, need: int, u: string)
    requires Drainable(batches, user, order) && need >= 0
    ensures var (after, left) := Drain(batches, order, need);
            && left >= 0
            && Sum(after, SpendableBy(u)) == Sum(batches, SpendableBy(u)) - (if u == user then need - left else 0)
            && Sum(after, EarnedBy(u)) == Sum(batches, EarnedBy(u))
            && (forall i :: 0 <= i < |after| ==> BatchOk(after[i]))
    decreases |order|
  {
    if order != [] && need > 0 {
      var b := batches[order[0]];
      assert Redeemable(batches, user, order[0]);
      var deduct := Min(b.remaining, need);
      DrainStep(batches, user, order, need);
      DrainSums(batches[order[0] := Deducted(b, deduct)], user, order[1..], need - deduct, u);
      SumUpdate(batches, SpendableBy(u), order[0], Deducted(b, deduct));
      SumUpdate(batches, EarnedBy(u), order[0], Deducted(b, deduct));
    }
  }

  /** If something is left over, every batch of the order is used up. */
  lemma {:induction false} LeftoverMeansDrained(batches: seq<Batch>, user: string, order: seq<int>, need: int, j: nat)
    requires Drainable(batches, user, order) && need >= 0 && j < |order|
    requires Drain(batches, order, need).1 > 0
    ensures Drain(batches, order, need).0[order[j]].status == REDEEMED
    decreases |order|
  {
    assert Redeemable(batches, user, order[0]);
    var b := batches[order[0]];
    var deduct := Min(b.remaining, need);
    var next := batches[order[0] := Deducted(b, deduct)];
    DrainStep(batches, user, order, need);
    if j == 0 {
      assert order[0] !in order[1..];
      DrainFrame(next, order[1..], need - deduct, order[0]);
    } else {
      LeftoverMeansDrained(next, user, order[1..], need - deduct, j - 1);
    }
  }

  lemma OrderIsDrainable(book: Book, user: string, order: seq<int>)
    requires Inv(book) && RedeemOrder(book.batches, user, order)
    ensures Drainable(book.batches, user, order)
  {
    forall j | 0 <= j < |order|
      ensures Redeemable(book.batches, user, order[j])
    {
      assert order[j] in order;
    }
  }

  /**
   Redemption is by age: if a redeemable batch is touched, every redeemable batch of the user earned
   strictly earlier is used up, whatever order ties come in.
   */
  lemma OldestRedeemedFirst(book: Book, user: string, points: int, order: seq<int>, i: int, k: int)
    requires Inv(book) && InRange(order, |book.batches|) && RedeemOrder(book.batches, user, order)
    requires Redeemable(book.batches, user, i) && Redeemable(book.batches, user, k)
    requires book.batches[i].earnedAt < book.batches[k].earnedAt
    requires Redeem(book, user, points, order).0.batches[k] != book.batches[k]
    ensures var b := Redeem(book, user, points, order).0.batches[i]; b.remaining == 0 && b.status == REDEEMED
  {
    OrderIsDrainable(book, user, order);
    assert i in order && k in order;
    var n :| 0 <= n < |order| && order[n] == i;
    var m :| 0 <= m < |order| && order[m] == k;
    FirstInFirstOut(book.batches, user, order, points, n, m);
  }

  /** Once the balance check passes, the loop always finds enough: `FailedToRedeem` cannot happen. */
  lemma RedemptionIsTotal(book: Book, user: string, points: int, order: seq<int>)
    requires Inv(book) && InRange(order, |book.batches|) && RedeemOrder(book.batches, user, order) && points > 0
    requires points <= AccountOf(book.accounts, user).currentPoints
    ensures Drain(book.batches, order, points).1 == 0
  {
    OrderIsDrainable(book, user, order);
    var (after, left) := Drain(book.batches, order, points);
    DrainSums(book.batches, user, order, points, user);
    assert TotalsAgree(book, user);
    if left > 0 {
      forall i | 0 <= i < |after|
        ensures SpendableBy(user)(after[i]) == 0
      {
        if i in order {
          var j :| 0 <= j < |order| && order[j] == i;
          LeftoverMeansDrained(book.batches, user, order, points, j);
        } else {
          DrainFrame(book.batches, order, points, i);
          assert !Redeemable(book.batches, user, i);
        }
      }
      SumZero(after, SpendableBy(user));
    }
  }

  /** A redemption succeeds exactly when the points are positive and covered. */
  lemma RedeemSucceedsIff(book: Book, user: string, points: int, order: seq<int>)
    requires Inv(book) && InRange(order, |book.batches|) && RedeemOrder(book.batches, user, order)
    ensures Redeem(book, user, points, order).1.Success?
            <==> 0 < points <= AccountOf(book.accounts, user).currentPoints
  {
    if 0 < points <= AccountOf(book.accounts, user).currentPoints {
      RedemptionIsTotal(book, user, points, order);
    }
  }

  lemma {:induction false} DrainKeepsOwners(batches: seq<Batch>, order: seq<int>, need: int, i: int)
    requires InRange(order, |batches|) && 0 <= i < |batches|
    ensures |Drain(batches, order, need).0| == |batches| && Drain(batches, order, need).0[i].userId == batches[i].userId
    decreases |order|
  {
    if order != [] && need > 0 {
      var b := batches[order[0]];
      var deduct := Min(b.remaining, need);
      DrainKeepsOwners(batches[order[0] := Deducted(b, deduct)], order[1..], need - deduct, i);
    }
  }

  lemma OpeningKeepsInv(book: Book, user: string)
    requires Inv(book)
    ensures Inv(book.(accounts := Opened(book.accounts, user)))
  {
    var after := book.(accounts := Opened(book.accounts, user));
    forall u
      ensures TotalsAgree(after, u) && AccountOf(after.accounts, u).tierId == TierAfter(after.history, u)
    {
      assert TotalsAgree(book, u) && AccountOf(after.accounts, u) == AccountOf(book.accounts, u);
    }
  }

  lemma RedeemTotals(book: Book, user: string, points: int, order: seq<int>, u: string)
    requires Drainable(book.batches, user, order) && Redeem(book, user, points, order).1.Success?
    requires TotalsAgree(book, u) && AccountOf(book.accounts, u).tierId == TierAfter(book.history, u)
    ensures var after := Redeem(book, user, points, order).0;
            TotalsAgree(after, u) && AccountOf(after.accounts, u).tierId == TierAfter(after.history, u)
  {
    DrainSums(book.batches, user, order, points, u);
    SumAppend(book.redemptions, RedeemedBy(u), Redemption(user, points));
  }

  lemma RedeemRows(book: Book, user: string, points: int, order: seq<int>, i: int)
    requires Drainable(book.batches, user, order) && Redeem(book, user, points, order).1.Success?
    requires 0 <= i < |book.batches| && book.batches[i].userId in book.accounts
    ensures var after := Redeem(book, user, points, order).0;
            |after.batches| == |book.batches| && BatchOk(after.batches[i]) && after.batches[i].userId in after.accounts
  {
    DrainSums(book.batches, user, order, points, user);
    DrainKeepsOwners(book.batches, order, points, i);
  }

  lemma RedeemKeepsInv(book: Book, user: string, points: int, order: seq<int>)
    requires Inv(book) && InRange(order, |book.batches|) && RedeemOrder(book.batches, user, order)
    ensures Inv(Redeem(book, user, points, order).0)
  {
    OpeningKeepsInv(book, user);
    OrderIsDrainable(book, user, order);
    var (after, result) := Redeem(book, user, points, order);
    if result.Success? {
      forall u
        ensures TotalsAgree(after, u) && AccountOf(after.accounts, u).tierId == TierAfter(after.history, u)
      {
        RedeemTotals(book, user, points, order, u);
      }
      forall i | 0 <= i < |after.batches|
        ensures BatchOk(after.batches[i]) && after.batches[i].userId in after.accounts
      {
        RedeemRows(book, user, points, order, i);
      }
    }
  }
}
