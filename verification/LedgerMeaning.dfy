/**
 What each points operation does, said of the rows themselves (src/points/points.service.ts): which
 batches, totals and history rows are there afterwards, and what stays.
 */
module LedgerMeaning {
  import opened Wrappers
  import opened Ledger
  import opened LedgerExpiry
  import opened LedgerTiers
  import opened LedgerRuns

  /** A user's account, or the one `getOrCreateUserLoyalty` would create. */
  function Found(book: Book, user: string): Account {
    if user in book.accounts then book.accounts[user] else Account(0, 0, 0, None)
  }

  /** What a user's ACTIVE batches hold together. */
  function Held(batches: seq<Batch>, user: string): int {
    if batches == [] then 0
    else
      var n := |batches| - 1;
      var b := batches[n];
      Held(batches[..n], user) + if b.userId == user && b.status == ACTIVE then b.remaining else 0
  }

  lemma {:induction false} HeldIsSpendable(batches: seq<Batch>, user: string)
    ensures Held(batches, user) == Sum(batches, SpendableBy(user))
  {
    if batches != [] { HeldIsSpendable(batches[..|batches| - 1], user); }
  }

  /** In every state a run reaches, the balance is what the user's ACTIVE batches hold. */
  lemma BalanceIsHeld(ops: seq<Op>, user: string)
    requires LegalRun(EMPTY_BOOK, ops)
    ensures Found(Run(EMPTY_BOOK, ops), user).currentPoints == Held(Run(EMPTY_BOOK, ops).batches, user)
  {
    LedgerOverRuns(ops, user);
    HeldIsSpendable(Run(EMPTY_BOOK, ops).batches, user);
  }

  // ---------------------------------------------------------------- Awards

  /**
   An award of positive points adds exactly one ACTIVE batch holding them and raises that user's
   balance and lifetime points; any other award only opens the account.
   */
  lemma AwardMeans(book: Book, user: string, points: int, now: int, expiresAt: Option<int>)
    ensures var after, a := Award(book, user, points, now, expiresAt), Found(book, user);
            && after.redemptions == book.redemptions && after.history == book.history
            && (points > 0 ==>
                  && after.batches == book.batches + [Batch(user, points, points, ACTIVE, now, expiresAt)]
                  && after.accounts == book.accounts[user :=
                       Account(a.currentPoints + points, a.totalEarned + points, a.totalRedeemed, a.tierId)])
            && (points <= 0 ==> after.batches == book.batches && after.accounts == book.accounts[user := a])
  {
  }

  // ---------------------------------------------------------------- Redemptions

  /** The row after some of what it held was taken. */
  ghost predicate TakenFrom(before: Batch, after: Batch) {
    && 0 <= after.remaining <= before.remaining
    && after == before.(remaining := after.remaining, status := if after.remaining == 0 then REDEEMED else ACTIVE)
  }

  /**
   A redemption takes exactly the points asked for out of the user's ACTIVE batches, marks those it
   empties REDEEMED, and books the points; without the points it names what is wrong and leaves
   everything but the account's opening. Which batches come first is `OldestRedeemedFirst`.
   */
  lemma RedeemMeans(book: Book, user: string, points: int, order: seq<int>)
    requires Inv(book) && InRange(order, |book.batches|) && RedeemOrder(book.batches, user, order)
    ensures var (after, r) := Redeem(book, user, points, order);
            var a := Found(book, user);
            && after.history == book.history && |after.batches| == |book.batches|
            && (points <= 0 ==> r == Failure(PointsNotPositive) && after == book)
            && (points > 0 && a.currentPoints < points ==>
                  r == Failure(InsufficientPoints) && after == book.(accounts := book.accounts[user := a]))
            && (0 < points <= a.currentPoints ==>
                  && r == Success(points)
                  && after.accounts == book.accounts[user :=
                       Account(a.currentPoints - points, a.totalEarned, a.totalRedeemed + points, a.tierId)]
                  && after.redemptions == book.redemptions + [Redemption(user, points)]
                  && Held(after.batches, user) == Held(book.batches, user) - points
                  && forall i :: 0 <= i < |book.batches| ==>
                       if book.batches[i].userId == user && book.batches[i].status == ACTIVE
                       then TakenFrom(book.batches[i], after.batches[i])
                       else after.batches[i] == book.batches[i])
  {
    if 0 < points <= Found(book, user).currentPoints {
      RedemptionIsTotal(book, user, points, order);
      RowsRedeemed(book, user, points, order);
    }
  }

  lemma RowsRedeemed(book: Book, user: string, points: int, order: seq<int>)
    requires Inv(book) && InRange(order, |book.batches|) && RedeemOrder(book.batches, user, order)
    requires 0 < points <= Found(book, user).currentPoints
    ensures var after := Drain(book.batches, order, points).0;
            && |after| == |book.batches| && Held(after, user) == Held(book.batches, user) - points
            && forall i :: 0 <= i < |book.batches| ==>
                 if book.batches[i].userId == user && book.batches[i].status == ACTIVE
                 then TakenFrom(book.batches[i], after[i])
                 else after[i] == book.batches[i]
  {
    var after := Drain(book.batches, order, points).0;
    RedemptionIsTotal(book, user, points, order);
    OrderIsDrainable(book, user, order);
    DrainSums(book.batches, user, order, points, user);
    HeldIsSpendable(book.batches, user);
    HeldIsSpendable(after, user);
    forall i | 0 <= i < |book.batches|
      ensures if book.batches[i].userId == user && book.batches[i].status == ACTIVE
              then TakenFrom(book.batches[i], after[i])
              else after[i] == book.batches[i]
    {
      RedeemedRow(book, user, points, order, i);
    }
  }

  lemma RedeemedRow(book: Book, user: string, points: int, order: seq<int>, i: int)
    requires Inv(book) && InRange(order, |book.batches|) && RedeemOrder(book.batches, user, order)
    requires points > 0 && 0 <= i < |book.batches|
    ensures var after := Drain(book.batches, order, points).0;
            && |after| == |book.batches|
            && (Redeemable(book.batches, user, i) ==> TakenFrom(book.batches[i], after[i]))
            && (!Redeemable(book.batches, user, i) ==> after[i] == book.batches[i])
  {
    OrderIsDrainable(book, user, order);
    if Redeemable(book.batches, user, i) {
      assert i in order;
      var j :| 0 <= j < |order| && order[j] == i;
      DrainShares(book.batches, user, order, points, j);
    } else {
      DrainFrame(book.batches, order, points, i);
    }
  }

  // ---------------------------------------------------------------- Expiry

  /** What one user's rows lost between two states of the same table. */
  function LostBy(before: seq<Batch>, after: seq<Batch>, user: string): int {
    Held(before, user) - Held(after, user)
  }

  /**
   A sweep empties exactly the chosen batches, marks them EXPIRED and takes what each user's batches
   lost off that user's balance, and nothing else.
   */
  lemma ExpireMeans(book: Book, page: seq<int>)
    requires Inv(book) && ActivePage(book.batches, page)
    ensures var after := Expire(book, page);
            && after.redemptions == book.redemptions && after.history == book.history
            && |after.batches| == |book.batches|
            && (forall i :: 0 <= i < |book.batches| ==>
                  after.batches[i] ==
                  if i in page then book.batches[i].(remaining := 0, status := EXPIRED) else book.batches[i])
            && after.accounts.Keys == book.accounts.Keys
            && forall u :: u in book.accounts ==>
                 after.accounts[u] == book.accounts[u].(currentPoints :=
                   book.accounts[u].currentPoints - LostBy(book.batches, after.batches, u))
  {
    var after := Expire(book, page);
    forall i | 0 <= i < |book.batches|
      ensures after.batches[i] ==
              if i in page then book.batches[i].(remaining := 0, status := EXPIRED) else book.batches[i]
    {
      ExpireRowsAt(book.batches, page, i);
    }
    forall u | u in book.accounts
      ensures LostBy(book.batches, after.batches, u) == Swept(book.batches, page, u)
    {
      SweepSums(book.batches, page, u);
      HeldIsSpendable(book.batches, u);
      HeldIsSpendable(after.batches, u);
    }
  }

  predicate Overdue(b: Batch, now: int) {
    b.status == ACTIVE && b.expiresAt.Some? && b.expiresAt.value <= now
  }

  /**
   What one call expires: only overdue batches, at most `limit` of them, the earliest first; and all
   of them unless the limit is reached.
   */
  lemma ExpiresOverdue(book: Book, now: int, limit: nat, page: seq<int>)
    requires Inv(book) && DuePage(book.batches, now, limit, page)
    ensures var after := Expire(book, page);
            && |page| <= limit
            && (forall i :: 0 <= i < |book.batches| && after.batches[i] != book.batches[i] ==>
                  Overdue(book.batches[i], now))
            && (forall i, j ::
                  0 <= i < |book.batches| && 0 <= j < |book.batches|
                  && after.batches[i] != book.batches[i] && Overdue(after.batches[j], now) ==>
                    book.batches[i].expiresAt.value <= after.batches[j].expiresAt.value)
            && (|page| < limit ==> forall i :: 0 <= i < |book.batches| ==> !Overdue(after.batches[i], now))
  {
    ExpireMeans(book, page);
    PageIsOverdue(book.batches, now, limit, page);
    if |page| < limit { PageIsAll(book.batches, now, limit, page); }
  }

  lemma PageIsOverdue(batches: seq<Batch>, now: int, limit: nat, page: seq<int>)
    requires DuePage(batches, now, limit, page)
    ensures forall i :: i in page ==> 0 <= i < |batches| && Overdue(batches[i], now)
    ensures forall i, j ::
              i in page && 0 <= j < |batches| && j !in page && Overdue(batches[j], now) ==>
                batches[i].expiresAt.value <= batches[j].expiresAt.value
  {
    forall i | i in page
      ensures 0 <= i < |batches| && Overdue(batches[i], now)
    {
      var k :| 0 <= k < |page| && page[k] == i;
      assert IsDue(batches[page[k]], now);
    }
    forall i, j | i in page && 0 <= j < |batches| && j !in page && Overdue(batches[j], now)
      ensures batches[i].expiresAt.value <= batches[j].expiresAt.value
    {
      var k :| 0 <= k < |page| && page[k] == i;
      assert j in Due(batches, now);
    }
  }

  lemma PageIsAll(batches: seq<Batch>, now: int, limit: nat, page: seq<int>)
    requires DuePage(batches, now, limit, page) && |page| < limit
    ensures forall i :: i in Due(batches, now) ==> i in page
  {
    var due, chosen := Due(batches, now), set i | i in page;
    PageCardinality(page);
    assert chosen <= due && |chosen| == |due|;
    SubsetOfSameSize(chosen, due);
  }

  lemma SubsetOfSameSize(a: set<int>, b: set<int>)
    requires a <= b && |a| == |b|
    ensures a == b
  {
    assert b == a + (b - a);
  }

  // ---------------------------------------------------------------- Tiers

  /** Points a user earned at or after `since`. */
  function EarnedFrom(batches: seq<Batch>, user: string, since: int): int {
    if batches == [] then 0
    else
      var n := |batches| - 1;
      var b := batches[n];
      EarnedFrom(batches[..n], user, since)
      + if b.userId == user && b.earnedAt >= since && b.points > 0 then b.points else 0
  }

  /** The tier is active and the points of its last `durationDays` days reach its minimum. */
  predicate Reached(batches: seq<Batch>, user: string, now: int, t: Tier) {
    t.active && EarnedFrom(batches, user, now - t.durationDays * 86_400_000) >= t.minPoints
  }

  lemma {:induction false} EarnedFromIsSum(batches: seq<Batch>, user: string, since: int)
    ensures EarnedFrom(batches, user, since) == Sum(batches, EarnedSince(user, since))
  {
    if batches != [] { EarnedFromIsSum(batches[..|batches| - 1], user, since); }
  }

  lemma ReachedIsQualifies(batches: seq<Batch>, user: string, now: int, t: Tier)
    ensures Reached(batches, user, now, t) <==> t.active && Qualifies(batches, user, now, t)
  {
    EarnedFromIsSum(batches, user, now - t.durationDays * 86_400_000);
  }

  /** `tierId` is the user's right tier: one that is reached and that no reached tier outranks, or none if none is. */
  ghost predicate RightTier(table: seq<Tier>, batches: seq<Batch>, user: string, now: int, tierId: Option<string>) {
    match tierId
    case None => forall t :: t in table ==> !Reached(batches, user, now, t)
    case Some(id) =>
      exists t :: t in table && t.id == id && Reached(batches, user, now, t)
                  && forall t' :: t' in table && Reached(batches, user, now, t') ==> t'.priority <= t.priority
  }

  /**
   A recalculation stores the right tier, and adds a history row from the old tier to the new exactly
   when they differ; batches, totals and every other account stay. With no active tier it does nothing.
   */
  lemma RecalcMeans(table: seq<Tier>, book: Book, user: string, now: int, tiers: seq<Tier>)
    requires TierOrder(table, tiers)
    ensures var after, a := Recalc(book, user, now, tiers), Found(book, user);
            if forall t :: t in table ==> !t.active then after == book
            else
              var tierId := Found(after, user).tierId;
              && RightTier(table, book.batches, user, now, tierId)
              && after.accounts == book.accounts[user := a.(tierId := tierId)]
              && after.batches == book.batches && after.redemptions == book.redemptions
              && after.history ==
                 if tierId == a.tierId then book.history else book.history + [TierChange(user, a.tierId, tierId)]
  {
    if tiers == [] {
      assert forall t :: t in table && t.active ==> t in tiers;
    } else {
      assert tiers[0] in tiers;
      ChosenIsRight(table, book.batches, user, now, tiers);
    }
  }

  lemma ChosenIsRight(table: seq<Tier>, batches: seq<Batch>, user: string, now: int, tiers: seq<Tier>)
    requires TierOrder(table, tiers)
    ensures RightTier(table, batches, user, now, IdOf(ChooseTier(batches, user, now, tiers)))
  {
    ChosenTierIsHighest(table, batches, user, now, tiers);
    forall t
      ensures Reached(batches, user, now, t) <==> t.active && Qualifies(batches, user, now, t)
    {
      ReachedIsQualifies(batches, user, now, t);
    }
  }
}
