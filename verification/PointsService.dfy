/** The point operations of src/points/points.service.ts as they change the stored rows. */
module PointsService {
  import opened Wrappers
  import opened PointRules
  import opened Ledger
  import opened LedgerExpiry
  import opened LedgerTiers
  import opened LedgerRuns

  datatype AwardError = NoActiveRule

  class PointsService {
    var batches: seq<Batch>
    var accounts: map<string, Account>
    var redemptions: seq<Redemption>
    var history: seq<TierChange>

    constructor ()
      ensures Contents() == EMPTY_BOOK && Inv(Contents())
    {
      batches, accounts, redemptions, history := [], map[], [], [];
      EmptyBookInv();
    }

    function Contents(): Book
      reads this
    {
      Book(batches, accounts, redemptions, history)
    }

    method AwardPoints(user: string, rule: Option<PointRule>, tier: Option<string>, amountCents: Option<int>, now: int,
                       expiresAt: Option<int>)
      returns (r: Result<int, AwardError>)
      modifies this
      ensures rule.None? ==> r == Failure(NoActiveRule) && Contents() == old(Contents())
      ensures rule.Some? ==> var points := CalcPoints(rule.value, tier, amountCents);
                             r == Success(Max(0, points))
                             && Contents() == Award(old(Contents()), user, points, now, expiresAt)
      ensures old(Inv(Contents())) ==> Inv(Contents())
    {
      if rule.None? {
        return Failure(NoActiveRule);
      }
      ghost var before := Contents();
      accounts := Opened(accounts, user);
      var points := CalcPoints(rule.value, tier, amountCents);
      if Inv(before) { AwardKeepsInv(before, user, points, now, expiresAt); }
      if points <= 0 {
        return Success(0);
      }
      batches := batches + [Batch(user, points, points, ACTIVE, now, expiresAt)];
      var a := accounts[user];
      accounts := accounts[user := a.(currentPoints := a.currentPoints + points,
                                      totalEarned := a.totalEarned + points)];
      return Success(points);
    }

    /** `order` is the answer to the query for the user's ACTIVE batches. */
    method RedeemPoints(user: string, points: int, order: seq<int>) returns (r: Result<int, RedeemError>)
      requires InRange(order, |batches|)
      modifies this
      ensures (Contents(), r) == Redeem(old(Contents()), user, points, order)
      ensures old(Inv(Contents()) && RedeemOrder(batches, user, order)) ==>
                Inv(Contents()) && (r.Success? <==> 0 < points <= AccountOf(old(accounts), user).currentPoints)
    {
      ghost var before := Contents();
      if Inv(before) && RedeemOrder(batches, user, order) {
        RedeemKeepsInv(before, user, points, order);
        RedeemSucceedsIff(before, user, points, order);
      }
      if points <= 0 {
        return Failure(PointsNotPositive);
      }
      accounts := Opened(accounts, user);
      if accounts[user].currentPoints < points {
        return Failure(InsufficientPoints);
      }
      var remainingToRedeem := points;
      var rows := batches;
      for i := 0 to |order|
        invariant |rows| == |batches| && InRange(order[i..], |batches|)
        invariant Drain(rows, order[i..], remainingToRedeem) == Drain(batches, order, points)
      {
        if remainingToRedeem <= 0 {
          break;
        }
        var b := rows[order[i]];
        var deduct := Min(b.remaining, remainingToRedeem);
        assert order[i..][1..] == order[i + 1..];
        rows := rows[order[i] := b.(remaining := b.remaining - deduct,
                                    status := if b.remaining - deduct == 0 then REDEEMED else ACTIVE)];
        remainingToRedeem := remainingToRedeem - deduct;
      }
      if remainingToRedeem > 0 {
        return Failure(FailedToRedeem);
      }
      batches := rows;
      redemptions := redemptions + [Redemption(user, points)];
      var a := accounts[user];
      accounts := accounts[user := a.(currentPoints := a.currentPoints - points,
                                      totalRedeemed := a.totalRedeemed + points)];
      return Success(points);
    }

    /** `page` is the answer to the query for at most `limit` due batches. */
    method ExpireJob(now: int, limit: nat, page: seq<int>) returns (expired: nat)
      requires Inv(Contents()) && DuePage(batches, now, limit, page)
      modifies this
      ensures expired == |page| && Contents() == Expire(old(Contents()), page) && Inv(Contents())
    {
      ExpireKeepsInv(Contents(), page);
      if |page| == 0 {
        NothingToExpire(Contents());
        return 0;
      }
      var byUser := SumByUser(page);
      var rows := LapseAll(page);
      var updated := TakeOff(page, byUser);
      batches, accounts, expired := rows, updated, |page|;
    }

    method LapseAll(page: seq<int>) returns (rows: seq<Batch>)
      requires ActivePage(batches, page)
      ensures rows == ExpireRows(batches, page)
    {
      rows := batches;
      for j := 0 to |page|
        invariant InRange(page[..j], |batches|) && rows == ExpireRows(batches, page[..j])
      {
        assert page[..j + 1][..j] == page[..j];
        ExpireRowsAt(batches, page[..j], page[j]);
        OnceOnly(page, j);
        rows := rows[page[j] := rows[page[j]].(remaining := 0, status := EXPIRED)];
      }
      assert page[..|page|] == page;
    }

    /** The loop over `byUser`, in whatever order its keys come. */
    method TakeOff(page: seq<int>, byUser: map<string, int>) returns (updated: map<string, Account>)
      requires Inv(Contents()) && InRange(page, |batches|)
      requires forall u :: Swept(batches, page, u) == if u in byUser then byUser[u] else 0
      requires forall u :: u in byUser ==> byUser[u] > 0
      ensures updated == Expire(Contents(), page).accounts
    {
      forall u | u in byUser
        ensures u in accounts
      {
        if u !in accounts {
          assert forall i :: 0 <= i < |batches| ==> batches[i].userId in accounts;
          SweptOfStranger(batches, page, u);
        }
      }
      var users := byUser.Keys;
      updated := accounts;
      while users != {}
        invariant users <= byUser.Keys && updated.Keys == accounts.Keys
        invariant forall u :: u in accounts ==>
          updated[u] == if u in byUser && u !in users
                        then accounts[u].(currentPoints := accounts[u].currentPoints - byUser[u]) else accounts[u]
        decreases |users|
      {
        var u :| u in users;
        users := users - {u};
        updated := updated[u := updated[u].(currentPoints := updated[u].currentPoints - byUser[u])];
      }
    }

    /** The per-user map the sweep builds: exactly the users with something left, each with the sum of it. */
    method SumByUser(page: seq<int>) returns (byUser: map<string, int>)
      requires Inv(Contents()) && InRange(page, |batches|)
      ensures forall u :: Swept(batches, page, u) == if u in byUser then byUser[u] else 0
      ensures forall u :: u in byUser ==> byUser[u] > 0
    {
      byUser := map[];
      for j := 0 to |page|
        invariant InRange(page[..j], |batches|)
        invariant forall u :: Swept(batches, page[..j], u) == if u in byUser then byUser[u] else 0
        invariant forall u :: u in byUser ==> byUser[u] > 0
      {
        assert page[..j + 1][..j] == page[..j];
        var b := batches[page[j]];
        if b.remaining > 0 {
          byUser := byUser[b.userId := (if b.userId in byUser then byUser[b.userId] else 0) + b.remaining];
        }
      }
      assert page[..|page|] == page;
    }

    /** `tiers` is the answer to the query for the active tiers. */
    method RecalcTier(user: string, now: int, tiers: seq<Tier>) returns (changed: bool)
      modifies this
      ensures Contents() == Recalc(old(Contents()), user, now, tiers)
      ensures changed <==> |history| == |old(history)| + 1
      ensures old(Inv(Contents())) ==> Inv(Contents())
    {
      ghost var before := Contents();
      if Inv(before) { RecalcKeepsInv(before, user, now, tiers); }
      if |tiers| == 0 {
        return false;
      }
      var chosen: Option<Tier> := None;
      for i := 0 to |tiers|
        invariant chosen.None?
        invariant ChooseTier(batches, user, now, tiers) == ChooseTier(batches, user, now, tiers[i..])
      {
        if Qualifies(batches, user, now, tiers[i]) {
          chosen := Some(tiers[i]);
          break;
        }
        assert tiers[i..][1..] == tiers[i + 1..];
      }
      accounts := Opened(accounts, user);
      var oldTierId, newTierId := accounts[user].tierId, IdOf(chosen);
      if oldTierId == newTierId {
        return false;
      }
      accounts := accounts[user := accounts[user].(tierId := newTierId)];
      history := history + [TierChange(user, oldTierId, newTierId)];
      return true;
    }
  }

  lemma OnceOnly(page: seq<int>, j: nat)
    requires Distinct(page) && j < |page|
    ensures page[j] !in page[..j]
  {
  }
}
