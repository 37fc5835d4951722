/** Tier recalculation of src/points/points.service.ts:369-415 on ledger values. */
module LedgerTiers {
  import opened Wrappers
  import opened Utc
  import opened Ledger

  datatype Tier = Tier(id: string, priority: int, minPoints: int, durationDays: int, active: bool)

  /** An answer to the query for the active tiers, highest priority first; ties in any order. */
  ghost predicate TierOrder(table: seq<Tier>, tiers: seq<Tier>) {
    && (forall t :: t in tiers <==> t in table && t.active)
    && (forall j, k :: 0 <= j < k < |tiers| ==> tiers[j].priority >= tiers[k].priority)
  }

  function EarnedSince(user: string, since: int): Batch -> int {
    (b: Batch) => if b.userId == user && b.earnedAt >= since && b.points > 0 then b.points else 0
  }

  predicate Qualifies(batches: seq<Batch>, user: string, now: int, t: Tier) {
    Sum(batches, EarnedSince(user, AddDaysUTC(now, -t.durationDays))) >= t.minPoints
  }

  /** The first qualifying tier of the list. */
  function ChooseTier(batches: seq<Batch>, user: string, now: int, tiers: seq<Tier>): Option<Tier> {
    if tiers == [] then None
    else if Qualifies(batches, user, now, tiers[0]) then Some(tiers[0])
    else ChooseTier(batches, user, now, tiers[1..])
  }

  lemma {:induction false} ChooseTierFirst(batches: seq<Batch>, user: string, now: int, tiers: seq<Tier>)
    ensures match ChooseTier(batches, user, now, tiers)
            case None => forall j :: 0 <= j < |tiers| ==> !Qualifies(batches, user, now, tiers[j])
            case Some(t) => exists k :: 0 <= k < |tiers| && tiers[k] == t && Qualifies(batches, user, now, t)
                                        && forall j :: 0 <= j < k ==> !Qualifies(batches, user, now, tiers[j])
  {
    if tiers != [] && !Qualifies(batches, user, now, tiers[0]) {
      ChooseTierFirst(batches, user, now, tiers[1..]);
      match ChooseTier(batches, user, now, tiers) {
        case None =>
          forall j | 0 <= j < |tiers| ensures !Qualifies(batches, user, now, tiers[j]) {
            if j > 0 { assert tiers[j] == tiers[1..][j - 1]; }
          }
        case Some(t) =>
          var k :| 0 <= k < |tiers[1..]| && tiers[1..][k] == t && Qualifies(batches, user, now, t)
                   && forall j :: 0 <= j < k ==> !Qualifies(batches, user, now, tiers[1..][j]);
          assert tiers[k + 1] == t;
          forall j | 0 <= j < k + 1 ensures !Qualifies(batches, user, now, tiers[j]) {
            if j > 0 { assert tiers[j] == tiers[1..][j - 1]; }
          }
      }
    }
  }

  /** The chosen tier is an active one that qualifies, and no qualifying active tier ranks above it. */
  lemma ChosenTierIsHighest(table: seq<Tier>, batches: seq<Batch>, user: string, now: int, tiers: seq<Tier>)
    requires TierOrder(table, tiers)
    ensures match ChooseTier(batches, user, now, tiers)
            case None => forall t :: t in table && t.active ==> !Qualifies(batches, user, now, t)
            case Some(t) =>
              && t in table && t.active && Qualifies(batches, user, now, t)
              && forall t' :: t' in table && t'.active && Qualifies(batches, user, now, t') ==>
                   t'.priority <= t.priority
  {
    ChooseTierFirst(batches, user, now, tiers);
    forall t' | t' in table && t'.active && Qualifies(batches, user, now, t')
      ensures ChooseTier(batches, user, now, tiers).Some?
              && t'.priority <= ChooseTier(batches, user, now, tiers).value.priority
    {
      var j :| 0 <= j < |tiers| && tiers[j] == t';
    }
  }

  lemma MoreQualifies(batches: seq<Batch>, extra: seq<Batch>, user: string, now: int, t: Tier)
    requires Qualifies(batches, user, now, t)
    ensures Qualifies(batches + extra, user, now, t)
  {
    var f := EarnedSince(user, AddDaysUTC(now, -t.durationDays));
    SumConcat(batches, extra, f);
    SumNonNegative(extra, f);
  }

  /** Earning more, at the same moment, never lowers the chosen tier, whatever order ties come in each time. */
  lemma EarningNeverLowersTier(table: seq<Tier>, batches: seq<Batch>, extra: seq<Batch>, user: string, now: int,
                               tiers: seq<Tier>, later: seq<Tier>)
    requires TierOrder(table, tiers) && TierOrder(table, later) && ChooseTier(batches, user, now, tiers).Some?
    ensures var more := ChooseTier(batches + extra, user, now, later);
            more.Some? && more.value.priority >= ChooseTier(batches, user, now, tiers).value.priority
  {
    ChosenTierIsHighest(table, batches, user, now, tiers);
    ChosenTierIsHighest(table, batches + extra, user, now, later);
    MoreQualifies(batches, extra, user, now, ChooseTier(batches, user, now, tiers).value);
  }

  // ---------------------------------------------------------------- Recording the change

  function IdOf(t: Option<Tier>): Option<string> {
    match t case None => None case Some(tier) => Some(tier.id)
  }

  function Recalc(book: Book, user: string, now: int, tiers: seq<Tier>): Book {
    if tiers == [] then book
    else
      var newTierId := IdOf(ChooseTier(book.batches, user, now, tiers));
      var accounts := Opened(book.accounts, user);
      var oldTierId := accounts[user].tierId;
      if oldTierId == newTierId then book.(accounts := accounts)
      else
        book.(accounts := accounts[user := accounts[user].(tierId := newTierId)],
              history := book.history + [TierChange(user, oldTierId, newTierId)])
  }

  lemma TierAfterAppend(history: seq<TierChange>, change: TierChange, user: string)
    ensures TierAfter(history + [change], user)
            == if change.userId == user then change.newTierId else TierAfter(history, user)
  {
    assert (history + [change])[..|history|] == history;
  }

  lemma ChainAppend(history: seq<TierChange>, change: TierChange)
    requires HistoryChained(history)
    requires change.oldTierId == TierAfter(history, change.userId) && change.oldTierId != change.newTierId
    ensures HistoryChained(history + [change])
  {
    forall i | 0 <= i < |history + [change]|
      ensures (history + [change])[i].oldTierId == TierAfter((history + [change])[..i], (history + [change])[i].userId)
      ensures (history + [change])[i].oldTierId != (history + [change])[i].newTierId
    {
      assert (history + [change])[..i] == history[..i];
      if i == |history| { assert history[..i] == history; }
    }
  }

  lemma RecalcTotals(book: Book, user: string, now: int, tiers: seq<Tier>, u: string)
    requires TotalsAgree(book, u) && AccountOf(book.accounts, u).tierId == TierAfter(book.history, u)
    ensures var after := Recalc(book, user, now, tiers);
            TotalsAgree(after, u) && AccountOf(after.accounts, u).tierId == TierAfter(after.history, u)
  {
    var after := Recalc(book, user, now, tiers);
    if after.history != book.history {
      TierAfterAppend(book.history, after.history[|book.history|], u);
    }
  }

  lemma RecalcKeepsInv(book: Book, user: string, now: int, tiers: seq<Tier>)
    requires Inv(book)
    ensures Inv(Recalc(book, user, now, tiers))
  {
    var after := Recalc(book, user, now, tiers);
    forall u
      ensures TotalsAgree(after, u) && AccountOf(after.accounts, u).tierId == TierAfter(after.history, u)
    {
      RecalcTotals(book, user, now, tiers, u);
    }
    if after.history != book.history {
      assert AccountOf(book.accounts, user).tierId == TierAfter(book.history, user);
      ChainAppend(book.history, after.history[|book.history|]);
    }
  }

  /** Two neighbouring entries of one user's history join up: the later starts where the earlier ended. */
  lemma {:induction false} HistoryConnected(history: seq<TierChange>, i: nat, j: nat)
    requires HistoryChained(history) && i < j < |history| && history[i].userId == history[j].userId
    requires forall k :: i < k < j ==> history[k].userId != history[i].userId
    ensures history[j].oldTierId == history[i].newTierId && history[j].oldTierId != history[j].newTierId
  {
    LastEntry(history, history[i].userId, i, j);
  }

  lemma {:induction false} LastEntry(history: seq<TierChange>, user: string, i: nat, j: nat)
    requires i < j <= |history| && history[i].userId == user
    requires forall k :: i < k < j ==> history[k].userId != user
    ensures TierAfter(history[..j], user) == history[i].newTierId
  {
    if j > i + 1 {
      LastEntry(history, user, i, j - 1);
      assert history[..j][..j - 1] == history[..j - 1];
    }
  }
}
