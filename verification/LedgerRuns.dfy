/** Whole runs of the loyalty ledger: any sequence of awards, redemptions, sweeps and recalculations. */
module LedgerRuns {
  import opened Wrappers
  import opened Ledger
  import opened LedgerExpiry
  import opened LedgerTiers

  datatype Op =
    | AwardOp(user: string, points: int, now: int, expiresAt: Option<int>)
    | RedeemOp(user: string, points: int, order: seq<int>)
    | ExpireOp(now: int, limit: nat, page: seq<int>)
    | RecalcOp(user: string, now: int, tiers: seq<Tier>)

  /** Query answers are ones the database may give in this state. */
  ghost predicate Legal(book: Book, op: Op) {
    match op
    case RedeemOp(user, _, order) => InRange(order, |book.batches|) && RedeemOrder(book.batches, user, order)
    case ExpireOp(now, limit, page) => DuePage(book.batches, now, limit, page)
    case _ => true
  }

  ghost function Step(book: Book, op: Op): Book
    requires Legal(book, op)
  {
    match op
    case AwardOp(user, points, now, expiresAt) => Award(book, user, points, now, expiresAt)
    case RedeemOp(user, points, order) => Redeem(book, user, points, order).0
    case ExpireOp(_, _, page) => Expire(book, page)
    case RecalcOp(user, now, tiers) => Recalc(book, user, now, tiers)
  }

  ghost predicate LegalRun(book: Book, ops: seq<Op>)
    decreases |ops|
  {
    ops == [] || (Legal(book, ops[0]) && LegalRun(Step(book, ops[0]), ops[1..]))
  }

  ghost function Run(book: Book, ops: seq<Op>): Book
    requires LegalRun(book, ops)
    decreases |ops|
  {
    if ops == [] then book else Run(Step(book, ops[0]), ops[1..])
  }

  /** Points of one user that lapsed during a run. */
  ghost function LapsedOver(book: Book, ops: seq<Op>, user: string): int
    requires LegalRun(book, ops)
    decreases |ops|
  {
    if ops == [] then 0 else LapsedBy(book, ops[0], user) + LapsedOver(Step(book, ops[0]), ops[1..], user)
  }

  ghost function LapsedBy(book: Book, op: Op, user: string): int
    requires Legal(book, op)
  {
    if op.ExpireOp? then Swept(book.batches, op.page, user) else 0
  }

  lemma StepKeepsInv(book: Book, op: Op)
    requires Inv(book) && Legal(book, op)
    ensures Inv(Step(book, op))
  {
    match op
    case AwardOp(user, points, now, expiresAt) => AwardKeepsInv(book, user, points, now, expiresAt);
    case RedeemOp(user, points, order) => RedeemKeepsInv(book, user, points, order);
    case ExpireOp(_, _, page) => ExpireKeepsInv(book, page);
    case RecalcOp(user, now, tiers) => RecalcKeepsInv(book, user, now, tiers);
  }

  /** Points earned that are neither spendable nor redeemed. */
  function Missing(book: Book, user: string): int {
    var a := AccountOf(book.accounts, user);
    a.totalEarned - a.currentPoints - a.totalRedeemed
  }

  /** Only a sweep makes points disappear, and then exactly what its batches still held. */
  lemma StepConserves(book: Book, op: Op, user: string)
    requires Inv(book) && Legal(book, op)
    ensures Missing(Step(book, op), user) == Missing(book, user) + LapsedBy(book, op, user)
  {
    if op.ExpireOp? && user !in book.accounts {
      SweptOfStranger(book.batches, op.page, user);
    }
  }

  lemma {:induction false} RunFrom(book: Book, ops: seq<Op>, user: string)
    requires Inv(book) && LegalRun(book, ops)
    ensures Inv(Run(book, ops)) && Missing(Run(book, ops), user) == Missing(book, user) + LapsedOver(book, ops, user)
    decreases |ops|
  {
    if ops != [] {
      StepKeepsInv(book, ops[0]);
      StepConserves(book, ops[0], user);
      RunFrom(Step(book, ops[0]), ops[1..], user);
    }
  }

  lemma EmptyBookInv()
    ensures Inv(EMPTY_BOOK)
  {
  }

  /**
   After any run from the empty ledger: the cached totals agree with the rows, nobody is below
   zero, and every point ever earned is spendable, redeemed or lapsed.
   */
  lemma LedgerOverRuns(ops: seq<Op>, user: string)
    requires LegalRun(EMPTY_BOOK, ops)
    ensures var end := Run(EMPTY_BOOK, ops);
            var a := AccountOf(end.accounts, user);
            && Inv(end) && 0 <= a.currentPoints == Sum(end.batches, SpendableBy(user))
            && a.totalEarned == Sum(end.batches, EarnedBy(user))
            && a.totalEarned == a.currentPoints + a.totalRedeemed + LapsedOver(EMPTY_BOOK, ops, user)
  {
    EmptyBookInv();
    RunFrom(EMPTY_BOOK, ops, user);
    var end := Run(EMPTY_BOOK, ops);
    assert TotalsAgree(end, user);
    SumNonNegative(end.batches, SpendableBy(user));
  }
}
