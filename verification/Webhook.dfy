/**
 The tables the Stripe webhook handlers work on, and what each handler does to them
 (src/webhook/webhook.service.ts), as values. A `findFirst` may return any matching row, so the
 rows found are inputs, constrained by `LegalPicks`.
 */
module Webhook {
  import opened Wrappers

  /** Stripe object ids; the constructor stands for the id's prefix (`cs_`, `pi_`, ...). */
  datatype StripeId =
    | Session(n: nat) | Intent(n: nat) | Charge(n: nat) | Fee(n: nat)
    | Refund(n: nat) | Transfer(n: nat) | Group(n: nat)

  datatype TxnKind = BOOKING_PAYMENT | ADMIN_COMMISSION | SELLER_PAYOUT | BOOKING_REFUND

  datatype TxnStatus = TxnPending | TxnSuccess | TxnFailed | TxnCancelled | TxnPartiallyRefunded | TxnFullyRefunded

  datatype BookingStatus = PENDING | CONFIRMED | SHIPPED | DELIVERED | CANCELLED | EXPIRED | REFUNDED

  datatype Txn = Txn(
    kind: TxnKind,
    status: TxnStatus,
    amount: int,
    booking: Option<int>,
    external: Option<StripeId>,  // externalTxnId
    intent: Option<StripeId>,    // stripePaymentIntent
    charge: Option<StripeId>,    // stripeChargeId
    transfer: Option<StripeId>)  // stripeTransferId

  datatype Booking = Booking(status: BookingStatus, ticket: nat)

  /** Rows are identified by position; `booked` holds the tickets whose `isBooked` is true. */
  datatype Db = Db(txns: seq<Txn>, bookings: seq<Booking>, booked: set<nat>)

  datatype RefundItem = RefundItem(id: StripeId, amount: int)

  datatype Event =
    | CheckoutCompleted(session: StripeId, paymentIntent: Option<StripeId>)
    | CheckoutExpired(session: StripeId, paymentIntent: Option<StripeId>)
    | IntentSucceeded(pi: StripeId, latestCharge: Option<StripeId>, transferGroup: Option<StripeId>)
    | IntentFailed(pi: StripeId)
    | IntentCanceled(pi: StripeId)
    | TransferCreated(transfer: StripeId, sourceCharge: Option<StripeId>, group: Option<StripeId>, amount: int,
        hostKnown: bool)
    | FeeCreated(fee: StripeId, feeCharge: Option<StripeId>, feeAmount: int)
    | ChargeRefunded(refundedCharge: StripeId, refunds: seq<RefundItem>, full: bool)
    | Unhandled

  /** What the lookups of one run returned. */
  datatype Picks = Picks(primary: Option<int>, parent: Option<int>, refunds: seq<Option<int>>)

  // ---------------------------------------------------------------- Lookups

  /** The `where` of the handler's first `findFirst`. `null` equals `null`, as in the query. */
  predicate Primary(ev: Event, t: Txn) {
    match ev
    case CheckoutCompleted(session, _) => t.external == Some(session)
    case CheckoutExpired(session, pi) => t.external == Some(session) || t.intent == pi
    case IntentSucceeded(pi, _, _) => t.intent == Some(pi)
    case IntentFailed(pi) => t.intent == Some(pi)
    case IntentCanceled(pi) => t.intent == Some(pi)
    case TransferCreated(transfer, charge, group, _, _) =>
      t.transfer == Some(transfer) || (charge.Some? && t.charge == charge) || (group.Some? && t.intent == group)
    case FeeCreated(fee, charge, _) =>
      t.external == Some(fee) || (charge.Some? && t.charge == charge && t.kind == ADMIN_COMMISSION)
    case ChargeRefunded(charge, _, _) => t.charge == Some(charge)
    case Unhandled => false
  }

  /** The `where` of the lookup for the booking payment behind a fee or a transfer. */
  predicate Parent(ev: Event, t: Txn) {
    && t.kind == BOOKING_PAYMENT
    && match ev
       case TransferCreated(_, charge, group, _, _) =>
           (charge.Some? && t.charge == charge) || (group.Some? && t.intent == group)
       case FeeCreated(_, charge, _) => charge.Some? && t.charge == charge
       case _ => false
  }

  predicate InTable(pick: Option<int>, txns: seq<Txn>) {
    pick.Some? ==> 0 <= pick.value < |txns|
  }

  /** `pick` is an answer `findFirst` may give: some matching row, or none if there is none. */
  ghost predicate FindFirst(txns: seq<Txn>, where: Txn -> bool, pick: Option<int>) {
    && InTable(pick, txns)
    && (pick.Some? ==> where(txns[pick.value]))
    && (pick.None? ==> forall i :: 0 <= i < |txns| ==> !where(txns[i]))
  }

  predicate PicksInTable(txns: seq<Txn>, ev: Event, picks: Picks) {
    && InTable(picks.primary, txns) && InTable(picks.parent, txns)
    && (ev.ChargeRefunded? ==> |picks.refunds| == |ev.refunds|)
    && forall k :: 0 <= k < |picks.refunds| ==> InTable(picks.refunds[k], txns)
  }

  ghost predicate LegalPicks(txns: seq<Txn>, ev: Event, picks: Picks) {
    && PicksInTable(txns, ev, picks)
    && FindFirst(txns, t => Primary(ev, t), picks.primary)
    && FindFirst(txns, t => Parent(ev, t), picks.parent)
    && (ev.ChargeRefunded? ==>
          forall k :: 0 <= k < |ev.refunds| ==>
              FindFirst(txns, (t: Txn) => t.external == Some(ev.refunds[k].id), picks.refunds[k]))
  }

  // ---------------------------------------------------------------- Handlers

  function SetBooking(bookings: seq<Booking>, booking: Option<int>, status: BookingStatus): seq<Booking> {
    if booking.Some? && 0 <= booking.value < |bookings|
    then bookings[booking.value := bookings[booking.value].(status := status)]
    else bookings
  }

  /** The booking moves only if it is still PENDING. */
  function SetIfPending(bookings: seq<Booking>, booking: Option<int>, status: BookingStatus): seq<Booking> {
    if booking.Some? && 0 <= booking.value < |bookings| && bookings[booking.value].status == PENDING
    then SetBooking(bookings, booking, status)
    else bookings
  }

  function TicketsOf(bookings: seq<Booking>, booking: Option<int>): set<nat> {
    if booking.Some? && 0 <= booking.value < |bookings| then {bookings[booking.value].ticket} else {}
  }

  function Completed(db: Db, paymentIntent: Option<StripeId>, i: int): Db
    requires 0 <= i < |db.txns|
  {
    var t := db.txns[i];
    Db(db.txns[i := t.(intent := if paymentIntent.Some? then paymentIntent else t.intent, status := TxnSuccess)],
       SetBooking(db.bookings, t.booking, CONFIRMED),
       db.booked + TicketsOf(db.bookings, t.booking))
  }

  function Closed(db: Db, i: int, txnStatus: TxnStatus, status: BookingStatus): Db
    requires 0 <= i < |db.txns|
  {
    var t := db.txns[i];
    db.(txns := db.txns[i := t.(status := txnStatus)], bookings := SetIfPending(db.bookings, t.booking, status))
  }

  /** The nested booking update throws, and nothing is written, when the row has no booking (`Throws`). */
  function Succeeded(db: Db, charge: Option<StripeId>, transferGroup: Option<StripeId>, i: int): Db
    requires 0 <= i < |db.txns|
  {
    var t := db.txns[i];
    if t.booking.None? then db
    else
      db.(txns := db.txns[i := t.(status := TxnSuccess, charge := charge, transfer := transferGroup)],
          bookings := SetBooking(db.bookings, t.booking, CONFIRMED))
  }

  function BookingOf(txns: seq<Txn>, parent: Option<int>): Option<int>
    requires InTable(parent, txns)
  {
    if parent.Some? then txns[parent.value].booking else None
  }

  function CommissionRow(db: Db, ev: Event, parent: Option<int>): Txn
    requires ev.FeeCreated? && InTable(parent, db.txns)
  {
    Txn(ADMIN_COMMISSION, TxnSuccess, ev.feeAmount, BookingOf(db.txns, parent), Some(ev.fee), None, ev.feeCharge, None)
  }

  function PayoutRow(db: Db, ev: Event, parent: Option<int>): Txn
    requires ev.TransferCreated? && InTable(parent, db.txns)
  {
    Txn(SELLER_PAYOUT, TxnSuccess, ev.amount, BookingOf(db.txns, parent), None, None, ev.sourceCharge,
        Some(ev.transfer))
  }

  /** The refund loop: each refund row found is settled, the others are skipped. */
  function SettleRefunds(txns: seq<Txn>, refunds: seq<RefundItem>, picks: seq<Option<int>>): (r: seq<Txn>)
    requires |refunds| == |picks| && forall k :: 0 <= k < |picks| ==> InTable(picks[k], txns)
    ensures |r| == |txns|
  {
    if refunds == [] then txns
    else
      var n := |refunds| - 1;
      var before := SettleRefunds(txns, refunds[..n], picks[..n]);
      assert InTable(picks[n], txns);
      if picks[n].None? then before
      else
        var k := picks[n].value;
        before[k := before[k].(status := TxnSuccess, amount := refunds[n].amount)]
  }

  function Refunded(db: Db, ev: Event, i: int, picks: seq<Option<int>>): Db
    requires ev.ChargeRefunded? && |ev.refunds| == |picks| && 0 <= i < |db.txns|
    requires forall k :: 0 <= k < |picks| ==> InTable(picks[k], db.txns)
  {
    var settled := SettleRefunds(db.txns, ev.refunds, picks);
    db.(txns := settled[i := settled[i].(status := if ev.full then TxnFullyRefunded else TxnPartiallyRefunded)])
  }

  /** What a handler that commits does to the tables. */
  function Effect(db: Db, ev: Event, picks: Picks): Db
    requires PicksInTable(db.txns, ev, picks)
  {
    match picks.primary
    case Some(i) =>
      (match ev
       case CheckoutCompleted(_, pi) => Completed(db, pi, i)
       case CheckoutExpired(_, _) => Closed(db, i, TxnFailed, EXPIRED)
       case IntentSucceeded(_, charge, group) => Succeeded(db, charge, group, i)
       case IntentFailed(_) => Closed(db, i, TxnFailed, CANCELLED)
       case IntentCanceled(_) => Closed(db, i, TxnCancelled, CANCELLED)
       case TransferCreated(transfer, _, _, _, _) =>
         var t := db.txns[i];
         db.(txns := db.txns[i := t.(status := TxnSuccess,
                                     transfer := if t.transfer.Some? then t.transfer else Some(transfer))])
       case FeeCreated(_, _, _) => db.(txns := db.txns[i := db.txns[i].(status := TxnSuccess)])
       case ChargeRefunded(_, _, _) => Refunded(db, ev, i, picks.refunds)
       case Unhandled => db)
    case None =>
      (match ev
       case TransferCreated(_, _, _, _, hostKnown) =>
         if hostKnown then db.(txns := db.txns + [PayoutRow(db, ev, picks.parent)]) else db
       case FeeCreated(_, _, _) => db.(txns := db.txns + [CommissionRow(db, ev, picks.parent)])
       case _ => db)
  }

  predicate Throws(db: Db, ev: Event, picks: Picks)
    requires InTable(picks.primary, db.txns)
  {
    ev.IntentSucceeded? && picks.primary.Some? && db.txns[picks.primary.value].booking.None?
  }

  /** The rows `createCheckoutSession` writes; it refuses a ticket that is already booked. */
  function StartCheckout(db: Db, session: nat, ticket: nat, amount: int): Db {
    if ticket in db.booked then db
    else
      Db(db.txns + [Txn(BOOKING_PAYMENT, TxnPending, amount, Some(|db.bookings|), Some(Session(session)),
                        Some(Session(session)), None, None)],
         db.bookings + [Booking(PENDING, ticket)],
         db.booked)
  }
}
