/** The webhook service of src/webhook/webhook.service.ts as it updates the stored rows. */
module WebhookService {
  import opened Wrappers
  import opened Webhook
  import opened WebhookInvariant
  import opened WebhookRuns

  /** Whether something else in a job throws: inside the handler's transaction, or after its writes. */
  datatype Failure = NoFailure | BeforeCommit | AfterCommit

  function FateOf(db: Db, ev: Event, picks: Picks, failure: Failure): Fate
    requires InTable(picks.primary, db.txns)
  {
    if failure.BeforeCommit? || Throws(db, ev, picks) then Threw(false)
    else if failure.AfterCommit? then Threw(true)
    else Finished
  }

  class WebhookService {
    var txns: seq<Txn>
    var bookings: seq<Booking>
    var booked: set<nat>
    var events: map<nat, Record>

    constructor ()
      ensures Contents() == EMPTY_WORLD
    {
      txns, bookings, booked, events := [], [], {}, map[];
    }

    function Tables(): Db
      reads this
    {
      Db(txns, bookings, booked)
    }

    function Contents(): World
      reads this
    {
      World(Tables(), events)
    }

    /** `createCheckoutSession`: refused when the ticket is already booked. Stripe's session ids are new. */
    method CreateCheckoutSession(session: nat, ticket: nat, amount: int, ghost owner: Owner) returns (created: bool)
      modifies this`txns, this`bookings
      ensures created <==> ticket !in booked
      ensures Tables() == StartCheckout(old(Tables()), session, ticket, amount)
      ensures !created ==> bookings == old(bookings) && txns == old(txns)
      ensures created ==>
                && bookings == old(bookings) + [Booking(PENDING, ticket)]
                && txns == old(txns) + [Txn(BOOKING_PAYMENT, TxnPending, amount, Some(|old(bookings)|),
                                            Some(Session(session)), Some(Session(session)), None, None)]
      ensures old(Inv(owner, Tables()) && Legal(owner, Contents(), Checkout(session, ticket, amount))) ==>
                Inv(owner, Tables()) && (created ==> Pays(Tables(), |old(txns)|, session, |old(bookings)|))
    {
      ghost var before := Contents();
      if Inv(owner, before.db) && Legal(owner, before, Checkout(session, ticket, amount)) {
        CheckoutKeepsInv(owner, before.db, session, ticket, amount);
      }
      if ticket in booked {
        return false;
      }
      bookings := bookings + [Booking(PENDING, ticket)];
      txns := txns + [Txn(BOOKING_PAYMENT, TxnPending, amount, Some(|bookings| - 1),
                          Some(Session(session)), Some(Session(session)), None, None)];
      return true;
    }

    /** Whether the event is handed to the queue. */
    method EnqueueWebhookEvent(id: nat) returns (queued: bool)
      modifies this`events
      ensures queued <==> id !in old(events) || old(events)[id].status != Processed
      ensures events == if id in old(events) then old(events) else old(events)[id := Record(RecordPending, None)]
      ensures events == Enqueued(old(events), id)
    {
      if id in events && events[id].status == Processed {
        return false;
      }
      if id !in events {
        events := events[id := Record(RecordPending, None)];
      }
      return true;
    }

    /**
     One job. In the states that arise no handler throws by itself, the invariant is kept, `isBooked`
     never reverts, and each checkout's booking moves only as the event says.
     */
    method ProcessWebhookJob(id: nat, ev: Event, picks: Picks, now: int, failure: Failure, ghost owner: Owner)
      returns (threw: bool)
      requires PicksInTable(txns, ev, picks)
      modifies this
      ensures Contents() == AfterJob(old(Contents()), id, ev, picks, now, FateOf(old(Tables()), ev, picks, failure))
      ensures threw <==> !IsProcessed(old(Contents()), id) && FateOf(old(Tables()), ev, picks, failure).Threw?
      ensures if id in old(events) && old(events)[id].status == Processed
              then events == old(events) && Tables() == old(Tables()) && !threw
              else events == old(events)[id := Record(if threw then Failed else Processed, Some(now))]
      ensures old(booked) <= booked
      ensures old(Inv(owner, Tables()) && Handleable(owner, Tables(), ev, picks)) ==>
                && Inv(owner, Tables())
                && (threw <==> !IsProcessed(old(Contents()), id) && !failure.NoFailure?)
                && (IsProcessed(old(Contents()), id) || failure.BeforeCommit? ==> Tables() == old(Tables()))
                && (!IsProcessed(old(Contents()), id) && !failure.BeforeCommit? ==>
                      AllSettled(old(Tables()), Tables(), ev, picks))
    {
      if Inv(owner, Tables()) && Handleable(owner, Tables(), ev, picks) { NeverThrows(owner, Tables(), ev, picks); }
      if id in events && events[id].status == Processed {
        return false;
      }
      threw := failure.BeforeCommit?;
      if !threw {
        threw := Dispatch(ev, picks, owner);
        threw := threw || failure.AfterCommit?;
      }
      events := events[id := Record(if threw then Failed else Processed, Some(now))];
    }

    /** The switch over event types. Whether the handler threw, having written nothing. */
    method Dispatch(ev: Event, picks: Picks, ghost owner: Owner) returns (threw: bool)
      requires PicksInTable(txns, ev, picks)
      modifies this`txns, this`bookings, this`booked
      ensures threw == Throws(old(Tables()), ev, picks)
      ensures Tables() == Effect(old(Tables()), ev, picks)
      ensures threw ==> Tables() == old(Tables())
      ensures old(booked) <= booked
      ensures old(Inv(owner, Tables()) && Handleable(owner, Tables(), ev, picks)) ==>
                Inv(owner, Tables()) && AllSettled(old(Tables()), Tables(), ev, picks)
    {
      threw := false;
      if Inv(owner, Tables()) && Handleable(owner, Tables(), ev, picks) {
        EffectKeepsInv(owner, Tables(), ev, picks);
        EffectSettlesAll(owner, Tables(), ev, picks);
      }
      match ev
      case CheckoutCompleted(_, paymentIntent) => HandleCheckoutSessionCompleted(paymentIntent, picks.primary);
      case CheckoutExpired(_, _) => CloseBooking(picks.primary, TxnFailed, EXPIRED);
      case IntentSucceeded(_, charge, group) => threw := HandlePaymentIntentSucceeded(charge, group, picks.primary);
      case IntentFailed(_) => CloseBooking(picks.primary, TxnFailed, CANCELLED);
      case IntentCanceled(_) => CloseBooking(picks.primary, TxnCancelled, CANCELLED);
      case TransferCreated(_, _, _, _, _) => HandleTransferCreated(ev, picks);
      case FeeCreated(_, _, _) => HandleApplicationFeeCreated(ev, picks);
      case ChargeRefunded(_, _, _) => HandleChargeRefunded(ev, picks);
      case Unhandled =>
    }

    method HandleCheckoutSessionCompleted(paymentIntent: Option<StripeId>, pick: Option<int>)
      requires InTable(pick, txns)
      modifies this`txns, this`bookings, this`booked
      ensures Tables() == if pick.Some? then Completed(old(Tables()), paymentIntent, pick.value) else old(Tables())
    {
      if pick.None? {
        return;
      }
      var i := pick.value;
      if paymentIntent.Some? {
        txns := txns[i := txns[i].(intent := paymentIntent)];
      }
      txns := txns[i := txns[i].(status := TxnSuccess)];
      var booking := txns[i].booking;
      if booking.Some? && 0 <= booking.value < |bookings| {
        bookings := bookings[booking.value := bookings[booking.value].(status := CONFIRMED)];
        booked := booked + {bookings[booking.value].ticket};
      }
    }

    /** The expired, failed and cancelled handlers: close the payment, and the booking if it is still PENDING. */
    method CloseBooking(pick: Option<int>, txnStatus: TxnStatus, status: BookingStatus)
      requires InTable(pick, txns)
      modifies this`txns, this`bookings
      ensures Tables() == if pick.Some? then Closed(old(Tables()), pick.value, txnStatus, status) else old(Tables())
    {
      if pick.None? {
        return;
      }
      var i := pick.value;
      txns := txns[i := txns[i].(status := txnStatus)];
      var booking := txns[i].booking;
      if booking.None? || !(0 <= booking.value < |bookings|) {
        return;
      }
      if bookings[booking.value].status != PENDING {
        return;
      }
      bookings := bookings[booking.value := bookings[booking.value].(status := status)];
    }

    /** The nested update of the booking throws when the payment has none, and the payment stays as it was. */
    method HandlePaymentIntentSucceeded(charge: Option<StripeId>, transferGroup: Option<StripeId>, pick: Option<int>)
      returns (threw: bool)
      requires InTable(pick, txns)
      modifies this`txns, this`bookings
      ensures threw <==> pick.Some? && old(txns)[pick.value].booking.None?
      ensures Tables() == if pick.Some? then Succeeded(old(Tables()), charge, transferGroup, pick.value)
              else old(Tables())
    {
      if pick.None? {
        return false;
      }
      var i := pick.value;
      var booking := txns[i].booking;
      if booking.None? {
        return true;
      }
      txns := txns[i := txns[i].(status := TxnSuccess, charge := charge, transfer := transferGroup)];
      if 0 <= booking.value < |bookings| {
        bookings := bookings[booking.value := bookings[booking.value].(status := CONFIRMED)];
      }
      return false;
    }

    method HandleTransferCreated(ev: Event, picks: Picks)
      requires ev.TransferCreated? && PicksInTable(txns, ev, picks)
      modifies this`txns
      ensures Tables() == Effect(old(Tables()), ev, picks)
    {
      if picks.primary.Some? {
        var t := txns[picks.primary.value];
        txns := txns[picks.primary.value :=
          t.(status := TxnSuccess, transfer := if t.transfer.Some? then t.transfer else Some(ev.transfer))];
      } else if ev.hostKnown {
        txns := txns + [PayoutRow(Tables(), ev, picks.parent)];
      }
    }

    method HandleApplicationFeeCreated(ev: Event, picks: Picks)
      requires ev.FeeCreated? && PicksInTable(txns, ev, picks)
      modifies this`txns
      ensures Tables() == Effect(old(Tables()), ev, picks)
    {
      if picks.primary.Some? {
        txns := txns[picks.primary.value := txns[picks.primary.value].(status := TxnSuccess)];
        return;
      }
      txns := txns + [CommissionRow(Tables(), ev, picks.parent)];
    }

    method HandleChargeRefunded(ev: Event, picks: Picks)
      requires ev.ChargeRefunded? && PicksInTable(txns, ev, picks)
      modifies this`txns
      ensures Tables() == Effect(old(Tables()), ev, picks)
    {
      if picks.primary.None? {
        return;
      }
      ghost var before := txns;
      for k := 0 to |ev.refunds|
        invariant txns == SettleRefunds(before, ev.refunds[..k], picks.refunds[..k])
      {
        assert ev.refunds[..k + 1][..k] == ev.refunds[..k] && picks.refunds[..k + 1][..k] == picks.refunds[..k];
        assert InTable(picks.refunds[k], before);
        if picks.refunds[k].None? {
          continue;
        }
        var found := picks.refunds[k].value;
        txns := txns[found := txns[found].(status := TxnSuccess, amount := ev.refunds[k].amount)];
      }
      assert ev.refunds[..|ev.refunds|] == ev.refunds && picks.refunds[..|ev.refunds|] == picks.refunds;
      var i := picks.primary.value;
      txns := txns[i := txns[i].(status := if ev.full then TxnFullyRefunded else TxnPartiallyRefunded)];
    }

    /** The step of `projectCleanup` that deletes old PROCESSED records. */
    method ProjectCleanup(cutoff: int)
      modifies this`events
      ensures events == Kept(old(events), cutoff)
    {
      events := map id | id in events &&
        !(events[id].status == Processed && events[id].processedAt.Some?
            && events[id].processedAt.value < cutoff) :: events[id];
    }
  }
}
