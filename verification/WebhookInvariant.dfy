/**
 What every webhook handler keeps true of the tables, and which rows its lookups can find. `owner`
 says which checkout session a payment intent belongs to: no two sessions share one.
 */
module WebhookInvariant {
  import opened Wrappers
  import opened Webhook

  type Owner = nat -> nat

  // ---------------------------------------------------------------- The invariant

  /** A checkout payment row: once it carries its intent, a completed event has confirmed its booking. */
  ghost predicate PaymentOk(owner: Owner, bookings: seq<Booking>, t: Txn) {
    && t.external.Some? && t.external.value.Session? && t.intent.Some?
    && t.booking.Some? && 0 <= t.booking.value < |bookings|
    && (t.intent == t.external
        || (t.intent.value.Intent? && owner(t.intent.value.n) == t.external.value.n
            && bookings[t.booking.value].status == CONFIRMED))
  }

  /** Any other row carries neither a session nor an intent. */
  predicate SideOk(t: Txn) {
    t.intent.None? && !(t.external.Some? && t.external.value.Session?)
        && (t.kind == ADMIN_COMMISSION ==> t.external.Some?)
  }

  ghost predicate RowOk(owner: Owner, bookings: seq<Booking>, t: Txn) {
    if t.kind == BOOKING_PAYMENT then PaymentOk(owner, bookings, t) else SideOk(t)
  }

  /** Two payments never share a session or a booking; two commissions never share a fee or a charge. */
  predicate Apart(t: Txn, t': Txn) {
    && (t.kind == BOOKING_PAYMENT && t'.kind == BOOKING_PAYMENT ==>
         t.external != t'.external && t.booking != t'.booking)
    && (t.kind == ADMIN_COMMISSION && t'.kind == ADMIN_COMMISSION ==>
          t.external != t'.external && (t.charge.Some? ==> t.charge != t'.charge))
  }

  /** A confirmed booking has its ticket booked. */
  predicate Linked(b: Booking, booked: set<nat>) {
    b.status == CONFIRMED ==> b.ticket in booked
  }

  predicate Settling(b: Booking) {
    b.status == PENDING || b.status == CONFIRMED || b.status == EXPIRED
  }

  ghost predicate Inv(owner: Owner, db: Db) {
    && (forall i :: 0 <= i < |db.txns| ==> RowOk(owner, db.bookings, db.txns[i]))
    && (forall i, j :: 0 <= i < |db.txns| && 0 <= j < |db.txns| && i != j ==> Apart(db.txns[i], db.txns[j]))
    && (forall b :: 0 <= b < |db.bookings| ==> Linked(db.bookings[b], db.booked) && Settling(db.bookings[b]))
  }

  // ---------------------------------------------------------------- Events

  /** Sessions and intents are used as such, and an event names its session's own intent. */
  predicate EventOk(owner: Owner, ev: Event) {
    match ev
    case CheckoutCompleted(session, pi) =>
      session.Session? && (pi.Some? ==> pi.value.Intent? && owner(pi.value.n) == session.n)
    case CheckoutExpired(session, pi) =>
      session.Session? && (pi.Some? ==> pi.value.Intent? && owner(pi.value.n) == session.n)
    case IntentSucceeded(pi, _, _) => pi.Intent?
    case IntentFailed(pi) => pi.Intent?
    case IntentCanceled(pi) => pi.Intent?
    case FeeCreated(fee, _, _) => fee.Fee?
    case _ => true
  }

  /**
   The expired-session lookup compares `stripePaymentIntent` with the session's intent. When that
   is null it also matches every row without an intent; this is the guard under which it does not.
   */
  predicate NullSafe(txns: seq<Txn>, ev: Event) {
    ev.CheckoutExpired? && ev.paymentIntent.None? ==> forall i :: 0 <= i < |txns| ==> txns[i].intent.Some?
  }

  /** An event the handlers are given, with rows its lookups may have found. */
  ghost predicate Handleable(owner: Owner, db: Db, ev: Event, picks: Picks) {
    EventOk(owner, ev) && LegalPicks(db.txns, ev, picks)
  }

  // ---------------------------------------------------------------- What the lookups can find

  lemma SameSession(owner: Owner, db: Db, i: int, j: int)
    requires Inv(owner, db) && 0 <= i < |db.txns| && 0 <= j < |db.txns|
    requires db.txns[i].external.Some? && db.txns[i].external.value.Session?
            && db.txns[i].external == db.txns[j].external
    ensures i == j && db.txns[i].kind == BOOKING_PAYMENT
  {
    assert RowOk(owner, db.bookings, db.txns[i]) && RowOk(owner, db.bookings, db.txns[j]);
    assert i != j ==> Apart(db.txns[i], db.txns[j]);
  }

  /**
   A completed event can only find the payment row of its own session, and so can an expired event
   that finds a payment row at all.
   */
  lemma SessionLookup(owner: Owner, db: Db, ev: Event, picks: Picks, i: int)
    requires Inv(owner, db) && Handleable(owner, db, ev, picks) && picks.primary == Some(i)
    requires ev.CheckoutCompleted? || (ev.CheckoutExpired? && db.txns[i].kind == BOOKING_PAYMENT)
    ensures db.txns[i].kind == BOOKING_PAYMENT && db.txns[i].external == Some(ev.session)
  {
    assert RowOk(owner, db.bookings, db.txns[i]) && Primary(ev, db.txns[i]);
  }

  /** An expired event that names its intent, or meets no row without one, finds a payment row. */
  lemma GuardFindsPayments(owner: Owner, db: Db, ev: Event, picks: Picks)
    requires Inv(owner, db) && Handleable(owner, db, ev, picks) && ev.CheckoutExpired? && NullSafe(db.txns, ev)
    ensures picks.primary.Some? ==> db.txns[picks.primary.value].kind == BOOKING_PAYMENT
  {
    if picks.primary.Some? {
      var t := db.txns[picks.primary.value];
      assert RowOk(owner, db.bookings, t) && Primary(ev, t);
    }
  }

  /** An intent event can only find a payment row that a completed event has already linked and confirmed. */
  lemma IntentLookup(owner: Owner, db: Db, ev: Event, picks: Picks, i: int)
    requires Inv(owner, db) && Handleable(owner, db, ev, picks)
            && (ev.IntentSucceeded? || ev.IntentFailed? || ev.IntentCanceled?)
    requires picks.primary == Some(i)
    ensures var t := db.txns[i];
            && t.kind == BOOKING_PAYMENT && t.intent == Some(ev.pi) && t.booking.Some?
            && 0 <= t.booking.value < |db.bookings|
            && db.bookings[t.booking.value].status == CONFIRMED && db.bookings[t.booking.value].ticket in db.booked
  {
    assert RowOk(owner, db.bookings, db.txns[i]) && Primary(ev, db.txns[i]);
    assert Linked(db.bookings[db.txns[i].booking.value], db.booked);
  }

  /** In the states that arise every payment an intent event finds has a booking, so its handler does not throw. */
  lemma NeverThrows(owner: Owner, db: Db, ev: Event, picks: Picks)
    requires Inv(owner, db) && Handleable(owner, db, ev, picks)
    ensures !Throws(db, ev, picks)
  {
    if ev.IntentSucceeded? && picks.primary.Some? { IntentLookup(owner, db, ev, picks, picks.primary.value); }
  }

  /** The expired lookup finds nothing but its own session's row exactly when the guard holds. */
  lemma ExpiredLookupExact(owner: Owner, db: Db, session: nat, paymentIntent: Option<StripeId>)
    requires Inv(owner, db) && EventOk(owner, CheckoutExpired(Session(session), paymentIntent))
    ensures var ev := CheckoutExpired(Session(session), paymentIntent);
            NullSafe(db.txns, ev)
            <==> forall i :: 0 <= i < |db.txns| && Primary(ev, db.txns[i]) ==>
                db.txns[i].external == Some(Session(session))
  {
    var ev := CheckoutExpired(Session(session), paymentIntent);
    forall i | 0 <= i < |db.txns|
      ensures NullSafe(db.txns, ev) && Primary(ev, db.txns[i]) ==> db.txns[i].external == Some(Session(session))
      ensures db.txns[i].intent.None? && paymentIntent.None? ==>
              Primary(ev, db.txns[i]) && db.txns[i].external != Some(Session(session))
    {
      assert RowOk(owner, db.bookings, db.txns[i]);
    }
  }

  // ---------------------------------------------------------------- Handlers keep the invariant

  /** Replacing a row by one of the same identity. */
  predicate SameIdentity(t: Txn, t': Txn) {
    t'.kind == t.kind && t'.booking == t.booking && t'.external == t.external
        && (t.kind == ADMIN_COMMISSION ==> t'.charge == t.charge)
  }

  lemma ReplaceRow(owner: Owner, db: Db, i: int, t: Txn, bookings: seq<Booking>, booked: set<nat>)
    requires Inv(owner, db) && 0 <= i < |db.txns| && SameIdentity(db.txns[i], t) && RowOk(owner, bookings, t)
    requires |bookings| == |db.bookings|
    requires forall b :: 0 <= b < |bookings| ==>
      Linked(bookings[b], booked) && Settling(bookings[b])
          && (db.bookings[b].status == CONFIRMED ==> bookings[b].status == CONFIRMED)
    ensures Inv(owner, Db(db.txns[i := t], bookings, booked))
  {
    var txns := db.txns[i := t];
    forall j | 0 <= j < |txns|
      ensures RowOk(owner, bookings, txns[j])
    {
      assert RowOk(owner, db.bookings, db.txns[j]);
    }
    forall j, k | 0 <= j < |txns| && 0 <= k < |txns| && j != k
      ensures Apart(txns[j], txns[k])
    {
      assert Apart(db.txns[j], db.txns[k]);
    }
  }

  lemma AppendRow(owner: Owner, db: Db, t: Txn)
    requires Inv(owner, db) && RowOk(owner, db.bookings, t)
    requires forall i :: 0 <= i < |db.txns| ==> Apart(db.txns[i], t) && Apart(t, db.txns[i])
    ensures Inv(owner, db.(txns := db.txns + [t]))
  {
    var txns := db.txns + [t];
    forall j, k | 0 <= j < |txns| && 0 <= k < |txns| && j != k
      ensures Apart(txns[j], txns[k])
    {
      if j < |db.txns| && k < |db.txns| { assert Apart(db.txns[j], db.txns[k]); }
    }
  }

  lemma CompletedKeepsInv(owner: Owner, db: Db, ev: Event, picks: Picks, i: int)
    requires Inv(owner, db) && Handleable(owner, db, ev, picks) && ev.CheckoutCompleted? && picks.primary == Some(i)
    ensures Inv(owner, Completed(db, ev.paymentIntent, i))
  {
    SessionLookup(owner, db, ev, picks, i);
    var after := Completed(db, ev.paymentIntent, i);
    assert RowOk(owner, db.bookings, db.txns[i]);
    forall b | 0 <= b < |after.bookings|
      ensures Linked(after.bookings[b], after.booked) && Settling(after.bookings[b])
    {
      assert Linked(db.bookings[b], db.booked) && Settling(db.bookings[b]);
    }
    ReplaceRow(owner, db, i, after.txns[i], after.bookings, after.booked);
  }

  lemma ClosedKeepsInv(owner: Owner, db: Db, ev: Event, picks: Picks, i: int, txnStatus: TxnStatus,
                       status: BookingStatus)
    requires Inv(owner, db) && Handleable(owner, db, ev, picks) && picks.primary == Some(i)
    requires (ev.CheckoutExpired? && status == EXPIRED) || ev.IntentFailed? || ev.IntentCanceled?
    ensures Inv(owner, Closed(db, i, txnStatus, status))
  {
    var after := Closed(db, i, txnStatus, status);
    assert RowOk(owner, db.bookings, db.txns[i]);
    if !ev.CheckoutExpired? { IntentLookup(owner, db, ev, picks, i); }
    forall b | 0 <= b < |after.bookings|
      ensures Linked(after.bookings[b], after.booked) && Settling(after.bookings[b])
    {
      assert Linked(db.bookings[b], db.booked) && Settling(db.bookings[b]);
    }
    ReplaceRow(owner, db, i, after.txns[i], after.bookings, after.booked);
  }

  /** `payment_intent.succeeded` changes no booking: the one it confirms is confirmed already. */
  lemma SucceededKeepsInv(owner: Owner, db: Db, ev: Event, picks: Picks, i: int)
    requires Inv(owner, db) && Handleable(owner, db, ev, picks) && ev.IntentSucceeded? && picks.primary == Some(i)
    ensures Inv(owner, Succeeded(db, ev.latestCharge, ev.transferGroup, i))
    ensures Succeeded(db, ev.latestCharge, ev.transferGroup, i).bookings == db.bookings
  {
    IntentLookup(owner, db, ev, picks, i);
    var after := Succeeded(db, ev.latestCharge, ev.transferGroup, i);
    assert RowOk(owner, db.bookings, db.txns[i]);
    assert after.bookings == db.bookings;
    ReplaceRow(owner, db, i, after.txns[i], after.bookings, after.booked);
  }

  lemma StatusOnlyKeepsInv(owner: Owner, db: Db, i: int, t: Txn)
    requires Inv(owner, db) && 0 <= i < |db.txns| && SameIdentity(db.txns[i], t) && t.intent == db.txns[i].intent
    ensures Inv(owner, db.(txns := db.txns[i := t]))
  {
    assert RowOk(owner, db.bookings, db.txns[i]);
    ReplaceRow(owner, db, i, t, db.bookings, db.booked);
  }

  lemma {:induction false} SettleKeepsInv(owner: Owner, db: Db, refunds: seq<RefundItem>, picks: seq<Option<int>>)
    requires Inv(owner, db) && |refunds| == |picks| && forall k :: 0 <= k < |picks| ==> InTable(picks[k], db.txns)
    ensures Inv(owner, db.(txns := SettleRefunds(db.txns, refunds, picks)))
  {
    if refunds != [] {
      var n := |refunds| - 1;
      SettleKeepsInv(owner, db, refunds[..n], picks[..n]);
      var before := db.(txns := SettleRefunds(db.txns, refunds[..n], picks[..n]));
      assert InTable(picks[n], db.txns);
      if picks[n].Some? {
        var k := picks[n].value;
        StatusOnlyKeepsInv(owner, before, k, before.txns[k].(status := TxnSuccess, amount := refunds[n].amount));
      }
    }
  }

  lemma RefundedKeepsInv(owner: Owner, db: Db, ev: Event, picks: Picks, i: int)
    requires Inv(owner, db) && ev.ChargeRefunded? && PicksInTable(db.txns, ev, picks) && picks.primary == Some(i)
    ensures Inv(owner, Refunded(db, ev, i, picks.refunds))
  {
    SettleKeepsInv(owner, db, ev.refunds, picks.refunds);
    var settled := db.(txns := SettleRefunds(db.txns, ev.refunds, picks.refunds));
    StatusOnlyKeepsInv(owner, settled, i,
        settled.txns[i].(status := if ev.full then TxnFullyRefunded else TxnPartiallyRefunded));
  }

  /** No commission exists yet for the fee or its charge when the handler creates one. */
  lemma NewRowKeepsInv(owner: Owner, db: Db, ev: Event, picks: Picks)
    requires Inv(owner, db) && Handleable(owner, db, ev, picks) && picks.primary.None?
            && (ev.FeeCreated? || ev.TransferCreated?)
    ensures Inv(owner, Effect(db, ev, picks))
  {
    if ev.FeeCreated? {
      var t := CommissionRow(db, ev, picks.parent);
      forall i | 0 <= i < |db.txns|
        ensures Apart(db.txns[i], t) && Apart(t, db.txns[i])
      {
        assert RowOk(owner, db.bookings, db.txns[i]) && !(x => Primary(ev, x))(db.txns[i]);
      }
      AppendRow(owner, db, t);
    } else if ev.hostKnown {
      AppendRow(owner, db, PayoutRow(db, ev, picks.parent));
    }
  }

  /** Every handler keeps the invariant. */
  lemma EffectKeepsInv(owner: Owner, db: Db, ev: Event, picks: Picks)
    requires Inv(owner, db) && Handleable(owner, db, ev, picks)
    ensures Inv(owner, Effect(db, ev, picks))
  {
    if picks.primary.None? {
      if ev.FeeCreated? || ev.TransferCreated? {
        NewRowKeepsInv(owner, db, ev, picks);
      }
      return;
    }
    var i := picks.primary.value;
    match ev
    case CheckoutCompleted(_, _) => CompletedKeepsInv(owner, db, ev, picks, i);
    case CheckoutExpired(_, _) => ClosedKeepsInv(owner, db, ev, picks, i, TxnFailed, EXPIRED);
    case IntentSucceeded(_, _, _) => SucceededKeepsInv(owner, db, ev, picks, i);
    case IntentFailed(_) => ClosedKeepsInv(owner, db, ev, picks, i, TxnFailed, CANCELLED);
    case IntentCanceled(_) => ClosedKeepsInv(owner, db, ev, picks, i, TxnCancelled, CANCELLED);
    case TransferCreated(_, _, _, _, _) => StatusOnlyKeepsInv(owner, db, i, Effect(db, ev, picks).txns[i]);
    case FeeCreated(_, _, _) => StatusOnlyKeepsInv(owner, db, i, Effect(db, ev, picks).txns[i]);
    case ChargeRefunded(_, _, _) => RefundedKeepsInv(owner, db, ev, picks, i);
    case Unhandled =>
  }
}
