/**
 What each webhook handler and each job leaves, said of the rows and records themselves
 (src/webhook/webhook.service.ts, src/tasks/tasks.service.ts).
 */
module WebhookEffects {
  import opened Wrappers
  import opened Webhook
  import opened WebhookInvariant
  import opened WebhookRuns

  // ---------------------------------------------------------------- What the lookups look for

  /** The row an event is about: by session, intent, fee, transfer or charge, as its handler's query says. */
  predicate Concerns(ev: Event, t: Txn) {
    match ev
    case CheckoutCompleted(session, _) => t.external == Some(session)
    case CheckoutExpired(session, pi) => t.external == Some(session) || t.intent == pi
    case IntentSucceeded(pi, _, _) => t.intent == Some(pi)
    case IntentFailed(pi) => t.intent == Some(pi)
    case IntentCanceled(pi) => t.intent == Some(pi)
    case TransferCreated(id, charge, group, _, _) =>
      || t.transfer == Some(id)
      || (charge.Some? && t.charge == charge)
      || (group.Some? && t.intent == group)
    case FeeCreated(fee, charge, _) =>
      t.external == Some(fee) || (charge.Some? && t.charge == charge && t.kind == ADMIN_COMMISSION)
    case ChargeRefunded(charge, _, _) => t.charge == Some(charge)
    case Unhandled => false
  }

  /** A handler acts on some row the event is about, whenever there is one, and on no other. */
  lemma FoundRow(txns: seq<Txn>, ev: Event, picks: Picks)
    requires LegalPicks(txns, ev, picks)
    ensures match picks.primary
            case Some(i) => 0 <= i < |txns| && Concerns(ev, txns[i])
            case None => forall i :: 0 <= i < |txns| ==> !Concerns(ev, txns[i])
  {
    if picks.primary.None? {
      forall i | 0 <= i < |txns|
        ensures !Concerns(ev, txns[i])
      {
        assert !(x => Primary(ev, x))(txns[i]);
      }
    }
  }

  // ---------------------------------------------------------------- Bookings and payments

  function Rewritten(t: Txn, status: TxnStatus, intent: Option<StripeId>, charge: Option<StripeId>,
                     transfer: Option<StripeId>): Txn {
    Txn(t.kind, status, t.amount, t.booking, t.external, intent, charge, transfer)
  }

  predicate HasBooking(db: Db, i: int) {
    0 <= i < |db.txns| && db.txns[i].booking.Some? && 0 <= db.txns[i].booking.value < |db.bookings|
  }

  /** Row `i` is as given, its booking, if it has one, has the status given, and nothing else changed. */
  ghost predicate Wrote(before: Db, after: Db, i: int, t: Txn, status: BookingStatus) {
    && 0 <= i < |before.txns| && after.txns == before.txns[i := t]
    && if HasBooking(before, i)
       then
         var b := before.txns[i].booking.value;
         after.bookings == before.bookings[b := Booking(status, before.bookings[b].ticket)]
       else after.bookings == before.bookings
  }

  /** A completed checkout: SUCCESS with its intent if the event names one, CONFIRMED, and the ticket booked. */
  lemma CompletedWrites(db: Db, ev: Event, picks: Picks)
    requires ev.CheckoutCompleted? && LegalPicks(db.txns, ev, picks)
    ensures var after := Effect(db, ev, picks);
            match picks.primary
            case None => after == db
            case Some(i) =>
              var t := db.txns[i];
              var intent := if ev.paymentIntent.Some? then ev.paymentIntent else t.intent;
              && Wrote(db, after, i, Rewritten(t, TxnSuccess, intent, t.charge, t.transfer), CONFIRMED)
              && after.booked ==
                 (if HasBooking(db, i) then db.booked + {db.bookings[t.booking.value].ticket} else db.booked)
  {
  }

  function StatusAfter(db: Db, i: int, status: BookingStatus): BookingStatus {
    if HasBooking(db, i) && db.bookings[db.txns[i].booking.value].status != PENDING
    then db.bookings[db.txns[i].booking.value].status
    else status
  }

  /**
   An expired, failed or cancelled payment: FAILED, FAILED or CANCELLED whatever it was before, its
   booking EXPIRED, CANCELLED or CANCELLED if it was still PENDING; tickets stay as they are.
   */
  lemma ClosedWrites(db: Db, ev: Event, picks: Picks)
    requires (ev.CheckoutExpired? || ev.IntentFailed? || ev.IntentCanceled?) && LegalPicks(db.txns, ev, picks)
    ensures var after := Effect(db, ev, picks);
            match picks.primary
            case None => after == db
            case Some(i) =>
              var t := db.txns[i];
              var txnStatus := if ev.IntentCanceled? then TxnCancelled else TxnFailed;
              var status := if ev.CheckoutExpired? then EXPIRED else CANCELLED;
              && Wrote(db, after, i, Rewritten(t, txnStatus, t.intent, t.charge, t.transfer),
                       StatusAfter(db, i, status))
              && after.booked == db.booked
  {
    if picks.primary.Some? && HasBooking(db, picks.primary.value) {
      var b := db.txns[picks.primary.value].booking.value;
      assert db.bookings[b := Booking(db.bookings[b].status, db.bookings[b].ticket)] == db.bookings;
    }
  }

  /** A succeeded intent: SUCCESS with the event's charge and transfer group, CONFIRMED; tickets stay as they are. */
  lemma SucceededWrites(db: Db, ev: Event, picks: Picks)
    requires ev.IntentSucceeded? && LegalPicks(db.txns, ev, picks)
    ensures var after := Effect(db, ev, picks);
            match picks.primary
            case None => after == db
            case Some(i) =>
              var t := db.txns[i];
              if t.booking.None? then after == db
              else
                && Wrote(db, after, i, Rewritten(t, TxnSuccess, t.intent, ev.latestCharge, ev.transferGroup), CONFIRMED)
                && after.booked == db.booked
  {
  }

  /** A transfer or fee already on record: SUCCESS, and for a transfer its id if the row had none. */
  lemma MarkedWrites(db: Db, ev: Event, picks: Picks)
    requires (ev.TransferCreated? || ev.FeeCreated?) && LegalPicks(db.txns, ev, picks) && picks.primary.Some?
    ensures var t := db.txns[picks.primary.value];
            var id := if ev.TransferCreated? && t.transfer.None? then Some(ev.transfer) else t.transfer;
            Effect(db, ev, picks) ==
            Db(db.txns[picks.primary.value := Rewritten(t, TxnSuccess, t.intent, t.charge, id)], db.bookings, db.booked)
  {
  }

  /** A transfer or fee not on record: a new row with its amount and ids, for a transfer only if the host is known. */
  lemma AddedWrites(db: Db, ev: Event, picks: Picks)
    requires (ev.TransferCreated? || ev.FeeCreated?) && LegalPicks(db.txns, ev, picks) && picks.primary.None?
    ensures var booking := if picks.parent.Some? then db.txns[picks.parent.value].booking else None;
            var row :=
              if ev.TransferCreated?
              then Txn(SELLER_PAYOUT, TxnSuccess, ev.amount, booking, None, None, ev.sourceCharge, Some(ev.transfer))
              else Txn(ADMIN_COMMISSION, TxnSuccess, ev.feeAmount, booking, Some(ev.fee), None, ev.feeCharge, None);
            Effect(db, ev, picks) ==
            if ev.TransferCreated? && !ev.hostKnown then db else Db(db.txns + [row], db.bookings, db.booked)
  {
  }

  // ---------------------------------------------------------------- Refunds

  predicate IsRefundOf(ev: Event, k: int, t: Txn) {
    ev.ChargeRefunded? && 0 <= k < |ev.refunds| && t.external == Some(ev.refunds[k].id)
  }

  predicate Found(picks: Picks, x: int) {
    exists k :: 0 <= k < |picks.refunds| && picks.refunds[k] == Some(x)
  }

  /**
   A refund: the row of the charge becomes fully or partially refunded; every row found for one of the
   refunds becomes SUCCESS with the amount of a refund of its id; nothing else changes.
   */
  lemma RefundedWrites(db: Db, ev: Event, picks: Picks, x: int)
    requires ev.ChargeRefunded? && LegalPicks(db.txns, ev, picks) && 0 <= x < |db.txns|
    ensures var after := Effect(db, ev, picks);
            && |after.txns| == |db.txns| && after.bookings == db.bookings && after.booked == db.booked
            && (picks.primary.None? ==> after == db)
            && (picks.primary.Some? ==>
                  var refunded := if ev.full then TxnFullyRefunded else TxnPartiallyRefunded;
                  var status := if picks.primary == Some(x) then refunded
                                else if Found(picks, x) then TxnSuccess else db.txns[x].status;
                  && after.txns[x] == db.txns[x].(status := status, amount := after.txns[x].amount)
                  && (if Found(picks, x)
                      then exists k :: IsRefundOf(ev, k, db.txns[x]) && after.txns[x].amount == ev.refunds[k].amount
                      else after.txns[x].amount == db.txns[x].amount))
  {
    if picks.primary.Some? {
      SettledRow(db.txns, ev.refunds, picks.refunds, x);
      assert forall k :: 0 <= k < |ev.refunds| && picks.refunds[k] == Some(x) ==> IsRefundOf(ev, k, db.txns[x]);
    }
  }

  lemma {:induction false} SettledRow(txns: seq<Txn>, refunds: seq<RefundItem>, picks: seq<Option<int>>, x: int)
    requires |refunds| == |picks| && forall k :: 0 <= k < |picks| ==> InTable(picks[k], txns)
    requires 0 <= x < |txns|
    ensures var t := SettleRefunds(txns, refunds, picks)[x];
            if exists k :: 0 <= k < |picks| && picks[k] == Some(x)
            then t == txns[x].(status := TxnSuccess, amount := t.amount)
                 && exists k :: 0 <= k < |picks| && picks[k] == Some(x) && t.amount == refunds[k].amount
            else t == txns[x]
  {
    if refunds != [] {
      var n := |refunds| - 1;
      assert InTable(picks[n], txns);
      SettledRow(txns, refunds[..n], picks[..n], x);
      assert forall k :: 0 <= k < n ==> picks[..n][k] == picks[k] && refunds[..n][k] == refunds[k];
    }
  }

  // ---------------------------------------------------------------- Records of events

  predicate Done(w: World, id: nat) {
    id in w.events && w.events[id].status == Processed
  }

  /**
   What a job leaves on record: PROCESSED iff it was already or the job finished; FAILED if it threw;
   as it was if it crashed. A job of an event already PROCESSED changes nothing, and other events'
   records stay.
   */
  lemma JobLeaves(w: World, id: nat, ev: Event, picks: Picks, now: int, fate: Fate)
    requires PicksInTable(w.db.txns, ev, picks)
    ensures var after := AfterJob(w, id, ev, picks, now, fate);
            && (Done(after, id) <==> Done(w, id) || fate.Finished?)
            && (Done(w, id) ==> after == w)
            && (!Done(w, id) && fate.Finished? ==> after.events == w.events[id := Record(Processed, Some(now))])
            && (!Done(w, id) && fate.Threw? ==> after.events == w.events[id := Record(Failed, Some(now))])
            && (fate.Crashed? ==> after.events == w.events)
            && (!Done(w, id) ==>
                  after.db == if fate.Finished? || fate.applied then Effect(w.db, ev, picks) else w.db)
  {
  }

  /** Over whole runs: an event becomes PROCESSED only through a job of it that finishes. */
  lemma {:induction false} OnlyFinishedProcesses(owner: Owner, w: World, steps: seq<Step>, id: nat)
    requires LegalRun(owner, w, steps) && !Done(w, id)
    requires forall k :: 0 <= k < |steps| ==> !(steps[k].Job? && steps[k].id == id && steps[k].fate.Finished?)
    ensures !Done(Run(owner, w, steps), id)
    decreases |steps|
  {
    if steps != [] {
      assert !(steps[0].Job? && steps[0].id == id && steps[0].fate.Finished?);
      OnlyFinishedProcesses(owner, Next(owner, w, steps[0]), steps[1..], id);
    }
  }

  /**
   A job that threw is retried: its event is FAILED, is handed to the queue again, stays open whatever
   happens until a job of it finishes, and that job has its full effect on the tables it meets.
   */
  lemma ThrownIsRetried(owner: Owner, w: World, id: nat, first: Step, between: seq<Step>, again: Step)
    requires first.Job? && first.id == id && first.fate.Threw? && !Done(w, id) && Legal(owner, w, first)
    requires LegalRun(owner, Next(owner, w, first), between)
    requires forall k :: 0 <= k < |between| ==> !(between[k].Job? && between[k].id == id && between[k].fate.Finished?)
    requires again.Job? && again.id == id && again.fate.Finished?
    requires Legal(owner, Run(owner, Next(owner, w, first), between), again)
    ensures var thrown := Next(owner, w, first);
            var met := Run(owner, thrown, between);
            && thrown.events[id] == Record(Failed, Some(first.now)) && !Done(met, id)
            && Next(owner, met, again).db == Effect(met.db, again.ev, again.picks) && Done(Next(owner, met, again), id)
  {
    JobLeaves(w, id, first.ev, first.picks, first.now, first.fate);
    OnlyFinishedProcesses(owner, Next(owner, w, first), between, id);
  }

  /** In particular a paid checkout whose job threw before its commit is confirmed by the retry. */
  lemma RetryConfirms(owner: Owner, w: World, id: nat, first: Step, again: Step, i: int, session: nat, b: int)
    requires Inv(owner, w.db) && Pays(w.db, i, session, b) && !Done(w, id)
    requires first.Job? && first.id == id && first.fate == Threw(false) && Legal(owner, w, first)
    requires again.Job? && again.id == id && again.fate.Finished? && Legal(owner, Next(owner, w, first), again)
    requires again.ev.CheckoutCompleted? && again.ev.session == Session(session)
    ensures var end := Next(owner, Next(owner, w, first), again).db;
            && 0 <= b < |end.bookings| && end.bookings[b].status == CONFIRMED && end.bookings[b].ticket in end.booked
  {
    ThrownIsRetried(owner, w, id, first, [], again);
    EffectSettles(owner, w.db, again.ev, again.picks, i, session, b);
    EffectKeepsInv(owner, w.db, again.ev, again.picks);
    var end := Effect(w.db, again.ev, again.picks);
    assert Linked(end.bookings[b], end.booked);
  }

  /** A delivery is queued iff the event is not PROCESSED; it only ever adds a PENDING record, for an event not seen. */
  lemma EnqueueLeaves(w: World, id: nat)
    ensures Enqueued(w.events, id) == if id in w.events then w.events else w.events[id := Record(RecordPending, None)]
  {
  }

  /** A clean-up deletes exactly the PROCESSED records older than the cutoff: PENDING and FAILED ones stay. */
  lemma CleanupLeaves(w: World, cutoff: int, id: nat)
    ensures var after := Kept(w.events, cutoff);
            && (id in after ==> id in w.events && after[id] == w.events[id])
            && (id in w.events && id !in after <==>
                  Done(w, id) && w.events[id].processedAt.Some? && w.events[id].processedAt.value < cutoff)
  {
  }
}
