/**
 Running a webhook handler again after its writes were committed: what one run leaves, when a second
 run can change nothing, and what a crash between the two costs
 (src/webhook/webhook.service.ts).
 */
module WebhookReruns {
  import opened Wrappers
  import opened Webhook
  import opened WebhookInvariant
  import opened WebhookRuns

  // ---------------------------------------------------------------- What a handled transfer or fee leaves

  /** Row `i` answers the event's lookup and carries SUCCESS. */
  predicate Recorded(txns: seq<Txn>, ev: Event, i: int) {
    0 <= i < |txns| && Primary(ev, txns[i]) && txns[i].status == TxnSuccess
  }

  /** Rows the event's lookup does not match stay as they are, and no booking or ticket moves. */
  ghost predicate TouchesOnlyMatches(before: Db, after: Db, ev: Event) {
    && after.bookings == before.bookings && after.booked == before.booked && |before.txns| <= |after.txns|
    && forall j :: 0 <= j < |before.txns| && !Primary(ev, before.txns[j]) ==> after.txns[j] == before.txns[j]
  }

  /**
   A handled transfer is on record with SUCCESS and a transfer id, unless no row matched and its
   destination is unknown. A row is added exactly when none matched and the destination is known, and
   that row has no booking: the lookup of its parent can find nothing the first lookup did not.
   */
  lemma TransferRecorded(db: Db, ev: Event, picks: Picks)
    requires ev.TransferCreated? && LegalPicks(db.txns, ev, picks)
    ensures var after := Effect(db, ev, picks);
            var matched := exists i :: 0 <= i < |db.txns| && Primary(ev, db.txns[i]);
            && TouchesOnlyMatches(db, after, ev)
            && |after.txns| - |db.txns| == (if !matched && ev.hostKnown then 1 else 0)
            && (matched || ev.hostKnown ==> exists i :: Recorded(after.txns, ev, i) && after.txns[i].transfer.Some?)
            && (forall i :: |db.txns| <= i < |after.txns| ==>
                  after.txns[i].booking.None? && after.txns[i].transfer == Some(ev.transfer)
                      && after.txns[i].amount == ev.amount)
            && (forall i :: 0 <= i < |db.txns| && db.txns[i].transfer.Some? ==>
                 after.txns[i].transfer == db.txns[i].transfer)
  {
    var after := Effect(db, ev, picks);
    if picks.primary.Some? {
      assert Primary(ev, db.txns[picks.primary.value]);
      assert Recorded(after.txns, ev, picks.primary.value);
    } else {
      NoMatch(db.txns, ev, picks);
      if ev.hostKnown { assert Recorded(after.txns, ev, |db.txns|); }
    }
  }

  lemma NoMatch(txns: seq<Txn>, ev: Event, picks: Picks)
    requires LegalPicks(txns, ev, picks) && picks.primary.None?
    ensures forall i :: 0 <= i < |txns| ==> !Primary(ev, txns[i])
  {
    forall i | 0 <= i < |txns|
      ensures !Primary(ev, txns[i])
    {
      assert !(x => Primary(ev, x))(txns[i]);
    }
  }

  /**
   A handled fee is on record with SUCCESS. A commission is added exactly when neither the fee nor
   its charge had one, with the fee's amount and the booking of the charge's payment, if there is one.
   */
  lemma FeeRecorded(owner: Owner, db: Db, ev: Event, picks: Picks)
    requires Inv(owner, db) && ev.FeeCreated? && Handleable(owner, db, ev, picks)
    ensures var after := Effect(db, ev, picks);
            var matched := exists i :: 0 <= i < |db.txns| && Primary(ev, db.txns[i]);
            && TouchesOnlyMatches(db, after, ev)
            && |after.txns| - |db.txns| == (if matched then 0 else 1)
            && (exists i :: Recorded(after.txns, ev, i))
            && (!matched ==>
                  var t := after.txns[|db.txns|];
                  && t.kind == ADMIN_COMMISSION && t.amount == ev.feeAmount
                  && ((exists i :: IsPaymentBy(db.txns, i, ev.feeCharge)) ==>
                        exists j :: IsPaymentOf(db.txns, j, ev.feeCharge, t.booking))
                  && (t.booking.Some? ==> exists j :: IsPaymentOf(db.txns, j, ev.feeCharge, t.booking)))
  {
    var after := Effect(db, ev, picks);
    if picks.primary.Some? {
      assert Primary(ev, db.txns[picks.primary.value]);
      assert Recorded(after.txns, ev, picks.primary.value);
    } else {
      NoMatch(db.txns, ev, picks);
      assert Recorded(after.txns, ev, |db.txns|);
      if picks.parent.Some? {
        assert Parent(ev, db.txns[picks.parent.value]);
        assert IsPaymentOf(db.txns, picks.parent.value, ev.feeCharge, after.txns[|db.txns|].booking);
      } else {
        forall i | 0 <= i < |db.txns|
          ensures !Parent(ev, db.txns[i])
        {
          assert !(x => Parent(ev, x))(db.txns[i]);
        }
      }
    }
  }

  predicate IsPaymentBy(txns: seq<Txn>, j: int, charge: Option<StripeId>) {
    0 <= j < |txns| && txns[j].kind == BOOKING_PAYMENT && charge.Some? && txns[j].charge == charge
  }

  predicate IsPaymentOf(txns: seq<Txn>, j: int, charge: Option<StripeId>, booking: Option<int>) {
    IsPaymentBy(txns, j, charge) && txns[j].booking == booking
  }

  // ---------------------------------------------------------------- When a second run can change nothing

  predicate Matches(txns: seq<Txn>, ev: Event, i: int) {
    0 <= i < |txns| && Primary(ev, txns[i])
  }

  predicate IsRefundRow(txns: seq<Txn>, item: RefundItem, i: int) {
    0 <= i < |txns| && txns[i].external == Some(item.id)
  }

  /** No lookup of the event has a choice. */
  ghost predicate SoleMatch(txns: seq<Txn>, ev: Event) {
    && (forall i, j :: Matches(txns, ev, i) && Matches(txns, ev, j) ==> i == j)
    && (ev.ChargeRefunded? ==>
          forall k, i, j ::
            0 <= k < |ev.refunds| && IsRefundRow(txns, ev.refunds[k], i) && IsRefundRow(txns, ev.refunds[k], j) ==>
              i == j)
  }

  function RefundStatus(ev: Event): TxnStatus
    requires ev.ChargeRefunded?
  {
    if ev.full then TxnFullyRefunded else TxnPartiallyRefunded
  }

  /** A row the handler would leave as it is, had its lookup found it. */
  predicate AlreadyWritten(ev: Event, t: Txn) {
    match ev
    case CheckoutExpired(_, _) => t.status == TxnFailed
    case TransferCreated(_, _, _, _, _) => t.status == TxnSuccess && t.transfer.Some?
    case FeeCreated(_, _, _) => t.status == TxnSuccess
    case ChargeRefunded(_, refunds, _) =>
      t.status == RefundStatus(ev) && forall k :: 0 <= k < |refunds| ==> t.external != Some(refunds[k].id)
    case _ => true
  }

  /** A row whose status the handler would leave as it is. */
  predicate StatusWritten(ev: Event, t: Txn) {
    if ev.TransferCreated? then t.status == TxnSuccess else AlreadyWritten(ev, t)
  }

  predicate IsPending(db: Db, booking: Option<int>) {
    booking.Some? && 0 <= booking.value < |db.bookings| && db.bookings[booking.value].status == PENDING
  }

  /**
   If any row an expired event may find belongs to a PENDING booking, all rows it may find belong to
   that booking.
   */
  ghost predicate OneBookingWaits(db: Db, ev: Event) {
    forall i, j :: Matches(db.txns, ev, i) && Matches(db.txns, ev, j) && IsPending(db, db.txns[j].booking) ==>
      db.txns[i].booking == db.txns[j].booking
  }

  /** Where the first lookup has a choice, the payments among its rows already carry the status. */
  ghost predicate PaymentsWritten(db: Db, ev: Event) {
    forall i, j ::
      Matches(db.txns, ev, i) && Matches(db.txns, ev, j) && i != j && db.txns[i].kind == BOOKING_PAYMENT ==>
        StatusWritten(ev, db.txns[i])
  }

  predicate RefundWritten(ev: Event, t: Txn, item: RefundItem) {
    t.amount == item.amount && (Primary(ev, t) || t.status == TxnSuccess)
  }

  /** Wherever a lookup has a choice, every row it may choose already holds what the handler writes. */
  ghost predicate Repeatable(db: Db, ev: Event) {
    && (forall i, j :: Matches(db.txns, ev, i) && Matches(db.txns, ev, j) && i != j ==> AlreadyWritten(ev, db.txns[i]))
    && (ev.CheckoutExpired? ==> OneBookingWaits(db, ev))
    && (ev.ChargeRefunded? && (exists m :: Matches(db.txns, ev, m)) ==> RefundsWritten(db.txns, ev))
  }

  ghost predicate RefundsWritten(txns: seq<Txn>, ev: Event)
    requires ev.ChargeRefunded?
  {
    forall k, i, j ::
      0 <= k < |ev.refunds| && i != j
      && IsRefundRow(txns, ev.refunds[k], i) && IsRefundRow(txns, ev.refunds[k], j) ==>
        RefundWritten(ev, txns[i], ev.refunds[k])
  }

  lemma SoleIsRepeatable(db: Db, ev: Event)
    requires SoleMatch(db.txns, ev)
    ensures Repeatable(db, ev)
  {
  }

  /** Two payments linked to one intent are the same row: an intent belongs to one session. */
  lemma SameIntent(owner: Owner, db: Db, i: int, j: int)
    requires Inv(owner, db) && 0 <= i < |db.txns| && 0 <= j < |db.txns|
    requires db.txns[i].intent.Some? && db.txns[i].intent.value.Intent? && db.txns[i].intent == db.txns[j].intent
    ensures i == j
  {
    assert RowOk(owner, db.bookings, db.txns[i]) && RowOk(owner, db.bookings, db.txns[j]);
    SameSession(owner, db, i, j);
  }

  /** The checkout and payment-intent events, which settle bookings. */
  predicate Settles(ev: Event) {
    ev.CheckoutCompleted? || ev.CheckoutExpired? || ev.IntentSucceeded? || ev.IntentFailed? || ev.IntentCanceled?
  }

  /**
   In every reachable state these have no choice of row, an expired event as long as it meets no row
   without an intent.
   */
  lemma SettlingIsSole(owner: Owner, db: Db, ev: Event)
    requires Inv(owner, db) && EventOk(owner, ev) && Settles(ev) && NullSafe(db.txns, ev)
    ensures SoleMatch(db.txns, ev)
  {
    forall i, j | Matches(db.txns, ev, i) && Matches(db.txns, ev, j)
      ensures i == j
    {
      assert RowOk(owner, db.bookings, db.txns[i]) && RowOk(owner, db.bookings, db.txns[j]);
      if ev.CheckoutCompleted? || ev.CheckoutExpired? {
        SameSession(owner, db, i, j);
      } else {
        SameIntent(owner, db, i, j);
      }
    }
  }

  // ---------------------------------------------------------------- The refund loop, row by row

  /** What the refund loop last wrote to row `k`. */
  function LastAmount(refunds: seq<RefundItem>, picks: seq<Option<int>>, k: int): Option<int>
    requires |refunds| == |picks|
  {
    if refunds == [] then None
    else
      var n := |refunds| - 1;
      if picks[n] == Some(k) then Some(refunds[n].amount) else LastAmount(refunds[..n], picks[..n], k)
  }

  lemma {:induction false} SettleAt(txns: seq<Txn>, refunds: seq<RefundItem>, picks: seq<Option<int>>, k: int)
    requires |refunds| == |picks| && forall j :: 0 <= j < |picks| ==> InTable(picks[j], txns)
    requires 0 <= k < |txns|
    ensures SettleRefunds(txns, refunds, picks)[k] ==
            match LastAmount(refunds, picks, k)
            case None => txns[k]
            case Some(amount) => txns[k].(status := TxnSuccess, amount := amount)
  {
    if refunds != [] {
      var n := |refunds| - 1;
      assert InTable(picks[n], txns);
      SettleAt(txns, refunds[..n], picks[..n], k);
    }
  }

  /** Row `k` after a refund event whose lookup found row `i`. */
  lemma RefundedAt(db: Db, ev: Event, i: int, picks: seq<Option<int>>, k: int)
    requires ev.ChargeRefunded? && |ev.refunds| == |picks| && 0 <= i < |db.txns| && 0 <= k < |db.txns|
    requires forall j :: 0 <= j < |picks| ==> InTable(picks[j], db.txns)
    ensures var last := LastAmount(ev.refunds, picks, k);
            |Refunded(db, ev, i, picks).txns| == |db.txns| &&
            Refunded(db, ev, i, picks).txns[k] == db.txns[k].(
              status := if k == i then RefundStatus(ev) else if last.Some? then TxnSuccess else db.txns[k].status,
              amount := last.GetOr(db.txns[k].amount))
  {
    SettleAt(db.txns, ev.refunds, picks, k);
  }

  lemma {:induction false} LastAmountFrom(refunds: seq<RefundItem>, picks: seq<Option<int>>, x: int) returns (k: int)
    requires |refunds| == |picks|
    ensures match LastAmount(refunds, picks, x)
            case None => forall j :: 0 <= j < |picks| ==> picks[j] != Some(x)
            case Some(amount) => 0 <= k < |picks| && picks[k] == Some(x) && amount == refunds[k].amount
  {
    k := 0;
    if refunds != [] {
      var n := |refunds| - 1;
      if picks[n] == Some(x) {
        k := n;
      } else {
        k := LastAmountFrom(refunds[..n], picks[..n], x);
        assert forall j :: 0 <= j < n ==> picks[..n][j] == picks[j];
      }
    }
  }

  lemma {:induction false} LastAmountSame(refunds: seq<RefundItem>, picks: seq<Option<int>>, again: seq<Option<int>>,
                                          x: int)
    requires |refunds| == |picks| == |again|
    requires forall k :: 0 <= k < |picks| ==> (picks[k] == Some(x) <==> again[k] == Some(x))
    ensures LastAmount(refunds, picks, x) == LastAmount(refunds, again, x)
  {
    if refunds != [] {
      var n := |refunds| - 1;
      LastAmountSame(refunds[..n], picks[..n], again[..n], x);
    }
  }

  // ---------------------------------------------------------------- The condition suffices

  lemma RerunSameRow(db: Db, ev: Event, picks: Picks, again: Picks)
    requires PicksInTable(db.txns, ev, picks) && picks.primary.Some? && !ev.ChargeRefunded?
    requires PicksInTable(Effect(db, ev, picks).txns, ev, again) && again.primary == picks.primary
    ensures Effect(Effect(db, ev, picks), ev, again) == Effect(db, ev, picks)
  {
    var once := Effect(db, ev, picks);
    var twice := Effect(once, ev, again);
    assert twice.txns == once.txns && twice.bookings == once.bookings && twice.booked == once.booked;
  }

  lemma RerunNewRow(db: Db, ev: Event, picks: Picks, again: Picks)
    requires LegalPicks(db.txns, ev, picks) && picks.primary.None?
    requires LegalPicks(Effect(db, ev, picks).txns, ev, again)
    ensures Effect(Effect(db, ev, picks), ev, again) == Effect(db, ev, picks)
  {
    var once, n := Effect(db, ev, picks), |db.txns|;
    forall i | 0 <= i < n
      ensures !Primary(ev, db.txns[i])
    {
      assert !(x => Primary(ev, x))(db.txns[i]);
    }
    if |once.txns| > n {
      var created := once.txns[n];
      assert Primary(ev, created);
      assert again.primary == Some(n) by {
        assert again.primary.None? ==> !(x => Primary(ev, x))(created);
      }
      assert once.txns[n := created] == once.txns;
    }
  }

  /** The row a handler found still answers the handler's lookup, and no other row starts or stops doing so. */
  lemma SameMatches(db: Db, ev: Event, picks: Picks, i: int)
    requires LegalPicks(db.txns, ev, picks) && picks.primary.Some? && 0 <= i < |db.txns|
    ensures var once := Effect(db, ev, picks).txns;
            |once| == |db.txns| && (Primary(ev, once[i]) <==> Primary(ev, db.txns[i]))
  {
    assert Primary(ev, db.txns[picks.primary.value]);
    if ev.ChargeRefunded? { RefundedAt(db, ev, picks.primary.value, picks.refunds, i); }
  }

  lemma RerunOtherRow(db: Db, ev: Event, picks: Picks, again: Picks)
    requires LegalPicks(db.txns, ev, picks) && picks.primary.Some? && Repeatable(db, ev)
    requires ev.CheckoutExpired? || ev.TransferCreated? || ev.FeeCreated?
    requires LegalPicks(Effect(db, ev, picks).txns, ev, again) && again.primary.Some? && again.primary != picks.primary
    ensures Effect(Effect(db, ev, picks), ev, again) == Effect(db, ev, picks)
  {
    var once, p, q := Effect(db, ev, picks), picks.primary.value, again.primary.value;
    SameMatches(db, ev, picks, q);
    assert Matches(db.txns, ev, p);
    assert Primary(ev, once.txns[q]);
    assert Matches(db.txns, ev, q);
    var twice := Effect(once, ev, again);
    assert twice.txns == once.txns;
    assert twice.bookings == once.bookings;
  }

  /** `x` ends up as after the first run: wherever two lookups may differ, the values written do not. */
  lemma RefundRowAgain(db: Db, ev: Event, picks: Picks, again: Picks, x: int)
    requires ev.ChargeRefunded? && LegalPicks(db.txns, ev, picks) && picks.primary.Some? && Repeatable(db, ev)
    requires LegalPicks(Effect(db, ev, picks).txns, ev, again) && again.primary.Some?
    requires 0 <= x < |db.txns|
    ensures Effect(Effect(db, ev, picks), ev, again).txns[x] == Effect(db, ev, picks).txns[x]
  {
    var once, p, q := Effect(db, ev, picks), picks.primary.value, again.primary.value;
    SameMatches(db, ev, picks, q);
    RefundedAt(db, ev, p, picks.refunds, x);
    RefundedAt(once, ev, q, again.refunds, x);
    assert Matches(db.txns, ev, p) && Matches(db.txns, ev, q);
    if forall k :: 0 <= k < |ev.refunds| ==> (picks.refunds[k] == Some(x) <==> again.refunds[k] == Some(x)) {
      LastAmountSame(ev.refunds, picks.refunds, again.refunds, x);
      NamedIfSettled(db, ev, picks, again, x);
    } else {
      ContestedRow(db, ev, picks, again, x);
    }
  }

  /** Both runs' refund lookups find rows of the refund they look for. */
  lemma RefundPicksMatch(db: Db, ev: Event, picks: Picks, again: Picks)
    requires ev.ChargeRefunded? && LegalPicks(db.txns, ev, picks) && picks.primary.Some?
    requires LegalPicks(Effect(db, ev, picks).txns, ev, again)
    ensures forall k :: 0 <= k < |ev.refunds| && picks.refunds[k].Some? ==>
              IsRefundRow(db.txns, ev.refunds[k], picks.refunds[k].value)
    ensures forall k :: 0 <= k < |ev.refunds| && again.refunds[k].Some? ==>
              IsRefundRow(db.txns, ev.refunds[k], again.refunds[k].value)
    ensures forall k, x :: 0 <= k < |ev.refunds| && IsRefundRow(db.txns, ev.refunds[k], x) ==>
              picks.refunds[k].Some? && again.refunds[k].Some?
  {
    var once := Effect(db, ev, picks);
    forall x | 0 <= x < |db.txns|
      ensures once.txns[x].external == db.txns[x].external
    {
      RefundedAt(db, ev, picks.primary.value, picks.refunds, x);
    }
    forall k, x | 0 <= k < |ev.refunds| && IsRefundRow(db.txns, ev.refunds[k], x)
      ensures picks.refunds[k].Some? && again.refunds[k].Some?
    {
      assert ((t: Txn) => t.external == Some(ev.refunds[k].id))(db.txns[x]);
      assert ((t: Txn) => t.external == Some(ev.refunds[k].id))(once.txns[x]);
    }
  }

  lemma NamedIfSettled(db: Db, ev: Event, picks: Picks, again: Picks, x: int)
    requires ev.ChargeRefunded? && LegalPicks(db.txns, ev, picks) && picks.primary.Some? && 0 <= x < |db.txns|
    requires LegalPicks(Effect(db, ev, picks).txns, ev, again)
    ensures LastAmount(ev.refunds, picks.refunds, x).Some? ==>
              exists k :: 0 <= k < |ev.refunds| && db.txns[x].external == Some(ev.refunds[k].id)
  {
    RefundPicksMatch(db, ev, picks, again);
    var k := LastAmountFrom(ev.refunds, picks.refunds, x);
    if LastAmount(ev.refunds, picks.refunds, x).Some? {
      assert IsRefundRow(db.txns, ev.refunds[k], x);
    }
  }

  /** A row one run settles for some refund and the other does not is one the loop would leave as it is. */
  lemma ContestedRow(db: Db, ev: Event, picks: Picks, again: Picks, x: int)
    requires ev.ChargeRefunded? && LegalPicks(db.txns, ev, picks) && picks.primary.Some? && Repeatable(db, ev)
    requires LegalPicks(Effect(db, ev, picks).txns, ev, again) && 0 <= x < |db.txns|
    requires exists k :: 0 <= k < |ev.refunds| && !(picks.refunds[k] == Some(x) <==> again.refunds[k] == Some(x))
    ensures Primary(ev, db.txns[x]) || db.txns[x].status == TxnSuccess
    ensures LastAmount(ev.refunds, picks.refunds, x).GetOr(db.txns[x].amount) == db.txns[x].amount
    ensures LastAmount(ev.refunds, again.refunds, x).GetOr(db.txns[x].amount) == db.txns[x].amount
    ensures exists k :: 0 <= k < |ev.refunds| && db.txns[x].external == Some(ev.refunds[k].id)
  {
    RefundPicksMatch(db, ev, picks, again);
    assert Matches(db.txns, ev, picks.primary.value) by { assert Primary(ev, db.txns[picks.primary.value]); }
    assert RefundsWritten(db.txns, ev);
    var k :| 0 <= k < |ev.refunds| && !(picks.refunds[k] == Some(x) <==> again.refunds[k] == Some(x));
    assert IsRefundRow(db.txns, ev.refunds[k], x);
    var y := if picks.refunds[k] == Some(x) then again.refunds[k].value else picks.refunds[k].value;
    assert IsRefundRow(db.txns, ev.refunds[k], y) && y != x;
    forall j | 0 <= j < |ev.refunds| && IsRefundRow(db.txns, ev.refunds[j], x)
      ensures RefundWritten(ev, db.txns[x], ev.refunds[j])
    {
      assert IsRefundRow(db.txns, ev.refunds[j], y);
    }
    var _ := LastAmountFrom(ev.refunds, picks.refunds, x);
    var _ := LastAmountFrom(ev.refunds, again.refunds, x);
  }

  /**
   A handler run again changes nothing, whatever rows its lookups return the second time, under a
   condition on the tables before the first run.
   */
  lemma RerunChangesNothing(owner: Owner, db: Db, ev: Event, picks: Picks, again: Picks)
    requires Inv(owner, db) && Handleable(owner, db, ev, picks) && Repeatable(db, ev)
    requires LegalPicks(Effect(db, ev, picks).txns, ev, again)
    ensures Effect(Effect(db, ev, picks), ev, again) == Effect(db, ev, picks)
  {
    var once := Effect(db, ev, picks);
    if picks.primary.None? {
      RerunNewRow(db, ev, picks, again);
      return;
    }
    var p := picks.primary.value;
    assert Primary(ev, db.txns[p]);
    SameMatches(db, ev, picks, p);
    MatchIsFound(once.txns, ev, again, p);
    var q := again.primary.value;
    SameMatches(db, ev, picks, q);
    assert Matches(db.txns, ev, p) && Matches(db.txns, ev, q);
    if ev.ChargeRefunded? {
      RefundAgain(db, ev, picks, again);
    } else if p == q {
      RerunSameRow(db, ev, picks, again);
    } else if ev.CheckoutExpired? || ev.TransferCreated? || ev.FeeCreated? {
      RerunOtherRow(db, ev, picks, again);
    } else {
      SettlingIsSole(owner, db, ev);
      assert false;
    }
  }

  lemma RefundAgain(db: Db, ev: Event, picks: Picks, again: Picks)
    requires ev.ChargeRefunded? && LegalPicks(db.txns, ev, picks) && picks.primary.Some? && Repeatable(db, ev)
    requires LegalPicks(Effect(db, ev, picks).txns, ev, again) && again.primary.Some?
    ensures Effect(Effect(db, ev, picks), ev, again) == Effect(db, ev, picks)
  {
    var once := Effect(db, ev, picks);
    var twice := Effect(once, ev, again);
    assert |twice.txns| == |once.txns| == |db.txns|;
    forall x | 0 <= x < |db.txns|
      ensures twice.txns[x] == once.txns[x]
    {
      RefundRowAgain(db, ev, picks, again, x);
    }
    assert twice.txns == once.txns;
  }

  // ---------------------------------------------------------------- The condition is necessary

  /** Some answer of a `findFirst`. */
  ghost function AnyRow(txns: seq<Txn>, where: Txn -> bool): (pick: Option<int>)
    ensures FindFirst(txns, where, pick)
  {
    if exists i :: 0 <= i < |txns| && where(txns[i]) then
      var i :| 0 <= i < |txns| && where(txns[i]);
      Some(i)
    else None
  }

  /** Answers for the refund lookups that return row `prefer` wherever they may. */
  ghost function RefundPicks(txns: seq<Txn>, ev: Event, prefer: int): (picks: seq<Option<int>>)
    requires ev.ChargeRefunded?
    ensures |picks| == |ev.refunds|
    ensures forall k :: 0 <= k < |ev.refunds| ==>
              FindFirst(txns, (t: Txn) => t.external == Some(ev.refunds[k].id), picks[k])
    ensures forall k :: 0 <= k < |ev.refunds| && IsRefundRow(txns, ev.refunds[k], prefer) ==> picks[k] == Some(prefer)
  {
    seq(|ev.refunds|, k requires 0 <= k < |ev.refunds| =>
      if IsRefundRow(txns, ev.refunds[k], prefer) then Some(prefer)
      else AnyRow(txns, (t: Txn) => t.external == Some(ev.refunds[k].id)))
  }

  ghost function PicksOf(txns: seq<Txn>, ev: Event, primary: int, prefer: int): (picks: Picks)
    requires Matches(txns, ev, primary)
    ensures LegalPicks(txns, ev, picks) && picks.primary == Some(primary)
    ensures ev.ChargeRefunded? ==> picks.refunds == RefundPicks(txns, ev, prefer)
  {
    Picks(Some(primary), AnyRow(txns, t => Parent(ev, t)),
          if ev.ChargeRefunded? then RefundPicks(txns, ev, prefer) else [])
  }

  /** Rows the lookups may return before the first run they may also return after it. */
  lemma StillLegal(db: Db, ev: Event, picks: Picks, again: Picks)
    requires ev.CheckoutExpired? || ev.TransferCreated? || ev.FeeCreated? || ev.ChargeRefunded?
    requires LegalPicks(db.txns, ev, picks) && LegalPicks(db.txns, ev, again)
    requires picks.primary.Some? && again.primary.Some?
    ensures LegalPicks(Effect(db, ev, picks).txns, ev, again)
  {
    var once, p := Effect(db, ev, picks).txns, picks.primary.value;
    SameMatches(db, ev, picks, again.primary.value);
    assert Primary(ev, db.txns[again.primary.value]);
    forall x | 0 <= x < |db.txns|
      ensures once[x].external == db.txns[x].external && (Parent(ev, once[x]) <==> Parent(ev, db.txns[x]))
    {
      if ev.ChargeRefunded? { RefundedAt(db, ev, p, picks.refunds, x); }
    }
    forall x | 0 <= x < |once| && again.parent.None?
      ensures !(t => Parent(ev, t))(once[x])
    {
      assert !(t => Parent(ev, t))(db.txns[x]);
    }
    if again.parent.Some? { assert (t => Parent(ev, t))(db.txns[again.parent.value]); }
    if ev.ChargeRefunded? {
      forall k | 0 <= k < |ev.refunds|
        ensures FindFirst(once, (t: Txn) => t.external == Some(ev.refunds[k].id), again.refunds[k])
      {
        assert FindFirst(db.txns, (t: Txn) => t.external == Some(ev.refunds[k].id), again.refunds[k]);
        forall x | 0 <= x < |once| && again.refunds[k].None?
          ensures once[x].external != Some(ev.refunds[k].id)
        {
          assert !((t: Txn) => t.external == Some(ev.refunds[k].id))(db.txns[x]);
        }
      }
    }
  }

  lemma UnwrittenShows(db: Db, ev: Event, i: int, j: int) returns (picks: Picks, again: Picks)
    requires Matches(db.txns, ev, i) && Matches(db.txns, ev, j) && i != j && !AlreadyWritten(ev, db.txns[i])
    ensures LegalPicks(db.txns, ev, picks) && LegalPicks(Effect(db, ev, picks).txns, ev, again)
    ensures Effect(Effect(db, ev, picks), ev, again) != Effect(db, ev, picks)
    ensures !StatusWritten(ev, db.txns[i]) ==>
              Effect(Effect(db, ev, picks), ev, again).txns[i].status != Effect(db, ev, picks).txns[i].status
  {
    picks, again := PicksOf(db.txns, ev, j, i), PicksOf(db.txns, ev, i, i);
    StillLegal(db, ev, picks, again);
    var once := Effect(db, ev, picks);
    var twice := Effect(once, ev, again);
    if ev.ChargeRefunded? {
      RefundedAt(db, ev, j, picks.refunds, i);
      RefundedAt(once, ev, i, again.refunds, i);
      var k := LastAmountFrom(ev.refunds, picks.refunds, i);
      if exists k :: 0 <= k < |ev.refunds| && db.txns[i].external == Some(ev.refunds[k].id) {
        var k :| 0 <= k < |ev.refunds| && db.txns[i].external == Some(ev.refunds[k].id);
        assert IsRefundRow(db.txns, ev.refunds[k], i) && picks.refunds[k] == Some(i);
      }
    }
    assert twice.txns[i] != once.txns[i];
  }

  lemma WaitingShows(db: Db, ev: Event, i: int, j: int) returns (picks: Picks, again: Picks)
    requires ev.CheckoutExpired? && Matches(db.txns, ev, i) && Matches(db.txns, ev, j)
    requires IsPending(db, db.txns[j].booking) && db.txns[i].booking != db.txns[j].booking
    ensures LegalPicks(db.txns, ev, picks) && LegalPicks(Effect(db, ev, picks).txns, ev, again)
    ensures Effect(Effect(db, ev, picks), ev, again) != Effect(db, ev, picks)
    ensures Effect(Effect(db, ev, picks), ev, again).bookings != Effect(db, ev, picks).bookings
  {
    picks, again := PicksOf(db.txns, ev, i, i), PicksOf(db.txns, ev, j, j);
    StillLegal(db, ev, picks, again);
    var b := db.txns[j].booking.value;
    var once := Effect(db, ev, picks);
    assert once.bookings[b].status == PENDING;
    assert Effect(once, ev, again).bookings[b].status == EXPIRED;
  }

  lemma RefundShows(db: Db, ev: Event, m: int, k: int, i: int, j: int) returns (picks: Picks, again: Picks)
    requires ev.ChargeRefunded? && Matches(db.txns, ev, m) && 0 <= k < |ev.refunds| && i != j
    requires IsRefundRow(db.txns, ev.refunds[k], i) && IsRefundRow(db.txns, ev.refunds[k], j)
    requires !RefundWritten(ev, db.txns[i], ev.refunds[k])
    ensures LegalPicks(db.txns, ev, picks) && LegalPicks(Effect(db, ev, picks).txns, ev, again)
    ensures Effect(Effect(db, ev, picks), ev, again) != Effect(db, ev, picks)
  {
    picks := PicksOf(db.txns, ev, m, j);
    again := picks.(refunds := picks.refunds[k := Some(i)]);
    assert LegalPicks(db.txns, ev, again);
    StillLegal(db, ev, picks, again);
    var once := Effect(db, ev, picks);
    var twice := Effect(once, ev, again);
    RefundedAt(db, ev, m, picks.refunds, i);
    RefundedAt(once, ev, m, again.refunds, i);
    NotPicked(db.txns, ev, i, j);
    var n0 := LastAmountFrom(ev.refunds, picks.refunds, i);
    var n := LastAmountFrom(ev.refunds, again.refunds, i);
    assert LastAmount(ev.refunds, again.refunds, i) == Some(ev.refunds[k].amount) by {
      assert again.refunds[k] == Some(i);
      assert n == k;
    }
    assert twice.txns[i] != once.txns[i];
  }

  /** Lookups that prefer row `j` never return another row of the same refund. */
  lemma NotPicked(txns: seq<Txn>, ev: Event, i: int, j: int)
    requires ev.ChargeRefunded? && 0 <= i < |txns| && 0 <= j < |txns| && i != j
    requires txns[i].external == txns[j].external
    ensures forall n :: 0 <= n < |ev.refunds| ==> RefundPicks(txns, ev, j)[n] != Some(i)
  {
    forall n | 0 <= n < |ev.refunds|
      ensures RefundPicks(txns, ev, j)[n] != Some(i)
    {
      assert FindFirst(txns, (t: Txn) => t.external == Some(ev.refunds[n].id), RefundPicks(txns, ev, j)[n]);
      assert IsRefundRow(txns, ev.refunds[n], i) ==> IsRefundRow(txns, ev.refunds[n], j);
    }
  }

  lemma ConditionIsNeeded(db: Db, ev: Event) returns (picks: Picks, again: Picks)
    requires !Repeatable(db, ev)
    ensures LegalPicks(db.txns, ev, picks) && LegalPicks(Effect(db, ev, picks).txns, ev, again)
    ensures Effect(Effect(db, ev, picks), ev, again) != Effect(db, ev, picks)
  {
    if i, j :| Matches(db.txns, ev, i) && Matches(db.txns, ev, j) && i != j && !AlreadyWritten(ev, db.txns[i]) {
      picks, again := UnwrittenShows(db, ev, i, j);
    } else if ev.CheckoutExpired? {
      var i, j :| Matches(db.txns, ev, i) && Matches(db.txns, ev, j) && IsPending(db, db.txns[j].booking)
                  && db.txns[i].booking != db.txns[j].booking;
      picks, again := WaitingShows(db, ev, i, j);
    } else {
      var m :| Matches(db.txns, ev, m);
      var k, i, j :| 0 <= k < |ev.refunds| && IsRefundRow(db.txns, ev.refunds[k], i)
                     && IsRefundRow(db.txns, ev.refunds[k], j) && i != j
                          && !RefundWritten(ev, db.txns[i], ev.refunds[k]);
      picks, again := RefundShows(db, ev, m, k, i, j);
    }
  }

  /** The lookups of two runs: rows the first may return before any write, and the second after it. */
  ghost predicate TwoRuns(db: Db, ev: Event, picks: Picks, again: Picks) {
    LegalPicks(db.txns, ev, picks) && LegalPicks(Effect(db, ev, picks).txns, ev, again)
  }

  ghost predicate Unchanged(db: Db, ev: Event, picks: Picks, again: Picks) {
    TwoRuns(db, ev, picks, again) ==>
      Effect(Effect(db, ev, picks), ev, again) == Effect(db, ev, picks)
  }

  /**
   The exact condition: running the handler twice is the same as running it once, whatever the
   lookups of either run return, if and only if every row a lookup could choose instead already
   holds what the handler writes.
   */
  lemma RerunUnchangedIff(owner: Owner, db: Db, ev: Event)
    requires Inv(owner, db) && EventOk(owner, ev)
    ensures (forall picks, again :: Unchanged(db, ev, picks, again)) <==> Repeatable(db, ev)
  {
    if Repeatable(db, ev) {
      forall picks, again
        ensures Unchanged(db, ev, picks, again)
      {
        if TwoRuns(db, ev, picks, again) {
          RerunChangesNothing(owner, db, ev, picks, again);
        }
      }
    } else {
      var picks, again := ConditionIsNeeded(db, ev);
      assert !Unchanged(db, ev, picks, again);
    }
  }

  // ---------------------------------------------------------------- What a re-run can never change

  /**
   For the events that settle bookings the repeated lookup has no choice: it finds the row found before,
   or nothing again.
   */
  lemma LookupRepeats(owner: Owner, db: Db, ev: Event, picks: Picks, again: Picks)
    requires Inv(owner, db) && Handleable(owner, db, ev, picks) && Settles(ev) && NullSafe(db.txns, ev)
    requires LegalPicks(Effect(db, ev, picks).txns, ev, again)
    ensures again.primary == picks.primary
  {
    SettlingIsSole(owner, db, ev);
    if picks.primary.Some? {
      var i := picks.primary.value;
      assert Primary(ev, db.txns[i]);
      SameMatches(db, ev, picks, i);
      MatchIsFound(Effect(db, ev, picks).txns, ev, again, i);
      SameMatches(db, ev, picks, again.primary.value);
      assert Matches(db.txns, ev, i) && Matches(db.txns, ev, again.primary.value);
    }
  }

  /** So a checkout or payment-intent handler run again changes nothing, whatever its lookups return. */
  lemma SettlingTwiceIsOnce(owner: Owner, db: Db, ev: Event, picks: Picks, again: Picks)
    requires Inv(owner, db) && Handleable(owner, db, ev, picks) && Settles(ev) && NullSafe(db.txns, ev)
    requires LegalPicks(Effect(db, ev, picks).txns, ev, again)
    ensures Effect(Effect(db, ev, picks), ev, again) == Effect(db, ev, picks)
  {
    SettlingIsSole(owner, db, ev);
    SoleIsRepeatable(db, ev);
    RerunChangesNothing(owner, db, ev, picks, again);
  }

  /**
   No handler run again changes a ticket or adds a row, and none changes a booking, except that an
   expired event may if one row it may find belongs to a PENDING booking and another to a different
   booking or to none.
   */
  lemma RerunKeepsBookings(owner: Owner, db: Db, ev: Event, picks: Picks, again: Picks)
    requires Inv(owner, db) && EventOk(owner, ev) && TwoRuns(db, ev, picks, again)
    ensures var once := Effect(db, ev, picks);
            var twice := Effect(once, ev, again);
            && twice.booked == once.booked && |twice.txns| == |once.txns|
            && (!ev.CheckoutExpired? || OneBookingWaits(db, ev) ==> twice.bookings == once.bookings)
  {
    var once := Effect(db, ev, picks);
    if picks.primary.None? {
      RerunNewRow(db, ev, picks, again);
      return;
    }
    var p := picks.primary.value;
    assert Primary(ev, db.txns[p]);
    SameMatches(db, ev, picks, p);
    MatchIsFound(once.txns, ev, again, p);
    SameMatches(db, ev, picks, again.primary.value);
    assert Matches(db.txns, ev, p) && Matches(db.txns, ev, again.primary.value);
    if Settles(ev) && !ev.CheckoutExpired? {
      SettlingTwiceIsOnce(owner, db, ev, picks, again);
    }
  }

  ghost predicate BookingsUnchanged(db: Db, ev: Event, picks: Picks, again: Picks) {
    TwoRuns(db, ev, picks, again) ==>
      Effect(Effect(db, ev, picks), ev, again).bookings == Effect(db, ev, picks).bookings
  }

  /** That exception is exact. */
  lemma BookingsUnchangedIff(owner: Owner, db: Db, ev: Event)
    requires Inv(owner, db) && EventOk(owner, ev)
    ensures (forall picks, again :: BookingsUnchanged(db, ev, picks, again))
            <==> !ev.CheckoutExpired? || OneBookingWaits(db, ev)
  {
    if !ev.CheckoutExpired? || OneBookingWaits(db, ev) {
      forall picks, again
        ensures BookingsUnchanged(db, ev, picks, again)
      {
        if TwoRuns(db, ev, picks, again) { RerunKeepsBookings(owner, db, ev, picks, again); }
      }
    } else {
      var i, j :| Matches(db.txns, ev, i) && Matches(db.txns, ev, j) && IsPending(db, db.txns[j].booking)
                  && db.txns[i].booking != db.txns[j].booking;
      var picks, again := WaitingShows(db, ev, i, j);
      assert !BookingsUnchanged(db, ev, picks, again);
    }
  }

  lemma RefundKeepsPayment(owner: Owner, db: Db, ev: Event, picks: Picks, again: Picks, x: int)
    requires Inv(owner, db) && ev.ChargeRefunded? && TwoRuns(db, ev, picks, again) && PaymentsWritten(db, ev)
    requires picks.primary.Some? && again.primary.Some?
    requires 0 <= x < |db.txns| && db.txns[x].kind == BOOKING_PAYMENT
    ensures Effect(Effect(db, ev, picks), ev, again).txns[x].status == Effect(db, ev, picks).txns[x].status
  {
    var once, p, q := Effect(db, ev, picks), picks.primary.value, again.primary.value;
    SameMatches(db, ev, picks, q);
    RefundedAt(db, ev, p, picks.refunds, x);
    RefundedAt(once, ev, q, again.refunds, x);
    assert Matches(db.txns, ev, p) && Matches(db.txns, ev, q);
    NamedIfSettled(db, ev, picks, again, x);
    RefundPicksMatch(db, ev, picks, again);
    forall k | 0 <= k < |ev.refunds|
      ensures picks.refunds[k] == Some(x) <==> again.refunds[k] == Some(x)
    {
      OwnRefundRow(owner, db, ev.refunds[k], x);
    }
    LastAmountSame(ev.refunds, picks.refunds, again.refunds, x);
  }

  /** No other row shares a payment's external id. */
  lemma OwnRefundRow(owner: Owner, db: Db, item: RefundItem, x: int)
    requires Inv(owner, db) && 0 <= x < |db.txns| && db.txns[x].kind == BOOKING_PAYMENT
    ensures forall y :: IsRefundRow(db.txns, item, x) && IsRefundRow(db.txns, item, y) ==> y == x
  {
    assert RowOk(owner, db.bookings, db.txns[x]);
    forall y | IsRefundRow(db.txns, item, x) && IsRefundRow(db.txns, item, y)
      ensures y == x
    {
      SameSession(owner, db, x, y);
    }
  }

  lemma RerunKeepsPayment(owner: Owner, db: Db, ev: Event, picks: Picks, again: Picks, x: int)
    requires Inv(owner, db) && EventOk(owner, ev) && TwoRuns(db, ev, picks, again) && PaymentsWritten(db, ev)
    requires 0 <= x < |db.txns| && db.txns[x].kind == BOOKING_PAYMENT
    ensures Effect(Effect(db, ev, picks), ev, again).txns[x].status == Effect(db, ev, picks).txns[x].status
  {
    var once := Effect(db, ev, picks);
    if picks.primary.None? {
      RerunNewRow(db, ev, picks, again);
      return;
    }
    var p := picks.primary.value;
    assert Primary(ev, db.txns[p]);
    SameMatches(db, ev, picks, p);
    MatchIsFound(once.txns, ev, again, p);
    SameMatches(db, ev, picks, again.primary.value);
    assert Matches(db.txns, ev, p) && Matches(db.txns, ev, again.primary.value);
    if Settles(ev) && !ev.CheckoutExpired? {
      SettlingTwiceIsOnce(owner, db, ev, picks, again);
    } else if ev.ChargeRefunded? {
      RefundKeepsPayment(owner, db, ev, picks, again, x);
    }
  }

  ghost predicate PaymentsUnchanged(db: Db, ev: Event, picks: Picks, again: Picks) {
    TwoRuns(db, ev, picks, again) ==>
      var once := Effect(db, ev, picks);
      forall x :: 0 <= x < |db.txns| && db.txns[x].kind == BOOKING_PAYMENT ==>
        x < |once.txns| && x < |Effect(once, ev, again).txns|
        && Effect(once, ev, again).txns[x].status == once.txns[x].status
  }

  /** The exact condition for the payment statuses alone. */
  lemma PaymentsUnchangedIff(owner: Owner, db: Db, ev: Event)
    requires Inv(owner, db) && EventOk(owner, ev)
    ensures (forall picks, again :: PaymentsUnchanged(db, ev, picks, again)) <==> PaymentsWritten(db, ev)
  {
    if PaymentsWritten(db, ev) {
      forall picks, again
        ensures PaymentsUnchanged(db, ev, picks, again)
      {
        if TwoRuns(db, ev, picks, again) {
          RerunKeepsBookings(owner, db, ev, picks, again);
          RowsStay(db, ev, picks);
          forall x | 0 <= x < |db.txns| && db.txns[x].kind == BOOKING_PAYMENT {
            RerunKeepsPayment(owner, db, ev, picks, again, x);
          }
        }
      }
    } else {
      var i, j :| Matches(db.txns, ev, i) && Matches(db.txns, ev, j) && i != j
                  && db.txns[i].kind == BOOKING_PAYMENT && !StatusWritten(ev, db.txns[i]);
      var picks, again := UnwrittenShows(db, ev, i, j);
      assert !PaymentsUnchanged(db, ev, picks, again);
    }
  }

  lemma RowsStay(db: Db, ev: Event, picks: Picks)
    requires LegalPicks(db.txns, ev, picks)
    ensures |db.txns| <= |Effect(db, ev, picks).txns|
  {
  }

  /** The worlds after one job, and after a job that died once its writes were committed and ran again. */
  function JobOnce(w: World, id: nat, ev: Event, picks: Picks, now: int): World
    requires PicksInTable(w.db.txns, ev, picks)
  {
    AfterJob(w, id, ev, picks, now, Finished)
  }

  function JobAfterCrash(w: World, id: nat, ev: Event, picks: Picks, again: Picks, now: int): World
    requires !IsProcessed(w, id) && PicksInTable(w.db.txns, ev, picks)
    requires PicksInTable(Effect(w.db, ev, picks).txns, ev, again)
  {
    AfterJob(AfterJob(w, id, ev, picks, now, Crashed(true)), id, ev, again, now, Finished)
  }

  lemma CrashTables(w: World, id: nat, ev: Event, picks: Picks, again: Picks, now: int)
    requires !IsProcessed(w, id) && TwoRuns(w.db, ev, picks, again)
    ensures var once, twice := JobOnce(w, id, ev, picks, now), JobAfterCrash(w, id, ev, picks, again, now);
            && once.db == Effect(w.db, ev, picks) && twice.db == Effect(once.db, ev, again)
            && twice.events == once.events
  {
  }

  /**
   Crash safety: a worker that dies after the handler's writes but before PROCESSED is recorded, and
   whose job then runs again, always ends with the event record, the tickets and the row counts of
   one run. Whatever the lookups return, it ends with the bookings of one run unless an expired
   event may find a row of a PENDING booking and one of a different booking or of none, with the
   payment statuses of one run unless a payment could be found beside another row and lacks the
   status, and with all the rows of one run exactly when the handler is repeatable.
   */
  lemma CrashIsRepaired(owner: Owner, w: World, id: nat, ev: Event, now: int)
    requires Inv(owner, w.db) && EventOk(owner, ev) && !IsProcessed(w, id)
    ensures forall picks, again :: TwoRuns(w.db, ev, picks, again) ==>
              var once, twice := JobOnce(w, id, ev, picks, now), JobAfterCrash(w, id, ev, picks, again, now);
              && once.db == Effect(w.db, ev, picks) && twice.db == Effect(once.db, ev, again)
              && twice.events == once.events && twice.db.booked == once.db.booked
              && |twice.db.txns| == |once.db.txns|
    ensures (forall picks, again :: TwoRuns(w.db, ev, picks, again) ==>
               JobAfterCrash(w, id, ev, picks, again, now).db.bookings == JobOnce(w, id, ev, picks, now).db.bookings)
            <==> !ev.CheckoutExpired? || OneBookingWaits(w.db, ev)
    ensures (forall picks, again :: PaymentsUnchanged(w.db, ev, picks, again)) <==> PaymentsWritten(w.db, ev)
    ensures (forall picks, again :: TwoRuns(w.db, ev, picks, again) ==>
               JobAfterCrash(w, id, ev, picks, again, now) == JobOnce(w, id, ev, picks, now))
            <==> Repeatable(w.db, ev)
  {
    forall picks, again | TwoRuns(w.db, ev, picks, again)
      ensures var once, twice := JobOnce(w, id, ev, picks, now), JobAfterCrash(w, id, ev, picks, again, now);
              && once.db == Effect(w.db, ev, picks) && twice.db == Effect(once.db, ev, again)
              && twice.events == once.events && twice.db.booked == once.db.booked
              && |twice.db.txns| == |once.db.txns|
              && (BookingsUnchanged(w.db, ev, picks, again) <==> twice.db.bookings == once.db.bookings)
              && (Unchanged(w.db, ev, picks, again) <==> twice == once)
    {
      CrashTables(w, id, ev, picks, again, now);
      RerunKeepsBookings(owner, w.db, ev, picks, again);
    }
    BookingsUnchangedIff(owner, w.db, ev);
    PaymentsUnchangedIff(owner, w.db, ev);
    RerunUnchangedIff(owner, w.db, ev);
  }

  lemma RunCons(owner: Owner, w: World, step: Step, rest: seq<Step>)
    requires Legal(owner, w, step) && LegalRun(owner, Next(owner, w, step), rest)
    ensures LegalRun(owner, w, [step] + rest)
    ensures Run(owner, w, [step] + rest) == Run(owner, Next(owner, w, step), rest)
  {
    assert ([step] + rest)[1..] == rest;
  }

  function PaidRow(amount: int, session: nat, pi: nat, charge: Option<StripeId>): Txn {
    Txn(BOOKING_PAYMENT, TxnSuccess, amount, Some(0), Some(Session(session)), Some(Intent(pi)), charge, None)
  }

  function FeeRow(feeAmount: int, fee: nat, charge: StripeId): Txn {
    Txn(ADMIN_COMMISSION, TxnSuccess, feeAmount, Some(0), Some(Fee(fee)), None, Some(charge), None)
  }

  function Paid(row: Txn, ticket: nat): Db {
    Db([row], [Booking(CONFIRMED, ticket)], {ticket})
  }

  lemma CompletedJob(owner: Owner, session: nat, ticket: nat, amount: int, pi: nat) returns (steps: seq<Step>, w: World)
    requires owner(pi) == session
    ensures LegalRun(owner, EMPTY_WORLD, steps) && w == Run(owner, EMPTY_WORLD, steps) && w.events.Keys == {0}
    ensures w.db == Paid(PaidRow(amount, session, pi, None), ticket)
  {
    var checkout := Checkout(session, ticket, amount);
    var job := Job(0, CheckoutCompleted(Session(session), Some(Intent(pi))), Picks(Some(0), None, []), 0, Finished);
    var made := Next(owner, EMPTY_WORLD, checkout);
    w := Next(owner, made, job);
    RunCons(owner, made, job, []);
    RunCons(owner, EMPTY_WORLD, checkout, [job]);
    steps := [checkout] + [job];
  }

  lemma SucceededJob(owner: Owner, w: World, session: nat, ticket: nat, amount: int, pi: nat, charge: nat)
    returns (job: Step)
    requires w.db == Paid(PaidRow(amount, session, pi, None), ticket) && w.events.Keys == {0}
    ensures Legal(owner, w, job)
    ensures Next(owner, w, job).db == Paid(PaidRow(amount, session, pi, Some(Charge(charge))), ticket)
    ensures Next(owner, w, job).events.Keys == {0, 1}
  {
    job := Job(1, IntentSucceeded(Intent(pi), Some(Charge(charge)), None), Picks(Some(0), None, []), 0, Finished);
  }

  lemma FeeJob(owner: Owner, w: World, row: Txn, ticket: nat, charge: nat, fee: nat, feeAmount: int) returns (job: Step)
    requires w.db == Paid(row, ticket) && w.events.Keys == {0, 1}
    requires row.kind == BOOKING_PAYMENT && row.charge == Some(Charge(charge)) && row.booking == Some(0)
    requires row.external.Some? && row.external.value.Session?
    ensures Legal(owner, w, job)
    ensures Next(owner, w, job).db == Db([row, FeeRow(feeAmount, fee, Charge(charge))], w.db.bookings, w.db.booked)
  {
    job := Job(2, FeeCreated(Fee(fee), Some(Charge(charge)), feeAmount), Picks(None, Some(0), []), 0, Finished);
  }

  lemma {:induction false} RunAppend(owner: Owner, w: World, steps: seq<Step>, step: Step)
    requires LegalRun(owner, w, steps) && Legal(owner, Run(owner, w, steps), step)
    ensures LegalRun(owner, w, steps + [step])
    ensures Run(owner, w, steps + [step]) == Next(owner, Run(owner, w, steps), step)
    decreases |steps|
  {
    if steps == [] {
      RunCons(owner, w, step, []);
      assert [] + [step] == [step] + [];
    } else {
      var next := Next(owner, w, steps[0]);
      RunAppend(owner, next, steps[1..], step);
      RunCons(owner, w, steps[0], steps[1..] + [step]);
      assert steps + [step] == [steps[0]] + (steps[1..] + [step]);
    }
  }

  /** The tables after a checkout is completed, its intent succeeds and its application fee is reported. */
  lemma PaidCheckout(owner: Owner, session: nat, ticket: nat, amount: int, pi: nat, charge: nat, fee: nat,
                     feeAmount: int)
    returns (db: Db)
    requires owner(pi) == session
    ensures exists steps :: LegalRun(owner, EMPTY_WORLD, steps) && db == Run(owner, EMPTY_WORLD, steps).db
    ensures db == Db([PaidRow(amount, session, pi, Some(Charge(charge))), FeeRow(feeAmount, fee, Charge(charge))],
                     [Booking(CONFIRMED, ticket)], {ticket})
  {
    var steps, w := CompletedJob(owner, session, ticket, amount, pi);
    var succeeded := SucceededJob(owner, w, session, ticket, amount, pi, charge);
    RunAppend(owner, EMPTY_WORLD, steps, succeeded);
    var paid := PaidRow(amount, session, pi, Some(Charge(charge)));
    var reported := FeeJob(owner, Next(owner, w, succeeded), paid, ticket, charge, fee, feeAmount);
    RunAppend(owner, EMPTY_WORLD, steps + [succeeded], reported);
    db := Run(owner, EMPTY_WORLD, steps + [succeeded] + [reported]).db;
  }

  /**
   The condition can fail in a reachable state. The commission of a paid checkout carries the
   payment's charge, so a full refund may mark the commission, and its re-run the payment.
   */
  lemma RefundRerunMovesPayment(owner: Owner, session: nat, ticket: nat, amount: int, pi: nat, charge: nat, fee: nat,
                                feeAmount: int)
    returns (db: Db)
    requires owner(pi) == session
    ensures exists steps :: LegalRun(owner, EMPTY_WORLD, steps) && db == Run(owner, EMPTY_WORLD, steps).db
    ensures var ev := ChargeRefunded(Charge(charge), [], true);
            var picks, again := Picks(Some(1), None, []), Picks(Some(0), None, []);
            && LegalPicks(db.txns, ev, picks) && LegalPicks(Effect(db, ev, picks).txns, ev, again)
            && db.txns[0].kind == BOOKING_PAYMENT && !PaymentsWritten(db, ev) && !Repeatable(db, ev)
            && Effect(db, ev, picks).txns[0].status == TxnSuccess
            && Effect(Effect(db, ev, picks), ev, again).txns[0].status == TxnFullyRefunded
  {
    db := PaidCheckout(owner, session, ticket, amount, pi, charge, fee, feeAmount);
    assert Matches(db.txns, ChargeRefunded(Charge(charge), [], true), 0);
    assert Matches(db.txns, ChargeRefunded(Charge(charge), [], true), 1);
  }

  lemma WaitingCheckout(owner: Owner, session: nat, ticket: nat, amount: int, fee: nat, feeAmount: int) returns (db: Db)
    ensures exists steps :: LegalRun(owner, EMPTY_WORLD, steps) && db == Run(owner, EMPTY_WORLD, steps).db
    ensures |db.txns| == 2 && db.bookings == [Booking(PENDING, ticket)]
    ensures db.txns[0].booking == Some(0) && db.txns[0].external == Some(Session(session))
    ensures db.txns[1].booking == None && db.txns[1].intent == None
  {
    var checkout := Checkout(session, ticket, amount);
    var created := Job(0, FeeCreated(Fee(fee), None, feeAmount), Picks(None, None, []), 0, Finished);
    var w1 := Next(owner, EMPTY_WORLD, checkout);
    var w2 := Next(owner, w1, created);
    RunCons(owner, w1, created, []);
    RunCons(owner, EMPTY_WORLD, checkout, [created]);
    db := w2.db;
  }

  /**
   Nor need it hold for the bookings. After a checkout and a fee event, an expired event without an
   intent may find the commission first and the payment when it runs again: one run leaves the
   only booking PENDING, the re-run expires it.
   */
  lemma ExpiredRerunMovesBooking(owner: Owner, session: nat, ticket: nat, amount: int, fee: nat, feeAmount: int)
    returns (db: Db)
    ensures exists steps :: LegalRun(owner, EMPTY_WORLD, steps) && db == Run(owner, EMPTY_WORLD, steps).db
    ensures var ev := CheckoutExpired(Session(session), None);
            var picks, again := Picks(Some(1), None, []), Picks(Some(0), None, []);
            && EventOk(owner, ev) && TwoRuns(db, ev, picks, again) && !OneBookingWaits(db, ev)
            && Effect(db, ev, picks).bookings == [Booking(PENDING, ticket)]
            && Effect(Effect(db, ev, picks), ev, again).bookings == [Booking(EXPIRED, ticket)]
  {
    db := WaitingCheckout(owner, session, ticket, amount, fee, feeAmount);
    var ev := CheckoutExpired(Session(session), None);
    assert Matches(db.txns, ev, 0) && Matches(db.txns, ev, 1);
  }
}
