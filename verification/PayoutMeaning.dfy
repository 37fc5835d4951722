/**
 What verifying a booking code needs, refuses and writes, said of the tables themselves
 (src/booking/booking.service.ts).
 */
module PayoutMeaning {
  import opened Wrappers
  import opened Payout

  // ---------------------------------------------------------------- Which code opens the payout

  predicate Unexpired(o: Otp, now: int) {
    o.expiresAt.None? || now <= o.expiresAt.value
  }

  /** The buyer has a code row with exactly this code, and it has not expired. */
  predicate ValidCode(db: Db, id: nat, code: string, now: int) {
    id in db.bookings &&
    exists i :: 0 <= i < |db.otps| && db.otps[i].email == db.bookings[id].user && db.otps[i].code == code
                && Unexpired(db.otps[i], now)
  }

  /** A call succeeds only with the code of a row of the buyer that has not expired. */
  lemma SuccessNeedsCode(w: World, c: Call)
    requires Legal(w, Verify(c)) && Answer(w, c).Success?
    ensures c.otp.Some? && c.otp.value in w.db.otps && c.otp.value.email == w.db.bookings[c.id].user
    ensures c.otp.value.code == c.code && Unexpired(c.otp.value, c.now)
    ensures ValidCode(w.db, c.id, c.code, c.now)
  {
    var i :| 0 <= i < |w.db.otps| && w.db.otps[i] == c.otp.value;
  }

  /** Without such a row the call fails and changes nothing at all. */
  lemma WrongCodeRefused(w: World, c: Call)
    requires Legal(w, Verify(c)) && !ValidCode(w.db, c.id, c.code, c.now)
    ensures Answer(w, c).Failure? && Step(w, c) == w
  {
  }

  /** No call of the run on the booking passes the code of an unexpired row of its buyer. */
  ghost predicate OnlyWrongCodes(w: World, events: seq<Event>, id: nat)
    decreases |events|
  {
    events == [] ||
    (&& (events[0].Verify? && events[0].call.id == id ==>
           !ValidCode(w.db, id, events[0].call.code, events[0].call.now))
     && OnlyWrongCodes(Next(w, events[0]), events[1..], id))
  }

  lemma OthersSendNothing(w: World, c: Call, id: nat)
    requires c.id != id
    ensures NetSent(Step(w, c).transfers, id) == NetSent(w.transfers, id)
    ensures Recorded(Step(w, c).db.payouts, id) == Recorded(w.db.payouts, id)
  {
    StepBalances(w, c, id);
    if Answer(w, c).Success? { SuccessMeans(w, c, id); }
    if Refusal(w.db, c.id, c.code, c.otp, c.now).None? {
      var cents := Cents(Amount(w.db.latestPayment[c.id].sellerAmount));
      var sent := Transfer(c.newId, c.id, w.db.bookings[c.id].sellerAccount.value, cents, 0);
      NetSentAppend(w.transfers, sent, id);
      NetSentAppend(w.transfers, sent.(reversed := sent.cents), id);
    }
  }

  /** However often wrong or expired codes are tried, nothing is sent or recorded for the booking. */
  lemma {:induction false} WrongCodesNeverPay(w: World, events: seq<Event>, id: nat)
    requires LegalRun(w, events) && OnlyWrongCodes(w, events, id)
    ensures NetSent(Run(w, events).transfers, id) == NetSent(w.transfers, id)
    ensures Recorded(Run(w, events).db.payouts, id) == Recorded(w.db.payouts, id)
    decreases |events|
  {
    if events != [] {
      var e := events[0];
      if e.Verify? {
        if e.call.id == id { WrongCodeRefused(w, e.call); } else { OthersSendNothing(w, e.call, id); }
      }
      WrongCodesNeverPay(Next(w, e), events[1..], id);
    }
  }

  // ---------------------------------------------------------------- What each call answers

  function SellerAmount(db: Db, id: nat): real
    requires id in db.latestPayment
  {
    match db.latestPayment[id].sellerAmount case None => 0.0 case Some(amount) => amount
  }

  function Fee(db: Db, id: nat): real
    requires id in db.latestPayment
  {
    match db.latestPayment[id].platformFee case None => 0.0 case Some(fee) => fee
  }

  /** The buyer has a code row at all. */
  ghost predicate BuyerHasCode(db: Db, id: nat) {
    id in db.bookings && exists i :: 0 <= i < |db.otps| && db.otps[i].email == db.bookings[id].user
  }

  /** Each answer, and the first check that fails for it. */
  lemma AnswerIs(w: World, c: Call)
    requires Legal(w, Verify(c))
    ensures Answer(w, c) == Failure(BookingNotFound) <==> c.id !in w.db.bookings
    ensures Answer(w, c) == Failure(OtpNotFound) <==> c.id in w.db.bookings && !BuyerHasCode(w.db, c.id)
    ensures Answer(w, c) == Failure(InvalidOtp) <==> BuyerHasCode(w.db, c.id) && c.otp.value.code != c.code
    ensures Answer(w, c) == Failure(OtpExpired) <==>
              BuyerHasCode(w.db, c.id) && c.otp.value.code == c.code && !Unexpired(c.otp.value, c.now)
    ensures BuyerHasCode(w.db, c.id) && c.otp.value.code == c.code && Unexpired(c.otp.value, c.now) ==>
              Answer(w, c) ==
              if c.id !in w.db.latestPayment then Failure(NoPayment)
              else if w.db.bookings[c.id].sellerAccount.None? then Failure(NoSellerAccount)
              else if SellerAmount(w.db, c.id) > 0.0 && !c.o.transferOk then Failure(TransferFailed)
              else if !c.o.commitOk then Failure(DbFailed)
              else Success(SellerAmount(w.db, c.id) > 0.0)
  {
    if BuyerHasCode(w.db, c.id) {
      var i :| 0 <= i < |w.db.otps| && w.db.otps[i].email == w.db.bookings[c.id].user;
      assert c.otp.Some?;
    }
  }

  // ---------------------------------------------------------------- What each call writes

  /** Cents are the nearest whole number of hundredths, halves up. */
  lemma CentsNearest(amount: real)
    ensures Cents(amount) as real - 0.5 <= amount * 100.0 < Cents(amount) as real + 0.5
  {
  }

  ghost predicate Credited(credits: seq<Credit>, id: nat) {
    exists i :: 0 <= i < |credits| && credits[i].booking == id
  }

  /**
   Every row a successful call writes: the booking's status, the payout to its seller with the
   transfer's id, the credit of the fee if there was none, and the transfer to the seller's account;
   the buyer's codes go, and everything else stays.
   */
  lemma SuccessWrites(w: World, c: Call)
    requires Answer(w, c).Success?
    ensures var t, b := Step(w, c), w.db.bookings[c.id];
            var amount, fee := SellerAmount(w.db, c.id), Fee(w.db, c.id);
            && t.db.bookings == w.db.bookings[c.id := Booking(b.user, b.seller, b.sellerAccount, Delivered)]
            && t.db.latestPayment == w.db.latestPayment
            && (forall o :: o in t.db.otps <==> o in w.db.otps && o.email != b.user)
            && t.db.payouts ==
               (if amount > 0.0 then w.db.payouts + [PayoutRow(c.id, b.seller, amount, c.newId)] else w.db.payouts)
            && t.db.credits ==
               (if !Credited(w.db.credits, c.id) && fee > 0.0 then w.db.credits + [Credit(c.id, fee)] else w.db.credits)
            && t.transfers ==
               (if amount > 0.0
                then w.transfers + [Transfer(c.newId, c.id, b.sellerAccount.value, Cents(amount), 0)] else w.transfers)
  {
    forall o
      ensures o in Step(w, c).db.otps <==> o in w.db.otps && o.email != w.db.bookings[c.id].user
    {
      WithoutEmailExact(w.db.otps, w.db.bookings[c.id].user, o);
    }
  }

  /**
   A failed call writes no row. Only a failed commit leaves a trace at Stripe: the transfer it made,
   reversed in full if the reversal succeeded and not at all otherwise.
   */
  lemma FailureWrites(w: World, c: Call)
    requires Answer(w, c).Failure?
    ensures Step(w, c).db == w.db
    ensures Answer(w, c) != Failure(DbFailed) ==> Step(w, c).transfers == w.transfers
    ensures Answer(w, c) == Failure(DbFailed) ==>
              var amount := SellerAmount(w.db, c.id);
              var cents := Cents(amount);
              Step(w, c).transfers ==
              if amount > 0.0
              then w.transfers + [Transfer(c.newId, c.id, w.db.bookings[c.id].sellerAccount.value, cents,
                                           if c.o.reversalOk then cents else 0)]
              else w.transfers
  {
  }
}
