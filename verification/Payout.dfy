/**
 Paying the seller when a booking code is verified: a Stripe transfer, then one database
 transaction, then a reversal of the transfer when that transaction fails
 (src/booking/booking.service.ts, src/stripe/stripe.service.ts). Amounts are reals, as the decimal
 columns hold them; Stripe moves whole cents.
 */
module Payout {
  import opened Wrappers

  datatype Status = Pending | Confirmed | Delivered | Other

  datatype Booking = Booking(user: string, seller: nat, sellerAccount: Option<string>, status: Status)

  /** The fields of the latest BOOKING_PAYMENT row; missing amounts read as 0. */
  datatype Payment = Payment(sellerAmount: Option<real>, platformFee: Option<real>)

  datatype Otp = Otp(email: string, code: string, expiresAt: Option<int>)

  datatype PayoutRow = PayoutRow(booking: nat, payee: nat, amount: real, transfer: nat)

  datatype Credit = Credit(booking: nat, amount: real)

  datatype Db = Db(bookings: map<nat, Booking>, latestPayment: map<nat, Payment>, otps: seq<Otp>,
                   payouts: seq<PayoutRow>, credits: seq<Credit>)

  /** A transfer as Stripe records it, with the cents reversed so far. */
  datatype Transfer = Transfer(id: nat, booking: nat, destination: string, cents: int, reversed: int)

  datatype World = World(db: Db, transfers: seq<Transfer>)

  datatype Error =
    | BookingNotFound | OtpNotFound | InvalidOtp | OtpExpired | NoPayment | NoSellerAccount | TransferFailed | DbFailed

  /** `Math.round(amount * 100)`: to the nearest cent, halves up. */
  function Cents(amount: real): int {
    (amount * 100.0 + 0.5).Floor
  }

  function Amount(a: Option<real>): real {
    a.GetOr(0.0)
  }

  /** How the outside answers one call: the transfer, the commit and, if asked for, the reversal. */
  datatype Outcome = Outcome(transferOk: bool, commitOk: bool, reversalOk: bool)

  // ---------------------------------------------------------------- One call

  ghost predicate IsFirstOtp(otps: seq<Otp>, email: string, otp: Option<Otp>) {
    match otp
    case Some(o) => o in otps && o.email == email
    case None => forall i :: 0 <= i < |otps| ==> otps[i].email != email
  }

  /** Why the call stops before any money moves, if it does. `otp` is the row `findFirst` returns. */
  function Refusal(db: Db, id: nat, code: string, otp: Option<Otp>, now: int): Option<Error> {
    if id !in db.bookings then Some(BookingNotFound)
    else if otp.None? then Some(OtpNotFound)
    else if otp.value.code != code then Some(InvalidOtp)
    else if otp.value.expiresAt.Some? && otp.value.expiresAt.value < now then Some(OtpExpired)
    else if id !in db.latestPayment then Some(NoPayment)
    else if db.bookings[id].sellerAccount.None? then Some(NoSellerAccount)
    else None
  }

  function WithoutEmail(otps: seq<Otp>, email: string): seq<Otp> {
    if otps == [] then [] else (if otps[0].email == email then [] else [otps[0]]) + WithoutEmail(otps[1..], email)
  }

  predicate HasCredit(credits: seq<Credit>, booking: nat) {
    exists i :: 0 <= i < |credits| && credits[i].booking == booking
  }

  /** The database transaction; `transfer` is the id of the transfer made, if one was. */
  function Commit(db: Db, id: nat, transfer: Option<nat>): Db
    requires id in db.bookings && id in db.latestPayment
  {
    var b, p := db.bookings[id], db.latestPayment[id];
    var fee := Amount(p.platformFee);
    Db(db.bookings[id := b.(status := Delivered)],
       db.latestPayment,
       WithoutEmail(db.otps, b.user),
       if transfer.Some? then db.payouts + [PayoutRow(id, b.seller, Amount(p.sellerAmount), transfer.value)]
       else db.payouts,
       if !HasCredit(db.credits, id) && fee > 0.0 then db.credits + [Credit(id, fee)] else db.credits)
  }

  // ---------------------------------------------------------------- Whole runs

  datatype Call = Call(id: nat, code: string, otp: Option<Otp>, now: int, newId: nat, o: Outcome)

  function Answer(w: World, c: Call): Result<bool, Error> {
    var refusal := Refusal(w.db, c.id, c.code, c.otp, c.now);
    if refusal.Some? then Failure(refusal.value)
    else
      var pays := Amount(w.db.latestPayment[c.id].sellerAmount) > 0.0;
      if pays && !c.o.transferOk then Failure(TransferFailed)
      else if c.o.commitOk then Success(pays)
      else Failure(DbFailed)
  }

  function Step(w: World, c: Call): World {
    if Refusal(w.db, c.id, c.code, c.otp, c.now).Some? then w
    else
      var amount := Amount(w.db.latestPayment[c.id].sellerAmount);
      var sent := Transfer(c.newId, c.id, w.db.bookings[c.id].sellerAccount.value, Cents(amount), 0);
      if amount <= 0.0 then
        (if c.o.commitOk then w.(db := Commit(w.db, c.id, None)) else w)
      else if !c.o.transferOk then w
      else if c.o.commitOk then World(Commit(w.db, c.id, Some(c.newId)), w.transfers + [sent])
      else if c.o.reversalOk then w.(transfers := w.transfers + [sent.(reversed := sent.cents)])
      else w.(transfers := w.transfers + [sent])
  }

  /**
   Between calls anything may happen to bookings, payments and codes, but payouts, credits and
   transfers are this operation's own.
   */
  datatype Event = Verify(call: Call) | Elsewhere(db: Db)

  predicate FreshId(transfers: seq<Transfer>, id: nat) {
    forall i :: 0 <= i < |transfers| ==> transfers[i].id != id
  }

  ghost predicate Legal(w: World, e: Event) {
    match e
    case Verify(c) =>
      FreshId(w.transfers, c.newId)
      && (c.id in w.db.bookings ==> IsFirstOtp(w.db.otps, w.db.bookings[c.id].user, c.otp))
    case Elsewhere(db) => db.payouts == w.db.payouts && db.credits == w.db.credits
  }

  function Next(w: World, e: Event): World {
    match e
    case Verify(c) => Step(w, c)
    case Elsewhere(db) => w.(db := db)
  }

  ghost predicate LegalRun(w: World, events: seq<Event>)
    decreases |events|
  {
    events == [] || (Legal(w, events[0]) && LegalRun(Next(w, events[0]), events[1..]))
  }

  function Run(w: World, events: seq<Event>): World
    decreases |events|
  {
    if events == [] then w else Run(Next(w, events[0]), events[1..])
  }

  // ---------------------------------------------------------------- Where the money is

  /** Net cents Stripe has sent for a booking. */
  function NetSent(transfers: seq<Transfer>, booking: nat): int {
    if transfers == [] then 0
    else
      (if transfers[0].booking == booking then transfers[0].cents - transfers[0].reversed else 0)
      + NetSent(transfers[1..], booking)
  }

  /** Cents the SELLER_PAYOUT rows record for a booking. */
  function Recorded(rows: seq<PayoutRow>, booking: nat): int {
    if rows == [] then 0
    else (if rows[0].booking == booking then Cents(rows[0].amount) else 0) + Recorded(rows[1..], booking)
  }

  function CreditCount(credits: seq<Credit>, booking: nat): nat {
    if credits == [] then 0 else (if credits[0].booking == booking then 1 else 0) + CreditCount(credits[1..], booking)
  }

  /** The call sent money, could not record it and could not take it back. */
  predicate Strands(w: World, c: Call) {
    && Refusal(w.db, c.id, c.code, c.otp, c.now).None?
    && Amount(w.db.latestPayment[c.id].sellerAmount) > 0.0
    && c.o.transferOk && !c.o.commitOk && !c.o.reversalOk
  }

  function Lost(w: World, e: Event, booking: nat): int {
    if e.Verify? && e.call.id == booking && Strands(w, e.call)
    then Cents(Amount(w.db.latestPayment[booking].sellerAmount))
    else 0
  }

  /** The cents of all reversals that failed along a run. */
  function LostOver(w: World, events: seq<Event>, booking: nat): int
    decreases |events|
  {
    if events == [] then 0 else Lost(w, events[0], booking) + LostOver(Next(w, events[0]), events[1..], booking)
  }

  lemma {:induction false} NetSentAppend(transfers: seq<Transfer>, t: Transfer, booking: nat)
    ensures NetSent(transfers + [t], booking)
            == NetSent(transfers, booking) + if t.booking == booking then t.cents - t.reversed else 0
  {
    if transfers == [] {
      assert transfers + [t] == [t];
    } else {
      assert (transfers + [t])[1..] == transfers[1..] + [t];
      NetSentAppend(transfers[1..], t, booking);
    }
  }

  lemma {:induction false} RecordedAppend(rows: seq<PayoutRow>, row: PayoutRow, booking: nat)
    ensures Recorded(rows + [row], booking)
            == Recorded(rows, booking) + if row.booking == booking then Cents(row.amount) else 0
  {
    if rows == [] {
      assert rows + [row] == [row];
    } else {
      assert (rows + [row])[1..] == rows[1..] + [row];
      RecordedAppend(rows[1..], row, booking);
    }
  }

  lemma {:induction false} CreditCountAppend(credits: seq<Credit>, c: Credit, booking: nat)
    ensures CreditCount(credits + [c], booking) == CreditCount(credits, booking) + if c.booking == booking then 1 else 0
  {
    if credits == [] {
      assert credits + [c] == [c];
    } else {
      assert (credits + [c])[1..] == credits[1..] + [c];
      CreditCountAppend(credits[1..], c, booking);
    }
  }

  lemma {:induction false} HasCreditIffCounted(credits: seq<Credit>, booking: nat)
    ensures HasCredit(credits, booking) <==> CreditCount(credits, booking) > 0
  {
    if credits != [] {
      HasCreditIffCounted(credits[1..], booking);
      if HasCredit(credits, booking) && credits[0].booking != booking {
        var i :| 0 <= i < |credits| && credits[i].booking == booking;
        assert credits[1..][i - 1].booking == booking;
      }
      if HasCredit(credits[1..], booking) {
        var i :| 0 <= i < |credits| - 1 && credits[1..][i].booking == booking;
        assert credits[i + 1].booking == booking;
      }
    }
  }

  // ---------------------------------------------------------------- One call's balance sheet

  /** One call: what Stripe sent beyond what was recorded grows by exactly what the call stranded. */
  lemma StepBalances(w: World, c: Call, booking: nat)
    ensures NetSent(Step(w, c).transfers, booking) - Recorded(Step(w, c).db.payouts, booking)
            == NetSent(w.transfers, booking) - Recorded(w.db.payouts, booking) + Lost(w, Verify(c), booking)
  {
    if Refusal(w.db, c.id, c.code, c.otp, c.now).None? {
      var amount := Amount(w.db.latestPayment[c.id].sellerAmount);
      var sent := Transfer(c.newId, c.id, w.db.bookings[c.id].sellerAccount.value, Cents(amount), 0);
      NetSentAppend(w.transfers, sent, booking);
      NetSentAppend(w.transfers, sent.(reversed := sent.cents), booking);
      RecordedAppend(w.db.payouts, PayoutRow(c.id, w.db.bookings[c.id].seller, amount, c.newId), booking);
    }
  }

  /** A failed call that strands nothing changes neither the database nor what any booking was sent. */
  lemma FailureChangesNothing(w: World, c: Call, booking: nat)
    requires Answer(w, c).Failure? && !Strands(w, c)
    ensures Step(w, c).db == w.db && NetSent(Step(w, c).transfers, booking) == NetSent(w.transfers, booking)
  {
    StepBalances(w, c, booking);
  }

  /**
   A successful call: the booking is delivered, its seller was sent the payment's seller amount in
   cents and one payout row says so, the fee is credited if it never was, and nothing happens to
   any other booking.
   */
  lemma SuccessMeans(w: World, c: Call, booking: nat)
    requires Answer(w, c).Success?
    ensures var t := Step(w, c);
            var p := w.db.latestPayment[c.id];
            && t.db.bookings[c.id].status == Delivered
            && (Answer(w, c).value <==> Amount(p.sellerAmount) > 0.0)
            && NetSent(t.transfers, booking) - NetSent(w.transfers, booking)
               == (if booking == c.id && Answer(w, c).value then Cents(Amount(p.sellerAmount)) else 0)
            && Recorded(t.db.payouts, booking) - Recorded(w.db.payouts, booking)
               == (if booking == c.id && Answer(w, c).value then Cents(Amount(p.sellerAmount)) else 0)
            && (Amount(p.platformFee) > 0.0 ==> HasCredit(t.db.credits, c.id))
            && (booking != c.id ==> CreditCount(t.db.credits, booking) == CreditCount(w.db.credits, booking)
                                    && (booking in w.db.bookings ==> t.db.bookings[booking] == w.db.bookings[booking]))
  {
    var amount := Amount(w.db.latestPayment[c.id].sellerAmount);
    NetSentAppend(w.transfers, Transfer(c.newId, c.id, w.db.bookings[c.id].sellerAccount.value, Cents(amount), 0),
        booking);
    StepBalances(w, c, booking);
    var credit := Credit(c.id, Amount(w.db.latestPayment[c.id].platformFee));
    CreditCountAppend(w.db.credits, credit, booking);
    assert (w.db.credits + [credit])[|w.db.credits|] == credit;
  }

  lemma {:induction false} WithoutEmailExact(otps: seq<Otp>, email: string, o: Otp)
    ensures o in WithoutEmail(otps, email) <==> o in otps && o.email != email
  {
    if otps != [] {
      WithoutEmailExact(otps[1..], email, o);
      assert otps == [otps[0]] + otps[1..];
    }
  }

  /** A code pays once: after success the next call finds no code, whatever it tries. */
  lemma CodeIsSpent(w: World, c: Call, again: Call)
    requires Answer(w, c).Success? && again.id == c.id
    requires Legal(Step(w, c), Verify(again))
    ensures Answer(Step(w, c), again) == Failure(OtpNotFound) && Step(Step(w, c), again) == Step(w, c)
  {
    var email := w.db.bookings[c.id].user;
    if again.otp.Some? {
      WithoutEmailExact(w.db.otps, email, again.otp.value);
      assert false;
    }
  }

  // ---------------------------------------------------------------- Whole runs

  /**
   Money over whole runs: however often codes are verified and whatever fails, what Stripe holds as
   sent for a booking is what the payout rows record plus the reversals that failed.
   */
  lemma {:induction false} MoneyOverRuns(w: World, events: seq<Event>, booking: nat)
    requires LegalRun(w, events)
    ensures NetSent(Run(w, events).transfers, booking) - Recorded(Run(w, events).db.payouts, booking)
            == NetSent(w.transfers, booking) - Recorded(w.db.payouts, booking) + LostOver(w, events, booking)
    decreases |events|
  {
    if events != [] {
      if events[0].Verify? { StepBalances(w, events[0].call, booking); }
      MoneyOverRuns(Next(w, events[0]), events[1..], booking);
    }
  }

  ghost predicate NeverStrands(w: World, events: seq<Event>, booking: nat)
    decreases |events|
  {
    events == [] ||
    (!(events[0].Verify? && events[0].call.id == booking && Strands(w, events[0].call)
      && Lost(w, events[0], booking) > 0)
     && NeverStrands(Next(w, events[0]), events[1..], booking))
  }

  lemma {:induction false} LostIffStranded(w: World, events: seq<Event>, booking: nat)
    ensures LostOver(w, events, booking) >= 0
    ensures LostOver(w, events, booking) == 0 <==> NeverStrands(w, events, booking)
    decreases |events|
  {
    if events != [] { LostIffStranded(Next(w, events[0]), events[1..], booking); }
  }

  /** Sent and recorded agree exactly when no call along the run failed both to commit and to reverse. */
  lemma SentIsRecordedIff(db: Db, events: seq<Event>, booking: nat)
    requires LegalRun(World(db, []), events) && db.payouts == []
    ensures var w := Run(World(db, []), events);
            NetSent(w.transfers, booking) == Recorded(w.db.payouts, booking)
            <==> NeverStrands(World(db, []), events, booking)
  {
    MoneyOverRuns(World(db, []), events, booking);
    LostIffStranded(World(db, []), events, booking);
  }

  lemma {:induction false} OneCreditPerBooking(w: World, events: seq<Event>, booking: nat)
    requires LegalRun(w, events) && CreditCount(w.db.credits, booking) <= 1
    ensures CreditCount(Run(w, events).db.credits, booking) <= 1
    ensures w.db.credits <= Run(w, events).db.credits
    decreases |events|
  {
    if events != [] {
      if events[0].Verify? {
        var c := events[0].call;
        HasCreditIffCounted(w.db.credits, booking);
        if c.id in w.db.latestPayment {
          CreditCountAppend(w.db.credits, Credit(c.id, Amount(w.db.latestPayment[c.id].platformFee)), booking);
        }
      }
      OneCreditPerBooking(Next(w, events[0]), events[1..], booking);
    }
  }

  /** Each payout row stands for one transfer, to the same booking, of the same cents and not reversed. */
  ghost predicate Backed(transfers: seq<Transfer>, payouts: seq<PayoutRow>) {
    && (forall i, j :: 0 <= i < j < |transfers| ==> transfers[i].id != transfers[j].id)
    && (forall i, j :: 0 <= i < j < |payouts| ==> payouts[i].transfer != payouts[j].transfer)
    && (forall i :: 0 <= i < |payouts| ==> HasTransfer(transfers, payouts[i]))
    && (forall j :: 0 <= j < |transfers| ==> transfers[j].reversed == 0 || transfers[j].reversed == transfers[j].cents)
  }

  ghost predicate HasTransfer(transfers: seq<Transfer>, row: PayoutRow) {
    exists j :: 0 <= j < |transfers| && Records(transfers[j], row)
  }

  ghost predicate Records(t: Transfer, row: PayoutRow) {
    t.id == row.transfer && t.booking == row.booking && t.cents == Cents(row.amount) && t.reversed == 0
  }

  lemma BackedGrows(transfers: seq<Transfer>, payouts: seq<PayoutRow>, t: Transfer)
    requires Backed(transfers, payouts) && FreshId(transfers, t.id) && (t.reversed == 0 || t.reversed == t.cents)
    ensures Backed(transfers + [t], payouts)
  {
    forall i | 0 <= i < |payouts|
      ensures HasTransfer(transfers + [t], payouts[i])
    {
      assert HasTransfer(transfers, payouts[i]);
      var j :| 0 <= j < |transfers| && Records(transfers[j], payouts[i]);
      assert (transfers + [t])[j] == transfers[j];
    }
  }

  lemma BackedRecords(transfers: seq<Transfer>, payouts: seq<PayoutRow>, t: Transfer, row: PayoutRow)
    requires Backed(transfers, payouts) && FreshId(transfers, t.id) && Records(t, row)
    ensures Backed(transfers + [t], payouts + [row])
  {
    BackedGrows(transfers, payouts, t);
    forall i | 0 <= i < |payouts|
      ensures payouts[i].transfer != row.transfer
    {
      assert HasTransfer(transfers, payouts[i]);
      var j :| 0 <= j < |transfers| && Records(transfers[j], payouts[i]);
    }
    assert Records((transfers + [t])[|transfers|], row);
  }

  lemma StepKeepsBacked(w: World, c: Call)
    requires Backed(w.transfers, w.db.payouts) && FreshId(w.transfers, c.newId)
    ensures Backed(Step(w, c).transfers, Step(w, c).db.payouts)
  {
    if Refusal(w.db, c.id, c.code, c.otp, c.now).None? {
      var amount := Amount(w.db.latestPayment[c.id].sellerAmount);
      var sent := Transfer(c.newId, c.id, w.db.bookings[c.id].sellerAccount.value, Cents(amount), 0);
      BackedGrows(w.transfers, w.db.payouts, sent);
      BackedGrows(w.transfers, w.db.payouts, sent.(reversed := sent.cents));
      BackedRecords(w.transfers, w.db.payouts, sent, PayoutRow(c.id, w.db.bookings[c.id].seller, amount, c.newId));
    }
  }

  lemma {:induction false} RowsAreTransfers(w: World, events: seq<Event>)
    requires LegalRun(w, events) && Backed(w.transfers, w.db.payouts)
    ensures Backed(Run(w, events).transfers, Run(w, events).db.payouts)
    decreases |events|
  {
    if events != [] {
      if events[0].Verify? { StepKeepsBacked(w, events[0].call); }
      RowsAreTransfers(Next(w, events[0]), events[1..]);
    }
  }

  /**
   Nothing checks that a booking was paid before: a fresh code for a delivered booking pays its
   seller again, while the fee is still credited once.
   */
  lemma FreshCodePaysAgain(w: World, c: Call, code: Otp, next: Call)
    requires Answer(w, c) == Success(true) && Legal(w, Verify(c)) && FreshId(w.transfers, c.newId + 1)
    requires w.db.bookings[c.id].user == code.email
    requires next == Call(c.id, code.code, Some(code), c.now, c.newId + 1, c.o)
    requires code.expiresAt.None? || c.now <= code.expiresAt.value
    ensures var between := Step(w, c).db.(otps := [code]);
            var t := Run(w, [Verify(c), Elsewhere(between), Verify(next)]);
            && LegalRun(w, [Verify(c), Elsewhere(between), Verify(next)])
            && Answer(Step(w, c).(db := between), next) == Success(true)
            && NetSent(t.transfers, c.id) == NetSent(w.transfers, c.id)
                 + 2 * Cents(Amount(w.db.latestPayment[c.id].sellerAmount))
            && t.db.credits == Step(w, c).db.credits
  {
    var w1 := Step(w, c);
    var w2 := w1.(db := w1.db.(otps := [code]));
    var e := [Verify(c), Elsewhere(w2.db), Verify(next)];
    assert e[1..] == [Elsewhere(w2.db), Verify(next)] && e[1..][1..] == [Verify(next)] && e[1..][1..][1..] == [];
    assert Legal(w2, Verify(next)) by { assert code in [code]; }
    assert LegalRun(w2, [Verify(next)]) by { assert [Verify(next)][1..] == []; }
    assert LegalRun(w1, e[1..]);
    assert Run(w2, [Verify(next)]) == Step(w2, next) by { assert Run(Step(w2, next), []) == Step(w2, next); }
    assert Run(w, e) == Step(w2, next);
    SuccessMeans(w, c, c.id);
    SuccessMeans(w2, next, c.id);
  }

  // ---------------------------------------------------------------- When a booking can be paid

  ghost predicate HasCode(otps: seq<Otp>, email: string) {
    exists i :: 0 <= i < |otps| && otps[i].email == email
  }

  /** The booking has a buyer with a code, a seller with an account and a payment worth at least a cent. */
  ghost predicate Payable(db: Db, id: nat) {
    && id in db.bookings && HasCode(db.otps, db.bookings[id].user)
    && id in db.latestPayment && db.bookings[id].sellerAccount.Some?
    && Cents(Amount(db.latestPayment[id].sellerAmount)) > 0
  }

  /** A call on the booking that may be made now and changes what was sent for it. */
  ghost predicate MovesMoney(w: World, c: Call, id: nat) {
    Legal(w, Verify(c)) && c.id == id && NetSent(Step(w, c).transfers, id) != NetSent(w.transfers, id)
  }

  lemma {:induction false} SomeFreshId(transfers: seq<Transfer>) returns (id: nat)
    ensures forall i :: 0 <= i < |transfers| ==> transfers[i].id < id
  {
    if transfers == [] {
      id := 0;
    } else {
      var rest := SomeFreshId(transfers[1..]);
      id := Max(rest, transfers[0].id + 1);
      forall i | 0 <= i < |transfers|
        ensures transfers[i].id < id
      {
        if i > 0 { assert transfers[i] == transfers[1..][i - 1]; }
      }
    }
  }

  /** A seller can be paid for a booking, for the first time or again, exactly while it is payable. */
  lemma PayableIff(w: World, id: nat)
    ensures (exists c :: MovesMoney(w, c, id)) <==> Payable(w.db, id)
  {
    if Payable(w.db, id) {
      var b := w.db.bookings[id];
      var i :| 0 <= i < |w.db.otps| && w.db.otps[i].email == b.user;
      var otp := w.db.otps[i];
      var newId := SomeFreshId(w.transfers);
      var c := Call(id, otp.code, Some(otp), otp.expiresAt.GetOr(0), newId, Outcome(true, true, true));
      assert otp in w.db.otps;
      var cents := Cents(Amount(w.db.latestPayment[id].sellerAmount));
      NetSentAppend(w.transfers, Transfer(newId, id, b.sellerAccount.value, cents, 0), id);
      assert MovesMoney(w, c, id);
    }
    forall c | MovesMoney(w, c, id)
      ensures Payable(w.db, id)
    {
      OnlyPayableMoves(w, c, id);
    }
  }

  lemma OnlyPayableMoves(w: World, c: Call, id: nat)
    requires MovesMoney(w, c, id)
    ensures Payable(w.db, id)
  {
    assert Refusal(w.db, c.id, c.code, c.otp, c.now).None?;
    var amount := Amount(w.db.latestPayment[id].sellerAmount);
    var sent := Transfer(c.newId, id, w.db.bookings[id].sellerAccount.value, Cents(amount), 0);
    NetSentAppend(w.transfers, sent, id);
    NetSentAppend(w.transfers, sent.(reversed := sent.cents), id);
    var i :| 0 <= i < |w.db.otps| && w.db.otps[i] == c.otp.value;
    assert w.db.otps[i].email == w.db.bookings[id].user;
  }

  /** The booking, if it exists, is this buyer's, and the buyer has no code. */
  ghost predicate WithoutCode(db: Db, id: nat, email: string) {
    (id in db.bookings ==> db.bookings[id].user == email) && !HasCode(db.otps, email)
  }

  lemma StepKeepsWithoutCode(w: World, c: Call, id: nat, email: string)
    requires WithoutCode(w.db, id, email)
    ensures WithoutCode(Step(w, c).db, id, email)
  {
    var t := Step(w, c).db;
    forall i | 0 <= i < |t.otps|
      ensures t.otps[i].email != email
    {
      if t.otps != w.db.otps { WithoutEmailExact(w.db.otps, w.db.bookings[c.id].user, t.otps[i]); }
    }
  }

  lemma WithoutCodeNoMoney(w: World, c: Call, id: nat, email: string)
    requires Legal(w, Verify(c)) && WithoutCode(w.db, id, email)
    ensures NetSent(Step(w, c).transfers, id) == NetSent(w.transfers, id)
    ensures Recorded(Step(w, c).db.payouts, id) == Recorded(w.db.payouts, id)
  {
    if c.id != id {
      StepBalances(w, c, id);
      if Answer(w, c).Success? { SuccessMeans(w, c, id); }
      if Refusal(w.db, c.id, c.code, c.otp, c.now).None? {
        var cents := Cents(Amount(w.db.latestPayment[c.id].sellerAmount));
        var sent := Transfer(c.newId, c.id, w.db.bookings[c.id].sellerAccount.value, cents, 0);
        NetSentAppend(w.transfers, sent, id);
        NetSentAppend(w.transfers, sent.(reversed := sent.cents), id);
      }
    }
  }

  /**
   A booking whose buyer has no code is never paid: over any run in which nothing outside gives the
   buyer a code or the booking another buyer, nothing is sent for it and nothing recorded.
   */
  lemma {:induction false} NoCodeNoMoney(w: World, events: seq<Event>, id: nat, email: string)
    requires LegalRun(w, events) && WithoutCode(w.db, id, email)
    requires forall e :: e in events && e.Elsewhere? ==> WithoutCode(e.db, id, email)
    ensures NetSent(Run(w, events).transfers, id) == NetSent(w.transfers, id)
    ensures Recorded(Run(w, events).db.payouts, id) == Recorded(w.db.payouts, id)
    decreases |events|
  {
    if events != [] {
      var e := events[0];
      assert e in events;
      if e.Verify? {
        StepKeepsWithoutCode(w, e.call, id, email);
        WithoutCodeNoMoney(w, e.call, id, email);
      }
      NoCodeNoMoney(Next(w, e), events[1..], id, email);
    }
  }

  /**
   So a successful call pays the seller once: whatever calls follow, no more is sent for the booking
   until something outside gives its buyer a new code. With a new code it is payable again
   (`PayableIff`), and `FreshCodePaysAgain` is such a run.
   */
  lemma PaidOncePerCode(w: World, c: Call, events: seq<Event>)
    requires Answer(w, c).Success? && LegalRun(Step(w, c), events)
    requires forall e :: e in events && e.Elsewhere? ==> WithoutCode(e.db, c.id, w.db.bookings[c.id].user)
    ensures var cents := Cents(Amount(w.db.latestPayment[c.id].sellerAmount));
            NetSent(Run(Step(w, c), events).transfers, c.id)
            == NetSent(w.transfers, c.id) + if Answer(w, c).value then cents else 0
  {
    var email := w.db.bookings[c.id].user;
    var after := Step(w, c);
    if HasCode(after.db.otps, email) {
      var i :| 0 <= i < |after.db.otps| && after.db.otps[i].email == email;
      WithoutEmailExact(w.db.otps, email, after.db.otps[i]);
      assert false;
    }
    SuccessMeans(w, c, c.id);
    NoCodeNoMoney(after, events, c.id, email);
  }

  // ---------------------------------------------------------------- The service

  class PayoutService {
    var db: Db
    var transfers: seq<Transfer>

    constructor (db: Db)
      ensures World(this.db, transfers) == World(db, [])
    {
      this.db, transfers := db, [];
    }

    /** `verifyBookingCode`; `otp` is the code row found and `newId` the id Stripe gives a new transfer. */
    method VerifyBookingCode(id: nat, code: string, otp: Option<Otp>, now: int, newId: nat, o: Outcome)
      returns (r: Result<bool, Error>)
      modifies this
      ensures r == Answer(old(World(db, transfers)), Call(id, code, otp, now, newId, o))
      ensures World(db, transfers) == Step(old(World(db, transfers)), Call(id, code, otp, now, newId, o))
    {
      if id !in db.bookings { return Failure(BookingNotFound); }
      if otp.None? { return Failure(OtpNotFound); }
      if otp.value.code != code { return Failure(InvalidOtp); }
      if otp.value.expiresAt.Some? && otp.value.expiresAt.value < now { return Failure(OtpExpired); }
      if id !in db.latestPayment { return Failure(NoPayment); }
      if db.bookings[id].sellerAccount.None? { return Failure(NoSellerAccount); }
      var sellerAmount := Amount(db.latestPayment[id].sellerAmount);
      var payoutInitiated, transferId := false, None;
      if sellerAmount > 0.0 {
        if !o.transferOk { return Failure(TransferFailed); }
        transfers := transfers + [Transfer(newId, id, db.bookings[id].sellerAccount.value, Cents(sellerAmount), 0)];
        payoutInitiated, transferId := true, Some(newId);
      }
      if o.commitOk {
        RecordDelivery(id, transferId);
        return Success(payoutInitiated);
      }
      if payoutInitiated && o.reversalOk {
        var last := |transfers| - 1;
        transfers := transfers[last := transfers[last].(reversed := Cents(sellerAmount))];
      }
      return Failure(DbFailed);
    }

    /** The database transaction. */
    method RecordDelivery(id: nat, transfer: Option<nat>)
      requires id in db.bookings && id in db.latestPayment
      modifies this`db
      ensures db == Commit(old(db), id, transfer)
    {
      var b, p := db.bookings[id], db.latestPayment[id];
      if b.status != Delivered {
        db := db.(bookings := db.bookings[id := b.(status := Delivered)]);
      }
      var fee := Amount(p.platformFee);
      if !HasCredit(db.credits, id) && fee > 0.0 {
        db := db.(credits := db.credits + [Credit(id, fee)]);
      }
      db := db.(otps := WithoutEmail(db.otps, b.user));
      if transfer.Some? {
        db := db.(payouts := db.payouts + [PayoutRow(id, b.seller, Amount(p.sellerAmount), transfer.value)]);
      }
    }
  }
}
