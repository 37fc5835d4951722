/**
 Whole runs of the webhook worker: checkouts, events in any order, repeated, retried, failing or
 crashing half way, rows written by other services, and the clean-up of old event records.
 Jobs run one at a time.
 */
module WebhookRuns {
  import opened Wrappers
  import opened Webhook
  import opened WebhookInvariant

  datatype RecordStatus = RecordPending | Processed | Failed

  datatype Record = Record(status: RecordStatus, processedAt: Option<int>)

  datatype World = World(db: Db, events: map<nat, Record>)

  const EMPTY_WORLD := World(Db([], [], {}), map[])

  /**
   How a job ends: `applied` says whether the handler's writes were committed by then. A job can
   throw after them, as `payment_intent.succeeded` does when a notification fails.
   */
  datatype Fate = Finished | Threw(applied: bool) | Crashed(applied: bool)

  datatype Step =
    | Checkout(session: nat, ticket: nat, amount: int)
    | SideRow(row: Txn)
    | Enqueue(id: nat)
    | Job(id: nat, ev: Event, picks: Picks, now: int, fate: Fate)
    | Cleanup(cutoff: int)

  predicate IsProcessed(w: World, id: nat) {
    id in w.events && w.events[id].status == Processed
  }

  /** Whether a job's writes reach the tables: it is not skipped, and it commits. */
  predicate Applied(w: World, step: Step) {
    step.Job? && !IsProcessed(w, step.id) && (step.fate.Finished? || step.fate.applied)
  }

  ghost predicate Legal(owner: Owner, w: World, step: Step) {
    match step
    case Checkout(session, _, _) => forall i :: 0 <= i < |w.db.txns| ==> w.db.txns[i].external != Some(Session(session))
    case SideRow(row) => row.kind != BOOKING_PAYMENT && row.kind != ADMIN_COMMISSION && SideOk(row)
    case Job(_, ev, picks, _, fate) => Handleable(owner, w.db, ev, picks) && (Throws(w.db, ev, picks) ==> fate.Threw?)
    case _ => true
  }

  function Recorded(w: World, id: nat, now: int, fate: Fate): map<nat, Record> {
    match fate
    case Finished => w.events[id := Record(Processed, Some(now))]
    case Threw(_) => w.events[id := Record(Failed, Some(now))]
    case Crashed(_) => w.events
  }

  /** A job of an event already PROCESSED is skipped. */
  function AfterJob(w: World, id: nat, ev: Event, picks: Picks, now: int, fate: Fate): World
    requires PicksInTable(w.db.txns, ev, picks)
  {
    if IsProcessed(w, id) then w
    else World(if fate.Finished? || fate.applied then Effect(w.db, ev, picks) else w.db, Recorded(w, id, now, fate))
  }

  function Enqueued(events: map<nat, Record>, id: nat): map<nat, Record> {
    if id in events then events else events[id := Record(RecordPending, None)]
  }

  function Kept(events: map<nat, Record>, cutoff: int): map<nat, Record> {
    map id | id in events &&
             !(events[id].status == Processed && events[id].processedAt.Some?
                 && events[id].processedAt.value < cutoff) :: events[id]
  }

  ghost function Next(owner: Owner, w: World, step: Step): World
    requires Legal(owner, w, step)
  {
    match step
    case Checkout(session, ticket, amount) => w.(db := StartCheckout(w.db, session, ticket, amount))
    case SideRow(row) => w.(db := w.db.(txns := w.db.txns + [row]))
    case Enqueue(id) => w.(events := Enqueued(w.events, id))
    case Job(id, ev, picks, now, fate) => AfterJob(w, id, ev, picks, now, fate)
    case Cleanup(cutoff) => w.(events := Kept(w.events, cutoff))
  }

  ghost predicate LegalRun(owner: Owner, w: World, steps: seq<Step>)
    decreases |steps|
  {
    steps == [] || (Legal(owner, w, steps[0]) && LegalRun(owner, Next(owner, w, steps[0]), steps[1..]))
  }

  ghost function Run(owner: Owner, w: World, steps: seq<Step>): World
    requires LegalRun(owner, w, steps)
    decreases |steps|
  {
    if steps == [] then w else Run(owner, Next(owner, w, steps[0]), steps[1..])
  }

  /** The events whose writes were committed during a run, in order. */
  ghost function Handled(owner: Owner, w: World, steps: seq<Step>): seq<Event>
    requires LegalRun(owner, w, steps)
    decreases |steps|
  {
    if steps == [] then []
    else (if Applied(w, steps[0]) then [steps[0].ev] else []) + Handled(owner, Next(owner, w, steps[0]), steps[1..])
  }

  // ---------------------------------------------------------------- Every run keeps the invariant

  lemma CheckoutKeepsInv(owner: Owner, db: Db, session: nat, ticket: nat, amount: int)
    requires Inv(owner, db) && forall i :: 0 <= i < |db.txns| ==> db.txns[i].external != Some(Session(session))
    ensures Inv(owner, StartCheckout(db, session, ticket, amount))
  {
    if ticket !in db.booked {
      var bookings := db.bookings + [Booking(PENDING, ticket)];
      var grown := db.(bookings := bookings);
      var t := Txn(BOOKING_PAYMENT, TxnPending, amount, Some(|db.bookings|), Some(Session(session)),
          Some(Session(session)), None, None);
      forall i | 0 <= i < |db.txns|
        ensures RowOk(owner, bookings, db.txns[i]) && Apart(db.txns[i], t) && Apart(t, db.txns[i])
      {
        assert RowOk(owner, db.bookings, db.txns[i]);
      }
      assert Inv(owner, grown);
      AppendRow(owner, grown, t);
    }
  }

  lemma NextKeepsInv(owner: Owner, w: World, step: Step)
    requires Inv(owner, w.db) && Legal(owner, w, step)
    ensures Inv(owner, Next(owner, w, step).db)
  {
    match step
    case Checkout(session, ticket, amount) => CheckoutKeepsInv(owner, w.db, session, ticket, amount);
    case SideRow(row) => AppendRow(owner, w.db, row);
    case Job(_, ev, picks, _, _) => EffectKeepsInv(owner, w.db, ev, picks);
    case _ =>
  }

  lemma {:induction false} RunKeepsInv(owner: Owner, w: World, steps: seq<Step>)
    requires Inv(owner, w.db) && LegalRun(owner, w, steps)
    ensures Inv(owner, Run(owner, w, steps).db)
    decreases |steps|
  {
    if steps != [] {
      NextKeepsInv(owner, w, steps[0]);
      RunKeepsInv(owner, Next(owner, w, steps[0]), steps[1..]);
    }
  }

  /** In every reachable state a confirmed booking has its ticket booked. */
  lemma ConfirmedMeansBooked(owner: Owner, steps: seq<Step>, b: int)
    requires LegalRun(owner, EMPTY_WORLD, steps)
    requires var db := Run(owner, EMPTY_WORLD, steps).db; 0 <= b < |db.bookings| && db.bookings[b].status == CONFIRMED
    ensures var db := Run(owner, EMPTY_WORLD, steps).db; db.bookings[b].ticket in db.booked
  {
    RunKeepsInv(owner, EMPTY_WORLD, steps);
    var db := Run(owner, EMPTY_WORLD, steps).db;
    assert Linked(db.bookings[b], db.booked);
  }

  /** `isBooked` never reverts. */
  lemma {:induction false} BookedNeverReverts(owner: Owner, w: World, steps: seq<Step>)
    requires LegalRun(owner, w, steps)
    ensures w.db.booked <= Run(owner, w, steps).db.booked
    decreases |steps|
  {
    if steps != [] {
      BookedNeverReverts(owner, Next(owner, w, steps[0]), steps[1..]);
    }
  }

  // ---------------------------------------------------------------- One booking through a run

  /** Payment row `i` of session `session` pays booking `b`. */
  predicate Pays(db: Db, i: int, session: nat, b: int) {
    && 0 <= i < |db.txns| && 0 <= b < |db.bookings|
    && db.txns[i].kind == BOOKING_PAYMENT && db.txns[i].external == Some(Session(session))
    && db.txns[i].booking == Some(b)
  }

  predicate IsCompletedFor(ev: Event, session: nat) {
    ev.CheckoutCompleted? && ev.session == Session(session)
  }

  predicate IsExpiredFor(ev: Event, session: nat) {
    ev.CheckoutExpired? && ev.session == Session(session)
  }

  /** The expired event's lookup found a row of booking `b`. */
  predicate FindsBooking(db: Db, ev: Event, picks: Picks, b: int)
    requires InTable(picks.primary, db.txns)
  {
    ev.CheckoutExpired? && picks.primary.Some? && db.txns[picks.primary.value].booking == Some(b)
  }

  /** What a handled event means to one booking. */
  datatype Move = Completes | Expires | Neither

  function MoveOf(db: Db, ev: Event, picks: Picks, session: nat, b: int): Move
    requires InTable(picks.primary, db.txns)
  {
    if IsCompletedFor(ev, session) then Completes else if FindsBooking(db, ev, picks, b) then Expires else Neither
  }

  function Settle(status: BookingStatus, move: Move): BookingStatus {
    match move
    case Completes => CONFIRMED
    case Expires => if status == PENDING then EXPIRED else status
    case Neither => status
  }

  lemma OtherBooking(owner: Owner, db: Db, i: int, p: int, session: nat, b: int)
    requires Inv(owner, db) && Pays(db, i, session, b) && 0 <= p < |db.txns|
    requires db.txns[p].kind == BOOKING_PAYMENT && db.txns[p].external != Some(Session(session))
    ensures db.txns[p].booking != Some(b)
  {
    assert Apart(db.txns[p], db.txns[i]);
  }

  /**
   The session's completed event, and an expired event that finds a row of the booking, move it; no other
   event does.
   */
  lemma EffectSettles(owner: Owner, db: Db, ev: Event, picks: Picks, i: int, session: nat, b: int)
    requires Inv(owner, db) && Handleable(owner, db, ev, picks) && Pays(db, i, session, b)
    ensures var after := Effect(db, ev, picks);
            && Pays(after, i, session, b) && after.bookings[b].ticket == db.bookings[b].ticket
            && after.bookings[b].status == Settle(db.bookings[b].status, MoveOf(db, ev, picks, session, b))
  {
    if picks.primary.None? {
      assert !(x => Primary(ev, x))(db.txns[i]);
      return;
    }
    var p := picks.primary.value;
    if ev.CheckoutCompleted? {
      SessionLookup(owner, db, ev, picks, p);
      if ev.session == Session(session) {
        SameSession(owner, db, i, p);
      } else {
        OtherBooking(owner, db, i, p, session, b);
      }
    } else if ev.IntentSucceeded? || ev.IntentFailed? || ev.IntentCanceled? {
      IntentLookup(owner, db, ev, picks, p);
    } else if ev.ChargeRefunded? {
      SettleIdentity(db.txns, ev.refunds, picks.refunds, i);
    }
  }

  /** Every checkout's booking moves as its move says: the frame of one handled event. */
  ghost predicate AllSettled(before: Db, after: Db, ev: Event, picks: Picks)
    requires InTable(picks.primary, before.txns)
  {
    forall i, session, b :: Pays(before, i, session, b) ==>
      Pays(after, i, session, b)
      && after.bookings[b] == before.bookings[b].(status :=
           Settle(before.bookings[b].status, MoveOf(before, ev, picks, session, b)))
  }

  lemma EffectSettlesAll(owner: Owner, db: Db, ev: Event, picks: Picks)
    requires Inv(owner, db) && Handleable(owner, db, ev, picks)
    ensures AllSettled(db, Effect(db, ev, picks), ev, picks)
  {
    forall i, session, b | Pays(db, i, session, b)
      ensures var after := Effect(db, ev, picks);
              Pays(after, i, session, b)
              && after.bookings[b] == db.bookings[b].(status :=
                   Settle(db.bookings[b].status, MoveOf(db, ev, picks, session, b)))
    {
      EffectSettles(owner, db, ev, picks, i, session, b);
    }
  }

  lemma {:induction false} SettleIdentity(txns: seq<Txn>, refunds: seq<RefundItem>, picks: seq<Option<int>>, i: int)
    requires |refunds| == |picks| && forall k :: 0 <= k < |picks| ==> InTable(picks[k], txns)
    requires 0 <= i < |txns|
    ensures SameIdentity(txns[i], SettleRefunds(txns, refunds, picks)[i])
  {
    if refunds != [] {
      var n := |refunds| - 1;
      assert InTable(picks[n], txns);
      SettleIdentity(txns, refunds[..n], picks[..n], i);
    }
  }

  /** An expired event whose lookup finds a payment row finds the booking's row iff it is the booking's own. */
  lemma PaymentMove(owner: Owner, db: Db, ev: Event, picks: Picks, i: int, session: nat, b: int)
    requires Inv(owner, db) && Handleable(owner, db, ev, picks) && Pays(db, i, session, b) && ev.CheckoutExpired?
    requires picks.primary.Some? ==> db.txns[picks.primary.value].kind == BOOKING_PAYMENT
    ensures MoveOf(db, ev, picks, session, b) == Expires <==> IsExpiredFor(ev, session)
  {
    if picks.primary.None? {
      assert !(x => Primary(ev, x))(db.txns[i]);
    } else {
      var p := picks.primary.value;
      SessionLookup(owner, db, ev, picks, p);
      if ev.session == Session(session) {
        SameSession(owner, db, i, p);
      } else {
        OtherBooking(owner, db, i, p, session, b);
      }
    }
  }

  lemma NextSettles(owner: Owner, w: World, step: Step, i: int, session: nat, b: int)
    requires Inv(owner, w.db) && Legal(owner, w, step) && Pays(w.db, i, session, b)
    ensures var after := Next(owner, w, step).db;
            && Pays(after, i, session, b) && after.bookings[b].ticket == w.db.bookings[b].ticket
            && after.bookings[b].status ==
               if Applied(w, step)
               then Settle(w.db.bookings[b].status, MoveOf(w.db, step.ev, step.picks, session, b))
               else w.db.bookings[b].status
  {
    if Applied(w, step) {
      EffectSettles(owner, w.db, step.ev, step.picks, i, session, b);
    }
  }

  /** What the committed events of a run mean to one booking, in order. */
  ghost function Moves(owner: Owner, w: World, steps: seq<Step>, session: nat, b: int): seq<Move>
    requires LegalRun(owner, w, steps)
    decreases |steps|
  {
    if steps == [] then []
    else
      (if Applied(w, steps[0]) then [MoveOf(w.db, steps[0].ev, steps[0].picks, session, b)] else [])
      + Moves(owner, Next(owner, w, steps[0]), steps[1..], session, b)
  }

  function SettleAll(status: BookingStatus, moves: seq<Move>): BookingStatus
    decreases |moves|
  {
    if moves == [] then status else SettleAll(Settle(status, moves[0]), moves[1..])
  }

  /** The order of the events does not matter: only whether a completing, or else an expiring one, was among them. */
  lemma {:induction false} SettleAllClosed(status: BookingStatus, moves: seq<Move>)
    requires status == PENDING || status == CONFIRMED || status == EXPIRED
    ensures SettleAll(status, moves) ==
            if status == CONFIRMED || Completes in moves then CONFIRMED
            else if status == EXPIRED || Expires in moves then EXPIRED
            else PENDING
    decreases |moves|
  {
    if moves != [] {
      assert moves == [moves[0]] + moves[1..];
      SettleAllClosed(Settle(status, moves[0]), moves[1..]);
    }
  }

  lemma {:induction false} RunSettles(owner: Owner, w: World, steps: seq<Step>, i: int, session: nat, b: int)
    requires Inv(owner, w.db) && LegalRun(owner, w, steps) && Pays(w.db, i, session, b)
    ensures var after := Run(owner, w, steps).db;
            && 0 <= b < |after.bookings| && after.bookings[b].ticket == w.db.bookings[b].ticket
            && after.bookings[b].status == SettleAll(w.db.bookings[b].status, Moves(owner, w, steps, session, b))
    decreases |steps|
  {
    if steps != [] {
      var next := Next(owner, w, steps[0]);
      var rest := Moves(owner, next, steps[1..], session, b);
      NextKeepsInv(owner, w, steps[0]);
      NextSettles(owner, w, steps[0], i, session, b);
      RunSettles(owner, next, steps[1..], i, session, b);
      if Applied(w, steps[0]) {
        var move := MoveOf(w.db, steps[0].ev, steps[0].picks, session, b);
        assert ([move] + rest)[1..] == rest;
        assert Moves(owner, w, steps, session, b) == [move] + rest;
      } else {
        assert Moves(owner, w, steps, session, b) == rest;
      }
    }
  }

  predicate SomeCompleted(evs: seq<Event>, session: nat) {
    exists k :: 0 <= k < |evs| && IsCompletedFor(evs[k], session)
  }

  predicate SomeExpired(evs: seq<Event>, session: nat) {
    exists k :: 0 <= k < |evs| && IsExpiredFor(evs[k], session)
  }

  lemma SomeUnfold(ev: Event, rest: seq<Event>, session: nat)
    ensures SomeCompleted([ev] + rest, session) <==> IsCompletedFor(ev, session) || SomeCompleted(rest, session)
    ensures SomeExpired([ev] + rest, session) <==> IsExpiredFor(ev, session) || SomeExpired(rest, session)
  {
    var evs := [ev] + rest;
    assert forall k :: 0 < k < |evs| ==> evs[k] == rest[k - 1];
    assert evs[0] == ev;
    if SomeCompleted(rest, session) {
      var k :| 0 <= k < |rest| && IsCompletedFor(rest[k], session);
      assert IsCompletedFor(evs[k + 1], session);
    }
    if SomeExpired(rest, session) {
      var k :| 0 <= k < |rest| && IsExpiredFor(rest[k], session);
      assert IsExpiredFor(evs[k + 1], session);
    }
  }

  /** Every expired event whose writes were committed found a checkout payment, or no row. */
  ghost predicate PaymentsFound(owner: Owner, w: World, steps: seq<Step>)
    requires LegalRun(owner, w, steps)
    decreases |steps|
  {
    steps == [] ||
    (&& (Applied(w, steps[0]) && steps[0].ev.CheckoutExpired? && steps[0].picks.primary.Some? ==>
           w.db.txns[steps[0].picks.primary.value].kind == BOOKING_PAYMENT)
     && PaymentsFound(owner, Next(owner, w, steps[0]), steps[1..]))
  }

  /**
   In terms of the events: a booking is completed by its session's completed events, and, as long as
   expired events find payment rows, expired by its session's expired events.
   */
  lemma {:induction false} MovesAreEvents(owner: Owner, w: World, steps: seq<Step>, i: int, session: nat, b: int)
    requires Inv(owner, w.db) && LegalRun(owner, w, steps) && Pays(w.db, i, session, b)
    ensures var moves, evs := Moves(owner, w, steps, session, b), Handled(owner, w, steps);
            && (Completes in moves <==> SomeCompleted(evs, session))
            && (PaymentsFound(owner, w, steps) ==> (Expires in moves <==> SomeExpired(evs, session)))
    decreases |steps|
  {
    if steps != [] {
      var step, next := steps[0], Next(owner, w, steps[0]);
      NextKeepsInv(owner, w, step);
      NextSettles(owner, w, step, i, session, b);
      MovesAreEvents(owner, next, steps[1..], i, session, b);
      if Applied(w, step) {
        SomeUnfold(step.ev, Handled(owner, next, steps[1..]), session);
        if step.ev.CheckoutExpired? && PaymentsFound(owner, w, steps) {
          PaymentMove(owner, w.db, step.ev, step.picks, i, session, b);
        }
      } else {
        assert Handled(owner, w, steps) == Handled(owner, next, steps[1..]);
      }
    }
  }

  /**
   Confluence. A booking made by a checkout in any reachable state ends, after any further legal
   run, CONFIRMED iff a completed event of its session was handled since, else EXPIRED iff an
   expired event's lookup found a row of it, else PENDING; its ticket is booked whenever it is
   confirmed. Where expired events find payment rows, those that find a row of it are exactly those
   of its session.
   */
  lemma WebhookConfluence(owner: Owner, before: seq<Step>, session: nat, ticket: nat, amount: int, after: seq<Step>)
    requires LegalRun(owner, EMPTY_WORLD, before)
    requires Legal(owner, Run(owner, EMPTY_WORLD, before), Checkout(session, ticket, amount))
    requires ticket !in Run(owner, EMPTY_WORLD, before).db.booked
    requires LegalRun(owner, Next(owner, Run(owner, EMPTY_WORLD, before), Checkout(session, ticket, amount)), after)
    ensures var start := Run(owner, EMPTY_WORLD, before);
            var made := Next(owner, start, Checkout(session, ticket, amount));
            var evs, end, b := Handled(owner, made, after), Run(owner, made, after).db, |start.db.bookings|;
            var completed, expired := SomeCompleted(evs, session), Expires in Moves(owner, made, after, session, b);
            && |end.bookings| > b && end.bookings[b].ticket == ticket
            && (end.bookings[b].status == CONFIRMED <==> completed)
            && (end.bookings[b].status == EXPIRED <==> !completed && expired)
            && (end.bookings[b].status == PENDING <==> !completed && !expired)
            && (completed ==> ticket in end.booked)
            && (PaymentsFound(owner, made, after) ==> (expired <==> SomeExpired(evs, session)))
  {
    var start := Run(owner, EMPTY_WORLD, before);
    var made := Next(owner, start, Checkout(session, ticket, amount));
    var row, b := |start.db.txns|, |start.db.bookings|;
    RunKeepsInv(owner, EMPTY_WORLD, before);
    NextKeepsInv(owner, start, Checkout(session, ticket, amount));
    RunSettles(owner, made, after, row, session, b);
    MovesAreEvents(owner, made, after, row, session, b);
    SettleAllClosed(PENDING, Moves(owner, made, after, session, b));
    RunKeepsInv(owner, made, after);
    var end := Run(owner, made, after).db;
    assert Linked(end.bookings[b], end.booked);
  }

  /** Runs in which every expired event names its intent, or meets no row without one, find payments only. */
  ghost predicate Guarded(owner: Owner, w: World, steps: seq<Step>)
    requires LegalRun(owner, w, steps)
    decreases |steps|
  {
    steps == [] ||
    ((steps[0].Job? ==> NullSafe(w.db.txns, steps[0].ev)) && Guarded(owner, Next(owner, w, steps[0]), steps[1..]))
  }

  lemma {:induction false} GuardedFindPayments(owner: Owner, w: World, steps: seq<Step>)
    requires Inv(owner, w.db) && LegalRun(owner, w, steps) && Guarded(owner, w, steps)
    ensures PaymentsFound(owner, w, steps)
    decreases |steps|
  {
    if steps != [] {
      if steps[0].Job? && steps[0].ev.CheckoutExpired? {
        GuardFindsPayments(owner, w.db, steps[0].ev, steps[0].picks);
      }
      NextKeepsInv(owner, w, steps[0]);
      GuardedFindPayments(owner, Next(owner, w, steps[0]), steps[1..]);
    }
  }

  // ---------------------------------------------------------------- Expired events without an intent

  ghost predicate ExpiresFor(db: Db, ev: Event, picks: Picks, b: int)
    requires 0 <= b < |db.bookings|
  {
    LegalPicks(db.txns, ev, picks) ==> Effect(db, ev, picks).bookings[b].status == EXPIRED
  }

  /**
   An expired event without an intent is sure to expire its own PENDING booking, whatever row its
   lookup returns, exactly when every row without an intent is a row of that booking.
   */
  lemma NullIntentExpiresIff(owner: Owner, db: Db, i: int, session: nat, b: int)
    requires Inv(owner, db) && Pays(db, i, session, b) && db.bookings[b].status == PENDING
    ensures (forall picks :: ExpiresFor(db, CheckoutExpired(Session(session), None), picks, b))
            <==> forall j :: 0 <= j < |db.txns| && db.txns[j].intent.None? ==> db.txns[j].booking == Some(b)
  {
    var ev := CheckoutExpired(Session(session), None);
    forall j | 0 <= j < |db.txns| && db.txns[j].intent.None? && db.txns[j].booking != Some(b)
      ensures !ExpiresFor(db, ev, Picks(Some(j), None, []), b)
    {
      assert LegalPicks(db.txns, ev, Picks(Some(j), None, []));
    }
    if forall j :: 0 <= j < |db.txns| && db.txns[j].intent.None? ==> db.txns[j].booking == Some(b) {
      forall picks
        ensures ExpiresFor(db, ev, picks, b)
      {
        if LegalPicks(db.txns, ev, picks) { NullIntentFinds(owner, db, ev, picks, i, session, b); }
      }
    }
  }

  lemma NullIntentFinds(owner: Owner, db: Db, ev: Event, picks: Picks, i: int, session: nat, b: int)
    requires Inv(owner, db) && Pays(db, i, session, b) && db.bookings[b].status == PENDING
    requires ev == CheckoutExpired(Session(session), None) && LegalPicks(db.txns, ev, picks)
    requires forall j :: 0 <= j < |db.txns| && db.txns[j].intent.None? ==> db.txns[j].booking == Some(b)
    ensures Effect(db, ev, picks).bookings[b].status == EXPIRED
  {
    MatchIsFound(db.txns, ev, picks, i);
    var p := picks.primary.value;
    if db.txns[p].intent.Some? { SameSession(owner, db, i, p); }
  }

  lemma MatchIsFound(txns: seq<Txn>, ev: Event, picks: Picks, i: int)
    requires LegalPicks(txns, ev, picks) && 0 <= i < |txns| && Primary(ev, txns[i])
    ensures picks.primary.Some?
  {
    assert (x => Primary(ev, x))(txns[i]);
  }

  /**
   The condition on expired events is needed. After a checkout and any fee event, an expired event that
   names no intent may find the commission row, and the booking stays PENDING.
   */
  lemma NullIntentMissesBooking(owner: Owner, session: nat, ticket: nat, amount: int, fee: nat, feeAmount: int)
    ensures var steps := [Checkout(session, ticket, amount),
                          Job(0, FeeCreated(Fee(fee), None, feeAmount), Picks(None, None, []), 0, Finished)];
            var ev, picks := CheckoutExpired(Session(session), None), Picks(Some(1), None, []);
            && LegalRun(owner, EMPTY_WORLD, steps)
            && var db := Run(owner, EMPTY_WORLD, steps).db;
               EventOk(owner, ev) && LegalPicks(db.txns, ev, picks)
                   && Effect(db, ev, picks).bookings == [Booking(PENDING, ticket)]
  {
    var checkout := Checkout(session, ticket, amount);
    var job := Job(0, FeeCreated(Fee(fee), None, feeAmount), Picks(None, None, []), 0, Finished);
    var w1 := Next(owner, EMPTY_WORLD, checkout);
    var w2 := Next(owner, w1, job);
    assert [checkout, job][1..] == [job] && [job][1..] == [];
    assert LegalRun(owner, w2, []) && Run(owner, w2, []) == w2;
    assert LegalRun(owner, w1, [job]) && Run(owner, w1, [job]) == w2;
    assert Run(owner, EMPTY_WORLD, [checkout, job]) == w2;
    assert w2.db.txns[1].intent == None;
  }

  // ---------------------------------------------------------------- Commissions

  /** In every reachable state there is at most one commission row per fee and per charge. */
  lemma OneCommissionEach(owner: Owner, steps: seq<Step>, i: int, j: int)
    requires LegalRun(owner, EMPTY_WORLD, steps)
    requires var txns := Run(owner, EMPTY_WORLD, steps).db.txns;
             && 0 <= i < |txns| && 0 <= j < |txns| && txns[i].kind == ADMIN_COMMISSION
             && txns[j].kind == ADMIN_COMMISSION
             && (txns[i].external == txns[j].external || (txns[i].charge.Some? && txns[i].charge == txns[j].charge))
    ensures i == j
  {
    RunKeepsInv(owner, EMPTY_WORLD, steps);
    var db := Run(owner, EMPTY_WORLD, steps).db;
    assert i != j ==> Apart(db.txns[i], db.txns[j]);
  }

  // ---------------------------------------------------------------- Processed events

  predicate About(step: Step, id: nat) {
    (step.Job? || step.Enqueue?) && step.id == id
  }

  function Without(steps: seq<Step>, id: nat): seq<Step> {
    if steps == [] then [] else (if About(steps[0], id) then [] else [steps[0]]) + Without(steps[1..], id)
  }

  /** No clean-up of the run reaches back to `processedAt`. */
  predicate Retained(steps: seq<Step>, processedAt: int) {
    forall k :: 0 <= k < |steps| && steps[k].Cleanup? ==> steps[k].cutoff <= processedAt
  }

  /**
   Once an event is PROCESSED, its deliveries and jobs change nothing until `projectCleanup`
   deletes its record: the run with them ends exactly as the run without them.
   */
  lemma {:induction false} ProcessedOnce(owner: Owner, w: World, steps: seq<Step>, id: nat, processedAt: int)
    requires LegalRun(owner, w, steps) && Retained(steps, processedAt)
    requires id in w.events && w.events[id] == Record(Processed, Some(processedAt))
    ensures LegalRun(owner, w, Without(steps, id))
    ensures Run(owner, w, steps) == Run(owner, w, Without(steps, id))
    decreases |steps|
  {
    if steps != [] {
      var next := Next(owner, w, steps[0]);
      assert id in next.events && next.events[id] == w.events[id];
      assert forall k :: 0 <= k < |steps[1..]| ==> steps[1..][k] == steps[k + 1];
      ProcessedOnce(owner, next, steps[1..], id, processedAt);
      var rest := Without(steps[1..], id);
      if About(steps[0], id) {
        assert next == w;
        assert Without(steps, id) == rest;
      } else {
        assert Without(steps, id) == [steps[0]] + rest;
        assert ([steps[0]] + rest)[1..] == rest;
      }
    }
  }

  lemma {:induction false} StaysForgotten(owner: Owner, w: World, steps: seq<Step>, id: nat)
    requires LegalRun(owner, w, steps) && id !in w.events
    requires forall k :: 0 <= k < |steps| ==> !About(steps[k], id)
    ensures id !in Run(owner, w, steps).events
    decreases |steps|
  {
    if steps != [] {
      assert !About(steps[0], id);
      StaysForgotten(owner, Next(owner, w, steps[0]), steps[1..], id);
    }
  }

  /**
   `projectCleanup` is what reopens an event, and nothing else: as long as it is not delivered again,
   a PROCESSED record survives a run exactly when no clean-up of the run reaches it.
   */
  lemma {:induction false} ForgottenIff(owner: Owner, w: World, steps: seq<Step>, id: nat, processedAt: int)
    requires LegalRun(owner, w, steps)
    requires forall k :: 0 <= k < |steps| ==> !About(steps[k], id)
    requires id in w.events && w.events[id] == Record(Processed, Some(processedAt))
    ensures IsProcessed(Run(owner, w, steps), id) <==> Retained(steps, processedAt)
    ensures !Retained(steps, processedAt) ==> id !in Run(owner, w, steps).events
    decreases |steps|
  {
    if steps != [] {
      var step, next := steps[0], Next(owner, w, steps[0]);
      assert !About(step, id);
      assert forall k :: 0 <= k < |steps[1..]| ==> steps[1..][k] == steps[k + 1];
      if step.Cleanup? && step.cutoff > processedAt {
        assert !Retained(steps, processedAt);
        StaysForgotten(owner, next, steps[1..], id);
      } else {
        ForgottenIff(owner, next, steps[1..], id, processedAt);
        assert Retained(steps, processedAt) <==> Retained(steps[1..], processedAt);
      }
    }
  }
}
