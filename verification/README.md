# Verified model of the WeOut service logic

WeOut is an event-booking back end. This project models the parts of it whose correctness
depends on many steps working together, and proves what they promise:

| files | what they model |
|---|---|
| `Utc`, `Sorting`, `Recurrence`, `RecurrenceLaws`, `RecurrenceRules` | expansion of recurring events over UTC windows |
| `PointRules`, `Ledger`, `LedgerExpiry`, `LedgerTiers`, `LedgerRuns`, `LedgerMeaning`, `PointsService` | the loyalty points ledger |
| `Webhook`, `WebhookInvariant`, `WebhookRuns`, `WebhookReruns`, `WebhookEffects`, `WebhookService` | Stripe webhooks and the rows of a checkout |
| `BlogPaging`, `BlogMeaning` | keyset pagination of public blogs |
| `Roles`, `RoleRuns`, `RoleMeaning`, `CacheStaleness`, `AccessControl` | roles, the permissions guard and its cache |
| `DistributedLock` | the Redis lock |
| `Payout`, `PayoutMeaning` | paying a seller when a booking code is verified |
| `RateLimiter` | the fixed-window rate limiter |

Run `dafny verify dfyconfig.toml` to check everything.

## How it is built

Code that changes stored state is modelled twice. A class holds the state and its methods follow
the source step by step, with the source's branches, loops and error order; each method is proved to
have exactly the effect of a function on values (`Drain`, `Effect`, `Step`, ...). The properties are
then proved about those functions: what every operation keeps, and what holds after every run.
A run is a sequence of steps, each legal in the state it meets. What a function on values does is also said
without it, in terms of fields, rows and keys alone (`RecurrenceRules`, `LedgerMeaning`, `WebhookEffects`,
`BlogMeaning`, `RoleMeaning`, `PayoutMeaning`).

- What the environment decides is an input. The rows a query returns are given to the operation and
  constrained to be an answer the query may give (`RedeemOrder`, `DuePage`, `TierOrder`, `LegalPicks`,
  `IsFirstOtp`), so the results hold for every order of ties and every choice of `findFirst`. Clock
  readings, new ids, and whether Stripe, Redis or the database answer are inputs in the same way.
- Points, cents and milliseconds are integers; tier multipliers and decimal amounts are reals.
- Time values are milliseconds since the epoch, with the day arithmetic of ECMA-262 section 21.4.1. A
  date that does not parse is its own value, because every comparison with it is false.

### Where the code and its descriptions disagree

The model follows the code.

- The recurrence rules follow section 3.3.10 of RFC 5545 in part: `count` is never read, MONTHLY and
  YEARLY yield nothing, and week intervals are anchored on Sunday where the RFC's default week starts
  on Monday. A weekday named twice in `byday` is listed twice, and `maxResults <= 0` still yields one
  result.
- The comment on `expandWindowUTC` asks for windows that start at a UTC midnight. The contract here
  holds for every `windowStart`.
- `src/webhook/README.md` describes in-memory duplicate prevention, a `transfer.paid` event and a
  booking status change on `charge.refunded`. The code keeps event records in the database, handles
  `transfer.created`, and leaves the booking alone on a refund.

### Properties that hold under a condition

- A purchase split in two never earns more under a per-unit rule; a flat rule pays per purchase, so
  there it holds exactly when the flat award is below one point (`SplittingNeverEarnsMore`).
- The lookup of an expired checkout finds only its own row exactly when the event names an intent or no
  row lacks one (`ExpiredLookupExact`); `NullIntentMissesBooking` is a run after which it may not, and the
  booking stays PENDING. An event that names none is sure to expire its PENDING booking exactly when every
  row without an intent is a row of that booking (`NullIntentExpiresIff`). The run theorems cover all such
  events: a booking is EXPIRED iff it was never completed and some expired event found a row of it, and
  where expired events find payment rows those are the events of its own session.
- Running a webhook handler twice is the same as running it once, whatever its lookups return, exactly when
  every row a lookup could choose instead already holds what the handler writes (`RerunUnchangedIff`). It
  fails in reachable states: a refund may mark the commission of a charge and its re-run the payment
  (`RefundRerunMovesPayment`), and an expired event may find a commission and its re-run the payment, and
  with it the booking (`ExpiredRerunMovesBooking`). For the bookings alone and the payment statuses alone
  the exact conditions are `BookingsUnchangedIff` and `PaymentsUnchangedIff`.
- Walking with `nextOccurrenceUTC` rebuilds an expansion exactly when no gap exceeds the lookahead
  (`WalkRebuildsDays`).
- What Stripe sent for a booking is what its payout rows record exactly when no call failed both to
  commit and to reverse (`SentIsRecordedIff`).
- A seller is paid once per code, not once per booking: after a payment no more is sent until the buyer gets
  a new code (`PaidOncePerCode`), and with a new code it is sent again (`FreshCodePaysAgain`). A booking can
  be paid exactly while its buyer has a code, its seller an account and its payment an amount (`PayableIff`).
- A cached permission list can be 60 seconds plus one load's delay old, and that is reached even if every
  change is followed by its invalidation (`CacheStaleness.BoundIsReached`).
- Operations under one lock can overlap once one outlives its TTL (`OverrunOverlaps`), and not before.

## Model

| member | source | states |
|---|---|---|
| Utc.StartOfUTCDay | src/common/utc.ts:5-9 | the midnight at or before an instant, less than a day away, on the same day |
| Utc.DaysBetweenUTC | src/common/utc.ts:48-52 | whole days between the two dates' midnights, negative when the second is earlier |
| Utc.StartOfUTCWeekSun | src/common/utc.ts:55-58 | the Sunday midnight at or before an instant, less than seven days away |
| Utc.WeeksBetween | src/common/utc.ts:48-58 | dividing the days between two Sundays by 7 gives the number of weeks between them, in either direction |
| Recurrence.ParseBydayExact | src/event/recurrence.ts:24-31 | parsed `byday` is ascending, keeps repeats, and holds a weekday iff its name is in the list; it is absent iff no name is recognised |
| Recurrence.ExpandWindowUTC | src/event/recurrence.ts:38-109 | for every rule, window and limit, the aligned cursor, the alignment search and the nested loops return exactly the first max(1, maxResults) days of the plain day-by-day reading, and the search takes fewer than `interval` steps |
| Recurrence.OccurrencesExact | src/event/recurrence.ts:45-105 | the plain reading is ascending and lists a day of the window exactly as often as the rule asks for it, and no other day: not before DTSTART, not after `until`, on the interval grid, on a wanted weekday |
| RecurrenceRules.AskedIsCopies | src/event/recurrence.ts:38-105 | how often a rule lists a day, from its fields alone: never before DTSTART; DAILY every `interval` days; WEEKLY every `interval` Sunday-weeks, once for each `byday` name that names its weekday, or once on the weekday of DTSTART if no name is one; MONTHLY and YEARLY never |
| RecurrenceRules.ExpandedExactly | src/event/recurrence.ts:38-109 | the list in those terms: ascending midnights, at most max(1, maxResults), each day of the window as often as asked for; a full list is cut at its end only |
| RecurrenceRules.ListedIff | src/event/recurrence.ts:38-109 | in a list that is not full a day appears iff it is in the window, not after `until`, and asked for |
| Recurrence.OnGridIsRemainderZero | src/event/recurrence.ts:64-66 | lying on the interval grid, defined by stepping, is the remainder test the code makes |
| Recurrence.EmitDaily | src/event/recurrence.ts:68-73 | from an aligned cursor the DAILY loop emits exactly the listed days, cut off at the limit |
| Recurrence.AlignWeekStart | src/event/recurrence.ts:80-90 | the search stops at an aligned Sunday before which nothing was due, or nothing is due in the window, in fewer than `interval` steps |
| Recurrence.EmitWeek | src/event/recurrence.ts:95-100 | one week emits its wanted days that lie in the window, in order, stopping exactly when the list is full |
| Recurrence.AlignedWeek | src/event/recurrence.ts:92-100 | the days an aligned week emits are exactly the days the rule lists in that week's part of the window |
| Recurrence.EmitWeeks | src/event/recurrence.ts:92-102 | from an aligned Sunday the week loop emits exactly the listed days, cut off at the limit |
| RecurrenceLaws.OccurrencesSplit | src/event/recurrence.ts:38-109 | at any midnight of the window the days before it and the days from it on make up the whole, for every frequency, interval and `until` |
| RecurrenceLaws.WindowSplit | src/event/recurrence.ts:38-109 | expanding a window equals expanding up to a midnight and then from it when the limit cuts nothing off: the grid hangs on DTSTART, not on the window |
| RecurrenceLaws.NextOccurrenceUTC | src/event/recurrence.ts:112-122 | the call, which expands with a limit of one, returns the first day of the unlimited expansion of the lookahead window, or null |
| RecurrenceLaws.NextIsLeast | src/event/recurrence.ts:112-122 | the result is the least occurring day from the start day through the lookahead; null iff no day there occurs |
| RecurrenceRules.NextAsked | src/event/recurrence.ts:112-122 | the result is the first day the rule asks for from the start day to the end of the lookahead, null iff it asks for none |
| RecurrenceLaws.WalkRebuildsDays | src/event/recurrence.ts:38-122 | going on from the day after each hit finds exactly the distinct days of the expansion, iff no gap is longer than the lookahead |
| RecurrenceLaws.WalkRebuildsExpansion | src/event/recurrence.ts:38-122 | with no weekday named twice the walk rebuilds the expansion itself, iff no gap is longer than the lookahead |
| PointRules.EarningMonotone | src/points/points.service.ts:73-98 | spending more never earns fewer points |
| PointRules.PointsExactly | src/points/points.service.ts:73-98 | the points: whole units in the amount times base, or base, times the listed multiplier of the tier, rounded down; a missing or zero unit is 100 cents, a tier without a non-zero entry counts once |
| PointRules.SplittingNeverEarnsMore | src/points/points.service.ts:73-98 | f(a) + f(b) <= f(a + b) iff the rule is per unit or its flat award is below one point |
| PointRules.RoundingLoss | src/points/points.service.ts:85-97 | the award is at most amount * base * multiplier / unit, and the two floors lose less than one unit's worth plus one point |
| Ledger.AwardKeepsInv | src/points/points.service.ts:110-157 | an award keeps the ledger invariant: cached totals equal the sums over rows, every batch has 0 <= remaining <= points with remaining 0 iff not ACTIVE, and tier history is a chain |
| LedgerMeaning.AwardMeans | src/points/points.service.ts:128-157 | positive points add exactly one ACTIVE batch holding them and raise currentPoints and totalEarned of that user by them; otherwise only the account is opened; all else stays |
| Ledger.DrainShares | src/points/points.service.ts:287-306 | in closed form, each batch in turn gives up min(its remaining, what those before it left wanting), and becomes REDEEMED iff emptied |
| Ledger.FirstInFirstOut | src/points/points.service.ts:287-306 | along the order the query gives, if a later batch is touched every earlier one is emptied |
| Ledger.OldestRedeemedFirst | src/points/points.service.ts:287-306 | redemption is by age: if a batch is touched, every ACTIVE batch of the user with an earlier `earnedAt` ends empty and REDEEMED, whatever order ties come in |
| Ledger.DrainSums | src/points/points.service.ts:293-306 | redemption takes exactly what it deducts off the owner's spendable sum, nothing off anyone else's, and nothing off what was earned |
| Ledger.RedemptionIsTotal | src/points/points.service.ts:282-312 | under the invariant, once the balance check passes the loop deducts exactly the points asked for: the "Failed to redeem" error cannot happen |
| Ledger.RedeemSucceedsIff | src/points/points.service.ts:278-333 | redemption succeeds iff the points are positive and covered by the balance |
| Ledger.RedeemKeepsInv | src/points/points.service.ts:278-333 | redemption, successful or not, keeps the ledger invariant |
| LedgerMeaning.RedeemMeans | src/points/points.service.ts:278-333 | success takes exactly the points out of the ACTIVE batches of the user, marks emptied ones REDEEMED, adds one redemption row and adjusts that account; otherwise the right error and nothing but the opening of the account |
| LedgerExpiry.ExpireRowsAt | src/points/points.service.ts:436-441 | exactly the chosen batches lapse, every other batch stays as it was |
| LedgerExpiry.SweepSums | src/points/points.service.ts:428-447 | a sweep takes each user's chosen remaining points off that user's spendable sum, and nothing off what was earned |
| LedgerExpiry.ExpireKeepsInv | src/points/points.service.ts:417-448 | a sweep keeps the ledger invariant |
| LedgerMeaning.ExpireMeans | src/points/points.service.ts:428-448 | exactly the chosen batches become EXPIRED with nothing left, and each balance drops by what the batches of that user lost; all else stays |
| LedgerMeaning.ExpiresOverdue | src/points/points.service.ts:417-441 | only batches whose expiry has passed lapse, at most `limit`, the earliest first, and all of them unless the limit is reached |
| LedgerExpiry.DueShrinks | src/points/points.service.ts:420-441 | one call takes exactly its page off the due batches |
| LedgerExpiry.CallsForIsCeiling | src/points/points.service.ts:417-426 | the count of calls used below is ceil(n / limit) |
| LedgerExpiry.SweepLength | src/points/points.service.ts:417-448 | with limit >= 1 and a fixed `now`, after any calls nothing is due iff at least ceil(n / limit) were made, and exactly the first ceil(n / limit) find something |
| LedgerTiers.ChosenTierIsHighest | src/points/points.service.ts:371-392 | the chosen tier is active, its window sum reaches its minimum, and no active qualifying tier ranks higher; none is chosen iff none qualifies |
| LedgerTiers.EarningNeverLowersTier | src/points/points.service.ts:371-392 | more batches at the same moment never lower the chosen tier's priority, nor lose the tier, whatever order tiers of equal priority come in each time |
| LedgerTiers.RecalcKeepsInv | src/points/points.service.ts:369-407 | recalculation keeps the ledger invariant, including that the last history entry is the current tier |
| LedgerMeaning.RecalcMeans | src/points/points.service.ts:369-407 | the stored tier is an active one whose window sum, from `durationDays` days ago, reaches its minimum and which no such tier outranks, or null iff there is none; a history row is added iff it changed; all else stays; with no active tier nothing happens |
| LedgerTiers.HistoryConnected | src/points/points.service.ts:394-407 | neighbouring history entries of a user join up, and no entry goes from a tier to itself |
| LedgerRuns.StepConserves | src/points/points.service.ts:100-451 | only a sweep makes points neither spendable nor redeemed, and then exactly what its batches still held |
| LedgerRuns.LedgerOverRuns | src/points/points.service.ts:100-451 | after any run of awards, redemptions, sweeps and recalculations: currentPoints is the sum of remaining over ACTIVE batches and not negative, totalEarned is the sum of batch points, and totalEarned = currentPoints + totalRedeemed + expired points |
| LedgerMeaning.BalanceIsHeld | src/points/points.service.ts:100-451 | in every reachable state currentPoints is what the ACTIVE batches of the user hold |
| PointsService.PointsService.AwardPoints | src/points/points.service.ts:100-160 | without an active rule nothing changes; otherwise the computed points (0 if not positive) are reported and the rows change as `Award` says, the invariant kept |
| PointsService.PointsService.RedeemPoints | src/points/points.service.ts:278-333 | the redemption loop over rows has the effect and answer of the closed form, keeps the invariant, and succeeds iff 0 < points <= balance |
| PointsService.PointsService.SumByUser | src/points/points.service.ts:428-432 | the per-user map holds exactly the users with something left, each with the sum of remaining over the chosen batches |
| PointsService.PointsService.ExpireJob | src/points/points.service.ts:417-451 | for a page of at most `limit` due batches, the two update loops lapse exactly those and take each user's sum off the balance; the number expired is reported, 0 if there are none |
| PointsService.PointsService.RecalcTier | src/points/points.service.ts:369-415 | the search loop and updates have the effect of `Recalc`, report a change iff a history entry was added, and keep the invariant |
| WebhookInvariant.SessionLookup | src/webhook/webhook.service.ts:202-332 | a completed event can only find the payment row of its own session, and so can an expired event that finds a payment row |
| WebhookInvariant.IntentLookup | src/webhook/webhook.service.ts:642-648 | succeeded, failed and cancelled intents can only find a payment a completed event has linked: its booking is CONFIRMED and its ticket booked |
| WebhookInvariant.NeverThrows | src/webhook/webhook.service.ts:642-676 | under the invariant a succeeded intent never finds a payment without a booking, so the nested booking update does not throw |
| WebhookInvariant.ExpiredLookupExact | src/webhook/webhook.service.ts:325-332 | the expired lookup finds only its own session's row iff the event names an intent or no row lacks one |
| WebhookInvariant.GuardFindsPayments | src/webhook/webhook.service.ts:325-332 | under that condition an expired event finds no row but a payment |
| WebhookInvariant.EffectKeepsInv | src/webhook/webhook.service.ts:191-992 | every handler keeps the tables consistent: payments keep their own session and booking, a linked payment's booking is CONFIRMED, a CONFIRMED booking's ticket is booked, commissions stay unique |
| WebhookRuns.RunKeepsInv | src/webhook/webhook.service.ts:40-992 | every run of checkouts, deliveries, jobs, crashes and clean-ups keeps that invariant |
| WebhookRuns.ConfirmedMeansBooked | src/webhook/webhook.service.ts:216-252 | in every reachable state a CONFIRMED booking has `isBooked` set on its ticket |
| WebhookRuns.BookedNeverReverts | src/webhook/webhook.service.ts:245-249 | no run ever clears `isBooked` |
| WebhookRuns.EffectSettles | src/webhook/webhook.service.ts:191-992 | one handled event moves a checkout's booking only if it is its own session's completed event (to CONFIRMED) or an expired event whose lookup found a row of it (from PENDING to EXPIRED) |
| WebhookRuns.PaymentMove | src/webhook/webhook.service.ts:319-399 | an expired event that finds a payment row finds the row of a booking iff it is of the session of that booking |
| WebhookRuns.SettleAllClosed | src/webhook/webhook.service.ts:191-399 | folding any sequence of moves depends only on whether a completing, or else an expiring, one is among them: order and repeats do not matter |
| WebhookRuns.MovesAreEvents | src/webhook/webhook.service.ts:191-399 | over a run, completing moves are the completed events of the session, and, where expired events find payment rows, expiring moves are its expired events |
| WebhookRuns.GuardedFindPayments | src/webhook/webhook.service.ts:325-332 | in a run where each expired event names its intent or meets no row without one, expired events find payment rows only |
| WebhookRuns.WebhookConfluence | src/webhook/webhook.service.ts:191-718 | for every order, repeat, retry and crash, a booking made by a checkout ends CONFIRMED iff a completed event of its session was handled, else EXPIRED iff an expired event found a row of it, else PENDING; where expired events find payment rows, those are the expired events of its session |
| WebhookRuns.NullIntentExpiresIff | src/webhook/webhook.service.ts:325-375 | an expired event without an intent makes its own PENDING booking EXPIRED, whatever row is found, iff every row without an intent is a row of that booking |
| WebhookRuns.NullIntentMissesBooking | src/webhook/webhook.service.ts:325-332 | after a checkout and a fee event, an expired event with a null intent may find the commission row instead, and the booking stays PENDING |
| WebhookRuns.OneCommissionEach | src/webhook/webhook.service.ts:531-631 | in every reachable state there is at most one ADMIN_COMMISSION row per fee id and per charge id |
| WebhookReruns.LookupRepeats | src/webhook/webhook.service.ts:202-648 | for checkout and payment-intent events, an expired event that meets no row without an intent among them, a repeated lookup can only find the row found before |
| WebhookReruns.SettlingTwiceIsOnce | src/webhook/webhook.service.ts:191-718 | so running such a handler again changes no row at all |
| WebhookReruns.RerunKeepsBookings | src/webhook/webhook.service.ts:191-992 | no handler run again, whatever its lookups return, changes a ticket or adds a row; none changes a booking, unless it is an expired event that may find a row of a PENDING booking and one of a different booking or of none |
| WebhookReruns.RerunChangesNothing | src/webhook/webhook.service.ts:191-992 | if every row a lookup could choose instead already holds what the handler writes, a re-run changes no row, payment status included, whatever its lookups return |
| WebhookReruns.RerunUnchangedIff | src/webhook/webhook.service.ts:191-992 | and only then: that condition on the tables before the first run is exact for every event |
| WebhookReruns.RefundRerunMovesPayment | src/webhook/webhook.service.ts:906-973 | after a paid checkout with its fee, a full refund may mark the commission of the charge, and its re-run the payment: the payment status differs from that after one run |
| WebhookReruns.BookingsUnchangedIff | src/webhook/webhook.service.ts:191-992 | running a handler twice leaves the bookings of one run, whatever its lookups return, iff it is not an expired event that may find a row of a PENDING booking and one of a different booking or of none |
| WebhookReruns.ExpiredRerunMovesBooking | src/webhook/webhook.service.ts:319-399 | after one checkout and a fee event, an expired event without an intent may leave the only booking PENDING and its re-run make it EXPIRED |
| WebhookReruns.PaymentsUnchangedIff | src/webhook/webhook.service.ts:191-992 | it leaves the payment statuses of one run iff no payment that could be found beside another row lacks the status the handler writes |
| WebhookReruns.CrashIsRepaired | src/webhook/webhook.service.ts:81-185 | a crash between the commit of the handler and PROCESSED, followed by a re-run, always ends with the record, tickets and row counts of one run; with its bookings, its payment statuses and all its rows exactly under the three conditions above |
| WebhookReruns.TransferRecorded | src/webhook/webhook.service.ts:724-879 | a handled transfer is on record with SUCCESS and a transfer id unless no row matched and the host is unknown; one row is added iff none matched and the host is known, never tied to a booking; other rows, bookings and tickets stay |
| WebhookReruns.FeeRecorded | src/webhook/webhook.service.ts:531-631 | a handled fee is on record with SUCCESS; one commission is added iff neither fee nor charge had one, with the amount and the booking of the payment with that charge; other rows, bookings and tickets stay |
| WebhookRuns.ProcessedOnce | src/webhook/webhook.service.ts:81-100 | a PROCESSED event's later deliveries and jobs can be struck from the run without changing its end, as long as no clean-up reaches its record |
| WebhookRuns.ForgottenIff | src/tasks/tasks.service.ts:104-109 | a PROCESSED record that is not delivered again survives a run iff no clean-up of the run reaches it; once gone it stays gone |
| WebhookEffects.FoundRow | src/webhook/webhook.service.ts:202-912 | each handler acts on a row its query describes, by session, intent, fee, transfer or charge, whenever there is one |
| WebhookEffects.CompletedWrites | src/webhook/webhook.service.ts:202-252 | the payment becomes SUCCESS with the intent of the event if it names one, its booking CONFIRMED, its ticket booked, nothing else |
| WebhookEffects.ClosedWrites | src/webhook/webhook.service.ts:319-525 | the payment becomes FAILED, or CANCELLED for a cancelled intent, its booking EXPIRED or CANCELLED only if PENDING, nothing else |
| WebhookEffects.SucceededWrites | src/webhook/webhook.service.ts:637-676 | the payment becomes SUCCESS with charge and transfer group, its booking CONFIRMED, nothing else; without a booking nothing |
| WebhookEffects.MarkedWrites | src/webhook/webhook.service.ts:531-790 | a transfer or fee on record becomes SUCCESS, a transfer getting its id if it had none |
| WebhookEffects.AddedWrites | src/webhook/webhook.service.ts:570-865 | one not on record gets one SUCCESS row with its amount and ids, a transfer only if its host is known |
| WebhookEffects.RefundedWrites | src/webhook/webhook.service.ts:906-973 | the row of the charge becomes fully or partially refunded, rows found for the refunds SUCCESS with an amount of a refund of their id, nothing else |
| WebhookEffects.JobLeaves | src/webhook/webhook.service.ts:81-185 | after a job the event is PROCESSED iff it was or the job finished, FAILED if it threw, as it was if it crashed; other records stay; a PROCESSED event changes nothing |
| WebhookEffects.OnlyFinishedProcesses | src/webhook/webhook.service.ts:81-185 | over any run an event becomes PROCESSED only through a job of it that finishes |
| WebhookEffects.ThrownIsRetried | src/webhook/webhook.service.ts:154-185 | an event whose job threw is FAILED, stays open until a job of it finishes, and that job has its full effect on the tables it meets |
| WebhookEffects.RetryConfirms | src/webhook/webhook.service.ts:154-185 | a paid checkout whose job threw before its commit is CONFIRMED with its ticket booked by the retry |
| WebhookEffects.CleanupLeaves | src/tasks/tasks.service.ts:104-109 | a clean-up deletes exactly PROCESSED records older than the cutoff; PENDING and FAILED ones stay |
| WebhookService.WebhookService.CreateCheckoutSession | src/stripe/stripe.service.ts:504-560 | a booked ticket is refused; otherwise one PENDING booking and its payment row, with the session id as both payment ids, are added after the existing ones; the invariant is kept |
| WebhookService.WebhookService.EnqueueWebhookEvent | src/webhook/webhook.service.ts:40-76 | an event is queued iff it is not PROCESSED, and recorded the first time it is seen |
| WebhookService.WebhookService.ProcessWebhookJob | src/webhook/webhook.service.ts:81-185 | a PROCESSED event is skipped; a throw before the commit leaves the tables alone and one after it keeps the writes, both recorded FAILED; otherwise PROCESSED; the invariant is kept, `isBooked` never reverts, and every booking of a checkout moves only as the event says |
| WebhookService.WebhookService.Dispatch | src/webhook/webhook.service.ts:97-144 | the handler of each event type has exactly its effect or throws having written nothing, keeps the invariant, and moves each booking of a checkout only as the event says |
| WebhookService.WebhookService.HandleCheckoutSessionCompleted | src/webhook/webhook.service.ts:191-312 | the payment gets its intent and SUCCESS, the booking CONFIRMED, the ticket booked, nothing else changes |
| WebhookService.WebhookService.CloseBooking | src/webhook/webhook.service.ts:319-525 | the payment is overwritten with the failure status in any case, the booking only if still PENDING |
| WebhookService.WebhookService.HandlePaymentIntentSucceeded | src/webhook/webhook.service.ts:637-718 | the payment gets SUCCESS, charge and transfer group and the booking CONFIRMED; a payment without a booking makes it throw with nothing written |
| WebhookService.WebhookService.HandleChargeRefunded | src/webhook/webhook.service.ts:906-992 | the refund loop settles every refund row found with its amount, then the payment becomes fully or partially refunded |
| BlogPaging.ListingExact | src/blog/blog.service.ts:395-466 | the query's answer is strictly in (publishedAt, id) order and holds exactly the visible rows after the cursor |
| BlogPaging.RequestIsPage | src/blog/blog.service.ts:411-558 | a first request and a request with a returned cursor answer with the next page; a next cursor is given iff the page is full, and names its last row |
| BlogMeaning.PageHolds | src/blog/blog.service.ts:380-558 | for any cursor and page: the error cases; else the page holds, in order, exactly the published, undeleted, matching rows beyond the cursor whose rank is in the range of the page, with next cursor and total |
| BlogPaging.TraverseInOrder | src/blog/blog.service.ts:424-538 | whatever happens to the table between requests, the rows seen are strictly in order, so none is seen twice |
| BlogPaging.TraversalUnderChange | src/blog/blog.service.ts:395-538 | under any inserts, deletes and edits between requests, a row that stays visible and unchanged is seen exactly once |
| BlogPaging.RestOfList | src/blog/blog.service.ts:424-466 | the list after a page's cursor is exactly the rest of the list |
| BlogPaging.RequestsExact | src/blog/blog.service.ts:530-538 | the number of requests used below is floor(n / limit) + 1 |
| BlogPaging.FrozenTraversal | src/blog/blog.service.ts:395-538 | on a table that does not change the pages concatenate to the whole list, and the traversal ends after exactly floor(n / limit) + 1 requests |
| Roles.RemovedExactly | src/role/role.service.ts:211-221 | removing a role takes away that role of that user and no other |
| Roles.OthersUnchanged | src/role/role.service.ts:186-229 | assigning or removing a role leaves every other user's permissions alone |
| Roles.PatternClears | src/role/role.service.ts:116-117 | after invalidating the key pattern no permission list is left to be stale |
| RoleRuns.ListAcceptedIff | src/role/role.service.ts:97-103 | the service's length comparison accepts exactly the lists of existing, distinct permissions |
| RoleRuns.GrantedAfter | src/role/role.service.ts:86-229 | who may do what after each successful mutation, in terms of the state before it: creating grants nothing, updating replaces what the role gives, deleting and removing take away one role as a reason, assigning adds one |
| RoleMeaning.DerivedExactly | src/role/role.service.ts:242-263 | a name is in the derived set iff a role of the user carries a permission of that name |
| RoleMeaning.CreateWrites | src/role/role.service.ts:86-114 | refused if the name is taken, then if the list is improper; else stored with name and permissions as given, all else as before |
| RoleMeaning.UpdateWrites | src/role/role.service.ts:123-152 | refused for an unknown role, then an improper list; else the role keeps its name and gets the list, all else as before |
| RoleMeaning.DeleteWrites | src/role/role.service.ts:161-172 | refused for an unknown role; else the role and exactly its assignments go |
| RoleMeaning.AssignWrites | src/role/role.service.ts:186-200 | refused for an unknown user, then an unknown role; else the user holds the role once, all else as before |
| RoleMeaning.RemoveWrites | src/role/role.service.ts:211-221 | refused if the user does not hold the role; else exactly that assignment goes |
| RoleMeaning.CacheAfterMutation | src/role/role.service.ts:116-225 | a successful mutation drops exactly its cache keys if Redis answers; a refused one, or Redis down, leaves the cache alone |
| RoleMeaning.GuardDemandsAll | src/common/guards/permissions.guard.ts:30-62 | the guard demands every required permission, of the live cached list or else of the roles of the user |
| RoleMeaning.CacheAfterGuard | src/common/guards/permissions.guard.ts:30-57 | what the guard read is stored for 60 seconds unless a live list is there or Redis is down |
| RoleRuns.StepKeepsConsistent | src/role/role.service.ts:86-229 | no mutation leaves an assignment or role permission pointing at a missing row |
| RoleRuns.RunKeepsExact | src/role/role.service.ts:116-225 | under any sequence of mutations and guard checks, while Redis answers, every cached list is the user's current one |
| RoleRuns.GuardAgreesWithService | src/common/guards/permissions.guard.ts:30-62 | after any such run the guard allows exactly what `hasPermissions(..., 'all')` affirms |
| RoleRuns.FailedInvalidationIsSeen | src/common/services/cache.service.ts:47-53 | one swallowed Redis error breaks it: the removed permission still opens the guard until the entry's 60 seconds are over, and not after |
| CacheStaleness.AlwaysWereExact | src/common/services/cache.service.ts:69-82 | in every interleaving, each load and each cache entry holds a list that was exact at an instant no earlier than its lifetime and the load's delay allow |
| CacheStaleness.BoundedStaleness | src/common/services/cache.service.ts:69-82 | over every interleaving of loads, role changes with or without invalidation, evictions and Redis errors, a list served at t was the user's exact list at some instant in [t - 60 s - d, t] |
| CacheStaleness.BoundIsReached | src/common/services/cache.service.ts:69-82 | the bound cannot be lowered: the run of a read, a change, its invalidation, and the late write, in which nothing fails, serves a list that old |
| CacheStaleness.CallIsInterleaving | src/common/services/cache.service.ts:25-82 | every call of the role service and the guard, with Redis up or down, is a path of those interleaved steps |
| CacheStaleness.RunIsInterleaving | src/common/services/cache.service.ts:25-82 | and so is every serial run of timed calls, with Redis failing wherever it does |
| CacheStaleness.SerialStaleness | src/common/services/cache.service.ts:69-82 | so a list cached at the end of a serial run was exact within its last 60 seconds, whatever errors were swallowed |
| AccessControl.AccessControl.InvalidatePattern | src/common/services/cache.service.ts:55-67 | exactly the keys with the prefix go; a Redis error changes nothing |
| AccessControl.AccessControl.LoadPermissions | src/common/guards/permissions.guard.ts:33-57 | the nested loops collect exactly the names of the permissions the user's roles carry; an unknown user has none |
| AccessControl.AccessControl.CanActivate | src/common/guards/permissions.guard.ts:15-63 | a route without requirements is open, an unknown caller is refused, otherwise every required permission must be in the live cached list or else in a fresh one, which is then cached for 60 s; exact caches stay exact |
| AccessControl.AccessControl.HasPermissions | src/role/role.service.ts:275-285 | 'all' and 'any' over the derived set; an unknown user is an error |
| AccessControl.AccessControl.CreateRolePermissions | src/role/role.service.ts:86-120 | changes database and cache as the run model's step, errors change nothing, exact caches stay exact |
| AccessControl.AccessControl.UpdateRolePermissions | src/role/role.service.ts:123-158 | changes database and cache as the run model's step, errors change nothing, exact caches stay exact |
| AccessControl.AccessControl.DeleteRoleById | src/role/role.service.ts:161-183 | deletes the role with its assignments and both key patterns, errors change nothing, exact caches stay exact |
| AccessControl.AccessControl.AssignRoleToUser | src/role/role.service.ts:186-208 | adds the assignment once and drops that user's two keys, errors change nothing, exact caches stay exact |
| AccessControl.AccessControl.RemoveRoleFromUser | src/role/role.service.ts:211-229 | removes the assignment and drops that user's two keys, errors change nothing, exact caches stay exact |
| DistributedLock.AcquireLock | src/common/services/distributed-lock.service.ts:18-42 | the token is returned iff some attempt finds the lock free, the first such attempt takes it, and the sleeps sum to retryDelay * (2^i - 1), at most retryDelay * (2^(attempts-1) - 1) |
| DistributedLock.WithLock | src/common/services/distributed-lock.service.ts:65-81 | the operation runs iff one of three attempts gets the lock, and its own lock is released whether it succeeds or fails; waiting is at most 300 ms |
| DistributedLock.NextKeepsInv | src/common/services/distributed-lock.service.ts:18-81 | every step of any client keeps it true that Redis holds exactly the token of each unexpired holder |
| DistributedLock.OneHolder | src/common/services/distributed-lock.service.ts:27-33 | in every reachable state at most one client holds an unexpired lock per key |
| DistributedLock.BodiesDoNotOverlap | src/common/services/distributed-lock.service.ts:65-81 | two operations under one key run at once only when one of the two has outlived its TTL, whatever happens under other keys |
| DistributedLock.ReleaseSparesOthers | src/common/services/distributed-lock.service.ts:44-63 | a release, even long after its own expiry, leaves every other client's unexpired lock held |
| DistributedLock.ReleasedIffUnexpired | src/common/services/distributed-lock.service.ts:44-63 | `releaseLock` answers true iff the caller's own lock had not expired |
| DistributedLock.AttemptLeaves | src/common/services/distributed-lock.service.ts:27-33 | an attempt fails only against a live entry, else stores its token until its TTL is over |
| DistributedLock.ReleaseLeaves | src/common/services/distributed-lock.service.ts:44-63 | a release within the TTL removes exactly the entry of the caller and frees the key; a later one removes nothing |
| DistributedLock.FreeAgain | src/common/services/distributed-lock.service.ts:27 | whatever crashes, a key is free again once the longest TTL has passed |
| DistributedLock.OverrunOverlaps | src/common/services/distributed-lock.service.ts:65-81 | one millisecond past its TTL an operation can run beside the next holder's; its late release still spares that holder |
| DistributedLock.LockServer.TrySet | src/common/services/distributed-lock.service.ts:28 | SET NX PX: succeeds iff the key is absent or expired, and then holds the token until its TTL |
| DistributedLock.LockServer.ReleaseLock | src/common/services/distributed-lock.service.ts:44-63 | deletes iff the unexpired token is the caller's; every key with another token stays |
| Payout.StepBalances | src/booking/booking.service.ts:1073-1164 | one call changes sent minus recorded cents by exactly what it failed to reverse |
| Payout.FailureChangesNothing | src/booking/booking.service.ts:1150-1164 | a failed call that strands no money leaves the database and every booking's net cents unchanged |
| Payout.SuccessMeans | src/booking/booking.service.ts:1087-1149 | success delivers the booking, sends and records the seller amount in cents, credits the fee if it never was, and touches no other booking |
| PayoutMeaning.SuccessNeedsCode | src/booking/booking.service.ts:1058-1066 | a call succeeds only with a code row of the buyer that has exactly the given code and has not expired |
| PayoutMeaning.WrongCodeRefused | src/booking/booking.service.ts:1058-1066 | if no unexpired row of the buyer has the code, any call fails and changes nothing |
| PayoutMeaning.WrongCodesNeverPay | src/booking/booking.service.ts:1058-1164 | over any run in which only such codes are tried for a booking nothing is sent or recorded for it |
| PayoutMeaning.AnswerIs | src/booking/booking.service.ts:1055-1164 | which error the first failing check gives, from the tables, and success with whether a payout was made |
| PayoutMeaning.SuccessWrites | src/booking/booking.service.ts:1087-1149 | every row a success writes: status, payout to the seller with the id of the transfer, credit of the fee if there was none, transfer to the account of the seller; the codes of the buyer go; all else stays |
| PayoutMeaning.FailureWrites | src/booking/booking.service.ts:1082-1164 | a failure writes no row; only a failed commit leaves its transfer, reversed in full or not at all |
| PayoutMeaning.CentsNearest | src/stripe/stripe.service.ts:1907-1910 | amounts are sent as the nearest whole cent, halves up |
| Payout.CodeIsSpent | src/booking/booking.service.ts:1124-1127 | after success the next call without a new code fails with "OTP not found" and changes nothing |
| Payout.MoneyOverRuns | src/booking/booking.service.ts:1073-1164 | over any run of calls with any failures, net cents sent equal the cents of the payout rows plus the reversals that failed |
| Payout.SentIsRecordedIff | src/booking/booking.service.ts:1073-1164 | sent and recorded agree iff no call of the run failed both to commit and to reverse |
| Payout.OneCreditPerBooking | src/booking/booking.service.ts:1102-1122 | over any run AdminBalance holds at most one CREDIT row per booking, and never loses one |
| Payout.RowsAreTransfers | src/booking/booking.service.ts:1129-1148 | over any run each payout row stands for one transfer of its own, to the same booking, of the same cents and not reversed |
| Payout.NoCodeNoMoney | src/booking/booking.service.ts:1058-1164 | over any run in which nothing outside gives the buyer a code or the booking another buyer, nothing is sent or recorded for a booking whose buyer has no code |
| Payout.PaidOncePerCode | src/booking/booking.service.ts:1058-1164 | after a successful call no more is sent for the booking, over any run, until something outside gives its buyer a new code |
| Payout.PayableIff | src/booking/booking.service.ts:1023-1164 | some call can move money for a booking, first or again, iff it exists, its buyer has a code, its seller an account and its payment a seller amount of at least a cent |
| Payout.FreshCodePaysAgain | src/booking/booking.service.ts:1073-1148 | a new code for the same booking sends the amount a second time, with still one credit |
| Payout.PayoutService.VerifyBookingCode | src/booking/booking.service.ts:1023-1215 | the checks in their order, the transfer, the database transaction and the reversal have exactly the answer and effect of the run model's step |
| RateLimiter.RateLimiter.CheckRateLimit | src/stripe/stripe.controller.ts:196-218 | admits iff the key's window is absent, over or not full; updates that window and no other key's |
| RateLimiter.PerWindowExactly | src/stripe/stripe.controller.ts:204-218 | per stored window exactly min(calls, max(1, limit)) calls are admitted |
| RateLimiter.KeysAreIndependent | src/stripe/stripe.controller.ts:185-218 | a key's admissions in a trace of all keys are those of its own calls alone |
| RateLimiter.IntervalBound | src/stripe/stripe.controller.ts:196-218 | for one key, any closed interval as long as the window sees at most 2 * max(1, limit) - 1 admitted calls |
| RateLimiter.AtMostTwice | src/stripe/stripe.controller.ts:196-218 | the same bound over whole traces of every key with a clock that does not run backwards |
| RateLimiter.BoundIsReached | src/stripe/stripe.controller.ts:196-218 | a trace that gets 2 * limit - 1 calls through in one such interval |

## Left out

- Recurrence.ExpandWindowUTC: `interval` is an integer; ECMA-262's limits on dates and the reading of years 0 to 99 by `Date.UTC` are not modelled.
- PointsService.PointsService.AwardPoints: `expiresAt` is an input, because the calendar month arithmetic of `addMonths` is not modelled; rule and tier lookups are inputs too.
- PointRules.RoundingLoss: multipliers are exact rationals; binary floating point, and multiplier entries that are not numbers, are not modelled.
- LedgerRuns.LedgerOverRuns: operations are atomic and serial. `redeemPoints` reads the balance outside its transaction and `expireJob` its batches, so two clients interleaving inside one operation are not covered.
- LedgerExpiry.SweepLength: `take` with a negative limit, which turns Prisma's query round, is not modelled.
- WebhookRuns.WebhookConfluence: jobs run one at a time; sessions have distinct intents and ids keep their prefixes; bookings and `isBooked` change only through these steps. The status of the payment row depends on event order and nothing is claimed about it.
- WebhookReruns.CrashIsRepaired: timestamps, metadata, notifications and the points awarded on completion are not part of the rows.
- WebhookService.WebhookService.ProcessWebhookJob: a handler's several writes are one atomic step; retries and backoff of the queue are left to the sequence of jobs.
- BlogPaging.FrozenTraversal: `publishedAt` is set on published blogs and `limit >= 1`; base64, JSON and the database's collation of ids are not modelled.
- CacheStaleness.BoundedStaleness: a load's database read is one instant, and all writers of roles share one clock with Redis.
- AccessControl.AccessControl.CreateRolePermissions: role names are taken as already upper-cased, and a new role's id is an input.
- AccessControl.AccessControl.CanActivate: a call completes before the next one starts; interleavings are the subject of `CacheStaleness`.
- DistributedLock.AcquireLock: an error thrown by Redis itself ends the call in the source and is not modelled.
- Payout.MoneyOverRuns: payout rows and credits are those of this operation; the transfer webhook and withdrawals, which also write payout rows, are not part of its runs. One call at a time.
- Payout.PayoutService.VerifyBookingCode: notifications and emails are not modelled; the latest payment row and the code row found are inputs or stored facts.
- Role checks by role name (`hasRoles`, the roles guard) repeat the permission checks with another set.
- Withdrawals, `processHostPayout`, `createTransaction`, `createPaymentIntent`, the second webhook endpoint of the Stripe service, and the setters of arbitrary statuses.
- Controllers, request validation, search filters, templates, reports, and the libraries behind Stripe, Prisma, Redis and the queue.
