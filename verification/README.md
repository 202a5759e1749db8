# StockPilot: a verified model

StockPilot is a multi-tenant inventory and order system. This project models the parts of it where several
pieces of state must stay in step: the stock ledger under concurrent transactions, commands and webhooks that
must happen exactly once, limiters with bounded memory, text and number formats, team seats, product images
and imports. Everything is proved for all inputs, all runs or all interleavings. `dafny verify dfyconfig.toml`
checks it.

Three shapes recur.

- A component that updates state step by step is a class whose methods follow the source statement by
  statement. Each is proved equal to a specification function on values, and the properties are proved about
  that function.
- A protocol is a state machine: `Do` takes one step, `Run` a list of steps, and a step that is not possible
  changes nothing. So a theorem about `Run` for all lists of steps speaks of every interleaving.
- Where a property holds only under a condition, the condition is exact: an if-and-only-if, or the theorem
  together with a run that breaks it.

## The modules

- `Projection`, `StockLedger`, `StockInvariants`, `StockLaws`, `StockAlone`, `StockService`: receipts, adjustments, orders
  and reconciliation on balances, orders, movements and alerts, one transaction at a time. The invariant
  `Consistent` ties the tables together: balances in range, reserved stock equal to the lines of CONFIRMED
  orders, movements adding up to the stock on hand with right running totals, SALE movements matching
  FULFILLED orders, one alert per product at most. `StockLaws` says, in the quantities of the lines alone, what
  each command does and when it is accepted.
- `StockConcurrency`, `StockDeadlock`, `StockAlerts`, `StockReconciliation`: the same transactions as
  processes that take row locks one by one, read under them, buffer their writes, and commit or abort.
- `Idempotency`, `Canonical`, `CommandIntent`, `ExactlyOnce`: the server's records, the canonical form behind
  their fingerprints, the browser's pending intent, and the protocol of the two over a bad network with
  clocks.
- `Deliveries`, `DeliveryRuns`, `RecoveryScan`: webhook deliveries with savepoints, queued and manual retries,
  and the paging scan that finds failed ones.
- `BoundedMap`, `RateLimiter`, `AuthThrottle`, `SignInAttempts`: the two limiters against specifications that
  remember everything, and exact bounds on what they let through.
- `Csv`, `JsText`, `Bits`, `Cidr`, `AddressText`, `ClientAddress`, `Money`, `OrderDrafts`: the scanner and the
  writer of CSV, addresses and ranges down to the bit operations, the walk over forwarded hops, floating-point order totals.
- `Team`, `ProductImages`, `ProductImport`: seats and owners, images in outside storage, imports.

## What the model shows about the code

- Every transaction reads a reorder point before it waits for the balance row, order transitions and
  reconciliations in the very statement that waits. If the point is edited in between, the alert it leaves can
  be wrong for the new point until the next reconciliation (`CommitAlertRightForCurrentPointIff`,
  `StalePointMissesAlert`).
- At most one commit of an intent needs clock skew plus request delay of at most one hour and one millisecond,
  no more and no less (`AtMostOneCommitIff`).
- Dropping an intent on an error is safe exactly when the network never delivers one request twice
  (`DropIsSafeIff`): a guard can refuse the second copy after the first has committed.
- The rate limiter stores a new key and lets its first call through even with limits of zero, so its bounds
  are `max(1, maxBuckets)` and `2 * max(1, maxWrites)`.
- A login checks the throttle, awaits the password hash and only then records its failure, so attempts in flight
  together all pass. With at most `c` in flight, and a block at least as long as the window, a window holds up to
  `max(limit, c) + c - 1` failures of a pair, a bound that is reached (`MostIsExact`); so the limit itself holds exactly for one attempt at a time
  (`LimitHoldsIffOneAtATime`).
- A proxy entry that ends in a bare slash, such as `10.0.0.0/`, has prefix length zero and trusts every IPv4
  address (`BareSlashContainsIpv4`).
- What a client puts before its header, glued to it or followed by a comma, is harmless exactly when a hop that
  it cannot touch is untrusted (`GluingIsHarmlessIff`, `PrependingIsHarmlessIff`).
- Whoever is told of an order by a webhook or a retry, also by a stored answer, is told of the one order the
  delivery has and keeps (`AnswersStayTrue`).
- The CSV writer does not quote a carriage return, so a cell that holds one comes back as two rows
  (`CarriageReturnSplitsRow`); `RoundTrip` says exactly which grids survive.
- The subtotal equals the sum of the line totals to the cent for every order whose subtotal fits its column,
  so the column's ten digits are the bound (`StoredMoneyIsExact`).
- If the database commits an image update but reports a failure, the clean-up deletes the asset the row now
  points to (`LostCommitDangles`); without such reports no run leaves a row dangling (`NeverDanglesIff`).
- Two commits of one import with different keys are kept apart only by the unique SKU index, which does nothing
  for an import without valid rows (`AddedAtMostOnceIff`).

## Model

| member | source | states |
|---|---|---|
| Projection.ProjectInventory | apps/api/src/inventory/inventory-projection.ts:24-44 | accepts exactly the results in range (safe integers, 0 <= reserved <= onHand), changed by the two deltas and nothing else |
| Projection.RefusalReason | apps/api/src/inventory/inventory-projection.ts:29-41 | which of the three refusals is given: an inexact sum first, then negative stock, then a reservation out of range |
| Projection.DecisionsAgreeIffAlertWasRight | apps/api/src/inventory/inventory-projection.ts:46-73 | the crossing rule and the state-based rule decide alike exactly when the alert was right before |
| StockInvariants.ActionsKeepStock | apps/api/src/inventory/receipt-command.service.ts:54-97 | a list of stock changes keeps balances in range and the ledger adding up, and moves on-hand, reserved and sale totals by exactly what it says |
| StockInvariants.SortKeepsLines | apps/api/src/orders/order-transition.service.ts:37-39 | working in product order keeps the set of lines and their totals |
| StockInvariants.ExecuteKeepsConsistent | apps/api/src/orders/order-transition.service.ts:19-175 | every command that succeeds keeps reservations equal to CONFIRMED lines, movements summing to the stock on hand with right running totals, and SALE totals matching FULFILLED orders |
| StockInvariants.ConfirmedLinesAreCovered | apps/api/src/orders/order-transition.service.ts:69-148 | shipping or releasing a line of a CONFIRMED order never reaches the InventoryInvariantError branch |
| StockInvariants.ActionsSetAlerts | apps/api/src/inventory/inventory-reconciliation.service.ts:43-85 | after a command each touched product has an open alert exactly when its stock is at or below the point read |
| StockLaws.ReceiptLaw | apps/api/src/inventory/receipt-command.service.ts:54-97 | an accepted receipt adds exactly the quantities of its lines to the stock on hand, with one RECEIPT movement for each line |
| StockLaws.ReceiptAcceptedIff | apps/api/src/inventory/receipt-command.service.ts:38-84 | a receipt is accepted exactly when its products exist and no stock outgrows the safe integers |
| StockLaws.AdjustmentLaw | apps/api/src/inventory/adjustment-command.service.ts:39-82 | an accepted adjustment moves one product by its quantity, inwards or outwards, with one movement of that amount |
| StockLaws.AdjustmentAcceptedIff | apps/api/src/inventory/adjustment-command.service.ts:22-58 | an adjustment is accepted exactly when the product exists and its stock stays between what is reserved and the safe integers |
| StockLaws.ConfirmAcceptedIff | apps/api/src/orders/order-transition.service.ts:40-67 | a draft is confirmed exactly when every line has a balance with at least its quantity available; otherwise the uncovered line of the least product says why |
| StockLaws.TransitionAllowedIff | apps/api/src/orders/order-state-machine.ts:3-12 | a draft can always be cancelled, a CONFIRMED order always cancelled or fulfilled, and FULFILLED and CANCELLED orders never change |
| StockLaws.TransitionLaw | apps/api/src/orders/order-transition.service.ts:40-175 | confirming promises exactly the lines, cancelling gives them back, fulfilling sells them with one SALE each; the order takes its status and keeps its lines |
| StockLaws.DraftLaw | apps/api/src/orders/orders.service.ts:30-119 | drafting and editing need products that exist, and a draft to edit, and change the one order only |
| StockAlone.OnlyPointsReadMatter | apps/api/src/inventory/receipt-command.service.ts:92-97 | the outcome depends on reorder points only through those read for the lines |
| StockAlone.RefusalIsFinal | apps/api/src/inventory/receipt-command.service.ts:54-71 | one refused line refuses the whole command |
| StockService.StockTables.LockInventoryBalance | apps/api/src/inventory/inventory-locks.ts:11-51 | a missing balance starts at zero; nothing else changes |
| StockService.StockTables.ReconcileBalance | apps/api/src/inventory/inventory-reconciliation.service.ts:43-85 | opens or resolves the one alert of the product by the state-based rule |
| StockService.StockTables.ReceiveLine | apps/api/src/inventory/receipt-command.service.ts:57-97 | one receipt line: balance, movement and alert together, or a refusal |
| StockService.StockTables.ReserveLine | apps/api/src/orders/order-transition.service.ts:41-67 | reserves when enough is available, refuses otherwise |
| StockService.StockTables.ShipLine | apps/api/src/orders/order-transition.service.ts:70-117 | takes the line out of stock and reservations with one SALE movement |
| StockService.StockTables.ReleaseLine | apps/api/src/orders/order-transition.service.ts:120-147 | gives the reservation back |
| StockService.StockTables.ApplyReceipt | apps/api/src/inventory/receipt-command.service.ts:11-97 | the loop does what the specified command does, or leaves every table as it was |
| StockService.StockTables.Adjust | apps/api/src/inventory/adjustment-command.service.ts:15-82 | the same for an adjustment, which cannot go below the reservations |
| StockService.StockTables.TransitionOrder | apps/api/src/orders/order-transition.service.ts:19-175 | the same for confirm, fulfil and cancel, each allowed only from its statuses |
| StockService.StockTables.UpdateDraft | apps/api/src/orders/orders.service.ts:69-119 | the same for replacing the lines of an order, allowed only while it is a draft |
| StockService.StockTables.ReconcileOrganization | apps/api/src/inventory/inventory-reconciliation.service.ts:87-128 | one pass in product order with the counts it reports |
| StockConcurrency.CommitIsSerial | apps/api/src/orders/order-transition.service.ts:27-175 | what a commit publishes is what the command alone would do to the tables of that moment |
| StockConcurrency.AlwaysConsistent | apps/api/src/orders/order-transition.service.ts:40-148 | in every reachable state of every interleaving the tables are consistent |
| StockConcurrency.ShipAndReleaseNeverRefused | apps/api/src/orders/order-transition.service.ts:69-148 | in every interleaving, fulfilling or cancelling a CONFIRMED order is never refused for stock |
| StockConcurrency.RunIsSerial | apps/api/src/orders/orders.service.ts:73-82 | every interleaving ends with the tables its committed commands give one at a time in commit order |
| StockConcurrency.RefusalIsSerial | apps/api/src/orders/order-transition.service.ts:41-56 | in every interleaving, a transaction refused for stock would be refused alike if it ran alone at that moment |
| StockConcurrency.ReadsAreReal | apps/api/src/inventory/inventory-reconciliation.service.ts:94-108 | every reorder point a transaction decides with was the product's own at some moment of the run, and a reconciliation goes through every balance there was when it began |
| StockConcurrency.CommitSetsAlerts | apps/api/src/inventory/inventory-reconciliation.service.ts:43-85 | at commit each product worked on has an open alert exactly when stock is at or below the point read |
| StockDeadlock.NextLocksAscend | apps/api/src/inventory/receipt-command.service.ts:54-64 | whoever is waited for waits only for later locks |
| StockDeadlock.NoCircularWait | apps/api/src/orders/order-transition.service.ts:27-47 | no reachable state holds a circular wait of any length, over idempotency, order and balance locks |
| StockDeadlock.SomebodyCanMove | apps/api/src/inventory/inventory-reconciliation.service.ts:94-108 | while a transaction is unfinished, some transaction can take a step that brings it nearer to its end |
| StockDeadlock.AllCanFinish | apps/api/src/orders/order-transition.service.ts:27-47 | from every reachable state all transactions can be brought to their ends by their own steps, none of them given up |
| StockAlerts.CommitAlertRightForCurrentPointIff | apps/api/src/inventory/adjustment-command.service.ts:22-37 | exactly when the alert a commit leaves is right for the reorder point of that moment |
| StockAlerts.StalePointMissesAlert | apps/api/src/inventory/adjustment-command.service.ts:22-37 | a run of an adjustment in which an edited point leaves low stock without an alert |
| StockAlerts.CommitCountsItsChange | apps/api/src/inventory/inventory-reconciliation.service.ts:109-125 | in every interleaving, the alerts a commit opens less those it resolves, as counted while it worked, are the change it makes |
| StockAlerts.InterleavedReconcile | apps/api/src/inventory/inventory-reconciliation.service.ts:87-128 | a reconciliation beside other transactions and edited points changes alerts only, and leaves every row it scanned right for the point it read |
| StockReconciliation.ScanReconciles | apps/api/src/inventory/inventory-reconciliation.service.ts:114-124 | a pass changes the alerts of the rows it scans and nothing else |
| StockReconciliation.ReconcileRepairs | apps/api/src/inventory/inventory-reconciliation.service.ts:87-128 | however wrong the alerts were, one pass run alone makes every one right |
| StockReconciliation.CountsBalance | apps/api/src/inventory/inventory-reconciliation.service.ts:109-124 | opened minus resolved is the change in the number of open alerts |
| StockReconciliation.ReconcileReportsItsChange | apps/api/src/inventory/inventory-reconciliation.service.ts:87-128 | what a pass run alone reports is what it changed, and an immediate second pass reports and changes nothing |
| Idempotency.IdempotencyRecords.ExecuteIdempotent | apps/api/src/idempotency/idempotency.ts:28-89 | a live record answers or refuses, otherwise the work is done once and recorded for 24 hours; a failure rolls everything back |
| Idempotency.ExecutionLaw | apps/api/src/idempotency/idempotency.ts:28-89 | for every request: replay, refusal, failure or work done, decided by the record and its 24 hours; the record written, and the live records of other keys untouched |
| Canonical.CanonIsExact | apps/api/src/idempotency/idempotency.ts:91-107 | two payloads have the same canonical form exactly when they differ only in key order, undefined entries and dates against their text, at any depth |
| Canonical.CanonIsSame | apps/api/src/idempotency/idempotency.ts:91-107 | the canonical form is itself one of the payloads it stands for |
| Canonical.CanonIsIdempotent | apps/api/src/idempotency/idempotency.ts:91-107 | canonicalising twice changes nothing |
| Canonical.RepeatIsRecognised | apps/api/src/idempotency/idempotency.ts:55-70 | while a record lives, a later request of its key is replayed exactly when its payload is the same up to what the canonical form forgets, and refused otherwise |
| CommandIntent.CommandMutation.constructor | apps/web/hooks/use-command-mutation.ts:38-72 | a page load restores a saved intent with its outcome unknown |
| CommandIntent.CommandMutation.Mutate | apps/web/hooks/use-command-mutation.ts:126-141 | what a submission sends and keeps: the pending intent if there is one, a fresh one otherwise, nothing when in flight or expired |
| CommandIntent.CommandMutation.OnError | apps/web/hooks/use-command-mutation.ts:98-110 | an error keeps the intent unless its outcome is known |
| CommandIntent.CommandMutation.OnSuccess | apps/web/hooks/use-command-mutation.ts:111-118 | a success settles the intent |
| CommandIntent.CommandMutation.ResolveExpired | apps/web/hooks/use-command-mutation.ts:87-95 | only an expired intent can be given up |
| CommandIntent.SubmissionLaw | apps/web/hooks/use-command-mutation.ts:126-141 | what is submitted is the pending intent if there is one and otherwise the value under a fresh key, unless a request is in flight or the intent is 23 hours old |
| CommandIntent.ErrorLaw | apps/web/hooks/use-command-mutation.ts:98-110 | an intent survives an error, in memory and storage, exactly when there was no answer, a status of 500 or more, or an earlier unknown outcome |
| CommandIntent.ResubmissionLaw | apps/web/hooks/use-command-mutation.ts:98-141 | the submission after such an error repeats the request, also after a reload; after any other error it is a new one |
| CommandIntent.SuccessLaw | apps/web/hooks/use-command-mutation.ts:111-118 | after a success the next submission is a new request, also after a reload |
| CommandIntent.GiveUpLaw | apps/web/hooks/use-command-mutation.ts:87-95 | only an intent past its 23 hours can be given up, and then it is forgotten |
| CommandIntent.RestoreLaw | apps/web/hooks/use-command-mutation.ts:38-72 | a page load takes up the stored intent, its outcome unknown and its age judged by the clock; without persistence it starts empty |
| ExactlyOnce.CommittedKeyIsLive | apps/web/hooks/use-command-mutation.ts:10-17 | within the window, every request of a committed key starts while its record lives |
| ExactlyOnce.AtMostOneCommit | apps/api/src/idempotency/idempotency.ts:28-89 | over every run with lost, delayed, repeated messages, server errors after the work was done, and reloads, each key commits at most once and every success shown is that commit's body |
| ExactlyOnce.AtMostOneCommitIff | apps/web/hooks/use-command-mutation.ts:10-17 | that holds in all runs exactly when skew plus delay is at most one hour and a millisecond |
| ExactlyOnce.LateResendCommitsTwice | apps/web/hooks/use-command-mutation.ts:10-17 | beyond the window, a late resend commits a second time |
| ExactlyOnce.DroppedOnErrorNeverCommits | apps/web/hooks/use-command-mutation.ts:98-110 | without repeated delivery, an intent dropped on an error never commits, before or after, although a server error may follow a commit |
| ExactlyOnce.RepeatedDeliveryDropsCommitted | apps/web/hooks/use-command-mutation.ts:98-110 | with repeated delivery an intent whose work was committed can be dropped |
| ExactlyOnce.DropIsSafeIff | apps/web/hooks/use-command-mutation.ts:98-110 | dropping on errors is safe in all runs exactly when no request is delivered twice |
| Deliveries.DeliveryTables.CreateStorefrontDraftOrder | apps/api/src/integrations/storefront-order-draft.ts:7-107 | customer, priced order, lines, transition and audit row, or a failure at any one statement |
| Deliveries.DeliveryTables.Attempt | apps/api/src/integrations/integration-delivery.service.ts:56-102 | savepoint, order, link and the audit row of a retry, or a rollback to the savepoint whichever of them fails |
| Deliveries.DeliveryTables.RetryDelivery | apps/api/src/integrations/integration-delivery.service.ts:13-103 | succeeded deliveries and those at the limit are left alone, others are attempted once more, with the answer of each |
| Deliveries.DeliveryTables.ProcessExternalDelivery | apps/api/src/integrations/integration-delivery.service.ts:105-190 | a webhook under its idempotency key: replayed, refused, duplicate or attempted, with the answer of each |
| DeliveryRuns.AtMostOneOrder | apps/api/src/integrations/integration-delivery.service.ts:121-145 | in every run of arrivals, queue retries and manual retries, with products and customers edited between them, at most one order for each delivery id |
| DeliveryRuns.SucceededIffOrdered | apps/api/src/integrations/integration-delivery.service.ts:58-102 | a delivery is SUCCEEDED exactly when it carries an order, and that order has exactly its items and adds up |
| DeliveryRuns.NothingIsLeftOver | apps/api/src/integrations/integration-delivery.service.ts:87-96 | in every run each line, transition, audit row, order and new customer belongs to a succeeded delivery, whichever statements of the others failed |
| DeliveryRuns.EveryAttemptCounts | apps/api/src/integrations/integration-delivery.service.ts:48-55 | in every run the attempt count is the number of attempts made, those rolled back included |
| DeliveryRuns.AnswersStayTrue | apps/api/src/integrations/integration-delivery.service.ts:186-189 | an order named by any answer, replayed ones included, is the delivery's for the rest of the run |
| DeliveryRuns.OrderLaw | apps/api/src/integrations/storefront-order-draft.ts:31-88 | a new order is for the first active customer with the payload's e-mail, or for one new customer if there is none, and holds the payload's items at the prices of that moment; its creation is audited, and after it the retry that made it |
| DeliveryRuns.AcceptanceLaw | apps/api/src/integrations/storefront-order-draft.ts:17-30 | an attempt succeeds exactly when its products are distinct and for sale and no statement fails; without an attempt nothing changes |
| DeliveryRuns.ArrivalReply | apps/api/src/integrations/integration-delivery.service.ts:112-190 | an arrival is refused, repeated or answered with the delivery as it is now, and is a duplicate exactly when the delivery was known |
| DeliveryRuns.RetryReplies | apps/api/src/integrations/integration-delivery.service.ts:28-102 | a retry is answered with the delivery as it is now, as a duplicate exactly when it had succeeded |
| DeliveryRuns.SucceededIsFinal | apps/api/src/integrations/integration-delivery.service.ts:32-38 | a delivery that succeeded never changes again |
| DeliveryRuns.AutomaticAttemptsAreCapped | apps/api/src/integrations/integration-retry.service.ts:9-30 | attempts never decrease, and exceed seven only by manual retries |
| RecoveryScan.SelectPage | apps/api/src/integrations/integration-retry.service.ts:52-66 | the first hundred failed deliveries above the cursor, in order |
| RecoveryScan.RecoverFailedDeliveries | apps/api/src/integrations/integration-retry.service.ts:50-79 | the paging loop ends, and every delivery eligible throughout is visited, in order; those without a pending job are enqueued |
| RecoveryScan.RecoverableSince | apps/api/src/integrations/integration-retry.service.ts:57-62 | a delivery still recoverable now was recoverable at every earlier moment |
| RecoveryScan.RecoveryMissesNothing | apps/api/src/integrations/integration-retry.service.ts:47-81 | whatever changes between pages, a delivery that existed and is still recoverable was visited exactly once |
| BoundedMap.EvictedSpec | apps/api/src/auth/rate-limiter.ts:129-142 | eviction removes one entry and leaves the others as they were |
| BoundedMap.StoredKeepsLive | apps/api/src/auth/rate-limiter.ts:103-117 | storing a key loses a live entry of another key only by evicting it |
| RateLimiter.FixedWindowRateLimiter.Consume | apps/api/src/auth/rate-limiter.ts:74-93 | the new state and the answer of one call |
| RateLimiter.FixedWindowRateLimiter.SweepExpired | apps/api/src/auth/rate-limiter.ts:119-127 | the deleting loop removes exactly the expired buckets |
| RateLimiter.FixedWindowRateLimiter.EvictOldestWindow | apps/api/src/auth/rate-limiter.ts:129-142 | the search loop removes the first bucket that resets soonest |
| RateLimiter.ConsumedValid | apps/api/src/auth/rate-limiter.ts:103-117 | the map never holds more than max(1, maxBuckets) buckets |
| RateLimiter.AnswersAsUnbounded | apps/api/src/auth/rate-limiter.ts:74-142 | a call of a key never evicted is answered as by a limiter that forgets nothing |
| RateLimiter.AtMostTwoWindows | apps/api/src/auth/rate-limiter.ts:74-93 | for a key never evicted, any stretch of the window's length lets at most 2 * max(1, maxWrites) calls through |
| RateLimiter.DeniedOnlyWhenFull | apps/api/src/auth/rate-limiter.ts:84-88 | a call is denied only when a whole window's worth of calls passed less than a window ago, and is told a wait within the window |
| RateLimiter.CountersLaw | apps/api/src/auth/rate-limiter.ts:84-101 | denials are counted, at most max(1, maxBuckets) buckets are held, and after every sweepInterval calls none whose window is over |
| RateLimiter.RetryAfterIsExact | apps/api/src/auth/rate-limiter.ts:84-88 | the wait a denied call is told is exact: no later call of its key passes before it is over, and the first one after it does |
| AuthThrottle.AuthThrottleService.CheckAttempt | apps/api/src/auth/auth-throttle.service.ts:64-78 | an attempt is refused exactly while its pair is blocked, and an ended block is lifted |
| AuthThrottle.AuthThrottleService.RecordFailure | apps/api/src/auth/auth-throttle.service.ts:81-97 | the new state once a failure is counted, a block armed and the map swept |
| AuthThrottle.AuthThrottleService.ClearFailures | apps/api/src/auth/auth-throttle.service.ts:100-102 | forgets one pair and nothing else |
| AuthThrottle.AuthThrottleService.SweepExpired | apps/api/src/auth/auth-throttle.service.ts:131-142 | the loop removes exactly the entries with no live failure and no active block |
| AuthThrottle.AuthThrottleService.EvictOldest | apps/api/src/auth/auth-throttle.service.ts:145-161 | the loop removes the first entry whose last activity is oldest |
| AuthThrottle.NextValid | apps/api/src/auth/auth-throttle.service.ts:108-120 | never more than 10,000 pairs are tracked |
| AuthThrottle.AnswersAsHistory | apps/api/src/auth/auth-throttle.service.ts:64-142 | a check of a pair never evicted is answered by that pair's own history: sweeping is invisible |
| AuthThrottle.FailuresPerWindow | apps/api/src/auth/auth-throttle.service.ts:64-97 | with one attempt of a pair in flight at a time and none succeeding, k >= limit failures within a window give (k - limit) * blockMs < windowMs, so at most limit when the block is as long as the window |
| AuthThrottle.BlockedOnlyAfterLimit | apps/api/src/auth/auth-throttle.service.ts:81-97 | a pair is blocked only when limit failures fell within one window, and for blockMs after the last of them |
| AuthThrottle.ActivityIsLatest | apps/api/src/auth/auth-throttle.service.ts:149-153 | eviction goes by the latest of an entry's failures and the end of its block |
| AuthThrottle.SweepLaw | apps/api/src/auth/auth-throttle.service.ts:122-142 | every 256th recorded failure leaves only entries with a live failure or an active block, and never more than 10,000 |
| SignInAttempts.InFlightPerWindow | apps/api/src/auth/auth.service.ts:69-93 | with at most c attempts of a pair in flight, no window holds more than max(limit, c) + c - 1 of its failures, when the block is at least as long as the window |
| SignInAttempts.MostIsExact | apps/api/src/auth/auth.service.ts:69-93 | a number bounds the failures of every window in every such run exactly when it is at least that |
| SignInAttempts.LimitHoldsIffOneAtATime | apps/api/src/auth/auth-throttle.service.ts:17-24 | the limit itself does exactly when attempts come one at a time |
| Csv.ParseCsv | apps/api/src/imports/product-csv-parser.ts:86-125 | the loop with its skipped quotes is the recursive scan |
| Csv.ParsedWrite | apps/api/src/imports/product-csv-serializer.ts:6-9 | without carriage returns and a leading byte-order mark, what any written grid reads back as |
| Csv.ParsedHasNoReturns | apps/api/src/imports/product-csv-parser.ts:87-87 | no scanned cell holds a carriage return |
| Csv.LineEndings | apps/api/src/imports/product-csv-parser.ts:87-87 | a return and feed become one line feed, and so does a return alone |
| Csv.OpenQuoteFails | apps/api/src/imports/product-csv-parser.ts:117-119 | a quote opened after any rows and never closed makes the file unreadable |
| Csv.QuoteInsideCell | apps/api/src/imports/product-csv-parser.ts:103-116 | a quote inside a cell that did not start with one is an ordinary character |
| Csv.RoundTrip | apps/api/src/imports/product-csv-parser.ts:86-125 | a grid survives writing and scanning (section 2 of RFC 4180) exactly when no cell holds a carriage return, the text does not start with a byte-order mark, no row is empty, and the last row is not one empty cell |
| Csv.CarriageReturnSplitsRow | apps/api/src/imports/product-csv-serializer.ts:6-9 | an unquoted carriage return turns one cell into two rows |
| Csv.ExportRoundTrip | apps/api/src/imports/product-csv-serializer.ts:46-69 | an export scans back to its headings and one row for each product exactly when no field holds a carriage return |
| Bits.AndMask | apps/api/src/auth/cidr.ts:96-98 | masking with the bits from k up to n, on integers of any size |
| Bits.OrLow | apps/api/src/auth/cidr.ts:27-27 | setting clear low bits adds them |
| Cidr.ParseIpv4 | apps/api/src/auth/cidr.ts:19-30 | the shift-and-or loop that wraps at 32 bits gives the value of the four octets, most significant first |
| Cidr.ParseIpv6 | apps/api/src/auth/cidr.ts:32-66 | the loop gives the value of the eight groups after expansion, or of the mapped dotted tail |
| Cidr.ParseCidrs | apps/api/src/auth/cidr.ts:108-135 | one matcher for each entry that parses, in order, the others skipped |
| Cidr.ListLaw | apps/api/src/auth/cidr.ts:108-135 | the matchers of a list are those of its entries between commas, in order; no list and the empty list have none |
| Cidr.EntryText | apps/api/src/auth/cidr.ts:113-123 | an address, a slash and digits are read as that address and that prefix length, which is zero without digits |
| Cidr.SkippedEntry | apps/api/src/auth/cidr.ts:114-123 | an entry without an address, or whose prefix length is not a number from zero up, yields no matcher |
| Cidr.SpaceAround | apps/api/src/auth/cidr.ts:112-112 | space around an entry does not change its matcher |
| Cidr.SingleAddress | apps/api/src/auth/cidr.ts:116-133 | an entry without a slash is a matcher exactly when it is an address, and contains exactly the spellings of that address |
| Cidr.BareSlashContainsIpv4 | apps/api/src/auth/cidr.ts:116-133 | the matcher of an IPv4 address and a bare slash contains exactly the spellings of IPv4 addresses |
| Cidr.Ipv4RangeIsBlock | apps/api/src/auth/cidr.ts:75-88 | the 32-bit masks give exactly the block of addresses that share the prefix, in the mapped range |
| Cidr.Ipv6RangeIsBlock | apps/api/src/auth/cidr.ts:90-101 | the same for the 128-bit masks |
| Cidr.MatcherMeaning | apps/api/src/auth/cidr.ts:108-135 | an entry yields a matcher exactly when it parses and its length fits, and contains exactly the addresses that agree on that many first bits of 128 (section 3.1 of RFC 4632) |
| Cidr.OneValuePerAddress | apps/api/src/auth/cidr.ts:32-73 | a text has the value of an IPv4 address exactly when it spells it dotted, dotted after the mapped prefix, or in eight groups that are five zeros, ffff and its two halves (section 2.5.5.2 of RFC 4291) |
| Cidr.CommonSpellings | apps/api/src/auth/cidr.ts:32-73 | the dotted, mapped dotted and mapped hexadecimal spellings in either case are among them |
| AddressText.DottedIsRead | apps/api/src/auth/cidr.ts:19-30 | four octets written in decimal with dots are read as one number, the first counting most |
| AddressText.GroupsHaveValue | apps/api/src/auth/cidr.ts:40-66 | groups written in hexadecimal with colons, in full or with one double colon, have the value of the eight groups they stand for |
| ClientAddress.ResolveClientAddress | apps/api/src/auth/client-address.ts:36-74 | the resolution from socket, header and proxy list |
| ClientAddress.ResolutionLaw | apps/api/src/auth/client-address.ts:41-73 | unless the socket's own address is in the list the socket is the client, whatever the header says; if it is, the rightmost hop not in the list is, and the socket if there is none |
| ClientAddress.NearestSpec | apps/api/src/auth/client-address.ts:61-70 | the walk returns the rightmost untrusted hop, if there is one |
| ClientAddress.Prepending | apps/api/src/auth/client-address.ts:54-73 | what text and a comma put before the header do |
| ClientAddress.PrependingIsHarmlessIff | apps/api/src/auth/client-address.ts:54-73 | when the header counts, no text and comma put before it can change the result exactly when one of its hops is untrusted |
| ClientAddress.GluingIsHarmlessIff | apps/api/src/auth/client-address.ts:13-15 | when the header counts, no text at all put before it can change the result exactly when a hop after its first piece is untrusted |
| Money.Fixed2IsClosest | apps/api/src/orders/order-draft.service.ts:52-52 | the cents written are the closest, the larger of two equally close (section 21.1.3.3 of ECMA-262) |
| Money.SubtotalIsExact | apps/api/src/orders/order-draft.service.ts:37-40 | with every operation off by at most one unit roundoff, the subtotal of up to 200 lines worth up to 10^11 is exact to the cent |
| Money.LineTotalIsExact | apps/api/src/orders/order-draft.service.ts:131-131 | so is each line total |
| Money.StoredMoneyIsExact | apps/api/src/integrations/storefront-order-draft.ts:51-78 | every subtotal that fits its column is exact, along with all its line totals |
| OrderDrafts.CountsMatch | apps/api/src/orders/order-draft.service.ts:31-33 | comparing the two counts finds exactly a missing, inactive or repeated product |
| OrderDrafts.DraftTables.CreateDraftOrder | apps/api/src/orders/order-draft.service.ts:10-81 | the order row and its lines, or a refusal that leaves both tables as they were |
| OrderDrafts.DraftTables.UpdateDraft | apps/api/src/orders/orders.service.ts:79-102 | the old lines gone, the new ones and the new subtotal in place, or nothing changed |
| OrderDrafts.DraftTables.CreateDraftLines | apps/api/src/orders/order-draft.service.ts:119-142 | the loop writes one line for each input at the current price |
| OrderDrafts.RowsAddUp | apps/api/src/orders/order-draft.service.ts:37-62 | the stored subtotal is the sum of the stored line totals, each of them unit price times quantity |
| OrderDrafts.CreatedLaw | apps/api/src/orders/order-draft.service.ts:15-62 | a draft is created exactly when customer and products are active, no product is repeated and the exact subtotal fits; its rows are the lines at the prices of that moment |
| OrderDrafts.UpdatedLaw | apps/api/src/orders/orders.service.ts:76-102 | a draft is changed under the same conditions; its old rows go and the rows of other orders stay |
| OrderDrafts.AlwaysAddsUp | apps/api/src/orders/order-draft.service.ts:83-142 | whatever orders are created and edited and however prices change in between, every order's money adds up |
| Team.TeamTables.Invite | apps/api/src/team/invitation.service.ts:55-160 | exactly when an invitation is created, and the tables after it |
| Team.TeamTables.AcceptInvitation | apps/api/src/team/invitation.service.ts:229-351 | exactly when an invitation makes its user a member |
| Team.TeamTables.RevokeInvitation | apps/api/src/team/invitation.service.ts:182-221 | exactly when an invitation is revoked, or was already |
| Team.TeamTables.ChangeMemberRole | apps/api/src/team/membership.service.ts:25-87 | refused exactly for an unknown member or the demotion of the last owner |
| Team.TeamTables.RemoveMember | apps/api/src/team/membership.service.ts:89-140 | refused exactly for an unknown member or the last owner |
| Team.InviteLaw | apps/api/src/team/invitation.service.ts:79-136 | an invitation holds its role for seven days and revokes an expired open one of the same person; each refusal has its one reason and changes nothing |
| Team.AcceptLaw | apps/api/src/team/invitation.service.ts:229-351 | an acceptance makes its user a member with the invitation's role and uses the invitation up; each refusal has its one reason |
| Team.MemberLaw | apps/api/src/team/membership.service.ts:25-140 | a role change sets that role and a removal takes that member away, unless nobody would be left an owner |
| Team.RevokeLaw | apps/api/src/team/invitation.service.ts:182-221 | a revocation marks the one invitation, unless it was accepted |
| Team.LiveInvitationIsGood | apps/api/src/team/invitation.service.ts:275-303 | while the workspace is safe, a live invitation of somebody who is not a member is never refused for want of a seat |
| Team.CommitKeepsSafe | apps/api/src/team/invitation.service.ts:257-314 | what a transaction has seen by its commit is enough to keep seats and owners right |
| Team.AlwaysSafe | apps/api/src/team/invitation.service.ts:70-314 | over every interleaving of statements, revocations without the lock, passing time and growing plans, members plus live invitations fit the seats and somebody is an owner |
| ProductImages.ProductImageService.UploadProductImage | apps/api/src/catalog/product-image.service.ts:35-101 | pointer and storage after an upload, for each step that may fail |
| ProductImages.ProductImageService.DeleteProductImage | apps/api/src/catalog/product-image.service.ts:103-139 | pointer and storage after a delete, for each step that may fail |
| ProductImages.UploadAlone | apps/api/src/catalog/product-image.service.ts:44-98 | an upload without anything between its steps leaves rows and storage as the service's method does |
| ProductImages.DeleteAlone | apps/api/src/catalog/product-image.service.ts:103-139 | so does a deletion |
| ProductImages.NeverDangling | apps/api/src/catalog/product-image.service.ts:44-138 | over every interleaving of uploads and deletes with rolled-back updates, failing storage calls and crashes, no row points to a missing asset |
| ProductImages.LostCommitDangles | apps/api/src/catalog/product-image.service.ts:95-98 | from any state, an upload whose commit is reported as a failure leaves its row dangling exactly when its clean-up works |
| ProductImages.NeverDanglesIff | apps/api/src/catalog/product-image.service.ts:44-98 | with a product to upload for, no run leaves a row dangling exactly when no commit of a new image may be reported as a failure |
| ProductImages.RequestAlone | apps/api/src/catalog/product-image.service.ts:79-98 | alone and with working clean-up, a request leaves an orphan exactly when its upload call stored the asset and reported a failure |
| ProductImport.HeaderIsNormal | apps/api/src/imports/product-csv-parser.ts:127-135 | a normalised header is its own normal form, and the required names are |
| ProductImport.HeaderLaw | apps/api/src/imports/product-csv-parser.ts:127-135 | every heading, however spaced, hyphenated and capitalised, is read as its words in lower case joined by underscores, and two names also as one word |
| ProductImport.ColumnsLaw | apps/api/src/imports/product-csv-parser.ts:53-55 | each heading reads the trimmed cell of its own column, and nothing else; of two columns with one name the later |
| ProductImport.NonBlankLaw | apps/api/src/imports/product-csv-parser.ts:38-40 | only records without a visible character are left out, and the others keep their order |
| ProductImport.ParseProductCsv | apps/api/src/imports/product-csv-parser.ts:21-84 | the loop gives every non-blank record its errors or its row, or refuses the file |
| ProductImport.FileLaw | apps/api/src/imports/product-csv-parser.ts:21-76 | for every file: which refusal it gets and when, and otherwise what each record that is not blank is read as, a record with too many cells included |
| ProductImport.CountsAddUp | apps/api/src/imports/product-import.service.ts:79-94 | each record has exactly one fate, and the counts add up to the total |
| ProductImport.ValidProductsAreNew | apps/api/src/imports/product-import.service.ts:54-78 | valid SKUs are pairwise distinct and not in the catalogue |
| ProductImport.KeptRowsAreValid | apps/api/src/imports/product-import.service.ts:58-78 | the loop with its set of seen SKUs keeps exactly the records whose fate is valid: the first of each new SKU |
| ProductImport.EveryRejectionExplained | apps/api/src/imports/product-import.service.ts:55-78 | a record is not valid exactly when an error names its row |
| ProductImport.ImportTables.PreviewFile | apps/api/src/imports/product-import.service.ts:40-110 | the whole preview of a file, with rowsValid + rowsInvalid = rowsTotal |
| ProductImport.ImportTables.Commit | apps/api/src/imports/product-import-commit.service.ts:9-42 | adds exactly the previewed rows, or nothing when the run is gone, committed, or one of its SKUs is taken |
| ProductImport.AddedProducts | apps/api/src/imports/product-import-commit.service.ts:22-27 | after a commit each previewed product is found under its SKU and every other product is as it was |
| ProductImport.AddedAtMostOnce | apps/api/src/imports/product-import-commit.service.ts:15-31 | however commits of a run overlap, its rows are added at most once while none of them is deleted again |
| ProductImport.AddedAtMostOnceIff | apps/api/src/imports/product-import-commit.service.ts:15-31 | in every run that deletes none of its rows a previewed import is added at most once, exactly when it has rows |
| ProductImport.EmptyRunCommitsTwice | apps/api/src/imports/product-import-commit.service.ts:19-31 | a run without valid rows can be committed twice at once |

## Left out

- One organisation with one warehouse is modelled throughout; `reconcileAllOrganizations` and the outer loop of the recovery scan only repeat the part modelled here.
- PostgreSQL beyond row locks held to commit, advisory locks, savepoints, unique keys and all-or-nothing commit. The purge of expired idempotency rows takes part in no lock.
- Audit rows other than those of a webhook attempt, notes, contact details, receipt costs, timestamps and response shapes: written once and read nowhere in these properties.
- Active flags of suppliers and customers in the stock model: a product that is inactive is one that does not exist, and lines have positive quantities and distinct products, as the input schemas demand.
- Safe-integer checks are made where the source makes them; the 32-bit columns behind balances are not modelled.
- The browser hook: one mounted instance at a time, no reading of malformed saved intents, and storage that either works or does not.
- The fingerprint's hash is taken to be injective, and payload values outside JSON other than dates and undefined do not occur. Keys that the collation finds equal but are different are not modelled.
- JSON.stringify after the canonical form prints an undefined array element as null, so two arrays that differ only in that share a fingerprint although their canonical forms differ.
- The job queue is a source of retries in any order and number; its back-off, singleton keys and dead letters are not modelled.
- The throttle's key normalisation (trim and lower case of the e-mail) is one opaque key here.
- Strings are sequences of Unicode characters, so lone surrogates do not occur. Lower case of addresses and header names is that of ASCII letters; upper case of SKUs, and the reading of a prefix length that is neither empty nor decimal digits, are parameters.
- ProductImport.ParseProductCsv: the product schema is a parameter that maps the columns of a record to a product or to at least one reason, because its messages are those of the Zod library, which is not part of this model.
- The 2 MB limit of an import is a flag, since it counts UTF-8 bytes.
- Names and SKUs copied into order lines, order numbers and notes. Prices of storefront orders are exact cents, as the money bounds allow, and a missing warehouse is a statement of an attempt that fails.
- Overflow and underflow of doubles: prices and sums of stored orders stay far from both.
- Team plans that shrink (the claim is about plans that do not), session issue after acceptance, and the resolver function that finds an invitation by its token.
- Sanitising images, CDN invalidation and image metadata; product deletion.
- Rows of the SQL functions for billing, demo reset and invitation lookup: their bodies are not part of this model.
