# brnrd: verified models of its stateful cores

A Dafny model of the parts of brnrd whose correctness depends on interleavings, whole runs, or graph and loop
reasoning, with proofs of what they promise. `dafny verify dfyconfig.toml` checks everything.

Where the program updates state in place, the model does too: classes whose methods assign fields in loops, each
proved equal to a specification function on values. What each such function does is written out once more on the
fields it changes, without its helpers, and the laws are proved about it over every run.
Where several requests or processes race, the steps between which others may move are the steps of a machine, and the
imperative method is proved to be a run of that machine with arbitrary steps of the others in between.

| file | models |
|---|---|
| `EventTable`, `AlbumMerge`, `AlbumGuarantees`, `AlbumContents`, `AlbumSweeps`, `AlbumCounterexamples` | the events table under both `seq` allocators; webhook workers folding Telegram albums by an optimistic swap, interleaved with closes, expiry and the sweep |
| `Delivery`, `DeliveryRows`, `DeliverySweeps`, `Responses`, `EventEffects` | cursor paging and clamping, the daemon's view of a run; the stream of response posts to one event |
| `EventStore` | the inbox functions as they update the table, proved to be runs of the album machine |
| `Billing`, `BillingLedger`, `BillingGuard`, `BillingGrants`, `BillingRegrants`, `BillingTier`, `BillingStore`, `BillingEffects`, `BillingRouter` | the Stripe webhook state machine, its ledger, the tombstone guard, erasure, idempotency, tiers, the handlers in place, and the endpoint that records event ids |
| `Catalog`, `Evaluation` | validation and depth-first sort of the capability catalog; the instance build and the override pass |
| `GateLock`, `GateGuarantees`, `GateExactness`, `GateRecords`, `GateHost` | the machine-wide gate lock as system calls of unboundedly many processes that may die; the acquisition and breaker code |
| `WakeRequests`, `WakeEffects`, `WakeStore` | the life of a dashboard tap |
| `Limits`, `LimitReasons`, `AdmissionWindows`, `AdmissionOvershoot` | event admission, and sliding windows over runs of the album machine |
| `PublishScope`, `ConsentRuns`, `ConsentEffects`, `ConsentStore` | publish consent, the gates, the purge on withdrawal |
| `PageViews` | the two-round upsert counter |
| `Text` | whitespace and `str.strip` |

## How things are represented

- A table is a sequence of rows in `seq` order, or a map by primary key. A transaction is one atomic step. A rollback
  leaves the state as it was. Time is an integer that steps never decrease.
- Event, bucket, tap and file ids are numbers; `sha256` is injective; a forwarder is a step that succeeds or fails.
- `SafeRun` asks of a SQLite (`max(seq)+1`) sweep that no merge in flight has read a row above all that the sweep
  leaves, `SafeSystemRun` that the daemon's cursor is not above it; a Postgres sequence needs nothing. Both conditions
  are proved to be exact for what they protect. SQLite keeps no counter, so `high` is read off the table after a sweep.
- Environment answers (inode numbers, whether a recorded owner looks stale, failing unlinks, daemon clocks, case
  folding, detector readings, what other requests do and when) are arbitrary inputs.
- A stored consent that is NULL permits nothing; one that is the empty string permits everything, as the shared parser
  reads it (no write path stores it).
- A gate process that dies drops its locks and descriptors, at any point. Inode numbers may be reused once no name and
  no descriptor is left.

## Where the code does not do what it says

Each of these is proved, with the exact condition under which the code does meet the property.

- Sweeping the newest event under `max(seq)+1` (src/brnrd/inbox.py:955-956 calls deletion cursor-safe) frees its `seq`
  for the next event. A daemon whose cursor has passed that `seq` never receives the new event (`SecondEventIsLost`):
  a queued event can be lost if and only if the cursor is above all that the sweep leaves (`SweepLosesAnEventIff`).
- The same sweep can make a stalled merge queue a swept event again in the place of another (`SweptEventComesBack`): if
  and only if a merge in flight has read a row above all that the sweep leaves (`SweepRequeuesIff`). Attachment
  pointers are conserved even then (`PointersAlwaysConserved`).
- The tombstone guard ignores an empty or missing object id (src/brnrd/billing.py:315-366), while the subscription
  handlers file such an object under the empty string. `GuardMissesUnfiled` is a run in which it misses an account,
  `GuardIsExact` the condition for every event type. Erased accounts are safe either way (`ErasureIsPermanent`).
- A refund with a negative amount unbalances the ledger; with any other it does not (`RefundConservesIff`).
- A grant without a Stripe reference has no idempotency (`GrantTwiceIffRef`).
- A payment can be credited twice when the account it credited is erased in between (`RefGrantsTwice`), since the
  erasure takes the bucket that makes the payment known. In the run that shows it a second event about the payment
  arrives, under another event id, and the session names no account (`SecondEventGrantsAgain`): the endpoint handles
  each event id once (`EventIdIsAppliedOnce`), and a top-up the app opened names its account and is credited at most
  once, whatever happens (`OpenedPaymentGrantsOnce`). `DeliveryGrantsIff` and `RegrantAfterErasureIff` are the exact
  conditions.
- When an upsert resolves to another account than the row's, the row owner's tier is not refreshed (`TierGoesStale`;
  exactly when, is `DisagreementStalesTierIff`).
- The gate lock is not mutually exclusive (`TwoCanHold`). It can come to be held twice without a further break if and
  only if a holder's lock file was broken under it (`HeldTwiceIff`); `HoldersAtMostOnePlusBreaks` bounds the holders.
- Admission and enqueue are separate transactions: requests in flight at once can overshoot a limit, by at most their
  number less one, and for every limit some run does (`WindowsAreBounded`, `BoundIsReached`).
- The publish gate strips a repo label before folding it, the purge only folds it. A row stored under a padded label
  survives the withdrawal of the consent it was published under (`PaddedLabelSurvivesIff`); `StoredIsConsented` holds
  for labels the two read alike.
- Connecting a repo purges nothing, so copies published under a label before its repo was connected may lie outside the
  consent it comes with (`ConnectKeepsConsentedIff`). Nor does a daemon that registers again under another repo take
  back what it published under the first (`RebindKeepsConsentedIff`).
- A stored corpus item whose `layer` is a JSON array or object makes the purge of a removed slice raise
  (src/brnrd/publish_scope.py:306-313), so the owner cannot withdraw (`RottenLayerBlocksWithdrawal`); the purge promises
  that malformed stored content never prevents that (lines 187-199). `WithdrawalFails` is the exact condition.

## Model

| member | source | states |
|---|---|---|
| `EventTable.RewriteConserves` | src/brnrd/inbox.py:764-766 | a row rewrite that only trims content neither duplicates nor invents an attachment pointer: what a table held is what it holds plus what the rewrite shed |
| `EventTable.RewriteAscends` | src/brnrd/inbox.py:341-359 | closes, expiries, sweeps and guarded deletes keep the table in strict `seq` order |
| `AlbumMerge.OpenAlbum` | src/brnrd/inbox.py:256-296 | the album search returns the newest queued Telegram row of the same repo, album and chat inside the 15 s window, and nothing only if no row qualifies |
| `AlbumMerge.SwapKeepsInv` | src/brnrd/inbox.py:379-437 | the swap transaction, landing or missing, keeps ids unique, placeholders off the table, pointers conserved and closed rows empty, however stale the row it read |
| `AlbumMerge.DeletedRowsAreOthers` | src/brnrd/inbox.py:417-431 | the guarded delete takes exactly the row that was read: every other row stays |
| `AlbumMerge.RewriteStepKeepsInv` | src/brnrd/inbox.py:745-768 | closes, continuations, conversation adoption, expiry and sweep keep the invariant, a sweep under `max(seq)+1` unless a merge in flight has read above all it leaves |
| `AlbumMerge.RunKeepsInv` | src/brnrd/inbox.py:299-453 | every interleaving of any number of arrivals, searches, swaps, mints, closes, expiries and sweeps keeps the invariant, under the condition on sweeps that `SweepRequeuesIff` shows to be exact |
| `AlbumMerge.SweepKeepsInv` | src/brnrd/inbox.py:956-987 | a sweep keeps the invariant even when the newest row of a `max(seq)+1` table goes, as long as no merge in flight has read above what stays |
| `AlbumMerge.PointersAlwaysConserved` | src/brnrd/inbox.py:379-502 | in every run, with no condition on sweeps or readings, held plus dropped pointers are exactly the accepted ones |
| `AlbumGuarantees.NeverRequeued` | src/brnrd/inbox.py:417-431 | an event that has left the queue is never queued again, although the swap does not test status; the condition on sweeps is the exact one |
| `AlbumGuarantees.ClosedStaysClosed` | src/brnrd/inbox.py:764-768 | after a close of any row, no later state has a queued row with its event id, whatever merges are in flight; the condition on sweeps is the exact one |
| `AlbumGuarantees.EveryPointerOnce` | src/brnrd/inbox.py:398-437 | wherever pointers are conserved and rows tame, which `PointersAlwaysConserved` and `RunKeepsTame` show of every run, an accepted, undropped pointer sent once is on exactly one row, that row is queued, and it is there once |
| `AlbumGuarantees.RunKeepsTame` | src/brnrd/inbox.py:764-768 | in every run, whatever is swept, closed rows carry no attachments, no placeholder id survives, and a merge has only read queued rows |
| `AlbumGuarantees.NoPointerLostOrDoubled` | src/brnrd/inbox.py:379-502 | over every run from an empty table, with no condition on sweeps: held plus dropped pointers are exactly the accepted ones, each undropped pointer sent once is on one queued row once, no placeholder id survives; under the condition on sweeps ids are distinct |
| `AlbumCounterexamples.SweepReusesSeqIffTopIsSwept` | src/brnrd/inbox.py:341-359 | under `max(seq)+1` the next `seq` after a sweep is a new one if and only if the sweep kept the newest row |
| `AlbumCounterexamples.BeforeIsReachable` | src/brnrd/inbox.py:299-453 | the state the counterexample starts from is reached by one photo and its stalled sibling |
| `AlbumCounterexamples.SweptEventComesBack` | src/brnrd/inbox.py:956-987 | when the newest row is swept, a stale merge queues a swept event again in the place of another event |
| `AlbumSweeps.StaleReadingRequeues` | src/brnrd/inbox.py:417-437 | a stranger that is given the seq and the content a stalled merge has read lets that merge queue its swept event again |
| `AlbumSweeps.SweepRequeuesIff` | src/brnrd/inbox.py:956-987 | a sweep of a `max(seq)+1` table lets some later run queue an event again that was out of the queue if and only if a merge in flight has read a row above all that the sweep leaves |
| `AlbumContents.SearchFinds` | src/brnrd/inbox.py:256-296 | on the fields: a search takes the newest queued Telegram event of the item's repo, album and chat no older than fifteen seconds, is done at once if the item adds neither pictures nor a missing caption, and otherwise leaves the item to be its own event |
| `AlbumContents.MergeLands` | src/brnrd/inbox.py:385-438 | on the fields: a write transaction whose row is current replaces it, behind every other row, by one with the same id and identity, its pictures and then the item's, and the item's caption if and only if it had none but whitespace |
| `AlbumContents.MergeMisses` | src/brnrd/inbox.py:424-431 | a write transaction whose row has changed writes no row; after the twelfth the item becomes its own event |
| `AlbumContents.MintAppends` | src/brnrd/inbox.py:488-502 | an item of its own is a queued event with the item's fields and a new id, behind every other row |
| `AlbumContents.EventsSayWhatTheyWereTold` | src/brnrd/inbox.py:379-502 | in every run, an event whose content is still there holds exactly the pictures of the calls that were told they landed under its id, says what one of them said, and has no caption only if none of them had one |
| `AlbumContents.ToldFromTheStart` | src/brnrd/inbox.py:379-502 | the same from the empty table |
| `AlbumContents.CaptionIsNeverReplaced` | src/brnrd/inbox.py:385-387 | in every run, an event that has a caption is never given another |
| `EventStore.Store.FindOpenMediaGroup` | src/brnrd/inbox.py:256-296 | the loop over candidates returns what the specification of the album search returns |
| `EventStore.Store.SwapTransaction` | src/brnrd/inbox.py:398-437 | insert under a placeholder, delete if unchanged, rename: it lands exactly when the row that was read is still current, and otherwise leaves the rows alone |
| `EventStore.RowCount` | src/brnrd/inbox.py:417-431 | the delete's row count is one when the row is still current and zero otherwise |
| `EventStore.ParkedIsNotRead` | src/brnrd/inbox.py:385-431 | the parked replacement differs in content from the row that was read, so the guarded delete never takes it |
| `EventStore.Store.MergeIntoOpenMediaGroup` | src/brnrd/inbox.py:299-453 | the bounded retry loop is a run of the machine made of its own SELECTs and writes, in their order, and of the steps scheduled for the others between them, nothing else; it ends merged, with nothing to merge into, or with its attempts spent |
| `EventStore.Store.Enqueue` | src/brnrd/inbox.py:456-522 | `enqueue` is a run of the machine made of this call's own statements and the others' scheduled steps, in which the call lands exactly once, merged or minted |
| `EventStore.AtMostTwelveSwaps` | src/brnrd/inbox.py:253-253 | a call runs its write transaction at most twelve times |
| `EventStore.Store.CloseNoted` | src/brnrd/inbox.py:745-768 | a noted close stamps and empties the row once and leaves a closed one alone |
| `EventStore.Store.RecordResponse` | src/brnrd/inbox.py:771-846 | the row, the forwarded speech, the dropped pointers and the answer are what the response specification says, and an unknown event changes nothing |
| `EventStore.ResponseIsRun` | src/brnrd/inbox.py:771-846 | what a response does to the table is a run of the machine, so it keeps every invariant of the machine |
| `EventStore.Store.ExpireStaleQueued` | src/brnrd/inbox.py:887-940 | the row by row expiry closes exactly the queued rows past the horizon and counts them |
| `EventStore.Store.GcEvents` | src/brnrd/inbox.py:943-987 | throttled to once an hour; a collection expires, deletes and nulls as specified |
| `EventStore.CollectionIsRun` | src/brnrd/inbox.py:943-987 | a collection is an expiry and a sweep of the machine |
| `EventEffects.ExpiryIs` | src/brnrd/inbox.py:887-940 | on the rows: exactly the queued events older than the horizon are answered and emptied, with the stamps of an expiry, and no other row moves |
| `EventEffects.SweepIs` | src/brnrd/inbox.py:977-986 | on the rows: exactly the events older than ninety days go, and exactly the queued ones older than two weeks that still have a body are emptied |
| `EventEffects.CollectionIs` | src/brnrd/inbox.py:943-987 | a collection is an expiry by the given horizon, or two days, unless that is not positive, and then a sweep |
| `EventEffects.WritesAreTo` | src/brnrd/inbox.py:745-768 | a write to one event changes that row alone, and only the fields it names |
| `Delivery.BacklogExact` | src/brnrd/inbox.py:551-565 | a fetch is exactly the queued rows of the repos past the cursor, once each, in `seq` order |
| `DeliveryRows.PageHolds` | src/brnrd/inbox.py:627-662 | on the rows: a page is queued events of the repos past the cursor, each once, oldest first, none passed over, and one is left for later only if the page is full |
| `DeliveryRows.ClampIs` | src/brnrd/inbox.py:580-598 | a cursor above the repos' newest row is reset to just below their oldest queued row, or to their newest row if nothing is queued; any other is taken as it is |
| `DeliveryRows.ClampOfNoRepos` | src/brnrd/inbox.py:583-585 | without repos the cursor is zero |
| `DeliveryRows.PollGetsOn` | src/brnrd/routers/daemons.py:185-195 | a poll that is due anything is sent some of it and moves its cursor past it, and what is left is the rest |
| `DeliveryRows.AnsweredIsNeverSentAgain` | src/brnrd/inbox.py:601-624 | over every run, once an event has left the queue no poll is sent it again, whatever the cursor and whatever merges are in flight |
| `Delivery.CeilingIsMax` | src/brnrd/inbox.py:580-598 | the clamp's ceiling bounds every row of the repos and is one of them, or zero |
| `Delivery.BacklogResumes` | src/brnrd/inbox.py:627-662 | reading on from any event of a backlog gives exactly the rest of it |
| `Delivery.PagingIsLossless` | src/brnrd/inbox.py:627-662 | pages of any positive size, the cursor moved to each page's last event, concatenate to the unbounded fetch, and paging ends |
| `Delivery.ClampKeepsLegitimate` | src/brnrd/inbox.py:525-548 | a cursor no higher than some row of the repos is left alone |
| `Delivery.ClampIsIdempotent` | src/brnrd/inbox.py:525-548 | clamping twice is clamping once, and never raises a cursor that is not negative |
| `Delivery.ClampHealsBrokenCursor` | src/brnrd/inbox.py:580-598 | from a cursor above every row, the clamped drain delivers every queued row |
| `Delivery.MergedIsRedelivered` | src/brnrd/inbox.py:395-436 | under both allocators a landed merge is the last event of the next fetch, with all its attachments, for every cursor not above the maximum |
| `Delivery.DeleteFirstRecyclesSeq` | src/brnrd/inbox.py:341-359 | deleting before inserting under `max(seq)+1` hands out a new `seq` if and only if the deleted row was not the newest; inserting first always does |
| `Delivery.DeleteFirstHidesTheMerge` | src/brnrd/inbox.py:341-359 | deleting first under `max(seq)+1`, the merged event is in the next fetch of a daemon at the old maximum if and only if the row read was not the newest; inserting first it always is |
| `Delivery.NoQueuedRowIsSkipped` | src/brnrd/routers/daemons.py:185-195 | in every run of daemon polls and inbox steps, each queued row at or below the daemon's cursor has reached it in its current version, as long as no sweep under `max(seq)+1` leaves the cursor above the table |
| `Delivery.DrainedMeansDelivered` | src/brnrd/inbox.py:601-662 | under the same condition, no queued event of the daemon's repos is missing from it once its backlog is empty |
| `Delivery.DeliveredFromTheStart` | src/brnrd/inbox.py:601-662 | the same from the empty table and a daemon that has read nothing |
| `DeliverySweeps.SweepLosesAnEventIff` | src/brnrd/inbox.py:551-598 | after a sweep of a `max(seq)+1` table some otherwise safe run leaves a queued event undelivered with an empty backlog if and only if the daemon's cursor is above all that the sweep leaves |
| `DeliverySweeps.CursorAboveLosesAnEvent` | src/brnrd/inbox.py:580-598 | that event gets the seq the cursor stands on, and neither fetch nor clamp moves the cursor again |
| `DeliverySweeps.SecondEventIsLost` | src/brnrd/inbox.py:955-983 | one event read, ninety days, a sweep, one more event: the second never reaches the daemon, with no merge in flight |
| `Responses.ResponseStream` | src/brnrd/inbox.py:771-846 | the platform receives all spoken posts up to the close, then the later ones with repeats of the last recorded body collapsed |
| `Responses.ClosesExactlyOnce` | src/brnrd/inbox.py:745-846 | an event closes at its first closing post and only there; status, time and latency stamped then are never restamped |
| `Responses.ConversationSetOnce` | src/brnrd/inbox.py:803-805 | a conversation id is adopted from the first post that reports one and never changed |
| `Responses.FailedForwardIsRetriable` | src/brnrd/inbox.py:813-816 | a failed forward leaves status, body, pointers and response alone, and the retry is sent |
| `Responses.RetryIsQuiet` | src/brnrd/inbox.py:808-811 | a retry of the last forwarded body after the close is acknowledged and not sent again |
| `EventEffects.PostIs` | src/brnrd/inbox.py:771-846 | on the fields: what each kind of post does to the event, to the platform and to the daemon's retry |
| `BillingLedger.RefundConservesIff` | src/brnrd/billing.py:605-626 | a refund keeps the books balanced if and only if its amount is not negative |
| `BillingLedger.DeleteConserves` | src/brnrd/account_deletion.py:203-217 | erasure keeps every ledger delta, the erased account's too, and everyone else's books |
| `BillingLedger.RunConserves` | src/brnrd/billing.py:104-214 | over every run: 0 <= remaining <= granted, each bucket's ledger deltas sum to its remaining credits, each account's to its buckets |
| `BillingLedger.WalletMatchesLedger` | src/brnrd/billing.py:189-214 | in every reachable state a living account's wallet is its ledger sum less its lapsed credits |
| `BillingGuard.HandlerWritesOnlyReach` | src/brnrd/billing.py:397-626 | for every event type and object a handler writes only rows of the accounts it can reach |
| `BillingGuard.GuardIsExact` | src/brnrd/billing.py:315-366 | for every event type and object, with or without an id: no account outside `_accounts_touched` is written if and only if the handler leaves the subscription filed under a missing id as it is or the guard reaches its owner |
| `BillingGuard.GuardMissesUnfiled` | src/brnrd/billing.py:440-505 | a run in which the guard sees no account and a cancellation without an id ends an account's subscription |
| `BillingGuard.CancellationGuardIsExact` | src/brnrd/billing.py:478-505 | for cancellations the guard is complete if and only if the owner of a subscription filed under a missing id is reachable some other way |
| `BillingGuard.DeleteErases` | src/brnrd/account_deletion.py:203-242 | erasure leaves no bucket, no subscription and no customer id, and marks the row deleted |
| `BillingGuard.DeleteFrame` | src/brnrd/account_deletion.py:203-242 | erasing one account leaves every other account's rows alone |
| `BillingGuard.ErasureIsPermanent` | src/brnrd/billing.py:369-394 | after an erasure no run of events changes or recreates any row of the account |
| `BillingGuard.ErasedFromTheStart` | src/brnrd/billing.py:315-394 | the same from the empty state: anything, an erasure, anything |
| `BillingGrants.GrantTwiceIffRef` | src/brnrd/billing.py:125-166 | granting again is a no-op if and only if the reference is a non-empty string, and grants again if and only if there is none |
| `BillingGrants.RunKeepsGrants` | src/brnrd/billing.py:538-578 | in every reachable state no two buckets share a reference and no account has two monthly buckets with credits left |
| `BillingGrants.GrantIsRecorded` | src/brnrd/billing.py:405-424 | a granting delivery leaves a bucket with its reference |
| `BillingGrants.RedeliveryIsInert` | src/brnrd/billing.py:140-166 | while that bucket exists, delivering its event again moves no credit |
| `BillingRegrants.GrantsAreForgottenOrOnRecord` | src/brnrd/billing.py:140-166 | over every run the grants under a reference are exactly the erasures of an account that held its bucket, and one more while a bucket holds it |
| `BillingRegrants.EachRefGrantsAtMostOnce` | src/brnrd/billing.py:405-578 | from the empty state a reference grants at most once, unless an account it credited is erased |
| `BillingRegrants.DeliveryGrantsIff` | src/brnrd/billing.py:369-424 | at any point a delivery moves credits if and only if its reference is on no bucket, the guard lets it through, and it finds an account and an amount to credit |
| `BillingRegrants.RegrantAfterErasureIff` | src/brnrd/account_deletion.py:203-217 | after the credited account is erased, the same event moves credits again if and only if the guard lets it through and it finds an account and an amount to credit |
| `BillingRegrants.RefGrantsTwice` | src/brnrd/account_deletion.py:203-242 | a run in which a payment whose session names no account credits an account, the account is erased, its customer comes back under another, and a second event about the same payment credits that one |
| `BillingRegrants.NamedErasedAccountIsInert` | src/brnrd/stripe_api.py:141-168 | at any point after an account is erased an event whose metadata names it, as those of every session the app opens do, changes nothing |
| `BillingRegrants.OpenedPaymentGrantsOnce` | src/brnrd/stripe_api.py:141-168 | a top-up the app opens for an account is credited at most once in every run, erasures and further events about it included |
| `BillingRouter.EndpointRunsTheMachine` | src/brnrd/routers/webhooks.py:1309-1318 | whatever the endpoint receives and however often, the billing tables are those of a run of the billing machine |
| `BillingRouter.EventIdIsAppliedOnce` | src/brnrd/routers/webhooks.py:1309-1318 | over every run, erasures included, an event id is applied if and only if it comes to be on record, and never twice; an exception records nothing |
| `BillingRouter.RedeliveredEventIsInert` | src/brnrd/routers/webhooks.py:1309-1318 | at any later point, redelivering an applied event changes nothing |
| `BillingRouter.SecondEventGrantsAgain` | src/brnrd/routers/webhooks.py:1309-1318 | the run of `RefGrantsTwice` gets past the endpoint: each of its events has an id of its own |
| `BillingRouter.Endpoint.StripeWebhook` | src/brnrd/routers/webhooks.py:1309-1318 | in place: look the id up, handle, record; an exception is a rollback of both |
| `BillingTier.StepKeepsTiers` | src/brnrd/billing.py:296-304 | each step of sign-up, agreeing event or erasure keeps tier and subscriptions in agreement |
| `BillingTier.TierMirrorsSubscriptions` | src/brnrd/billing.py:430-602 | in every state reached by agreeing events the tier is subscribed if and only if a non-canceled subscription exists, through grace, recovery, cancellation and erasure |
| `BillingTier.DisagreementStalesTierIff` | src/brnrd/billing.py:430-475 | an upsert whose resolved account is not the row's leaves the owner's tier stale if and only if it flips the liveness of the owner's only live row |
| `BillingTier.TierGoesStale` | src/brnrd/billing.py:430-475 | a run of two sign-ups, a subscription of the first, and an update of it that names the second leaves the first subscribed with no live subscription |
| `BillingEffects.LookupIs` | src/brnrd/billing.py:266-276 | the lookup gives the account the metadata names, else the only one with the customer id, nothing if nobody has it, and raises if two have |
| `BillingEffects.DroppedIffReachesErased` | src/brnrd/billing.py:315-394 | an event is dropped if and only if an id it carries reaches an erased account: by metadata, customer, subscription or Stripe reference |
| `BillingEffects.UnknownIsIgnored` | src/brnrd/billing.py:387-389 | an event of no known type changes nothing |
| `BillingEffects.CancellationEffect` | src/brnrd/billing.py:478-505 | on the tables: a cancellation cancels the row, spends every monthly allowance of its account with one ledger row of what each had left, leaves every other bucket alone, and sets the tier by the subscriptions left |
| `BillingEffects.UpsertEffect` | src/brnrd/billing.py:430-475 | on the tables: one row is written with the mapped status, its old owner and the old period end where the event has none, with its audit row, and the tier of the account that is meant follows |
| `BillingEffects.NobodyMeant` | src/brnrd/billing.py:397-435 | without an account these events change nothing, and with two they raise |
| `BillingEffects.CheckoutEffect` | src/brnrd/billing.py:397-427 | on the tables: a missing customer id is filled in, and a top-up becomes one full purchased bucket of what its metadata says, else of the cents paid, with its ledger row, unless its reference is known |
| `BillingEffects.InvoicePaidEffect` | src/brnrd/billing.py:524-578 | on the tables: dunning ends, the old allowance is spent row by row, and one full bucket of the configured credits takes its place until the end of the invoice line, else of the subscription |
| `BillingEffects.InvoiceMovesNothing` | src/brnrd/billing.py:524-545 | an invoice of no subscription, of nobody, or seen before moves nothing; one of two accounts raises |
| `BillingEffects.PaymentFailedEffect` | src/brnrd/billing.py:581-602 | on the tables: an active subscription becomes past due with one audit row, and neither tier nor credits move |
| `BillingEffects.FailedWithoutSubscription` | src/brnrd/billing.py:581-584 | a failed payment of no subscription is ignored |
| `BillingEffects.RefundEffect` | src/brnrd/billing.py:605-626 | on the tables: the bucket of the payment loses the amount, or all it has left if that is less, never gains, and one ledger row says what was taken |
| `BillingEffects.RefundOfNothing` | src/brnrd/billing.py:605-613 | a refund without a payment, or of one no bucket came from, moves nothing |
| `BillingEffects.AccountStepIs` | src/brnrd/routers/billing.py:47-58 | a checkout the app opens gives a living account without a customer the one it created, and nothing else; a sign-up makes one free account |
| `BillingEffects.ErasureIs` | src/brnrd/account_deletion.py:203-242 | on the tables: a tombstone is left, the other accounts' subscriptions and buckets as they were and in order, and every ledger row, those of the buckets that go without their reference |
| `BillingEffects.WalletGrowsBy` | src/brnrd/billing.py:189-214 | each bucket adds to the wallet what it has left until the moment it expires, under its own source, and purchases count what was granted |
| `BillingEffects.TotalIsTheSum` | src/brnrd/billing.py:189-214 | the wallet's total is the sum of its balances by source |
| `BillingStore.Store.GrantCredits` | src/brnrd/billing.py:125-166 | the three outcomes of a grant, with the UNIQUE column on references, and the state after each |
| `BillingStore.Store.ExpireCredits` | src/brnrd/billing.py:169-186 | the loop drains exactly the live buckets of the source, writes one ledger row each, and returns the credits taken |
| `BillingStore.Store.WalletBalances` | src/brnrd/billing.py:189-214 | the loop's totals by source and overall are the sums over unlapsed buckets |
| `BillingStore.Store.CheckoutCompletedEvent` | src/brnrd/billing.py:397-427 | in place, the checkout specification; an exception is a rollback |
| `BillingStore.Store.SubscriptionUpsertedEvent` | src/brnrd/billing.py:430-475 | in place, the upsert specification |
| `BillingStore.Store.SubscriptionDeletedEvent` | src/brnrd/billing.py:478-505 | in place, the cancellation specification |
| `BillingStore.Store.InvoicePaidEvent` | src/brnrd/billing.py:524-578 | in place, recovery, expiry of the old allowance and the new grant |
| `BillingStore.Store.PaymentFailedEvent` | src/brnrd/billing.py:581-602 | in place, the past-due specification |
| `BillingStore.Store.ChargeRefundedEvent` | src/brnrd/billing.py:605-626 | in place, the clawback specification |
| `BillingStore.Store.TouchedAccounts` | src/brnrd/billing.py:315-366 | the collecting loops return exactly the guard's set |
| `BillingStore.Store.HandleEvent` | src/brnrd/billing.py:369-394 | guard, dispatch and rollback together are the specified transition |
| `BillingStore.Store.EraseAccount` | src/brnrd/account_deletion.py:203-242 | the deletes and updates in their order reach the erased state |
| `Catalog.OrderExcludesCycles` | src/brnrd/capabilities.py:234-239 | a complete dependency order proves the requires graph acyclic |
| `Catalog.Sorter.Visit` | src/brnrd/capabilities.py:248-259 | the visiting set is exactly the current path; the visit ends with the node listed after all it needs, or with a genuine cycle |
| `Catalog.Sorter.Sort` | src/brnrd/capabilities.py:243-263 | the outer loop lists every id once, dependencies first, or returns a genuine cycle; it terminates |
| `Catalog.IndexById` | src/brnrd/capabilities.py:220-225 | the index is built, or a duplicate id is reported that is one |
| `Catalog.CheckRequirements` | src/brnrd/capabilities.py:227-239 | no error if and only if every requirement is known, not optional, and in account or own scope; each error names a real offender |
| `Catalog.ValidateCatalog` | src/brnrd/capabilities.py:220-263 | a catalog is accepted if and only if it is well formed and acyclic, and every verdict is justified by the catalog |
| `Catalog.SoundIff` | src/brnrd/capabilities.py:220-263 | on the entries: what is accepted is a catalog of distinct ids whose requirements are entries, not optional, in account scope or the requirer's, and lead nowhere round |
| `Catalog.ValidIsInOrder` | src/brnrd/capabilities.py:220-263 | on the entries: an accepted order has every id once and every requirement before its requirer |
| `Catalog.ValidOrderIsPermutation` | src/brnrd/capabilities.py:220-263 | the accepted order is a permutation of the catalog's ids |
| `Evaluation.Override` | src/brnrd/capabilities.py:745-771 | the pass settles exactly the rows of the ids it visits by the closed form, for every order of ids and every dict order |
| `Evaluation.BuildInstances` | src/brnrd/capabilities.py:728-743 | rows are built if and only if every id has a detector without repeated subjects; the errors name a missing detector or a real duplicate |
| `Evaluation.EvaluateCapabilities` | src/brnrd/capabilities.py:707-773 | all of it: when each error is raised, and that the rows are every detector's rows settled by the closed form |
| `Evaluation.EvaluatedRows` | src/brnrd/capabilities.py:703-773 | on the rows: one for each reading, as read, except that a dark one with requirements is on the frontier if the account row of each account requirement and the row of the same subject of every other is lit, and waits if not |
| `Evaluation.SettledIsTheOnlySolution` | src/brnrd/capabilities.py:745-748 | the closed form is the one solution of the documented equations on final states, so waiting travels through waiting rows |
| `Evaluation.LightingIsMonotone` | src/brnrd/capabilities.py:757-771 | lighting rows never makes a row wait and never takes an unlit row off the frontier |
| `Evaluation.OptionalNeverBlocks` | src/brnrd/capabilities.py:234-239 | whatever optional rows read, gain or lose, every row whose own reading is unchanged comes out the same |
| `Evaluation.FrontierIff` | src/brnrd/capabilities.py:751-771 | a row is on the frontier if and only if it is dark, requires something, and all it requires is lit |
| `Evaluation.WaitingHasABlamedChain` | src/brnrd/capabilities.py:745-771 | every waiting row has a chain of requirements, strictly earlier in the order, through waiting rows to one absent, unobservable, or dark and not waiting |
| `GateLock.SameNumberSameFile` | scripts/gate.py:449-455 | the comparison of inode numbers is exact although numbers are reused: both files are live |
| `GateLock.BreakStepKeepsInv` | scripts/gate.py:458-484 | each step of the breaker keeps the invariant: under the reap lock the path cannot change between the last check and the unlink |
| `GateLock.QueueStepKeepsInv` | scripts/gate.py:538-590 | each step of the queueing loop and of the holder keeps the invariant |
| `GateLock.RunKeepsInv` | scripts/gate.py:449-590 | every run of any number of processes, dying anywhere, keeps it |
| `GateGuarantees.HoldersAreApart` | scripts/gate.py:538-590 | holders own exclusive locks of pairwise distinct files, at most one the path's; each other was unlinked by a break while held |
| `GateGuarantees.HoldersAtMostOnePlusHits` | scripts/gate.py:538-590 | holders never exceed one plus the held files that breaks unlinked |
| `GateGuarantees.BreakIsOwnAndFresh` | scripts/gate.py:458-484 | a break unlinks the file its own descriptor names, never one broken before, and nothing else takes the name away |
| `GateGuarantees.EachFileBreaksOnce` | scripts/gate.py:458-484 | competing reapers break each file at most once, and the broken files are those breaks |
| `GateGuarantees.HoldersAtMostOnePlusBreaks` | scripts/gate.py:505-590 | holders never exceed one plus the number of breaks; with no break there is mutual exclusion |
| `GateGuarantees.ExclusiveUnlessAHolderIsHit` | scripts/gate.py:505-590 | breaks of files nobody holds are harmless: mutual exclusion needs only that no held file is unlinked |
| `GateGuarantees.HitHolderWasNotTheOneJudged` | scripts/gate.py:418-446 | when owners are judged rightly, the holder a break hits is never the recorded owner that was judged stale |
| `GateGuarantees.TwoCanHold` | scripts/gate.py:577-590 | plain mutual exclusion fails: a run with right judgements ends with two holders, because the old status outlives its release |
| `GateRecords.JudgesNamedRunsOnly` | scripts/gate.py:418-446 | a process goes on to break if and only if there is a record, its run id is not blank, and its owner looks stale |
| `GateRecords.RunKeepsRecords` | scripts/gate.py:418-484 | in every run a record is its author's own, and whoever is on the way to a break judged an owner that named a run |
| `GateRecords.BrokenOwnerHadARun` | scripts/gate.py:458-484 | every break of every run is because of a process that entered with a run id |
| `GateRecords.NumberIsGivenAgain` | scripts/gate.py:449-455 | a new lock file may get the inode number of one of which no name and no descriptor is left |
| `GateRecords.HitIsAHolder` | scripts/gate.py:458-484 | a break hits somebody if and only if a process past its recheck has the unlinked file open |
| `GateRecords.NamelessRunsExclude` | scripts/gate.py:418-426 | if no process enters with a run id nothing is ever broken and the lock is mutually exclusive |
| `GateExactness.HeldTwiceIff` | scripts/gate.py:505-590 | from any reachable state some continuation with no further break ends with two holders if and only if some holder's lock file was broken under it |
| `GateExactness.HitHoldersAreOld` | scripts/gate.py:544-550 | without a break nobody comes to hold a broken file |
| `GateHost.Host.BreakStaleLock` | scripts/gate.py:458-484 | the breaker breaks at most one file, the one its descriptor names, and says whether it did; all it adds to the run are its own calls and the others' turns, in order |
| `GateHost.Host.HeldGateLock` | scripts/gate.py:505-587 | the whole acquisition adds to the run only its own calls and the others' turns, in order; whoever is let in owns the lock of a file that is the lock file or was broken under it, and is alone if nothing was broken |
| `GateHost.Host.Release` | scripts/gate.py:587-590 | on the way out the descriptor's lock is gone, and if nobody else moves the status stays |
| `WakeRequests.AppliedOnceIffConsumed` | src/brnrd/wake_requests.py:168-299 | over every run a tap is consumed if and only if one claim was told to apply it, and never two |
| `WakeRequests.DecidedIsForever` | src/brnrd/wake_requests.py:250-251 | a decided tap never changes again, in any field |
| `WakeRequests.RunKeepsInv` | src/brnrd/wake_requests.py:102-136 | over every run of whole calls every account has at most one pending tap; a consumed tap was spent within its day, an expired one decided after it |
| `WakeRequests.LapsedIsNeverConsumed` | src/brnrd/wake_requests.py:254-259 | past its day an unspent tap is never spent, whatever follows |
| `WakeRequests.CreateSupersedes` | src/brnrd/wake_requests.py:102-136 | a new tap is the account's one pending tap and no other account's tap changes |
| `WakeRequests.StarvationIsBounded` | src/brnrd/wake_requests.py:275-286 | over a whole run a tap loses at most two eligible claims, after which the next eligible claim spends it |
| `WakeRequests.OnlyEligibleClaimsSpend` | src/brnrd/wake_requests.py:261-274 | a scheduled wake or a daemon without the profile never spends a tap and leaves it pending |
| `WakeRequests.SkewChangesNothing` | src/brnrd/wake_requests.py:275-286 | whatever offset each daemon's clock has at each claim, the table and every answer are the same |
| `WakeEffects.CreateIs` | src/brnrd/wake_requests.py:102-136 | on the fields: the new tap lives a day, every earlier pending one of the account is canceled now, no other moves |
| `WakeEffects.CancelIs` | src/brnrd/wake_requests.py:139-153 | on the fields: a pending tap of the account is canceled now, no other moves |
| `WakeEffects.PollIs` | src/brnrd/wake_requests.py:71-99 | on the fields: exactly the account's pending taps whose day is over expire |
| `WakeEffects.ClaimIsRefused` | src/brnrd/wake_requests.py:244-268 | on the fields: which claims are refused before the ages are compared, with which answer, and what is left of the tap |
| `WakeEffects.ClaimSpendsOrWaits` | src/brnrd/wake_requests.py:269-299 | any other claim spends the tap, unless it is younger than the event and has waited fewer than two times; then it waits once more |
| `WakeEffects.WaitsIffTappedAfter` | src/brnrd/wake_requests.py:275-286 | on one clock: the tap waits for the next wake if and only if it was made after the event came and has not waited twice |
| `WakeStore.Store.CreateRequest` | src/brnrd/wake_requests.py:102-136 | the loop cancels exactly the account's pending taps and appends the new one |
| `WakeStore.Store.CancelRequest` | src/brnrd/wake_requests.py:139-153 | a pending tap of the account is canceled, a decided one returned as it is, any other unknown |
| `WakeStore.Store.PendingForAccount` | src/brnrd/wake_requests.py:71-99 | lapsed taps expire, and the newest pending one left is returned if there is one |
| `WakeStore.Store.ClaimRequest` | src/brnrd/wake_requests.py:168-299 | the ladder of rungs gives the specified answer and leaves the specified row |
| `Limits.AdmissionIsMonotone` | src/brnrd/limits.py:86-151 | less payload, fewer counted events, subscribing or a billing outage never turn an admission into a refusal |
| `Limits.CeilingsIgnoreBilling` | src/brnrd/limits.py:86-151 | two standings differ only where a readable free account hits a free limit: ceilings bind alike |
| `LimitReasons.RefusedForTheFirst` | src/brnrd/limits.py:86-151 | an event is refused for the first limit it would break, in the order of the checks and with that limit's reason and status, and admitted if it breaks none |
| `LimitReasons.CountIsTheirNumber` | src/brnrd/limits.py:75-84 | the count is the number of the account's events in the window |
| `LimitReasons.BytesOf` | src/brnrd/limits.py:104-104 | a body is measured in the bytes of its UTF-8 encoding |
| `LimitReasons.NobodyIsAdmitted` | src/brnrd/limits.py:100-103 | without an account nothing is refused |
| `AdmissionWindows.RefusedIffWindowFull` | src/brnrd/limits.py:120-151 | in every state the inbox reaches, a message of acceptable shape is refused if and only if the minute or day ending now already holds a limit that binds the account |
| `AdmissionWindows.MergeKeepsCounts` | src/brnrd/inbox.py:398-414 | a merge keeps every account's count in every window |
| `AdmissionWindows.WindowsAreBounded` | src/brnrd/limits.py:75-151 | in every run of the inbox whose arrivals were admitted, a window that held none of the account's events at the start never exceeds the limit plus the requests in flight at once, less one: whatever is swept while the window is open, and under the condition on sweeps ever after |
| `AdmissionWindows.CeilingsHold` | src/brnrd/limits.py:120-134 | when each enqueue follows its admission, no minute and no day holds more events of an account than the abuse ceilings: with no condition on sweeps while it is open, and under it ever after |
| `AdmissionWindows.FreeLimitsHold` | src/brnrd/limits.py:136-150 | while the account reads as free at its own arrivals, from any state on, nor more than the free limits |
| `AdmissionOvershoot.BoundIsReached` | src/brnrd/limits.py:120-134 | for every limit and every number of overlapping requests some run, admitted step by step, puts exactly as many events into a minute as the bound allows |
| `AdmissionOvershoot.OverlapOvershoots` | src/brnrd/limits.py:120-134 | two requests admitted before either lands put two events into a minute whose limit is one |
| `PublishScope.CorpusLaneIffSlices` | src/brr/gates/cloud_publisher.py:171-179 | the corpus lane is open if and only if some slice is |
| `ConsentEffects.ConsentPermits` | src/brr/gates/cloud_publisher.py:145-180 | no consent and a recorded no permit nothing, an empty one everything; else each lane and slice by its own name, slices also by the corpus, and the corpus lane whenever a slice is permitted |
| `ConsentEffects.WithdrawalIs` | src/brnrd/publish_scope.py:233-247 | a change withdraws what was permitted and no longer is, and affects the corpus also when only a slice goes |
| `ConsentEffects.RowPasses` | src/brnrd/publish_scope.py:487-523 | a row passes if and only if every repo of the account its stripped, folded label names permits the lane, or, if it names none, its publisher does |
| `PublishScope.AddingARepoNeverWidens` | src/brnrd/publish_scope.py:487-523 | a row the gate refused stays refused when a repo is connected, unless it is the first its label names |
| `PublishScope.SurvivorsInOrder` | src/brnrd/publish_scope.py:283-293 | what a purge filter keeps is everything not meant, in order, and nothing else |
| `PublishScope.PurgeErases` | src/brnrd/publish_scope.py:215-356 | for every affected lane and every strategy nothing attributable to the repo is left, unparseable text included, in what a purge that does not raise has stored |
| `ConsentEffects.PurgeIs` | src/brnrd/publish_scope.py:237-356 | on the stores: of an affected lane exactly what is the repo's goes, strategy by strategy, in order and with everything else as it was; a store of any other lane is untouched |
| `ConsentEffects.ConsentChangeIs` | src/brnrd/publish_scope.py:215-356 | a consent change purges every store and is recorded, unless a slice is withdrawn and the owner's corpus mirror has a nested layer; then nothing changes |
| `PublishScope.PurgeLeavesTheRest` | src/brnrd/publish_scope.py:215-356 | a store with nothing attributable is not touched, so purging twice is purging once |
| `PublishScope.WideningAltersNothing` | src/brnrd/publish_scope.py:233-238 | widening a consent or recording it again alters no store, and never raises |
| `PublishScope.PaddedLabelSurvivesIff` | src/brnrd/publish_scope.py:283-291 | an entry the gate attributes to the repo outlives the withdrawal if and only if its label folds differently from its stripped form |
| `PublishScope.WithheldAgreesWithTheGates` | src/brnrd/publish_scope.py:368-399 | a lane is shown as withheld if and only if the gates refuse it: the corpus when no slice may ship, any other when no repo permits it |
| `ConsentRuns.StoredIsConsented` | src/brnrd/publish_scope.py:215-574 | in every run of publishes, consent changes, connects, disconnects, daemon registrations and cache rot, each stored copy is within the current consent of every connected repo it is about, for unpadded labels and for connects and registrations as `ConnectKeepsConsentedIff` and `RebindKeepsConsentedIff` require |
| `ConsentEffects.ItemsPublished` | src/brnrd/publish_scope.py:526-574 | a publish of labelled rows stores all and only those that pass, in order |
| `ConsentEffects.FilesPublished` | src/brnrd/routers/daemons.py:601-640 | a publish of the corpus stores all and only the files whose layer every repo of the account permits, in order |
| `ConsentEffects.BasesPublished` | src/brnrd/publish_scope.py:526-574 | a publish of bases stores all and only those whose label passes |
| `ConsentEffects.ValuePublished` | src/brnrd/publish_scope.py:425-449 | a daemon's value is stored if its repo permits the lane or is not connected, and reset if not; a row likewise |
| `ConsentRuns.ConnectKeepsConsentedIff` | src/brnrd/routers/accounts.py:89-125 | connecting a repo keeps every stored copy within consent if and only if what is stored about it already lies within the consent it comes with: connecting purges nothing |
| `ConsentRuns.RebindKeepsConsentedIff` | src/brnrd/routers/daemons.py:246-267 | a daemon registering again under another repo keeps every stored copy within consent if and only if what it has published lies within the new repo's consent |
| `ConsentRuns.RottenLayerBlocksWithdrawal` | src/brnrd/publish_scope.py:302-313 | one corpus item whose layer has rotted into an array, and withdrawing the consent erases and changes nothing |
| `ConsentRuns.PaddedRowOutlivesWithdrawal` | src/brnrd/publish_scope.py:526-574 | with a padded label it fails: a row published under consent is still stored after the withdrawal |
| `ConsentStore.Mirror.PurgeRemovedScope` | src/brnrd/publish_scope.py:215-356 | the loop over targets purges every store as specified and stamps the surface time if and only if the corpus mirror was written; it raises if and only if an affected mirror holds a nested layer, and then nothing is kept |
| `ConsentStore.Mirror.ChangeConsent` | src/brnrd/publish_scope.py:215-235 | purge and consent record together are one step of the consent machine; a purge that raises records nothing |
| `ConsentStore.Mirror.JudgeSubject` | src/brnrd/publish_scope.py:487-523 | the loop over the account's repos gives the specified judgement |
| `ConsentStore.Mirror.PermittedRows` | src/brnrd/publish_scope.py:526-574 | deciding each distinct label once filters exactly as judging every row would |
| `PageViews.CounterIsExact` | src/brnrd/page_views.py:112-131 | in every interleaving the counter of a key is the number of calls that have returned, and no call runs out of rounds |
| `PageViews.StatementIs` | src/brnrd/page_views.py:112-131 | an UPDATE that hits adds one view, an INSERT makes the first, and the loser of an INSERT goes round again, twice in all |
| `PageViews.SecondRoundIsNeeded` | src/brnrd/page_views.py:117-131 | two concurrent first views send one of them into the second round |
| `PageViews.Table.RecordView` | src/brnrd/page_views.py:112-131 | the two-round loop always returns having counted; all it adds to the history is its start, at most two statements a round, and the others' scheduled steps |

## Left out

- Delivery to platforms, Stripe, GitHub and OAuth calls, HTTP routing, JSON and message texts: network and encoding.
- Long-poll sleeping and threads (src/brnrd/inbox.py:568-577, 665-704): a poll is one step.
- Sequence values committed out of order: an insert and its commit are one step.
- Protection of `conversation_id` during a merge: the swap guards only body and attachments, so a conversation adopted
  between read and swap is lost; no claim is made about it.
- The events, routes, tokens and daemons that account deletion also removes: only its billing half and the account row.
- Subscription price, cadence and cohort, ledger metadata and timestamps: they decide no branch modelled here.
- BillingLedger.RunConserves: needs refunds that are not negative, the exact condition being RefundConservesIff; the configured monthly credits are taken as not negative.
- BillingTier.TierMirrorsSubscriptions: holds for events whose resolved account agrees with the row's, the exact failure being DisagreementStalesTierIff.
- AlbumMerge.RunKeepsInv: under max(seq)+1, needs that no merge in flight has read above all that a sweep leaves, which SweepRequeuesIff shows to be exact.
- Delivery.NoQueuedRowIsSkipped: under max(seq)+1, needs that the cursor is not above all that a sweep leaves, which SweepLosesAnEventIff shows to be exact.
- EventStore.Store.RecordResponse: one step, while src/brnrd/inbox.py:803-846 commits the conversation, forwards, and then commits the rest; the machine's closes and continuations by row position stand for writes decided on a stale reading.
- Capability detectors, evidence, acts and the final sort of the rows: a detector is an arbitrary list of raw readings.
- The gate's leg parsing, receipts, narration, and the branch that proceeds without a lock when opening fails.
- GateLock.RunKeepsInv: treats the atomic replace of the status file as one step, and a stale judgement as an arbitrary answer about a record that has a run id.
- GateHost.Host.HeldGateLock: the loop has no timeout, so the method follows any finite number of turns and may return still queued.
- The near copies of the tap life cycle (stop, release and respawn requests).
- WakeStore.Store.ClaimRequest: reads and writes in one step, as its documentation says; two claims interleaved inside it are not modelled.
- WakeRequests.RunKeepsInv: at most one pending tap is about whole calls; two `create` calls that both read before either writes leave two, and that interleaving is not modelled.
- The repo-connect cap (src/brnrd/limits.py:154-180): one comparison.
- AdmissionWindows.WindowsAreBounded: under max(seq)+1, needs the sweep condition of AlbumMerge.RunKeepsInv once the window has closed; while it is open, needs nothing.
- AdmissionWindows.CeilingsHold: the same, minute by minute and day by day; repos keep their owner during a run.
- AdmissionWindows.FreeLimitsHold: the same, for the free limits.
- AlbumGuarantees.NoPointerLostOrDoubled: ids are distinct under the sweep condition, the rest always; a swap that would repeat an id, which takes an unsafe sweep, violates a UNIQUE column in the source and goes through in the model.
- Splitting and folding of consent strings: a stored consent is NULL, empty, or its set of tokens.
- ConsentRuns.StoredIsConsented: published labels fold like their stripped form, and the consent of a repo that is connected, or that a daemon moves to, covers what is stored about it; PaddedLabelSurvivesIff, ConnectKeepsConsentedIff and RebindKeepsConsentedIff are the exact conditions.
- The order of keys inside a stored bases object, and purge targets with an unknown strategy (a programming error the code raises on).
- Which page paths are counted and how hosts and browsers are named (src/brnrd/page_views.py:75-109): easy members.
