# Control Center: a verified model of its hard parts

Control Center is a plugin host. It sells plugins paid model calls under budgets, lends them browser sessions, runs
their jobs and keeps the administrator's providers, routes and credentials; two of its plugins watch auctions (bidrl)
and electricity usage (tid). This project models the parts of it where correctness is not visible from any one
function, and proves for-all statements about them in Dafny.

| files | what they model |
|---|---|
| `Common` | optional values, results, Go's 64-bit integers and byte strings |
| `Pricing`, `Ledger`, `PaidCalls` | the price of an attempt plan in wrapping int64 micro-USD; the spend ledger and its admission test; the attempt loop |
| `Settlement`, `CallRecovery`, `CallService`, `Spending` | what a finished call stores and settles; every run of paid calls with crashes between any two transactions; the code that performs those steps; from routes to budgets |
| `LiveFeed`, `FeedService`, `Handshake`, `JsonScan` | the generation-stamped bid feed as an interleaving system; the feed object; its handshake against the host's limits; the JSON object scanner |
| `SlotLists`, `BrowserSlots`, `SlotService` | browser session slots: in-place slice edits, their interleavings over aliased arrays, the service object |
| `Alerts` | closing alerts decided from stale reads |
| `Envelope`, `Vault`, `VaultStore` | the binding of a secret to its row, the credential tables, the store object |
| `Configuration`, `ConfigService` | providers, routes, references and the compiled table, with restarts; the administration object |
| `Patterns` | event patterns and the SQL prefix |
| `Temperature`, `DayMerge` | temperature-matched expectation and day merging, in exact arithmetic |
| `Cleanup`, `CleanupJob` | what "Remove ended" leaves behind; the job that does it |
| `Backoff`, `RetryJobs`, `JobRunner` | the retry delay in int64; idempotent enqueue under interleaving; the retry loop |

Code that changes state step by step is a class or a method with loops, proved against a function of the old state;
a protocol under a mutex is a transition system with one step per critical section; a database transaction is one
step that happens entirely or not at all. Integers wrap where Go's wrap. `dafny verify dfyconfig.toml` checks
everything.

## Where the code does less than it says

Each of these keeps the code as it is, gives a concrete input, and states exactly when the promise holds.

- **The reserved maximum.** `tokensCost` rounds up with `+ 999_999` after its overflow check, so a price product just
  below 2^63 turns negative. A route accepted at build time then reserves too little (`Pricing.UnderestimatedPlan`).
  The reservation bounds every in-limit call if and only if no metered input product lies in that last million
  (`PaidCalls.ReservationBoundsIff`).
- **Admission.** The budget test adds in int64; it admits beyond the limit exactly when used plus maximum reaches 2^63
  (`Ledger.AdmissionExact`, `Ledger.AdmissionWraps`), so an admission keeps the budget if and only if that sum fits
  (`Ledger.ReserveKeepsBudgetIff`).
- **ClosePlugin** may return while a session its plugin had before is still open, if an earlier ClosePlugin of the plugin
  detached that session and has not got to it (`BrowserSlots.SecondCloseReturnsEarly`). It closes every session the
  plugin had at its start, whatever runs beside it, if and only if each of them is then closed or still in the plugin's
  list (`BrowserSlots.ClosesAllIff`); that is so whenever no other ClosePlugin of the plugin is under way when it starts
  (`BrowserSlots.LoneCloseIsComplete`).
- **One connection.** The comment in `rebuild` says the site never sees two connections. Mid-rebuild it can
  (`LiveFeed.TwoFeedsMayOverlap`): in every state a feed is live if and only if `stop` or some goroutine holds its cancel
  (`LiveFeed.LiveIff`), so two are live exactly while a goroutine that took a cancel has not called it and another feed
  is installed or another goroutine is in the same position (`LiveFeed.OverlapIff`).
- **Kept lots.** Cleanup is idempotent on the tables, but the number of lots it reports as kept is not: it repeats if
  and only if no auction rests on unpinned lots alone for its end (`Cleanup.KeptStableIff`, `Cleanup.KeptDrifts`).
- **Capped backoff.** "Capped at the policy maximum" holds if and only if the initial wait is within the maximum and the
  doubling that meets it fits 64 bits (`Backoff.CappedIff`). An initial wait above the maximum is used once uncapped,
  and with both at 2^62 ns the second wait is negative (`Backoff.FirstWaitIsNotCapped`, `Backoff.SensiblePolicies`).
- **One live job per key.** A second live job of a key means that an attempt revived an ended one
  (`RetryJobs.TwoLiveMeansRevived`). As long as cancels and pick-ups are orderly there is none
  (`RetryJobs.OneLivePerKey`), and after an orderly run the next step is safe, whatever is enqueued, begun and finished
  afterwards, if and only if it is orderly (`RetryJobs.SafeIff`): a Cancel of a keyed job that no run with an attempt
  left has in hand, a pick-up of one that no run has in hand, or any other step. Both kinds of disorder do double a key
  (`RetryJobs.CancelInFlightDoubles`, `RetryJobs.SecondRunDoubles`); a Cancel during the last attempt does not
  (`RetryJobs.LastAttemptMayBeCancelled`).
- **bindAAD** is canonical for strings below 2^32 bytes and for no larger bound (`Envelope.InjectiveIff`); the ids the
  store accepts have at most 64. Deleting and recreating a key restarts its version, so an envelope of the old one at
  the same version fits the new row (`Vault.RecreationStartsOver`): an envelope fits exactly the rows whose id, kind,
  provider and version are those it was stored under (`Vault.EnvelopeStays`).
- **Overtaken alert stages** "must never fire later", and an operator may change the stage list. Both hold across any
  number of lists if and only if every stage of a later list is, to the second, one of those an earlier list counted as
  overtaken, or narrower than all of them (`Alerts.NarrowsIff`); for whole-second leads: it was in the earlier list or is
  narrower than all of it (`Alerts.CompatibleMeans`). Adding a wider stage breaks it (`Alerts.WidenedScheduleReorders`).
  A lead under a second is never recorded and so never fires (`Alerts.FreshWorkerIsExact`).

## Model

| member | source | states |
|---|---|---|
| `Pricing.WrapThenDivideDetects` | internal/core/ai/compile.go:168-178 | multiply, wrap, divide back: the quotient differs from the price exactly when the int64 product overflowed |
| `Pricing.TokensCostExact` | internal/core/ai/compile.go:168-178 | which inputs are refused, and that the result is the exact ceiling of tokens times price per million unless the round-up wraps |
| `Pricing.EstimateChat` | internal/core/ai/compile.go:115-144 | the estimating loop computes the wrapping fold of the attempts' shares |
| `Pricing.EstimateEmbed` | internal/core/ai/compile.go:149-166 | the same for embeddings |
| `Pricing.EstimateIsTrueMaximum` | internal/core/ai/compile.go:109-144 | an accepted estimate never exceeds the plan's true maximum cost, and equals it exactly when no input product wraps its round-up |
| `Pricing.BoundedPlanAccepted` | internal/core/ai/compile.go:90-98 | a plan whose products round and whose true maximum fits is always accepted |
| `Pricing.SumBelow` | internal/core/ai/compile.go:115-166 | share by share below an accepted sum, a wrapping sum is accepted exactly when no share is negative, and is no larger |
| `Pricing.EstimateMonotone` | internal/core/ai/compile.go:115-144 | with fewer output tokens the estimate is no larger, and exists whenever no input product wraps |
| `Pricing.AdmittedForEveryMaxTokens` | internal/core/ai/compile.go:90-98 | an accepted chat route is admitted for every MaxTokens exactly when it is admitted for one token, which holds whenever no input product wraps |
| `Pricing.EmbedBelowChat` | internal/core/ai/compile.go:149-166 | on an accepted chat plan the embed estimate exists exactly when no input product wraps, and then is no larger than the chat estimate |
| `Pricing.EmbedIsTrueMaximum` | internal/core/ai/compile.go:149-166 | an accepted embed estimate is always the exact true maximum |
| `Pricing.BoundedEmbedAccepted` | internal/core/ai/compile.go:149-166 | an embed plan whose input products round and whose true maximum fits is always accepted |
| `Pricing.ChargeWithinShare` | internal/core/ai/compile.go:181-201 | usage within the limits is charged, without error, no more than the attempt's share of the maximum |
| `Pricing.ChargeExact` | internal/core/ai/compile.go:181-201 | usage whose products round is charged exactly input plus output at their prices, each rounded up, and nothing on a subscription |
| `Pricing.UnderestimatedPlan` | internal/core/ai/compile.go:168-178 | a one-attempt plan accepted at one micro-USD whose output alone is charged over nine trillion |
| `Ledger.SettleKeepsBalance` | internal/core/policy/store.go:155-231 | settling keeps each plugin's hourly, daily and monthly rollup equal to the charges behind it |
| `Ledger.ReleaseKeepsBalance` | internal/core/policy/store.go:235-238 | so does releasing |
| `Ledger.AdmissionExact` | internal/core/policy/store.go:88-147 | what the wrapping admission test decides, however much has been spent: the exact test, except that a sum reaching 2^63 is always admitted |
| `Ledger.ReserveIff` | internal/core/policy/store.go:88-147 | exactly when a reservation is admitted and which refusal it gets otherwise, wrapping sums included; and the row an admission adds |
| `Ledger.AdmissibleMeans` | internal/core/policy/store.go:88-147 | while no sum leaves 64 bits: admitted exactly when the plugin is enabled and used plus maximum is within every limited window |
| `Ledger.TakeIff` | internal/core/policy/store.go:155-238 | settling and releasing fail exactly for an id that is not open or a negative amount, so a second one always fails |
| `Ledger.ReserveUses` | internal/core/policy/store.go:88-147 | an admission uses up its maximum in the hour, day and month it is made in, for its plugin alone |
| `Ledger.SettleUses` | internal/core/policy/store.go:155-231 | settling commits the amount, and gives the reserved maximum back, in exactly the hour, day and month the reservation was made in |
| `Ledger.ReserveKeepsBudgetIff` | internal/core/policy/store.go:88-147 | an admitted reservation keeps spending within the budget in force, or any looser one, in every window if and only if the sum tested fits an int64 |
| `Ledger.RoomyLimitsNeverWrap` | internal/core/policy/store.go:88-147 | limits that leave room for the maximum below 2^63 rule a wrap out beforehand |
| `Ledger.SettleKeepsBudget` | internal/core/policy/store.go:155-231 | settling at or below the reserved maximum keeps every budget |
| `Ledger.ReleaseKeepsBudget` | internal/core/policy/store.go:235-238 | releasing keeps every budget |
| `Ledger.TakeMovesOneId` | internal/core/policy/store.go:155-238 | settling or releasing takes exactly one open reservation, for the stated amount, and leaves the life of every other id alone |
| `Ledger.ReserveOpensOneId` | internal/core/policy/store.go:88-147 | reserving opens exactly one fresh id |
| `PaidCalls.DispatchDiscipline` | internal/core/ai/dispatch.go:161-245 | for every plan and every outcome, early returns included: dispatched attempts are a prefix of the plan and every one but the last failed with a spillover class or was not reached; the call is clean exactly when its last attempt was; execute returns from inside the loop only for a failed row insert or costs that go down or leave 64 bits |
| `PaidCalls.CostStaysReserved` | internal/core/ai/dispatch.go:161-245 | if each reply costs at most its share, no spillover pattern accumulates more than the shares' sum, nothing wraps, and no reply exceeds the maximum, so the accounting check never fires |
| `PaidCalls.ChatNeverOverspends` | internal/core/ai/dispatch.go:20-61 | for an accepted chat route whose inputs do not wrap, usage within the token limits never settles above the reserved maximum |
| `PaidCalls.ReservationBoundsIff` | internal/core/ai/compile.go:109-201 | that promise holds of an accepted chat plan for all in-limit turns if and only if no metered input product wraps its round-up |
| `PaidCalls.EmbedNeverOverspends` | internal/core/ai/dispatch.go:71-103 | the promise for embeddings, with no condition on prices |
| `Settlement.ConcludesProperly` | internal/core/ai/dispatch.go:161-246 | for every plan and all replies: the amount settled is the sum of the costs when something was billed and the bill is known, the reserved maximum when it is unknown, and nothing exactly when nothing was billed; succeeded exactly when the last outcome is clean and the call was not cut short; otherwise the class of the failure |
| `Settlement.OutcomesDescribed` | internal/core/ai/dispatch.go:161-228 | each recorded outcome carries its own attempt, and the cost, billing and error class of its own reply; a failure without a class counts as the provider's |
| `Settlement.SpilloverClasses` | internal/core/ai/service.go:185-192 | the next attempt is tried after a rate limit, an exhausted quota, a provider's own failure and an unsupported request, and after nothing else |
| `CallRecovery.StepKeepsInv` | internal/core/ai/dispatch.go:118-310 | every transaction, crash, sweep and recovery step keeps calls, reservations, charges and attempt rows in agreement |
| `CallRecovery.BootRecoversEverything` | internal/core/ai/service.go:114-141 | after any history with any number of crashes, a completed boot leaves every call finalized, no reservation open, no attempt dispatching, each reservation charged exactly once for the amount its call records, and the rollups equal to the charges |
| `CallRecovery.FinalizedIsCharged` | internal/core/ai/dispatch.go:247-306 | at every moment a finalized call was charged exactly once, for what it records |
| `CallRecovery.FinalizedForever` | internal/core/ai/service.go:203-228 | a finalized row is never rewritten, whatever follows |
| `CallRecovery.FinishEndsRows` | internal/core/ai/dispatch.go:247-306 | settlement leaves no attempt of its call dispatching, and every other row stays in agreement |
| `CallRecovery.OutcomesRecorded` | internal/core/ai/dispatch.go:247-306 | settlement rewrites exactly the rows of the recorded attempts, each to its outcome's status, error class, billing state and cost |
| `CallRecovery.AttemptsEnded` | internal/core/ai/service.go:203-228 | recovery ends exactly the call's dispatching rows, as failed with an unknown bill |
| `CallRecovery.FinalizeExact` | internal/core/ai/service.go:203-228 | the recovery transaction finalizes the call as failed at the maximum, and charges the maximum exactly if the reservation is still open |
| `CallRecovery.BudgetsHold` | internal/core/policy/store.go:88-238 | over whole runs, crashes and changing budgets included, spending stays within the loosest budget in force as long as no call settles above its maximum and no admission sum wraps |
| `Spending.RoutesKeepBudgets` | internal/core/ai/dispatch.go:20-310 | if calls are made on routes the compiler accepted, none of whose chat input prices wraps, providers report usage within the routes' token limits, and no admission sum leaves 64 bits, no run takes a plugin past its budget |
| `Spending.StoriesRespectMaximum` | internal/core/ai/dispatch.go:20-103 | a call on such a route never settles above what its estimate reserved |
| `CallService.Service.SettleOrphanedReservations` | internal/core/policy/store.go:243-282 | the sweep is a run of the step system that charges every leftover reservation, in order, exactly its maximum, and touches no call |
| `CallService.Service.Recover` | internal/core/ai/service.go:114-141 | recovery always completes; every call is finalized at its reserved maximum with its dispatching attempts ended, or keeps what it had settled and its rows |
| `CallService.Service.Boot` | cmd/controlcenter/main.go:169-175 | sweep then recover, from any state a crash leaves, ends serving with nothing open and every call and row as recovery says |
| `CallService.Service.Execute` | internal/core/ai/dispatch.go:118-310 | one call, step by step: not admitted exactly when the ledger refuses or the id is taken; otherwise each attempt is marked before it is dispatched, and the stored call, its rows and the charge are those its replies call for |
| `CallService.Service.RunAttempts` | internal/core/ai/dispatch.go:161-245 | the loop marks each attempt before dispatching it and ends as the specification function says |
| `FeedService.Service.Join` | plugins/bidrl/live.go:63-96 | extends a run of the feed system; the watch set never exceeds 500, a lot is refused only when it is full, and no other lot, cancel or feed changes |
| `FeedService.Service.Leave` | plugins/bidrl/live.go:99-113 | the lot is not watched afterwards, every other one still is, and a rebuild is scheduled exactly when the set changed |
| `FeedService.Service.TakeForRebuild` | plugins/bidrl/live.go:128-144 | the cancel handed over is of a live feed on the set last built and in nobody else's hands; every other live feed is about to be cancelled by another goroutine; every other rebuild is outdated |
| `FeedService.Service.Install` | plugins/bidrl/live.go:155-167 | installs exactly when nothing overtook the rebuild, and then overwrites no cancel and watches the set last built |
| `FeedService.Service.Close` | plugins/bidrl/live.go:170-184 | nothing is watched or pending, the cancel taken is of a live feed nobody else holds, and no rebuild under way can install any more |
| `LiveFeed.StepKeepsInv` | plugins/bidrl/live.go:117-184 | every section, timer firing and cancel keeps the feed's invariant |
| `LiveFeed.NoCancelLost` | plugins/bidrl/live.go:117-184 | in every interleaving a cancel is never overwritten: each feed ever opened is held, cancelled, or about to be cancelled; at most 500 lots |
| `LiveFeed.QuietFeedMatches` | plugins/bidrl/live.go:63-184 | with no timer pending and nothing under way there is exactly one live feed, on exactly the watched lots, or none when none is watched |
| `LiveFeed.LiveIff` | plugins/bidrl/live.go:117-184 | in every state a feed is live if and only if `stop` holds its cancel or some goroutine is about to call it |
| `LiveFeed.OverlapIff` | plugins/bidrl/live.go:146-153 | exactly when two feeds are live at once |
| `LiveFeed.TwoFeedsMayOverlap` | plugins/bidrl/live.go:146-153 | mid-rebuild two feeds can be live, because cancels run outside the lock |
| `Handshake.Validate` | internal/core/browser/subscribe.go:136-165 | the checks refuse exactly the handshakes outside the frame-count, frame-size, JSON and total-size limits, for the first frame at fault |
| `Handshake.FrameIsJson` | plugins/bidrl/live.go:355-373 | each subscribe frame is a well-formed JSON object |
| `Handshake.FrameSpelled` | plugins/bidrl/live.go:355-373 | the text of a frame: the lot's own channel under data, and the subscribe event |
| `Handshake.HandshakeAccepted` | plugins/bidrl/live.go:355-373 | every handshake built from a watch set of plain ids up to 455 bytes passes, for any JSON validator that accepts RFC 8259 texts nested at most 10000 deep |
| `Handshake.LongerIdsRefused` | internal/core/browser/subscribe.go:136-165 | 455 is exact: a full watch set of longer ids is refused |
| `JsonScan.FindFirstObject` | plugins/bidrl/analyze.go:284-318 | the scanning loop computes the specification scanner |
| `JsonScan.FindsTheObject` | plugins/bidrl/analyze.go:284-318 | for every well-formed object (RFC 8259 sections 4 to 7), any prefix without `{` and any suffix, exactly the object is returned |
| `JsonScan.TruncatedObjectRejected` | plugins/bidrl/analyze.go:284-318 | an object cut off anywhere yields nothing |
| `SlotLists.CommitInPlace` | internal/core/browser/browser.go:353-365 | the first placeholder becomes the session, in place |
| `SlotLists.ReleaseInPlace` | internal/core/browser/browser.go:338-351 | the last placeholder is removed in place, the rest keep their order |
| `SlotLists.DropInPlace` | internal/core/browser/browser.go:367-382 | filtering in place keeps exactly the other entries, in order |
| `SlotLists.ReleasedExact` | internal/core/browser/browser.go:338-351 | one placeholder fewer, every session kept |
| `SlotLists.ReleasedFromTheEnd` | internal/core/browser/browser.go:338-351 | it is the last placeholder that goes, and all other entries keep their order |
| `SlotLists.CommittedExact` | internal/core/browser/browser.go:353-365 | one placeholder fewer, that session more |
| `SlotLists.CommittedInPlace` | internal/core/browser/browser.go:353-365 | the session takes the place of the first placeholder |
| `SlotLists.DroppedExact` | internal/core/browser/browser.go:367-382 | that session gone, all else kept |
| `SlotLists.DroppedAround` | internal/core/browser/browser.go:367-382 | the entries before and after it close up in order |
| `BrowserSlots.EditFrame` | internal/core/browser/browser.go:324-382 | an edit of one plugin's list through the heap changes no other plugin's list and never makes two lists share an array |
| `BrowserSlots.PrivateStays` | internal/core/browser/browser.go:262-277 | no later edit reaches the slice ClosePlugin detached |
| `BrowserSlots.StepKeepsInv` | internal/core/browser/browser.go:262-382 | every step of Open, Close and ClosePlugin keeps the slot invariant |
| `BrowserSlots.SlotsBounded` | internal/core/browser/browser.go:280-365 | in every interleaving a plugin's list stays within the limit and placeholders never outnumber the Opens in flight |
| `BrowserSlots.ClosePluginCloses` | internal/core/browser/browser.go:262-277 | when ClosePlugin is done every session of its plugin committed before it is closed, or is about to be closed by another ClosePlugin of the same plugin |
| `BrowserSlots.ClosesAllIff` | internal/core/browser/browser.go:262-277 | a ClosePlugin closes every session its plugin had at its start, for every continuation up to its end, if and only if each of them was then closed or still in the plugin's list |
| `BrowserSlots.LoneCloseIsComplete` | internal/core/browser/browser.go:262-277 | in particular when no other ClosePlugin of the plugin is under way at its start, whatever starts later |
| `BrowserSlots.SecondCloseReturnsEarly` | internal/core/browser/browser.go:262-277 | the exception is real |
| `SlotService.Service.ReserveSlot` | internal/core/browser/browser.go:324-336 | admits below the limit only, appending one placeholder to this plugin's list alone |
| `SlotService.Service.ReleaseReservation` | internal/core/browser/browser.go:338-351 | removes one placeholder from this plugin's list alone |
| `SlotService.Service.CommitSession` | internal/core/browser/browser.go:353-365 | turns a placeholder into the session, or reports that none is left |
| `SlotService.Service.DropSession` | internal/core/browser/session.go:111-138 | removes the session from its plugin's list alone |
| `Alerts.WarnStages` | plugins/bidrl/warn.go:40-72 | the stages are exactly the usable configured leads, each once, tightest first |
| `Alerts.DueStage` | plugins/bidrl/warn.go:189-199 | the tightest due stage, if any |
| `Alerts.PassMeans` | plugins/bidrl/warn.go:141-199 | one pass over a lot alerts for the tightest window the lot has entered and no alert is known for, unless it is under a second or recorded by another worker, and records exactly that stage and the wider ones; otherwise it changes nothing |
| `Alerts.BuildCandidates` | plugins/bidrl/warn.go:76-140 | one candidate per lot, in the order of the lots' first rows, with the first row's close time and all leads recorded |
| `Alerts.AlertsNarrow` | plugins/bidrl/warn.go:141-185 | for any number of workers, any stale reads and moving close times, one lot's alerts have strictly decreasing leads |
| `Alerts.FreshWorkerIsExact` | plugins/bidrl/warn.go:141-199 | a worker with current rows publishes exactly the tightest due stage, or nothing if that is under a second, and repeating it publishes nothing |
| `Alerts.AlertStore.WarnJob` | plugins/bidrl/warn.go:141-185 | the job's transactions are that sequence of decisions |
| `Alerts.NarrowsIff` | plugins/bidrl/warn.go:14-19 | across any sequence of stage lists, any workers and any stale reads, every lot's alerts narrow if and only if each list is compatible with every earlier one |
| `Alerts.CompatibleMeans` | plugins/bidrl/warn.go:14-19 | for whole-second leads: each stage was in the earlier list or is narrower than all of it |
| `Alerts.WidenedScheduleReorders` | plugins/bidrl/warn.go:58-61 | with a wider stage added later, a wider alert can follow a narrower one |
| `Alerts.RecordedMeans` | plugins/bidrl/warn.go:76-140 | the leads gathered for a lot are exactly those some row records |
| `Envelope.BindInjective` | internal/core/credentials/crypto.go:82-101 | no two tables, rows, kinds, providers, versions or key versions share an encoding, for strings below 2^32 bytes |
| `Envelope.InjectiveIff` | internal/core/credentials/crypto.go:82-101 | a length bound makes the encoding injective if and only if it is at most 2^32 |
| `Envelope.DecryptsOnlyItsOwn` | internal/core/credentials/crypto.go:23-80 | an envelope decrypts under a binding if and only if it is its own row and version, and then gives the secret back |
| `Envelope.BindLayout` | internal/core/credentials/crypto.go:82-101 | the bytes bound to an envelope: each name after its 32-bit length, then both versions in 64 bits, most significant byte first |
| `Envelope.EncryptMeans` | internal/core/credentials/crypto.go:23-52 | sealing fails exactly for want of a 32-byte active key, and otherwise gives a format-1 envelope for that row, key version and secret |
| `Envelope.DecryptMeans` | internal/core/credentials/crypto.go:54-80 | a stored envelope opens exactly when it is readable and sealed under the key of its version for this row, to what was sealed; a missing key has its own error |
| `Vault.VerifyAll` | internal/core/credentials/store.go:169-207 | succeeds exactly when every stored row and every unconsumed sign-in state decrypts under its own identity |
| `Vault.FitsIff` | internal/core/credentials/store.go:169-207 | an envelope opens for a row, or for a pending sign-in, exactly when it was sealed under that table, key, kind, provider and version |
| `Vault.RunsVerify` | internal/core/credentials/admin.go:57-189 | after any create, replace, rotate, delete and reference change, under any active key version, the startup check passes |
| `Vault.KeysHoldTheirSecrets` | internal/core/credentials/admin.go:57-189 | after any requests each API key opens to the secret of its last accepted request, and no other key exists |
| `Vault.CreateStores` | internal/core/credentials/admin.go:94-138 | an accepted create stores a key at version 1 that opens to the given secret, and changes no other row |
| `Vault.ReplaceStores` | internal/core/credentials/admin.go:148-189 | an accepted replacement or rotation makes the key open to the new secret at the next version, and changes no other row |
| `Vault.AcceptedIff` | internal/core/credentials/admin.go:57-189 | exactly when create, replace, rotate and delete are accepted |
| `Vault.RefusalsNameTheFault` | internal/core/credentials/admin.go:57-189 | otherwise the error is the first fault in the order of the checks |
| `Vault.RefsIff` | internal/core/credentials/store.go:264-285 | references are replaced exactly when the owner is named and the credentials exist and differ; then the owner refers to exactly those and the others to what they did |
| `Vault.CheckId` | internal/core/credentials/store.go:348-361 | the id check accepts exactly a lower-case letter followed by up to 63 lower-case letters, digits, underscores and hyphens |
| `Vault.EveryRunIsSound` | internal/core/credentials/admin.go:94-189 | and no stored envelope opens under any other row, or its own row at another version |
| `Vault.RestartIff` | internal/core/credentials/store.go:50-57 | a start with another key table succeeds if and only if it keeps every key a stored envelope was sealed under |
| `Vault.EveryRestartSucceeds` | internal/core/credentials/store.go:87-127 | while key tables only grow, every start succeeds, whatever was served in between |
| `Vault.SwapIsCaught` | internal/core/credentials/store.go:169-187 | exchanging two rows' envelopes fails the startup check |
| `Vault.RollbackIsCaught` | internal/core/credentials/admin.go:148-189 | so does putting the previous envelope back after a replacement |
| `Vault.EnvelopeStays` | internal/core/credentials/crypto.go:54-101 | a stored envelope opens under a row's identity if and only if that is the identity it was stored under |
| `Vault.RecreationStartsOver` | internal/core/credentials/admin.go:57-138 | after delete and create the old first envelope fits the new row |
| `Vault.TransactKeepsAudited` | internal/core/credentials/admin.go:57-189 | every API key's version is the one its last audit entry names, and deleted ones are absent |
| `VaultStore.Store.CreateAPIKey` | internal/core/credentials/admin.go:94-138 | accepted exactly when the rules allow; its errors in order, its row, which opens to the given secret, its audit entry, and that all rows still open |
| `VaultStore.Store.ReplaceAPIKey` | internal/core/credentials/admin.go:148-189 | accepted exactly when the rules allow; the row opens to the new secret at the next version, the others are unchanged and all still open |
| `VaultStore.Store.Delete` | internal/core/credentials/admin.go:57-92 | accepted exactly for an existing credential nobody refers to, which is then gone with every other row unchanged |
| `VaultStore.Store.ReplaceReferences` | internal/core/credentials/store.go:264-285 | the owner's references become exactly the given distinct, existing credentials, others untouched |
| `VaultStore.Start` | internal/core/credentials/store.go:87-127 | a store exists exactly when all keys are 32 bytes, the active one is there, and every row and pending sign-in opens |
| `Configuration.CompileRoute` | internal/core/ai/compile.go:38-100 | the compiler's loop and checks give a route whose attempts carry, field by field, their stored attempt and its provider, up to the first error, and that error |
| `Configuration.PlanExact` | internal/core/ai/compile.go:61-89 | attempts resolve in order up to the first that cannot: id, kind, base URL, credential, model and both prices are those stored, and an attempt is metered exactly when its provider is not on subscription |
| `Configuration.CompileExact` | internal/core/ai/compile.go:38-100 | a compiled route carries its stored fields, all its attempts when it is usable, and the first refusal in the order of the checks when it is not |
| `Configuration.BoundedRouteCompiles` | internal/core/ai/compile.go:46-100 | a well-formed, priced route whose true maximum fits compiles without error |
| `Configuration.ProviderIff` | internal/core/ai/providers.go:124-177 | a provider is stored exactly when it is acceptable, as asked for, with Codex on subscription and blanks filled in |
| `Configuration.ProviderRefused` | internal/core/ai/providers.go:124-177 | which refusal it gets otherwise |
| `Configuration.AlwaysAgrees` | internal/core/ai/store.go:96-285 | after any sequence of provider, route and credential requests, killed after any commit: no dangling reference, "ai.providers" refers to exactly the providers' credentials, every stored attempt names a provider, the compiled table equals compiling the stored routes |
| `Configuration.ReloadAgrees` | internal/core/ai/store.go:96-133 | a reload of consistent tables never fails and makes everything agree |
| `Configuration.KilledIsServed` | internal/core/ai/service.go:101-107 | dying between a commit and its reload ends, after restart, in the state serving it would have reached |
| `Configuration.DeletionBreaksNoRoute` | internal/core/ai/store.go:182-221 | an accepted provider deletion leaves every compiled route as it was |
| `Configuration.StoredRouteIsUsable` | internal/core/ai/store.go:223-271 | a route just stored is usable with all its attempts, each carrying its stored fields and its provider's, and no other route changes |
| `Configuration.CompiledIsBounded` | internal/core/ai/compile.go:46-100 | a route compiled without error has positive limits, all its attempts and, if it takes chats, positive prices and a finite estimate |
| `Configuration.UsableRouteIsBounded` | internal/core/ai/compile.go:46-100 | so has every usable chat route in memory |
| `Configuration.PlannedCredentialsExist` | internal/core/ai/store.go:118-133 | every attempt in memory uses a credential that exists and is protected from deletion |
| `Configuration.DeletableIff` | internal/core/credentials/admin.go:57-92 | a credential can be deleted exactly when no provider uses it and no other owner refers to it |
| `ConfigService.Service.Refresh` | internal/core/ai/store.go:96-133 | compiles every route, collects distinct credentials and replaces the references |
| `ConfigService.Service.PutProvider` | internal/core/ai/store.go:152-180 | its errors, its new state, and that everything still agrees |
| `ConfigService.Service.DeleteProvider` | internal/core/ai/store.go:182-221 | refused exactly while unknown or while a stored attempt uses it; otherwise only that provider leaves the tables and no compiled route changes |
| `ConfigService.Service.PutRoute` | internal/core/ai/store.go:223-271 | stores exactly what compiles, as given, and then it is usable |
| `ConfigService.Service.DeleteRoute` | internal/core/ai/store.go:273-285 | the route and its attempts leave the tables and memory, and nothing else does |
| `ConfigService.Service.ChangeCredential` | internal/core/credentials/admin.go:57-189 | credential changes keep everything in agreement and never touch memory |
| `Patterns.MatchSegments` | internal/core/events/pattern.go:117-145 | the loop with recursion at `**` computes the recursive matcher |
| `Patterns.MatchIffSpelled` | internal/core/events/pattern.go:111-145 | a pattern matches exactly when some assignment of segments to its wildcards spells the type |
| `Patterns.MatchOnStrings` | internal/core/events/pattern.go:111-145 | the same on whole strings: dotted patterns and types match exactly when some assignment of segments to the wildcards spells the type |
| `Patterns.SplitDotless` | internal/core/events/pattern.go:111-113 | splitting leaves no dot in any segment |
| `Patterns.SplitJoin` | internal/core/events/pattern.go:111-113 | segments without dots, joined and split again, come back |
| `Patterns.Compile` | internal/core/events/pattern.go:88-99 | the compiler's loop accepts exactly the patterns the specification accepts |
| `Patterns.CompilesTo` | internal/core/events/pattern.go:88-99 | dotted wildcards and valid segments compile to exactly those segments |
| `Patterns.CheckSegment` | internal/core/events/pattern.go:59-71 | the segment check accepts exactly a lower-case letter followed by lower-case letters, digits and underscores |
| `Patterns.SwapWildcards` | internal/core/events/pattern.go:117-145 | swapping adjacent `*` and `**` anywhere changes nothing |
| `Patterns.CollapseMany` | internal/core/events/pattern.go:117-145 | adjacent `**` collapse |
| `Patterns.HostMatch` | host/hosttest/events.go:145-180 | the test double agrees with the core matcher on every pattern that compiles, matches everything on the empty one, and otherwise matches exactly when the strings, cut at their dots, are spelled by some assignment of segments to wildcards |
| `Patterns.SqlPrefix` | internal/core/events/pattern.go:150-166 | the builder yields the joined leading literals, up to the first wildcard |
| `Patterns.PrefixIsNecessary` | internal/core/events/pattern.go:150-166 | every matching type equals the prefix or continues it with a dot |
| `Temperature.TemperatureBands` | plugins/tid/insight.go:229-259 | the bands are disjoint, lie between neighbouring edges, hold exactly their days' count and usage, and cover every day with usage |
| `Temperature.OneDayTally` | plugins/tid/insight.go:399-407 | a day counts by its high, else its average, else its low, in the range that temperature falls into, unless it used nothing |
| `Temperature.NoTemperatureTally` | plugins/tid/insight.go:399-407 | a day without any temperature counts nowhere |
| `Temperature.TalliesAdd` | plugins/tid/insight.go:231-259 | counts and usage add up over the parts of a history |
| `Temperature.WindowStats` | plugins/tid/insight.go:319-342 | the accumulating loop computes the window's sums |
| `Temperature.WindowsAdd` | plugins/tid/insight.go:319-342 | the window over a history is the field-by-field sum of the windows over its parts |
| `Temperature.OneDayWindow` | plugins/tid/insight.go:319-342 | what one day contributes: nothing outside the dates, otherwise its usage, peak usage and temperature |
| `Temperature.OneDayExpected` | plugins/tid/insight.go:385-397 | its expectation is the average of the first band of three days or more around its temperature, and none if it used nothing or no such band exists |
| `Temperature.BeforeMeans` | plugins/tid/insight.go:319-342 | days are compared as strings, by the first character that differs |
| `Temperature.ExpectationBalances` | plugins/tid/insight.go:319-342 | over a whole history the temperature-matched expectation sums to exactly the usage on the matched days, whichever bands are thin |
| `Temperature.WholeHistory` | plugins/tid/insight.go:229-342 | the same of the two loops run one after the other on the program's own edges |
| `DayMerge.MergeDays` | plugins/tid/parse.go:469-518 | the pass over a map of accumulators gives one reading per day, in first-seen order, with that day's totals |
| `DayMerge.MergingChunksIsMergingAll` | plugins/tid/collect.go:148-176 | merging chunks that were merged already equals merging all the raw readings |
| `DayMerge.MergeConserves` | plugins/tid/parse.go:469-518 | kWh, cost and peak usage of the named days are conserved |
| `DayMerge.MergedExact` | plugins/tid/parse.go:469-518 | one merged reading for each named day and no other; each amount is present exactly when some reading of the day has it, and is their sum |
| `DayMerge.FirstTemperatureSurvives` | plugins/tid/parse.go:520-538 | a merged day carries exactly the first temperature present |
| `DayMerge.OrderIsFirstSeen` | plugins/tid/parse.go:479-508 | of two merged days, some prefix of the input names the earlier and not the later |
| `Cleanup.PinnedLotsStay` | plugins/bidrl/cleanup.go:109-126 | a saved or undecided lot stays, with its auction, mark, findings and images |
| `Cleanup.SurvivorsExact` | plugins/bidrl/cleanup.go:127-159 | of a known auction exactly the pinned lots survive, and the open ones unless the auction goes |
| `Cleanup.TidyExact` | plugins/bidrl/cleanup.go:42-100 | every auction, lot and site after a tidy: which rows stay, unchanged but for the hidden mark of ended auctions |
| `Cleanup.DependentsFollow` | plugins/bidrl/cleanup.go:42-100 | marks, findings and images go with their lot and with nothing else |
| `Cleanup.KeptMeans` | plugins/bidrl/cleanup.go:144-152 | a lot is reported kept exactly when it is pinned and would have been removed with nothing pinned |
| `Cleanup.EarlierTidyIsAbsorbed` | plugins/bidrl/cleanup.go:42-100 | tidying early never changes what a later tidy leaves; with equal times, idempotence |
| `Cleanup.SecondTidyFindsNothing` | plugins/bidrl/cleanup.go:42-100 | tidying again at the same instant drops nothing and newly hides nothing |
| `Cleanup.KeptStableIff` | plugins/bidrl/cleanup.go:144-152 | the same lots are reported kept again exactly when no auction rests on unpinned lots alone for its end |
| `Cleanup.KeptDrifts` | plugins/bidrl/cleanup.go:144-152 | a lot reported kept once and then no longer |
| `CleanupJob.AuctionEnded` | plugins/bidrl/query.go:201-218 | the auction's own close has passed, or some lot recorded one and every recorded one has passed |
| `CleanupJob.CleanupPlan` | plugins/bidrl/cleanup.go:127-159 | exactly when the auction is dropped or hidden, which lots go, and how many are counted kept |
| `CleanupJob.LoadCleanupAuctions` | plugins/bidrl/cleanup.go:173-219 | every auction once with every one of its lots once, in any order |
| `CleanupJob.Store.CleanupExpired` | plugins/bidrl/cleanup.go:42-100 | whatever order rows are read in, the tables end as specified and the counts are the sizes of what changed |
| `CleanupJob.SecondRunCountsNothing` | plugins/bidrl/cleanup.go:42-100 | a second run at the same instant changes no table and counts no work |
| `Backoff.BackoffDelay` | host/hosttest/jobs.go:246-261 | the doubling loop computes the specified delay; the handler's own delay is used as it is, and a policy without an initial wait waits for nothing |
| `Backoff.CappedIff` | host/hosttest/jobs.go:244-261 | every wait is min(initial * 2^(n-1), maximum) if and only if the initial wait is within the maximum and the doubling that meets it fits 64 bits |
| `Backoff.SensiblePolicies` | host/hosttest/jobs.go:244-261 | for maxima up to 2^62 ns that fails for one pair only |
| `Backoff.FirstWaitIsNotCapped` | host/hosttest/jobs.go:244-261 | an initial wait above the maximum is used once uncapped |
| `Backoff.UncappedIff` | host/hosttest/jobs.go:244-261 | without a maximum a wait is the exponential exactly while that is below 2^63 |
| `RetryJobs.TwoLiveMeansRevived` | host/hosttest/jobs.go:42-87 | in every interleaving two live jobs of one key mean that an attempt revived an ended one |
| `RetryJobs.StepEffect` | host/hosttest/jobs.go:89-242 | what a cancel, pick-up, attempt and finish do to their job and run, and that other jobs, keys and index entries stay |
| `RetryJobs.OneLivePerKey` | host/hosttest/jobs.go:42-87 | in an orderly run, where a keyed job is cancelled only if no run with an attempt left has it in hand and picked up only if no run has, there is never more than one live job per key |
| `RetryJobs.SafeIff` | host/hosttest/jobs.go:192-242 | after an orderly run a step can be followed by enqueueing, beginning and finishing to two live jobs of a key if and only if it is not orderly |
| `RetryJobs.LastAttemptMayBeCancelled` | host/hosttest/jobs.go:211-242 | a Cancel during the last attempt is orderly |
| `RetryJobs.CancelInFlightDoubles` | host/hosttest/jobs.go:89-107 | cancelling a job a run is about to begin lets a second one in |
| `RetryJobs.SecondRunDoubles` | host/hosttest/jobs.go:263-285 | so does a second run of a job another run has in hand |
| `JobRunner.Jobs.Enqueue` | host/hosttest/jobs.go:42-87 | returns the live job of the key if there is one, otherwise adds a queued job with at least one attempt |
| `JobRunner.Jobs.Cancel` | host/hosttest/jobs.go:89-107 | turns a live job into a cancelled one and refuses others |
| `JobRunner.Jobs.Run` | host/hosttest/jobs.go:192-242 | the handler is called for attempts 1, 2, ... until success, a permanent error, the last attempt or a closed gate; done exactly if the last one succeeded; the clock moves by the sum of the waits; only this job changes, to succeeded or failed at that attempt |
| `JobRunner.EndIsUnique` | host/hosttest/jobs.go:211-242 | there is exactly one attempt a run can end at |
| `JobRunner.EndMeans` | host/hosttest/jobs.go:211-242 | it is the first that is not a retryable failure of an open gate, or the last allowed |
| `JobRunner.VerdictMeans` | host/hosttest/jobs.go:211-242 | done exactly when the last attempt ran and succeeded, disabled exactly when the gate was closed, otherwise that attempt's own error, permanent or on the last attempt |
| `JobRunner.IdempKeyIff` | host/hosttest/jobs.go:42-87 | two keyed jobs share an index entry exactly when name and key agree or a zero byte inside a name hides the boundary |
| `JobRunner.WaitsAreCapped` | host/hosttest/jobs.go:238-261 | under a sensible policy each wait is what the handler asked for, or else the capped exponential |
| `JobRunner.RunIsSteps` | host/hosttest/jobs.go:192-242 | what a run leaves is what a pick-up, its attempts and a finish leave as steps of the interleaving queue, each of which that queue allows |

## Left out

- Provider adapters, Playwright, the CONNECT proxy, websockets and HTTP clients: a provider's reply is any cost, billing flag and error class.
- SQL text, SQLite and failures inside a transaction: a transaction commits entirely or not at all, and statements whose errors the code ignores are taken to succeed.
- Token counts, response bodies and published usage events of a paid call: they do not affect the ledger.
- Int64 overflow of the committed rollups themselves: rollups are unbounded sums, while the admission test on them wraps.
- Enabling and disabling plugins and policy events; a budget raised or lowered during a run is any budget an admission finds in force.
- CallRecovery.BudgetsHold: assumes that no admission sum wraps; `Ledger.ReserveKeepsBudgetIff` shows that this is necessary.
- Spending.RoutesKeepBudgets: assumes that no chat input price wraps and no admission sum does; `PaidCalls.ReservationBoundsIff` and `Ledger.ReserveKeepsBudgetIff` show that each is necessary.
- PaidCalls.ChatNeverOverspends: assumes no input product wraps; `PaidCalls.ReservationBoundsIff` shows that this is necessary.
- Reservation, call and session ids are taken never to repeat; the code draws them at random.
- Sorting in `warnStages`, `subscribeFrames` and `reload` uses the library; results are proved for every order or for the sorted one.
- The bid feed's socket loop, event parsing and storage of bids, and the host's page and subscription caps, which are checked in one critical section and acted on in another.
- The policy gate between Open and ClosePlugin, and the service-wide page count, which is a free answer in `SlotService.Service.ReserveSlot`.
- Alert rows deleted together with a lot: a lot that is removed and collected again starts over.
- Creating, refreshing and consuming OAuth credentials and sign-in states; those stored must open at startup, and whether a token decodes is given.
- AES-GCM is an ideal AEAD and nonces are given; JSON encoding of an envelope is a parsed record or not one.
- Trimming of administrator input, URL parsing and the model catalog; whether a base URL is acceptable is given with the request. The seed file is a sequence of ordinary requests.
- Administration requests run one at a time: PutRoute checks providers outside its transaction, so concurrent requests are not covered.
- Cleanup runs undisturbed: a lot saved between reading and deleting is not covered. Other tables hanging off a lot are represented by favorites, findings and images, and the cached lot count and blob deletion are left out.
- Parsing of close times, dates, CSV, HTML and JSON readings; a close time is empty, unreadable or an instant.
- Floating-point rounding: `DayMerge` and `Temperature` use exact reals, and merged cents are unbounded integers.
- Job arguments, progress, logs, timeouts and time stamps; job numbers do not wrap; in `JobRunner` handlers do not call back into the queue.
- Call-log paging, vector search, prompts, views, HTTP handlers, migrations and the web frontend: no property of this kind.
