# ProofOps: spend control, scope selection and span algebra in Dafny

This project models the parts of the ESG ProofOps repository where state, money, caps and
text offsets interact, and proves what those parts are there to guarantee.

* **Money and rate.** The E05 transport matrix (workers that share a lock, a spaced start
  time, a reservation and a stop latch), the sixty-second request limiter, the shared spend
  file that several processes rewrite behind a lock directory, the SQLite spend guard, one OCR
  dispatch under both fences, many dispatches at once, and the cost plan of a live claim.
  `TransportMatrix`, `SpendLedger` and `DispatchRuns` are state machines over every
  interleaving; the last two also let a process die, give up at the lock or be interrupted
  between any two steps. The methods of the classes `Matrix`, `Limiter`, `Guard`, `OcrBudget`
  and `Pilot` loop and branch as the source does and are proved against the functions that the
  theorems are about.
* **Selection.** The caps of the scope plan and the compact scope planner on top of it (bundles,
  then single pages by priority, under 18 or 14 pages, with the 30-page fallback), the packet
  builder of the claim prefilter, and the round-robin choice of report paragraphs.
* **Text offsets.** Sentence boundaries and their printed ids, the resolution of returned ids
  and quotes, whole runs of the atomic pilot with every target range tiled by spans and gaps,
  the display text with deleted characters and its boundary table, outline breadcrumbs and font
  runs, and the tokens, quotes and role tags of claim dimensions.

The main loops of the source are methods proved against a specification function or against a
direct statement of its result; the theorems are about those specifications. Every decision
(admit or refuse, pass or stop, take or leave out) also has a theorem that states it in both
directions over its arguments, without the function that computes it.

## How to read it

Text is `seq<char>`; money, time and density are exact reals. Packet size, lexical signal,
quotation guards and the period and amount rules are arbitrary functions, so what is proved
holds for all of them. Python exceptions are failures of `Result` or `Option`.

Modules: `TransportMatrix`, `RateLimiter`, `SpendGuard`, `SpendLedger`, `OcrDispatch`,
`DispatchRuns`, `ReplicaCost`, `ScopePlan`, `ScopeBuild`, `Prefilter`, `BlockSelection`,
`Sentences`, `SentenceSelection`, `AtomicPilot`, `PilotRun`, `DisplayMap`, `Outline`,
`Dimensions`, `Tokens`, `TokenProposals`, `RoleTags`, `RoleProposals`, and the helpers `Text`
and `Wrappers`.

## What the code does not do

Where a property fails, the code is modelled as it is and the exact condition is proved.

* The two ledgers of an OCR dispatch do not always move by the same amount. They part when the
  closing transaction gives up at the lock after a paid call, although nothing was interrupted
  (`OcrDispatch.GaveUpExample`), and when an interrupt that the source does not catch strikes
  between the grant and its settlement (`OcrDispatch.InterruptExample`). The exact condition
  over the receipt, the point of the interrupt and the closing transaction is
  `OcrDispatch.LedgersAgreeIff`. Over interleaved dispatches the spend file still brackets the
  guard until such an interrupt: `DispatchRuns.FileBracketsGuard`.
* An interrupt between reading the amount of a receipt and checking it charges the spend file
  that unchecked amount (`OcrDispatch.ChargedInBoundIff`); `OcrDispatch.OverchargeExample` is a
  dispatch that takes a file out of its caps in this way. A settlement is safe on every file
  exactly when it charges at most its bound (`SpendLedger.SettleSafeIff`, with a file that
  breaks its cap in `SpendLedger.FullFileExample`); over whole runs the caps hold up to the sum
  of such excesses (`SpendLedger.NeverOverspent`).
* The exclusion marker of a page row is written as a long string, but only its first half is
  ever filtered out, so a page excluded once and selected later still says that it is excluded:
  `ScopePlan.MarkerTruthfulIff`, with an input in `ScopePlan.StaleMarkerExample`.
* `count == 1` is weaker than a single occurrence: "aa" is counted once in "aaa". Restoring a
  display quote gives the smallest raw span exactly when the occurrence is unique with overlaps
  counted: `DisplayMap.UniqueIff`, `DisplayMap.OverlapExample`, `DisplayMap.RestoredSmallestIff`.
* The in-line assertion that a settled cost is within the reservation is safe exactly for bodies
  that allow at most 4535 completion tokens; the frozen bodies allow 4096:
  `TransportMatrix.CostAssertionSafeIff`.
* A short S18 scope selects the candidates only, so it loses a claim that is no candidate
  (`ScopePlan.LostClaimExample`); the exact condition is in `ScopePlan.NothingSilentlyLost`. The
  plans of `build_scope` put every selected claim into the evidence, so on them S18 keeps
  everything or reports failure: `ScopeBuild.GuaranteeOfS18`.
* A selection above eighteen pages is not rejected when the claims alone exceed the cap and
  nothing else must be kept: `ScopePlan.AboveCapIff`, with nineteen claims in
  `ScopePlan.NineteenClaimsExample`. The plans of `build_scope` have at most ten claims and never
  reach this.

## Model

| member | source | states |
|---|---|---|
| TransportMatrix.Exposure | evaluation/e05_transport_matrix.py:374-400 | a recorded exposure lies between zero and the reservation, whatever the reply |
| TransportMatrix.ExposureIff | evaluation/e05_transport_matrix.py:374-400 | there is no record exactly for a live success whose usage is invalid or costs more than the reservation at the price per token; any other live reply than a success keeps the whole reservation, an echo costs nothing |
| TransportMatrix.CostAssertionSafeIff | evaluation/e05_transport_matrix.py:379-393 | the cost assertion can fail for some valid usage if and only if the body allows more than 4535 completion tokens |
| TransportMatrix.FrozenBodyCost | evaluation/e05_transport_matrix.py:46-46 | with at most 4096 completion tokens a valid usage costs at most 0.0067584, and is recorded as such |
| TransportMatrix.Matrix.Admit | evaluation/e05_transport_matrix.py:251-264 | waits for the spacing; refuses exactly when stopped, at 28 attempts or above half a dollar, and then changes nothing; else adds one start, one reservation and the count of the last second, and lets the next start wait a second after case H6 and a quarter of a second after any other |
| TransportMatrix.RefusesIff | evaluation/e05_transport_matrix.py:255-256 | refused exactly when stopped, after 28 attempts, or above half a dollar with one more reservation, which the attempts never reach |
| TransportMatrix.Matrix.Classify | evaluation/e05_transport_matrix.py:401-424 | counts consecutive 403 replies and sets the latch exactly on the third, on a 401 or 429, on a listed error code, or on a 403 for an invalid request |
| TransportMatrix.Matrix.Fail | evaluation/e05_transport_matrix.py:425-429 | a failed live call sets the latch |
| TransportMatrix.Matrix.Record | evaluation/e05_transport_matrix.py:434-435 | appends the finished record and nothing else |
| TransportMatrix.RateLimit | evaluation/e05_transport_matrix.py:251-257 | in every reachable state of every interleaving a start comes at least a second after one of case H6 and at least a quarter of a second after any other, and no half-open second holds more than four |
| TransportMatrix.AloneForASecond | evaluation/e05_transport_matrix.py:251-257 | nothing starts in the second after a start of case H6, now or later |
| TransportMatrix.InWindowCounts | evaluation/e05_transport_matrix.py:259-263 | the window counts are the sizes of the sets of starts in the window |
| TransportMatrix.RecordedRate | evaluation/e05_transport_matrix.py:259-263 | the number of recent requests that an admission records is at most four |
| TransportMatrix.WindowBound | evaluation/e05_transport_matrix.py:37-45 | any window of k quarter seconds holds at most k starts that are spaced by their cases |
| TransportMatrix.SpendBounded | evaluation/e05_transport_matrix.py:437-438 | in every reachable state the reservation is 0.007 times the starts and at most 0.196, exposures sum to at most the reservation, and a finished round has one record per start |
| TransportMatrix.UncertainKeepsReserve | evaluation/e05_transport_matrix.py:266-276 | in every reachable state of a live matrix the calls that came back expose a whole reservation for each that faulted or was no success, and the finished records show it |
| TransportMatrix.StoppedIff | evaluation/e05_transport_matrix.py:401-429 | the latch is set exactly when the history of completions holds three denials in a row, a rejection, or a live fault |
| TransportMatrix.ThreeDenialsSnoc | evaluation/e05_transport_matrix.py:402-406 | the counter of consecutive denials detects exactly the histories with three denials in a row |
| TransportMatrix.StopIsFinal | evaluation/e05_transport_matrix.py:255-256 | once stopped, always stopped: no start is added and fewer calls than workers are in flight, with two workers at most one |
| TransportMatrix.OnlyTheLatchRefuses | evaluation/e05_transport_matrix.py:467-481 | in the planned fourteen rounds of two bodies a worker is refused if and only if the matrix has stopped |
| RateLimiter.ClientIp | api/_limits.py:71-71 | the bucket name is never empty, holds no comma and has no blank at its ends |
| RateLimiter.ProxiesDoNotChangeTheBucket | api/_limits.py:71-71 | whatever follows the first comma of the forwarded list does not change the bucket |
| RateLimiter.Limiter.Evict | api/_limits.py:74-75 | popping the front of the deque leaves exactly the admissions of the last sixty seconds |
| RateLimiter.Limiter.Mine | api/_limits.py:76-76 | counts the entries of one client in the deque |
| RateLimiter.Limiter.CheckLimits | api/_limits.py:63-80 | with valid settings a request is rate limited exactly when the last sixty seconds hold the total, or its client the client limit; any other takes a slot, and passes exactly when usage is readable and below the daily cap, at most 7 with the combined budget; the deque is the history filtered to sixty seconds |
| RateLimiter.EvictedIsLive | api/_limits.py:74-75 | for ordered times, evicting from the front is filtering the history |
| RateLimiter.LiveCounts | api/_limits.py:76-76 | the sizes read from the deque are the window counts of the history |
| RateLimiter.WindowCounts | api/_limits.py:76-76 | the window counts are the sizes of the sets of admissions in the window |
| RateLimiter.Replay | api/_limits.py:72-78 | any calls with a clock that does not go back end in the history of the run |
| RateLimiter.HistoryInv | api/_limits.py:72-78 | every run keeps its history ordered, and every admission fitted its own limits when it was made |
| RateLimiter.WindowCap | api/_limits.py:76-78 | also with changing settings, the window of sixty seconds up to any time holds at most the total in force at its last admission |
| RateLimiter.ClientCap | api/_limits.py:76-78 | the same for one client and the limit at that client's last admission |
| RateLimiter.FixedLimits | api/_limits.py:72-78 | with fixed limits, for every run and every real time, the window holds at most the total, and at most the client limit of each client |
| SpendGuard.Reserve | packages/proofops/adapters/local/spend_guard.py:80-122 | a reservation succeeds only with a positive bound under an id not yet used |
| SpendGuard.ReserveIff | packages/proofops/adapters/local/spend_guard.py:80-122 | a reservation is accepted if and only if its bound is positive, its id unused, its run one of the event, and the bound fits every scope that covers the run; each refusal has its own condition |
| SpendGuard.RepeatedId | packages/proofops/adapters/local/spend_guard.py:84-92 | under a used id the same request is a duplicate and any other a conflict |
| SpendGuard.SettleIff | packages/proofops/adapters/local/spend_guard.py:124-139 | a settlement is accepted if and only if the amount is between zero and the bound and the charge is still reserved or was settled just so; it changes that row alone, and repeating it changes nothing |
| SpendGuard.SettleMissing | packages/proofops/adapters/local/spend_guard.py:126-130 | a settlement without a reservation is refused as missing |
| SpendGuard.ConfigureIff | packages/proofops/adapters/local/spend_guard.py:53-78 | a run is configured if and only if it is named, dated, capped within a dollar, new or pinned just so, and no run of the event has its group with another cap; repeating it changes nothing |
| SpendGuard.Guard.FindRow | packages/proofops/adapters/local/spend_guard.py:85-87 | the search over the rows finds the first row of an id |
| SpendGuard.Guard.Total | packages/proofops/adapters/local/spend_guard.py:100-110 | the sum over the rows is the exposure of the scope |
| SpendGuard.Guard.FitsAll | packages/proofops/adapters/local/spend_guard.py:106-117 | the four comparisons are those of event, day, run and, if there is one, group |
| SpendGuard.Guard.DoReserve | packages/proofops/adapters/local/spend_guard.py:80-122 | checks, search and sums end in the specified table, or in the specified error with the table unchanged |
| SpendGuard.Guard.DoSettle | packages/proofops/adapters/local/spend_guard.py:124-139 | the same for settlement |
| SpendGuard.Guard.Clashes | packages/proofops/adapters/local/spend_guard.py:70-77 | the search over the runs finds a run of the same group with another cap if there is one |
| SpendGuard.Guard.DoConfigure | packages/proofops/adapters/local/spend_guard.py:53-78 | the same for the configuration of a run |
| SpendGuard.ReserveKeepsCaps | packages/proofops/adapters/local/spend_guard.py:106-122 | a reservation keeps event, day, run and group exposures within their caps |
| SpendGuard.SettleNeverRaises | packages/proofops/adapters/local/spend_guard.py:124-139 | settling never raises the exposure of any scope |
| SpendGuard.ConfigureKeepsCaps | packages/proofops/adapters/local/spend_guard.py:53-78 | configuring a run keeps every cap, and group caps stay consistent |
| SpendGuard.CapsHoldForever | packages/proofops/adapters/local/spend_guard.py:53-139 | no sequence of calls, accepted or refused, takes an exposure above its cap |
| SpendGuard.UncertainIsForever | packages/proofops/adapters/local/spend_guard.py:131-139 | an uncertain charge keeps its full bound under every later sequence of calls |
| SpendLedger.ReserveKeepsCaps | scripts/finals_demo.py:80-98 | a reservation keeps every entry and the file within their limits, and its own entry within the process's limit |
| SpendLedger.ReserveIff | scripts/finals_demo.py:80-97 | a reservation is admitted if and only if it fits beside what its task has spent and reserved within the limits of the process and of the entry, and beside everything spent, reserved and unsettled within the limit of the file; each denial belongs to one of the two |
| SpendLedger.ReserveEffect | scripts/finals_demo.py:80-98 | an admitted reservation adds its bound to the first entry of the task, made with the limit of the process if there is none, and changes nothing else |
| SpendLedger.GrantedIff | scripts/finals_demo.py:80-97 | in every run a reservation is granted if and only if it fits beside all that was paid and all that is in flight |
| SpendLedger.SettleKeepsCaps | evaluation/f1_live.py:58-61 | a settlement exceeds the limits by at most what it charges above its bound |
| SpendLedger.SettleSafeIff | evaluation/f1_live.py:47-61 | a settlement keeps the caps of every file if and only if it charges at most its bound |
| SpendLedger.FullFileExample | evaluation/f1_live.py:58-61 | on a file full with one reservation, charging more than the bound breaks the cap |
| SpendLedger.StoreEffect | evaluation/f1_live.py:58-61 | storing a transaction moves the reservation by what its process newly holds, and both totals by what it pays |
| SpendLedger.OneWriter | evaluation/i4_live.py:24-40 | in every reachable state of any number of processes, dead ones included, at most one is inside a transaction |
| SpendLedger.BooksBalance | evaluation/f1_live.py:58-61 | no update is lost: reservations are the bounds in flight, one by one and all together, and the entry's total and the cumulative total move by exactly the stored payments |
| SpendLedger.NeverOverspent | scripts/finals_demo.py:83-97 | in every reachable state spent plus reserved is within each entry's limit and the shared limit, but for what stored settlements charged above their bounds |
| SpendLedger.DeadWriterFreezes | evaluation/i4_live.py:25-40 | after a process dies inside a transaction nobody changes the file again |
| SpendLedger.AbandonedIsForever | evaluation/i4_live.py:24-40 | the file reserves, in every later state, at least what it did at the start and all that was held by the processes dead or stuck at any earlier moment |
| SpendLedger.StuckIsForever | evaluation/i4_live.py:32-34 | the bound of a process that gave up its settlement, or died while dispatching, is part of the file's reservation in every later state |
| OcrDispatch.ReserveOrWait | evaluation/i5_live.py:28-43 | settles on the first attempt not worth repeating, granted exactly when the bound fits the file it tried; every repeated one did not fit its task, but would without the active reservations, before the deadline |
| OcrDispatch.OcrBudget.Fallback | evaluation/f1_live.py:51-56 | the except block charges the bound and leaves the guard in doubt, unless it is interrupted on the way |
| OcrDispatch.OcrBudget.Receive | evaluation/f1_live.py:41-56 | after a grant the ending and the guard's table are those of the receipt and the point of interruption |
| OcrDispatch.OcrBudget.Send | evaluation/f1_live.py:38-56 | the guard's table and the ending are those specified for every receipt and every point of interruption |
| OcrDispatch.OcrBudget.Dispatch | evaluation/f1_live.py:31-61 | a reservation is refused exactly when it does not fit the file, and then changes nothing; otherwise the file is what other processes made of it meanwhile, settled by the charge of the ending exactly when the closing transaction runs and stores |
| OcrDispatch.EndingIff | evaluation/f1_live.py:38-56 | a granted dispatch is aborted exactly if an interrupt strikes it, else delivered exactly with a matching receipt of an amount between zero and the bound, else uncertain |
| OcrDispatch.ChargedInBoundIff | evaluation/f1_live.py:46-53 | the charge lies between zero and the bound unless an interrupt strikes after an unacceptable amount was read and before it is replaced |
| OcrDispatch.OverchargeExample | evaluation/f1_live.py:46-61 | a receipt of 0.2 under a bound of 0.1, interrupted before it is checked, takes a file out of its caps |
| OcrDispatch.GuardRow | evaluation/f1_live.py:38-56 | a dispatch adds no row, or one row that keeps the settled amount or the bound, and the exposure grows by that |
| OcrDispatch.ReservedRow | packages/proofops/adapters/local/spend_guard.py:124-139 | settling a fresh reservation always succeeds and leaves exactly the settled amount |
| OcrDispatch.ClosingMoves | evaluation/f1_live.py:58-61 | the closing transaction takes the bound off the reservation of the file it finds and adds the charge to both totals |
| OcrDispatch.LedgersAgreeIff | evaluation/f1_live.py:31-61 | file and guard move by the same amount if and only if nothing was granted, or the closing transaction stored and no interrupt struck where charge and kept amount differ, or it did not store and the call was delivered at no cost |
| OcrDispatch.GaveUpExample | evaluation/i4_live.py:32-34 | a paid call whose closing transaction gives up at the lock parts the ledgers |
| OcrDispatch.InterruptExample | evaluation/f1_live.py:43-49 | so does an interrupt during the call, and one after the receipt was read |
| DispatchRuns.LedgerStep | evaluation/f1_live.py:58-61 | a step of a process on the file keeps the invariant that ties both ledgers to the dispatches under way |
| DispatchRuns.GrantedRows | evaluation/f1_live.py:39-40 | a grant leaves the rows of all other dispatches as they were and adds its bound to the exposure |
| DispatchRuns.LedgersBracket | evaluation/f1_live.py:31-61 | in every reachable state of any number of dispatches, the guard's exposure has grown by what it kept for stored payments and, beyond that, by at most the growth of the file's reservations |
| DispatchRuns.FileBracketsGuard | evaluation/f1_live.py:31-61 | until an interrupt strikes between a grant and its settlement, what the file has spent is at most what the guard counts, and what it has spent or reserved at least that |
| DispatchRuns.QuietLedgersAgree | evaluation/f1_live.py:31-61 | with no reservation held any more, the ledgers have moved apart by exactly what the guard kept beyond the charges, by nothing without such an interrupt |
| ReplicaCost.Step | api/live-claim.py:151-218 | the retry loop has the specified outcome, calls and reported cost |
| ReplicaCost.StepIff | api/live-claim.py:151-218 | refused exactly when two calls at the estimate do not fit; the second attempt is made exactly after an unusable or rejected first, the last one made decides, and a reported cost above a cent goes before acceptance |
| ReplicaCost.StepWithinEstimate | api/live-claim.py:153-172 | a step let through, with calls within their estimate, is never stopped for cost and costs at most two estimates |
| ReplicaCost.RunClaim | api/live-claim.py:332-350 | outcome, number of calls and reported cost of a claim are those of its steps |
| ReplicaCost.ReplicasIff | api/live-claim.py:333-333 | three replicas exactly for a quick classification whose plan of eight calls costs at most a cent, else one |
| ReplicaCost.StepsAre | api/live-claim.py:332-347 | tag steps are made exactly after an accepted and valid classification with a plan that fits, each with all other calls counted as spent |
| ReplicaCost.ClaimIff | api/live-claim.py:332-350 | a claim succeeds if and only if it is valid, its plan fits, every step is accepted and the reported costs fit a cent; it is refused exactly when the classification, or the plan of an accepted one, does not fit |
| ReplicaCost.TagCheckNeverFails | api/live-claim.py:333-347 | the check before a tag step refuses exactly when the plan was already refused |
| ReplicaCost.PlanHolds | api/live-claim.py:332-350 | with calls within their estimates, however they end: at most eight calls, a total within 0.01, no cost-cap error, and at most two calls before a refusal |
| ReplicaCost.SuccessWithinLimit | api/live-claim.py:349-350 | a claim that succeeds has reported charges within the limit, whatever the estimates were |
| ScopePlan.AssuranceBundles | evaluation/e06_scope.py:218-224 | the bundles concatenate to the sorted pages and are their maximal runs of consecutive pages |
| ScopePlan.RunsApart | evaluation/e06_scope.py:218-224 | two bundles share no page and do not touch |
| ScopePlan.MarkedCategory | evaluation/e06_scope.py:267-271 | after marking, a bundle page is in the assurance category unless it was unreadable or in conflict, and other pages keep theirs |
| ScopePlan.SortSorted | evaluation/e06_scope.py:278-286 | single candidates are ordered by the four-part key |
| ScopePlan.BeforeIff | evaluation/e06_scope.py:278-286 | of two pages the order puts a required one first, then environmental data, then the denser, then the earlier page, and exactly one of them first |
| ScopePlan.Fill | evaluation/e06_scope.py:288-291 | the loop over the units takes exactly what the greedy specification takes |
| ScopePlan.CompactPlan | evaluation/e06_scope.py:249-354 | the plan, or the invalid page, is the specified one |
| ScopePlan.VerdictBySize | evaluation/e06_scope.py:292-306 | in S18 the verdict depends on one number: rejected if and only if the pages to keep exceed the cap or the claims, failed if and only if they exceed thirty or the claims |
| ScopePlan.VerdictFields | evaluation/e06_scope.py:288-306 | the proposal keeps the claims; what it misses of required and bundle pages is reported; S18 is short within eighteen candidates, and rejected exactly when something is missing |
| ScopePlan.NothingSilentlyLost | evaluation/e06_scope.py:292-308 | unless S18 fails, all required and bundle pages are selected, and the claims are too if and only if the candidates are more than eighteen or contain them |
| ScopePlan.LostClaimExample | evaluation/e06_scope.py:293-308 | a short scope loses a claim that is no candidate, without failing |
| ScopePlan.SelectionSize | evaluation/e06_scope.py:288-308 | under S18 the numbers of candidates, of pages to keep and of claims decide the size: all candidates, within eighteen exactly when the claims are, within thirty, or the base selection |
| ScopePlan.SelectedIsProposed | evaluation/e06_scope.py:288-308 | without a restore the selection is every candidate of a short scope, else the proposal |
| ScopePlan.RestoredSelection | evaluation/e06_scope.py:296-301 | a rejected proposal that can be restored selects every claim and candidate if they are at most thirty; otherwise exactly thirty, all pages to keep and then the others in priority order |
| ScopePlan.AboveCapIff | evaluation/e06_scope.py:288-308 | a plan that is not rejected selects more than eighteen pages if and only if claims and candidates are more than eighteen and nothing but claims must be kept |
| ScopePlan.NineteenClaimsExample | evaluation/e06_scope.py:288-308 | nineteen claims that are all evidence are selected and not rejected |
| ScopePlan.ShortScope | evaluation/e06_scope.py:288-308 | with claims among the base evidence a short scope is never reduced or rejected: the greedy pass already took every candidate |
| ScopePlan.ProposalPrefix | evaluation/e06_scope.py:278-294 | the proposed pages of a plan outside claims and bundles are a prefix of the priority order of such candidates that ends only at the cap |
| ScopePlan.ProposalPriority | evaluation/e06_scope.py:278-291 | a single page left out of the proposal comes, by the rows of the base plan, after every one that is in, and only at the cap is one left out |
| ScopePlan.BundleTurn | evaluation/e06_scope.py:288-291 | a bundle that is not wholly proposed did not fit beside the claims and the proposed pages of the bundles before it |
| ScopePlan.WholeOrNot | evaluation/e06_scope.py:276-291 | disjoint bundles are proposed whole, or not at all but for claim pages |
| ScopePlan.DiscoveredBundlesWhole | evaluation/e06_scope.py:208-291 | the bundles that discovery returns are proposed whole, or not at all but for claim pages |
| ScopePlan.IncompleteIffPagesMissing | evaluation/e06_scope.py:309-318 | the incomplete flag is set if and only if bundle pages are reported missing, which are those not selected |
| ScopePlan.SmallProfile | evaluation/e06_scope.py:262-296 | S14 never restores: at most fourteen pages, its claims included, and exactly the omitted required and bundle pages reported |
| ScopePlan.UpdateSelection | evaluation/e06_scope.py:72-77 | the loop over the rows sets flags and reasons of every row as specified |
| ScopePlan.RowsOfPlan | evaluation/e06_scope.py:61-77 | every row of a plan has both flags of its selection, its density, its category after marking, and exactly the reasons of the base plan but for the old marker, with the bundle reason and the exclusion marker where they belong |
| ScopePlan.MarkerTruthfulIff | evaluation/e06_scope.py:75-77 | the exclusion marker is right on every row if and only if no row selected now, or no candidate now, carried it before |
| ScopePlan.StaleMarkerExample | evaluation/e06_scope.py:75-77 | a page excluded by one plan and selected by the next keeps its marker |
| ScopeBuild.FillSlots | evaluation/e06_scope.py:169-170 | the loop adds as many spare pages as there are claim slots left |
| ScopeBuild.BuildClaims | evaluation/e06_scope.py:132-170 | the claims are those kept, with at most one executive page, and the spare ones |
| ScopeBuild.KeptIff | evaluation/e06_scope.py:134-136 | the claims kept are those selected, and of the executive ones only the first page |
| ScopeBuild.ClaimsFilled | evaluation/e06_scope.py:169-170 | spare pages are taken in rank order exactly within the slots left of ten |
| ScopeBuild.ClaimsCapped | evaluation/e06_scope.py:132-170 | from at most ten claims there are at most ten |
| ScopeBuild.EvidenceCapped | evaluation/e06_scope.py:172-183 | no claim is evicted from the evidence, nothing is added to it, and at most thirty pages remain |
| ScopeBuild.EvidenceByRank | evaluation/e06_scope.py:172-183 | for any order, nothing is evicted within thirty pages; beyond, exactly thirty remain, the claims and then the others by rank |
| ScopeBuild.EvictedLast | evaluation/e06_scope.py:175-183 | in the order of the source a page is evicted only after assurance pages, then denser, then earlier ones |
| ScopeBuild.GuaranteeOfS18 | evaluation/e06_scope.py:249-354 | on any plan of `build_scope`, S18 keeps all claims, required and bundle pages within eighteen pages, or after a restore within thirty, or reports failure, decided by the number of pages to keep |
| Sentences.SentencesTileText | packages/proofops/domain/sentences.py:18-31 | sentence spans are ordered and disjoint, begin and end on a non-blank character, and miss no non-blank character |
| Sentences.MatchEndIff | packages/proofops/domain/sentences.py:18-18 | a match ends exactly at the first end of the boundary pattern after its first character |
| Sentences.SentencesCut | packages/proofops/domain/sentences.py:18-31 | no sentence has a boundary inside, and between any two neighbours there is one |
| Sentences.SentenceIdInjective | evaluation/claim_prefilter.py:125-125 | a printed sentence id determines source and index even when source ids contain colons |
| Prefilter.Classify | evaluation/claim_prefilter.py:66-87 | eligible and deferred blocks are those specified, in order |
| Prefilter.Select | evaluation/claim_prefilter.py:88-107 | selected and deferred blocks are those specified, for any lexical signal |
| Prefilter.PackLoop | evaluation/claim_prefilter.py:143-164 | packets and oversized blocks are those specified, for any size function |
| Prefilter.Prepare | evaluation/claim_prefilter.py:66-164 | the three loops together compute the specified plan |
| Prefilter.Conservation | evaluation/claim_prefilter.py:66-164 | every block in scope is a target of one packet or deferred, exactly as often as it occurs |
| Prefilter.EverythingJustified | evaluation/claim_prefilter.py:66-164 | every target is readable and has a signal, every deferred block meets the condition of its reason, and a readable block with a signal is a target or too large alone |
| Prefilter.TargetsInOrder | evaluation/claim_prefilter.py:143-164 | the targets of all packets, read in order, keep the order of the scope |
| Prefilter.PacketsLegalAndGreedy | evaluation/claim_prefilter.py:143-164 | packets hold one to eight targets within the byte cap; each but the last was closed because the next block did not fit; a block is deferred as too large only if it is too large alone |
| SentenceSelection.Context | evaluation/claim_prefilter.py:109-119 | the context is all that is around the targets, each once, in the order in which it is met, and never a target |
| SentenceSelection.AroundIff | evaluation/claim_prefilter.py:111-117 | around a block are exactly its neighbours on its page and the nearest heading above it on that page |
| SentenceSelection.OfferedText | evaluation/claim_prefilter.py:121-128 | a target offers exactly its sentences, in order, under their ids and with their text |
| SentenceSelection.Validate | evaluation/claim_prefilter.py:195-229 | the two loops resolve the ids, or reject them, as specified |
| SentenceSelection.NoCollisions | evaluation/claim_prefilter.py:210-211 | the id of each offered sentence is bound to that very sentence |
| SentenceSelection.SelectionRoundTrip | evaluation/claim_prefilter.py:121-229 | any list of different sentences of a packet, printed as ids, validates to exactly those spans in that order |
| SentenceSelection.AcceptedIff | evaluation/claim_prefilter.py:213-216 | ids are accepted if and only if they repeat none and name offered sentences |
| AtomicPilot.LocateAll | evaluation/upstage_live_probe.py:34-53 | every accepted quote is located at its only occurrence; a rejection has a blank or not uniquely occurring quote |
| AtomicPilot.Guard | packages/proofops/application/claims.py:144-181 | accepts exactly admissible spans that do not overlap, and returns them sorted by start |
| AtomicPilot.LocateQuotes | evaluation/upstage_live_probe.py:28-54 | quotes are accepted exactly when unique, admissible, disjoint places exist; the result is ordered, disjoint and inside the text |
| AtomicPilot.CheckRanges | evaluation/atomic_pilot.py:103-114 | accepts exactly non-empty lists of ordered, disjoint, non-empty ranges inside the text |
| AtomicPilot.ValidRangesIff | evaluation/atomic_pilot.py:103-114 | valid ranges are the non-empty ones inside the text in which every character of a range comes before every one of a later range |
| AtomicPilot.InsideIff | evaluation/atomic_pilot.py:200-203 | a span is inside a range exactly if it is not empty and all its characters are |
| AtomicPilot.Returned | evaluation/atomic_pilot.py:227-231 | the filter loop keeps the spans inside a range |
| AtomicPilot.WithinOrdered | evaluation/atomic_pilot.py:227-231 | of ordered disjoint spans, those inside a range stay ordered, disjoint and in the range |
| AtomicPilot.Report | evaluation/atomic_pilot.py:232-258 | the gap loop returns the specified gaps and coverage |
| AtomicPilot.RangeTiled | evaluation/atomic_pilot.py:232-245 | spans and gaps tile a range up to white space: every non-blank character is in exactly one span or one gap |
| AtomicPilot.FullTextIff | evaluation/atomic_pilot.py:251-255 | the full text counts as returned if and only if there is a span and every non-blank character is covered |
| PilotRun.CheckSetting | evaluation/atomic_pilot.py:103-114 | the check accepts exactly settings in which every selected source has valid target ranges |
| PilotRun.HttpStopIff | packages/proofops/adapters/local/upstage.py:79-98 | an HTTP status of a provider stops the run exactly if it is one of the eight listed |
| PilotRun.Pilot.Locate | evaluation/atomic_pilot.py:198-205 | quotes pass exactly when they can be located and each lies in a target range |
| PilotRun.Pilot.Ask | evaluation/atomic_pilot.py:186-224 | a stop code or a lost connection stops the run with that code, locatable quotes inside the ranges pass at their places, anything else is invalid |
| PilotRun.JudgeIff | evaluation/atomic_pilot.py:186-224 | what a reply comes to is decided in both directions: stopped, passed with these spans, or invalid |
| PilotRun.Pilot.Reports | evaluation/atomic_pilot.py:225-258 | every target range is reported with its returned spans, its gaps and its coverage |
| PilotRun.Pilot.Handle | evaluation/atomic_pilot.py:143-263 | before a stop the record of a selected source passes exactly what its reply delivers and the run stops exactly with a stopping reply; after a stop it is deferred without a call; other sources change nothing |
| PilotRun.RunFailsClosed | evaluation/atomic_pilot.py:143-224 | in every run: sources not selected are never recorded or sent, calls end at the first stop code, later records are deferred with that code, and every passed span lies in a range of its source |
| PilotRun.StoppedByFirst | evaluation/atomic_pilot.py:170-224 | a run stops if and only if a packet of a selected source gets a stopping reply; the code is that of the first one, and exactly the selected sources up to it are sent |
| PilotRun.FirstStopIsFinal | evaluation/atomic_pilot.py:170-173 | after the first stop neither the code nor the calls made ever change |
| PilotRun.SummaryCounts | evaluation/atomic_pilot.py:277-278 | attempted is the number of client calls, and attempted plus deferred the number of records |
| PilotRun.EveryTargetTiled | evaluation/atomic_pilot.py:225-260 | in every run, every target range of every record is tiled by its returned spans and gaps, whatever the client replied, and counts as fully returned exactly when every non-blank character was |
| PilotRun.ReportsWhatPassed | evaluation/atomic_pilot.py:225-260 | a span passed if and only if some target range of its record reports it |
| DisplayMap.Align | packages/proofops/application/ingest/display_text.py:135-137 | the display and its table are the specified ones |
| DisplayMap.Entry | packages/proofops/application/ingest/display_text.py:136-137 | the k-th displayed character is the retained one, and table entry k + 1 is one past its raw index |
| DisplayMap.RestoredSpan | packages/proofops/application/ingest/display_text.py:114-116 | restoring display offsets gives a raw span that starts and ends on displayed characters and spells the display slice |
| DisplayMap.DisplayRoundTrip | packages/proofops/application/ingest/display_text.py:114-126 | display offsets survive the way to raw offsets and back |
| DisplayMap.RawRoundTripIff | packages/proofops/application/ingest/display_text.py:118-126 | a raw span has display offsets if and only if both edge characters are displayed, and then survives the way back |
| DisplayMap.RefusedSpans | packages/proofops/application/ingest/display_text.py:114-126 | each map refuses exactly the empty spans and those that leave its text, and the raw map also those with a deleted edge character |
| DisplayMap.SmallestSpellingIff | evaluation/decision_profile_replay.py:62-72 | the restored span is contained in every raw span that spells the quote if and only if its occurrence in the display is the only one |
| DisplayMap.CountOneIff | evaluation/decision_profile_replay.py:60-61 | a count of one means that every occurrence starts inside the first one |
| DisplayMap.UniqueIff | evaluation/decision_profile_replay.py:60-61 | a single occurrence is a count of one without a second occurrence inside the first |
| DisplayMap.OverlapExample | evaluation/decision_profile_replay.py:60-61 | "aa" is counted once in "aaa" and occurs twice |
| DisplayMap.ArchivedQuotes | evaluation/decision_profile_replay.py:42-78 | an axis is in the result exactly when all three replicas agree and the quote is restored, with that restoration |
| DisplayMap.RecoveredPlain | evaluation/decision_profile_replay.py:42-76 | without a display map an axis is recovered if and only if three replicas gave the same answer, of an existing source and a quote counted once in it, and then as that quote at its first occurrence |
| DisplayMap.RecoveredPinned | evaluation/decision_profile_replay.py:42-76 | with well-formed pins the same holds for the display of the source, and the restoration is the raw span of the first occurrence |
| DisplayMap.WellFormedPinAccepted | evaluation/decision_profile_replay.py:52-75 | with a well-formed pin the spelling check never rejects: the quote is restored if and only if it is counted once, to exactly the raw offsets of its first occurrence |
| DisplayMap.RestoredSmallestIff | evaluation/decision_profile_replay.py:52-75 | what the code restores lies inside every raw span that spells the quote if and only if the quote occurs once in the display, counting overlaps |
| Outline.Inspect | evaluation/hosted_scope_plan.py:118-134 | anchors and unresolved bookmarks are those of the specified pass |
| Outline.ForestPass | evaluation/hosted_scope_plan.py:118-134 | passing over a forest adds exactly its anchors and issues from any leftover entries, and keeps the titles above it |
| Outline.Breadcrumbs | evaluation/hosted_scope_plan.py:118-134 | for every outline, each anchor has the titles from the root to its node, although no entry is ever removed |
| Outline.PathsAreLastTitles | evaluation/hosted_scope_plan.py:118-134 | over any list of bookmarks the pass emits one anchor for each resolved one, in order, whose path is the last title of each level down to its own |
| Outline.ResolvedIff | evaluation/hosted_scope_plan.py:121-125 | a bookmark is resolved exactly if its destination is one of the pages |
| Outline.EmittedPathFullIff | evaluation/hosted_scope_plan.py:127-134 | an emitted path has one title per level if and only if every level above its bookmark was seen before |
| Outline.ShortPathExample | evaluation/hosted_scope_plan.py:127-134 | a list that no outline tree gives has a short path |
| Outline.Segment | evaluation/hosted_scope_plan.py:63-69 | the runs are exactly the longest stretches of one positive finite size, in order |
| Outline.EveryPrintedCharacterOnce | evaluation/hosted_scope_plan.py:63-69 | a character lies in a run if and only if its size is positive and finite, and then in one run, of its own size |
| BlockSelection.ScheduleIsComplete | api/live-report.py:351-354 | the order of turns gives every candidate exactly one turn, by round and then by page |
| BlockSelection.Fair | api/live-report.py:351-354 | at every moment the numbers taken from two pages that still have candidates differ by at most one |
| BlockSelection.SelectBlocks | api/live-report.py:350-358 | the loop ends and keeps exactly the texts of the specified selection |
| BlockSelection.SelectionIsCappedAndOrdered | api/live-report.py:351-358 | at most sixteen blocks within the character budget, in the order of their page |
| BlockSelection.SelectionIsMaximal | api/live-report.py:351-358 | with fewer than sixteen blocks, no candidate left out would fit beside the final selection |
| BlockSelection.EmptyOnlyWithoutCandidates | api/live-report.py:325-359 | with paragraphs of at most 1800 characters, nothing is selected if and only if there is no candidate |
| Dimensions.InBlockIff | evaluation/claim_dimensions.py:49-58 | a claim is a literal slice exactly if its quote is not empty and occurs in the block at its offset |
| Dimensions.OverlapIff | evaluation/claim_dimensions.py:46-48 | spans overlap exactly if they share a character |
| Dimensions.NeighboursSuffice | evaluation/claim_dimensions.py:46-48 | comparing neighbours of the sorted intervals finds every overlap |
| Dimensions.Prepare | evaluation/claim_dimensions.py:43-62 | claims become targets if and only if there is one, every one is a literal slice of its block, and no two of a block overlap |
| Dimensions.Locate | evaluation/claim_dimensions.py:168-201 | a quote is accepted exactly when it is not blank, occurs once counting overlaps, and is allowed; its reference is that occurrence moved to the block |
| Dimensions.Validate | evaluation/claim_dimensions.py:148-221 | answers are accepted exactly when every claim is answered once with all fields and every quote proposable |
| Dimensions.ReferenceIsQuote | evaluation/claim_dimensions.py:196-200 | the block slice at a composed offset is the quote and lies in its claim |
| Dimensions.ReferencesApart | evaluation/claim_dimensions.py:43-201 | references proposed for different claims of a block never overlap |
| Tokens.Split | evaluation/claim_dimensions.py:278-278 | the tokens of a claim are exactly its longest stretches of non-blank characters, in order |
| Tokens.EveryCharacterOnce | evaluation/claim_dimensions.py:278-278 | a character is in a token if and only if it is not blank, and then in exactly one |
| Tokens.SemanticTokens | evaluation/claim_dimensions.py:275-288 | every token of every claim is listed once, in order, numbered through |
| Tokens.TokenIdInjective | evaluation/claim_dimensions.py:281-281 | token ids name one token |
| Tokens.QuoteIff | evaluation/claim_dimensions.py:316-329 | a pair of ids yields a quote if and only if it names two tokens of the claim in order |
| Tokens.QuoteOnTokens | evaluation/claim_dimensions.py:322-329 | the quote is not blank, starts where a token starts and ends where a token ends |
| Tokens.TokenProposableIff | evaluation/claim_dimensions.py:331-331 | such a quote is proposable if and only if it occurs once in its claim and is allowed |
| Tokens.TokenReference | evaluation/claim_dimensions.py:331-331 | its reference covers exactly the chosen tokens |
| TokenProposals.Expand | evaluation/claim_dimensions.py:302-330 | an answer is expanded exactly when its claim exists, it has the three fields, and every pair names two tokens of the claim in order |
| TokenProposals.ValidateTokens | evaluation/claim_dimensions.py:291-331 | token answers are accepted if and only if every claim is answered once, every pair is such a pair, and the text between its tokens occurs once in the claim and is allowed |
| TokenProposals.ExpandedAcceptedIff | evaluation/claim_dimensions.py:330-331 | the dimension check accepts the expanded answers under exactly that condition |
| RoleTags.AssignRoles | evaluation/claim_dimensions.py:373-394 | tags are accepted if and only if every candidate is decided once with an allowed role and no dimension twice; the dimensions are exactly those given, as many as the tags that are not unknown |
| RoleTags.OrderDoesNotMatter | evaluation/claim_dimensions.py:375-394 | neither acceptance nor the dimensions depend on the order of the tags |
| RoleTags.DecidedOnce | evaluation/claim_dimensions.py:375-394 | accepted tags decide every candidate exactly once |
| RoleProposals.ValidateRoles | evaluation/claim_dimensions.py:365-400 | role tags are accepted if and only if they are complete, legal and free of conflict and every assigned quote occurs once in its claim and is allowed; every known tag then refers to its own mention, and there are as many dimensions as known tags |
| RoleProposals.AnswersAcceptedIff | evaluation/claim_dimensions.py:395-400 | the dimension check accepts the answers of the tags exactly when every assigned quote may be proposed |
| RoleProposals.HeldReferred | evaluation/claim_dimensions.py:395-400 | the reference of a tag is the place of its own mention, moved to the block |

## Left out

- Float rounding: money, time and density are exact reals; the source uses decimals in the ledgers and floats in the live endpoints.
- HTTP, TLS, SQLite, file locking, PDF parsing, OCR and rendering: only their effects on shared state are modelled.
- Regular-expression vocabularies, the quotation and token-boundary guards of a span, prompts, scores and hashing: arbitrary predicates or functions; comparing a hash is comparing what was hashed.
- Error messages: where the source raises one error type with several messages, only acceptance is stated.
- TransportMatrix.Matrix.Classify: a provider error code that cannot be hashed raises after the denial counter changed; such codes are not modelled.
- OcrDispatch.ReserveOrWait: a refusal speaks of the file that was tried; the look after it is a separate transaction, and may find room again.
- OcrDispatch.OcrBudget.Dispatch: failing writes of the event log, and errors of the guard's own database, are not modelled.
- SpendGuard.Reserve: the source compares stored amounts as text, so "0.10" and "0.1" are a changed request, pin or group there; here equal amounts are equal.
- SpendLedger.OneWriter: writers of the file that do not use the lock directory are outside the model.
- FinalsBudget.guarded: the provider rows it reads; unsettled amounts are a parameter here, and its charge is any charge, also above the bound.
- PilotRun.Pilot.Handle: exceptions other than value errors and lost connections leave the source's loop and end the run; the written files are not modelled.
- AtomicPilot.LocateQuotes: the shape of the returned JSON is not modelled.
- Prefilter.Prepare: the sort of the blocks by page and native order, and the refusal of duplicate source ids, come before the modelled loops.
- BlockSelection.SelectBlocks: the sort of each page's candidates by environmental terms comes before the modelled loop and is any order here.
- DisplayMap.Align: which offsets may be deleted is decided by glyph evidence; any set is allowed here.
- Outline.Inspect: the depth limit of twenty, which only cuts the tree before it is listed.
- ScopeBuild.BuildClaims: the ranking of the spare candidates, which is any order here, and the scoring before it.
- Dimensions.Validate: claim ids are modelled by the number they print; provenance hashes and source quality are not modelled.
- ReplicaCost.RunClaim: the majority vote over tag replicas and the rule engine; exceptions that the retry loop does not catch.
- Headings of a page, clause review candidates, rule engine, consensus, graph fusion, replay and audit scripts: easy members or bodies that are mostly orchestration.
