# Verified kernel of the basis trading worker

This project models the deciding and safeguarding code of the trading worker and proves
what that code keeps. The worker scans spot/perpetual pairs, and an automatic strategy
opens a pair (buy spot, sell the perpetual) or closes one; a second service submits the
two orders of a planned trade and records what the exchange answered. Around them sit the
price guard, funding annualisation, a login limiter, encrypted backups with retention,
and a migration of the market cache.

`dafny verify dfyconfig.toml` checks everything. Decimals are `real`, times are seconds.

| file | what it holds |
|---|---|
| `Models.dfy`, `Text.dfy`, `Sorting.dfy`, `Arithmetic.dfy` | records and keys; string order and padded numbers; stable sort, comprehensions, folds; products and quotients |
| `Automation.dfy`, `Evaluator.dfy`, `AutomationLaws.dfy`, `DecisionLaws.dfy` | what the evaluator must answer, its loops, laws of every answer, and what a decision means in cash, on the clock and on the book |
| `Portfolio.dfy`, `PortfolioBounds.dfy` | the portfolio state machine over all runs, what a run reaches at most, and when each limit holds |
| `PositionMatching.dfy` | remote positions against local pairs |
| `Ledger.dfy`, `LiveExecution.dfy`, `LivePass.dfy` | the submission tables and their other writers, one execution, one pass, any number of passes |
| `Pricing.dfy`, `Calculations.dfy` | tick rounding and the price guard; annualisation and opportunities |
| `LoginLimiter.dfy` | the pruned queue against the full history, requests in sequence, and overlapping requests |
| `BackupFormat.dfy`, `BackupDirectory.dfy` | the encrypted stream and piping it to a command; listing, deletion, retention |
| `MarketCache.dfy`, `GateRefresh.dfy` | bundle, expand, downsample; the bounded depth refresh |

## What the code turned out to do

- The evaluator does not see the opens in flight, and the spot limit price is the ask plus
  the slippage. With `k` opens in flight, at most `m` positions and trades of notional `n`
  that cost up to `w`, the exposure on an exchange reaches, and never passes,
  `min(limit - n, (m - 1) * w) + k * w`. So the per-exchange limit holds as configured
  exactly when one open is in flight and fills cost no more than was decided, or `m + k - 1`
  trades cannot cost it; the global limit likewise where one exchange may use all of it.
- The position count holds exactly when one open is in flight, whatever the slippage, unless
  a single position already leaves no room on its exchange.
- The order of the position list matters exactly when two different closes are both least by
  trigger, PnL and opening time.
- "Highest-ranked" means highest net return for every input exactly when
  `minimum_net_return` is not negative, because a net return of zero is sorted last.
- Smaller known liquidation buffers are requested first exactly when no position at its
  liquidation price, whose buffer is zero, stands beside one with a buffer left, or twenty are
  past theirs. With twenty other known buffers the one at zero gets no quote at all.
- A guarded limit is the best tick-aligned one exactly when the plan is on the exchange's
  tick grid, or the band binds first, or the plan does not reach the book.
- The login maximum holds exactly when requests for one key do not overlap, or the policy
  allows no attempt or has no window. Otherwise `maximum + overlap - 1` failures are reached.
- Decrypting writes unverified bytes exactly when the file was tampered with; since a command
  is only started after a first decryption to nowhere, it never receives any.
- The downgrade of the market cache fails for every table: `->>` and `||` have one precedence
  in PostgreSQL, so its key applies `->>` to text. With parentheses it restores every table.
- Observations dated in the future can make an opportunity HEALTHY with no 7-day APR.

## Assumptions about the environment

- The strategy configuration is fixed during a run, and the automatic strategy is the only
  one that opens positions. `Discipline` bounds the opens in flight and the fill cost;
  `IocFillIsAStep` derives the cost bound from the order's sizing and limit price.
- Exchange, credential and price-guard calls return arbitrary answers, given by `Venue`.
- The worker is the only writer of intents, legs and reservations during a pass.
- The AES-GCM keystream and tag are arbitrary functions of the arguments that sections 7.1
  and 7.2 of NIST SP 800-38D give them.
- A checksum path in the backup directory is a file or a symbolic link.

## Model

| member | source | states |
|---|---|---|
| Models.PairKeyInjective | src/basis_hawk/models.py:170-172 | the key string determines the exchange and the asset |
| Evaluator.EvaluateAutomaticStrategy | src/basis_hawk/automation.py:161-332 | the loops, dictionaries and sorts give the answer demanded: least close, else portfolio block, else first-ranked affordable open, else the refusal |
| Evaluator.OpeningRuleCandidates | src/basis_hawk/automation.py:335-394 | exactly the opportunities passing every rule, re-entry wait over all earlier closes included, in rank order |
| Evaluator.CloseCandidateFor | src/basis_hawk/automation.py:188-270 | a candidate exactly when the position must close, with the first trigger that holds |
| Evaluator.ExposureTotals | src/basis_hawk/automation.py:285-294 | running totals equal the exposure per exchange and overall |
| Evaluator.BoundedCandidates | src/basis_hawk/automation.py:296-316 | the ranked opportunities with enough notional, each with the least of its four caps |
| AutomationLaws.OrderIndependent | src/basis_hawk/automation.py:172-176 | permuting opportunities with distinct keys never changes the answer; permuting positions can only break a tie between least closes |
| AutomationLaws.OrderMattersExactly | src/basis_hawk/automation.py:271-273 | no arrangement of the lists changes the answer exactly when all least closes are the same |
| AutomationLaws.ClosePreempts | src/basis_hawk/automation.py:228-273 | a close is decided exactly when some position must close, and it is the least by trigger, PnL, opening time |
| AutomationLaws.OpensExactlyWhenPossible | src/basis_hawk/automation.py:296-332 | without closes or block, an open exactly when something may be opened; first in rank; notional within all four caps and equal to one |
| AutomationLaws.HighestNetReturnExactly | src/basis_hawk/automation.py:386-393 | when the opened market has the highest net return on one tick |
| AutomationLaws.HighestNetReturnIffThresholdNonNegative | src/basis_hawk/automation.py:386-393 | it always has exactly when the net return threshold is not negative |
| DecisionLaws.ClosesExactlyWhenDue | src/basis_hawk/automation.py:188-270 | a close is decided exactly when some position that can be closed is due, each reason stated in cash and without the division |
| DecisionLaws.ClosePaysOut | src/basis_hawk/automation.py:213-273 | the close is the most urgent, least profitable, oldest one, and its estimate is what selling the spot leg and buying back the perpetual leg brings in after all fees |
| DecisionLaws.EstimateFollowsPrices | src/basis_hawk/automation.py:205-222 | the estimate rises with the spot bid, falls with the perpetual ask, and without fees does not move when both move alike |
| DecisionLaws.OpensExactly | src/basis_hawk/automation.py:275-394 | when an open is decided, which opportunity is preferred, and that its notional is the greatest within every cap |
| DecisionLaws.OpenFitsTheBook | src/basis_hawk/automation.py:308-313 | an open can be bought and sold at the best prices, the book multiple over |
| DecisionLaws.CloseFitsTheBook | src/basis_hawk/automation.py:199-204 | a close can be sold and bought back at the best prices |
| DecisionLaws.BuiltShowsQuote | src/basis_hawk/calculations.py:127-134 | a built or refreshed opportunity shows the prices of the quote and the least value its book can trade |
| Portfolio.StepKeeps | src/basis_hawk/automation.py:285-316 | every step of the portfolio keeps limits, separation of markets and re-entry waits |
| Portfolio.UpdateKeeps | src/basis_hawk/storage.py:5251-5257 | reserving, releasing, partly or fully closing a position keeps the invariant |
| Portfolio.PlanOpenKeeps | src/basis_hawk/automation.py:343-385 | an open decided while others are in flight keeps the invariant |
| Portfolio.SafeOverEveryRun | src/basis_hawk/automation.py:285-316 | over every run: exposure, per-exchange exposure and position count bounds, no market active twice, re-entry only after the wait |
| PortfolioBounds.ExchangeExposureExactly | src/basis_hawk/automation.py:296-316 | the greatest exposure on one exchange, never passed and always reached by some run, for every strategy, overlap and slippage |
| PortfolioBounds.ExchangeLimitHoldsExactly | src/basis_hawk/automation.py:311 | when the per-exchange limit of a strategy holds over every run |
| PortfolioBounds.SharedGlobalLimitHoldsExactly | src/basis_hawk/automation.py:312 | when the global limit holds, exactly so where one exchange may use all of it |
| PortfolioBounds.CountLimitHoldsExactly | src/basis_hawk/automation.py:894-908 | when the position count holds: one open in flight, whatever the slippage |
| PortfolioBounds.GlobalLimitHoldsExactly | src/basis_hawk/automation.py:304-313 | over all strategies: both exposure limits hold exactly with one open in flight and no slippage, the count exactly with one open in flight |
| PortfolioBounds.LimitsHoldAsConfigured | src/basis_hawk/automation.py:894-908 | then all three limits hold as configured |
| PortfolioBounds.IocFillIsAStep | src/basis_hawk/sizing.py:131-135 | an IOC fill of an order floored to its lot and limited by slippage is a step of the machine |
| Pricing.PlannedWithinTick | src/basis_hawk/sizing.py:33-56 | when there is a plan, and that it is less than a tick short of the slippage: above the reference for a buy, below it for a sell |
| Pricing.PlannedPriceIsAligned | src/basis_hawk/sizing.py:33-56 | no other aligned price within the slippage reaches further |
| Pricing.FilledCost | src/basis_hawk/sizing.py:131-135 | a fill costs at most the notional plus slippage |
| Pricing.FilledProceeds | src/basis_hawk/sizing.py:44-56 | a filled sale brings at least the quantity at the reference price less slippage |
| Pricing.GuardNeverLoosens | src/basis_hawk/gate_price_guard.py:155-186 | a guarded limit is positive, never looser than the plan, inside the band and reaches the book |
| Pricing.GuardExactly | src/basis_hawk/gate_price_guard.py:155-186 | exactly when there is no guarded limit, and otherwise that it is the plan or less than a tick short of the band around the mark |
| Pricing.GuardOptimalExactly | src/basis_hawk/gate_price_guard.py:174-186 | when the result is the furthest-reaching aligned admissible price, or none exists |
| Pricing.PlanThenGuard | src/basis_hawk/gate_price_guard.py:174-186 | a plan on the exchange's tick, guarded, is optimal and within slippage |
| Pricing.OffGridPlanStaysOffGrid | src/basis_hawk/gate_price_guard.py:179-180 | an off-grid plan for which the result is not optimal |
| PositionMatching.ValidatePairedPositions | src/basis_hawk/live_execution.py:756-813 | accepts exactly the matching rows, and which refusal is given for what |
| PositionMatching.RemoteBySymbol | src/basis_hawk/live_execution.py:780-800 | sums, leverage and margin flag per symbol; refuses exactly non-short or mixed-leverage rows |
| PositionMatching.MatchDictionaries | src/basis_hawk/live_execution.py:801-813 | every expected entry matched and nothing left over |
| PositionMatching.AcceptsAnyOrder | src/basis_hawk/live_execution.py:756-813 | acceptance does not depend on the order of either list |
| Ledger.Database.PrepareLiveSubmission | src/basis_hawk/storage.py:4301-4399 | exactly when an intent is prepared, and the whole new state |
| Ledger.Database.RecordOrderSubmission | src/basis_hawk/storage.py:4552-4584 | acknowledges exactly the matching leg |
| Ledger.Database.MarkOrderSubmissionUnknown | src/basis_hawk/storage.py:4586-4621 | a submitted leg becomes unknown and execution pauses |
| Ledger.Database.MarkOrderSubmissionRejected | src/basis_hawk/storage.py:4623-4662 | a submitted leg fails with the code and execution pauses; malformed codes are refused |
| Ledger.Database.FailPlannedIntent | src/basis_hawk/storage.py:4476-4550 | only planned intents fail, and a reserved position is handed back |
| Ledger.Database.RecordLivePreflightFailure | src/basis_hawk/storage.py:1740-1777 | execution pauses and the intent stays planned |
| LiveExecution.RejectionCodeValid | src/basis_hawk/live_execution.py:358-376 | the code of a definitive rejection begins with the exchange and is always one the ledger accepts |
| LiveExecution.Preflight | src/basis_hawk/live_execution.py:152-234 | passes exactly when account, positions and balance allow the intent; otherwise the code names something that is wrong |
| LiveExecution.RecordResults | src/basis_hawk/live_execution.py:323-350 | every answer recorded in turn, unknown legs counted, paused unless all are acknowledged |
| LiveExecution.SubmitInTurn | src/basis_hawk/live_execution.py:301-316 | the spot order is sent only if the perpetual call returned |
| LiveExecution.SubmitTogether | src/basis_hawk/live_execution.py:317-322 | both orders are sent and both legs settled |
| LivePass.GuardNeverWeakens | src/basis_hawk/storage.py:4348-4360 | a guarded price never trips the ledger's weakening check |
| LivePass.Execute | src/basis_hawk/live_execution.py:152-355 | orders are sent exactly when every condition holds; for a row that is taken up, the disposition says how it ends and what it leaves |
| LivePass.SubmitsExactly | src/basis_hawk/live_execution.py:152-264 | the disposition is to submit exactly when account, price guard, configuration and ledger all allow it |
| LivePass.SubmitsOnlyWhen | src/basis_hawk/live_execution.py:111-264 | what is true whenever orders are sent: fresh market data and account, covered or reserved, unsent legs, a limit no looser than planned |
| LivePass.LegsResolved | src/basis_hawk/live_execution.py:323-350 | each leg ends acknowledged, failed or unknown, and exactly when each |
| LivePass.Examine | src/basis_hawk/live_execution.py:111-144 | one candidate expires, finds no market, waits, is submitted or fails its preflight, as its disposition says |
| LivePass.RunOnce | src/basis_hawk/live_execution.py:86-150 | the pass stops at exactly the first candidate that is submitted or fails; what became of all before it; under a pause only emergency closes are touched |
| LivePass.RunPaused | src/basis_hawk/live_execution.py:96-106 | over any number of paused passes, each traced, every changed row and leg and every order sent belongs to an emergency close, and execution stays paused |
| LivePass.RunPasses | src/basis_hawk/live_execution.py:86-150 | any number of passes, each starting from what the one before and other writers left; submissions are counted and no order is sent twice |
| LoginLimiter.LoginAttemptLimiter.Allowed | src/basis_hawk/auth.py:44-49 | the pruned queue answers as the full history does |
| LoginLimiter.Prune | src/basis_hawk/auth.py:45-49 | what is left is as long as the failures inside the window are many |
| LoginLimiter.LoginAttemptLimiter.RecordFailure | src/basis_hawk/auth.py:51-52 | the history grows by this failure, for this key only |
| LoginLimiter.LoginAttemptLimiter.Clear | src/basis_hawk/auth.py:54-55 | the key's history is forgotten |
| LoginLimiter.Login | src/basis_hawk/api.py:513-526 | refused exactly at the maximum; below it the credentials alone decide; then recorded or cleared |
| LoginLimiter.Serve | src/basis_hawk/api.py:513-526 | every sequence of requests to a fresh limiter is answered by the failures since the key's last login |
| LoginLimiter.RefusedExactly | src/basis_hawk/api.py:513-526 | a request is refused exactly when the maximum of wrong attempts on its key lies in its window with no login since |
| LoginLimiter.LoginStartsAfresh | src/basis_hawk/auth.py:54-55 | after a login only later attempts count |
| LoginLimiter.WindowBoundOverEveryRun | src/basis_hawk/api.py:513-526 | overlapping requests can pass the maximum by at most the overlap, in any window |
| LoginLimiter.MostFailuresExactly | src/basis_hawk/api.py:513-526 | that bound is reached, for every policy that allows an attempt |
| LoginLimiter.MaximumHoldsExactly | src/basis_hawk/api.py:513-526 | for which policies the maximum holds over every run |
| Calculations.HistoryOrderIrrelevant | src/basis_hawk/calculations.py:25-40 | history order does not matter when funding times are distinct |
| Calculations.EvenSpacingIsMeanRate | src/basis_hawk/calculations.py:19-40 | even settlements annualise like their mean rate |
| Calculations.NeverDiluted | src/basis_hawk/calculations.py:34-40 | settlements are never spread over more than the window, and over exactly it when they stand for that much |
| Calculations.AprWhenSettled | src/basis_hawk/calculations.py:30-39 | a window has an APR exactly when something settled in it |
| Calculations.BuiltHistory | src/basis_hawk/calculations.py:135-164 | when a built opportunity has its 7-day APR and net return, and what HEALTHY guarantees |
| Calculations.BuiltQuality | src/basis_hawk/calculations.py:139-144 | exactly when a built opportunity is STALE, HEALTHY or WARMING |
| Calculations.SandboxQuality | src/basis_hawk/calculations.py:86-112 | the same for the sandbox, and which averages it reports |
| Calculations.AprAddsUp | src/basis_hawk/calculations.py:19-46 | a year of payments adds up to the APR, and net return is what it earns less both fees twice |
| Calculations.FutureHistoryIsHealthyWithoutApr | src/basis_hawk/calculations.py:139-144 | future observations make an opportunity HEALTHY without an APR |
| Calculations.FallbackKeepsCoherence | src/basis_hawk/calculations.py:49-83 | the fallback fills only what is missing, keeps net return and APR in agreement, and is idempotent |
| Calculations.BuildersAreCoherent | src/basis_hawk/calculations.py:86-172 | net return is the projection of the reported 7-day APR after either builder |
| Calculations.RefreshAgreesWithBuild | src/basis_hawk/executable_quotes.py:36-63 | refreshing with a quote gives what building from it gives, but for quality and volumes |
| Calculations.QuoteRoundTrip | src/basis_hawk/executable_quotes.py:8-63 | opportunity to quote and back changes only the close capacity |
| BackupFormat.EncryptStream | src/basis_hawk/backup.py:48-57 | the sealed form of the whole input, for every pattern of reads |
| BackupFormat.DecryptStream | src/basis_hawk/backup.py:60-84 | the result and all that was written, for every file and pattern of reads; unverified bytes exactly when tampered with |
| BackupFormat.WrongTagWritesEverything | src/basis_hawk/backup.py:76-84 | a wrong tag is refused only after the whole plaintext was written |
| BackupFormat.UnverifiedByteIsWritten | src/basis_hawk/backup.py:76-84 | one cipher and file for which an unverified byte is written |
| BackupFormat.PipeDecrypted | src/basis_hawk/backup.py:252-296 | a command is started exactly for a sealed archive with its checksum, and reads only its plaintext |
| BackupFormat.OpensExactlySealed | src/basis_hawk/backup.py:48-84 | a file opens to a plaintext exactly when it is that plaintext sealed under some nonce |
| BackupFormat.RoundTrip | src/basis_hawk/backup.py:48-84 | decrypting what was encrypted restores the input |
| BackupDirectory.StampOrder | src/basis_hawk/backup.py:211 | archive names of one kind compare as their timestamps |
| BackupDirectory.ArchiveNameExactly | src/basis_hawk/backup.py:25-27 | the pattern matches exactly the names that backups give |
| BackupDirectory.ListedNewestFirst | src/basis_hawk/backup.py:118-140 | the listing is of every regular archive, newest first |
| BackupDirectory.ChecksumIsNoArchive | src/basis_hawk/backup.py:25-27 | a checksum file is never listed, matched or pruned as an archive |
| BackupDirectory.Directory.DeleteBackups | src/basis_hawk/backup.py:163-186 | deletes all or nothing, exactly when every name may go |
| BackupDirectory.DeletionKeepsListing | src/basis_hawk/backup.py:118-186 | the listing loses exactly the named archives, keeps its order and its latest |
| BackupDirectory.PruneKeepsFirst | src/basis_hawk/backup.py:193-197 | pruning keeps the newest and leaves the other kind alone |
| BackupDirectory.Directory.CreateBackup | src/basis_hawk/backup.py:200-249 | whatever backups a directory held, it then holds those and this one up to the retention, archives and checksums, and the foreign files unchanged |
| BackupDirectory.ChecksumsMatchArchives | src/basis_hawk/backup.py:103-112 | in such a directory every archive has its checksum file and every checksum file its archive |
| BackupDirectory.RunBackups | src/basis_hawk/backup.py:200-249 | after any run the directory holds exactly the newest dailies and weeklies up to their retention, each as its job made it and with its checksum |
| MarketCache.DowngradeFailsAsWritten | alembic/versions/20260729_0030_bounded_market_cache.py:109 | the key as written has no operator for its operands, so no table can be downgraded; the parenthesised key is exact |
| MarketCache.RoundTripExactly | alembic/versions/20260729_0030_bounded_market_cache.py:103-118 | for any key expression, the downgrade undoes the upgrade exactly when the key is well typed and always exchange, colon and asset |
| MarketCache.BundleRoundTrip | alembic/versions/20260729_0030_bounded_market_cache.py:29-42 | with an exact key, expanding the bundles restores the rows, each with its exchange's latest update time |
| MarketCache.EachExpands | alembic/versions/20260729_0030_bounded_market_cache.py:103-118 | with an exact key, expanding the bundles of some exchanges gives the rows of those exchanges |
| MarketCache.BundledTable | alembic/versions/20260729_0030_bounded_market_cache.py:30-40 | one row per exchange, with its payloads in asset order and its latest times |
| MarketCache.SnapshotTable.Downsample | alembic/versions/20260729_0030_bounded_market_cache.py:65-86 | exactly the first row of every bucket is left |
| MarketCache.KeepsGreatest | alembic/versions/20260729_0030_bounded_market_cache.py:65-86 | one row per exchange, asset and hour, the greatest by time and id |
| MarketCache.DownsampleIdempotent | alembic/versions/20260729_0030_bounded_market_cache.py:65-86 | downsampling again changes nothing |
| GateRefresh.PositionLoop | src/basis_hawk/automation.py:766-795 | the requests of the first positions in order, until the limit |
| GateRefresh.DepthCandidates | src/basis_hawk/automation.py:761-813 | the asked positions' opportunities in order, then ranked openings; at most twenty, each requestable, none missing below the limit |
| GateRefresh.MostExposedFirst | src/basis_hawk/automation.py:766-795 | requests follow the exposure order, and no position dropped at the limit precedes one asked for |
| GateRefresh.AskedInTurn | src/basis_hawk/automation.py:775-780 | unknown buffers come last, and among equal ones the position opened first |
| GateRefresh.OpeningsInRank | src/basis_hawk/automation.py:796-813 | the openings requested are in rank order, and none left out ranks before them |
| GateRefresh.RequestedExactlyIfAsked | src/basis_hawk/automation.py:782-795 | an open position's market is requested exactly through an asked position |
| GateRefresh.RefreshGateCapacity | src/basis_hawk/automation.py:817-889 | keeps the key sequence and every other entry, and refreshes exactly the requested ones whose quote arrived |
| GateRefresh.BuffersInOrderExactly | src/basis_hawk/automation.py:775-795 | when no smaller known buffer is requested behind, or dropped for, a larger one |
| GateRefresh.AtLiquidationAskedExactly | src/basis_hawk/automation.py:775-795 | when a position at its liquidation price is requested |
| GateRefresh.AtLiquidationStarved | src/basis_hawk/automation.py:775-795 | twenty-one positions, the one at its liquidation price without a quote |

## Left out

- MarketCache.BundleRoundTrip: of the members of a cached JSON object only the two that the migration reads are modelled, and the text of a time is that time.
- LivePass.RunPasses: other writers are assumed not to put the leg of a sent order back to created; compensation orders, which another service sends, are not counted.
- PortfolioBounds.SharedGlobalLimitHoldsExactly: where no exchange may use all of the global limit, only the sufficient half; whether the limit is then passed depends on how trades pack into the exchanges' own limits.
- PortfolioBounds.CountLimitHoldsExactly: where one trade of the least size uses up its exchange's limit, only the sufficient half; the other then depends on the number of exchanges.
- Portfolio.SafeOverEveryRun: positions opened by hand are not part of the machine; closes by hand are.
- BackupDirectory.Directory.CreateBackup: failures of the dump, the partial file and the file system are not modelled.
- BackupFormat.PipeDecrypted: the archive is the same in both reads; a broken pipe is a command that reads no further.
- BackupFormat.DecryptStream: the file does not shrink while it is read, so the truncation check inside the loop has no counterpart; GCM's length limit is not modelled.
- GateRefresh.RefreshGateCapacity: the live path only; the sandbox path rebuilds opportunities from its own catalogue.
- Fields of `AutoStrategyConfig` that the evaluator does not read, and its JSON serialisation.
- The compensation service, order sizing beyond flooring to the lot, and idempotency keys.
- `seconds_until_next_backup`, a running maximum.
- Decimal context rounding, float seconds, time zones and asynchronous interleaving inside one call.
- HTTP clients, private streams, the API other than the login handler, the command line and the frontend.
