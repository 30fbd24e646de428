# Liquifier: a verified model

Liquifier sells a token for its owner a little at a time. An indexer reads swap logs from the chain and
publishes them; the execution engine answers each buy of the owner's token with a capped sell, records the
trade, and finalises it from its receipt; the session service finds swap routes; the gateway and the
frontend check, show and total what happened. This project models those parts in Dafny and proves what
they guarantee. `dafny verify dfyconfig.toml` checks all of it.

**The trade ledger.** `TradeProtocol` is the engine as an interleaving of single SQL statements: any
number of handlers of swap events (replicas, redeliveries and duplicate triggers alike), a finaliser for
each recorded trade, reconcilers, a crash at any point, and receipts appearing on chain. A transaction is
sent before anything is recorded, and the INSERT and the UPDATE of a trade are separate steps, as in the
code. `TradeTable` holds the statements themselves, as methods on the tables and as the functions the
protocol uses. On this rest `LedgerSafety` (conservation, one row and one credit per trigger),
`TradeOrigins` (which buy, rate and statement every trade comes from), `StatusSafety` (the status of a
trade), `ReceiptSafety` (what receipts leave of amounts, failures and reasons), `OversellSafety` and
`OversellExact` (the size of a sell, and how far k concurrent handlers can oversell, to the unit),
`SingleHandlerSafety` (no overselling and one completion with one handler at a time, and the session's
status), `CompletionSafety` (what a completion means and when it is noticed), `LostCredits` (what stops
between INSERT and UPDATE cost), `Reconciliation` (which trades the passes settle) and `Anomalies` (further
runs that show what the protocol does not provide). `ReachableRuns` builds the runs that show the bounds to
be reached, for every session. `PriceImpact` is the estimate in front of a sell; `GasFunding` the gas a
session's wallet is sent.

**Routing.** `Routing` builds a route through one pool, `PathSelection` picks the best five, `SwapPaths`
joins the two, `PathCache` is the cache in front, `RouteValidation` the three readers of a stored route,
`NativeTokens` the translation between native coins and wrapped tokens, and `V3Path` the packed path that
goes into the calldata.

**Ingestion and display.** `BlockPipeline` is the indexer's poller, queue and workers, `SwapLog` the log
decoder (words laid out as in the Solidity Contract ABI Specification, section "Formal Specification of
the Encoding"), `TokenCache` the cache that settles each event's direction, `LiveStore` the frontend's
live data, and `Decimals` the amount texts.

## What the code does not provide

Where the code misses a property, the property is stated with the exact condition under which it holds, and
a run or an input shows it failing outside it.

- A sold-out session is noticed by some handler in all runs exactly when handlers run one at a time or one
  unit is left to sell; otherwise two handlers can sell the rest without either announcing the completion
  (`CompletionSafety.CompletionNoticedIff`). A completion that is announced is always true
  (`CompletionSafety.AnnouncedMeansSold`).
- With one handler at a time recorded sells stay within the total exactly when no stop falls between INSERT
  and UPDATE, or nothing was left (`LostCredits.RecordedWithinTotalIff`); how much each such stop costs is
  `LostCredits.RecordedIsExact`.
- A redelivered event can send its sell to the chain again at every delivery
  (`Anomalies.RedeliveriesResend`). It is recorded once, and what went to the chain equals what is recorded
  exactly when no sell was lost in a crash, refused as a duplicate or is still to be recorded, by the second
  equation of `LedgerSafety.Conservation`.
- A trade whose transaction succeeded becomes failed exactly when its finaliser marks it after an error of
  its own, before anyone has confirmed it (`StatusSafety.FailedThoughMinedIff`); without such errors only
  reverted trades fail (`StatusSafety.FailuresAreReverts`), and with one every submitted trade can
  (`StatusSafety.AnyFinaliserCanFail`, `Anomalies.FailedThoughMined`).
- A confirmed trade lacks the amount it received only where a writer of it was stopped, failed or is still at
  it (`ReceiptSafety.MinedAmountsAreStored`), and the total shown falls short by exactly those amounts
  (`ReceiptSafety.ReportedTotalIsComplete`). The finaliser's reply differs from the table exactly where
  someone else decided the trade (`TradeTable.ReplyIsRowIff`).
- A sell is its rate's part of the buy exactly while the product of both fits 256 bits, or so little is left
  that it makes no difference; beyond that the product wraps and the sell is smaller
  (`OversellSafety.GateIsSized`).
- An amount sold of 2^256 or more is read as zero and opens the gate again, up to the limit of its column.
  "k handlers never sell more than k totals" holds exactly while the total and k - 1 sells more fit 256
  bits, or the whole column and k sells more are within k totals (`OversellExact.TimesTotalBoundsIff`); the
  exact maximum is `OversellExact.MostIsExact`.
- A trade with a final receipt is settled in the end exactly when fewer than 25 stuck trades are no younger
  (`Reconciliation.SettledIff`), and can be settled at all exactly when fewer than 25 are strictly older
  (`Reconciliation.SettledBySomeIff`).
- A V3 log is reported truly exactly when its amounts do not pull the same way (`SwapLog.V3TrueIff`), and a
  V2 log is recovered exactly with one token in and the other out (`SwapLog.V2NothingLostIff`).
- A pool's cached tokens can change exactly while some worker is asking for them, so one failed call can
  replace a good answer and silence the pool for as long as the indexer lives (`TokenCache.CanChangeIff`,
  `TokenCache.FailureReplacesAnswer`).
- Two requests under one key of the path cache get the same path on every list of pools exactly when the
  pool gives the same other token, or none, and the same fee (`PathCache.AgreeAlwaysIff`).
- A route the engine takes is refused by the gateway and the session service exactly when it is not a JSON
  object (`RouteValidation.EngineImpliesOthersIff`, `RouteValidation.ListedRoute`), and a stored route is
  traded exactly when its fields are well typed (`RouteValidation.StoredRouteTradedIff`).
- A session update that already includes a trade, followed by that trade's own message, shows it once
  exactly when it was known before or sells nothing (`LiveStore.CountedOnceIff`,
  `LiveStore.ShownAfterUpdate`).
- Over all 256-bit sells the impact estimate never falls as the sell grows exactly in a pool so deep that
  it stays within one basis point (`PriceImpact.NeverFallsIff`); the sells the engine computes are too
  small for the saturation behind it (`PriceImpact.GateNeverSaturates`). An empty reserve passes every cap;
  over reserves that hold something the cap is a linear bound on the sell (`PriceImpact.CapIff`).
- The swaps a wallet is sent gas for sell out the session, or are capped, exactly while the sum behind their
  number does not wrap (`GasFunding.SwapsSellOutIff`, `GasFunding.NothingPaid`); the chain refuses the
  transfer exactly when the gas wallet covers the amount and not the fee of sending it
  (`GasFunding.Wallets.Fund`).

PROCESS_FLOW.md:177 says that the engine acknowledges an event at once. The code acknowledges it after
processing (crates/execution-engine/src/main.rs:271-284), and the model follows the code.

## Model

| member | source | states |
|---|---|---|
| TradeTable.TradeStore.RecordTrade | crates/execution-engine/src/main.rs:1571-1661 | inserts at most one row per (session, transaction, pool, log index), submitted and with the given sell, hash and time, credits the session exactly when it inserted and the credit fits the column, otherwise returns the existing row or the error with the row left, and keeps keys unique and rows coherent |
| TradeTable.ConfirmationWins | crates/execution-engine/src/main.rs:1727-1762 | of a confirmation and a failure of one trade the confirmation wins, whichever statement runs first |
| TradeTable.StatementsCommute | crates/execution-engine/src/main.rs:1727-1762 | confirming, failing and storing an amount commute on different trades |
| TradeTable.ReceiveAfterConfirmIff | crates/execution-engine/src/main.rs:1684-1689 | storing the received amount keeps coherent rows coherent exactly when the trade is confirmed already |
| TradeTable.TradeStore.FinalizeFromReceipt | crates/execution-engine/src/main.rs:1664-1725 | the first decisive answer of the receipt polls decides the row and the result, which for a submitted trade tells what is then in the table; a blank transaction hash leaves it submitted, other rows stay, and coherent rows stay coherent |
| TradeTable.FinalizedTells | crates/execution-engine/src/main.rs:1680-1722 | what each answer of the receipt leaves of the trade and what the finaliser replies, and that no other trade changes |
| TradeTable.ReplyIsRowIff | crates/execution-engine/src/main.rs:1664-1725 | the reply tells what is in the table exactly where nobody else has decided the trade differently |
| TradeTable.ConfirmedTotalIsTotal | crates/api-gateway/src/routes.rs:1635-1650 | on coherent rows the total over confirmed trades is the total over all |
| LedgerSafety.StepKeeps | crates/execution-engine/src/main.rs:295-929 | every single step of every handler, finaliser and reconciler keeps the books balanced, the trigger keys unique and each row with one owner |
| LedgerSafety.RunKeepsLedger | crates/execution-engine/src/main.rs:253-289 | the invariant holds in every state reached by any interleaving with redeliveries and crashes, from any table whose books balance, whatever the statuses of its trades |
| LedgerSafety.Conservation | crates/execution-engine/src/main.rs:1587-1661 | in every reachable state recorded sells = amount sold + sells stopped between INSERT and UPDATE, chain sends = recorded sells + sells without a row, and each trigger has at most one row and one crediting handler |
| OversellSafety.GateIsSized | crates/execution-engine/src/main.rs:476-489 | over all buys and rates the sell is at most the rate's part of the buy, and is its floor or what is left, exactly while the product fits 256 bits or little enough is left; the session is passed over exactly when nothing is left |
| TradeOrigins.SubmitSells | crates/execution-engine/src/main.rs:476-702 | the transaction a handler sends sells that amount of its own snapshot, under the hash it keeps, and is counted once |
| TradeOrigins.InsertRecords | crates/execution-engine/src/main.rs:1571-1611 | the INSERT adds a submitted trade of the handler's key, sell, hash and time, or on a key that is there nothing |
| TradeOrigins.GivingUpLeaves | crates/execution-engine/src/main.rs:295-929 | what a handler that skips or crashes leaves tells how far it came, and no table changes |
| TradeOrigins.OverForever | crates/execution-engine/src/main.rs:295-929 | a handler that is over never steps again |
| TradeOrigins.EveryTradeHasOrigin | crates/execution-engine/src/main.rs:476-757 | in every run each sell was sent for one buy at no more than its rate, and each trade recorded is such a sell in its own transaction, recorded by the same handler later |
| StatusSafety.ConfirmedIsAbsorbing | crates/execution-engine/src/main.rs:1744-1762 | no step takes a trade out of confirmed or edits its key, sell or transaction |
| StatusSafety.RunKeepsStatus | crates/execution-engine/src/main.rs:1527-1565 | in every reachable state confirmed means no failure reason and a successful receipt, failed means a reason, reverted a reverted receipt, and a received amount a confirmed trade with that receipt's amount |
| StatusSafety.FailedThoughMinedIff | crates/execution-engine/src/main.rs:1714-1762 | a trade whose receipt succeeded becomes failed in a step exactly when its own finaliser marks it after an error while it is still submitted |
| StatusSafety.AnyFinaliserCanFail | crates/execution-engine/src/main.rs:1714-1722 | any finaliser that has not looked yet can do that, with the lookup error as the reason, and takes the trade out of the reconciler's reach |
| StatusSafety.FailedStatementFails | crates/execution-engine/src/main.rs:769-786 | a finaliser with a statement left that fails makes its unconfirmed trade failed, with that error as the reason |
| StatusSafety.FailuresAreReverts | crates/execution-engine/src/main.rs:1664-1725 | over every run in which no finaliser meets an error, every trade that fails has a reverted receipt |
| StatusSafety.ConfirmedForever | crates/execution-engine/src/main.rs:1680-1762 | a trade confirmed at some point of a run is confirmed at every later one |
| ReceiptSafety.MinedAmountsAreStored | crates/execution-engine/src/main.rs:1680-1689 | over every run a confirmed trade has the amount its receipt names, or a writer is about to store it, or one of its writers was stopped or failed |
| ReceiptSafety.UndisturbedWritersSettle | crates/execution-engine/src/main.rs:1664-1725 | over every run a writer that is done and was never disturbed leaves its trade as the receipt says, the amount and reverted trades included |
| ReceiptSafety.ReasonsAreTrue | crates/execution-engine/src/main.rs:1700-1722 | over every run a failure reason names a reverted receipt, or the error a finaliser of that trade met |
| ReceiptSafety.ReconcilerTakesPending | crates/execution-engine/src/main.rs:1476-1497 | the trades a reconciler can start on are exactly those of the query |
| ReceiptSafety.ReceiptStepsSettle | crates/execution-engine/src/main.rs:1524-1552 | the single statements of an undisturbed writer together do what the pass and the finaliser are said to do |
| ReceiptSafety.ErrorStepsSettle | crates/execution-engine/src/main.rs:1553-1563 | after a lookup error a finaliser fails its trade and a reconciler leaves it |
| ReceiptSafety.DoneForever | crates/execution-engine/src/main.rs:1664-1725 | a writer that is done never writes again |
| ReceiptSafety.ReportedTotalIsComplete | crates/api-gateway/src/routes.rs:1635-1650 | over every run the confirmed-only total the gateway shows is all the table tells; what the receipts say is that and the amounts missing; and none is missing once no writer is left at it, stopped or failed |
| OversellSafety.SoldOutStaysShutIff | crates/execution-engine/src/main.rs:481-487 | a session that sold its total stays shut exactly while the amount sold fits 256 bits |
| OversellSafety.OversellBound | crates/execution-engine/src/main.rs:476-489 | with at most k handlers in flight, amount sold and pending sells stay within the total and k - 1 largest sells more, over every run, while those fit 256 bits |
| OversellSafety.ColumnBound | migrations/20260101000000_init.sql:103-105 | for every total of 256 bits and every k, sold and pending stay within the column's limit and k largest sells |
| OversellExact.MostIsExact | crates/execution-engine/src/main.rs:476-489 | an amount bounds what is sold and pending in all runs exactly when it is at least the total and k - 1 sells, or, where those exceed 256 bits, the column's limit and k sells |
| OversellExact.BoundIsSoldIff | migrations/20260101000000_init.sql:105 | some run brings the amount sold to the total and k - 1 sells exactly when the column can hold that |
| OversellExact.TimesTotalBoundsIff | crates/execution-engine/src/main.rs:476-489 | k totals bound what is sold and pending in all runs if and only if the total and k - 1 largest sells more fit 256 bits, or the column's limit and k largest sells are within k totals |
| SingleHandlerSafety.CompletionIsExact | crates/execution-engine/src/main.rs:823-838 | with one handler at a time the session never exceeds its total and is sold out exactly when a credited handler completes it; that handler is unique, and has announced it, is still to, or crashed after its credit; once announced the session is completed until an administrator sets its status |
| SingleHandlerSafety.StatusFollows | crates/execution-engine/src/main.rs:823-838 | a step changes a session's status exactly as an administrator sets it or a completing handler ends, to completed then |
| SingleHandlerSafety.FinishCompletes | crates/execution-engine/src/main.rs:823-838 | the end of a completing handler announces the completion, completes the session and lets no further event start on it |
| SingleHandlerSafety.AnnouncedStaysCompleted | crates/execution-engine/src/main.rs:823-838 | over every run of any number of handlers an announced session is completed and starts no event, unless an administrator set its status since |
| CompletionSafety.AnnouncedMeansSold | crates/execution-engine/src/main.rs:823-838 | in every run of any number of handlers, a handler that issued the completion update belongs to a session that has sold its total |
| CompletionSafety.CompletionMissed | crates/execution-engine/src/main.rs:823-838 | for every session with two units left and every k >= 2 there is a run that sells the whole total and in which no handler completes it |
| CompletionSafety.CompletionNoticedIff | crates/execution-engine/src/main.rs:823-838 | in all runs of k handlers some handler completes the sold-out session, if and only if k = 1 or one unit was left |
| SingleHandlerSafety.SoldOutIsFinal | crates/execution-engine/src/main.rs:485-487 | with one handler at a time no trade of the session is recorded after its total is reached |
| LostCredits.RecordedWithin | crates/execution-engine/src/main.rs:1612-1624 | recorded sells exceed what k handlers can sell by at most the sells stopped between INSERT and UPDATE |
| LostCredits.RecordedIsExact | crates/execution-engine/src/main.rs:1612-1624 | an amount bounds the recorded sells in all runs of k handlers with at most c lost credits exactly when it is at least the total and k - 1 + c sells more, or past 256 bits the column's limit and k + c sells |
| LostCredits.RecordedWithinTotalIff | crates/execution-engine/src/main.rs:1612-1624 | with one handler at a time recorded sells stay within the total exactly when no credit is lost or nothing was left |
| Anomalies.RedeliveriesResend | crates/execution-engine/src/main.rs:702-757 | for every session and every number of deliveries there is a run that sends the largest sell at each of them and records nothing |
| Anomalies.FailedThoughMined | crates/execution-engine/src/main.rs:1714-1722 | from every reachable state with a credited, unmined, submitted trade a run leaves it failed though its receipt succeeded, beyond the reconciler's reach |
| Reconciliation.ReconcileOnce | crates/execution-engine/src/main.rs:1475-1569 | one pass settles exactly those trades of its batch whose wallet resolves and whose receipt is final, with status, reason and amount as the receipt says, and changes no other row |
| Reconciliation.PassSettles | crates/execution-engine/src/main.rs:1475-1569 | with u stuck trades a pass settles 25 - u of the others, or all of them |
| Reconciliation.SettledInTime | crates/execution-engine/src/main.rs:1475-1569 | with u < 25 stuck trades no younger than it, a trade with a final receipt is settled once 25 - u a pass covers those ahead of it and itself |
| Reconciliation.SettledIff | crates/execution-engine/src/main.rs:1488-1493 | a trade with a final receipt is settled by every long enough sequence of passes exactly when fewer than 25 stuck trades are no younger |
| Reconciliation.SettledBySomeIff | crates/execution-engine/src/main.rs:1488-1493 | some sequence of passes settles it exactly when fewer than 25 stuck trades are strictly older |
| Reconciliation.NeverSettled | crates/execution-engine/src/main.rs:1488-1493 | with 25 stuck trades strictly older no sequence of passes settles it |
| Reconciliation.Drain | crates/execution-engine/src/main.rs:1466-1569 | with u < 25 stuck trades in all, passes that cover the others at 25 - u each leave only the stuck ones; with none stuck, ceil(n/25) passes empty n trades |
| Reconciliation.Starvation | crates/execution-engine/src/main.rs:1488-1493 | with 25 stuck trades strictly older than each of the others, no number of passes changes any row |
| Reconciliation.BatchExists | crates/execution-engine/src/main.rs:1476-1497 | the query has an answer on every table |
| PriceImpact.ImpactBelowHundredPercent | crates/execution-engine/src/impact.rs:121-137 | at most 9999 for all inputs, saturation included |
| PriceImpact.ImpactIsPriceDrop | crates/execution-engine/src/impact.rs:116-137 | without saturation, the floor of 10000 (1 - execution price / spot price) for a sell that keeps x y |
| PriceImpact.MonotoneInSell | crates/execution-engine/src/impact.rs:121-137 | a larger sell never has a smaller impact, up to the least sell at which the product saturates |
| PriceImpact.AntitoneInReserve | crates/execution-engine/src/impact.rs:121-137 | a larger reserve never has a larger impact, for all inputs |
| PriceImpact.CapIff | crates/execution-engine/src/main.rs:535-551 | without saturation a sell is within m basis points exactly when sell (9999 - m) < (m + 1) reserve |
| PriceImpact.CapBoundsSell | crates/execution-engine/src/main.rs:535-551 | a sell within the cap obeys that bound even when the sum saturates |
| PriceImpact.PassesIff | crates/execution-engine/src/main.rs:535-551 | a sell of the engine passes exactly within the linear bounds of both caps, or where a side of the pool is empty |
| PriceImpact.GateNeverSaturates | crates/execution-engine/src/main.rs:476-489 | ten thousand times any sell the engine computes fits 256 bits, and is at most the buy times its rate |
| PriceImpact.ExecutedSellIsBounded | crates/execution-engine/src/main.rs:476-551 | every sell that passes gate and cap is under (m + 1) / (9999 - m) of the reserve |
| PriceImpact.SaturationUnderstates | crates/execution-engine/src/impact.rs:132-133 | a sell of 2^255 into a reserve of 1 is estimated at one basis point, and a sell of 1 at 5000 |
| PriceImpact.NeverFallsIff | crates/execution-engine/src/impact.rs:121-137 | over all 256-bit sells the estimate never falls as the sell grows exactly where the reserve and the least saturating sell exceed half the range, and then it is at most one basis point |
| Routing.CheapestBridge | crates/session-api/src/main.rs:756-768 | finds a pool between the two tokens exactly when there is one, and none is cheaper |
| Routing.CheapestIsFirst | crates/session-api/src/main.rs:756-768 | of equally cheap bridges the earliest is taken |
| Routing.PairsIff | crates/session-api/src/main.rs:756-763 | a pool trades two tokens exactly when they are its two, whatever their order and case |
| Routing.FeeIs | crates/session-api/src/main.rs:691-697 | a pool charges its tier, and 3000 without one, so different tiers charge alike only for 0 and 3000 |
| Routing.PathIsWalk | crates/session-api/src/main.rs:719-784 | between different tokens a path is a walk from sell to target over its own hops, with one token more than hops and the fees of its pools |
| Routing.SelfPathIsWalkIff | crates/session-api/src/main.rs:742-751 | a path from a token to itself is a walk exactly through a pool of two equal tokens |
| Routing.WalkIsFound | crates/session-api/src/main.rs:729-784 | whenever a direct or one-bridge walk exists a path is built, and no such walk is cheaper |
| Routing.NoPathIffNoWalk | crates/session-api/src/main.rs:729-784 | no path is returned exactly when no such walk exists |
| Routing.PathIgnoresCase | crates/session-api/src/main.rs:719-784 | requests that differ in the case of addresses get paths that differ in it |
| PathSelection.KeyInjective | crates/session-api/src/main.rs:797 | on addresses without commas and bars equal join keys mean equal hops and tokens |
| PathSelection.DedupePaths | crates/session-api/src/main.rs:792-804 | the loop over a set of seen keys keeps the first path of each key, in order |
| PathSelection.DedupeKeepsFirst | crates/session-api/src/main.rs:792-804 | a path that no earlier one shares its key with is kept |
| PathSelection.SortSorts | crates/session-api/src/main.rs:354 | the sort is ascending in score and a permutation |
| PathSelection.SortIsStable | crates/session-api/src/main.rs:354 | paths of equal score keep their order |
| PathSelection.SelectPaths | crates/session-api/src/main.rs:353-359 | dedupe, sort, truncate and rank in place give the ranked top five |
| PathSelection.TopShape | crates/session-api/src/main.rs:353-359 | at most five paths, of pairwise different keys, ascending in score, ranked 1 to n |
| PathSelection.TopWasFound | crates/session-api/src/main.rs:353-359 | every selected path is a found one but for its rank |
| PathSelection.NothingBetterDropped | crates/session-api/src/main.rs:353-359 | a path that was first of its key and is dropped scores no better than all five kept |
| PathSelection.NoDroppedRouteIsBetter | crates/session-api/src/main.rs:353-359 | when equal routes score equally, no dropped route scores better than a kept one |
| SwapPaths.GetSwapPaths | crates/session-api/src/main.rs:305-362 | the loop over the sell token's pools collects each pool's path and selects among them |
| SwapPaths.FoundInOrder | crates/session-api/src/main.rs:338-352 | paths come in the order of their pools, at most one for each |
| SwapPaths.SelfNeedsNoPools | crates/session-api/src/main.rs:305-337 | leaving the target's pools out when both tokens are the same changes no path |
| SwapPaths.SelectedAreWalks | crates/session-api/src/main.rs:338-360 | every path returned is a walk through one of the sell token's pools |
| SwapPaths.NothingToDedupe | crates/session-api/src/main.rs:353 | over pools with distinct plain addresses the dedupe removes nothing |
| SwapPaths.NoBetterWalk | crates/session-api/src/main.rs:338-360 | no walk through a pool that no returned path starts with scores better than any of the five returned |
| PathCache.Cache.Lookup | crates/session-api/src/main.rs:389-398 | a request hits exactly when an entry under its key is less than 300000 milliseconds old, and the hit is a logged computation under that key |
| PathCache.Cache.Store | crates/session-api/src/main.rs:410-436 | stores and answers the computation on the discovered pools, also with no path |
| PathCache.Cache.ComputePoolPath | crates/session-api/src/main.rs:365-438 | answers with the entry while it is under 300000 milliseconds old, computes and stores otherwise, and fails only without both; every answer is a computation under the request's key, and the request's own on those pools up to case when the two requests are alike |
| PathCache.KeyIff | crates/session-api/src/main.rs:382-387 | two requests have one key exactly when chain, pool and both tokens are the same but for case |
| PathCache.ComputedIsBuilt | crates/session-api/src/main.rs:404-421 | between different tokens the computation is a walk ranked first, or none exactly where there is no walk |
| PathCache.AlikeSamePath | crates/session-api/src/main.rs:382-387 | requests under one key whose pools give the same other token and fee get the same path up to case |
| PathCache.AgreeAlwaysIff | crates/session-api/src/main.rs:382-387 | two requests under one key agree on every discovered list exactly when neither pool has an other token, or the fees are equal and the other tokens are too, or the sold token is the target |
| PathCache.SamePoolIsAlike | crates/session-api/src/main.rs:382-387 | requests that name one pool with its tokens in either order and the same fee are of that kind |
| BlockPipeline.Poller.Poll | crates/indexer/src/main.rs:282-299 | one round sends the blocks up to a higher head in order, and nothing on a lower head or an error |
| BlockPipeline.Poller.PollAll | crates/indexer/src/main.rs:281-302 | for every sequence of replies the blocks sent are start+1, start+2, … up to the highest head |
| BlockPipeline.EveryBlockOnce | crates/indexer/src/main.rs:227-302 | under every schedule of poller and workers taken followed by queued is sent, without gap or repeat, and no block is taken twice |
| BlockPipeline.IdleMeansDone | crates/indexer/src/main.rs:227-302 | under every schedule a sending poller is on its way to the head it heard last, an idle one has sent every block up to the highest head reported, and with the queue empty exactly those blocks have been taken |
| BlockPipeline.EachMoveCounts | crates/indexer/src/main.rs:227-302 | each send, take and finish takes one off the moves left, and while any are left one is possible |
| BlockPipeline.WorkedOff | crates/indexer/src/main.rs:227-302 | without new heads any order of moves is at most that long, and at that length every block up to the highest head is taken and every worker idle |
| BlockPipeline.NeverJams | crates/indexer/src/main.rs:227-302 | with work left and a worker idle the poller can send or that worker can take |
| Bytes.NumberOfBigEndian | crates/indexer/src/parser.rs:77-80 | a word read back from its big-endian bytes is the word |
| Bytes.SameNumberSameBytes | crates/indexer/src/parser.rs:30-51 | comparing topics as numbers, as the model does, is comparing their 32 bytes |
| SwapLog.SignAndMagnitude | crates/indexer/src/parser.rs:133-152 | bit 255 and the wrapped complement recover sign and magnitude of every int256, -2^255 included |
| SwapLog.ParsesIff | crates/indexer/src/parser.rs:12-60 | a log is a swap exactly with one of the two signatures, three topics and data for all its words, and names its pool, sender and recipient |
| SwapLog.V2Decoded | crates/indexer/src/parser.rs:56-106 | what the event says for every four words |
| SwapLog.V2RoundTrip | crates/indexer/src/parser.rs:56-106 | decoding inverts the ABI encoding of every swap with one input and one output, in both directions |
| SwapLog.V2NothingLostIff | crates/indexer/src/parser.rs:82-88 | the event determines the log exactly when one token came in and the other went out |
| SwapLog.V3Decoded | crates/indexer/src/parser.rs:108-170 | what the event says for every pair of int256 amounts |
| SwapLog.V3TrueIff | crates/indexer/src/parser.rs:133-154 | the event tells direction and both magnitudes truly exactly when the two amounts do not pull the same way |
| SwapLog.DirectionsAgree | crates/indexer/src/main.rs:498-527 | for every log that parses, the sides read again from raw data are those of the event's flag, and the data is never too short |
| TokenCache.ResolvedAsTheEngineDoes | crates/execution-engine/src/main.rs:336-340 | however workers interleave and calls fail, every event that resolves, from the cache or from its worker's own answer, gets both tokens as the engine derives them from the flag and the pool; the others fail as on no pool |
| TokenCache.SettledForever | crates/indexer/src/main.rs:464-496 | an entry nobody is asking about never changes again |
| TokenCache.CanChangeIff | crates/indexer/src/main.rs:464-496 | some continuation changes a pool's entry exactly when some worker is asking for that pool, and for a real pool an honest one does |
| TokenCache.FailureReplacesAnswer | crates/indexer/src/main.rs:476-496 | a run from the empty cache in which a failed call overwrites a good answer and nobody asks any more |
| V3Path.EncodePath | crates/execution-engine/src/main.rs:1354-1377 | the loop gives the packed path, or the first error in the code's order |
| V3Path.UnpackPacked | crates/execution-engine/src/main.rs:1354-1377 | a decoder recovers tokens and fees exactly |
| V3Path.BuildsIff | crates/execution-engine/src/main.rs:1330-1377 | succeeds exactly with two tokens or more and every chosen fee below 2^24, with length 23 (n - 1) + 20, and reads back |
| V3Path.FailsWith | crates/execution-engine/src/main.rs:1330-1377 | otherwise there are fewer than two tokens, or the error names the first chosen fee that does not fit |
| V3Path.OnePathPerSwap | crates/execution-engine/src/main.rs:1330-1377 | equal bytes mean equal tokens and equal chosen fees |
| V3Path.EveryPathIsBuilt | crates/execution-engine/src/main.rs:1354-1377 | every byte string of a path's length is the encoding of some swap |
| NativeTokens.RoundTripIff | crates/common/src/types.rs:149-192 | normalize ∘ display ∘ normalize is normalize up to case, exactly when the token is not native or the configured address is trimmed or the placeholder |
| NativeTokens.WrappedNativeIff | crates/common/src/types.rs:156-168 | the wrapped token of a chain is the address of the first base token whose symbol, trimmed and in any case, is a wrapped coin's |
| NativeTokens.ParseAddressIff | crates/execution-engine/src/main.rs:1272-1282 | a text parses to an address exactly when its digits, in either case, spell it |
| NativeTokens.SameTextSameAddress | crates/execution-engine/src/main.rs:1272-1282 | two address texts equal up to case parse to the same address |
| NativeTokens.ResolveRoute | crates/execution-engine/src/main.rs:1284-1317 | the loops parse every token and overwrite the native ones, or give the first error |
| NativeTokens.RefusalTells | crates/execution-engine/src/main.rs:1272-1328 | a route is refused for its first token that is no address, or for a native coin whose wrapped token is missing or no address |
| NativeTokens.DisplayedRouteTradesTheSame | crates/execution-engine/src/main.rs:1284-1317 | a displayed route of any length resolves to the addresses of the normalized route, and resolves at all under an exact condition on its tokens |
| NativeTokens.DisplayedRouteIsNative | crates/execution-engine/src/main.rs:1290-1299 | it is paid in native coin exactly at the ends that hold the wrapped token |
| RouteValidation.GatewayIffSession | crates/api-gateway/src/routes.rs:2199-2228 | the gateway accepts exactly what the session service accepts: an object whose hops start at the pool, with one token more |
| RouteValidation.RefusalTells | crates/session-api/src/main.rs:647-689 | each error of the session service names the first thing that is wrong |
| RouteValidation.EngineImpliesOthersIff | crates/execution-engine/src/main.rs:1379-1399 | what the engine accepts the other two accept exactly when it is an object |
| RouteValidation.ObjectReadIff | crates/execution-engine/src/main.rs:1379-1399 | the engine reads an object as a route exactly when it leads from the pool, is well typed and repeats none of the three keys |
| RouteValidation.ListReadIff | crates/execution-engine/src/main.rs:47-53 | it reads a list as a route exactly when the list holds that route's fields in order |
| RouteValidation.ListedRoute | crates/execution-engine/src/main.rs:47-53 | a route written as a list is accepted by the engine alone |
| RouteValidation.StoredRouteTradedIff | crates/session-api/src/main.rs:647-689 | a route accepted and stored is traded exactly when its hops, tokens and fee tiers are well typed, and all three reach the engine unchanged |
| RouteValidation.BuiltRouteIsAccepted | crates/session-api/src/main.rs:729-784 | every path the service builds is accepted by all three with hops and tokens unchanged |
| LiveStore.Store.UpdateAll | frontend/src/lib/store.ts:68-148 | a sequence of messages is applied in order, and trade ids stay distinct in every session |
| LiveStore.EachTradeOnce | frontend/src/lib/store.ts:83-145 | from any state, after any trade messages, amount sold = base + each new distinct trade once, remaining = max(0, base - the same), and ids stay distinct |
| LiveStore.Converges | frontend/src/lib/store.ts:83-145 | the same messages in any order and repetition show the same amounts and trades |
| LiveStore.RowsAreLastWords | frontend/src/lib/store.ts:101-143 | each row is the last message about its trade, or was there before |
| LiveStore.RowsConverge | frontend/src/lib/store.ts:101-143 | when messages about a trade agree, the rows are the same too |
| LiveStore.OthersUntouched | frontend/src/lib/store.ts:68-148 | a session nobody mentions keeps its data |
| LiveStore.KnownAfter | frontend/src/lib/store.ts:68-148 | after any messages, session updates included, a session knows the trades it knew and those it heard of |
| LiveStore.ShownAfterUpdate | frontend/src/lib/store.ts:72-117 | after any messages, a session update and any trade messages, the update's amounts are shown with each trade that was unknown until then counted once |
| LiveStore.CountedOnceIff | frontend/src/lib/store.ts:72-117 | a trade included in an update and told again is shown once exactly when it was known before or sells nothing |
| LiveStore.FreshStoreShows | frontend/src/lib/store.ts:83-145 | from the empty store a session shows the sum of the distinct trades heard, nothing remaining, and is active |
| LiveStore.SeededShows | frontend/src/lib/store.ts:149-172 | a seed shows the fields it names and keeps the others; an unknown session starts pending and empty |
| LiveStore.SeedTwice | frontend/src/lib/store.ts:149-172 | two seeds of a session are one in which the later takes precedence field by field; of two sessions they commute |
| LiveStore.SeededThenHeard | frontend/src/lib/store.ts:83-172 | after a seed with amounts and trades, each trade heard that was not seeded counts once |
| Decimals.ToWeiOfFromWei | frontend/src/app/sessions/new/page.tsx:98-114 | printing a canonical amount and reading it back gives it again, for all decimals |
| Decimals.RoundTripIff | frontend/src/app/sessions/new/page.tsx:98-114 | a digit string survives exactly when it is canonical |
| Decimals.ToWeiFloors | frontend/src/app/sessions/new/page.tsx:98-104 | a decimal text is read as its amount in units rounded down, canonically |
| Decimals.PrintsItsValue | frontend/src/app/sessions/new/page.tsx:107-114 | the printed text denotes exactly the amount / 10^decimals |
| Decimals.PrintsNoRedundantZero | frontend/src/app/sessions/new/page.tsx:107-114 | no zero at the end of the fraction, and none in front for a canonical amount |
| Decimals.FromWeiIsFormatIff | crates/api-gateway/src/email.rs:15-62 | frontend and mailer print a digit string alike exactly when it has at most 19 digits or no leading zero |
| Decimals.FormatIgnoresZerosAndKeepsSign | crates/api-gateway/src/email.rs:15-62 | the mailer drops leading zeros, and prints a negative amount as the positive one with its sign |
| Decimals.FormatOtherTexts | crates/api-gateway/src/email.rs:15-36 | blank texts and zeros of either sign print zero, blanks around digits are dropped, and other texts stay as they are |
| Decimals.PercentExceedsIff | frontend/src/app/sessions/new/page.tsx:280-290 | the filled-in percentage is read back exactly, and up to 100 never exceeds the balance |
| GasFunding.NeededFits | crates/api-gateway/src/routes.rs:1188-1190 | the products of the gas computation fit 256 bits |
| GasFunding.NeededCovers | crates/api-gateway/src/routes.rs:1188-1190 | the padded amount pays for every swap counted |
| GasFunding.NeededIs | crates/api-gateway/src/routes.rs:1188-1190 | the amount is the floor of 300000 gas a swap at the price, with the padding |
| GasFunding.MinSellIs | crates/api-gateway/src/routes.rs:1165-1179 | the least sell is a hundred-thousandth of total times rate, wrapped, or a thousandth of what remains where that is zero |
| GasFunding.SwapsSellOutIff | crates/api-gateway/src/routes.rs:1181-1186 | with the code's own least sell, the swaps paid for sell out or are the cap exactly while the sum does not wrap, are no more than needed then, and none once it does |
| GasFunding.NothingPaid | crates/api-gateway/src/routes.rs:1168-1186 | at the largest total and a rate of one ten-thousandth the sum wraps and no swap is paid for |
| GasFunding.Wallets.Fund | crates/api-gateway/src/routes.rs:1083-1294 | the outcome and both balances: a funded wallet can pay for every swap, wallets and fee add up, and the exact case in which the chain refuses the transfer |

## Left out

- RPC, gRPC, NATS, Redis and SQL transport: rows are state, answers of the chain and of the database are step inputs, delivery is any number of handlers of one event.
- Handlers: the sessions one event concerns are handled in turn by one task; the model lets them run independently, which includes every such order.
- Trade statuses the engine never writes, and administrative changes of a session's status, which the code does not guard; the model lets a session's status change at any time.
- USD values, market caps, oracle prices, slippage and router quotes: floating point or answers of contracts; a handler that they stop is a skipped one.
- Path scores, fees and impacts: rounding of floating point; fee percentages are counted in ten-thousandths and scores in twenty-thousandths, where the code's sums are exact.
- The estimated output of a path.
- Text outside ASCII: case folding and trimming are those of ASCII text, with all six ASCII blanks.
- Decimals.ToWei: whether a text is a number is a parameter; texts the runtime takes for numbers that are not plain decimals (signs, exponents, hexadecimal) have no lemma.
- JSON texts: parsing them; a document is a value, with repeated keys kept as written.
- LiveStore.EachTradeOnce: sells are whole numbers from zero, or texts that cannot be read, as the engine prints unsigned amounts; one trade always names one sell.
- GasFunding.Wallets.Fund: nonces, signing and mining; the transfer is in the block or refused for lack of funds.
- Reconciliation.ReconcileOnce: database statements succeed and no trade is added during a pass; interleaved with everything else the reconciler is part of the trade protocol.
- StatusSafety.RunKeepsStatus: starts from coherent rows; trades that failed before the failure reason was added have none, and the ledger results hold for those too.
- CompletionSafety.AnnouncedMeansSold: speaks of the update as issued; the code ignores whether it succeeds.
- PriceImpact.MonotoneInSell: sells whose product saturates, for which it fails in all but the deepest pools; PriceImpact.NeverFallsIff is the exact statement.
- BlockPipeline.WorkedOff: a closed queue, which ends the poller; what a worker does with a block it took.
- Exactly-once sends to the chain, which the code does not promise.
- Key management, authentication, deposit detection, WebSocket forwarding, page rendering and mail bodies.
