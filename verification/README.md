# DSE AutoTrader: verified models of the trading kernel

This project models the stateful core of DSE AutoTrader, a paper-trading and backtesting platform for
the Dhaka Stock Exchange, in Dafny, and proves what it keeps over whole runs.

`dafny verify dfyconfig.toml` checks everything.

## What is modelled

**Paper broker** (`PaperModel`, `PaperBroker`, `PaperRuns`, `PaperOrderRuns`, `PaperMoneyRuns`,
`PaperFillRuns`, `PaperBudgetRuns`, `PaperLedger`, `PaperOutcomes`, `DseExecution`, `DseTables`,
`Decimals`). Orders, accounts, the transaction ledger and the outbox are objects that the broker's methods
update in place (`PaperBroker`); each method is proved to do exactly what a function on the store's value
does (`PaperModel`), and what these functions decide, book and read is proved from order, market, account
and ledger alone (`PaperOutcomes`, `PaperLedger`). A run (`PaperRuns`) is any interleaving of submit,
cancel, replace, reconcile and reset, by brokers of any configuration, on any number of orders and accounts,
with everything else that touches them: proposals, reviews, refusals, expiries, orders placed as approved,
accounts opened. A review carries the proposal of whoever reviews, which need not be the order. A call that
raises leaves whatever it had written. Every run keeps a store sane: orders that may be filled have no fill
or fit their quantity, and orders that wait have none (`CallKeepsSane`). Conservation of cash, stored
precision, unique keys and events, isolation, raising calls and which terms get committed are proved for all
runs. A stronger invariant ties every order to its own ledger fills and fill events; solvency, long-only
holdings, the order's life, price protection, completion and budgets rest on it. They are proved for sound
runs, which do not approve an order whose own quantity is not positive or whose limit is negative: exactly
what that invariant needs (`InvariantExactly`). Money and prices are exact decimals (`real`); half-even,
half-up and truncating rounding are written out.

**Risk gate** (`RiskEngine`). The chain of rejections against bounds on the order, its monotonicity, the
largest order it approves, and, through the reviews of a run, what it does and does not bound of a broker's
spending.

**Backtest engine** (`BacktestModel`, `BacktestSignals`, `BacktestEngine`, `BacktestNoLookAhead`,
`BacktestLookAhead`, `BacktestRules`, `BacktestSafety`, `BacktestSolvency`, `BacktestAccounting`,
`WalkForward`). Signals for any integer parameters, with Python's slices and indices from the end; trading
loop, drawdown pass, profit pairing, expectancy and walk-forward splits, each loop in its own form against a
specification; floats are taken as reals.

**Sliding windows and retries** (`SlidingWindow`, `RateLimit`, `LoginThrottle`, `TransactionRetry`). Rate
limiter and login throttle over whole request histories, sharing one window theorem; the bounded
transaction retry against any operation, commit failures and other transactions included.

`Common` and `Integers` hold an option type and facts about multiples.

## What the proofs found

Where the code does not meet a property everywhere, the exact condition under which it does is proved, with
a concrete failing input.

- `approve_order` does not compare the proposal it evaluates with the order it approves, and the forward
  runner places orders as approved. A budget therefore holds exactly if every approval and placement is
  within it on the order's own terms (`RunVettedExactly`); a review of one share can let 100000 be bought
  (`OneShareReviewApprovesAMillion`). The Telegram command reviews the order's own terms.
- `replace_order` accepts any quantity. Orders stay within their quantity exactly if no accepted replacement
  is negative (`WithinQuantityExactly`); together with a review of something else, a purchase of -5 shares
  mints cash (`ApprovedNegativeOrderMintsCash`).
- A submit that raises because its account is missing has already marked the order as submitted and emitted
  its event; every other raising call changes nothing (`RaisingCalls`, `MissingAccountLeavesAMark`).
- Cash agrees with the ledger exactly as long as every broker that pays from an account writes a label the
  account counts, and no other broker does (`FillDrift`). The platform's two brokers meet this exactly if the
  forward runner's account is not account 1, which it is on a store without accounts; its first purchase
  there makes reconciliation unhealthy (`PlatformBrokersAreCoherent`, `RunnerOpensAccount`,
  `RunnerOnAccountOneIsMisread`).
- After `reset_account` reconciliation is off by the net effect of the old ledger (`ResetDrift`,
  `ResetLosesTheLedger`).
- A limit price with more than two decimals is exceeded, by up to half a cent, exactly when rounding it to
  the cent moves it against the owner (`BuyLimitProtected`, `SellLimitProtected`).
- A portfolio value that is not positive switches the concentration rule off, so that a falling value can
  take a rejection back (`FallingPortfolioValue`, `WorthlessPortfolioApproves`).
- Normalising a price is idempotent, and monotone, under exact conditions on the edges of the tick table
  (`IdempotentExactly`, `MonotoneExactly`). Alignment of boundaries with both adjacent ticks is sufficient,
  the shipped table has it, and there are tables without it on which prices oscillate
  (`UnalignedTableOscillates`).
- Backtests look ahead exactly for moving averages of fast >= slow + 3 with slow >= 2, or fast >= 5 with
  slow = 1: on histories shorter than the fast average its window depends on how many bars follow, and a
  completed run trades where the run without its last bar does not, or the other way round
  (`LookAheadExactly`, `LookAhead`, and for a signal `LengthDependentCrossover`). Every fast average that is
  longer than the slow one raises on histories that reach its length (`FailsExactly`, `WindowedExactly`).
- Backtest cash and equity can go negative exactly if slippage and fee lie on opposite sides of 100 percent
  and the strategy can sell (`SolvencyCondition`); the request schema bounds neither rate from above.
- The rate limiter's bound holds for half-open intervals; for closed ones only if nothing is admitted or the
  window is negative (`ClosedBoundExactly`). The login throttle's holds for closed ones.

## Model

| member | source | states |
|---|---|---|
| `PaperBroker.Broker.SubmitOrder` | backend/app/brokers/paper.py:45-236 | The store and the answer after a submit, raising or not, are those of `PaperModel.SubmitOrder` on the old store |
| `PaperBroker.Broker.SubmitAdmitted` | backend/app/brokers/paper.py:85-127 | Marking, crossing, liquidity cap and fill price, against `PaperModel.SubmitAdmitted` |
| `PaperBroker.Broker.Fill` | backend/app/brokers/paper.py:128-176 | Cash and share checks; a rejection touches only the status and the outbox |
| `PaperBroker.Broker.RecordFill` | backend/app/brokers/paper.py:177-221 | One accepted fill changes one account, one order, one ledger row and at most one outbox row; every other object is unchanged |
| `PaperBroker.Order.Fill` | backend/app/brokers/paper.py:178-186 | Filled quantity, truncated average and status after one more fill |
| `PaperBroker.Broker.HeldQuantity` | backend/app/brokers/paper.py:238-250 | The loop computes the truncated holding of the label and symbol |
| `PaperBroker.Broker.CancelOrder` | backend/app/brokers/paper.py:252-265 | Cancels exactly the orders that are not closed; else raises and changes nothing |
| `PaperBroker.Broker.ReplaceOrder` | backend/app/brokers/paper.py:267-277 | New terms and a return to awaiting approval, exactly for unfilled active orders |
| `PaperBroker.Broker.DeriveCash` | backend/app/brokers/paper.py:291-315 | The loop derives starting cash plus the net effect of exactly the counted rows, and their number |
| `PaperBroker.Broker.Reconcile` | backend/app/brokers/paper.py:279-344 | The report is the one the store determines, and nothing but the outbox changes |
| `PaperBroker.Broker.ResetAccount` | backend/app/brokers/paper.py:346-356 | Overwrites cash and starting cash of one account and nothing else |
| `PaperBroker.Database.EmitEvent` | backend/app/services/events.py:57-73 | An event whose key exists is not added again |
| `PaperOutcomes.SubmitDecides` | backend/app/brokers/paper.py:45-176 | Every submit raises exactly for a reason, which is the one it names, or when it wants to fill and has no account; fills exactly when it wants to and cash or net shares cover the fill; is rejected exactly when they do not; else only marks the order |
| `PaperOutcomes.SubmitAnnounces` | backend/app/brokers/paper.py:90-221 | Exactly which events a submit adds: none for a symbol that does not trade, else the submission and how an attempt to fill ended |
| `PaperOutcomes.FillBooks` | backend/app/brokers/paper.py:112-206 | Every fill of every run is of the smaller of remainder and liquidity cap, at the price that pays the slippage, with the fee on top of a purchase and off a sale, in one ledger row and one account |
| `PaperOutcomes.CancelIsFinal` | backend/app/brokers/paper.py:252-265 | An order that is not closed is cancelled, touching nothing else, and stays so with its fills over every later run; any other raises |
| `PaperOutcomes.ReplaceDecides` | backend/app/brokers/paper.py:267-277 | Replacing is accepted exactly for open orders without fills in the ledger, which then wait with exactly the new terms |
| `PaperOutcomes.ReviewDecides` | backend/app/services/orders.py:194-278 | A review approves a waiting order exactly if the provider is trusted and what is reviewed violates no rule, refuses it otherwise, and touches nothing else |
| `PaperOutcomes.PlaceDecides` | backend/app/services/orders.py:30-144 | A proposal enters exactly under a free key, on its own terms, to wait or refused as the gate says; a placed order enters approved without the gate |
| `PaperOutcomes.ClosingDecides` | backend/app/services/recovery.py:38-46 | Refusing closes waiting orders only, expiring all that are not closed |
| `PaperLedger.HoldingIsNet` | backend/app/brokers/paper.py:238-250 | What is held is the quantities of the label's buy, rights and bonus rows in the symbol less those of its sell rows |
| `PaperLedger.FillMovesHolding` | backend/app/brokers/paper.py:189-206 | A fill moves the holding of its label and symbol by its quantity, up for a buy and down for a sell, and no other |
| `PaperLedger.SalesAreCovered` | backend/app/brokers/paper.py:153-177 | Over every run the shares sold under a label and symbol are at most those held at the start and received since |
| `PaperLedger.CashIsNet` | backend/app/brokers/paper.py:302-315 | The derived cash is sales, dividends and adjustments less purchases, rights, charges, fees and taxes; no other row counts |
| `PaperLedger.ReconcileDecides` | backend/app/brokers/paper.py:279-344 | Reconciling adds nothing but one event for each account, number of its rows and cash; doing it again changes nothing |
| `PaperLedger.ResetStartsOver` | backend/app/brokers/paper.py:346-348 | A reset sets both balances, and later cash is that balance plus the net effect of the rows booked since |
| `PaperOutcomes.NumeralRoundTrip` | backend/app/brokers/paper.py:283-286 | The account id in a key prefix is a decimal numeral that stands for it |
| `PaperOutcomes.KeyScopesAreDisjoint` | backend/app/brokers/paper.py:283-286 | No order key is in the scope of two forward accounts |
| `PaperOutcomes.DuplicatesAreReported` | backend/app/brokers/paper.py:281-321 | Two orders under one key make the report of that key's account, and account 1's, unhealthy, and no other |
| `PaperRuns.CallKeepsSane` | backend/app/brokers/paper.py:45-356 | After every call, whatever it approves, orders that may be filled have no fill or fit their quantity, and orders that wait have none |
| `PaperRuns.CallKeepsInv` | backend/app/brokers/paper.py:45-356 | Every sound call, raising or not, by any broker on any order, keeps the invariant that ties each order to its ledger fills and fill events |
| `PaperRuns.InvariantExactly` | backend/app/services/orders.py:194-278 | A call keeps the invariant if and only if it is sound: it does not approve an order whose own quantity is not positive or whose limit is negative |
| `PaperRuns.PositiveRunsAreSound` | backend/app/brokers/paper.py:267-277 | Whatever the reviews look at, a run is sound if its replacements carry positive quantities and limits that are not negative |
| `PaperRuns.DescribingReviewIsSound` | backend/app/notifications/telegram.py:433-471 | A review of the order's own terms is always sound |
| `PaperRuns.SubmitRecords` | backend/app/brokers/paper.py:85-221 | Every submit of every run records exactly its planned fill, covered by cash or shares, or records none and changes only the status |
| `PaperRuns.SubmitShape` | backend/app/brokers/paper.py:85-221 | On stores that meet the invariant the fill is also of a positive quantity, within the order and its limit |
| `PaperRuns.FillKeyIsFresh` | backend/app/brokers/paper.py:207-221 | The key of a new fill event is never in the outbox, so deduplication never swallows a fill event |
| `PaperRuns.NextAverageIsRunning` | backend/app/brokers/paper.py:178-185 | The stored average is the truncated running average of the ledger fills |
| `PaperRuns.FillPriceWithinLimit` | backend/app/brokers/paper.py:118-127 | A fill price is in whole cents and never passes the limit rounded to the cent |
| `PaperOrderRuns.RunEvolves` | backend/app/brokers/paper.py:178-186 | Over every run: identity never changes, terms only before the first fill, filled quantity never decreases, the ledger only grows |
| `PaperOrderRuns.ClosedOrdersFrozen` | backend/app/brokers/paper.py:252-254 | A filled, cancelled, expired or rejected order is never changed or filled again by any run |
| `PaperOrderRuns.FilledExactly` | backend/app/brokers/paper.py:182-186 | In every reachable store the filled quantity is the sum of the ledger fills, an order with fills is within its quantity, and `filled` holds exactly when fills have reached it |
| `PaperOrderRuns.NextWithinQuantity` | backend/app/brokers/paper.py:267-277 | One call keeps every order within its quantity if and only if it is not an accepted replacement with a negative quantity |
| `PaperOrderRuns.WithinQuantityExactly` | backend/app/brokers/paper.py:267-277 | Over every run all orders are within their quantity at all times if and only if no accepted replacement carries a negative one |
| `PaperOrderRuns.ReplaceAcceptsAnyQuantity` | backend/app/brokers/paper.py:267-277 | The exception: an approved order can be replaced to a negative quantity |
| `PaperOrderRuns.OneEventPerFill` | backend/app/brokers/paper.py:207-221 | Every booked fill has exactly one fill event, in order, keyed by strictly increasing filled quantities |
| `PaperOrderRuns.OutboxKeysDistinct` | backend/app/services/events.py:57-73 | No two outbox rows share an idempotency key over any run, and none is withdrawn |
| `PaperOrderRuns.RaisingCalls` | backend/app/brokers/paper.py:52-83 | A raising call changes nothing, except a submit that finds no account after marking the order; that one changes nothing exactly if the order was marked before |
| `PaperOrderRuns.MissingAccountLeavesAMark` | backend/app/brokers/paper.py:90-128 | The exception at an input: without an account, submitting an approved order raises and leaves it submitted |
| `PaperOrderRuns.ReplacedOrderWaits` | backend/app/brokers/paper.py:267-277 | A replaced order has no fill after any run that does not review it again |
| `PaperMoneyRuns.FillDrift` | backend/app/brokers/paper.py:291-301 | A fill keeps the distance between cash and ledger-derived cash if and only if the broker pays from the account exactly when the account counts its label, or nothing was paid |
| `PaperMoneyRuns.RowMatchesCash` | backend/app/brokers/paper.py:302-307 | What reconciliation derives from a fill row is exactly what the fill did to cash |
| `PaperMoneyRuns.FillMovesDrift` | backend/app/brokers/paper.py:177-206 | How far one fill moves that distance, for every broker and account |
| `PaperMoneyRuns.LedgerConservation` | backend/app/brokers/paper.py:129-206 | Over any interleaving of calls on any orders, whatever is approved, cash stays exactly as far from the ledger-derived cash as at the start |
| `PaperMoneyRuns.PlatformBrokersAreCoherent` | backend/app/services/forward_paper_validation.py:1550-1557 | The desk broker and the forward runner meet the routing condition of conservation for both accounts if and only if the runner's account is not account 1 |
| `PaperMoneyRuns.NextAccountIdIsFree` | backend/app/services/forward_paper_validation.py:864-872 | The rule for a new account names exactly one id, and one without an account |
| `PaperMoneyRuns.RunnerOpensAccount` | backend/app/services/forward_paper_validation.py:864-872 | Opening the runner's account gives a funded account of its own, on which both brokers route coherently once account 1 exists, and on a store without accounts neither does |
| `PaperMoneyRuns.OwnLabelOnAccountOne` | backend/app/brokers/paper.py:293-301 | A label of its own on account 1: the first purchase, of 10 shares at 10.00, makes reconciliation unhealthy: cash 899.60, derived 1000.00 |
| `PaperMoneyRuns.RunnerOnAccountOneIsMisread` | backend/app/services/forward_paper_validation.py:1550-1557 | So it does for the runner's broker on account 1 |
| `PaperMoneyRuns.ResetDrift` | backend/app/brokers/paper.py:346-348 | After a reset the drift is minus the net effect of the ledger, for ever; zero exactly if that is zero |
| `PaperMoneyRuns.ResetLosesTheLedger` | backend/app/brokers/paper.py:346-348 | At an input: an account level with its ledger is 100.40 off after a reset |
| `PaperMoneyRuns.FeeWithinGross` | backend/app/brokers/paper.py:129-130 | The fee is 0.4 percent to the nearest cent and never exceeds the amount |
| `PaperMoneyRuns.NeverOverdrawn` | backend/app/brokers/paper.py:131-177 | No run makes any account's cash negative |
| `PaperMoneyRuns.NothingIsRoundedAway` | backend/app/models/entities.py:164-168 | Every balance of every run fits the stored four decimals exactly |
| `PaperMoneyRuns.KeysStayUnique` | backend/app/services/orders.py:30-32 | Order idempotency keys stay unique over every run |
| `PaperMoneyRuns.ReconciliationHealthy` | backend/app/brokers/paper.py:316-323 | After any run of coherent brokers on a solvent store, reconciliation is healthy if and only if the account was within a cent of its ledger at the start, and reports that distance to the last digit |
| `PaperMoneyRuns.ForeignLabelBreaksReconciliation` | backend/app/brokers/paper.py:293-301 | One fill under a label that account 1 does not count makes its report unhealthy |
| `PaperMoneyRuns.SubmitIsIsolated` | backend/app/brokers/paper.py:177-206 | A submit leaves other accounts, and the derived cash and holdings of other labels, unchanged |
| `PaperMoneyRuns.NeverShort` | backend/app/brokers/paper.py:153-177 | No interleaving makes a holding negative that starts non-negative, for every label and symbol |
| `PaperMoneyRuns.FreshStore` | backend/app/brokers/paper.py:45-356 | A store without orders over any externally recorded ledger satisfies the invariant that all runs start from |
| `PaperFillRuns.PriceSandwich` | backend/app/brokers/paper.py:118-127 | A crossing fill lies between market and limit, exactly for prices in cents and within half a cent otherwise |
| `PaperFillRuns.SlippageHurts` | backend/app/brokers/paper.py:118-127 | More slippage never improves a fill |
| `PaperFillRuns.SlippageIsPaid` | backend/app/brokers/paper.py:118-127 | At every market the price is the market moved by the slippage, to the nearest cent, or the limit to the cent where that is reached first |
| `PaperFillRuns.BuyLimitProtected` | backend/app/brokers/paper.py:122-127 | A buy limit is never exceeded at any market if and only if rounding it to the cent does not round it up |
| `PaperFillRuns.SellLimitProtected` | backend/app/brokers/paper.py:122-127 | The same for sells |
| `PaperFillRuns.OffGridLimitOvershoots` | backend/app/brokers/paper.py:127 | A limit of 10.015 fills at 10.02 |
| `PaperFillRuns.OffGridLimitUndershoots` | backend/app/brokers/paper.py:127 | A sale with a limit of 10.005 fills at 10.00 |
| `PaperFillRuns.RunningAverageBounds` | backend/app/brokers/paper.py:178-185 | The truncated average stays within the fill prices, never exceeds the volume-weighted price, and is short of it by at most a cent per fill after the first |
| `PaperFillRuns.StoredAverageBounds` | backend/app/brokers/paper.py:178-185 | The same of the stored average of every order in every reachable store, against the ledger; it is in whole cents |
| `PaperFillRuns.RunPricesNonNegative` | backend/app/brokers/paper.py:118-127 | No run books a negative price |
| `PaperFillRuns.CapWithinVolume` | backend/app/brokers/paper.py:113 | The liquidity cap is the largest whole number within the participation share of the volume |
| `PaperFillRuns.FillWithinVisibleVolume` | backend/app/brokers/paper.py:84-114 | A fill under a market context takes at most the visible volume behind the queue, through both floors |
| `PaperFillRuns.FillRespectsMarketRules` | backend/app/brokers/paper.py:58-84 | A fill under a market context respects suspension, daily band, minimum liquidity and settlement |
| `PaperFillRuns.UncrossedSubmit` | backend/app/brokers/paper.py:90-117 | A submit that does not cross or finds no volume only sets the status: a partially filled order is `submitted` again |
| `PaperFillRuns.ProductiveStep` | backend/app/brokers/paper.py:112-117 | A productive submit fills the smaller of the remainder and the cap, and completes the order exactly at its quantity |
| `PaperFillRuns.CompletionCount` | backend/app/brokers/paper.py:112-186 | In any interleaving of calls in which the order's fills are capped at c, it is filled after exactly ceil(remaining / c) productive submits, not before and not later |
| `PaperBudgetRuns.WhatCommits` | backend/app/services/orders.py:278 | Only an approving review or a placement lets an order fill, on the order's own terms, and these do not change afterwards |
| `PaperBudgetRuns.NextVettedExactly` | backend/app/services/orders.py:194-278 | One call keeps a property of the terms of all orders that may fill if and only if the order it approves or places has it, whatever the reviewed proposal says |
| `PaperBudgetRuns.RunVettedExactly` | backend/app/services/forward_paper_validation.py:1604-1618 | Over every run the property holds at all times if and only if every approval and placement checks it on the order's own terms |
| `PaperBudgetRuns.DescribingReviewVets` | backend/app/notifications/telegram.py:433-471 | A review of the order's own terms checks them against its trade-value limit |
| `PaperBudgetRuns.SpendingBounded` | backend/app/brokers/paper.py:122-129 | Gross spending of a buy is at most its filled quantity at the rounded limit |
| `PaperBudgetRuns.BudgetSurvives` | backend/app/risk/engine.py:81-83 | If every approval and placement is within a budget on the order's own terms, no fill sequence spends, gross, more than quantity times limit, hence more than the budget, on a limit that rounding to the cent does not raise |
| `PaperBudgetRuns.CommittedTermsCanBeSpent` | backend/app/brokers/paper.py:112-206 | Nothing else limits it: an unfilled order that may fill, with a covering account, can be filled whole at its limit rounded to the cent |
| `PaperBudgetRuns.MismatchedReviewOverspends` | backend/app/services/orders.py:186-278 | After a review whose proposal is not the order, the order's own value can be spent beyond the review's trade-value limit |
| `PaperBudgetRuns.OneShareReviewApprovesAMillion` | backend/app/api/routes.py:390-401 | At an input: a review of one share approves 100000, and 1000000.00 are spent under a limit of 250000.00 |
| `PaperBudgetRuns.ApprovedNegativeOrderMintsCash` | backend/app/brokers/paper.py:112-186 | At an input: an unsound approval of a purchase of -5 shares credits the account and leaves it short |
| `DseExecution.Tier` | backend/app/brokers/dse_execution.py:23-27 | The row that prices a quote: the first whose bound reaches it, else the last |
| `DseExecution.NormalizeWithinHalfTick` | backend/app/brokers/dse_execution.py:29-31 | A normalised price is the nearest multiple of its tick, upwards from half way |
| `DseExecution.NormalizeMonotone` | backend/app/brokers/dse_execution.py:29-31 | On aligned tables normalising is monotone, across tier boundaries too |
| `DseExecution.NormalizeIdempotent` | backend/app/brokers/dse_execution.py:29-31 | On aligned tables normalising twice is normalising once |
| `DseExecution.NormalizeStaysInTier` | backend/app/brokers/dse_execution.py:29-31 | On aligned tables rounding never leaves the closed tier of its input |
| `DseExecution.UnalignedTableOscillates` | backend/app/brokers/dse_execution.py:29-31 | On one unaligned table two prices are normalised into each other for ever |
| `DseTables.IdempotentExactly` | backend/app/brokers/dse_execution.py:23-31 | On any table normalising is idempotent at every price if and only if what each used row's boundaries are rounded to is a multiple of the tick at which it is quoted |
| `DseTables.MonotoneExactly` | backend/app/brokers/dse_execution.py:23-31 | On any table it keeps the order of prices if and only if no row's upper boundary is rounded above where a later row begins |
| `DseTables.WhereRoundingEnds` | backend/app/brokers/dse_execution.py:29-31 | Rounding stays in the tier or ends on one of two edge values of its row |
| `DseTables.UnalignedMayBeIdempotent` | backend/app/brokers/dse_execution.py:29-31 | A table that is not aligned can still be idempotent |
| `DseTables.AlignedTables` | backend/app/brokers/dse_execution.py:23-31 | Alignment implies both conditions |
| `DseTables.BandBracketsPreviousClose` | backend/app/brokers/dse_execution.py:33-37 | Lower bound <= normalised previous close <= upper bound, on every table that keeps the order of prices |
| `DseExecution.ShippedTableAligned` | config/dse_execution_model.yaml:4-8 | The shipped tick table is aligned |
| `DseExecution.BandReachesThePercentage` | backend/app/brokers/dse_execution.py:33-37 | Each bound is the tick nearest to the previous close moved by the configured percentage |
| `DseExecution.ShareWithin` | backend/app/brokers/dse_execution.py:42-43 | The fillable share is the largest whole number within both reductions, at most the volume |
| `DseExecution.FillableWithinVisible` | backend/app/brokers/dse_execution.py:39-43 | In every mode the fillable volume is the largest whole number within the mode's reductions of the visible volume behind the queue |
| `Decimals.RoundHalfEven` | backend/app/brokers/paper.py:127 | Argument-less `quantize`: nearest integer, ties to even |
| `Decimals.RoundHalfEvenUnique` | backend/app/brokers/paper.py:130 | Those two conditions have one solution, so the rounding is fully specified |
| `Decimals.RoundHalfUp` | backend/app/brokers/dse_execution.py:31 | Nearest integer, ties away from zero |
| `Decimals.Trunc` | backend/app/brokers/paper.py:113 | `int()`: truncation toward zero |
| `Decimals.DownCentsProperties` | backend/app/brokers/paper.py:183-185 | `ROUND_DOWN` to the cent is at most its input and less than a cent below it |
| `RiskEngine.Evaluate` | backend/app/risk/engine.py:59-128 | Reports exactly the violated rules, each once and in rule order, and approves if and only if there is none |
| `RiskEngine.PercentagesAreBounds` | backend/app/risk/engine.py:86-114 | The percentage tests are bounds on the position, the limit price and the spread |
| `RiskEngine.ApprovedQuantities` | backend/app/risk/engine.py:81-91 | When no other rule is violated the gate approves exactly the quantities up to one largest quantity |
| `RiskEngine.CodesMonotone` | backend/app/risk/engine.py:59-114 | Tighter limits and symbol lists, a heavier order or a worse state at one portfolio value only add codes |
| `RiskEngine.WhereRulesBegin` | backend/app/risk/engine.py:61-114 | Losses and counts of orders are refused on reaching their limit, sizes, ages, spreads and distances only beyond it |
| `RiskEngine.RejectionIsStable` | backend/app/risk/engine.py:120-122 | Hence none of that turns a rejection into an approval |
| `RiskEngine.FallingPortfolioValue` | backend/app/risk/engine.py:86-91 | A falling portfolio value keeps every code if and only if it stays above a threshold, 0 for limits that are not negative, or the concentration rule had not fired |
| `RiskEngine.WorthlessPortfolioApproves` | backend/app/risk/engine.py:86-91 | At an input: an order refused for a portfolio of 100 is approved for one of 0 |
| `BacktestEngine.ComputeSignals` | backend/app/backtesting/engine.py:93-123 | The in-place signal list of all four strategies, for any integer parameters, or the raised error |
| `BacktestEngine.FillSignals` | backend/app/backtesting/engine.py:105-122 | The loop over the bars: raises if and only if some signal does, else every bar has its signal |
| `BacktestRules.CrossoverMeans` | backend/app/backtesting/engine.py:102-108 | From the first full slow window on the signal compares the mean closes of the two windows, wherever the fast one starts, for all parameters that do not raise |
| `BacktestRules.WindowedCrossoverMeans` | backend/app/backtesting/engine.py:105-108 | With 1 <= fast <= slow: slow times the sum of the last fast closes exceeds fast times the sum of the last slow ones |
| `BacktestRules.MomentumMeans` | backend/app/backtesting/engine.py:109-114 | The close is above the close of lookback bars before, and so is the benchmark's |
| `BacktestRules.BreakoutMeans` | backend/app/backtesting/engine.py:115-122 | The close is above every close of the window, and the volume above the multiplied mean volume |
| `BacktestRules.TradingMeans` | backend/app/backtesting/engine.py:144-185 | On every bar of every history: which signal is executed, that a flat book buys the most it can pay for, if volume covers it, and a held position is sold whole, price, slippage, fee and cash of the trade, and the marked curve |
| `BacktestRules.CompletesExactly` | backend/app/backtesting/engine.py:132-151 | A run completes if and only if there are two bars, the parameters do not raise and no bar opens at zero while its signal is on and every purchase has been sold |
| `BacktestEngine.TradeLoop` | backend/app/backtesting/engine.py:144-185 | The loop computes the book after all bars, unless it buys a bar that opens at zero |
| `BacktestEngine.Drawdown` | backend/app/backtesting/engine.py:195-208 | One pass finds the worst drawdown from the running peak and the longest run of bars below it |
| `BacktestEngine.PairwiseDrawdown` | backend/app/backtesting/engine.py:195-208 | That drawdown is the least values[j] / values[i] - 1 over all i <= j |
| `BacktestEngine.CurveStartsAtCapital` | backend/app/backtesting/engine.py:145-185 | No bar trades before the first signal, so the curve starts at the starting capital |
| `BacktestEngine.RunBacktest` | backend/app/backtesting/engine.py:126-269 | Completes on exactly the histories of the specification; then trades, final equity, drawdown, profits and expectancy are those of the specifications |
| `BacktestNoLookAhead.NoLookAhead` | backend/app/backtesting/engine.py:93-185 | Completed histories that agree before bar k and on its open and volume give the same trades, cash and position through bar k, for every strategy outside the exact exception below |
| `BacktestSignals.SignalUsesThePast` | backend/app/backtesting/engine.py:93-123 | A signal depends on bars and benchmark up to its own bar, and on where its window starts |
| `BacktestSignals.FailsExactly` | backend/app/backtesting/engine.py:102-122 | The signals raise if and only if parameters and number of bars say so, for all integer parameters |
| `BacktestSignals.WindowedExactly` | backend/app/backtesting/engine.py:102-122 | On all histories the signals can be computed and those of a prefix are a prefix, if and only if 1 <= fast <= slow, or the lookback is in range |
| `BacktestSignals.LengthDependentCrossover` | backend/app/backtesting/engine.py:105-108 | At an input: with fast 20 and slow 10 the signal of bar 9 differs between 15 bars and the first 12 of them |
| `BacktestNoLookAhead.PrefixRun` | backend/app/backtesting/engine.py:144-185 | Running on a prefix yields a prefix of the trades and of the equity curve, outside the same exception |
| `BacktestSignals.ExecutedStartsAlike` | backend/app/backtesting/engine.py:105-108 | Outside it, the windows of all signals that can be executed start alike in histories of any two lengths |
| `BacktestLookAhead.LookAheadExactly` | backend/app/backtesting/engine.py:93-185 | Completed runs never look ahead, and prefixes of them are prefixes, if and only if the strategy is not a crossover with fast >= slow + 3 and slow >= 2, or with fast >= 5 and slow = 1 |
| `BacktestLookAhead.LookAhead` | backend/app/backtesting/engine.py:93-185 | For each of those a completed history whose run has traded exactly if the completed run without its last bar has not, with different cash and equity at a bar they share |
| `BacktestSafety.AffordableIsLargest` | backend/app/backtesting/engine.py:148-150 | A buy is the largest multiple of the minimum quantity that the cash pays for, fee included |
| `BacktestSafety.BuysAreLargest` | backend/app/backtesting/engine.py:147-164 | So is every buy of every run, and it is within its bar's volume |
| `BacktestSafety.TradesAlternate` | backend/app/backtesting/engine.py:144-179 | Trades alternate from a buy on, each sell closes exactly the buy before it, and cash is the capital plus the signed sum of trades |
| `BacktestSafety.NeverNegative` | backend/app/backtesting/engine.py:144-185 | While slippage and fee leave a sale worth something, cash and equity are never negative |
| `BacktestSolvency.HoldersStaySolvent` | backend/app/backtesting/engine.py:144-185 | A run whose signal never turns off again never overdraws, whatever the rates |
| `BacktestSolvency.SalesThatCostOverdraw` | backend/app/backtesting/engine.py:93-185 | If sales cost money, every strategy that can sell has a completed run whose equity goes negative |
| `BacktestSolvency.SolvencyCondition` | backend/app/backtesting/engine.py:93-185 | So cash and equity are safe on all completed runs if and only if (1 - slippage)(1 - fee) >= 0 or the strategy can never sell |
| `BacktestAccounting.PairTrades` | backend/app/backtesting/engine.py:218-226 | The first-in, first-out pairing loop |
| `BacktestAccounting.PairingOfAlternating` | backend/app/backtesting/engine.py:218-226 | The queue never holds more than the open buy, and paired profits plus its cost are all the cash that moved |
| `BacktestAccounting.AccountingIdentity` | backend/app/backtesting/engine.py:144-226 | Equity is capital plus paired profits plus the marked gain of the open position, after any number of bars |
| `BacktestAccounting.ExpectancyIsMean` | backend/app/backtesting/engine.py:228-233 | The expectancy formula is the mean profit in every mix of wins and losses |
| `WalkForward.WalkForwardSplits` | backend/app/backtesting/engine.py:342-358 | Raises on a size that is not positive; otherwise floor(spare / test) + 1 adjacent splits, or none if one does not fit |
| `WalkForward.AsManyAsFit` | backend/app/backtesting/engine.py:349-357 | Split k exists if and only if it ends inside the history |
| `WalkForward.SplitsInBounds` | backend/app/backtesting/engine.py:349-357 | Every split's ranges are non-empty, adjacent, disjoint and in bounds |
| `WalkForward.TestRangesTile` | backend/app/backtesting/engine.py:349-357 | Every index of the tested interval lies in exactly one test range |
| `WalkForward.TailIsShort` | backend/app/backtesting/engine.py:349-357 | The unused tail is shorter than a test range |
| `SlidingWindow.WindowBound` | backend/app/core/rate_limit.py:26-36 | Admission below a count of recent entries bounds every interval of the window's length, aligned or not |
| `RateLimit.RateLimiter.Handle` | backend/app/core/rate_limit.py:18-37 | Prunes, refuses or admits one request |
| `RateLimit.PruningIsFaithful` | backend/app/core/rate_limit.py:26-29 | The pruned list counts exactly the recent entries of the full admission log |
| `RateLimit.AnswersAreExact` | backend/app/core/rate_limit.py:31-37 | Each request of every history passes if and only if it is the test client's and opts out, or fewer than the maximum of its client were admitted in the interval (now - window, now] |
| `RateLimit.AtMostMaxPerWindow` | backend/app/core/rate_limit.py:25-37 | At most the maximum in every interval (a, a + window] for every client |
| `RateLimit.ClosedIntervalMayHoldMore` | backend/app/core/rate_limit.py:28 | For every maximum and window a closed interval can hold one more |
| `RateLimit.ClosedBoundExactly` | backend/app/core/rate_limit.py:25-37 | The bound holds of closed intervals if and only if nothing is admitted or the window is negative |
| `RateLimit.ClientsAreIndependent` | backend/app/core/rate_limit.py:26-36 | A client gets the answers it would get alone |
| `LoginThrottle.AuthService.AuthenticateAndCreateSession` | backend/app/core/security.py:80-125 | Refuses, throttles, records a failure or opens a session |
| `LoginThrottle.QueryCountsFailures` | backend/app/core/security.py:92-102 | The stored query counts the failures of a closed window |
| `LoginThrottle.ThrottleIsExact` | backend/app/core/security.py:102-115 | Throttled if and only if that many failures lie in the window, whatever the key; throttling changes nothing and success clears nothing |
| `LoginThrottle.KeyDecides` | backend/app/core/security.py:80-125 | A login that is not throttled gets a session of its role and actor, with its expiry, exactly for its role's key; any other key stores one more failure; unknown roles store nothing |
| `LoginThrottle.SessionsNeedKeys` | backend/app/core/security.py:104-125 | Over every history each session was opened by a login with the key of its role |
| `LoginThrottle.AtMostMaxFailures` | backend/app/core/security.py:92-115 | At most the maximum of failures per fingerprint in every closed window of every history |
| `LoginThrottle.FingerprintsAreIndependent` | backend/app/core/security.py:80-125 | Over every history a fingerprint gets exactly the answers it would get alone |
| `TransactionRetry.RunTransaction` | backend/app/core/database.py:58-79 | At most limit + 1 attempts, all but the last retryable failures; a retryable failure is raised only after the last of them, and a success within the limit is reached; other transactions may commit in between; the store ends as the last attempt read it with the error raised, or with exactly one application of the operation to that state; the final raise is reached only for a negative limit |
| `TransactionRetry.BackoffTotal` | backend/app/core/database.py:78 | k waits add up to delay * (2^k - 1) |
| `TransactionRetry.NeverRetriesOtherFailures` | backend/app/core/database.py:76-77 | No attempt follows a failure that is not retryable |
| `TransactionRetry.FirstStopIsLeast` | backend/app/core/database.py:68-77 | The run stops at the first attempt that succeeds, fails for good or is the last |

## Left out

- Database sessions and flushes, audit rows and their hash chain, event bodies and delivery: of an event only
  its idempotency key is kept, with one constructor for each key format (ids are taken not to contain the
  separator).
- Outbox rows of the order service (proposals and reviews): their key formats differ from the broker's.
- PaperRuns.Call: provider checks and timestamp trust of a review are one flag; approval tokens are left out,
  and the expiry check inside an approval is an expiry step of its own.
- PaperRuns.Run: transactions recorded by hand are only part of the ledger a run starts from, not steps of it,
  and the accelerated campaign drill, which writes an order with a filled quantity and no ledger row, is not a
  step either.
- PaperMoneyRuns.LedgerConservation: for runs whose brokers route coherently and that do not reset the
  account; `FillDrift` and `ResetDrift` say what happens otherwise.
- PaperModel.HasDuplicateKeys: the SQL pattern on order keys is taken as a prefix.
- DseExecution.Band: tick table, percentages and fill modes are parameters; reading them from JSON is left out,
  and a table needs at least one row and positive ticks, without which the source raises.
- Decimals.RoundHalfEven: the 28-digit context of Python's decimals is not modelled; quotients are exact.
- BacktestModel.BookAfter: binary floating point is not modelled, and bars come in timestamp order.
- BacktestEngine.RunBacktest: annualised return, volatility, Sharpe, Sortino and Calmar ratios, profit factor,
  turnover, alpha, exposure and the fee and slippage totals are left out, with the errors they can raise, as
  are the nested walk-forward and sensitivity runs, which call the same kernel again, and the JSON and HTML
  reports.
- BacktestEngine.Drawdown: needs a positive first value; `CurveStartsAtCapital` shows that every run has one.
- RateLimit.AtMostMaxPerWindow: time does not run backwards, and requests that use the test client's bypass
  are not counted.
- LoginThrottle.AtMostMaxFailures: time does not run backwards; hashing, token generation and comparison in
  constant time are left out, and a fingerprint stands for its hash.
- TransactionRetry.RunTransaction: whether an error is retryable is part of the environment, a commit that
  reports failure has not happened, and other transactions commit between attempts, not during one.
- Recovery, campaigns, sessions of the forward runner, providers, notifications, API routes, scripts,
  migrations and the frontend: plumbing around the modelled kernel.
