/** backend/app/risk/engine.py: the pre-trade risk gate. */
module RiskEngine {
  import opened Common
  import opened Decimals

  datatype Limits = Limits(
    maxTradeValue: real,
    maxQuantity: int,
    maxPositionPercent: real,
    maxOrdersPerDay: int,
    maxOpenOrders: int,
    minAverageDailyVolume: int,
    maxProviderDisagreementPercent: real,
    maxPriceDeviationPercent: real,
    maxSpreadPercent: real,
    maxDailyLossPercent: real,
    maxCampaignDrawdownPercent: real,
    repeatedLossCooldownCount: int,
    restrictedSymbols: seq<string>,
    approvedSymbols: seq<string>)

  /** The schema of a proposal only admits positive quantities, limits and prices. */
  datatype Proposal_ = Proposal(
    symbol: string,
    quantity: int,
    limitPrice: Option<real>,
    currentPrice: real,
    unsafeData: bool,
    providerDisagreementPercent: Option<real>,
    bid: Option<real>,
    ask: Option<real>,
    averageDailyVolume: Option<int>)
  {
    predicate Valid() {
      && quantity > 0
      && (limitPrice.Some? ==> limitPrice.value > 0.0)
      && currentPrice > 0.0
      && (bid.Some? ==> bid.value >= 0.0)
      && (ask.Some? ==> ask.value >= 0.0)
    }

    function Price(): real {
      if limitPrice.Some? && limitPrice.value != 0.0 then limitPrice.value else currentPrice
    }

    function Value(): real {
      quantity as real * Price()
    }
  }

  type Proposal = p: Proposal_ | p.Valid()
    witness Proposal("", 1, None, 1.0, false, None, None, None, None)

  datatype Inputs = Inputs(
    killSwitchHealthy: bool,
    portfolioValue: real,
    currentPositionValue: real,
    ordersToday: int,
    openOrders: int,
    dataAgeSeconds: real,
    maxDataAgeSeconds: int,
    dailyLossPercent: real,
    campaignDrawdownPercent: real,
    consecutiveLosses: int,
    strategySuspended: bool,
    restartReconciled: bool,
    reconciliationHealthy: bool)

  datatype Code =
    | KillSwitchNotHealthy | DailyLossLimit | CampaignDrawdownLimit | RepeatedLossCooldown
    | StrategySuspended | RestartReconciliationRequired | ReconciliationMismatch
    | StaleOrUnsafeData | ProviderConflict | MaxTradeValue | MaxQuantity | MaxPositionPercent
    | MaxDailyOrders | MaxOpenOrders | InsufficientLiquidity | RestrictedSymbol
    | SymbolNotApproved | PriceDeviation | SpreadTooWide

  datatype Decision = Decision(approved: bool, rejected: bool, reasonCodes: seq<Code>)

  // ---- The rules ----

  /** `percent` percent of an amount. */
  function Percent(percent: real, amount: real): real {
    percent / 100.0 * amount
  }

  /** When each rule fires, as bounds on the order: what it is worth, how large the position
      becomes, how far its limit lies from the market. The concentration rule is skipped when
      the portfolio value is not positive. */
  predicate Violated(code: Code, limits: Limits, p: Proposal, i: Inputs) {
    match code
    case KillSwitchNotHealthy => !i.killSwitchHealthy
    case DailyLossLimit => i.dailyLossPercent >= limits.maxDailyLossPercent
    case CampaignDrawdownLimit => i.campaignDrawdownPercent >= limits.maxCampaignDrawdownPercent
    case RepeatedLossCooldown => i.consecutiveLosses >= limits.repeatedLossCooldownCount
    case StrategySuspended => i.strategySuspended
    case RestartReconciliationRequired => !i.restartReconciled
    case ReconciliationMismatch => !i.reconciliationHealthy
    case StaleOrUnsafeData => p.unsafeData || i.dataAgeSeconds > i.maxDataAgeSeconds as real
    case ProviderConflict =>
      && p.providerDisagreementPercent.Some?
      && p.providerDisagreementPercent.value > limits.maxProviderDisagreementPercent
    case MaxTradeValue => p.Value() > limits.maxTradeValue
    case MaxQuantity => p.quantity > limits.maxQuantity
    case MaxPositionPercent =>
      && i.portfolioValue > 0.0
      && i.currentPositionValue + p.Value() > Percent(limits.maxPositionPercent, i.portfolioValue)
    case MaxDailyOrders => i.ordersToday >= limits.maxOrdersPerDay
    case MaxOpenOrders => i.openOrders >= limits.maxOpenOrders
    case InsufficientLiquidity =>
      p.averageDailyVolume.Some? && p.averageDailyVolume.value < limits.minAverageDailyVolume
    case RestrictedSymbol => p.symbol in limits.restrictedSymbols
    case SymbolNotApproved =>
      limits.approvedSymbols != [] && p.symbol !in limits.approvedSymbols
    case PriceDeviation =>
      && p.limitPrice.Some?
      && (var margin := Percent(limits.maxPriceDeviationPercent, p.currentPrice);
          || p.limitPrice.value > p.currentPrice + margin
          || p.limitPrice.value < p.currentPrice - margin)
    case SpreadTooWide =>
      && p.bid.Some? && p.bid.value > 0.0 && p.ask.Some? && p.ask.value > 0.0
      && p.bid.value < p.ask.value - Percent(limits.maxSpreadPercent, p.ask.value)
  }

  /** Position of a rule in the evaluation order. */
  function Rank(code: Code): (rank: nat) {
    match code
    case KillSwitchNotHealthy => 0
    case DailyLossLimit => 1
    case CampaignDrawdownLimit => 2
    case RepeatedLossCooldown => 3
    case StrategySuspended => 4
    case RestartReconciliationRequired => 5
    case ReconciliationMismatch => 6
    case StaleOrUnsafeData => 7
    case ProviderConflict => 8
    case MaxTradeValue => 9
    case MaxQuantity => 10
    case MaxPositionPercent => 11
    case MaxDailyOrders => 12
    case MaxOpenOrders => 13
    case InsufficientLiquidity => 14
    case RestrictedSymbol => 15
    case SymbolNotApproved => 16
    case PriceDeviation => 17
    case SpreadTooWide => 18
  }

  // ---- The percentages the engine computes ----

  function Abs(x: real): real {
    if x < 0.0 then -x else x
  }

  function PositionPercent(current: real, value: real, portfolio: real): real
    requires portfolio > 0.0
  {
    (current + value) / portfolio * 100.0
  }

  function DeviationPercent(limit: real, current: real): real
    requires current > 0.0
  {
    Abs(limit - current) / current * 100.0
  }

  function SpreadPercent(bid: real, ask: real): real
    requires ask > 0.0
  {
    (ask - bid) / ask * 100.0
  }

  lemma ProductAbove(x: real, q: real, f: real, d: real)
    requires d > 0.0 && f < q && x == q * d
    ensures f * d < x
  {
    MulStrict(f, q, d);
  }

  lemma ProductExceeds(x: real, q: real, f: real, d: real)
    requires d > 0.0 && x == q * d
    ensures q > f <==> f * d < x
  {
    if q <= f {
      MulMonotone(q, f, d);
    } else {
      ProductAbove(x, q, f, d);
    }
  }

  lemma QuotientExceeds(x: real, d: real, percent: real)
    requires d > 0.0
    ensures x / d * 100.0 > percent <==> x > Percent(percent, d)
  {
    MultiplyQuotient(x, d);
    ProductExceeds(x, x / d, percent / 100.0, d);
  }

  /** The engine's percentage tests are the bounds of the rules. */
  lemma PercentagesAreBounds(limits: Limits, p: Proposal, i: Inputs)
    ensures i.portfolioValue > 0.0 ==>
              (PositionPercent(i.currentPositionValue, p.Value(), i.portfolioValue)
                 > limits.maxPositionPercent
               <==> Violated(MaxPositionPercent, limits, p, i))
    ensures p.limitPrice.Some? ==>
              (DeviationPercent(p.limitPrice.value, p.currentPrice)
                 > limits.maxPriceDeviationPercent
               <==> Violated(PriceDeviation, limits, p, i))
    ensures p.bid.Some? && p.bid.value != 0.0 && p.ask.Some? && p.ask.value > 0.0 ==>
              (SpreadPercent(p.bid.value, p.ask.value) > limits.maxSpreadPercent
               <==> Violated(SpreadTooWide, limits, p, i))
  {
    if i.portfolioValue > 0.0 {
      QuotientExceeds(i.currentPositionValue + p.Value(), i.portfolioValue,
                      limits.maxPositionPercent);
    }
    if p.limitPrice.Some? {
      QuotientExceeds(Abs(p.limitPrice.value - p.currentPrice), p.currentPrice,
                      limits.maxPriceDeviationPercent);
    }
    if p.ask.Some? && p.ask.value > 0.0 && p.bid.Some? {
      QuotientExceeds(p.ask.value - p.bid.value, p.ask.value, limits.maxSpreadPercent);
    }
  }

  // ---- Evaluation ----

  /** `codes` are exactly the rules of rank below `rank` that fire, in evaluation order. */
  ghost predicate Exactly(codes: seq<Code>, rank: nat, fires: Code -> bool) {
    && (forall c :: c in codes <==> Rank(c) < rank && fires(c))
    && (forall j, k :: 0 <= j < k < |codes| ==> Rank(codes[j]) < Rank(codes[k]))
  }

  lemma RankIsInjective(a: Code, b: Code)
    requires Rank(a) == Rank(b)
    ensures a == b
  {
  }

  /** One `if` of `evaluate` with its `reject`. */
  method Apply(codes: seq<Code>, ghost rank: nat, code: Code, condition: bool,
         ghost fires: Code -> bool)
    returns (codes': seq<Code>)
    requires rank == Rank(code) && condition == fires(code)
    requires Exactly(codes, rank, fires)
    ensures Exactly(codes', rank + 1, fires)
  {
    codes' := codes;
    if condition {
      codes' := codes + [code];
    }
    forall c | Rank(c) == Rank(code)
      ensures c == code
    {
      RankIsInjective(c, code);
    }
  }

  /** Kill switch, losses and suspension. */
  method CheckLosses(before: seq<Code>, limits: Limits, p: Proposal, i: Inputs,
         ghost fires: Code -> bool)
    returns (codes: seq<Code>)
    requires forall c :: fires(c) == Violated(c, limits, p, i)
    requires Exactly(before, 0, fires)
    ensures Exactly(codes, 5, fires)
  {
    codes := before;
    codes := Apply(codes, 0, KillSwitchNotHealthy, !i.killSwitchHealthy, fires);
    codes := Apply(codes, 1, DailyLossLimit, i.dailyLossPercent >= limits.maxDailyLossPercent, fires);
    codes := Apply(codes, 2, CampaignDrawdownLimit,
                   i.campaignDrawdownPercent >= limits.maxCampaignDrawdownPercent, fires);
    codes := Apply(codes, 3, RepeatedLossCooldown,
                   i.consecutiveLosses >= limits.repeatedLossCooldownCount, fires);
    codes := Apply(codes, 4, StrategySuspended, i.strategySuspended, fires);
  }

  /** Recovery, reconciliation and market data. */
  method CheckReadiness(before: seq<Code>, limits: Limits, p: Proposal, i: Inputs,
         ghost fires: Code -> bool)
    returns (codes: seq<Code>)
    requires forall c :: fires(c) == Violated(c, limits, p, i)
    requires Exactly(before, 5, fires)
    ensures Exactly(codes, 9, fires)
  {
    codes := before;
    codes := Apply(codes, 5, RestartReconciliationRequired, !i.restartReconciled, fires);
    codes := Apply(codes, 6, ReconciliationMismatch, !i.reconciliationHealthy, fires);
    codes := Apply(codes, 7, StaleOrUnsafeData,
                   p.unsafeData || i.dataAgeSeconds > i.maxDataAgeSeconds as real, fires);
    codes := Apply(codes, 8, ProviderConflict,
                   && p.providerDisagreementPercent.Some?
                   && p.providerDisagreementPercent.value > limits.maxProviderDisagreementPercent,
                   fires);
  }

  /** Size and concentration. */
  method CheckSize(before: seq<Code>, limits: Limits, p: Proposal, i: Inputs,
         ghost fires: Code -> bool)
    returns (codes: seq<Code>)
    requires forall c :: fires(c) == Violated(c, limits, p, i)
    requires Exactly(before, 9, fires)
    ensures Exactly(codes, 12, fires)
  {
    PercentagesAreBounds(limits, p, i);
    codes := before;
    codes := Apply(codes, 9, MaxTradeValue, p.Value() > limits.maxTradeValue, fires);
    codes := Apply(codes, 10, MaxQuantity, p.quantity > limits.maxQuantity, fires);
    codes := Apply(codes, 11, MaxPositionPercent,
                   && i.portfolioValue > 0.0
                   && PositionPercent(i.currentPositionValue, p.Value(), i.portfolioValue)
                      > limits.maxPositionPercent, fires);
  }

  /** Order counts and liquidity. */
  method CheckActivity(before: seq<Code>, limits: Limits, p: Proposal, i: Inputs,
         ghost fires: Code -> bool)
    returns (codes: seq<Code>)
    requires forall c :: fires(c) == Violated(c, limits, p, i)
    requires Exactly(before, 12, fires)
    ensures Exactly(codes, 15, fires)
  {
    codes := before;
    codes := Apply(codes, 12, MaxDailyOrders, i.ordersToday >= limits.maxOrdersPerDay, fires);
    codes := Apply(codes, 13, MaxOpenOrders, i.openOrders >= limits.maxOpenOrders, fires);
    codes := Apply(codes, 14, InsufficientLiquidity,
                   && p.averageDailyVolume.Some?
                   && p.averageDailyVolume.value < limits.minAverageDailyVolume, fires);
  }

  /** Symbol lists. */
  method CheckSymbol(before: seq<Code>, limits: Limits, p: Proposal, i: Inputs,
         ghost fires: Code -> bool)
    returns (codes: seq<Code>)
    requires forall c :: fires(c) == Violated(c, limits, p, i)
    requires Exactly(before, 15, fires)
    ensures Exactly(codes, 17, fires)
  {
    codes := before;
    codes := Apply(codes, 15, RestrictedSymbol, p.symbol in limits.restrictedSymbols, fires);
    codes := Apply(codes, 16, SymbolNotApproved,
                   limits.approvedSymbols != [] && p.symbol !in limits.approvedSymbols, fires);
  }

  /** Limit price and spread. */
  method CheckPrices(before: seq<Code>, limits: Limits, p: Proposal, i: Inputs,
         ghost fires: Code -> bool)
    returns (codes: seq<Code>)
    requires forall c :: fires(c) == Violated(c, limits, p, i)
    requires Exactly(before, 17, fires)
    ensures Exactly(codes, 19, fires)
  {
    PercentagesAreBounds(limits, p, i);
    codes := before;
    codes := Apply(codes, 17, PriceDeviation,
                   && p.limitPrice.Some? && p.limitPrice.value != 0.0
                   && DeviationPercent(p.limitPrice.value, p.currentPrice)
                      > limits.maxPriceDeviationPercent, fires);
    codes := Apply(codes, 18, SpreadTooWide,
                   && p.bid.Some? && p.bid.value != 0.0 && p.ask.Some? && p.ask.value > 0.0
                   && SpreadPercent(p.bid.value, p.ask.value) > limits.maxSpreadPercent, fires);
  }

  /** `RiskEngine.evaluate`: every violated rule is reported once, in rule order, and the
      proposal is approved exactly when no rule is violated. */
  method Evaluate(limits: Limits, p: Proposal, i: Inputs) returns (d: Decision)
    ensures d.approved <==> Approves(limits, p, i)
    ensures d.rejected <==> !d.approved
    ensures forall c :: c in d.reasonCodes <==> Violated(c, limits, p, i)
    ensures forall j, k :: 0 <= j < k < |d.reasonCodes| ==>
              Rank(d.reasonCodes[j]) < Rank(d.reasonCodes[k])
  {
    ghost var fires := c => Violated(c, limits, p, i);
    var codes := CheckLosses([], limits, p, i, fires);
    codes := CheckReadiness(codes, limits, p, i, fires);
    codes := CheckSize(codes, limits, p, i, fires);
    codes := CheckActivity(codes, limits, p, i, fires);
    codes := CheckSymbol(codes, limits, p, i, fires);
    codes := CheckPrices(codes, limits, p, i, fires);
    assert forall c :: Rank(c) < 19;
    assert forall c :: c in codes <==> Violated(c, limits, p, i);
    assert codes != [] ==> codes[0] in codes;
    d := Decision(codes == [], codes != [], codes);
  }

  ghost predicate Approves(limits: Limits, p: Proposal, i: Inputs) {
    forall c :: !Violated(c, limits, p, i)
  }

  // ---- Monotonicity ----

  /** Every numeric limit of `tight` is at least as strict, its list of restricted symbols holds the
      other's, and a list of approved symbols is held by the other's, or replaces an empty one,
      which approves every symbol. */
  ghost predicate Tighter(tight: Limits, loose: Limits) {
    && tight.maxTradeValue <= loose.maxTradeValue
    && tight.maxQuantity <= loose.maxQuantity
    && tight.maxPositionPercent <= loose.maxPositionPercent
    && tight.maxOrdersPerDay <= loose.maxOrdersPerDay
    && tight.maxOpenOrders <= loose.maxOpenOrders
    && tight.minAverageDailyVolume >= loose.minAverageDailyVolume
    && tight.maxProviderDisagreementPercent <= loose.maxProviderDisagreementPercent
    && tight.maxPriceDeviationPercent <= loose.maxPriceDeviationPercent
    && tight.maxSpreadPercent <= loose.maxSpreadPercent
    && tight.maxDailyLossPercent <= loose.maxDailyLossPercent
    && tight.maxCampaignDrawdownPercent <= loose.maxCampaignDrawdownPercent
    && tight.repeatedLossCooldownCount <= loose.repeatedLossCooldownCount
    && (forall x :: x in loose.restrictedSymbols ==> x in tight.restrictedSymbols)
    && (loose.approvedSymbols != [] ==>
          && tight.approvedSymbols != []
          && forall x :: x in tight.approvedSymbols ==> x in loose.approvedSymbols)
  }

  /** The same proposal, for no less quantity, with no less disagreement. */
  ghost predicate Heavier(heavy: Proposal, light: Proposal) {
    && heavy == light.(quantity := heavy.quantity,
                       providerDisagreementPercent := heavy.providerDisagreementPercent)
    && heavy.quantity >= light.quantity
    && (light.providerDisagreementPercent.Some? ==>
          && heavy.providerDisagreementPercent.Some?
          && heavy.providerDisagreementPercent.value >= light.providerDisagreementPercent.value)
  }

  /** No better in any respect the gate looks at, apart from the portfolio value. */
  ghost predicate Worse(bad: Inputs, good: Inputs) {
    && (bad.killSwitchHealthy ==> good.killSwitchHealthy)
    && bad.currentPositionValue >= good.currentPositionValue
    && bad.ordersToday >= good.ordersToday
    && bad.openOrders >= good.openOrders
    && bad.dataAgeSeconds >= good.dataAgeSeconds
    && bad.maxDataAgeSeconds <= good.maxDataAgeSeconds
    && bad.dailyLossPercent >= good.dailyLossPercent
    && bad.campaignDrawdownPercent >= good.campaignDrawdownPercent
    && bad.consecutiveLosses >= good.consecutiveLosses
    && (good.strategySuspended ==> bad.strategySuspended)
    && (bad.restartReconciled ==> good.restartReconciled)
    && (bad.reconciliationHealthy ==> good.reconciliationHealthy)
  }

  /** Where the rules begin: losses and counts of orders are refused on reaching their limit, size,
      age, spread and distance only beyond it. Unsafe data is refused at any age, and a side of the
      market without a price has no spread. */
  lemma WhereRulesBegin(limits: Limits, p: Proposal, i: Inputs)
    ensures i.dailyLossPercent == limits.maxDailyLossPercent ==> Violated(DailyLossLimit, limits, p, i)
    ensures i.campaignDrawdownPercent == limits.maxCampaignDrawdownPercent ==>
              Violated(CampaignDrawdownLimit, limits, p, i)
    ensures i.consecutiveLosses == limits.repeatedLossCooldownCount ==>
              Violated(RepeatedLossCooldown, limits, p, i)
    ensures i.ordersToday == limits.maxOrdersPerDay ==> Violated(MaxDailyOrders, limits, p, i)
    ensures i.openOrders == limits.maxOpenOrders ==> Violated(MaxOpenOrders, limits, p, i)
    ensures p.Value() == limits.maxTradeValue ==> !Violated(MaxTradeValue, limits, p, i)
    ensures p.quantity == limits.maxQuantity ==> !Violated(MaxQuantity, limits, p, i)
    ensures i.currentPositionValue + p.Value()
              == Percent(limits.maxPositionPercent, i.portfolioValue) ==>
              !Violated(MaxPositionPercent, limits, p, i)
    ensures !p.unsafeData && i.dataAgeSeconds == i.maxDataAgeSeconds as real ==>
              !Violated(StaleOrUnsafeData, limits, p, i)
    ensures p.unsafeData ==> Violated(StaleOrUnsafeData, limits, p, i)
    ensures p.bid == Some(0.0) || p.ask == Some(0.0) ==> !Violated(SpreadTooWide, limits, p, i)
    ensures p.providerDisagreementPercent == Some(limits.maxProviderDisagreementPercent) ==>
              !Violated(ProviderConflict, limits, p, i)
    ensures p.averageDailyVolume == Some(limits.minAverageDailyVolume) ==>
              !Violated(InsufficientLiquidity, limits, p, i)
    ensures limits.maxPriceDeviationPercent >= 0.0
            && (var margin := Percent(limits.maxPriceDeviationPercent, p.currentPrice);
                || p.limitPrice == Some(p.currentPrice + margin)
                || p.limitPrice == Some(p.currentPrice - margin)) ==>
              !Violated(PriceDeviation, limits, p, i)
    ensures p.ask.Some?
            && p.bid == Some(p.ask.value - Percent(limits.maxSpreadPercent, p.ask.value)) ==>
              !Violated(SpreadTooWide, limits, p, i)
  {
    if limits.maxPriceDeviationPercent >= 0.0 {
      PercentMonotone(0.0, limits.maxPriceDeviationPercent, p.currentPrice);
    }
  }

  lemma HeavierValue(heavy: Proposal, light: Proposal)
    requires Heavier(heavy, light)
    ensures light.Value() <= heavy.Value()
  {
    MulMonotone(light.quantity as real, heavy.quantity as real, light.Price());
  }

  lemma PercentMonotone(percent: real, percent': real, amount: real)
    requires percent <= percent' && 0.0 <= amount
    ensures Percent(percent, amount) <= Percent(percent', amount)
  {
    MulMonotone(percent / 100.0, percent' / 100.0, amount);
  }

  /** Tightening limits, or worsening the order or the platform's state at one positive
      portfolio value, only ever adds reason codes. */
  lemma CodesMonotone(c: Code, tight: Limits, loose: Limits, heavy: Proposal, light: Proposal,
                      bad: Inputs, good: Inputs)
    requires Tighter(tight, loose) && Heavier(heavy, light) && Worse(bad, good)
    requires bad.portfolioValue == good.portfolioValue
    requires Violated(c, loose, light, good)
    ensures Violated(c, tight, heavy, bad)
  {
    if c.MaxTradeValue? {
      HeavierValue(heavy, light);
    } else if c.MaxPositionPercent? {
      HeavierValue(heavy, light);
      PercentMonotone(tight.maxPositionPercent, loose.maxPositionPercent, good.portfolioValue);
    } else if c.PriceDeviation? {
      PercentMonotone(tight.maxPriceDeviationPercent, loose.maxPriceDeviationPercent,
                      light.currentPrice);
    } else if c.SpreadTooWide? {
      PercentMonotone(tight.maxSpreadPercent, loose.maxSpreadPercent, light.ask.value);
    }
  }

  /** Hence a rejection can never become an approval that way. */
  lemma RejectionIsStable(tight: Limits, loose: Limits, heavy: Proposal, light: Proposal,
                          bad: Inputs, good: Inputs)
    requires Tighter(tight, loose) && Heavier(heavy, light) && Worse(bad, good)
    requires bad.portfolioValue == good.portfolioValue
    ensures Approves(tight, heavy, bad) ==> Approves(loose, light, good)
  {
    forall c | Violated(c, loose, light, good)
      ensures Violated(c, tight, heavy, bad)
    {
      CodesMonotone(c, tight, loose, heavy, light, bad, good);
    }
  }

  /** The portfolio value above which a position of value x passes the concentration rule at any
      lower portfolio value too: 0, unless limit and position are both negative. */
  function LeastPortfolio(percent: real, x: real): real {
    if percent < 0.0 && x < 0.0 then x / (percent / 100.0) else 0.0
  }

  lemma FallingPercent(percent: real, x: real, low: real, high: real)
    requires low <= high && x > Percent(percent, high)
    ensures low > 0.0 && x > Percent(percent, low)
       <==> low > LeastPortfolio(percent, x)
  {
    var f := percent / 100.0;
    if percent >= 0.0 {
      MulMonotone(low, high, f);
    } else if x >= 0.0 {
      if low > 0.0 {
        MulPositive(-f, low);
      }
    } else {
      var bound := x / f;
      assert bound > 0.0 && bound * f == x by { NegativeQuotient(x, f); }
      if low > bound {
        MulStrict(bound, low, -f);
      } else {
        MulMonotone(low, bound, -f);
      }
    }
  }

  lemma NegativeQuotient(x: real, f: real)
    requires x < 0.0 && f < 0.0
    ensures x / f > 0.0 && x / f * f == x
  {
    var q := x / f;
    assert q * f == x;
    if q <= 0.0 {
      MulMonotone(q, 0.0, -f);
    }
  }

  /** The portfolio value is the exception: a falling value keeps every code exactly as long as it
      stays above a threshold, or the rule had not fired: the concentration rule is skipped for
      portfolios that are not positive. The threshold is 0 for limits that are not negative. */
  lemma FallingPortfolioValue(limits: Limits, p: Proposal, good: Inputs, bad: Inputs)
    requires bad == good.(portfolioValue := bad.portfolioValue)
    requires bad.portfolioValue <= good.portfolioValue
    ensures var x := good.currentPositionValue + p.Value();
            (forall c :: Violated(c, limits, p, good) ==> Violated(c, limits, p, bad))
            <==> || bad.portfolioValue > LeastPortfolio(limits.maxPositionPercent, x)
                 || !Violated(MaxPositionPercent, limits, p, good)
  {
    if Violated(MaxPositionPercent, limits, p, good) {
      FallingPercent(limits.maxPositionPercent, good.currentPositionValue + p.Value(),
                     bad.portfolioValue, good.portfolioValue);
    }
    forall c | c != MaxPositionPercent
      ensures Violated(c, limits, p, good) == Violated(c, limits, p, bad)
    {
    }
  }

  /** An order worth 1000 against a portfolio of 100 is refused, and approved once the portfolio
      is worth nothing. */
  lemma WorthlessPortfolioApproves()
    ensures var limits := Limits(250000.0, 100000, 20.0, 20, 10, 10000, 1.0, 2.0, 1.5, 3.0, 10.0, 3,
                                 [], []);
            var p := Proposal("GP", 100, Some(10.0), 10.0, false, None, None, None, None);
            var i := Inputs(true, 100.0, 0.0, 0, 0, 0.0, 30, 0.0, 0.0, 0, false, true, true);
            !Approves(limits, p, i) && Approves(limits, p, i.(portfolioValue := 0.0))
  {
    var limits := Limits(250000.0, 100000, 20.0, 20, 10, 10000, 1.0, 2.0, 1.5, 3.0, 10.0, 3, [], []);
    var p := Proposal("GP", 100, Some(10.0), 10.0, false, None, None, None, None);
    var i := Inputs(true, 100.0, 0.0, 0, 0, 0.0, 30, 0.0, 0.0, 0, false, true, true);
    assert Violated(MaxPositionPercent, limits, p, i);
    forall c
      ensures !Violated(c, limits, p, i.(portfolioValue := 0.0))
    {
    }
  }

  // ---- The largest approved order ----

  function Min(x: real, y: real): real {
    if x <= y then x else y
  }

  /** What one order may be worth: the trade-value limit and, for a positive portfolio, the room
      left under the concentration limit. */
  function Room(limits: Limits, i: Inputs): real {
    if i.portfolioValue > 0.0 then
      Min(limits.maxTradeValue,
          Percent(limits.maxPositionPercent, i.portfolioValue) - i.currentPositionValue)
    else limits.maxTradeValue
  }

  function LargestQuantity(limits: Limits, p: Proposal, i: Inputs): int {
    var affordable := (Room(limits, i) / p.Price()).Floor;
    if affordable <= limits.maxQuantity then affordable else limits.maxQuantity
  }

  lemma WithinQuotient(quantity: int, q: real, price: real, room: real)
    requires price > 0.0 && room == q * price
    ensures quantity as real * price <= room <==> quantity <= q.Floor
  {
    if quantity as real <= q {
      MulMonotone(quantity as real, q, price);
    } else {
      MulStrict(q, quantity as real, price);
    }
  }

  lemma WithinRoom(quantity: int, price: real, room: real)
    requires price > 0.0
    ensures quantity as real * price <= room <==> quantity <= (room / price).Floor
  {
    MultiplyQuotient(room, price);
    WithinQuotient(quantity, room / price, price, room);
  }

  /** When no other rule is violated, the gate is a cap: it approves exactly the quantities up to
      one largest quantity. */
  lemma ApprovedQuantities(limits: Limits, p: Proposal, i: Inputs, quantity: int)
    requires quantity > 0
    requires forall c :: c !in {MaxTradeValue, MaxQuantity, MaxPositionPercent} ==>
               !Violated(c, limits, p, i)
    ensures Approves(limits, p.(quantity := quantity), i)
       <==> quantity <= LargestQuantity(limits, p, i)
  {
    var q := p.(quantity := quantity);
    WithinRoom(quantity, p.Price(), Room(limits, i));
    forall c | c !in {MaxTradeValue, MaxQuantity, MaxPositionPercent}
      ensures !Violated(c, limits, q, i)
    {
      assert !Violated(c, limits, p, i);
    }
    assert q.Value() == quantity as real * p.Price();
    assert Approves(limits, q, i)
      <==> || !(|| Violated(MaxTradeValue, limits, q, i) || Violated(MaxQuantity, limits, q, i)
                || Violated(MaxPositionPercent, limits, q, i));
  }
}
