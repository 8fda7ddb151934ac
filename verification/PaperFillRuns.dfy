/** Prices, averages, volumes and completion of the paper broker's fills. */
module PaperFillRuns {
  import opened Common
  import opened Decimals
  import opened Integers
  import opened PaperModel
  import opened PaperRuns
  import DseExecution

  // ---- The fill price ----

  lemma SlippageNonNegative(c: Config, market: real)
    requires c.slippagePercent >= 0.0 && market >= 0.0
    ensures Slippage(c, market) >= 0.0
  {
    MulNonNegative(market, c.slippagePercent);
  }

  /** After slippage, clamping and rounding a crossing fill lies between market and limit: to
      the cent when they are on the cent grid, within half a cent of them otherwise. */
  lemma PriceSandwich(c: Config, side: Side, limit: real, market: real)
    requires c.slippagePercent >= 0.0 && market >= 0.0
    requires Crosses(side, limit, market)
    ensures var price := FillPrice(c, side, limit, market);
            var (low, high) := if side == Buy then (market, limit) else (limit, market);
            && ToCents(low) <= price <= ToCents(high)
            && (OnCentGrid(low) ==> low <= price)
            && (OnCentGrid(high) ==> price <= high)
            && low - 0.005 <= price <= high + 0.005
  {
    SlippageNonNegative(c, market);
    hide ToCents, OnCentGrid, Slippage;
    var clamped := Clamped(side, Simulated(c, side, market), limit);
    var (low, high) := if side == Buy then (market, limit) else (limit, market);
    ToCentsMonotone(low, clamped);
    ToCentsMonotone(clamped, high);
    ToCentsProperties(low);
    ToCentsProperties(high);
  }

  lemma SlippageMonotone(c: Config, c': Config, market: real)
    requires market >= 0.0 && c.slippagePercent <= c'.slippagePercent
    ensures Slippage(c, market) <= Slippage(c', market)
  {
    MulMonotone(c.slippagePercent, c'.slippagePercent, market);
  }

  /** Slippage works against the order: more of it never improves a fill. */
  lemma SlippageHurts(c: Config, c': Config, limit: real, market: real)
    requires market >= 0.0 && c.slippagePercent <= c'.slippagePercent
    ensures FillPrice(c, Buy, limit, market) <= FillPrice(c', Buy, limit, market)
    ensures FillPrice(c', Sell, limit, market) <= FillPrice(c, Sell, limit, market)
  {
    SlippageMonotone(c, c', market);
    hide ToCents, Slippage;
    ToCentsMonotone(Clamped(Buy, Simulated(c, Buy, market), limit),
                    Clamped(Buy, Simulated(c', Buy, market), limit));
    ToCentsMonotone(Clamped(Sell, Simulated(c', Sell, market), limit),
                    Clamped(Sell, Simulated(c, Sell, market), limit));
  }

  /** The market moved by the configured percentage against the order. */
  function MovedMarket(c: Config, side: Side, market: real): real {
    market * (1.0 + (if side == Buy then c.slippagePercent else -c.slippagePercent) / 100.0)
  }

  lemma SimulatedIsMoved(c: Config, side: Side, market: real)
    ensures Simulated(c, side, market) == MovedMarket(c, side, market)
  {
  }

  /** The market, moved by the slippage, is at the limit or beyond it. */
  predicate LimitReached(c: Config, side: Side, limit: real, market: real) {
    if side == Buy then MovedMarket(c, side, market) >= limit
    else MovedMarket(c, side, market) <= limit
  }

  /** `price` is in whole cents: the limit if the moved market reaches it, else the moved market,
      each to the nearest cent. */
  predicate PaysSlippage(c: Config, side: Side, limit: real, market: real, price: real) {
    var reached := LimitReached(c, side, limit, market);
    var target := if reached then limit else MovedMarket(c, side, market);
    && OnCentGrid(price) && -0.005 <= price - target <= 0.005
    && (reached ==> price == ToCents(limit))
  }

  /** A fill pays the whole slippage, to within half a cent, unless the limit holds it back: market
      and limit alone decide which. */
  lemma SlippageIsPaid(c: Config, side: Side, limit: real, market: real)
    ensures PaysSlippage(c, side, limit, market, FillPrice(c, side, limit, market))
  {
    SimulatedIsMoved(c, side, market);
    hide ToCents, Simulated, MovedMarket;
    ToCentsProperties(Clamped(side, Simulated(c, side, market), limit));
  }

  /** A buy limit is never exceeded, at any market, exactly when rounding it to the cent does
      not round it up. */
  lemma BuyLimitProtected(c: Config, limit: real)
    requires c.slippagePercent >= 0.0 && limit >= 0.0
    ensures (forall market {:trigger FillPrice(c, Buy, limit, market)} ::
               0.0 <= market <= limit ==> FillPrice(c, Buy, limit, market) <= limit)
            <==> ToCents(limit) <= limit
  {
    SlippageNonNegative(c, limit);
    assert FillPrice(c, Buy, limit, limit) == ToCents(limit);
    forall market | 0.0 <= market <= limit && ToCents(limit) <= limit
      ensures FillPrice(c, Buy, limit, market) <= limit
    {
      FillPriceWithinLimit(c, Buy, limit, market);
    }
  }

  /** The same for sells: the limit is a floor exactly when rounding does not lower it. */
  lemma SellLimitProtected(c: Config, limit: real)
    requires c.slippagePercent >= 0.0 && limit >= 0.0
    ensures (forall market {:trigger FillPrice(c, Sell, limit, market)} ::
               limit <= market ==> limit <= FillPrice(c, Sell, limit, market))
            <==> limit <= ToCents(limit)
  {
    SlippageNonNegative(c, limit);
    assert FillPrice(c, Sell, limit, limit) == ToCents(limit);
    forall market | limit <= market && limit <= ToCents(limit)
      ensures limit <= FillPrice(c, Sell, limit, market)
    {
      FillPriceWithinLimit(c, Sell, limit, market);
    }
  }

  /** The half cent is reached: 10.015 rounds to 10.02. */
  lemma OffGridLimitOvershoots(c: Config)
    requires c.slippagePercent >= 0.0
    ensures FillPrice(c, Buy, 10.015, 10.015) == 10.015 + 0.005
  {
    SlippageNonNegative(c, 10.015);
    assert RoundHalfEven(1001.5) == 1002;
  }

  /** 10.005 rounds to 10.00, so a sale falls half a cent short of its limit. */
  lemma OffGridLimitUndershoots(c: Config)
    requires c.slippagePercent >= 0.0
    ensures FillPrice(c, Sell, 10.005, 10.005) == 10.005 - 0.005
  {
    SlippageNonNegative(c, 10.005);
    assert RoundHalfEven(1000.5) == 1000;
  }

  // ---- The stored average ----

  function Value(fills: seq<Transaction>): real {
    if fills == [] then 0.0
    else
      var last := fills[|fills| - 1];
      Value(fills[..|fills| - 1]) + last.Value()
  }

  ghost predicate PricedWithin(fills: seq<Transaction>, low: real, high: real) {
    forall i :: 0 <= i < |fills| ==>
      fills[i].quantity >= 1.0 && OnCentGrid(fills[i].price) && low <= fills[i].price <= high
  }

  /** `average` a share is no more than `value` over all shares. */
  predicate NotAbove(average: real, value: real, shares: real) {
    Amount(average, shares) <= value
  }

  /** `average` a share is short of `value` over all shares by at most `cents` cents. */
  predicate ShortBy(average: real, value: real, shares: real, cents: int) {
    value <= Amount(average + 0.01 * cents as real, shares)
  }

  lemma MixLow(a: real, t: real, p: real, q: real, low: real)
    requires 0.0 <= t && 0.0 <= q && low <= a && low <= p
    ensures Amount(low, t + q) <= Amount(a, t) + Amount(p, q)
  {
    MulNonNegative(a - low, t);
    MulNonNegative(p - low, q);
  }

  lemma MixHigh(a: real, t: real, p: real, q: real, high: real)
    requires 0.0 <= t && 0.0 <= q && a <= high && p <= high
    ensures Amount(a, t) + Amount(p, q) <= Amount(high, t + q)
  {
    MulNonNegative(high - a, t);
    MulNonNegative(high - p, q);
  }

  lemma QuotientLow(n: real, d: real, low: real)
    requires d > 0.0 && Amount(low, d) <= n
    ensures low <= n / d
  {
    QuotientMonotone(low * d, n, d);
    DivideMultiple(low, d);
  }

  lemma QuotientHigh(n: real, d: real, high: real)
    requires d > 0.0 && n <= Amount(high, d)
    ensures n / d <= high
  {
    QuotientMonotone(n, high * d, d);
    DivideMultiple(high, d);
  }

  lemma AmountMonotone(a: real, b: real, shares: real)
    requires a <= b && 0.0 <= shares
    ensures Amount(a, shares) <= Amount(b, shares)
  {
    MulNonNegative(b - a, shares);
  }

  lemma AmountOfQuotient(n: real, d: real)
    requires d > 0.0
    ensures Amount(n / d, d) == n
  {
    MultiplyQuotient(n, d);
  }

  /** Truncating a quotient to the cent does not go above it ... */
  lemma CutNotAbove(n: real, d: real)
    requires d > 0.0 && n >= 0.0
    ensures NotAbove(DownCents(n / d), n, d)
  {
    QuotientLow(n, d, 0.0);
    DownCentsProperties(n / d);
    AmountMonotone(DownCents(n / d), n / d, d);
    AmountOfQuotient(n, d);
  }

  /** ... and loses less than a cent a share. */
  lemma CutShort(n: real, d: real)
    requires d > 0.0 && n >= 0.0
    ensures n <= Amount(DownCents(n / d) + 0.01, d)
  {
    QuotientLow(n, d, 0.0);
    DownCentsProperties(n / d);
    AmountMonotone(n / d, DownCents(n / d) + 0.01, d);
    AmountOfQuotient(n, d);
  }

  lemma AveragedFirst(p: real, q: real)
    requires OnCentGrid(p) && 0.0 <= p && 1.0 <= q
    ensures Averaged(0.0, 0.0, p, q) == p
  {
    assert Amount(0.0, 0.0) + Amount(p, q) == p * q && 0.0 + q == q;
    DivideMultiple(p, q);
    DownCentsProperties(p);
    DownCentsAbove(p, p);
  }

  lemma AveragedWithin(a: real, t: real, p: real, q: real, low: real, high: real)
    requires 0.0 < t && 1.0 <= q && 0.0 <= low && OnCentGrid(low)
    requires low <= a <= high && low <= p <= high
    ensures low <= Averaged(a, t, p, q) <= high
  {
    var n, d := Amount(a, t) + Amount(p, q), t + q;
    MixLow(a, t, p, q, low);
    MixHigh(a, t, p, q, high);
    QuotientLow(n, d, low);
    QuotientHigh(n, d, high);
    DownCentsProperties(n / d);
    DownCentsAbove(n / d, low);
  }

  lemma NotAboveStep(r: real, a: real, t: real, v: real, pq: real, q: real)
    requires NotAbove(a, v, t) && NotAbove(r, Amount(a, t) + pq, t + q)
    ensures NotAbove(r, v + pq, t + q)
  {
  }

  lemma ShortStep(r: real, a: real, t: real, v: real, pq: real, q: real, k: nat)
    requires t >= 0.0 && q >= 0.0
    requires ShortBy(a, v, t, k) && Amount(a, t) + pq <= Amount(r + 0.01, t + q)
    ensures ShortBy(r, v + pq, t + q, k + 1)
  {
    MulNonNegative(0.01 * k as real, q);
  }

  lemma MixNonNegative(a: real, t: real, p: real, q: real)
    requires 0.0 <= t && 0.0 <= q && 0.0 <= a && 0.0 <= p
    ensures 0.0 <= Amount(a, t) + Amount(p, q)
  {
    MulNonNegative(a, t);
    MulNonNegative(p, q);
  }

  lemma AveragedNotAbove(a: real, t: real, v: real, p: real, q: real)
    requires 0.0 < t && 1.0 <= q && 0.0 <= a && 0.0 <= p && NotAbove(a, v, t)
    ensures NotAbove(Averaged(a, t, p, q), v + Amount(p, q), t + q)
  {
    MixNonNegative(a, t, p, q);
    CutNotAbove(Amount(a, t) + Amount(p, q), t + q);
    NotAboveStep(Averaged(a, t, p, q), a, t, v, Amount(p, q), q);
  }

  lemma AveragedShortBy(a: real, t: real, v: real, p: real, q: real, k: nat)
    requires 0.0 < t && 1.0 <= q && 0.0 <= a && 0.0 <= p && ShortBy(a, v, t, k)
    ensures ShortBy(Averaged(a, t, p, q), v + Amount(p, q), t + q, k + 1)
  {
    MixNonNegative(a, t, p, q);
    CutShort(Amount(a, t) + Amount(p, q), t + q);
    ShortStep(Averaged(a, t, p, q), a, t, v, Amount(p, q), q, k);
  }

  lemma TotalAtLeastCount(fills: seq<Transaction>, low: real, high: real)
    requires PricedWithin(fills, low, high)
    ensures Total(fills) >= |fills| as real
  {
  }

  /** An averaging rule: any function of the fills that re-averages at each of them. */
  ghost predicate Reaverages(average: seq<Transaction> -> real) {
    forall earlier: seq<Transaction>, last: Transaction
      {:trigger average(earlier + [last]), average(earlier)} ::
      Total(earlier) + last.quantity != 0.0 ==>
        average(earlier + [last])
          == Averaged(average(earlier), Total(earlier), last.price, last.quantity)
  }

  ghost predicate AverageFits(average: real, fills: seq<Transaction>, low: real, high: real) {
    && low <= average <= high
    && NotAbove(average, Value(fills), Total(fills))
    && ShortBy(average, Value(fills), Total(fills), |fills| - 1)
  }

  lemma FirstFill(average: seq<Transaction> -> real, last: Transaction, low: real, high: real)
    requires Reaverages(average) && average([]) == 0.0
    requires PricedWithin([last], low, high) && 0.0 <= low
    ensures AverageFits(average([last]), [last], low, high)
  {
    assert [last][0] == last;
    AveragedFirst(last.price, last.quantity);
    assert [] + [last] == [last] && [last][..0] == [];
    assert average([] + [last]) == last.price;
    assert Total([last]) == last.quantity && Value([last]) == last.Value();
    assert 0.01 * 0 as real == 0.0;
  }

  lemma NextFill(average: seq<Transaction> -> real, earlier: seq<Transaction>,
                 last: Transaction, low: real, high: real)
    requires Reaverages(average) && earlier != [] && Total(earlier) > 0.0
    requires AverageFits(average(earlier), earlier, low, high)
    requires last.quantity >= 1.0 && low <= last.price <= high && 0.0 <= low && OnCentGrid(low)
    ensures AverageFits(average(earlier + [last]), earlier + [last], low, high)
  {
    assert (earlier + [last])[..|earlier|] == earlier;
    var a, t, v := average(earlier), Total(earlier), Value(earlier);
    AveragedWithin(a, t, last.price, last.quantity, low, high);
    AveragedNotAbove(a, t, v, last.price, last.quantity);
    AveragedShortBy(a, t, v, last.price, last.quantity, |earlier| - 1);
  }

  lemma {:induction false} AverageBounds(average: seq<Transaction> -> real,
                                         fills: seq<Transaction>, low: real, high: real)
    requires Reaverages(average) && average([]) == 0.0
    requires fills != [] && PricedWithin(fills, low, high) && 0.0 <= low && OnCentGrid(low)
    ensures AverageFits(average(fills), fills, low, high)
  {
    var earlier, last := fills[..|fills| - 1], fills[|fills| - 1];
    assert fills == earlier + [last];
    if earlier == [] {
      assert fills == [last];
      FirstFill(average, last, low, high);
    } else {
      TotalAtLeastCount(earlier, low, high);
      AverageBounds(average, earlier, low, high);
      NextFill(average, earlier, last, low, high);
    }
  }

  /** After any number of fills the stored average lies between the lowest and the highest
      fill price, never exceeds the volume-weighted price, and falls short of it by at most
      one cent for every fill after the first. */
  lemma RunningAverageBounds(fills: seq<Transaction>, low: real, high: real)
    requires fills != [] && PricedWithin(fills, low, high) && 0.0 <= low && OnCentGrid(low)
    ensures low <= RunningAverage(fills) <= high
    ensures NotAbove(RunningAverage(fills), Value(fills), Total(fills))
    ensures ShortBy(RunningAverage(fills), Value(fills), Total(fills), |fills| - 1)
  {
    forall earlier: seq<Transaction>, last: Transaction | Total(earlier) + last.quantity != 0.0
      ensures RunningAverage(earlier + [last])
           == Averaged(RunningAverage(earlier), Total(earlier), last.price, last.quantity)
    {
      assert (earlier + [last])[..|earlier|] == earlier;
    }
    AverageBounds(RunningAverage, fills, low, high);
  }

  /** The market of a step is a price and slippage works against the order. */
  predicate Plausible(step: Step) {
    step.Submit? ==> step.market >= 0.0 && step.config.slippagePercent >= 0.0
  }

  ghost predicate PricesNonNegative(s: State) {
    forall id, i :: 0 <= i < |FillsOf(s.ledger, id)| ==> FillsOf(s.ledger, id)[i].price >= 0.0
  }

  lemma PlausiblePrice(c: Config, side: Side, limit: real, market: real)
    requires c.slippagePercent >= 0.0 && market >= 0.0 && limit >= 0.0
    requires Crosses(side, limit, market)
    ensures FillPrice(c, side, limit, market) >= 0.0
  {
    PriceSandwich(c, side, limit, market);
    ToCentsProperties(market);
    ToCentsProperties(limit);
  }

  lemma PricedRow(s: State, row: Transaction, id: OrderId)
    requires PricesNonNegative(s) && row.price >= 0.0
    ensures forall i :: 0 <= i < |FillsOf(s.ledger + [row], id)| ==>
              FillsOf(s.ledger + [row], id)[i].price >= 0.0
  {
    AppendFill(s.ledger, row, id);
  }

  lemma NextPricesNonNegative(s: State, step: Step)
    requires Inv(s) && Sound(s, step) && Plausible(step) && PricesNonNegative(s)
    ensures PricesNonNegative(Next(s, step))
  {
    hide SubmitOrder, Screen, Crosses, Cost, HeldQuantity, FillPrice;
    if step.Submit? && step.id in s.orders {
      var o := s.orders[step.id];
      assert OrderInv(s, step.id);
      var booked, available :=
        SubmitShape(step.config, s, o, step.market, step.volume, step.context);
      if booked {
        var (price, quantity) := Plan(step.config, o, step.market, available);
        PlausiblePrice(step.config, o.side, o.limitPrice.value, step.market);
        hide OrderInv, Inv, FillAllowed;
        forall id {
          PricedRow(s, FillRow(step.config, o.(status := Submitted), price, quantity), id);
        }
      }
    }
  }

  lemma {:induction false} RunPricesNonNegative(s: State, steps: seq<Step>)
    requires Inv(s) && SoundRun(s, steps) && PricesNonNegative(s)
    requires forall i :: 0 <= i < |steps| ==> Plausible(steps[i])
    ensures PricesNonNegative(Run(s, steps))
  {
    if steps != [] {
      var earlier := steps[..|steps| - 1];
      RunPricesNonNegative(s, earlier);
      NextPricesNonNegative(Run(s, earlier), steps[|steps| - 1]);
    }
  }

  lemma AveragedInCents(a: real, t: real, p: real, q: real)
    requires t + q != 0.0
    ensures OnCentGrid(Averaged(a, t, p, q))
  {
    DownCentsOnGrid((Amount(a, t) + Amount(p, q)) / (t + q));
    hide Amount, DownCents, OnCentGrid;
  }

  lemma {:induction false} RunningAverageInCents(fills: seq<Transaction>)
    ensures OnCentGrid(RunningAverage(fills))
  {
    if fills != [] {
      var earlier, last := fills[..|fills| - 1], fills[|fills| - 1];
      if Total(earlier) + last.quantity != 0.0 {
        AveragedInCents(RunningAverage(earlier), Total(earlier), last.price, last.quantity);
      }
      hide Averaged, Total, OnCentGrid;
    }
  }

  /** The average of every order of every reachable store is the truncated running average of
      its ledger fills, in whole cents, with the bounds above against the ledger's own prices. */
  lemma StoredAverageBounds(s: State, steps: seq<Step>, id: OrderId, low: real, high: real)
    requires Inv(s) && SoundRun(s, steps) && id in Run(s, steps).orders
    requires 0.0 <= low && OnCentGrid(low)
    requires forall tx :: tx in FillsOf(Run(s, steps).ledger, id) ==> low <= tx.price <= high
    ensures var o := Run(s, steps).orders[id];
            var fills := FillsOf(Run(s, steps).ledger, id);
            && (fills == [] <==> o.averageFillPrice == None)
            && (fills != [] ==>
                  var average := o.averageFillPrice.value;
                  && OnCentGrid(average) && low <= average <= high
                  && NotAbove(average, Value(fills), o.filledQuantity as real)
                  && ShortBy(average, Value(fills), o.filledQuantity as real, |fills| - 1))
  {
    var s' := Run(s, steps);
    var fills := FillsOf(s'.ledger, id);
    assert OrderInv(s', id);
    forall i | 0 <= i < |fills|
      ensures fills[i].quantity >= 1.0 && OnCentGrid(fills[i].price)
      ensures low <= fills[i].price <= high
    {
      assert FillFits(s'.orders[id], fills[i]) && fills[i] in fills;
    }
    if fills != [] {
      RunningAverageBounds(fills, low, high);
      RunningAverageInCents(fills);
    }
  }

  // ---- Volume ----

  /** A fill under a market context takes no more than the visible volume behind the queue. */
  lemma FillWithinVisibleVolume(s: State, step: Step)
    requires Inv(s) && Sound(s, step) && step.Submit? && step.id in s.orders
    requires step.context.Some? && step.config.rules.Some?
    requires var c := step.config;
             && DseExecution.UnitRate(c.participationRate)
             && (c.fillModel in c.rules.value.fillModes ==>
                   var mode := c.rules.value.fillModes[c.fillModel];
                   && DseExecution.UnitRate(mode.participationRate)
                   && DseExecution.UnitRate(mode.queuePenalty))
    ensures step.id in Next(s, step).orders
    ensures var x := step.context.value;
            Next(s, step).orders[step.id].filledQuantity - s.orders[step.id].filledQuantity
              <= DseExecution.Max0(x.availableVolume - x.queueAhead)
  {
    hide SubmitOrder;
    var c, o, x := step.config, s.orders[step.id], step.context.value;
    assert OrderInv(s, step.id);
    var booked, available := SubmitShape(c, s, o, step.market, step.volume, step.context);
    if booked {
      DseExecution.FillableWithinVisible(c.rules.value, x, c.fillModel);
      CapWithinVolume(c, available);
    }
  }

  /** The cap is the largest whole number within the participation share of the volume. */
  lemma CapWithinVolume(c: Config, volume: int)
    requires DseExecution.UnitRate(c.participationRate) && volume >= 0
    ensures LiquidityCap(c, volume) <= volume
    ensures LiquidityCap(c, volume) as real
              <= DseExecution.Portion(volume as real, c.participationRate)
              < (LiquidityCap(c, volume) + 1) as real
  {
    DseExecution.PortionWithin(volume as real, c.participationRate);
    DseExecution.TruncAtMost(DseExecution.Portion(volume as real, c.participationRate), volume);
  }

  // ---- Market rules ----

  /** A fill under a market context respects every rule of it: the symbol trades, the price is
      inside the daily band, the market is liquid, and what is left to sell is settled. */
  lemma FillRespectsMarketRules(s: State, step: Step)
    requires Inv(s) && Sound(s, step) && step.Submit? && step.id in s.orders
    requires step.context.Some? && step.config.rules.Some?
    ensures var x, rules, o := step.context.value, step.config.rules.value, s.orders[step.id];
            var (lower, upper) := DseExecution.Band(rules, x.previousClose);
            Next(s, step).ledger != s.ledger ==>
              && !x.suspended && !x.noTrade
              && (o.side == Buy ==> step.market < upper)
              && (o.side == Sell ==> lower < step.market)
              && rules.minimumLiquidity <= x.availableVolume
              && (o.side == Sell && x.settledQuantity.Some? ==>
                    o.quantity - o.filledQuantity <= x.settledQuantity.value)
  {
    hide SubmitOrder;
    var o := s.orders[step.id];
    assert OrderInv(s, step.id);
    var booked, available :=
      SubmitShape(step.config, s, o, step.market, step.volume, step.context);
  }

  /** A submit that does not cross, or finds no volume, changes nothing of the order but its
      status: even a partially filled order is `submitted` again, and may be submitted again. */
  lemma UncrossedSubmit(s: State, step: Step, available: int)
    requires Inv(s) && Sound(s, step) && step.Submit? && step.id in s.orders
    requires Screen(step.config, s.orders[step.id], step.market, step.volume, step.context)
          == Admit(available)
    requires || !Crosses(s.orders[step.id].side, s.orders[step.id].limitPrice.value, step.market)
             || available <= 0 || LiquidityCap(step.config, available) == 0
    ensures var o, s' := s.orders[step.id], Next(s, step);
            && s'.orders == s.orders[step.id := o.(status := Submitted)]
            && s'.ledger == s.ledger && s'.accounts == s.accounts
            && o.status in FILLABLE && s'.orders[step.id].status in FILLABLE
  {
    assert OrderInv(s, step.id);
  }

  // ---- Completion ----

  /** A submit of the order that is admitted, crosses, is capped at `cap` shares and is not
      rejected for cash or shares. */
  ghost predicate Productive(s: State, step: Step, id: OrderId, cap: nat)
    requires Inv(s) && Sound(s, step)
  {
    && step.Submit? && step.id == id && id in s.orders
    && step.config.accountId in s.accounts
    && (var o := s.orders[id];
        var screened := Screen(step.config, o, step.market, step.volume, step.context);
        && screened.Admit? && screened.volume > 0
        && Crosses(o.side, o.limitPrice.value, step.market)
        && LiquidityCap(step.config, screened.volume) == cap)
    && id in Next(s, step).orders && Next(s, step).orders[id].status != Rejected
  }

  /** Any call that neither fills the order nor changes its quantity. */
  ghost predicate Idle(s: State, step: Step, id: OrderId)
    requires Inv(s) && Sound(s, step)
  {
    && id in s.orders && id in Next(s, step).orders
    && Next(s, step).orders[id].quantity == s.orders[id].quantity
    && Next(s, step).orders[id].filledQuantity == s.orders[id].filledQuantity
  }

  /** Every fill of the order in the run is capped at `cap`; other calls come in between. */
  ghost predicate Steady(s: State, steps: seq<Step>, id: OrderId, cap: nat)
    requires Inv(s) && SoundRun(s, steps)
  {
    steps != [] ==>
      var n := |steps| - 1;
      && Steady(s, steps[..n], id, cap)
      && (|| Productive(Run(s, steps[..n]), steps[n], id, cap)
          || Idle(Run(s, steps[..n]), steps[n], id))
  }

  /** The number of productive submits in the run. */
  ghost function Productions(s: State, steps: seq<Step>, id: OrderId, cap: nat): nat
    requires Inv(s) && SoundRun(s, steps)
  {
    if steps == [] then 0
    else
      var n := |steps| - 1;
      Productions(s, steps[..n], id, cap)
      + if Productive(Run(s, steps[..n]), steps[n], id, cap) then 1 else 0
  }

  lemma AdmittedFill(c: Config, s: State, o: OrderRow, limit: real, market: real, volume: int)
    requires o.Consistent() && c.accountId in s.accounts
    requires Crosses(o.side, limit, market) && volume > 0 && FillQuantity(c, o, volume) != 0
    ensures var o' := SubmitAdmitted(c, s, o, limit, market, volume).0.orders[o.id];
            var quantity := FillQuantity(c, o, volume);
            || o'.status == Rejected
            || (&& o'.filledQuantity == o.filledQuantity + quantity && o'.quantity == o.quantity
                && (o'.status == Filled <==> o'.filledQuantity == o'.quantity))
  {
    hide FillQuantity, Crosses, Cost, HeldQuantity, NextAverage, FillPrice, Emit;
  }

  lemma ProductiveStep(s: State, step: Step, id: OrderId, cap: nat)
    requires Inv(s) && Sound(s, step) && cap >= 1
    ensures Productive(s, step, id, cap) ==>
              var o, o' := s.orders[id], Next(s, step).orders[id];
              && o.filledQuantity < o.quantity == o'.quantity
              && o'.filledQuantity == (if o.quantity - o.filledQuantity <= cap then o.quantity
                                       else o.filledQuantity + cap)
              && (o'.status == Filled <==> o'.filledQuantity == o'.quantity)
  {
    if Productive(s, step, id, cap) {
      var c, o := step.config, s.orders[id];
      assert OrderInv(s, id);
      hide Screen, Crosses, LiquidityCap, SubmitAdmitted;
      AdmittedFill(c, s, o, o.limitPrice.value, step.market,
                   Screen(c, o, step.market, step.volume, step.context).volume);
    }
  }

  function CeilDiv(n: nat, d: nat): nat
    requires d > 0
  {
    (n + d - 1) / d
  }

  /** What k fills of at most `cap` shares deliver of what remains. */
  function Delivered(remaining: int, k: nat, cap: nat): int {
    if remaining <= k * cap then remaining else k * cap
  }

  lemma DeliveredNext(remaining: int, k: nat, cap: nat)
    requires Delivered(remaining, k, cap) < remaining
    ensures Delivered(remaining, k + 1, cap)
         == if remaining - Delivered(remaining, k, cap) <= cap then remaining
            else Delivered(remaining, k, cap) + cap
  {
    assert (k + 1) * cap == k * cap + cap;
  }

  /** After k productive submits, and any other calls, k fills have been delivered. */
  ghost predicate Progressed(s: State, steps: seq<Step>, id: OrderId, cap: nat)
    requires Inv(s) && SoundRun(s, steps) && id in s.orders
  {
    var o, s', k := s.orders[id], Run(s, steps), Productions(s, steps, id, cap);
    var remaining := o.quantity - o.filledQuantity;
    && id in s'.orders && s'.orders[id].quantity == o.quantity
    && (k > 0 ==> Delivered(remaining, k - 1, cap) < remaining)
    && s'.orders[id].filledQuantity == o.filledQuantity + Delivered(remaining, k, cap)
  }

  lemma {:induction false} ProductiveRun(s: State, steps: seq<Step>, id: OrderId, cap: nat)
    requires Inv(s) && SoundRun(s, steps) && cap >= 1
    requires id in s.orders && s.orders[id].filledQuantity < s.orders[id].quantity
    ensures Steady(s, steps, id, cap) ==> Progressed(s, steps, id, cap)
  {
    hide Call;
    if steps == [] {
      assert 0 * cap == 0;
    } else if Steady(s, steps, id, cap) {
      var n := |steps| - 1;
      ProductiveRun(s, steps[..n], id, cap);
      if Productive(Run(s, steps[..n]), steps[n], id, cap) {
        ProductiveStep(Run(s, steps[..n]), steps[n], id, cap);
        DeliveredNext(s.orders[id].quantity - s.orders[id].filledQuantity,
                      Productions(s, steps[..n], id, cap), cap);
      }
    }
  }

  lemma CeilDivBounds(remaining: nat, n: nat, cap: nat)
    requires cap >= 1 && (n > 0 ==> (n - 1) * cap < remaining)
    ensures remaining <= n * cap <==> n == CeilDiv(remaining, cap)
  {
    var x := remaining + cap - 1;
    assert x == (x / cap) * cap + x % cap;
    assert (n - 1) * cap == n * cap - cap;
    if remaining <= n * cap {
      QuotientUnique(x, cap, n);
    }
  }

  lemma StatusFacts(s: State, id: OrderId)
    requires Inv(s) && id in s.orders
    ensures var o := s.orders[id];
            && o.Consistent() && (o.status == Filled <==> 0 < o.filledQuantity == o.quantity)
            && 0 <= o.filledQuantity
  {
    assert OrderInv(s, id);
  }

  /** In any interleaving of calls in which the order's fills are capped at `cap` shares, it is
      filled after exactly ceil(remaining / cap) productive submits of it, not before and with
      none to spare. */
  lemma CompletionCount(s: State, steps: seq<Step>, id: OrderId, cap: nat, remaining: nat)
    requires Inv(s) && SoundRun(s, steps) && cap >= 1 && id in s.orders
    requires 0 < remaining == s.orders[id].quantity - s.orders[id].filledQuantity
    ensures Steady(s, steps, id, cap) ==>
              && id in Run(s, steps).orders
              && Productions(s, steps, id, cap) <= CeilDiv(remaining, cap)
              && (Run(s, steps).orders[id].status == Filled
                  <==> Productions(s, steps, id, cap) == CeilDiv(remaining, cap))
  {
    hide Call, Run, Steady, Productions;
    if Steady(s, steps, id, cap) {
      var k := Productions(s, steps, id, cap);
      ProductiveRun(s, steps, id, cap);
      assert k > 0 ==> (k - 1) * cap < remaining;
      CeilDivBounds(remaining, k, cap);
      StatusFacts(s, id);
      StatusFacts(Run(s, steps), id);
      CeilDivReached(remaining, k, cap);
    }
  }

  lemma CeilDivReached(remaining: nat, n: nat, cap: nat)
    requires cap >= 1 && remaining > 0 && (n > 0 ==> (n - 1) * cap < remaining)
    ensures n <= CeilDiv(remaining, cap)
  {
    var x := remaining + cap - 1;
    var m := x / cap;
    assert x == m * cap + x % cap;
    if m < n {
      ProductMonotone(m, n - 1, cap);
    }
  }
}
