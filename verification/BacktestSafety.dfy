/** Safety of the trading loop over every history: no overdraft, largest affordable buys,
    strictly alternating trades. */
module BacktestSafety {
  import opened Common
  import opened Decimals
  import opened Integers
  import opened BacktestModel

  // ---- Sizing one buy ----

  /** m is a positive-step multiple of the minimum that the cash pays for. */
  predicate Payable(r: Request, cash: real, open: real, m: int) {
    r.minimumQuantity > 0 && m % r.minimumQuantity == 0 && m as real * UnitCost(r, open) <= cash
  }

  function RoundedDown(cash: real, unit: real, d: int): int
    requires unit > 0.0 && d > 0
  {
    Trunc(cash / unit) - Trunc(cash / unit) % d
  }

  lemma PaysForAtMost(cash: real, unit: real, m: int)
    requires unit > 0.0 && cash >= 0.0 && m as real * unit <= cash
    ensures m <= Trunc(cash / unit)
  {
    MultiplyQuotient(cash, unit);
    CancelFactor(m as real, cash / unit, unit);
    QuotientMonotone(0.0, cash, unit);
  }

  lemma PaysFor(cash: real, unit: real, n: int)
    requires unit > 0.0 && cash >= 0.0 && n <= Trunc(cash / unit)
    ensures n as real * unit <= cash && Trunc(cash / unit) >= 0
  {
    QuotientMonotone(0.0, cash, unit);
    assert n as real <= cash / unit;
    MulMonotone(n as real, cash / unit, unit);
    MultiplyQuotient(cash, unit);
  }

  lemma RoundedDownIsLargest(cash: real, unit: real, d: int)
    requires unit > 0.0 && d > 0 && cash >= 0.0
    ensures var n := RoundedDown(cash, unit, d);
            && 0 <= n && n % d == 0 && n as real * unit <= cash
            && forall m :: m % d == 0 && m as real * unit <= cash ==> m <= n
  {
    var a := Trunc(cash / unit);
    RoundDownToMultiple(a, d);
    PaysFor(cash, unit, a - a % d);
    assert 0 % d == 0;
    forall m | m % d == 0 && m as real * unit <= cash
      ensures m <= a - a % d
    {
      PaysForAtMost(cash, unit, m);
    }
  }

  /** The bought quantity is the largest multiple of the minimum that the cash pays for. */
  lemma AffordableIsLargest(r: Request, cash: real, open: real)
    requires r.Valid() && open > 0.0 && cash >= 0.0
    ensures Payable(r, cash, open, Affordable(r, cash, open))
    ensures Affordable(r, cash, open) >= 0
    ensures forall m :: Payable(r, cash, open, m) ==> m <= Affordable(r, cash, open)
  {
    UnitCostPositive(r, open);
    RoundedDownIsLargest(cash, UnitCost(r, open), r.minimumQuantity);
    assert Affordable(r, cash, open)
        == RoundedDown(cash, UnitCost(r, open), r.minimumQuantity);
  }

  /** The cash a buy takes is its quantity at the unit cost. */
  lemma BuyCost(r: Request, idx: nat, quantity: int, open: real)
    ensures Flow(TradeAt(r, idx, Buy, quantity, open)) == -(quantity as real * UnitCost(r, open))
  {
    var q, p := quantity as real, BuyPrice(r, open);
    Distribute(q, p, r.FeeRate());
  }

  lemma Distribute(q: real, p: real, f: real)
    ensures q * p + q * p * f == q * (p * (1.0 + f))
    ensures q * p - q * p * f == q * (p * (1.0 - f))
  {
    assert p * (1.0 + f) == p + p * f;
    assert p * (1.0 - f) == p - p * f;
    assert q * (p * f) == q * p * f;
  }

  /** What one share brings when it is sold. */
  function UnitProceeds(r: Request, open: real): real {
    SellPrice(r, open) * (1.0 - r.FeeRate())
  }

  lemma SaleProceeds(r: Request, idx: nat, quantity: int, open: real)
    ensures Flow(TradeAt(r, idx, Sell, quantity, open))
         == quantity as real * UnitProceeds(r, open)
  {
    Distribute(quantity as real, SellPrice(r, open), r.FeeRate());
  }

  /** Selling never costs money: slippage and fee are not on opposite sides of 100 percent. */
  predicate SalesPay(r: Request) {
    (1.0 - r.SlipRate()) * (1.0 - r.FeeRate()) >= 0.0
  }

  lemma SalesPayUnit(r: Request, open: real)
    requires open >= 0.0
    ensures UnitProceeds(r, open) == open * ((1.0 - r.SlipRate()) * (1.0 - r.FeeRate()))
    ensures SalesPay(r) ==> UnitProceeds(r, open) >= 0.0
  {
    var a, b := 1.0 - r.SlipRate(), 1.0 - r.FeeRate();
    assert open * a * b == open * (a * b);
    if SalesPay(r) {
      MulNonNegative(open, a * b);
    }
  }

  // ---- One bar ----

  lemma TradeKeepsSolvent(r: Request, cash: real, quantity: int, idx: nat, open: real,
                          volume: nat, target: bool)
    requires r.Valid() && SalesPay(r) && open >= 0.0 && cash >= 0.0 && quantity >= 0
    ensures var t := TradeOf(r, cash, quantity, idx, open, volume, target);
            t.Some? ==> cash + Flow(t.value) >= 0.0
  {
    if target && quantity == 0 && open > 0.0 {
      AffordableIsLargest(r, cash, open);
      BuyCost(r, idx, Affordable(r, cash, open), open);
    } else if !target && quantity > 0 {
      SaleProceeds(r, idx, quantity, open);
      SalesPayUnit(r, open);
      MulNonNegative(quantity as real, UnitProceeds(r, open));
    }
  }

  // ---- Alternation ----

  /** Buys and sells alternate, starting with a buy, at increasing bars; each sell closes
      exactly the buy before it. */
  ghost predicate Alternates(trades: seq<Trade>) {
    && (forall i :: 0 <= i < |trades| ==>
          && trades[i].quantity > 0
          && trades[i].side == (if i % 2 == 0 then Buy else Sell))
    && (forall i :: 0 < i < |trades| ==> trades[i - 1].bar < trades[i].bar)
    && (forall i :: 0 < i < |trades| && i % 2 == 1 ==>
          trades[i].quantity == trades[i - 1].quantity)
  }

  /** The quantity left open by alternating trades. */
  function OpenQuantity(trades: seq<Trade>): int {
    if |trades| % 2 == 0 then 0 else trades[|trades| - 1].quantity
  }

  function FlowSum(trades: seq<Trade>): real {
    if trades == [] then 0.0
    else FlowSum(trades[..|trades| - 1]) + Flow(trades[|trades| - 1])
  }

  ghost predicate BookOk(r: Request, b: Book, k: nat) {
    && Alternates(b.trades)
    && b.quantity == OpenQuantity(b.trades)
    && (forall i :: 0 <= i < |b.trades| ==> b.trades[i].bar < k)
    && b.cash == r.startingCapital + FlowSum(b.trades)
  }

  lemma AppendAlternates(trades: seq<Trade>, t: Trade)
    requires Alternates(trades) && t.quantity > 0
    requires t.side == (if |trades| % 2 == 0 then Buy else Sell)
    requires t.side == Sell ==> t.quantity == OpenQuantity(trades)
    requires forall i :: 0 <= i < |trades| ==> trades[i].bar < t.bar
    ensures Alternates(trades + [t])
    ensures OpenQuantity(trades + [t]) == if t.side == Buy then t.quantity else 0
  {
  }

  lemma AppendFlow(trades: seq<Trade>, t: Trade)
    ensures FlowSum(trades + [t]) == FlowSum(trades) + Flow(t)
  {
    assert (trades + [t])[..|trades|] == trades;
  }

  /** The bar trades only against the position: it buys when flat and sells the whole. */
  lemma TradeFollowsPosition(r: Request, b: Book, idx: nat, open: real, volume: nat, target: bool)
    requires r.Valid() && open >= 0.0
    ensures var t := TradeOf(r, b.cash, b.quantity, idx, open, volume, target);
            t.Some? ==>
              && t.value.bar == idx && t.value.quantity > 0
              && (t.value.side == Buy ==> b.quantity == 0)
              && (t.value.side == Sell ==> t.value.quantity == b.quantity)
  {
  }

  lemma TradeKeepsBook(r: Request, b: Book, t: Option<Trade>, idx: nat)
    requires BookOk(r, b, idx)
    requires t.Some? ==>
               && t.value.bar == idx && t.value.quantity > 0
               && (t.value.side == Buy ==> b.quantity == 0)
               && (t.value.side == Sell ==> t.value.quantity == b.quantity)
    ensures BookOk(r, ApplyTrade(b, t), idx + 1)
  {
    if t.Some? {
      AppendAlternates(b.trades, t.value);
      AppendFlow(b.trades, t.value);
    }
  }

  lemma BarKeepsBook(r: Request, b: Book, idx: nat, bar: Bar, target: bool)
    requires r.Valid() && bar.open >= 0.0 && BookOk(r, b, idx)
    ensures BookOk(r, NextBook(r, b, idx, bar, target), idx + 1)
  {
    var t := TradeOf(r, b.cash, b.quantity, idx, bar.open, bar.Volume(), target);
    TradeFollowsPosition(r, b, idx, bar.open, bar.Volume(), target);
    TradeKeepsBook(r, b, t, idx);
    hide TradeOf, Alternates, FlowSum;
  }

  /** After any number of bars of any history, trades alternate strictly, starting with a buy;
      each sell closes exactly the preceding buy; and cash is the starting capital plus the
      signed sum of all trades. */
  lemma {:induction false} TradesAlternate(r: Request, bars: seq<Bar>, desired: seq<bool>, k: nat)
    requires r.Valid() && PricesOk(bars) && k <= |bars| == |desired|
    ensures BookOk(r, BookAfter(r, bars, desired, k), k)
  {
    if k > 0 {
      TradesAlternate(r, bars, desired, k - 1);
      hide NextBook, BookOk;
      BarKeepsBook(r, BookAfter(r, bars, desired, k - 1), k - 1, bars[k - 1], TargetAt(desired, k - 1));
    }
  }

  // ---- Solvency ----

  ghost predicate Solvent(b: Book) {
    b.cash >= 0.0 && b.quantity >= 0 && forall i :: 0 <= i < |b.curve| ==> b.curve[i] >= 0.0
  }

  lemma BarKeepsSolvent(r: Request, b: Book, idx: nat, bar: Bar, target: bool)
    requires r.Valid() && SalesPay(r) && Solvent(b) && bar.open >= 0.0 && bar.close >= 0.0
    ensures Solvent(NextBook(r, b, idx, bar, target))
  {
    TradeKeepsSolvent(r, b.cash, b.quantity, idx, bar.open, bar.Volume(), target);
    var t := TradeOf(r, b.cash, b.quantity, idx, bar.open, bar.Volume(), target);
    var b' := ApplyTrade(b, t);
    assert b'.quantity >= 0;
    MulNonNegative(b'.quantity as real, bar.close);
  }

  /** While sales pay, cash and every equity value stay non-negative on every history. */
  lemma {:induction false} NeverNegative(r: Request, bars: seq<Bar>, desired: seq<bool>, k: nat)
    requires r.Valid() && SalesPay(r) && PricesOk(bars) && k <= |bars| == |desired|
    ensures Solvent(BookAfter(r, bars, desired, k))
  {
    if k > 0 {
      NeverNegative(r, bars, desired, k - 1);
      var b := BookAfter(r, bars, desired, k - 1);
      var bar, target := bars[k - 1], TargetAt(desired, k - 1);
      BarKeepsSolvent(r, b, k - 1, bar, target);
    }
  }

  /** Without cash nothing is bought. */
  lemma NothingAffordable(r: Request, cash: real, open: real)
    requires r.Valid() && open > 0.0 && cash < 0.0
    ensures Affordable(r, cash, open) <= 0
  {
    UnitCostPositive(r, open);
    QuotientMonotone(cash, 0.0, UnitCost(r, open));
  }

  /** Every buy of a run is the largest payable multiple of the minimum at that moment and no
      more than the bar's volume. */
  lemma BuysAreLargest(r: Request, bars: seq<Bar>, desired: seq<bool>, k: nat)
    requires r.Valid() && PricesOk(bars) && k < |bars| == |desired|
    ensures var before, after := BookAfter(r, bars, desired, k), BookAfter(r, bars, desired, k + 1);
            before.quantity == 0 && after.quantity > 0 ==>
              && |after.trades| == |before.trades| + 1
              && Payable(r, before.cash, bars[k].open, after.quantity)
              && (forall m :: Payable(r, before.cash, bars[k].open, m) ==> m <= after.quantity)
              && after.quantity <= bars[k].Volume()
              && after.cash == before.cash - after.quantity as real * UnitCost(r, bars[k].open)
  {
    var b, open := BookAfter(r, bars, desired, k), bars[k].open;
    Unroll(r, bars, desired, k);
    if open > 0.0 {
      if b.cash < 0.0 {
        NothingAffordable(r, b.cash, open);
      } else {
        AffordableIsLargest(r, b.cash, open);
      }
      BuyCost(r, k, Affordable(r, b.cash, open), open);
    }
  }
}
