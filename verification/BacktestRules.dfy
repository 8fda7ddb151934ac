/** What the signals and the trades of backend/app/backtesting/engine.py mean, read off the bars:
    each strategy's rule, and what one bar makes of cash, position and trades. */
module BacktestRules {
  import opened Common
  import opened Decimals
  import opened BacktestModel
  import opened BacktestSignals
  import opened BacktestSafety

  // ---- Signals ----

  function CloseSum(bars: seq<Bar>): real {
    if bars == [] then 0.0 else CloseSum(bars[..|bars| - 1]) + bars[|bars| - 1].close
  }

  function VolumeSum(bars: seq<Bar>): real {
    if bars == [] then 0.0
    else VolumeSum(bars[..|bars| - 1]) + bars[|bars| - 1].Volume() as real
  }

  lemma {:induction false} SumOfCloses(bars: seq<Bar>, a: nat, b: nat)
    requires a <= b <= |bars|
    ensures Sum(Closes(bars)[a..b]) == CloseSum(bars[a..b])
  {
    if a < b {
      SumOfCloses(bars, a, b - 1);
      assert Closes(bars)[a..b][..b - a - 1] == Closes(bars)[a..b - 1];
      assert bars[a..b][..b - a - 1] == bars[a..b - 1];
    }
  }

  lemma {:induction false} SumOfVolumes(bars: seq<Bar>, a: nat, b: nat)
    requires a <= b <= |bars|
    ensures Sum(Volumes(bars)[a..b]) == VolumeSum(bars[a..b])
  {
    if a < b {
      SumOfVolumes(bars, a, b - 1);
      assert Volumes(bars)[a..b][..b - a - 1] == Volumes(bars)[a..b - 1];
      assert bars[a..b][..b - a - 1] == bars[a..b - 1];
    }
  }

  lemma {:induction false} MaxIsHighest(values: seq<real>, x: real)
    requires values != []
    ensures x > Max(values) <==> forall i :: 0 <= i < |values| ==> x > values[i]
  {
    var n := |values| - 1;
    if n > 0 {
      MaxIsHighest(values[..n], x);
      assert forall i :: 0 <= i < n ==> values[i] == values[..n][i];
    }
  }

  /** Comparing two averages without dividing. */
  lemma MeansCompare(x: real, m: nat, y: real, n: nat)
    requires m > 0 && n > 0
    ensures x / m as real > y / n as real <==> n as real * x > m as real * y
  {
    var p, q, c, d := x / m as real, y / n as real, m as real, n as real;
    MultiplyQuotient(x, c);
    MultiplyQuotient(y, d);
    assert d * x == p * (c * d) && c * y == q * (c * d);
    MulPositive(c, d);
    if p > q {
      MulStrict(q, p, c * d);
    } else {
      MulMonotone(p, q, c * d);
    }
  }

  /** x is above f times the mean of n values that sum to y. */
  predicate Exceeds(x: real, f: real, y: real, n: nat) {
    x * n as real > f * y
  }

  lemma MeanCompares(x: real, mean: real, y: real, n: nat, f: real)
    requires n > 0 && mean == y / n as real
    ensures x > mean * f <==> Exceeds(x, f, y, n)
  {
    var d := n as real;
    MultiplyQuotient(y, d);
    assert f * y == (mean * f) * d;
    if x > mean * f {
      MulStrict(mean * f, x, d);
    } else {
      MulMonotone(x, mean * f, d);
    }
  }

  /** Where the window of `length` bars up to and including `idx` starts: when it is longer than
      what there is before, Python counts its start from the end of the n bars. */
  function WindowStart(n: nat, idx: nat, length: int): int {
    if length <= idx + 1 then idx + 1 - length
    else if length <= n + idx + 1 then n + idx + 1 - length
    else 0
  }

  /** Signals are read bar by bar. */
  lemma SignalOf(bars: seq<Bar>, benchmark: seq<Bar>, strategy: Strategy, idx: nat)
    requires idx < |bars| && !Raises(strategy, |bars|)
    ensures !Fails(bars, benchmark, strategy)
    ensures Signals(bars, benchmark, strategy)[idx]
       <==> FirstSignal(strategy) <= idx && SignalAt(bars, benchmark, strategy, idx) == Some(true)
  {
    FailsExactly(bars, benchmark, strategy);
  }

  /** The mean close from bar a up to bar n is above the one from bar b. */
  predicate HigherMean(bars: seq<Bar>, a: nat, b: nat, n: nat)
    requires a < n && b < n <= |bars|
  {
    (n - b) as real * CloseSum(bars[a..n]) > (n - a) as real * CloseSum(bars[b..n])
  }

  lemma AveragesMean(bars: seq<Bar>, a: nat, b: nat, n: nat)
    requires a < n && b < n <= |bars|
    ensures Mean(Closes(bars)[a..n]) > Mean(Closes(bars)[b..n]) <==> HigherMean(bars, a, b, n)
  {
    SumOfCloses(bars, a, n);
    SumOfCloses(bars, b, n);
    hide Sum, Closes, CloseSum;
    MeansCompare(Sum(Closes(bars)[a..n]), n - a, Sum(Closes(bars)[b..n]), n - b);
  }

  /** Moving averages: from the first full slow window on, the mean close of the fast window is
      above the mean close of the slow one. */
  lemma CrossoverMeans(bars: seq<Bar>, benchmark: seq<Bar>, fast: int, slow: int, idx: nat)
    requires idx < |bars| && !Raises(MaCrossover(fast, slow), |bars|)
    ensures !Fails(bars, benchmark, MaCrossover(fast, slow))
    ensures Signals(bars, benchmark, MaCrossover(fast, slow))[idx]
       <==> && slow <= idx + 1
            && HigherMean(bars, WindowStart(|bars|, idx, fast), idx + 1 - slow, idx + 1)
  {
    SignalOf(bars, benchmark, MaCrossover(fast, slow), idx);
    if slow <= idx + 1 {
      var c, a, b := Closes(bars), WindowStart(|bars|, idx, fast), idx + 1 - slow;
      assert Slice(c, idx - fast + 1, idx + 1) == c[a..idx + 1];
      assert Slice(c, idx - slow + 1, idx + 1) == c[b..idx + 1];
      hide Mean, HigherMean, Slice, Signals, Fails;
      AveragesMean(bars, a, b, idx + 1);
    }
  }

  /** With the windows inside the history: the fast window's closes sum to more than its share of
      the slow window's. */
  lemma WindowedCrossoverMeans(bars: seq<Bar>, benchmark: seq<Bar>, fast: int, slow: int, idx: nat)
    requires 1 <= fast <= slow && slow - 1 <= idx < |bars|
    ensures !Fails(bars, benchmark, MaCrossover(fast, slow))
    ensures Signals(bars, benchmark, MaCrossover(fast, slow))[idx]
       <==> slow as real * CloseSum(bars[idx + 1 - fast..idx + 1])
              > fast as real * CloseSum(bars[idx + 1 - slow..idx + 1])
  {
    CrossoverMeans(bars, benchmark, fast, slow, idx);
    hide CloseSum, Signals, Fails;
  }

  /** Momentum: the close is above the close `lookback` bars before, and so is the benchmark's, as
      long as there is one. */
  lemma MomentumMeans(bars: seq<Bar>, benchmark: seq<Bar>, lookback: int, idx: nat)
    requires idx < |bars| && lookback >= 0
    ensures !Fails(bars, benchmark, MomentumDsex(lookback))
    ensures Signals(bars, benchmark, MomentumDsex(lookback))[idx]
       <==> && lookback <= idx
            && bars[idx].close > bars[idx - lookback].close
            && idx < |benchmark| && benchmark[idx].close > benchmark[idx - lookback].close
  {
    SignalOf(bars, benchmark, MomentumDsex(lookback), idx);
  }

  lemma AboveAll(bars: seq<Bar>, a: nat, idx: nat)
    requires a < idx < |bars|
    ensures bars[idx].close > Max(Closes(bars)[a..idx])
       <==> forall i :: a <= i < idx ==> bars[idx].close > bars[i].close
  {
    var window := Closes(bars)[a..idx];
    MaxIsHighest(window, bars[idx].close);
    forall i | a <= i < idx
      ensures window[i - a] == bars[i].close
    {
    }
    hide Max, Closes;
  }

  /** The volume of bar idx is above the multiplied mean volume from bar a on. */
  predicate LoudVolume(bars: seq<Bar>, a: nat, idx: nat, multiplier: real)
    requires a < idx < |bars|
  {
    Exceeds(bars[idx].Volume() as real, multiplier, VolumeSum(bars[a..idx]), idx - a)
  }

  lemma VolumesMean(bars: seq<Bar>, a: nat, idx: nat, multiplier: real)
    requires a < idx < |bars|
    ensures bars[idx].Volume() as real > Mean(Volumes(bars)[a..idx]) * multiplier
       <==> LoudVolume(bars, a, idx, multiplier)
  {
    MeanVolume(bars, a, idx);
    hide Volumes, VolumeSum, Mean, Exceeds;
    MeanCompares(bars[idx].Volume() as real, Mean(Volumes(bars)[a..idx]), VolumeSum(bars[a..idx]),
                 idx - a, multiplier);
  }

  lemma MeanVolume(bars: seq<Bar>, a: nat, idx: nat)
    requires a < idx < |bars|
    ensures Mean(Volumes(bars)[a..idx]) == VolumeSum(bars[a..idx]) / (idx - a) as real
  {
    SumOfVolumes(bars, a, idx);
    hide Volumes, VolumeSum, Sum;
  }

  /** Breakout: the close is above every close of the window before it, and the volume above the
      multiplied average of the window's volumes. */
  lemma BreakoutMeans(bars: seq<Bar>, benchmark: seq<Bar>, lookback: int, multiplier: real,
                      idx: nat)
    requires idx < |bars| && lookback >= 1
    ensures !Fails(bars, benchmark, VolumeBreakout(lookback, multiplier))
    ensures Signals(bars, benchmark, VolumeBreakout(lookback, multiplier))[idx]
       <==> && lookback <= idx
            && (forall i :: idx - lookback <= i < idx ==> bars[idx].close > bars[i].close)
            && LoudVolume(bars, idx - lookback, idx, multiplier)
  {
    SignalOf(bars, benchmark, VolumeBreakout(lookback, multiplier), idx);
    if lookback <= idx {
      var c, v, a := Closes(bars), Volumes(bars), idx - lookback;
      assert Slice(c, a, idx) == c[a..idx] && Slice(v, a, idx) == v[a..idx];
      assert At(c, idx) == Some(bars[idx].close) && At(v, idx) == Some(bars[idx].Volume() as real);
      hide Mean, Max, LoudVolume, Slice, At, Signals, Fails;
      AboveAll(bars, a, idx);
      VolumesMean(bars, a, idx, multiplier);
    }
  }

  // ---- Trades ----

  /** n is the largest multiple of the minimum that the cash pays for at the bar's open. */
  ghost predicate MostPayable(r: Request, cash: real, open: real, n: int) {
    && Payable(r, cash, open, n)
    && forall m :: Payable(r, cash, open, m) ==> m <= n
  }

  /** The trades that the loop makes of n shares at a bar's open: slippage moves the price against
      the account, the fee is a share of what is paid. */
  function Purchase(k: nat, open: real, n: int, slip: real, fee: real): Trade {
    var price := open * (1.0 + slip);
    Trade(k, Buy, n, price, n as real * price * fee, open * slip)
  }

  function Sale(k: nat, open: real, n: int, slip: real, fee: real): Trade {
    var price := open * (1.0 - slip);
    Trade(k, Sell, n, price, n as real * price * fee, open * slip)
  }

  /** b' is b after one purchase. */
  predicate Bought(b: Book, b': Book, t: Trade) {
    && b'.quantity == t.quantity && b'.cash == b.cash - t.quantity as real * t.price - t.fee
    && b'.trades == b.trades + [t]
  }

  /** b' is b after the sale of the whole position. */
  predicate SoldOut(b: Book, b': Book, t: Trade) {
    && b'.quantity == 0 && b'.cash == b.cash + t.quantity as real * t.price - t.fee
    && b'.trades == b.trades + [t]
  }

  predicate Idle(b: Book, b': Book) {
    b'.quantity == b.quantity && b'.cash == b.cash && b'.trades == b.trades
  }

  lemma MostPayableIsAffordable(r: Request, cash: real, open: real, n: int)
    requires r.Valid() && open > 0.0 && MostPayable(r, cash, open, n) && n > 0
    ensures n == Affordable(r, cash, open)
  {
    UnitCostPositive(r, open);
    MulPositive(n as real, UnitCost(r, open));
    AffordableIsLargest(r, cash, open);
  }

  lemma LeastMultiple(n: int, d: int)
    requires d > 0 && n > 0 && n % d == 0
    ensures d <= n && d % d == 0
  {
  }

  lemma NothingPayable(r: Request, cash: real, open: real)
    requires r.Valid() && open > 0.0 && !Payable(r, cash, open, r.minimumQuantity)
    ensures Affordable(r, cash, open) <= 0
  {
    UnitCostPositive(r, open);
    hide UnitCost, Affordable;
    if cash < 0.0 {
      NothingAffordable(r, cash, open);
    } else {
      AffordableIsLargest(r, cash, open);
      var n, d := Affordable(r, cash, open), r.minimumQuantity;
      if n > 0 {
        LeastMultiple(n, d);
        MulMonotone(d as real, n as real, UnitCost(r, open));
      }
    }
  }

  lemma TradesAre(r: Request, k: nat, open: real, n: int)
    ensures TradeAt(r, k, Buy, n, open) == Purchase(k, open, n, r.SlipRate(), r.FeeRate())
    ensures TradeAt(r, k, Sell, n, open) == Sale(k, open, n, r.SlipRate(), r.FeeRate())
  {
  }

  /** A bar that follows a signal which is on, and finds no position, buys the most that the cash
      pays for, if that is anything and the bar's volume covers it. */
  lemma BuyBarMeans(r: Request, b: Book, k: nat, bar: Bar, n: int)
    requires r.Valid() && b.quantity == 0 && bar.open > 0.0
    requires n > 0 && MostPayable(r, b.cash, bar.open, n)
    ensures var b' := NextBook(r, b, k, bar, true);
            if n <= bar.Volume()
            then Bought(b, b', Purchase(k, bar.open, n, r.SlipRate(), r.FeeRate()))
            else Idle(b, b')
  {
    MostPayableIsAffordable(r, b.cash, bar.open, n);
    TradesAre(r, k, bar.open, n);
    assert TradeAt(r, k, Buy, n, bar.open).side == Buy;
    hide Affordable, MostPayable, TradeAt, Purchase;
  }

  lemma PoorBar(r: Request, b: Book, k: nat, bar: Bar)
    requires r.Valid() && b.quantity == 0 && bar.open > 0.0
    requires !Payable(r, b.cash, bar.open, r.minimumQuantity)
    ensures Idle(b, NextBook(r, b, k, bar, true))
  {
    NothingPayable(r, b.cash, bar.open);
    hide Affordable, Payable, TradeAt;
  }

  /** A bar that follows a signal which is off sells the whole position. */
  lemma SellBarMeans(r: Request, b: Book, k: nat, bar: Bar)
    requires r.Valid() && b.quantity > 0 && bar.open >= 0.0
    ensures SoldOut(b, NextBook(r, b, k, bar, false),
                    Sale(k, bar.open, b.quantity, r.SlipRate(), r.FeeRate()))
  {
    TradesAre(r, k, bar.open, b.quantity);
    assert TradeAt(r, k, Sell, b.quantity, bar.open).side == Sell;
    hide TradeAt, Sale;
  }

  lemma BarMarks(r: Request, b: Book, idx: nat, bar: Bar, target: bool)
    requires r.Valid() && bar.open >= 0.0 && b.quantity >= 0
    ensures var b' := NextBook(r, b, idx, bar, target);
            && b'.curve == b.curve + [b'.Equity(bar.close)]
            && ((target <==> b.quantity > 0) ==> Idle(b, b'))
  {
    var t := TradeOf(r, b.cash, b.quantity, idx, bar.open, bar.Volume(), target);
    assert (target <==> b.quantity > 0) ==> t == None;
    MarkMarks(ApplyTrade(b, t), bar.close);
    hide TradeOf, Flow, Mark;
  }

  lemma MarkMarks(b: Book, close: real)
    ensures var b' := Mark(b, close);
            b'.curve == b.curve + [b'.Equity(close)] && Idle(b, b')
  {
    assert Mark(b, close).Equity(close) == b.Equity(close);
  }

  /** The trading loop, bar by bar over every history: the bar after a signal trades as the signal
      says, every other bar leaves cash, position and trades alone, and the curve is marked at
      every close. */
  lemma TradingMeans(r: Request, bars: seq<Bar>, desired: seq<bool>, k: nat, n: int)
    requires r.Valid() && PricesOk(bars) && k < |bars| == |desired|
    ensures var b, b' := BookAfter(r, bars, desired, k), BookAfter(r, bars, desired, k + 1);
            var bar, wanted := bars[k], k > 0 && desired[k - 1];
            var slip, fee := r.slippagePercent / 100.0, r.feePercent / 100.0;
            && b'.curve == b.curve + [b'.Equity(bar.close)]
            && (wanted && b.quantity == 0 && bar.open > 0.0 ==>
                  && (n > 0 && MostPayable(r, b.cash, bar.open, n) ==>
                        if n <= bar.Volume() then Bought(b, b', Purchase(k, bar.open, n, slip, fee))
                        else Idle(b, b'))
                  && (!Payable(r, b.cash, bar.open, r.minimumQuantity) ==> Idle(b, b')))
            && (!wanted && b.quantity > 0 ==>
                  SoldOut(b, b', Sale(k, bar.open, b.quantity, slip, fee)))
            && ((wanted <==> b.quantity > 0) ==> Idle(b, b'))
  {
    var b, bar := BookAfter(r, bars, desired, k), bars[k];
    BookStep(r, bars, desired, k);
    TradesAlternate(r, bars, desired, k);
    assert b.quantity >= 0;
    BarMarks(r, b, k, bar, TargetAt(desired, k));
    hide BookAfter, BookOk, NextBook, MostPayable, Payable, Bought, SoldOut, Purchase, Sale;
    if k > 0 && desired[k - 1] {
      if b.quantity == 0 && bar.open > 0.0 {
        if n > 0 && MostPayable(r, b.cash, bar.open, n) {
          BuyBarMeans(r, b, k, bar, n);
        }
        if !Payable(r, b.cash, bar.open, r.minimumQuantity) {
          PoorBar(r, b, k, bar);
        }
      }
    } else if b.quantity > 0 {
      SellBarMeans(r, b, k, bar);
    }
  }

  // ---- When a run completes ----

  /** The bar opens at zero while the signal before it is on and every purchase has been sold. */
  predicate BuysForNothing(r: Request, bars: seq<Bar>, desired: seq<bool>, k: nat)
    requires r.Valid() && PricesOk(bars) && k < |bars| == |desired|
  {
    && k > 0 && desired[k - 1] && bars[k].open == 0.0
    && |BookAfter(r, bars, desired, k).trades| % 2 == 0
  }

  lemma BuysAtZeroExactly(r: Request, bars: seq<Bar>, desired: seq<bool>, k: nat)
    requires r.Valid() && PricesOk(bars) && k < |bars| == |desired|
    ensures BuysAtZero(r, bars, desired, k) <==> BuysForNothing(r, bars, desired, k)
  {
    TradesAlternate(r, bars, desired, k);
    hide BookAfter, FlowSum;
  }

  /** A run completes exactly on histories of at least two bars for which the parameters do not
      raise and no bar is bought for nothing. */
  lemma CompletesExactly(r: Request, bars: seq<Bar>, benchmark: seq<Bar>)
    requires r.Valid() && PricesOk(bars)
    ensures Completes(r, bars, benchmark)
       <==> && |bars| >= 2 && !Raises(r.strategy, |bars|) && !Fails(bars, benchmark, r.strategy)
            && (var desired := Signals(bars, benchmark, r.strategy);
                forall k :: 0 <= k < |bars| ==> !BuysForNothing(r, bars, desired, k))
  {
    if |bars| >= 2 {
      FailsExactly(bars, benchmark, r.strategy);
      hide Fails, Signals, BuysAtZero, BuysForNothing, Raises;
      if !Fails(bars, benchmark, r.strategy) {
        forall k | 0 <= k < |bars| {
          BuysAtZeroExactly(r, bars, Signals(bars, benchmark, r.strategy), k);
        }
      }
    }
  }
}
