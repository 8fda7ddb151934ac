/** When the trading loop can overdraw the account: the exact condition on a request, over all
    histories on which its run completes. */
module BacktestSolvency {
  import opened Common
  import opened Decimals
  import opened Integers
  import opened BacktestModel
  import opened BacktestSignals
  import opened BacktestNoLookAhead
  import opened BacktestSafety

  // ---- Strategies that never sell ----

  /** On some history the strategy buys and then sells. Where the fast average is the longer one,
      runs complete only on histories shorter than it, and these must have room for a signal,
      a purchase and a sale. */
  predicate CanSell(strategy: Strategy) {
    match strategy
    case BuyHold => false
    case MaCrossover(fast, slow) =>
      || 1 <= fast < slow
      || (2 <= slow && slow + 3 <= fast)
      || (slow == 1 && 6 <= fast)
    case MomentumDsex(lookback) => 1 <= lookback
    case VolumeBreakout(lookback, _) => 1 <= lookback
  }

  /** Once in the market, the signal stays there, up to the last bar, which is never executed. */
  ghost predicate NeverTurns(desired: seq<bool>) {
    forall i, j :: 0 <= i < j < |desired| - 1 && desired[i] ==> desired[j]
  }

  /** A history on which a longer fast average can be computed is too short for a signal before
      its last two bars. */
  lemma EarlySignalIsOff(bars: seq<Bar>, fast: int, slow: int, i: nat)
    requires bars != [] && !Raises(MaCrossover(fast, slow), |bars|) && slow < fast
    requires !CanSell(MaCrossover(fast, slow)) && !Fails(bars, [], MaCrossover(fast, slow))
    requires i + 2 < |bars|
    ensures !Signals(bars, [], MaCrossover(fast, slow))[i]
  {
    if slow - 1 <= i {
      assert slow == 1 && |bars| <= 4;
      assert Clip(|bars|, i - fast + 1) == i;
      assert SignalAt(bars, [], MaCrossover(fast, slow), i) == Some(false);
    }
  }

  lemma ShortCrossoverHolds(bars: seq<Bar>, fast: int, slow: int)
    requires bars != [] && !Raises(MaCrossover(fast, slow), |bars|) && slow < fast
    requires !CanSell(MaCrossover(fast, slow)) && !Fails(bars, [], MaCrossover(fast, slow))
    ensures NeverTurns(Signals(bars, [], MaCrossover(fast, slow)))
  {
    hide Signals, Fails;
    forall i: nat | i + 2 < |bars|
      ensures !Signals(bars, [], MaCrossover(fast, slow))[i]
    {
      EarlySignalIsOff(bars, fast, slow, i);
    }
  }

  lemma SameBenchmark(bars: seq<Bar>, benchmark: seq<Bar>, fast: int, slow: int)
    requires !Fails(bars, benchmark, MaCrossover(fast, slow))
    ensures !Fails(bars, [], MaCrossover(fast, slow))
    ensures Signals(bars, benchmark, MaCrossover(fast, slow))
         == Signals(bars, [], MaCrossover(fast, slow))
  {
    var s := MaCrossover(fast, slow);
    assert forall idx :: SignalAt(bars, [], s, idx) == SignalAt(bars, benchmark, s, idx);
  }

  lemma EqualWindows(bars: seq<Bar>, benchmark: seq<Bar>, strategy: Strategy, i: nat)
    requires !Fails(bars, benchmark, strategy) && i < |bars|
    requires (exists n :: strategy == MaCrossover(n, n)) || strategy == MomentumDsex(0)
    ensures !Signals(bars, benchmark, strategy)[i]
  {
  }

  lemma HoldingStrategies(bars: seq<Bar>, benchmark: seq<Bar>, strategy: Strategy)
    requires bars != [] && !Fails(bars, benchmark, strategy) && !CanSell(strategy)
    ensures NeverTurns(Signals(bars, benchmark, strategy))
  {
    FailsExactly(bars, benchmark, strategy);
    match strategy
    case BuyHold =>
    case VolumeBreakout(_, _) =>
    case MomentumDsex(lookback) =>
      forall i | 0 <= i < |bars| ensures !Signals(bars, benchmark, strategy)[i] {
        EqualWindows(bars, benchmark, strategy, i);
      }
    case MaCrossover(fast, slow) =>
      if fast == slow {
        forall i | 0 <= i < |bars| ensures !Signals(bars, benchmark, strategy)[i] {
          EqualWindows(bars, benchmark, strategy, i);
        }
      } else if slow < fast {
        SameBenchmark(bars, benchmark, fast, slow);
        ShortCrossoverHolds(bars, fast, slow);
      }
  }

  lemma BarHolds(r: Request, b: Book, idx: nat, bar: Bar, target: bool)
    requires r.Valid() && Solvent(b) && bar.open >= 0.0 && bar.close >= 0.0
    requires b.quantity > 0 ==> target
    ensures var next := NextBook(r, b, idx, bar, target);
            Solvent(next) && (next.quantity > 0 ==> target)
  {
    var t := TradeOf(r, b.cash, b.quantity, idx, bar.open, bar.Volume(), target);
    if target && b.quantity == 0 && bar.open > 0.0 {
      AffordableIsLargest(r, b.cash, bar.open);
      BuyCost(r, idx, Affordable(r, b.cash, bar.open), bar.open);
    }
    var b' := ApplyTrade(b, t);
    MulNonNegative(b'.quantity as real, bar.close);
  }

  /** Without a sale nothing is ever overdrawn. */
  lemma {:induction false} HoldersStaySolvent(r: Request, bars: seq<Bar>, desired: seq<bool>,
                                              k: nat)
    requires r.Valid() && PricesOk(bars) && k <= |bars| == |desired| && NeverTurns(desired)
    ensures var b := BookAfter(r, bars, desired, k);
            Solvent(b) && (b.quantity > 0 ==> k >= 2 && desired[k - 2])
  {
    if k > 0 {
      HoldersStaySolvent(r, bars, desired, k - 1);
      BookStep(r, bars, desired, k - 1);
      BarHolds(r, BookAfter(r, bars, desired, k - 1), k - 1, bars[k - 1],
               TargetAt(desired, k - 1));
    }
  }

  // ---- Spending everything on one purchase ----

  lemma UnitCostScales(r: Request, open: real)
    ensures UnitCost(r, open) == open * UnitCost(r, 1.0)
  {
    var a, b := 1.0 + r.SlipRate(), 1.0 + r.FeeRate();
    assert open * a * b == open * (a * b);
  }

  lemma ExactShare(c: real, d: int)
    requires c > 0.0 && d > 0
    ensures c / d as real > 0.0 && d as real * (c / d as real) == c
    ensures RoundedDown(c, c / d as real, d) == d
  {
    var unit := c / d as real;
    MultiplyQuotient(c, d as real);
    assert d as real * unit == c;
    DivideMultiple(d as real, unit);
    assert c / unit == d as real;
    RoundFixesIntegers(d);
    RemainderOfMultiple(1, d);
    assert Trunc(c / unit) == d && d % d == 0;
  }

  /** The open at which the whole capital pays for exactly the minimum quantity. */
  lemma ExactOpen(r: Request) returns (open: real)
    requires r.Valid()
    ensures PaysForMinimum(r, open)
  {
    var g, unit := UnitCost(r, 1.0), r.startingCapital / r.minimumQuantity as real;
    UnitCostPositive(r, 1.0);
    ExactShare(r.startingCapital, r.minimumQuantity);
    open := unit / g;
    assert UnitCost(r, open) == unit by {
      MultiplyQuotient(unit, g);
      UnitCostScales(r, open);
    }
    assert Affordable(r, r.startingCapital, open)
        == RoundedDown(r.startingCapital, unit, r.minimumQuantity);
  }

  // ---- A purchase and its sale ----

  /** The signal is off before bar p, on from p to e - 1, and off at e, before the last bar. */
  ghost predicate TurnsAt(desired: seq<bool>, p: nat, e: nat) {
    && p < e && e + 1 < |desired|
    && (forall i :: 0 <= i < p ==> !desired[i])
    && (forall i :: p <= i < e ==> desired[i])
    && !desired[e]
  }

  /** Every bar opens at 1 but the one that is bought, where the capital pays for the minimum. */
  ghost predicate Staged(r: Request, bars: seq<Bar>, p: nat) {
    && r.Valid() && PricesOk(bars) && p + 1 < |bars|
    && (forall i :: 0 <= i < |bars| && i != p + 1 ==> bars[i].open == 1.0)
    && bars[p + 1].Volume() >= r.minimumQuantity && PaysForMinimum(r, bars[p + 1].open)
  }

  /** The capital pays for exactly the minimum quantity. */
  predicate PaysForMinimum(r: Request, open: real)
    requires r.Valid()
  {
    && open > 0.0
    && Affordable(r, r.startingCapital, open) == r.minimumQuantity
    && r.minimumQuantity as real * UnitCost(r, open) == r.startingCapital
  }

  lemma {:induction false} FlatWhileOff(r: Request, bars: seq<Bar>, desired: seq<bool>, p: nat,
                                        k: nat)
    requires Staged(r, bars, p) && |desired| == |bars| && k <= p + 1
    requires forall i :: 0 <= i < p ==> !desired[i]
    ensures var b := BookAfter(r, bars, desired, k);
            b.cash == r.startingCapital && b.quantity == 0 && b.trades == []
  {
    if k > 0 {
      FlatWhileOff(r, bars, desired, p, k - 1);
      BookStep(r, bars, desired, k - 1);
      hide BookAfter, NextBook, PaysForMinimum;
      BarWithoutTrade(r, BookAfter(r, bars, desired, k - 1), k - 1, bars[k - 1], false);
    }
  }

  /** A bar without a trade. */
  lemma BarWithoutTrade(r: Request, b: Book, idx: nat, bar: Bar, target: bool)
    requires r.Valid() && bar.open >= 0.0 && (if target then b.quantity > 0 else b.quantity == 0)
    ensures var next := NextBook(r, b, idx, bar, target);
            next.cash == b.cash && next.quantity == b.quantity && next.trades == b.trades
  {
  }

  lemma SpendAll(r: Request, b: Book, idx: nat, bar: Bar)
    requires r.Valid() && b.cash == r.startingCapital && b.quantity == 0
    requires PaysForMinimum(r, bar.open)
    requires bar.Volume() >= r.minimumQuantity
    ensures NextBook(r, b, idx, bar, true).cash == 0.0
    ensures NextBook(r, b, idx, bar, true).quantity == r.minimumQuantity
    ensures |NextBook(r, b, idx, bar, true).trades| == |b.trades| + 1
  {
    BuyCost(r, idx, r.minimumQuantity, bar.open);
  }

  lemma {:induction false} HoldsUntilTheEnd(r: Request, bars: seq<Bar>, desired: seq<bool>,
                                            p: nat, e: nat, k: nat)
    requires Staged(r, bars, p) && |desired| == |bars| && TurnsAt(desired, p, e)
    requires p + 2 <= k <= e + 1
    ensures var b := BookAfter(r, bars, desired, k);
            b.cash == 0.0 && b.quantity == r.minimumQuantity
  {
    BookStep(r, bars, desired, k - 1);
    hide BookAfter, NextBook, PaysForMinimum;
    if k == p + 2 {
      FlatWhileOff(r, bars, desired, p, p + 1);
      SpendAll(r, BookAfter(r, bars, desired, p + 1), p + 1, bars[p + 1]);
    } else {
      HoldsUntilTheEnd(r, bars, desired, p, e, k - 1);
      BarWithoutTrade(r, BookAfter(r, bars, desired, k - 1), k - 1, bars[k - 1], true);
    }
  }

  lemma SellAtALoss(r: Request, b: Book, idx: nat, bar: Bar)
    requires r.Valid() && !SalesPay(r) && bar.open == 1.0 && b.cash == 0.0 && b.quantity > 0
    ensures var next := NextBook(r, b, idx, bar, false);
            next.cash < 0.0 && next.curve[|b.curve|] < 0.0
  {
    SaleProceeds(r, idx, b.quantity, 1.0);
    SalesPayUnit(r, 1.0);
    MulPositive(b.quantity as real, -UnitProceeds(r, 1.0));
    assert 0 as real * bar.close == 0.0;
  }

  lemma LossAfterTheSale(r: Request, bars: seq<Bar>, desired: seq<bool>, p: nat, e: nat)
    requires Staged(r, bars, p) && |desired| == |bars| && TurnsAt(desired, p, e) && !SalesPay(r)
    ensures BookAfter(r, bars, desired, e + 2).curve[e + 1] < 0.0
  {
    hide BookAfter, NextBook, PaysForMinimum, SalesPay;
    HoldsUntilTheEnd(r, bars, desired, p, e, e + 1);
    BookStep(r, bars, desired, e + 1);
    SellAtALoss(r, BookAfter(r, bars, desired, e + 1), e + 1, bars[e + 1]);
  }

  /** If sales cost money, such a run goes below zero. */
  lemma TurningRunOverdraws(r: Request, bars: seq<Bar>, desired: seq<bool>, p: nat, e: nat)
    requires Staged(r, bars, p) && |desired| == |bars| && TurnsAt(desired, p, e) && !SalesPay(r)
    ensures !Solvent(BookAfter(r, bars, desired, |bars|))
  {
    hide BookAfter, PaysForMinimum, SalesPay, Solvent;
    LossAfterTheSale(r, bars, desired, p, e);
    BookGrows(r, bars, desired, e + 2, |bars|);
    NegativeEarlier(BookAfter(r, bars, desired, e + 2), BookAfter(r, bars, desired, |bars|), e + 1);
  }

  lemma NegativeEarlier(early: Book, final: Book, i: nat)
    requires |early.curve| == i + 1 <= |final.curve| && early.curve == final.curve[..i + 1]
    requires early.curve[i] < 0.0
    ensures !Solvent(final)
  {
    assert early.curve[i] == final.curve[i];
  }

  // ---- Histories on which each strategy turns ----

  ghost predicate Turning(bars: seq<Bar>, benchmark: seq<Bar>, strategy: Strategy, p: nat, e: nat) {
    && 0 <= FirstSignal(strategy) <= p < e && e + 1 < |bars|
    && forall idx :: FirstSignal(strategy) <= idx <= e ==>
         SignalAt(bars, benchmark, strategy, idx) == Some(p <= idx < e)
  }

  /** Bars with the given closes, opening at 1 except for the purchase. */
  function Scene(closes: seq<real>, p: nat, open: real, quantity: nat): seq<Bar> {
    seq(|closes|, i requires 0 <= i < |closes| =>
      Bar(if i == p + 1 then open else 1.0, closes[i],
          if i == p then Some(1) else if i == p + 1 then Some(quantity) else None))
  }

  function SpikeCloses(n: nat, p: nat): seq<real> {
    seq(n, i => if i == p then 1.0 else 0.0)
  }

  function Recip(n: int): real
    requires n > 0
  {
    1.0 / n as real
  }

  lemma SpikeMean(values: seq<real>, p: nat, a: nat, b: nat)
    requires Spike(values, p) && a < b <= |values|
    ensures Mean(values[a..b]) == if a <= p < b then Recip(b - a) else 0.0
  {
    SpikeSum(values, p, a, b);
    if !(a <= p < b) {
      DivideMultiple(0.0, (b - a) as real);
      assert 0.0 / (b - a) as real == 0.0;
    }
  }

  lemma WindowsCompared(c: seq<real>, fast: int, slow: int, idx: int, a: nat, b: nat, stop: nat)
    requires a < stop <= |c| && b < stop && idx + 1 == stop
    requires Clip(|c|, idx - fast + 1) == a && Clip(|c|, idx - slow + 1) == b
    ensures Crossover(c, fast, slow, idx) == Some(Mean(c[a..stop]) > Mean(c[b..stop]))
  {
  }

  lemma Reciprocals(a: int, b: int)
    requires 0 < a < b
    ensures 0.0 < Recip(b) < Recip(a)
  {
    var x, y := 1.0 / a as real, 1.0 / b as real;
    MultiplyQuotient(1.0, a as real);
    MultiplyQuotient(1.0, b as real);
    LessFactor(0.0, 0.0, y, b as real);
    MulPositive(y, (b - a) as real);
    LessFactor(y * a as real, y, x, a as real);
  }

  lemma SpikeCrossover(c: seq<real>, fast: int, slow: int, p: nat, idx: int, a: nat, b: nat)
    requires Spike(c, p) && 0 <= idx < |c| && a <= idx && b <= idx
    requires Clip(|c|, idx - fast + 1) == a && Clip(|c|, idx - slow + 1) == b
    ensures Crossover(c, fast, slow, idx)
         == Some((if a <= p <= idx then Recip(idx + 1 - a) else 0.0)
                 > (if b <= p <= idx then Recip(idx + 1 - b) else 0.0))
  {
    WindowsCompared(c, fast, slow, idx, a, b, idx + 1);
    SpikeMean(c, p, a, idx + 1);
    SpikeMean(c, p, b, idx + 1);
    hide Mean, Recip, Crossover;
  }

  /** The window of the fast average, shorter than the slow one, leaves the spike first. */
  lemma CrossoverTurns(bars: seq<Bar>, fast: int, slow: int)
    requires 1 <= fast < slow && |bars| == slow + fast + 1 && Spike(Closes(bars), slow - 1)
    ensures Turning(bars, [], MaCrossover(fast, slow), slow - 1, slow - 1 + fast)
  {
    var c := Closes(bars);
    Reciprocals(fast, slow);
    forall idx | slow - 1 <= idx <= slow - 1 + fast
      ensures Crossover(c, fast, slow, idx) == Some(slow - 1 <= idx < slow - 1 + fast)
    {
      hide Crossover, Recip;
      SpikeCrossover(c, fast, slow, slow - 1, idx, idx - fast + 1, idx - slow + 1);
    }
  }

  /** The fast average, counted from the end of a history one bar too short for it, is over one
      bar. */
  lemma LongCrossoverTurns(bars: seq<Bar>, fast: int, slow: int)
    requires 2 <= slow && slow + 3 <= fast && |bars| == fast - 1 && Spike(Closes(bars), slow - 1)
    ensures Turning(bars, [], MaCrossover(fast, slow), slow - 1, slow)
  {
    var c := Closes(bars);
    Reciprocals(1, slow);
    forall idx | slow - 1 <= idx <= slow
      ensures Crossover(c, fast, slow, idx) == Some(idx == slow - 1)
    {
      hide Crossover, Recip;
      SpikeCrossover(c, fast, slow, slow - 1, idx, idx, idx - slow + 1);
    }
  }

  lemma SmallSums(c: seq<real>, a: nat, b: nat)
    requires |c| == 4 && c[0] == 1.0 && c[1] == 0.0 && c[2] == 1.0 && a < b <= 3
    ensures Sum(c[a..b]) == (if a == 0 then 1.0 else 0.0) + (if b == 3 then 1.0 else 0.0)
    decreases b
  {
    assert c[a..b][..b - a - 1] == c[a..b - 1];
    if a < b - 1 {
      SmallSums(c, a, b - 1);
    }
  }

  lemma SmallMeans(c: seq<real>, a: nat)
    requires |c| == 4 && c[0] == 1.0 && c[1] == 0.0 && c[2] == 1.0 && a <= 1
    ensures Mean(c[0..2]) == 0.5 && Mean(c[1..2]) == 0.0
    ensures Mean(c[a..3]) < 1.0 && Mean(c[2..3]) == 1.0
  {
    SmallSums(c, 0, 2);
    SmallSums(c, 1, 2);
    SmallSums(c, a, 3);
    SmallSums(c, 2, 3);
    hide Sum;
  }

  /** With a slow average over one bar, the fast one is over at least two bars of four. */
  lemma OneBarCrossoverTurns(bars: seq<Bar>, fast: int)
    requires 6 <= fast && Closes(bars) == [1.0, 0.0, 1.0, 0.0]
    ensures Turning(bars, [], MaCrossover(fast, 1), 1, 2)
  {
    hide Mean, Crossover;
    var c := Closes(bars);
    var a := Clip(4, 3 - fast);
    assert a <= 1;
    SmallMeans(c, a);
    WindowsCompared(c, fast, 1, 0, 0, 0, 1);
    WindowsCompared(c, fast, 1, 1, 0, 1, 2);
    WindowsCompared(c, fast, 1, 2, a, 2, 3);
  }

  lemma MomentumTurns(bars: seq<Bar>, lookback: int)
    requires 1 <= lookback && |bars| == lookback + 3 && Spike(Closes(bars), lookback)
    ensures Turning(bars, bars, MomentumDsex(lookback), lookback, lookback + 1)
  {
    var c := Closes(bars);
    assert Momentum(c, c, lookback, lookback) == Some(true);
    assert Momentum(c, c, lookback, lookback + 1) == Some(false);
  }

  lemma {:induction false} MaxBounds(values: seq<real>, i: nat)
    requires i < |values|
    ensures values[i] <= Max(values)
  {
    if i < |values| - 1 {
      MaxBounds(values[..|values| - 1], i);
    }
  }

  lemma {:induction false} MaxOfZeros(values: seq<real>)
    requires values != [] && forall i :: 0 <= i < |values| ==> values[i] == 0.0
    ensures Max(values) == 0.0 && Sum(values) == 0.0
  {
    if |values| > 1 {
      MaxOfZeros(values[..|values| - 1]);
    } else {
      assert values[..0] == [];
    }
  }

  lemma BreakoutTurns(bars: seq<Bar>, lookback: int, multiplier: real)
    requires 1 <= lookback && |bars| == lookback + 3 && Spike(Closes(bars), lookback)
    requires forall i :: 0 <= i <= lookback ==> bars[i].Volume() == if i == lookback then 1 else 0
    ensures Turning(bars, [], VolumeBreakout(lookback, multiplier), lookback, lookback + 1)
  {
    var c, v := Closes(bars), Volumes(bars);
    assert Slice(c, 0, lookback) == c[0..lookback] && Slice(v, 0, lookback) == v[0..lookback];
    MaxOfZeros(c[0..lookback]);
    MaxOfZeros(v[0..lookback]);
    DivideMultiple(0.0, lookback as real);
    assert Mean(v[0..lookback]) == 0.0;
    assert Breakout(c, v, lookback, multiplier, lookback) == Some(true);
    var window := c[1..lookback + 1];
    assert Slice(c, 1, lookback + 1) == window && window[lookback - 1] == 1.0;
    MaxBounds(window, lookback - 1);
    assert Breakout(c, v, lookback, multiplier, lookback + 1) == Some(false);
  }

  lemma TurningSignals(bars: seq<Bar>, benchmark: seq<Bar>, strategy: Strategy, p: nat, e: nat)
    requires Turning(bars, benchmark, strategy, p, e) && !Fails(bars, benchmark, strategy)
    ensures TurnsAt(Signals(bars, benchmark, strategy), p, e)
  {
  }

  /** A history, with positive opens, on which a strategy that can sell does so. */
  lemma SellingHistory(strategy: Strategy, open: real, quantity: nat)
    returns (bars: seq<Bar>, benchmark: seq<Bar>, closes: seq<real>, p: nat, e: nat)
    requires CanSell(strategy)
    ensures bars == Scene(closes, p, open, quantity)
    ensures forall i :: 0 <= i < |closes| ==> closes[i] >= 0.0
    ensures bars != [] && !Raises(strategy, |bars|) && Turning(bars, benchmark, strategy, p, e)
  {
    match strategy
    case MaCrossover(fast, slow) =>
      if slow == 1 {
        closes, p, e := [1.0, 0.0, 1.0, 0.0], 1, 2;
        bars, benchmark := Scene(closes, p, open, quantity), [];
        assert Closes(bars) == closes;
        OneBarCrossoverTurns(bars, fast);
      } else {
        p := slow - 1;
        closes := SpikeCloses(if fast < slow then slow + fast + 1 else fast - 1, p);
        bars, benchmark := Scene(closes, p, open, quantity), [];
        assert Closes(bars) == closes;
        if fast < slow {
          e := p + fast;
          CrossoverTurns(bars, fast, slow);
        } else {
          e := slow;
          LongCrossoverTurns(bars, fast, slow);
        }
      }
    case MomentumDsex(lookback) =>
      p, e := lookback, lookback + 1;
      closes := SpikeCloses(lookback + 3, p);
      bars := Scene(closes, p, open, quantity);
      benchmark := bars;
      assert Closes(bars) == closes;
      MomentumTurns(bars, lookback);
    case VolumeBreakout(lookback, multiplier) =>
      p, e := lookback, lookback + 1;
      closes := SpikeCloses(lookback + 3, p);
      bars, benchmark := Scene(closes, p, open, quantity), [];
      assert Closes(bars) == closes;
      BreakoutTurns(bars, lookback, multiplier);
  }

  // ---- Main results ----

  lemma SceneIsStaged(r: Request, closes: seq<real>, p: nat, open: real)
    requires r.Valid() && p + 1 < |closes| && PaysForMinimum(r, open)
    requires forall i :: 0 <= i < |closes| ==> closes[i] >= 0.0
    ensures Staged(r, Scene(closes, p, open, r.minimumQuantity), p)
  {
  }

  lemma StagedCompletes(r: Request, bars: seq<Bar>, benchmark: seq<Bar>, p: nat)
    requires Staged(r, bars, p) && !Fails(bars, benchmark, r.strategy)
    ensures Completes(r, bars, benchmark)
  {
    hide Signals, Fails, BookAfter, UnitCost, Affordable;
    assert forall i :: 0 <= i < |bars| ==> bars[i].open > 0.0;
  }

  /** If sales cost money and the strategy can sell, some completed run overdraws the account. */
  lemma SalesThatCostOverdraw(r: Request) returns (bars: seq<Bar>, benchmark: seq<Bar>)
    requires r.Valid() && !SalesPay(r) && CanSell(r.strategy)
    ensures PricesOk(bars) && Completes(r, bars, benchmark)
    ensures !Solvent(FinalBook(r, bars, benchmark))
  {
    hide Signals, Fails, BookAfter, PaysForMinimum;
    var open := ExactOpen(r);
    var closes, p, e;
    bars, benchmark, closes, p, e := SellingHistory(r.strategy, open, r.minimumQuantity);
    FailsExactly(bars, benchmark, r.strategy);
    TurningSignals(bars, benchmark, r.strategy, p, e);
    SceneIsStaged(r, closes, p, open);
    StagedCompletes(r, bars, benchmark, p);
    TurningRunOverdraws(r, bars, Signals(bars, benchmark, r.strategy), p, e);
  }

  /** Cash and equity stay non-negative on every completed run if and only if sales pay or the
      strategy cannot sell. */
  lemma SolvencyCondition(r: Request)
    requires r.Valid()
    ensures SalesPay(r) || !CanSell(r.strategy)
       <==> forall bars: seq<Bar>, benchmark: seq<Bar> ::
              PricesOk(bars) && Completes(r, bars, benchmark) ==>
                Solvent(FinalBook(r, bars, benchmark))
  {
    if SalesPay(r) || !CanSell(r.strategy) {
      forall bars: seq<Bar>, benchmark: seq<Bar> | PricesOk(bars) && Completes(r, bars, benchmark)
        ensures Solvent(FinalBook(r, bars, benchmark))
      {
        var desired := Signals(bars, benchmark, r.strategy);
        if SalesPay(r) {
          NeverNegative(r, bars, desired, |bars|);
        } else {
          HoldingStrategies(bars, benchmark, r.strategy);
          HoldersStaySolvent(r, bars, desired, |bars|);
        }
      }
    } else {
      var bars, benchmark := SalesThatCostOverdraw(r);
    }
  }
}
