/** backend/app/backtesting/engine.py in its own form: the loops of `_signals`, of
    `run_backtest` and of its metrics, each against its specification. */
module BacktestEngine {
  import opened Common
  import opened Decimals
  import opened BacktestModel
  import opened BacktestSignals
  import opened BacktestSafety
  import opened BacktestAccounting
  import opened BacktestNoLookAhead

  // ---- Signals ----

  /** `for idx in range(first, n): result[idx] = signal(idx)` on a list of False. A negative index
      counts from the end, and a signal that raises ends the run. */
  method FillSignals(n: nat, first: int, signal: int -> Option<bool>)
    returns (desired: Option<seq<bool>>)
    requires first < 0 ==> exists idx :: first <= idx < n && signal(idx) == None
    ensures desired == None <==> exists idx :: first <= idx < n && signal(idx) == None
    ensures desired.Some? ==>
              && |desired.value| == n
              && forall i :: 0 <= i < n ==>
                   desired.value[i] == (first <= i && signal(i) == Some(true))
  {
    var result := new bool[n](_ => false);
    var idx := first;
    while idx < n
      invariant first <= idx
      invariant forall j :: first <= j < idx && j < n ==> signal(j).Some?
      invariant first >= 0 ==> forall i :: 0 <= i < n ==>
                  result[i] == (first <= i < idx && signal(i) == Some(true))
    {
      var value := signal(idx);
      if value == None || n + idx < 0 {
        return None;
      }
      result[if idx < 0 then n + idx else idx] := value.value;
      idx := idx + 1;
    }
    return Some(result[..]);
  }

  lemma BuyHoldSignals(bars: seq<Bar>, benchmark: seq<Bar>)
    ensures !Fails(bars, benchmark, BuyHold)
    ensures Signals(bars, benchmark, BuyHold) == seq(|bars|, _ => true)
  {
    forall i | 0 <= i < |bars|
      ensures Signals(bars, benchmark, BuyHold)[i]
    {
      assert SignalAt(bars, benchmark, BuyHold, i) == Some(true);
    }
  }

  /** `_signals`; None if it raises. */
  method ComputeSignals(bars: seq<Bar>, benchmark: seq<Bar>, strategy: Strategy)
    returns (desired: Option<seq<bool>>)
    requires bars != []
    ensures desired == if Fails(bars, benchmark, strategy) then None
                       else Some(Signals(bars, benchmark, strategy))
  {
    FailsExactly(bars, benchmark, strategy);
    if strategy.BuyHold? {
      BuyHoldSignals(bars, benchmark);
      return Some(seq(|bars|, _ => true));
    }
    var signal := idx => SignalAt(bars, benchmark, strategy, idx);
    if Raises(strategy, |bars|) {
      BadBarRaises(bars, benchmark, strategy);
      assert signal(BadBar(strategy, |bars|)) == None;
    } else {
      assert forall idx :: FirstSignal(strategy) <= idx < |bars| ==> signal(idx) != None;
    }
    desired := FillSignals(|bars|, FirstSignal(strategy), signal);
    assert desired.Some? ==> desired.value == Signals(bars, benchmark, strategy);
  }

  // ---- Trading ----

  /** The body of the trading loop up to the mark: at most one trade. */
  method TradeBar(r: Request, book: Book, idx: nat, bar: Bar, target: bool) returns (traded: Book)
    requires r.Valid() && bar.open >= 0.0
    requires target && book.quantity == 0 ==> bar.open > 0.0
    ensures traded == ApplyTrade(book, TradeOf(r, book.cash, book.quantity, idx, bar.open,
                                               bar.Volume(), target))
  {
    var cash, quantity, trades := book.cash, book.quantity, book.trades;
    if target && quantity == 0 {
      var fill := BuyPrice(r, bar.open);
      var affordable := Affordable(r, cash, bar.open);
      if affordable > 0 && bar.Volume() >= affordable {
        var fee := affordable as real * fill * r.FeeRate();
        var trade := Trade(idx, Buy, affordable, fill, fee, bar.open * r.SlipRate());
        assert trade == TradeAt(r, idx, Buy, affordable, bar.open);
        cash := cash - (affordable as real * fill + fee);
        quantity := affordable;
        trades := trades + [trade];
      }
    } else if !target && quantity > 0 {
      var fill := SellPrice(r, bar.open);
      var fee := quantity as real * fill * r.FeeRate();
      var trade := Trade(idx, Sell, quantity, fill, fee, bar.open * r.SlipRate());
      assert trade == TradeAt(r, idx, Sell, quantity, bar.open);
      cash := cash + (quantity as real * fill - fee);
      trades := trades + [trade];
      quantity := 0;
    }
    traded := Book(cash, quantity, trades, book.curve);
  }

  method RunBar(r: Request, book: Book, idx: nat, bar: Bar, target: bool) returns (next: Book)
    requires r.Valid() && bar.open >= 0.0
    requires target && book.quantity == 0 ==> bar.open > 0.0
    ensures next == NextBook(r, book, idx, bar, target)
  {
    var traded := TradeBar(r, book, idx, bar, target);
    next := traded.(curve := traded.curve + [traded.Equity(bar.close)]);
  }

  /** The trading loop: one pass over the bars with cash, position, trades and curve. None stands
      for the division by an open of zero. */
  method TradeLoop(bars: seq<Bar>, r: Request, desired: seq<bool>) returns (book: Option<Book>)
    requires r.Valid() && PricesOk(bars) && |desired| == |bars|
    ensures book == if DividesByZero(r, bars, desired) then None
                    else Some(BookAfter(r, bars, desired, |bars|))
  {
    var b := Book(r.startingCapital, 0, [], []);
    for idx := 0 to |bars|
      invariant b == BookAfter(r, bars, desired, idx)
      invariant forall k :: 0 <= k < idx ==> !BuysAtZero(r, bars, desired, k)
    {
      BookStep(r, bars, desired, idx);
      var target := idx > 0 && desired[idx - 1];
      if target && b.quantity == 0 && bars[idx].open == 0.0 {
        assert BuysAtZero(r, bars, desired, idx);
        return None;
      }
      b := RunBar(r, b, idx, bars[idx], target);
    }
    return Some(b);
  }

  // ---- Drawdown ----

  /** The running peak: the highest value up to bar j. */
  function Peak(values: seq<real>, j: nat): (p: real)
    requires j < |values|
    ensures forall i :: 0 <= i <= j ==> values[i] <= p
    ensures exists i :: 0 <= i <= j && values[i] == p
  {
    if j == 0 then values[0]
    else if values[j] >= Peak(values, j - 1) then values[j]
    else Peak(values, j - 1)
  }

  /** Bar j closes strictly below a bar before it. */
  ghost predicate Under(values: seq<real>, j: nat)
    requires j < |values|
  {
    exists i :: 0 <= i < j && values[i] > values[j]
  }

  ghost predicate AllUnder(values: seq<real>, a: nat, b: nat)
    requires a <= b <= |values|
  {
    forall j :: a <= j < b ==> Under(values, j)
  }

  /** d is the length of the longest run of consecutive bars below the running peak, among the
      first n bars. */
  ghost predicate LongestRun(values: seq<real>, n: nat, d: nat)
    requires n <= |values|
  {
    && (exists a: nat, b: nat :: a <= b <= n && AllUnder(values, a, b) && b - a == d)
    && (forall a: nat, b: nat :: a <= b <= n && AllUnder(values, a, b) ==> b - a <= d)
  }

  /** c is the length of the run that ends at bar n. */
  ghost predicate TailRun(values: seq<real>, n: nat, c: nat)
    requires n <= |values|
  {
    && c <= n && AllUnder(values, n - c, n)
    && (c < n ==> !Under(values, n - c - 1))
  }

  lemma ExtendRun(values: seq<real>, n: nat, c: nat, d: nat)
    requires n < |values| && Under(values, n) && TailRun(values, n, c) && LongestRun(values, n, d)
    ensures TailRun(values, n + 1, c + 1)
    ensures LongestRun(values, n + 1, if c + 1 > d then c + 1 else d)
  {
    assert AllUnder(values, n - c, n + 1);
    forall a: nat, b: nat | a <= b <= n + 1 && AllUnder(values, a, b)
      ensures b - a <= d || b - a <= c + 1
    {
    }
  }

  lemma BreakRun(values: seq<real>, n: nat, d: nat)
    requires n < |values| && !Under(values, n) && LongestRun(values, n, d)
    ensures TailRun(values, n + 1, 0) && LongestRun(values, n + 1, d)
  {
    forall a: nat, b: nat | a <= b <= n + 1 && AllUnder(values, a, b)
      ensures b - a <= d
    {
    }
  }

  function DrawdownAt(values: seq<real>, j: nat): real
    requires j < |values| && values[0] > 0.0
  {
    values[j] / Peak(values, j) - 1.0
  }

  /** m is the least of the first n drawdowns from the running peak; the first is zero. */
  ghost predicate WorstDrawdown(values: seq<real>, n: nat, m: real)
    requires 0 < n <= |values| && values[0] > 0.0
  {
    && (exists j :: 0 <= j < n && DrawdownAt(values, j) == m)
    && (forall j :: 0 <= j < n ==> m <= DrawdownAt(values, j))
  }

  lemma WorstStep(values: seq<real>, n: nat, m: real)
    requires 0 < n < |values| && values[0] > 0.0
    requires WorstDrawdown(values, n, m)
    ensures WorstDrawdown(values, n + 1,
                          if DrawdownAt(values, n) < m then DrawdownAt(values, n) else m)
  {
  }

  /** What the drawdown pass holds after n bars. */
  ghost predicate PassState(values: seq<real>, n: nat, peak: real, current: nat, duration: nat,
                            maxDrawdown: real)
    requires 0 < n <= |values| && values[0] > 0.0
  {
    && peak == Peak(values, n - 1)
    && TailRun(values, n, current) && LongestRun(values, n, duration)
    && WorstDrawdown(values, n, maxDrawdown)
  }

  /** What it holds before bar n: the start values before the first bar. */
  ghost predicate Before(values: seq<real>, n: nat, peak: real, current: nat, duration: nat,
                         maxDrawdown: real)
    requires |values| > 0 && n <= |values| && values[0] > 0.0
  {
    if n == 0 then peak == values[0] && current == 0 && duration == 0 && maxDrawdown == 0.0
    else PassState(values, n, peak, current, duration, maxDrawdown)
  }

  /** One round of the drawdown pass. */
  method DrawdownStep(values: seq<real>, i: nat, peak: real, current: nat, duration: nat,
                      maxDrawdown: real)
    returns (peak': real, current': nat, duration': nat, maxDrawdown': real)
    requires i < |values| && values[0] > 0.0
    requires Before(values, i, peak, current, duration, maxDrawdown)
    ensures PassState(values, i + 1, peak', current', duration', maxDrawdown')
  {
    peak', current', duration' := peak, current, duration;
    FirstBar(values);
    var value := values[i];
    if value >= peak {
      if i > 0 {
        BreakRun(values, i, duration);
      }
      peak' := value;
      current' := 0;
    } else {
      ExtendRun(values, i, current, duration);
      current' := current + 1;
      duration' := if current' > duration then current' else duration;
    }
    if i > 0 {
      WorstStep(values, i, maxDrawdown);
    }
    var drop := value / peak' - 1.0;
    assert drop == DrawdownAt(values, i);
    maxDrawdown' := if drop < maxDrawdown then drop else maxDrawdown;
  }

  /** The drawdown pass of `run_backtest`, linear in the number of bars. */
  method Drawdown(values: seq<real>) returns (maxDrawdown: real, duration: nat)
    requires |values| > 0 && values[0] > 0.0
    ensures WorstDrawdown(values, |values|, maxDrawdown)
    ensures LongestRun(values, |values|, duration)
  {
    var peak, current := values[0], 0;
    maxDrawdown, duration := 0.0, 0;
    for i := 0 to |values|
      invariant Before(values, i, peak, current, duration, maxDrawdown)
    {
      peak, current, duration, maxDrawdown :=
        DrawdownStep(values, i, peak, current, duration, maxDrawdown);
    }
  }

  lemma FirstBar(values: seq<real>)
    requires |values| > 0 && values[0] > 0.0
    ensures PassState(values, 1, values[0], 0, 0, 0.0)
  {
    assert DrawdownAt(values, 0) == 0.0;
    assert AllUnder(values, 0, 0);
  }

  function LossBetween(values: seq<real>, i: nat, j: nat): real
    requires i <= j < |values| && values[i] > 0.0
  {
    values[j] / values[i] - 1.0
  }

  /** m is the least loss, as a return, from any positive value to a value at or after it. */
  ghost predicate WorstLoss(values: seq<real>, m: real) {
    && (exists i, j :: 0 <= i <= j < |values| && values[i] > 0.0 && LossBetween(values, i, j) == m)
    && (forall i, j :: 0 <= i <= j < |values| && values[i] > 0.0 ==> m <= LossBetween(values, i, j))
  }

  /** The linear pass equals the quadratic definition, the least values[j] / values[i] - 1 over
      all i <= j: for every positive series, and for one that falls to zero on the way. */
  lemma PairwiseDrawdown(values: seq<real>, m: real)
    requires |values| > 0 && values[0] > 0.0
    requires forall i :: 0 <= i < |values| ==> values[i] >= 0.0
    requires WorstDrawdown(values, |values|, m)
    ensures WorstLoss(values, m)
  {
    var j :| 0 <= j < |values| && DrawdownAt(values, j) == m;
    var i :| 0 <= i <= j && values[i] == Peak(values, j);
    assert LossBetween(values, i, j) == m;
    forall i, j | 0 <= i <= j < |values| && values[i] > 0.0
      ensures m <= LossBetween(values, i, j)
    {
      assert m <= DrawdownAt(values, j);
      DivisorAntitone(values[j], values[i], Peak(values, j));
    }
  }

  lemma DivisorAntitone(x: real, small: real, big: real)
    requires x >= 0.0 && 0.0 < small <= big
    ensures x / big <= x / small
  {
    var q := x / big;
    MultiplyQuotient(x, big);
    MultiplyQuotient(x, small);
    assert q >= 0.0 by { QuotientMonotone(0.0, x, big); }
    MulMonotone(small, big, q);
    CancelFactor(q, x / small, small);
  }

  // ---- The whole run ----

  datatype Result = Result(
    book: Book,
    finalEquity: real,
    maxDrawdown: real,
    drawdownDuration: nat,
    pnls: seq<real>,
    expectancy: real)

  lemma FirstTrade(r: Request, bars: seq<Bar>, desired: seq<bool>)
    requires r.Valid() && PricesOk(bars) && 0 < |bars| == |desired|
    ensures TradeOn(r, bars, desired, 0) == None
  {
  }

  lemma FirstMark(r: Request, close: real)
    ensures Mark(Book(r.startingCapital, 0, [], []), close).curve == [r.startingCapital]
  {
    assert 0 as real * close == 0.0;
  }

  /** The first bar has no signal to execute, so the curve starts at the starting capital. */
  lemma CurveStartsAtCapital(r: Request, bars: seq<Bar>, desired: seq<bool>)
    requires r.Valid() && PricesOk(bars) && 0 < |bars| == |desired|
    ensures BookAfter(r, bars, desired, |bars|).curve[0] == r.startingCapital
  {
    Unroll(r, bars, desired, 0);
    FirstTrade(r, bars, desired);
    FirstMark(r, bars[0].close);
    assert BookAfter(r, bars, desired, 1).curve == [r.startingCapital];
    BookGrows(r, bars, desired, 1, |bars|);
  }

  /** `run_backtest`, up to its derived ratios; bars come in timestamp order, None stands for a
      raised error. */
  method RunBacktest(bars: seq<Bar>, r: Request, benchmark: seq<Bar>)
    returns (result: Option<Result>)
    requires r.Valid() && PricesOk(bars)
    ensures result.Some? <==> Completes(r, bars, benchmark)
    ensures result.Some? ==>
              var x := result.value;
              && x.book == FinalBook(r, bars, benchmark)
              && Balanced(r, x.book, bars[|bars| - 1].close, x.finalEquity)
              && |x.book.curve| == |bars| && x.book.curve[0] == r.startingCapital
              && WorstDrawdown(x.book.curve, |bars|, x.maxDrawdown)
              && (Solvent(x.book) ==> WorstLoss(x.book.curve, x.maxDrawdown))
              && LongestRun(x.book.curve, |bars|, x.drawdownDuration)
              && x.pnls == PairingAfter(x.book.trades).pnls
              && x.expectancy == (if x.pnls == [] then 0.0 else Mean(x.pnls))
  {
    if |bars| < 2 {
      return None;
    }
    var signals := ComputeSignals(bars, benchmark, r.strategy);
    if signals == None {
      return None;
    }
    var traded := TradeLoop(bars, r, signals.value);
    if traded == None {
      return None;
    }
    var book := traded.value;
    CurveStartsAtCapital(r, bars, signals.value);
    AccountingIdentity(r, bars, signals.value, |bars|, book);
    var maxDrawdown, duration := Drawdown(book.curve);
    if Solvent(book) {
      PairwiseDrawdown(book.curve, maxDrawdown);
    }
    var pnls := PairTrades(book.trades);
    ExpectancyIsMean(pnls);
    result := Some(Result(book, book.curve[|bars| - 1], maxDrawdown, duration, pnls,
                          Expectancy(pnls)));
  }
}
