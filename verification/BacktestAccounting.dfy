/** The second pass over the trades, profit pairing, against the first, the cash account. */
module BacktestAccounting {
  import opened Decimals
  import opened BacktestModel
  import opened BacktestSafety

  // ---- First in, first out pairing ----

  datatype Pairing = Pairing(stack: seq<Trade>, pnls: seq<real>)

  function Pnl(buy: Trade, sell: Trade): real {
    (sell.price * sell.quantity as real - sell.fee) - (buy.price * buy.quantity as real + buy.fee)
  }

  function PairNext(p: Pairing, t: Trade): Pairing {
    if t.side == Buy then p.(stack := p.stack + [t])
    else if p.stack != [] then Pairing(p.stack[1..], p.pnls + [Pnl(p.stack[0], t)])
    else p
  }

  /** The stack of open buys and the profits after a list of trades. */
  function PairingAfter(trades: seq<Trade>): Pairing {
    if trades == [] then Pairing([], [])
    else PairNext(PairingAfter(trades[..|trades| - 1]), trades[|trades| - 1])
  }

  /** The pairing loop of `run_backtest`. */
  method PairTrades(trades: seq<Trade>) returns (pnls: seq<real>)
    ensures pnls == PairingAfter(trades).pnls
  {
    pnls := [];
    var stack: seq<Trade> := [];
    for i := 0 to |trades|
      invariant Pairing(stack, pnls) == PairingAfter(trades[..i])
    {
      var t := trades[i];
      assert trades[..i + 1][..i] == trades[..i];
      if t.side == Buy {
        stack := stack + [t];
      } else if stack != [] {
        var buy := stack[0];
        stack := stack[1..];
        pnls := pnls + [Pnl(buy, t)];
      }
    }
    assert trades[..|trades|] == trades;
  }

  lemma AppendSum(values: seq<real>, x: real)
    ensures Sum(values + [x]) == Sum(values) + x
  {
    assert (values + [x])[..|values|] == values;
  }

  lemma PnlIsFlow(buy: Trade, sell: Trade)
    requires buy.side == Buy && sell.side == Sell
    ensures Pnl(buy, sell) == Flow(buy) + Flow(sell)
  {
  }

  /** What the still open buy, if there is one, has cost so far (as a negative amount). */
  function OpenCost(stack: seq<Trade>): real {
    if stack == [] then 0.0 else Flow(stack[0])
  }

  /** One trade, against an empty queue or against the one open buy. */
  lemma PairNextBalances(p: Pairing, t: Trade)
    requires if t.side == Buy then p.stack == [] else |p.stack| == 1 && p.stack[0].side == Buy
    ensures var next := PairNext(p, t);
            && next.stack == (if t.side == Buy then [t] else [])
            && |next.pnls| == |p.pnls| + (if t.side == Buy then 0 else 1)
            && Sum(next.pnls) + OpenCost(next.stack) == Sum(p.pnls) + OpenCost(p.stack) + Flow(t)
  {
    if t.side == Sell {
      PnlIsFlow(p.stack[0], t);
      AppendSum(p.pnls, Pnl(p.stack[0], t));
    }
  }

  lemma LastOfAlternating(trades: seq<Trade>)
    requires Alternates(trades) && trades != []
    ensures var n := |trades| - 1;
            && Alternates(trades[..n])
            && trades[n].side == (if n % 2 == 0 then Buy else Sell)
            && (n % 2 == 1 ==> trades[n - 1].side == Buy)
  {
  }

  lemma {:induction false} QueueOfAlternating(trades: seq<Trade>)
    requires Alternates(trades)
    ensures var p := PairingAfter(trades);
            && |p.pnls| == |trades| / 2
            && p.stack == (if |trades| % 2 == 0 then [] else [trades[|trades| - 1]])
  {
    if trades != [] {
      var n := |trades| - 1;
      LastOfAlternating(trades);
      hide Alternates, PairNext, Sum, OpenCost, Flow;
      QueueOfAlternating(trades[..n]);
      PairNextBalances(PairingAfter(trades[..n]), trades[n]);
    }
  }

  /** On alternating trades the queue never holds more than the one open buy, and the paired
      profits plus the open buy's cost are all the cash that moved. */
  lemma {:induction false} PairingOfAlternating(trades: seq<Trade>)
    requires Alternates(trades)
    ensures var p := PairingAfter(trades);
            && |p.pnls| == |trades| / 2
            && p.stack == (if |trades| % 2 == 0 then [] else [trades[|trades| - 1]])
            && Sum(p.pnls) + OpenCost(p.stack) == FlowSum(trades)
  {
    QueueOfAlternating(trades);
    if trades != [] {
      var n := |trades| - 1;
      LastOfAlternating(trades);
      hide Alternates, PairNext, Sum, OpenCost, Flow;
      PairingOfAlternating(trades[..n]);
      PairNextBalances(PairingAfter(trades[..n]), trades[n]);
    }
  }

  /** The queue of open buys is empty or exactly the open position, and cash is the starting
      capital plus all paired profits less the cost of that position. */
  lemma PairedCash(r: Request, b: Book, k: nat)
    requires BookOk(r, b, k)
    ensures var p := PairingAfter(b.trades);
            && |p.stack| <= 1
            && (b.quantity > 0 <==> p.stack != [])
            && (p.stack != [] ==> p.stack[0].side == Buy && p.stack[0].quantity == b.quantity)
            && b.cash == r.startingCapital + Sum(p.pnls) + OpenCost(p.stack)
  {
    PairingOfAlternating(b.trades);
  }

  /** The queue holds no more than the open buy, and `equity` is the starting capital plus all
      paired profits plus the marked gain of the open position, its value less its cost. */
  ghost predicate Balanced(r: Request, b: Book, close: real, equity: real) {
    var p := PairingAfter(b.trades);
    && |p.stack| <= 1
    && (b.quantity > 0 <==> p.stack != [])
    && equity == r.startingCapital + Sum(p.pnls)
                 + (b.quantity as real * close + OpenCost(p.stack))
  }

  lemma MarkedBook(r: Request, b: Book, k: nat, close: real)
    requires BookOk(r, b, k)
    ensures Balanced(r, b, close, b.Equity(close))
  {
    PairedCash(r, b, k);
  }

  /** The accounting identity: after any number of bars of any history the pairing pass and the
      cash account agree on the last equity value. */
  lemma AccountingIdentity(r: Request, bars: seq<Bar>, desired: seq<bool>, k: nat, b: Book)
    requires r.Valid() && PricesOk(bars) && 0 < k <= |bars| == |desired|
    requires b == BookAfter(r, bars, desired, k)
    ensures Balanced(r, b, bars[k - 1].close, b.curve[k - 1])
  {
    TradesAlternate(r, bars, desired, k);
    MarkedBook(r, b, k, bars[k - 1].close);
  }

  // ---- Expectancy ----

  function Wins(pnls: seq<real>): seq<real> {
    if pnls == [] then []
    else
      var earlier, p := Wins(pnls[..|pnls| - 1]), pnls[|pnls| - 1];
      if p > 0.0 then earlier + [p] else earlier
  }

  function Losses(pnls: seq<real>): seq<real> {
    if pnls == [] then []
    else
      var earlier, p := Losses(pnls[..|pnls| - 1]), pnls[|pnls| - 1];
      if p <= 0.0 then earlier + [p] else earlier
  }

  function Abs(x: real): real {
    if x < 0.0 then -x else x
  }

  /** The engine's formula: win rate times average win, less loss rate times average loss. */
  function Expectancy(pnls: seq<real>): real {
    var wins, losses := Wins(pnls), Losses(pnls);
    var winRate := if pnls != [] then |wins| as real / |pnls| as real else 0.0;
    var avgWin := if wins != [] then Mean(wins) else 0.0;
    var avgLoss := if losses != [] then Abs(Mean(losses)) else 0.0;
    winRate * avgWin - (1.0 - winRate) * avgLoss
  }

  lemma {:induction false} WinsAndLosses(pnls: seq<real>)
    ensures |Wins(pnls)| + |Losses(pnls)| == |pnls|
    ensures Sum(Wins(pnls)) + Sum(Losses(pnls)) == Sum(pnls)
    ensures Sum(Losses(pnls)) <= 0.0
  {
    if pnls != [] {
      var earlier, p := pnls[..|pnls| - 1], pnls[|pnls| - 1];
      WinsAndLosses(earlier);
      AppendSum(Wins(earlier), p);
      AppendSum(Losses(earlier), p);
    }
  }

  /** A group's share of the trades times its average is its part of the overall average. */
  lemma ShareTimesMean(sum: real, count: nat, n: nat)
    requires 0 < count && 0 < n
    ensures (count as real / n as real) * (sum / count as real) == sum / n as real
  {
    var c, d := count as real, n as real;
    MultiplyQuotient(sum, c);
    MultiplyQuotient(c, d);
    MultiplyQuotient(sum, d);
    assert (c / d) * (sum / c) * d == (c / d * d) * (sum / c);
    CancelFactor((c / d) * (sum / c), sum / d, d);
    CancelFactor(sum / d, (c / d) * (sum / c), d);
  }

  lemma SumOfQuotients(a: real, b: real, d: real)
    requires d > 0.0
    ensures a / d + b / d == (a + b) / d
  {
    MultiplyQuotient(a, d);
    MultiplyQuotient(b, d);
    DivideMultiple(a / d + b / d, d);
  }

  lemma LossMean(sum: real, count: nat)
    requires 0 < count && sum <= 0.0
    ensures Abs(sum / count as real) == -(sum / count as real)
  {
    QuotientMonotone(sum, 0.0, count as real);
  }

  /** In every mix of wins and losses the formula is the mean profit per trade. */
  lemma ExpectancyIsMean(pnls: seq<real>)
    ensures Expectancy(pnls) == if pnls == [] then 0.0 else Mean(pnls)
  {
    WinsAndLosses(pnls);
    var wins, losses := Wins(pnls), Losses(pnls);
    var w, l, n := |wins|, |losses|, |pnls|;
    if n > 0 {
      SumOfQuotients(w as real, l as real, n as real);
      DivideMultiple(1.0, n as real);
      assert 1.0 - w as real / n as real == l as real / n as real;
      SumOfQuotients(Sum(wins), Sum(losses), n as real);
      if w > 0 {
        ShareTimesMean(Sum(wins), w, n);
      }
      if l > 0 {
        ShareTimesMean(Sum(losses), l, n);
        LossMean(Sum(losses), l);
      }
    }
  }
}
