/** The trading loop never uses information from the future. */
module BacktestNoLookAhead {
  import opened BacktestModel
  import opened BacktestSignals

  /** The whole book after k bars depends on those bars alone. */
  lemma {:induction false} BookUsesThePast(r: Request, bars: seq<Bar>, bars': seq<Bar>,
                                           benchmark: seq<Bar>, benchmark': seq<Bar>, k: nat)
    requires r.Valid() && PricesOk(bars) && PricesOk(bars')
    requires !Peeks(r.strategy)
    requires !Fails(bars, benchmark, r.strategy) && !Fails(bars', benchmark', r.strategy)
    requires k <= |bars| && k <= |bars'|
    requires Known(bars, k) == Known(bars', k) && Known(benchmark, k) == Known(benchmark', k)
    ensures BookAfter(r, bars, Signals(bars, benchmark, r.strategy), k)
         == BookAfter(r, bars', Signals(bars', benchmark', r.strategy), k)
  {
    if k > 0 {
      KnownEarlier(bars, bars', k - 1, k);
      KnownEarlier(benchmark, benchmark', k - 1, k);
      BookUsesThePast(r, bars, bars', benchmark, benchmark', k - 1);
      if k > 1 {
        KnownEarlier(bars, bars', k - 1, k);
        SameExecutedSignal(bars, bars', benchmark, benchmark', r.strategy, k - 2);
      }
    }
  }

  /** The trade on a bar depends on the bars before it and on its own open and volume. */
  lemma TradeUsesThePast(r: Request, bars: seq<Bar>, bars': seq<Bar>,
                         benchmark: seq<Bar>, benchmark': seq<Bar>, k: nat)
    requires r.Valid() && PricesOk(bars) && PricesOk(bars')
    requires !Peeks(r.strategy)
    requires !Fails(bars, benchmark, r.strategy) && !Fails(bars', benchmark', r.strategy)
    requires k < |bars| && k < |bars'|
    requires Known(bars, k) == Known(bars', k) && Known(benchmark, k) == Known(benchmark', k)
    requires bars[k].open == bars'[k].open && bars[k].Volume() == bars'[k].Volume()
    ensures TradeOn(r, bars, Signals(bars, benchmark, r.strategy), k)
         == TradeOn(r, bars', Signals(bars', benchmark', r.strategy), k)
  {
    hide BookAfter, TradeOf, Signals, Fails, Known;
    BookUsesThePast(r, bars, bars', benchmark, benchmark', k);
    if k > 0 {
      SameExecutedSignal(bars, bars', benchmark, benchmark', r.strategy, k - 1);
    }
  }

  /** Same trades, cash and position, and the same curve before the last bar. */
  ghost predicate SameTrading(b: Book, b': Book) {
    && b.trades == b'.trades && b.cash == b'.cash && b.quantity == b'.quantity
    && |b.curve| == |b'.curve|
    && (b.curve != [] ==> b.curve[..|b.curve| - 1] == b'.curve[..|b.curve| - 1])
  }

  lemma CloseOnlyMarks(b: Book, close: real, close': real)
    ensures SameTrading(Mark(b, close), Mark(b, close'))
  {
  }

  /** No look-ahead: if two histories agree on bars 0..k-1 and on the open and the volume of bar
      k, then trades, cash and position through bar k are the same, and so is the equity curve
      up to bar k, for every strategy. */
  lemma NoLookAhead(r: Request, bars: seq<Bar>, bars': seq<Bar>,
                    benchmark: seq<Bar>, benchmark': seq<Bar>, k: nat)
    requires r.Valid() && PricesOk(bars) && PricesOk(bars')
    requires !Peeks(r.strategy)
    requires !Fails(bars, benchmark, r.strategy) && !Fails(bars', benchmark', r.strategy)
    requires k < |bars| && k < |bars'|
    requires Known(bars, k) == Known(bars', k) && Known(benchmark, k) == Known(benchmark', k)
    requires bars[k].open == bars'[k].open && bars[k].Volume() == bars'[k].Volume()
    ensures SameTrading(BookAfter(r, bars, Signals(bars, benchmark, r.strategy), k + 1),
                        BookAfter(r, bars', Signals(bars', benchmark', r.strategy), k + 1))
  {
    var d, d' := Signals(bars, benchmark, r.strategy), Signals(bars', benchmark', r.strategy);
    BookUsesThePast(r, bars, bars', benchmark, benchmark', k);
    TradeUsesThePast(r, bars, bars', benchmark, benchmark', k);
    Unroll(r, bars, d, k);
    Unroll(r, bars', d', k);
    CloseOnlyMarks(ApplyTrade(BookAfter(r, bars, d, k), TradeOn(r, bars, d, k)),
                   bars[k].close, bars'[k].close);
  }

  lemma BookGrowsOnce(r: Request, bars: seq<Bar>, desired: seq<bool>, k: nat)
    requires r.Valid() && PricesOk(bars) && k < |bars| == |desired|
    ensures BookAfter(r, bars, desired, k).trades <= BookAfter(r, bars, desired, k + 1).trades
    ensures BookAfter(r, bars, desired, k).curve == BookAfter(r, bars, desired, k + 1).curve[..k]
  {
  }

  /** More bars only add trades and curve points. */
  lemma {:induction false} BookGrows(r: Request, bars: seq<Bar>, desired: seq<bool>, j: nat, k: nat)
    requires r.Valid() && PricesOk(bars) && j <= k <= |bars| == |desired|
    ensures BookAfter(r, bars, desired, j).trades <= BookAfter(r, bars, desired, k).trades
    ensures BookAfter(r, bars, desired, j).curve == BookAfter(r, bars, desired, k).curve[..j]
    decreases k - j
  {
    hide BookAfter;
    if j < k {
      BookGrows(r, bars, desired, j, k - 1);
      BookGrowsOnce(r, bars, desired, k - 1);
      var early, late := BookAfter(r, bars, desired, k - 1), BookAfter(r, bars, desired, k);
      assert early.curve[..j] == late.curve[..k - 1][..j] == late.curve[..j];
    }
  }

  /** Running on a prefix of the history yields a prefix of the trades and of the curve. */
  lemma PrefixRun(r: Request, bars: seq<Bar>, benchmark: seq<Bar>, m: nat)
    requires r.Valid() && PricesOk(bars) && 0 < m <= |bars|
    requires !Peeks(r.strategy) && !Fails(bars, benchmark, r.strategy)
    ensures PricesOk(bars[..m]) && !Fails(bars[..m], benchmark, r.strategy)
    ensures var early := FinalBook(r, bars[..m], benchmark);
            var full := FinalBook(r, bars, benchmark);
            early.trades <= full.trades && early.curve == full.curve[..m]
  {
    PrefixCompletes(bars, benchmark, r.strategy, m);
    assert Known(bars[..m], m) == Known(bars, m);
    BookUsesThePast(r, bars[..m], bars, benchmark, benchmark, m);
    BookGrows(r, bars, Signals(bars, benchmark, r.strategy), m, |bars|);
  }
}
