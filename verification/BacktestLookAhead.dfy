/** The exact condition under which backtests never look ahead: over all pairs of completed runs
    that agree on the past, and over all completed runs and their prefixes. */
module BacktestLookAhead {
  import opened Common
  import opened BacktestModel
  import opened BacktestSignals
  import opened BacktestNoLookAhead
  import opened BacktestSolvency

  /** The histories agree before bar k and on its open and its volume. */
  ghost predicate Agree(bars: seq<Bar>, bars': seq<Bar>, benchmark: seq<Bar>,
                        benchmark': seq<Bar>, k: nat) {
    && k < |bars| && k < |bars'|
    && Known(bars, k) == Known(bars', k) && Known(benchmark, k) == Known(benchmark', k)
    && bars[k].open == bars'[k].open && bars[k].Volume() == bars'[k].Volume()
  }

  ghost predicate TradeAlike(r: Request, bars: seq<Bar>, bars': seq<Bar>, benchmark: seq<Bar>,
                             benchmark': seq<Bar>, k: nat)
    requires r.Valid() && PricesOk(bars) && PricesOk(bars')
    requires !Fails(bars, benchmark, r.strategy) && !Fails(bars', benchmark', r.strategy)
    requires k < |bars| && k < |bars'|
  {
    SameTrading(BookAfter(r, bars, Signals(bars, benchmark, r.strategy), k + 1),
                BookAfter(r, bars', Signals(bars', benchmark', r.strategy), k + 1))
  }

  /** Completed runs whose histories agree up to a bar trade alike up to it. */
  ghost predicate NeverLooksAhead(r: Request)
    requires r.Valid()
  {
    forall bars: seq<Bar>, bars': seq<Bar>, benchmark: seq<Bar>, benchmark': seq<Bar>, k: nat ::
      && PricesOk(bars) && PricesOk(bars')
      && Completes(r, bars, benchmark) && Completes(r, bars', benchmark')
      && Agree(bars, bars', benchmark, benchmark', k)
      ==> TradeAlike(r, bars, bars', benchmark, benchmark', k)
  }

  ghost predicate PrefixOf(early: Book, full: Book) {
    early.trades <= full.trades && early.curve <= full.curve
  }

  /** A completed run on a prefix of a completed run's history is a prefix of that run. */
  ghost predicate PrefixStable(r: Request)
    requires r.Valid()
  {
    forall bars: seq<Bar>, benchmark: seq<Bar>, m: nat ::
      && PricesOk(bars) && m <= |bars| && PricesOk(bars[..m])
      && Completes(r, bars, benchmark) && Completes(r, bars[..m], benchmark)
      ==> PrefixOf(FinalBook(r, bars[..m], benchmark), FinalBook(r, bars, benchmark))
  }

  // ---- Two runs that part ----

  /** The bar after whose signal the runs part, and the bar of the one close that is not zero. */
  function PartingBar(slow: int): nat {
    if slow <= 1 then 1 else slow - 1
  }

  function PartingSpike(slow: int): nat {
    if slow <= 1 then 0 else if slow == 2 then 1 else slow - 2
  }

  /** One and two bars short of the fast average, its window is over one and over two bars. */
  lemma PartingSignal(c: seq<real>, n: nat, fast: int, slow: int)
    requires Peeks(MaCrossover(fast, slow)) && fast - 2 <= n == |c| < fast
    requires Spike(c, PartingSpike(slow))
    ensures Crossover(c, fast, slow, PartingBar(slow)) == Some((n == fast - 1) == (slow == 2))
  {
    var i := PartingBar(slow);
    Reciprocals(1, 2);
    if slow > 2 {
      Reciprocals(2, slow);
    }
    SpikeCrossover(c, fast, slow, PartingSpike(slow), i, if n == fast - 1 then i else i - 1,
                   i - slow + 1);
    hide Recip, Crossover;
  }

  lemma QuietBefore(bars: seq<Bar>, fast: int, slow: int, i: nat)
    requires Peeks(MaCrossover(fast, slow)) && fast - 2 <= |bars| < fast && i < PartingBar(slow)
    requires Spike(Closes(bars), PartingSpike(slow))
    requires !Fails(bars, [], MaCrossover(fast, slow))
    ensures !Signals(bars, [], MaCrossover(fast, slow))[i]
  {
    if slow == 1 {
      SpikeCrossover(Closes(bars), fast, slow, PartingSpike(slow), 0, 0, 0);
      assert SignalAt(bars, [], MaCrossover(fast, slow), 0) == Some(false);
    }
  }

  /** On such a history nothing happens before the parting signal, which is on in exactly one of
      the two lengths. */
  lemma PartingRun(bars: seq<Bar>, fast: int, slow: int)
    requires Peeks(MaCrossover(fast, slow)) && fast - 2 <= |bars| < fast
    requires Spike(Closes(bars), PartingSpike(slow))
    ensures !Fails(bars, [], MaCrossover(fast, slow))
    ensures PartingBar(slow) + 1 < |bars|
    ensures var desired := Signals(bars, [], MaCrossover(fast, slow));
            && (forall i :: 0 <= i < PartingBar(slow) ==> !desired[i])
            && desired[PartingBar(slow)] == ((|bars| == fast - 1) == (slow == 2))
  {
    var s := MaCrossover(fast, slow);
    FailsExactly(bars, [], s);
    PartingSignal(Closes(bars), |bars|, fast, slow);
    assert SignalAt(bars, [], s, PartingBar(slow)) == Crossover(Closes(bars), fast, slow, PartingBar(slow));
    forall i | 0 <= i < PartingBar(slow)
      ensures !Signals(bars, [], s)[i]
    {
      QuietBefore(bars, fast, slow, i);
    }
  }

  /** After bar k the run has spent everything on one purchase, or it has not traded. */
  predicate Spent(r: Request, b: Book, k: nat, bought: bool) {
    && k < |b.curve| && b.cash == b.curve[k] == (if bought then 0.0 else r.startingCapital)
    && |b.trades| == (if bought then 1 else 0)
  }

  lemma AfterTheSignal(r: Request, bars: seq<Bar>, desired: seq<bool>, p: nat)
    requires Staged(r, bars, p) && |desired| == |bars| && bars[p + 1].close == 0.0
    requires forall i :: 0 <= i < p ==> !desired[i]
    ensures Spent(r, BookAfter(r, bars, desired, p + 2), p + 1, desired[p])
  {
    FlatWhileOff(r, bars, desired, p, p + 1);
    BookStep(r, bars, desired, p + 1);
    hide BookAfter, NextBook, PaysForMinimum;
    var b := BookAfter(r, bars, desired, p + 1);
    if desired[p] {
      SpendAll(r, b, p + 1, bars[p + 1]);
    } else {
      BarWithoutTrade(r, b, p + 1, bars[p + 1], false);
    }
    assert BookAfter(r, bars, desired, p + 2).quantity as real * 0.0 == 0.0;
  }

  /** A history of either length on which the runs part. */
  ghost predicate Parting(r: Request, bars: seq<Bar>, fast: int, slow: int) {
    && PartingBar(slow) + 1 < |bars| && fast - 2 <= |bars| < fast
    && Staged(r, bars, PartingBar(slow))
    && Spike(Closes(bars), PartingSpike(slow)) && bars[PartingBar(slow) + 1].close == 0.0
  }

  lemma PartingScene(r: Request, fast: int, slow: int) returns (bars: seq<Bar>)
    requires r.Valid() && r.strategy == MaCrossover(fast, slow) && Peeks(r.strategy)
    ensures |bars| == fast - 1 && PartingBar(slow) + 1 < fast - 2
    ensures Parting(r, bars, fast, slow) && Parting(r, bars[..fast - 2], fast, slow)
  {
    var open := ExactOpen(r);
    var closes := SpikeCloses(fast - 1, PartingSpike(slow));
    bars := Scene(closes, PartingBar(slow), open, r.minimumQuantity);
    SceneIsStaged(r, closes, PartingBar(slow), open);
    hide PaysForMinimum;
    assert Closes(bars) == closes && Closes(bars[..fast - 2]) == closes[..fast - 2];
  }

  /** After bar k exactly one of the runs has traded, and the curves differ there. */
  predicate Parted(full: Book, early: Book, k: nat) {
    && k < |full.curve| && k < |early.curve|
    && |full.trades| + |early.trades| == 1
    && full.cash != early.cash && full.curve[k] != early.curve[k]
  }

  lemma OneSpent(r: Request, full: Book, early: Book, k: nat, bought: bool)
    requires r.startingCapital > 0.0
    requires Spent(r, full, k, bought) && Spent(r, early, k, !bought)
    ensures Parted(full, early, k)
  {
  }

  /** The run on either length of the scene completes, and trades on its parting signal in exactly
      one of them. */
  lemma PartedRun(r: Request, bars: seq<Bar>, fast: int, slow: int, k: nat)
    requires r.strategy == MaCrossover(fast, slow) && Peeks(r.strategy)
    requires Parting(r, bars, fast, slow) && k == PartingBar(slow) + 1
    ensures k < |bars| && PricesOk(bars) && Completes(r, bars, [])
    ensures Spent(r, BookAfter(r, bars, Signals(bars, [], r.strategy), k + 1), k,
                  (|bars| == fast - 1) == (slow == 2))
  {
    PartingRun(bars, fast, slow);
    hide Signals, Fails, BookAfter, PaysForMinimum, Spike;
    StagedCompletes(r, bars, [], k - 1);
    AfterTheSignal(r, bars, Signals(bars, [], r.strategy), k - 1);
  }

  /** A run that looks ahead: a completed history and the history without its last bar, which also
      completes, of which exactly one has traded after bar k. */
  lemma LookAhead(r: Request) returns (bars: seq<Bar>, m: nat, k: nat)
    requires r.Valid() && Peeks(r.strategy)
    ensures PricesOk(bars) && k < m < |bars| && PricesOk(bars[..m])
    ensures Completes(r, bars, []) && Completes(r, bars[..m], [])
    ensures Parted(BookAfter(r, bars, Signals(bars, [], r.strategy), k + 1),
                   BookAfter(r, bars[..m], Signals(bars[..m], [], r.strategy), k + 1), k)
  {
    var fast, slow := r.strategy.fast, r.strategy.slow;
    bars := PartingScene(r, fast, slow);
    m, k := fast - 2, PartingBar(slow) + 1;
    hide Signals, Fails, BookAfter, Parting, PartingBar, Peeks, Completes, Spent, Parted;
    PartedRun(r, bars, fast, slow, k);
    PartedRun(r, bars[..m], fast, slow, k);
    OneSpent(r, BookAfter(r, bars, Signals(bars, [], r.strategy), k + 1),
             BookAfter(r, bars[..m], Signals(bars[..m], [], r.strategy), k + 1), k, slow == 2);
  }

  // ---- Main results ----

  lemma LookAheadShows(r: Request)
    requires r.Valid() && Peeks(r.strategy)
    ensures !NeverLooksAhead(r) && !PrefixStable(r)
  {
    var bars, m, k := LookAhead(r);
    hide Signals, Fails, BookAfter, Completes;
    assert Agree(bars, bars[..m], [], [], k);
    assert !TradeAlike(r, bars, bars[..m], [], [], k);
    BookGrows(r, bars, Signals(bars, [], r.strategy), k + 1, |bars|);
    BookGrows(r, bars[..m], Signals(bars[..m], [], r.strategy), k + 1, m);
    PartedCurves(FinalBook(r, bars[..m], []), FinalBook(r, bars, []), k,
                 BookAfter(r, bars[..m], Signals(bars[..m], [], r.strategy), k + 1).curve,
                 BookAfter(r, bars, Signals(bars, [], r.strategy), k + 1).curve);
  }

  lemma PartedCurves(early: Book, full: Book, k: nat, a: seq<real>, b: seq<real>)
    requires k < |early.curve| && k < |full.curve| && |a| == |b| == k + 1
    requires a == early.curve[..k + 1] && b == full.curve[..k + 1] && a[k] != b[k]
    ensures !PrefixOf(early, full)
  {
    assert early.curve[k] == a[k] && full.curve[k] == b[k];
  }

  lemma PastDecides(r: Request)
    requires r.Valid() && !Peeks(r.strategy)
    ensures NeverLooksAhead(r) && PrefixStable(r)
  {
    hide Signals, Fails, BookAfter, SameTrading, Peeks;
    forall bars: seq<Bar>, bars': seq<Bar>, benchmark: seq<Bar>, benchmark': seq<Bar>, k: nat |
      && PricesOk(bars) && PricesOk(bars')
      && Completes(r, bars, benchmark) && Completes(r, bars', benchmark')
      && Agree(bars, bars', benchmark, benchmark', k)
      ensures TradeAlike(r, bars, bars', benchmark, benchmark', k)
    {
      NoLookAhead(r, bars, bars', benchmark, benchmark', k);
    }
    forall bars: seq<Bar>, benchmark: seq<Bar>, m: nat |
      && PricesOk(bars) && m <= |bars| && PricesOk(bars[..m])
      && Completes(r, bars, benchmark) && Completes(r, bars[..m], benchmark)
      ensures PrefixOf(FinalBook(r, bars[..m], benchmark), FinalBook(r, bars, benchmark))
    {
      PrefixRun(r, bars, benchmark, m);
    }
  }

  /** Completed runs never look ahead, and prefixes of them are prefixes, unless the fast average
      is longer than the slow one by at least three bars, or four if the slow one is over a single
      bar; and then there are runs that do. */
  lemma LookAheadExactly(r: Request)
    requires r.Valid()
    ensures NeverLooksAhead(r) <==> !Peeks(r.strategy)
    ensures PrefixStable(r) <==> !Peeks(r.strategy)
  {
    if Peeks(r.strategy) {
      LookAheadShows(r);
    } else {
      PastDecides(r);
    }
  }
}
