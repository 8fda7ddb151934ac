/** When the signals of backend/app/backtesting/engine.py can be computed, and when they depend on
    the past alone: for every choice of integer parameters. */
module BacktestSignals {
  import opened Common
  import opened BacktestModel

  // ---- When a run raises ----

  /** The condition on parameters and number of bars under which `_signals` raises. */
  predicate Raises(strategy: Strategy, n: nat) {
    match strategy
    case BuyHold => false
    case MaCrossover(fast, slow) => slow <= 0 || (n >= slow && (fast <= 0 || slow < fast <= n))
    case MomentumDsex(lookback) => lookback < 0
    case VolumeBreakout(lookback, _) => lookback <= 0
  }

  /** A bar whose signal raises, if the parameters are out of range. */
  function BadBar(strategy: Strategy, n: nat): int {
    match strategy
    case BuyHold => 0
    case MaCrossover(_, slow) => if slow <= 0 then -1 else slow - 1
    case MomentumDsex(_) => n - 1
    case VolumeBreakout(_, _) => n - 1
  }

  lemma BadBarRaises(bars: seq<Bar>, benchmark: seq<Bar>, strategy: Strategy)
    requires bars != [] && Raises(strategy, |bars|)
    ensures var idx := BadBar(strategy, |bars|);
            FirstSignal(strategy) <= idx < |bars| && SignalAt(bars, benchmark, strategy, idx) == None
  {
  }

  lemma GoodSignal(bars: seq<Bar>, benchmark: seq<Bar>, strategy: Strategy, idx: int)
    requires !Raises(strategy, |bars|) && FirstSignal(strategy) <= idx < |bars|
    ensures SignalAt(bars, benchmark, strategy, idx).Some?
  {
  }

  /** Computing the signals raises if and only if the parameters and the length say so, whatever
      the prices. */
  lemma FailsExactly(bars: seq<Bar>, benchmark: seq<Bar>, strategy: Strategy)
    requires bars != []
    ensures Fails(bars, benchmark, strategy) <==> Raises(strategy, |bars|)
  {
    if Raises(strategy, |bars|) {
      BadBarRaises(bars, benchmark, strategy);
    } else {
      forall idx | FirstSignal(strategy) <= idx < |bars|
        ensures SignalAt(bars, benchmark, strategy, idx) != None
      {
        GoodSignal(bars, benchmark, strategy, idx);
      }
    }
  }

  // ---- Signals and the past ----

  /** The first k elements, or all if there are fewer. */
  function Known<T>(a: seq<T>, k: nat): seq<T> {
    if k <= |a| then a[..k] else a
  }

  lemma KnownEarlier<T>(a: seq<T>, b: seq<T>, j: nat, k: nat)
    requires j <= k && Known(a, k) == Known(b, k)
    ensures Known(a, j) == Known(b, j)
    ensures forall i :: 0 <= i < k ==> (i < |a| <==> i < |b|) && (i < |a| ==> a[i] == b[i])
  {
    assert Known(a, j) == Known(Known(a, k), j);
    assert Known(b, j) == Known(Known(b, k), j);
    assert forall i :: 0 <= i < k && i < |a| ==> a[i] == Known(a, k)[i];
    assert forall i :: 0 <= i < k && i < |b| ==> b[i] == Known(b, k)[i];
  }

  /** The window of a moving average starts at the same bar in histories of n and of n' bars: it
      does unless the average is so long that its start is counted from the end. */
  predicate SameStart(strategy: Strategy, idx: nat, n: nat, n': nat) {
    strategy.MaCrossover? ==>
      || strategy.fast <= idx + 1
      || Clip(n, idx - strategy.fast + 1) == Clip(n', idx - strategy.fast + 1)
  }

  lemma WindowsAgree<T>(a: seq<T>, b: seq<T>, n: nat, lo: int, hi: int)
    requires 0 <= hi <= n && n <= |a| && n <= |b| && a[..n] == b[..n]
    requires 0 <= lo || Clip(|a|, lo) == Clip(|b|, lo)
    ensures Slice(a, lo, hi) == Slice(b, lo, hi)
  {
    var from := if 0 <= lo then lo else Clip(|a|, lo);
    forall i | from <= i < hi
      ensures a[i] == b[i]
    {
      assert a[..n][i] == b[..n][i];
    }
    if from <= hi {
      assert a[from..hi] == b[from..hi];
    }
  }

  lemma CrossoverUsesThePast(c: seq<real>, c': seq<real>, fast: int, slow: int, idx: nat)
    requires 0 <= slow - 1 <= idx && idx < |c| && idx < |c'|
    requires SameStart(MaCrossover(fast, slow), idx, |c|, |c'|)
    requires c[..idx + 1] == c'[..idx + 1]
    ensures Crossover(c, fast, slow, idx) == Crossover(c', fast, slow, idx)
  {
    WindowsAgree(c, c', idx + 1, idx - fast + 1, idx + 1);
    WindowsAgree(c, c', idx + 1, idx - slow + 1, idx + 1);
  }

  lemma BreakoutUsesThePast(c: seq<real>, c': seq<real>, v: seq<real>, v': seq<real>,
                            lookback: int, multiplier: real, idx: nat)
    requires 0 <= lookback <= idx < |c| == |v| && idx < |c'| == |v'|
    requires c[..idx + 1] == c'[..idx + 1] && v[..idx + 1] == v'[..idx + 1]
    ensures Breakout(c, v, lookback, multiplier, idx) == Breakout(c', v', lookback, multiplier, idx)
  {
    assert c[idx] == c[..idx + 1][idx] && v[idx] == v[..idx + 1][idx];
    WindowsAgree(c, c', idx + 1, idx - lookback, idx);
    WindowsAgree(v, v', idx + 1, idx - lookback, idx);
  }

  /** A signal depends on the bars and benchmark bars up to its own, and on where its window
      starts. */
  lemma SignalUsesThePast(bars: seq<Bar>, bars': seq<Bar>, benchmark: seq<Bar>,
                          benchmark': seq<Bar>, strategy: Strategy, idx: nat)
    requires idx < |bars| && idx < |bars'| && SameStart(strategy, idx, |bars|, |bars'|)
    requires 0 <= FirstSignal(strategy) <= idx
    requires Known(bars, idx + 1) == Known(bars', idx + 1)
    requires Known(benchmark, idx + 1) == Known(benchmark', idx + 1)
    ensures SignalAt(bars, benchmark, strategy, idx) == SignalAt(bars', benchmark', strategy, idx)
  {
    var n := idx + 1;
    KnownEarlier(bars, bars', n, n);
    KnownEarlier(benchmark, benchmark', n, n);
    assert Closes(bars)[..n] == Closes(bars')[..n];
    assert Volumes(bars)[..n] == Volumes(bars')[..n];
    match strategy
    case BuyHold =>
    case MaCrossover(fast, slow) =>
      CrossoverUsesThePast(Closes(bars), Closes(bars'), fast, slow, idx);
    case MomentumDsex(lookback) =>
    case VolumeBreakout(lookback, multiplier) =>
      BreakoutUsesThePast(Closes(bars), Closes(bars'), Volumes(bars), Volumes(bars'),
                          lookback, multiplier, idx);
  }

  /** The signal of a bar in two runs that agree up to the bar. */
  lemma SameSignal(bars: seq<Bar>, bars': seq<Bar>, benchmark: seq<Bar>, benchmark': seq<Bar>,
                   strategy: Strategy, idx: nat)
    requires idx < |bars| && idx < |bars'|
    requires FirstSignal(strategy) <= idx ==> SameStart(strategy, idx, |bars|, |bars'|)
    requires !Fails(bars, benchmark, strategy) && !Fails(bars', benchmark', strategy)
    requires Known(bars, idx + 1) == Known(bars', idx + 1)
    requires Known(benchmark, idx + 1) == Known(benchmark', idx + 1)
    ensures Signals(bars, benchmark, strategy)[idx] == Signals(bars', benchmark', strategy)[idx]
  {
    FailsExactly(bars, benchmark, strategy);
    if FirstSignal(strategy) <= idx {
      SignalUsesThePast(bars, bars', benchmark, benchmark', strategy, idx);
    }
  }

  // ---- Signals that are executed ----

  /** A fast average so much longer than the slow one that runs of different lengths, both too
      short for it, execute a signal with different windows. */
  predicate Peeks(strategy: Strategy) {
    && strategy.MaCrossover?
    && (|| (2 <= strategy.slow && strategy.slow + 3 <= strategy.fast)
        || (strategy.slow == 1 && 5 <= strategy.fast))
  }

  /** Otherwise executed signals, those before the last bar, have windows that start alike. */
  lemma ExecutedStartsAlike(strategy: Strategy, idx: nat, n: nat, n': nat)
    requires !Peeks(strategy) && !Raises(strategy, n) && !Raises(strategy, n')
    requires FirstSignal(strategy) <= idx && idx + 2 <= n && idx + 2 <= n'
    ensures SameStart(strategy, idx, n, n')
  {
  }

  lemma SameExecutedSignal(bars: seq<Bar>, bars': seq<Bar>, benchmark: seq<Bar>,
                           benchmark': seq<Bar>, strategy: Strategy, idx: nat)
    requires !Peeks(strategy) && idx + 2 <= |bars| && idx + 2 <= |bars'|
    requires !Fails(bars, benchmark, strategy) && !Fails(bars', benchmark', strategy)
    requires Known(bars, idx + 1) == Known(bars', idx + 1)
    requires Known(benchmark, idx + 1) == Known(benchmark', idx + 1)
    ensures Signals(bars, benchmark, strategy)[idx] == Signals(bars', benchmark', strategy)[idx]
  {
    FailsExactly(bars, benchmark, strategy);
    FailsExactly(bars', benchmark', strategy);
    if FirstSignal(strategy) <= idx {
      ExecutedStartsAlike(strategy, idx, |bars|, |bars'|);
    }
    SameSignal(bars, bars', benchmark, benchmark', strategy, idx);
  }

  lemma PrefixCompletes(bars: seq<Bar>, benchmark: seq<Bar>, strategy: Strategy, m: nat)
    requires 0 < m <= |bars| && !Fails(bars, benchmark, strategy)
    ensures !Fails(bars[..m], benchmark, strategy)
  {
    FailsExactly(bars, benchmark, strategy);
    FailsExactly(bars[..m], benchmark, strategy);
  }

  // ---- The exact guard ----

  /** Every window lies inside the bars before the signal. */
  predicate Windowed(strategy: Strategy) {
    match strategy
    case BuyHold => true
    case MaCrossover(fast, slow) => 1 <= fast <= slow
    case MomentumDsex(lookback) => 0 <= lookback
    case VolumeBreakout(lookback, _) => 1 <= lookback
  }

  /** On every history the signals can be computed, and those of a prefix are a prefix. */
  ghost predicate PrefixSafe(strategy: Strategy) {
    forall bars: seq<Bar>, benchmark: seq<Bar>, m: nat :: 0 < m <= |bars| ==>
      PrefixSignals(bars, benchmark, strategy, m)
  }

  ghost predicate PrefixSignals(bars: seq<Bar>, benchmark: seq<Bar>, strategy: Strategy, m: nat)
    requires m <= |bars|
  {
    && !Fails(bars, benchmark, strategy) && !Fails(bars[..m], benchmark, strategy)
    && Signals(bars[..m], benchmark, strategy) == Signals(bars, benchmark, strategy)[..m]
  }

  lemma WindowedIsSafe(bars: seq<Bar>, benchmark: seq<Bar>, strategy: Strategy, m: nat)
    requires Windowed(strategy) && 0 < m <= |bars|
    ensures PrefixSignals(bars, benchmark, strategy, m)
  {
    FailsExactly(bars, benchmark, strategy);
    PrefixCompletes(bars, benchmark, strategy, m);
    forall i | 0 <= i < m
      ensures Signals(bars[..m], benchmark, strategy)[i] == Signals(bars, benchmark, strategy)[i]
    {
      assert Known(bars[..m], i + 1) == Known(bars, i + 1);
      SameSignal(bars[..m], bars, benchmark, benchmark, strategy, i);
    }
  }

  /** Parameters are safe on every history if and only if their windows lie in the past: for any
      others there is a number of bars on which the source raises. */
  lemma WindowedExactly(strategy: Strategy)
    ensures PrefixSafe(strategy) <==> Windowed(strategy)
  {
    if Windowed(strategy) {
      forall bars: seq<Bar>, benchmark: seq<Bar>, m: nat | 0 < m <= |bars|
        ensures PrefixSignals(bars, benchmark, strategy, m)
      {
        WindowedIsSafe(bars, benchmark, strategy, m);
      }
    } else {
      var n := if strategy.MaCrossover? && strategy.slow > 0 then
                 (if strategy.fast > strategy.slow then strategy.fast else strategy.slow)
               else 1;
      var bars := seq(n, _ => Bar(1.0, 1.0, None));
      FailsExactly(bars, [], strategy);
      assert !PrefixSignals(bars, [], strategy, 1);
    }
  }

  // ---- Windows from the end ----

  /** A single close of 1 among zeros. */
  predicate Spike(values: seq<real>, p: nat) {
    forall i :: 0 <= i < |values| ==> values[i] == if i == p then 1.0 else 0.0
  }

  lemma {:induction false} SpikeSum(values: seq<real>, p: nat, a: nat, b: nat)
    requires Spike(values, p) && a <= b <= |values|
    ensures Sum(values[a..b]) == if a <= p < b then 1.0 else 0.0
    decreases b
  {
    if a < b {
      assert values[a..b][..b - a - 1] == values[a..b - 1];
      SpikeSum(values, p, a, b - 1);
    }
  }

  /** With the fast average the longer one, its window starts from the end of the list: with 20
      and 10, the signal of bar 9 is false in 15 bars and true in the first 12 of them. */
  lemma LengthDependentCrossover(bars: seq<Bar>)
    requires |bars| == 15 && Spike(Closes(bars), 2)
    ensures var s := MaCrossover(20, 10);
            && !Fails(bars, [], s) && !Fails(bars[..12], [], s)
            && !Signals(bars, [], s)[9] && Signals(bars[..12], [], s)[9]
  {
    var s := MaCrossover(20, 10);
    FailsExactly(bars, [], s);
    FailsExactly(bars[..12], [], s);
    var c, c' := Closes(bars), Closes(bars[..12]);
    assert c' == c[..12];
    assert Spike(c', 2);
    SpikeSum(c, 2, 5, 10);
    SpikeSum(c, 2, 0, 10);
    SpikeSum(c', 2, 2, 10);
    SpikeSum(c', 2, 0, 10);
    assert Slice(c, -10, 10) == c[5..10] && Slice(c, 0, 10) == c[0..10];
    assert Slice(c', -10, 10) == c'[2..10] && Slice(c', 0, 10) == c'[0..10];
    assert Crossover(c', 20, 10, 9) == Some(true);
    assert SignalAt(bars[..12], [], s, 9) == Some(true);
  }
}
