/** backend/app/backtesting/engine.py on values: signals, one bar of the trading loop, the book
    after any number of bars. Floats are taken as exact reals. */
module BacktestModel {
  import opened Common
  import opened Decimals

  datatype Bar = Bar(open: real, close: real, volume: Option<nat>)
  {
    /** `bar.volume or 0` */
    function Volume(): nat {
      if volume.Some? then volume.value else 0
    }
  }

  /** Parameters may be any integers: the request does not check them. */
  datatype Strategy =
    | BuyHold
    | MaCrossover(fast: int, slow: int)
    | MomentumDsex(lookback: int)
    | VolumeBreakout(lookback: int, multiplier: real)

  datatype Request = Request(
    strategy: Strategy,
    startingCapital: real,
    feePercent: real,
    slippagePercent: real,
    minimumQuantity: int)
  {
    /** The bounds of the request schema. */
    predicate Valid() {
      && startingCapital > 0.0 && feePercent >= 0.0 && slippagePercent >= 0.0
      && minimumQuantity > 0
    }

    function FeeRate(): real { feePercent / 100.0 }
    function SlipRate(): real { slippagePercent / 100.0 }
  }

  datatype Side = Buy | Sell

  /** `bar` stands for the bar's timestamp. */
  datatype Trade = Trade(bar: nat, side: Side, quantity: int, price: real, fee: real,
                         slippage: real)

  datatype Book = Book(cash: real, quantity: int, trades: seq<Trade>, curve: seq<real>)
  {
    function Equity(close: real): real {
      cash + quantity as real * close
    }
  }

  /** The bounds of the bar schema. */
  predicate PricesOk(bars: seq<Bar>) {
    forall i :: 0 <= i < |bars| ==> bars[i].open >= 0.0 && bars[i].close >= 0.0
  }

  // ---- Python lists ----

  /** A slice bound: counted from the end when negative, and kept inside the list. */
  function Clip(n: nat, i: int): (k: nat)
    ensures k <= n
  {
    if i < 0 then (if n + i < 0 then 0 else n + i) else if i > n then n else i
  }

  /** `s[start:stop]` */
  function Slice<T>(s: seq<T>, start: int, stop: int): seq<T> {
    var a, b := Clip(|s|, start), Clip(|s|, stop);
    if a <= b then s[a..b] else []
  }

  /** `s[i]`; None stands for the IndexError. */
  function At<T>(s: seq<T>, i: int): Option<T> {
    if 0 <= i < |s| then Some(s[i]) else if -|s| <= i < 0 then Some(s[|s| + i]) else None
  }

  // ---- Signals ----

  function Sum(values: seq<real>): real {
    if values == [] then 0.0 else Sum(values[..|values| - 1]) + values[|values| - 1]
  }

  function Mean(values: seq<real>): real
    requires values != []
  {
    Sum(values) / |values| as real
  }

  function Max(values: seq<real>): real
    requires values != []
  {
    var last := values[|values| - 1];
    if |values| == 1 then last
    else
      var m := Max(values[..|values| - 1]);
      if last > m then last else m
  }

  function Closes(bars: seq<Bar>): seq<real> {
    seq(|bars|, i requires 0 <= i < |bars| => bars[i].close)
  }

  function Volumes(bars: seq<Bar>): seq<real> {
    seq(|bars|, i requires 0 <= i < |bars| => bars[i].Volume() as real)
  }

  /** None stands for the error of a mean over an empty window. */
  function Crossover(closes: seq<real>, fast: int, slow: int, idx: int): Option<bool> {
    var short, long := Slice(closes, idx - fast + 1, idx + 1), Slice(closes, idx - slow + 1, idx + 1);
    if short == [] || long == [] then None else Some(Mean(short) > Mean(long))
  }

  function BenchmarkUp(benchmark: seq<real>, lookback: int, idx: int): Option<bool> {
    if idx >= |benchmark| then Some(false)
    else
      var now, before := At(benchmark, idx), At(benchmark, idx - lookback);
      if now.None? || before.None? then None else Some(now.value > before.value)
  }

  function Momentum(closes: seq<real>, benchmark: seq<real>, lookback: int, idx: int)
    : Option<bool>
  {
    var up, now, before := BenchmarkUp(benchmark, lookback, idx), At(closes, idx),
                           At(closes, idx - lookback);
    if up.None? || now.None? || before.None? then None
    else Some(now.value > before.value && up.value)
  }

  function Breakout(closes: seq<real>, volumes: seq<real>, lookback: int, multiplier: real,
                    idx: int): Option<bool>
    requires |closes| == |volumes|
  {
    var now, window := At(closes, idx), Slice(closes, idx - lookback, idx);
    var volume, earlier := At(volumes, idx), Slice(volumes, idx - lookback, idx);
    if now.None? || volume.None? || window == [] || earlier == [] then None
    else Some(now.value > Max(window) && volume.value > Mean(earlier) * multiplier)
  }

  /** Whether the strategy wants to be in the market after bar `idx`. */
  function SignalAt(bars: seq<Bar>, benchmark: seq<Bar>, strategy: Strategy, idx: int)
    : Option<bool>
  {
    match strategy
    case BuyHold => Some(true)
    case MaCrossover(fast, slow) => Crossover(Closes(bars), fast, slow, idx)
    case MomentumDsex(lookback) => Momentum(Closes(bars), Closes(benchmark), lookback, idx)
    case VolumeBreakout(lookback, multiplier) =>
      Breakout(Closes(bars), Volumes(bars), lookback, multiplier, idx)
  }

  /** The first bar at which the strategy computes a signal. */
  function FirstSignal(strategy: Strategy): int {
    match strategy
    case BuyHold => 0
    case MaCrossover(_, slow) => slow - 1
    case MomentumDsex(lookback) => lookback
    case VolumeBreakout(lookback, _) => lookback
  }

  /** Some signal raises. */
  predicate Fails(bars: seq<Bar>, benchmark: seq<Bar>, strategy: Strategy) {
    exists idx :: FirstSignal(strategy) <= idx < |bars|
               && SignalAt(bars, benchmark, strategy, idx) == None
  }

  /** The signals of a history on which none raises. */
  function Signals(bars: seq<Bar>, benchmark: seq<Bar>, strategy: Strategy)
    : (desired: seq<bool>)
    requires !Fails(bars, benchmark, strategy)
    ensures |desired| == |bars|
  {
    seq(|bars|, i requires 0 <= i < |bars| =>
      FirstSignal(strategy) <= i && SignalAt(bars, benchmark, strategy, i) == Some(true))
  }

  // ---- One bar ----

  function BuyPrice(r: Request, open: real): real {
    open * (1.0 + r.SlipRate())
  }

  function SellPrice(r: Request, open: real): real {
    open * (1.0 - r.SlipRate())
  }

  /** Cash for one share, fee included. */
  function UnitCost(r: Request, open: real): real {
    BuyPrice(r, open) * (1.0 + r.FeeRate())
  }

  lemma UnitCostPositive(r: Request, open: real)
    requires r.Valid() && open > 0.0
    ensures UnitCost(r, open) > 0.0
  {
    MulPositive(open, 1.0 + r.SlipRate());
    MulPositive(BuyPrice(r, open), 1.0 + r.FeeRate());
  }

  /** As many shares as the cash pays for, rounded down to a multiple of the minimum. */
  function Affordable(r: Request, cash: real, open: real): int
    requires r.Valid() && open > 0.0
  {
    UnitCostPositive(r, open);
    var affordable := Trunc(cash / UnitCost(r, open));
    affordable - affordable % r.minimumQuantity
  }

  function TradeAt(r: Request, idx: nat, side: Side, quantity: int, open: real): Trade {
    var price := if side == Buy then BuyPrice(r, open) else SellPrice(r, open);
    Trade(idx, side, quantity, price, quantity as real * price * r.FeeRate(), open * r.SlipRate())
  }

  /** What a trade does to cash. */
  function Flow(t: Trade): real {
    if t.side == Buy then -(t.quantity as real * t.price + t.fee)
    else t.quantity as real * t.price - t.fee
  }

  /** The trade of one bar, if there is one. A bar that opens at zero cannot be bought: the
      source divides by the price. */
  function TradeOf(r: Request, cash: real, quantity: int, idx: nat, open: real, volume: nat,
                   target: bool): Option<Trade>
    requires r.Valid() && open >= 0.0
  {
    if target && quantity == 0 then
      if open == 0.0 then None
      else
        var affordable := Affordable(r, cash, open);
        if affordable > 0 && volume >= affordable
        then Some(TradeAt(r, idx, Buy, affordable, open)) else None
    else if !target && quantity > 0 then Some(TradeAt(r, idx, Sell, quantity, open))
    else None
  }

  function ApplyTrade(b: Book, t: Option<Trade>): Book {
    if t.None? then b
    else b.(cash := b.cash + Flow(t.value),
            quantity := if t.value.side == Buy then t.value.quantity else 0,
            trades := b.trades + [t.value])
  }

  function Mark(b: Book, close: real): Book {
    b.(curve := b.curve + [b.Equity(close)])
  }

  function NextBook(r: Request, b: Book, idx: nat, bar: Bar, target: bool): Book
    requires r.Valid() && bar.open >= 0.0
  {
    Mark(ApplyTrade(b, TradeOf(r, b.cash, b.quantity, idx, bar.open, bar.Volume(), target)),
         bar.close)
  }

  // ---- The loop ----

  /** A bar executes the signal of the bar before it; the first bar has none. */
  function TargetAt(desired: seq<bool>, idx: nat): bool
    requires idx <= |desired|
  {
    idx > 0 && desired[idx - 1]
  }

  /** The book after the first k bars. */
  function BookAfter(r: Request, bars: seq<Bar>, desired: seq<bool>, k: nat): (b: Book)
    requires r.Valid() && PricesOk(bars) && k <= |bars| == |desired|
    ensures |b.curve| == k
    ensures k > 0 ==> b.curve[k - 1] == b.Equity(bars[k - 1].close)
    decreases k, 0
  {
    if k == 0 then Book(r.startingCapital, 0, [], [])
    else
      Mark(ApplyTrade(BookAfter(r, bars, desired, k - 1), TradeOn(r, bars, desired, k - 1)),
           bars[k - 1].close)
  }

  /** The trade on bar k. */
  function TradeOn(r: Request, bars: seq<Bar>, desired: seq<bool>, k: nat): Option<Trade>
    requires r.Valid() && PricesOk(bars) && k < |bars| == |desired|
    decreases k, 1
  {
    var b := BookAfter(r, bars, desired, k);
    TradeOf(r, b.cash, b.quantity, k, bars[k].open, bars[k].Volume(), TargetAt(desired, k))
  }

  lemma Unroll(r: Request, bars: seq<Bar>, desired: seq<bool>, k: nat)
    requires r.Valid() && PricesOk(bars) && k < |bars| == |desired|
    ensures BookAfter(r, bars, desired, k + 1)
         == Mark(ApplyTrade(BookAfter(r, bars, desired, k), TradeOn(r, bars, desired, k)),
                 bars[k].close)
  {
  }

  lemma BookStep(r: Request, bars: seq<Bar>, desired: seq<bool>, k: nat)
    requires r.Valid() && PricesOk(bars) && k < |bars| == |desired|
    ensures BookAfter(r, bars, desired, k + 1)
         == NextBook(r, BookAfter(r, bars, desired, k), k, bars[k], TargetAt(desired, k))
  {
  }

  /** The run reaches a bar that it wants to buy and that opens at zero. */
  predicate DividesByZero(r: Request, bars: seq<Bar>, desired: seq<bool>)
    requires r.Valid() && PricesOk(bars) && |bars| == |desired|
  {
    exists k :: 0 <= k < |bars| && BuysAtZero(r, bars, desired, k)
  }

  predicate BuysAtZero(r: Request, bars: seq<Bar>, desired: seq<bool>, k: nat)
    requires r.Valid() && PricesOk(bars) && k < |bars| == |desired|
  {
    && bars[k].open == 0.0 && TargetAt(desired, k)
    && BookAfter(r, bars, desired, k).quantity == 0
  }

  /** `run_backtest` does not raise. */
  predicate Completes(r: Request, bars: seq<Bar>, benchmark: seq<Bar>)
    requires r.Valid() && PricesOk(bars)
  {
    && |bars| >= 2
    && !Fails(bars, benchmark, r.strategy)
    && !DividesByZero(r, bars, Signals(bars, benchmark, r.strategy))
  }

  function FinalBook(r: Request, bars: seq<Bar>, benchmark: seq<Bar>): Book
    requires r.Valid() && PricesOk(bars) && !Fails(bars, benchmark, r.strategy)
  {
    BookAfter(r, bars, Signals(bars, benchmark, r.strategy), |bars|)
  }
}
