/** backend/app/brokers/dse_execution.py: tick table, price band and volume caps. */
module DseExecution {
  import opened Common
  import opened Decimals

  datatype TickRow = TickRow(upTo: real, tick: real)

  datatype FillMode = FillMode(participationRate: real, queuePenalty: real)

  datatype Rules = Rules(
    tickSizes: seq<TickRow>,
    priceLimitPercent: real,
    minimumLiquidity: int,
    fillModes: map<string, FillMode>)

  datatype Context = Context(
    previousClose: real,
    availableVolume: int,
    queueAhead: int,
    suspended: bool,
    noTrade: bool,
    settledQuantity: Option<int>)

  // ---- Operations ----

  /** First row whose bound reaches the price, else the last row's tick. */
  function TickSize(rows: seq<TickRow>, price: real): real
    requires rows != []
  {
    if price <= rows[0].upTo || |rows| == 1 then rows[0].tick else TickSize(rows[1..], price)
  }

  function NormalizePrice(rows: seq<TickRow>, price: real): real
    requires TicksPositive(rows)
  {
    TickSizeInTable(rows, price);
    RoundToTick(price, TickSize(rows, price))
  }

  /** The multiple of the tick that is nearest to the price, away from zero from half way. */
  function RoundToTick(price: real, tick: real): real
    requires tick > 0.0
  {
    Ticks(RoundHalfUp(price / tick), tick)
  }

  function Ticks(n: int, tick: real): real {
    n as real * tick
  }

  function Band(rules: Rules, previousClose: real): (real, real)
    requires TicksPositive(rules.tickSizes)
  {
    var percent := rules.priceLimitPercent / 100.0;
    (NormalizePrice(rules.tickSizes, Shifted(previousClose, -percent)),
     NormalizePrice(rules.tickSizes, Shifted(previousClose, percent)))
  }

  function Shifted(price: real, rate: real): real {
    price * (1.0 + rate)
  }

  /** None when the fill mode is not configured (the source raises KeyError). */
  function FillableVolume(rules: Rules, context: Context, mode: string): Option<int> {
    if mode !in rules.fillModes then None
    else
      var m := rules.fillModes[mode];
      Some(Share(Max0(context.availableVolume - context.queueAhead),
                 m.participationRate, m.queuePenalty))
  }

  function Share(visible: nat, participation: real, queuePenalty: real): nat {
    Max0(Trunc(Portion(Portion(visible as real, participation), 1.0 - queuePenalty)))
  }

  function Portion(amount: real, rate: real): real {
    amount * rate
  }

  function Max0(n: int): nat {
    if n > 0 then n else 0
  }

  // ---- Tables ----

  /** What `tick_size` and the division in `normalize_price` need not to raise. */
  predicate TicksPositive(rows: seq<TickRow>) {
    && rows != []
    && forall i :: 0 <= i < |rows| ==> rows[i].tick > 0.0
  }

  ghost predicate MultipleOf(x: real, tick: real) {
    exists n :: x == Ticks(n, tick)
  }

  /** Every boundary is a multiple of the tick below it and of the tick above it. */
  ghost predicate Aligned(rows: seq<TickRow>) {
    && TicksPositive(rows)
    && (forall i, j :: 0 <= i < j < |rows| ==> rows[i].upTo < rows[j].upTo)
    && forall i :: 0 <= i < |rows| - 1 ==>
         MultipleOf(rows[i].upTo, rows[i].tick) && MultipleOf(rows[i].upTo, rows[i + 1].tick)
  }

  // ---- Tick selection ----

  lemma TickSizeInTable(rows: seq<TickRow>, price: real)
    requires rows != []
    ensures exists i :: 0 <= i < |rows| && TickSize(rows, price) == rows[i].tick
  {
    if !(price <= rows[0].upTo || |rows| == 1) {
      TickSizeInTable(rows[1..], price);
      var i :| 0 <= i < |rows[1..]| && TickSize(rows[1..], price) == rows[1..][i].tick;
      assert rows[i + 1].tick == TickSize(rows, price);
    }
  }

  /** Index of the row that prices a quote. */
  ghost function Tier(rows: seq<TickRow>, price: real): (i: nat)
    requires rows != []
    ensures i < |rows|
    ensures TickSize(rows, price) == rows[i].tick
    ensures i < |rows| - 1 ==> price <= rows[i].upTo
    ensures forall j :: 0 <= j < i ==> rows[j].upTo < price
  {
    if price <= rows[0].upTo || |rows| == 1 then 0 else 1 + Tier(rows[1..], price)
  }

  /** The bounds in Tier's contract pick out one row. */
  lemma TierUnique(rows: seq<TickRow>, price: real, i: nat)
    requires Aligned(rows) && i < |rows|
    requires i < |rows| - 1 ==> price <= rows[i].upTo
    requires i > 0 ==> rows[i - 1].upTo < price
    ensures Tier(rows, price) == i
  {
  }

  // ---- Rounding to one tick ----

  lemma RoundToTickMonotone(x: real, y: real, t: real)
    requires x <= y && t > 0.0
    ensures RoundToTick(x, t) <= RoundToTick(y, t)
  {
    QuotientMonotone(x, y, t);
    RoundHalfUpMonotone(x / t, y / t);
    TicksMonotone(RoundHalfUp(x / t), RoundHalfUp(y / t), t);
  }

  lemma TicksMonotone(m: int, n: int, t: real)
    requires m <= n && t > 0.0
    ensures Ticks(m, t) <= Ticks(n, t)
  {
    MulMonotone(m as real, n as real, t);
  }

  lemma RoundToTickFixes(x: real, t: real)
    requires t > 0.0 && MultipleOf(x, t)
    ensures RoundToTick(x, t) == x
  {
    var n :| x == Ticks(n, t);
    TicksQuotient(n, t);
  }

  lemma TicksQuotient(n: int, t: real)
    requires t > 0.0
    ensures RoundHalfUp(Ticks(n, t) / t) == n
  {
    DivideMultiple(n as real, t);
    RoundOf(Ticks(n, t) / t, n);
  }

  lemma RoundOf(q: real, n: int)
    requires q == n as real
    ensures RoundHalfUp(q) == n
  {
    RoundFixesIntegers(n);
  }

  lemma NotFarBelow(q: real, n: real, t: real)
    requires t > 0.0 && q <= n + 0.5
    ensures q * t - n * t <= t / 2.0
  {
    MulNonNegative(n + 0.5 - q, t);
  }

  lemma NotFarAbove(q: real, n: real, t: real)
    requires t > 0.0 && n - 0.5 <= q
    ensures n * t - q * t <= t / 2.0
  {
    MulNonNegative(q - n + 0.5, t);
  }

  lemma StrictlyNearBelow(x: real, q: real, n: real, t: real, rounded: real)
    requires t > 0.0 && q < n + 0.5 && x == q * t && rounded == n * t
    ensures x - rounded < t / 2.0
  {
    var gap := n + 0.5 - q;
    if gap * t <= 0.0 * t {
      CancelFactor(gap, 0.0, t);
    }
    assert gap * t == n * t + t / 2.0 - q * t;
  }

  /** Rounding to the nearest multiple of a tick moves a price by at most half of it ... */
  lemma RoundToTickBelow(x: real, t: real)
    requires t > 0.0
    ensures x - RoundToTick(x, t) <= t / 2.0
  {
    NotFarBelow(x / t, RoundHalfUp(x / t) as real, t);
    MultiplyQuotient(x, t);
  }

  /** ... and a price that is not negative goes up when it lies half way. */
  lemma HalfWayGoesUp(x: real, t: real)
    requires t > 0.0 && x >= 0.0
    ensures x - RoundToTick(x, t) < t / 2.0
  {
    QuotientSign(x, t);
    MultiplyQuotient(x, t);
    StrictlyNearBelow(x, x / t, RoundHalfUp(x / t) as real, t, RoundToTick(x, t));
  }

  lemma QuotientSign(x: real, t: real)
    requires t > 0.0 && x >= 0.0
    ensures 0.0 <= x / t
  {
    MultiplyQuotient(x, t);
    CancelFactor(0.0, x / t, t);
  }

  lemma RoundToTickAbove(x: real, t: real)
    requires t > 0.0
    ensures RoundToTick(x, t) - x <= t / 2.0
  {
    NotFarAbove(x / t, RoundHalfUp(x / t) as real, t);
    MultiplyQuotient(x, t);
  }

  /** Rounding never leaves the closed interval between the tier's two boundaries. */
  lemma NormalizeStaysInTier(rows: seq<TickRow>, price: real)
    requires Aligned(rows)
    ensures var i := Tier(rows, price);
            && NormalizePrice(rows, price) == RoundToTick(price, rows[i].tick)
            && (i < |rows| - 1 ==> NormalizePrice(rows, price) <= rows[i].upTo)
            && (i > 0 ==> rows[i - 1].upTo <= NormalizePrice(rows, price))
  {
    var i := Tier(rows, price);
    var t := rows[i].tick;
    if i < |rows| - 1 {
      RoundToTickMonotone(price, rows[i].upTo, t);
      RoundToTickFixes(rows[i].upTo, t);
    }
    if i > 0 {
      assert MultipleOf(rows[i - 1].upTo, rows[i - 1 + 1].tick);
      RoundToTickMonotone(rows[i - 1].upTo, price, t);
      RoundToTickFixes(rows[i - 1].upTo, t);
    }
  }

  // ---- Main results ----

  /** A normalised price is the nearest multiple of its input's tick, the upper one of two. */
  lemma NormalizeWithinHalfTick(rows: seq<TickRow>, price: real)
    requires TicksPositive(rows)
    ensures TickSize(rows, price) > 0.0
    ensures var t := TickSize(rows, price);
            && MultipleOf(NormalizePrice(rows, price), t)
            && price - NormalizePrice(rows, price) <= t / 2.0
            && NormalizePrice(rows, price) - price <= t / 2.0
            && (price >= 0.0 ==> price - NormalizePrice(rows, price) < t / 2.0)
  {
    TickSizeInTable(rows, price);
    RoundToTickBelow(price, TickSize(rows, price));
    if price >= 0.0 {
      HalfWayGoesUp(price, TickSize(rows, price));
    }
    RoundToTickAbove(price, TickSize(rows, price));
  }

  lemma NormalizeMonotone(rows: seq<TickRow>, x: real, y: real)
    requires Aligned(rows) && x <= y
    ensures NormalizePrice(rows, x) <= NormalizePrice(rows, y)
  {
    var i, j := Tier(rows, x), Tier(rows, y);
    NormalizeStaysInTier(rows, x);
    NormalizeStaysInTier(rows, y);
    if i == j {
      RoundToTickMonotone(x, y, rows[i].tick);
    } else if i < j - 1 {
      assert rows[i].upTo < rows[j - 1].upTo;
    }
  }

  /** A multiple of the tick of its own tier is already normalised. */
  lemma NormalizeFixes(rows: seq<TickRow>, price: real, i: nat)
    requires Aligned(rows) && i < |rows|
    requires i < |rows| - 1 ==> price <= rows[i].upTo
    requires i > 0 ==> rows[i - 1].upTo < price
    requires MultipleOf(price, rows[i].tick)
    ensures NormalizePrice(rows, price) == price
  {
    TierUnique(rows, price, i);
    RoundToTickFixes(price, rows[i].tick);
  }

  lemma NormalizeIdempotent(rows: seq<TickRow>, price: real)
    requires Aligned(rows)
    ensures NormalizePrice(rows, NormalizePrice(rows, price)) == NormalizePrice(rows, price)
  {
    var i := Tier(rows, price);
    var r := NormalizePrice(rows, price);
    NormalizeStaysInTier(rows, price);
    if i > 0 && r == rows[i - 1].upTo {
      assert i > 1 ==> rows[i - 2].upTo < rows[i - 1].upTo;
      NormalizeFixes(rows, r, i - 1);
    } else {
      NormalizeFixes(rows, r, i);
    }
  }

  /** `edge` is the multiple of its own tick that is nearest to a price. */
  ghost predicate NearestTick(rows: seq<TickRow>, price: real, edge: real)
    requires rows != []
  {
    var t := TickSize(rows, price);
    MultipleOf(edge, t) && -t / 2.0 <= edge - price <= t / 2.0
  }

  lemma NormalizeIsNearest(rows: seq<TickRow>, price: real)
    requires TicksPositive(rows)
    ensures NearestTick(rows, price, NormalizePrice(rows, price))
  {
    NormalizeWithinHalfTick(rows, price);
  }

  function Move(close: real, percent: real): real {
    close * percent / 100.0
  }

  lemma ShiftedByMove(close: real, percent: real)
    ensures Shifted(close, -(percent / 100.0)) == close - Move(close, percent)
    ensures Shifted(close, percent / 100.0) == close + Move(close, percent)
  {
  }

  /** The band reaches the configured percentage to either side, to the nearest tick. */
  lemma BandReachesThePercentage(rules: Rules, previousClose: real)
    requires TicksPositive(rules.tickSizes)
    ensures var (lower, upper) := Band(rules, previousClose);
            var move := Move(previousClose, rules.priceLimitPercent);
            && NearestTick(rules.tickSizes, previousClose - move, lower)
            && NearestTick(rules.tickSizes, previousClose + move, upper)
  {
    var percent := rules.priceLimitPercent / 100.0;
    NormalizeIsNearest(rules.tickSizes, Shifted(previousClose, -percent));
    NormalizeIsNearest(rules.tickSizes, Shifted(previousClose, percent));
    ShiftedByMove(previousClose, rules.priceLimitPercent);
  }

  /** The shipped tick table, config/dse_execution_model.yaml. */
  const SHIPPED_TICKS := [TickRow(100.0, 0.1), TickRow(500.0, 0.5), TickRow(1000000.0, 1.0)]

  lemma ShippedTableAligned()
    ensures Aligned(SHIPPED_TICKS)
  {
    assert 100.0 == Ticks(1000, 0.1) && 100.0 == Ticks(200, 0.5);
    assert 500.0 == Ticks(1000, 0.5) && 500.0 == Ticks(500, 1.0);
  }

  /** What can go wrong: with this boundary off the lower tick, rounding crosses into the next
      tier and back, so that two prices swap for ever. */
  lemma UnalignedTableOscillates()
    ensures var rows := [TickRow(1.0, 0.6), TickRow(10.0, 0.5)];
            && TicksPositive(rows)
            && NormalizePrice(rows, 1.0) == 1.2
            && NormalizePrice(rows, 1.2) == 1.0
  {
    var rows := [TickRow(1.0, 0.6), TickRow(10.0, 0.5)];
    assert rows[1..] == [TickRow(10.0, 0.5)];
    assert TickSize(rows, 1.2) == 0.5;
    assert 1.2 / 0.5 == 2.4 && RoundHalfUp(2.4) == 2;
    assert 1.6 < 1.0 / 0.6 < 1.7 && RoundHalfUp(1.0 / 0.6) == 2;
  }

  ghost predicate UnitRate(rate: real) {
    0.0 <= rate <= 1.0
  }

  lemma PortionWithin(amount: real, rate: real)
    requires 0.0 <= amount && UnitRate(rate)
    ensures 0.0 <= Portion(amount, rate)
    ensures Portion(amount, rate) <= amount
  {
    MulNonNegative(amount, rate);
    MulNonNegative(amount, 1.0 - rate);
  }

  lemma TruncAtMost(x: real, n: nat)
    requires x <= n as real
    ensures Max0(Trunc(x)) <= n
  {
  }

  /** The share is the largest whole number within the two reductions, so never above the
      volume itself. */
  lemma ShareWithin(visible: nat, participation: real, queuePenalty: real)
    requires UnitRate(participation) && UnitRate(queuePenalty)
    ensures Share(visible, participation, queuePenalty) <= visible
    ensures Share(visible, participation, queuePenalty) as real
              <= Portion(Portion(visible as real, participation), 1.0 - queuePenalty)
              < (Share(visible, participation, queuePenalty) + 1) as real
  {
    var part := Portion(visible as real, participation);
    PortionWithin(visible as real, participation);
    PortionWithin(part, 1.0 - queuePenalty);
    TruncAtMost(Portion(part, 1.0 - queuePenalty), visible);
  }

  /** Whatever the mode, at most the visible volume behind the queue can be filled: the largest
      whole number within the mode's two reductions of it. */
  lemma FillableWithinVisible(rules: Rules, context: Context, mode: string)
    requires mode in rules.fillModes
    requires UnitRate(rules.fillModes[mode].participationRate)
    requires UnitRate(rules.fillModes[mode].queuePenalty)
    ensures var m, v := rules.fillModes[mode], FillableVolume(rules, context, mode).value;
            var behind := context.availableVolume - context.queueAhead;
            && 0 <= v <= Max0(behind)
            && (behind <= 0 ==> v == 0)
            && (behind > 0 ==>
                  v as real <= Portion(Portion(behind as real, m.participationRate),
                                       1.0 - m.queuePenalty) < (v + 1) as real)
  {
    var m := rules.fillModes[mode];
    ShareWithin(Max0(context.availableVolume - context.queueAhead),
                m.participationRate, m.queuePenalty);
  }
}
