/** Which tick tables of backend/app/brokers/dse_execution.py round well: the exact conditions,
    on the table alone, for normalisation to be idempotent and to be monotone. */
module DseTables {
  import opened Decimals
  import opened DseExecution

  // ---- Tiers ----

  /** The highest bound of the rows before row i: prices of row i lie above it. */
  function Below(rows: seq<TickRow>, i: nat): (bound: real)
    requires 0 < i <= |rows|
    ensures forall j :: 0 <= j < i ==> rows[j].upTo <= bound
    ensures exists j :: 0 <= j < i && rows[j].upTo == bound
  {
    if i == 1 then rows[0].upTo
    else
      var earlier, last := Below(rows, i - 1), rows[i - 1].upTo;
      if last > earlier then last else earlier
  }

  /** Some price is quoted by row i. */
  predicate Used(rows: seq<TickRow>, i: nat)
    requires i < |rows|
  {
    i == 0 || i == |rows| - 1 || Below(rows, i) < rows[i].upTo
  }

  predicate Quotes(rows: seq<TickRow>, i: nat, price: real)
    requires i < |rows|
  {
    (i > 0 ==> Below(rows, i) < price) && (i < |rows| - 1 ==> price <= rows[i].upTo)
  }

  /** Exactly one row quotes a price, and it sets the tick. */
  lemma QuotedByTier(rows: seq<TickRow>, i: nat, price: real)
    requires i < |rows|
    ensures Quotes(rows, i, price) <==> i == Tier(rows, price)
  {
    var k := Tier(rows, price);
    if i > 0 && i == k {
      var j :| 0 <= j < i && rows[j].upTo == Below(rows, i);
    }
  }

  // ---- Edges ----

  /** What the upper boundary of row i is normalised to. */
  function Exit(rows: seq<TickRow>, i: nat): real
    requires TicksPositive(rows) && i < |rows|
  {
    RoundToTick(rows[i].upTo, rows[i].tick)
  }

  /** The nearest integer to a number just above q. */
  function JustAbove(q: real): int {
    if q - q.Floor as real < 0.5 then q.Floor else q.Floor + 1
  }

  /** What prices just above the lower boundary of row i are normalised to. */
  function Entry(rows: seq<TickRow>, i: nat): real
    requires TicksPositive(rows) && 0 < i < |rows|
  {
    Ticks(JustAbove(Below(rows, i) / rows[i].tick), rows[i].tick)
  }

  /** The price is a multiple of its own tick. */
  ghost predicate OnTick(rows: seq<TickRow>, price: real)
    requires rows != []
  {
    MultipleOf(price, TickSize(rows, price))
  }

  lemma OnTickExactly(rows: seq<TickRow>, price: real)
    requires TicksPositive(rows)
    ensures OnTick(rows, price) <==> NormalizePrice(rows, price) == price
  {
    TickSizeInTable(rows, price);
    if OnTick(rows, price) {
      RoundToTickFixes(price, TickSize(rows, price));
    }
  }

  lemma JustAboveIsLeast(q: real, x: real)
    requires q < x
    ensures JustAbove(q) <= RoundHalfUp(x)
  {
  }

  /** Any number above q up to which nothing rounds differently shows what lies just above. */
  lemma JustAboveIsReached(q: real, high: real) returns (x: real)
    requires q < high
    ensures q < x <= high && RoundHalfUp(x) == JustAbove(q)
  {
    var turn := JustAbove(q) as real + 0.5;
    var middle := (q + turn) / 2.0;
    x := if middle <= high then middle else high;
    assert turn - 1.0 <= q < x < turn;
  }

  lemma QuotientStrict(x: real, y: real, t: real)
    requires x < y && t > 0.0
    ensures x / t < y / t
  {
    MultiplyQuotient(x, t);
    MultiplyQuotient(y, t);
    LessFactor(x, x / t, y / t, t);
  }

  lemma ScaleStrict(q: real, x: real, t: real)
    requires q < x && t > 0.0
    ensures q * t < x * t
  {
    MulStrict(q, x, t);
  }

  lemma EntryIsLeast(rows: seq<TickRow>, i: nat, price: real)
    requires TicksPositive(rows) && 0 < i < |rows| && Below(rows, i) < price
    ensures Entry(rows, i) <= RoundToTick(price, rows[i].tick)
  {
    var t := rows[i].tick;
    QuotientStrict(Below(rows, i), price, t);
    JustAboveIsLeast(Below(rows, i) / t, price / t);
    TicksMonotone(JustAbove(Below(rows, i) / t), RoundHalfUp(price / t), t);
  }

  lemma RoundedMultiple(x: real, t: real)
    requires t > 0.0
    ensures RoundToTick(x * t, t) == Ticks(RoundHalfUp(x), t)
  {
    DivideMultiple(x, t);
  }

  lemma ScaledWithin(q: real, x: real, t: real, low: real, high: real)
    requires t > 0.0 && low == q * t && q < x <= high / t
    ensures low < x * t <= high
  {
    ScaleStrict(q, x, t);
    MultiplyQuotient(high, t);
    MulMonotone(x, high / t, t);
  }

  /** A price just above the lower boundary of a used row, quoted by it. */
  lemma EntryIsReached(rows: seq<TickRow>, i: nat) returns (price: real)
    requires TicksPositive(rows) && 0 < i < |rows| && Used(rows, i)
    ensures Tier(rows, price) == i && NormalizePrice(rows, price) == Entry(rows, i)
  {
    var t, low := rows[i].tick, Below(rows, i);
    var high := if i < |rows| - 1 then rows[i].upTo else low + t;
    QuotientStrict(low, high, t);
    var x := JustAboveIsReached(low / t, high / t);
    MultiplyQuotient(low, t);
    ScaledWithin(low / t, x, t, low, high);
    price := x * t;
    QuotedByTier(rows, i, price);
    RoundedMultiple(x, t);
  }

  lemma ExitIsReached(rows: seq<TickRow>, i: nat)
    requires TicksPositive(rows) && i < |rows| - 1 && Used(rows, i)
    ensures Tier(rows, rows[i].upTo) == i && NormalizePrice(rows, rows[i].upTo) == Exit(rows, i)
  {
    QuotedByTier(rows, i, rows[i].upTo);
  }

  // ---- Leaving a tier ----

  lemma SameMultiple(q: real, n: int)
    requires n <= RoundHalfUp(q) && q < n as real
    ensures n == RoundHalfUp(q)
  {
  }

  lemma RoundsPast(x: real, u: real, t: real)
    requires t > 0.0 && x <= u < RoundToTick(x, t)
    ensures RoundToTick(x, t) == RoundToTick(u, t)
  {
    var n := RoundHalfUp(x / t);
    QuotientMonotone(x, u, t);
    MultiplyQuotient(u, t);
    LessFactor(u, u / t, n as real, t);
    RoundHalfUpMonotone(x / t, u / t);
    hide RoundHalfUp;
    SameMultiple(u / t, n);
  }

  lemma RoundsBack(x: real, low: real, t: real)
    requires t > 0.0 && RoundToTick(x, t) <= low < x
    ensures RoundToTick(x, t) == Ticks(JustAbove(low / t), t)
  {
    var n, q := RoundHalfUp(x / t), low / t;
    assert n as real * t == RoundToTick(x, t);
    QuotientStrict(low, x, t);
    MultiplyQuotient(low, t);
    AtMostFactor(low, q, n as real, t);
    JustAboveIsLeast(q, x / t);
    hide RoundHalfUp, JustAbove, Ticks;
  }

  /** Rounding stays in the tier, or ends on its exit or its entry. */
  lemma WhereRoundingEnds(rows: seq<TickRow>, price: real)
    requires TicksPositive(rows)
    ensures var i, r := Tier(rows, price), NormalizePrice(rows, price);
            && Used(rows, i)
            && (|| Tier(rows, r) == i
                || (i < |rows| - 1 && r == Exit(rows, i))
                || (i > 0 && r == Entry(rows, i)))
  {
    var i, r := Tier(rows, price), NormalizePrice(rows, price);
    QuotedByTier(rows, i, price);
    QuotedByTier(rows, i, r);
    if i < |rows| - 1 && r > rows[i].upTo {
      RoundsPast(price, rows[i].upTo, rows[i].tick);
    } else if i > 0 && r <= Below(rows, i) {
      RoundsBack(price, Below(rows, i), rows[i].tick);
    }
  }

  // ---- Main results ----

  ghost predicate Idempotent(rows: seq<TickRow>)
    requires TicksPositive(rows)
  {
    forall price ::
      NormalizePrice(rows, NormalizePrice(rows, price)) == NormalizePrice(rows, price)
  }

  /** The edges of every used row are multiples of the tick at which they are quoted. */
  ghost predicate EdgesOnTick(rows: seq<TickRow>)
    requires TicksPositive(rows)
  {
    && (forall i :: 0 <= i < |rows| - 1 && Used(rows, i) ==> OnTick(rows, Exit(rows, i)))
    && (forall i :: 0 < i < |rows| && Used(rows, i) ==> OnTick(rows, Entry(rows, i)))
  }

  /** Normalising is idempotent at every price if and only if the table's edges are on tick. */
  lemma IdempotentExactly(rows: seq<TickRow>)
    requires TicksPositive(rows)
    ensures Idempotent(rows) <==> EdgesOnTick(rows)
  {
    if Idempotent(rows) {
      forall i | 0 <= i < |rows| - 1 && Used(rows, i)
        ensures OnTick(rows, Exit(rows, i))
      {
        ExitIsReached(rows, i);
        OnTickExactly(rows, Exit(rows, i));
      }
      forall i | 0 < i < |rows| && Used(rows, i)
        ensures OnTick(rows, Entry(rows, i))
      {
        var price := EntryIsReached(rows, i);
        OnTickExactly(rows, Entry(rows, i));
      }
    }
    if EdgesOnTick(rows) {
      forall price
        ensures NormalizePrice(rows, NormalizePrice(rows, price)) == NormalizePrice(rows, price)
      {
        WhereRoundingEnds(rows, price);
        NormalizeWithinHalfTick(rows, price);
        OnTickExactly(rows, NormalizePrice(rows, price));
      }
    }
  }

  ghost predicate Monotone(rows: seq<TickRow>)
    requires TicksPositive(rows)
  {
    forall x, y :: x <= y ==> NormalizePrice(rows, x) <= NormalizePrice(rows, y)
  }

  /** No used row ends above where a later one begins. */
  ghost predicate EdgesInOrder(rows: seq<TickRow>)
    requires TicksPositive(rows)
  {
    forall i, j :: 0 <= i < j < |rows| && Used(rows, i) && Used(rows, j) ==>
      Exit(rows, i) <= Entry(rows, j)
  }

  lemma TierMonotone(rows: seq<TickRow>, x: real, y: real)
    requires rows != [] && x <= y
    ensures Tier(rows, x) <= Tier(rows, y)
  {
  }

  lemma OrderedAcross(rows: seq<TickRow>, x: real, y: real)
    requires TicksPositive(rows) && EdgesInOrder(rows) && x <= y
    ensures NormalizePrice(rows, x) <= NormalizePrice(rows, y)
  {
    var i, j := Tier(rows, x), Tier(rows, y);
    TierMonotone(rows, x, y);
    WhereRoundingEnds(rows, x);
    WhereRoundingEnds(rows, y);
    if i == j {
      RoundToTickMonotone(x, y, rows[i].tick);
    } else {
      assert Exit(rows, i) <= Entry(rows, j);
      RoundToTickMonotone(x, rows[i].upTo, rows[i].tick);
      assert Below(rows, j) < y by { QuotedByTier(rows, j, y); }
      EntryIsLeast(rows, j, y);
    }
  }

  /** Normalising keeps the order of prices if and only if the table's edges are in order. */
  lemma MonotoneExactly(rows: seq<TickRow>)
    requires TicksPositive(rows)
    ensures Monotone(rows) <==> EdgesInOrder(rows)
  {
    if Monotone(rows) {
      forall i, j | 0 <= i < j < |rows| && Used(rows, i) && Used(rows, j)
        ensures Exit(rows, i) <= Entry(rows, j)
      {
        ExitIsReached(rows, i);
        var price := EntryIsReached(rows, j);
        QuotedByTier(rows, j, price);
        assert rows[i].upTo <= price;
      }
    }
    if EdgesInOrder(rows) {
      forall x, y | x <= y
        ensures NormalizePrice(rows, x) <= NormalizePrice(rows, y)
      {
        OrderedAcross(rows, x, y);
      }
    }
  }

  /** Aligned tables meet both conditions. */
  lemma AlignedTables(rows: seq<TickRow>)
    requires Aligned(rows)
    ensures EdgesOnTick(rows) && EdgesInOrder(rows)
  {
    forall price
      ensures NormalizePrice(rows, NormalizePrice(rows, price)) == NormalizePrice(rows, price)
    {
      NormalizeIdempotent(rows, price);
    }
    forall x, y | x <= y
      ensures NormalizePrice(rows, x) <= NormalizePrice(rows, y)
    {
      NormalizeMonotone(rows, x, y);
    }
    IdempotentExactly(rows);
    MonotoneExactly(rows);
  }

  /** The daily band brackets the normalised previous close. */
  lemma BandBracketsPreviousClose(rules: Rules, previousClose: real)
    requires TicksPositive(rules.tickSizes) && EdgesInOrder(rules.tickSizes)
    requires rules.priceLimitPercent >= 0.0 && previousClose >= 0.0
    ensures var (lower, upper) := Band(rules, previousClose);
            lower <= NormalizePrice(rules.tickSizes, previousClose) <= upper
  {
    var rows, percent := rules.tickSizes, rules.priceLimitPercent / 100.0;
    Widen(previousClose, percent);
    OrderedAcross(rows, Shifted(previousClose, -percent), previousClose);
    OrderedAcross(rows, previousClose, Shifted(previousClose, percent));
  }

  lemma Widen(x: real, percent: real)
    requires 0.0 <= x && 0.0 <= percent
    ensures Shifted(x, -percent) <= x <= Shifted(x, percent)
  {
    MulNonNegative(x, percent);
  }

  /** Alignment is more than idempotence needs: this boundary is no multiple of the tick below. */
  lemma UnalignedMayBeIdempotent()
    ensures var rows := [TickRow(1.0, 0.6), TickRow(10.0, 0.4)];
            TicksPositive(rows) && !MultipleOf(1.0, 0.6) && Idempotent(rows)
  {
    var rows := [TickRow(1.0, 0.6), TickRow(10.0, 0.4)];
    forall n
      ensures Ticks(n, 0.6) != 1.0
    {
      assert n <= 1 || n >= 2;
    }
    assert rows[1..] == [TickRow(10.0, 0.4)];
    assert 1.6 < 1.0 / 0.6 < 1.7 && RoundHalfUp(1.0 / 0.6) == 2;
    assert Exit(rows, 0) == 1.2;
    assert 1.0 / 0.4 == 2.5 && JustAbove(2.5) == 3;
    assert Entry(rows, 1) == 1.2;
    assert TickSize(rows, 1.2) == 0.4 && 1.2 == Ticks(3, 0.4);
    IdempotentExactly(rows);
  }
}
