/** Budgets over every run of the paper broker: what an approval commits, what can be spent on it,
    and where the bound of the risk gate ends. */
module PaperBudgetRuns {
  import opened Common
  import opened Decimals
  import opened PaperModel
  import opened PaperRuns
  import opened PaperFillRuns
  import RiskEngine

  // ---- Commitments ----

  /** The order may fill, or has. */
  predicate Committed(o: OrderRow) {
    o.status in FILLABLE || o.filledQuantity > 0
  }

  /** The terms of every committed order have the property `ok`. */
  ghost predicate Vetted(s: State, ok: (int, Option<real>) -> bool) {
    forall id :: id in s.orders && Committed(s.orders[id]) ==>
      ok(s.orders[id].quantity, s.orders[id].limitPrice)
  }

  /** The call adds an approved order. */
  ghost predicate Places(s: State, step: Step) {
    step.Place? && Vacant(s, step.id, step.idempotencyKey) && step.quantity > 0
  }

  /** If the call lets an order fill, by approving or by placing it, the order's own terms have
      the property `ok`. */
  ghost predicate Vets(s: State, step: Step, ok: (int, Option<real>) -> bool) {
    && (Approving(s, step) ==> ok(s.orders[step.id].quantity, s.orders[step.id].limitPrice))
    && (Places(s, step) ==> ok(step.quantity, Some(step.limit)))
  }

  /** o' may fill only if o might, on the same terms. */
  predicate CommitsNothing(o: OrderRow, o': OrderRow) {
    Committed(o') ==>
      Committed(o) && o'.quantity == o.quantity && o'.limitPrice == o.limitPrice
  }

  lemma DeskCommits(was: OrderRow, o: OrderRow)
    requires DeskChange(was, o)
    ensures CommitsNothing(was, o)
         || (o == was.(status := Approved) && was.status == AwaitingApproval)
  {
  }

  lemma SubmitCommitsNothing(s: State, step: Step, id: OrderId)
    requires Sane(s) && Usable(step) && step.Submit? && id in Call(s, step).0.orders
    ensures id in s.orders && CommitsNothing(s.orders[id], Call(s, step).0.orders[id])
  {
    hide SubmitOrder;
    if step.id in s.orders {
      var booked, available :=
        SubmitRecords(step.config, s, s.orders[step.id], step.market, step.volume, step.context);
      UncommittedSubmit(s, step);
    }
  }

  lemma UncommittedSubmit(s: State, step: Step)
    requires Sane(s) && Usable(step) && step.Submit? && step.id in s.orders
    ensures Committed(s.orders[step.id]) || Call(s, step).0 == s
  {
  }

  /** Only an approving review or a placement lets an order fill, on the order's own terms, and
      these do not change afterwards. */
  lemma WhatCommits(s: State, step: Step, id: OrderId)
    requires Sane(s) && Usable(step)
    requires id in Next(s, step).orders && Committed(Next(s, step).orders[id])
    ensures var o' := Next(s, step).orders[id];
            || (&& id in s.orders && (Committed(s.orders[id]) || (Approving(s, step) && step.id == id))
                && o'.quantity == s.orders[id].quantity
                && o'.limitPrice == s.orders[id].limitPrice)
            || (&& Places(s, step) && step.id == id
                && o'.quantity == step.quantity && o'.limitPrice == Some(step.limit))
  {
    if step.Submit? {
      SubmitCommitsNothing(s, step, id);
    } else if AtDesk(step) {
      DeskShape(s, step);
      if Next(s, step) != s {
        DeskCommits(s.orders[step.id], Next(s, step).orders[step.id]);
      }
    }
  }

  lemma ApprovalCommits(s: State, step: Step)
    requires Sane(s) && Usable(step) && (Approving(s, step) || Places(s, step))
    ensures step.id in Next(s, step).orders && Committed(Next(s, step).orders[step.id])
    ensures var o' := Next(s, step).orders[step.id];
            if Places(s, step) then o'.quantity == step.quantity && o'.limitPrice == Some(step.limit)
            else && o'.quantity == s.orders[step.id].quantity
                 && o'.limitPrice == s.orders[step.id].limitPrice
  {
  }

  /** One call keeps the property of all orders that may fill if and only if it vets the order it
      approves or places: what the reviewer looked at does not matter. */
  lemma NextVettedExactly(s: State, step: Step, ok: (int, Option<real>) -> bool)
    requires Sane(s) && Usable(step) && Vetted(s, ok)
    ensures Vetted(Next(s, step), ok) <==> Vets(s, step, ok)
  {
    var s' := Next(s, step);
    if Approving(s, step) || Places(s, step) {
      ApprovalCommits(s, step);
    }
    if Vets(s, step, ok) {
      forall id | id in s'.orders && Committed(s'.orders[id])
        ensures ok(s'.orders[id].quantity, s'.orders[id].limitPrice)
      {
        WhatCommits(s, step, id);
      }
    }
  }

  ghost predicate AlwaysVetted(s: State, steps: seq<Step>, ok: (int, Option<real>) -> bool)
    requires Sane(s) && AllUsable(steps)
  {
    Vetted(Run(s, steps), ok) && (steps != [] ==> AlwaysVetted(s, steps[..|steps| - 1], ok))
  }

  ghost predicate AllVet(s: State, steps: seq<Step>, ok: (int, Option<real>) -> bool)
    requires Sane(s) && AllUsable(steps)
  {
    steps != [] ==>
      var n := |steps| - 1;
      AllVet(s, steps[..n], ok) && Vets(Run(s, steps[..n]), steps[n], ok)
  }

  /** Over every run the property holds of all orders that may fill or have filled, at all times,
      if and only if every approval and placement checks it on the order's own terms. */
  lemma {:induction false} RunVettedExactly(s: State, steps: seq<Step>,
                                            ok: (int, Option<real>) -> bool)
    requires Sane(s) && AllUsable(steps) && Vetted(s, ok)
    ensures AlwaysVetted(s, steps, ok) <==> AllVet(s, steps, ok)
  {
    if steps != [] {
      var n := |steps| - 1;
      RunVettedExactly(s, steps[..n], ok);
      if AlwaysVetted(s, steps[..n], ok) {
        assert Vetted(Run(s, steps[..n]), ok);
        NextVettedExactly(Run(s, steps[..n]), steps[n], ok);
      }
    }
  }

  lemma ValueBounded(fills: seq<Transaction>, ceiling: real)
    requires forall i :: 0 <= i < |fills| ==> fills[i].quantity >= 1.0 && fills[i].price <= ceiling
    ensures Value(fills) <= ceiling * Total(fills)
  {
    if fills != [] {
      var last := fills[|fills| - 1];
      ValueBounded(fills[..|fills| - 1], ceiling);
      MulMonotone(last.price, ceiling, last.quantity);
    }
  }

  /** Spending at most `ceiling` a share on `filled` shares is within `quantity` at `limit`. */
  lemma SpendingArithmetic(spent: real, ceiling: real, filled: int, quantity: int, limit: real)
    requires 0 <= filled <= quantity && spent <= ceiling * filled as real
    requires 0.0 <= ceiling <= limit
    ensures spent <= quantity as real * limit
  {
    MulMonotone(filled as real, quantity as real, ceiling);
    MulMonotone(ceiling, limit, quantity as real);
  }

  lemma LedgerFacts(s: State, id: OrderId)
    requires Inv(s) && id in s.orders
    ensures var o, fills := s.orders[id], FillsOf(s.ledger, id);
            && o.Consistent() && Total(fills) == o.filledQuantity as real
            && (o.filledQuantity > 0 && o.limitPrice.Some? ==> o.limitPrice.value >= 0.0)
            && (o.status == Filled <==> 0 < o.filledQuantity == o.quantity)
            && (forall i :: 0 <= i < |fills| ==> FillFits(o, fills[i]))
  {
    assert OrderInv(s, id);
  }

  lemma SpendingBounded(s: State, id: OrderId)
    requires Inv(s) && id in s.orders && s.orders[id].side == Buy
    requires s.orders[id].filledQuantity > 0
    ensures s.orders[id].limitPrice.Some?
    ensures Value(FillsOf(s.ledger, id))
         <= ToCents(s.orders[id].limitPrice.value) * s.orders[id].filledQuantity as real
  {
    LedgerFacts(s, id);
    var o, fills := s.orders[id], FillsOf(s.ledger, id);
    assert fills != [] && FillFits(o, fills[0]);
    ValueBounded(fills, ToCents(o.limitPrice.value));
  }

  lemma GridSpendingBounded(s: State, id: OrderId, limit: real)
    requires Inv(s) && id in s.orders && s.orders[id].side == Buy
    requires s.orders[id].filledQuantity > 0 && s.orders[id].limitPrice == Some(limit)
    requires ToCents(limit) <= limit
    ensures Value(FillsOf(s.ledger, id)) <= s.orders[id].quantity as real * limit
  {
    SpendingBounded(s, id);
    assert s.orders[id].Consistent() && limit >= 0.0 by { LedgerFacts(s, id); }
    assert ToCents(limit) >= 0.0 by { ToCentsProperties(limit); }
    SpendingArithmetic(Value(FillsOf(s.ledger, id)), ToCents(limit), s.orders[id].filledQuantity,
                       s.orders[id].quantity, limit);
  }

  /** Terms worth no more than `budget`. */
  function Affordable(budget: real): (int, Option<real>) -> bool {
    (quantity: int, limit: Option<real>) =>
      limit.Some? ==> quantity as real * limit.value <= budget
  }

  /** A review that looks at the order's own terms checks them against its trade-value limit. */
  lemma DescribingReviewVets(s: State, step: Step, budget: real)
    requires step.Review? && step.limits.maxTradeValue <= budget
    requires Waiting(s, step.id) ==> Describes(step.proposal, s.orders[step.id])
    ensures Vets(s, step, Affordable(budget))
  {
    if Approving(s, step) {
      assert !RiskEngine.Violated(RiskEngine.MaxTradeValue, step.limits, step.proposal,
                                  step.inputs);
    }
  }

  /** A buy on a limit that rounding does not raise has spent, gross, at most quantity times limit,
      and that is within the budget. */
  ghost predicate SpentWithin(s: State, id: OrderId, budget: real)
    requires id in s.orders
  {
    var o := s.orders[id];
    o.side == Buy && o.filledQuantity > 0 ==>
      && o.limitPrice.Some?
      && (ToCents(o.limitPrice.value) <= o.limitPrice.value ==>
            Value(FillsOf(s.ledger, id)) <= o.quantity as real * o.limitPrice.value <= budget)
  }

  lemma VettedSpending(s: State, id: OrderId, budget: real)
    requires Inv(s) && Vetted(s, Affordable(budget)) && id in s.orders
    ensures SpentWithin(s, id, budget)
  {
    var o := s.orders[id];
    if o.side == Buy && o.filledQuantity > 0 {
      assert o.limitPrice.Some? by { SpendingBounded(s, id); }
      if ToCents(o.limitPrice.value) <= o.limitPrice.value {
        GridSpendingBounded(s, id, o.limitPrice.value);
        assert Affordable(budget)(o.quantity, o.limitPrice);
      }
    }
  }

  /** The budget survives every fill sequence: if every approval and placement of a run is within
      it, on the order's own terms, no order is ever filled beyond it. */
  lemma BudgetSurvives(s: State, steps: seq<Step>, budget: real, id: OrderId)
    requires Inv(s) && SoundRun(s, steps) && Vetted(s, Affordable(budget))
    requires AllVet(s, steps, Affordable(budget))
    requires id in Run(s, steps).orders
    ensures SpentWithin(Run(s, steps), id, budget)
  {
    RunVettedExactly(s, steps, Affordable(budget));
    VettedSpending(Run(s, steps), id, budget);
  }

  // ---- Where the budget ends ----

  /** A limit buy that is unfilled and covered by account `a`. */
  ghost predicate Covered(s: State, id: OrderId, a: int) {
    && id in s.orders && a in s.accounts
    && var o := s.orders[id];
       && o.side == Buy && o.orderType != Market && o.filledQuantity == 0 && o.limitPrice.Some?
       && s.accounts[a].cash >= Cost(ToCents(o.limitPrice.value), o.quantity)
  }

  function FullBroker(a: int): Config {
    Config(1.0, 0.0, "pessimistic", None, a, "paper")
  }

  lemma FullFill(a: int, o: OrderRow, limit: real)
    requires o.filledQuantity == 0 && o.quantity > 0 && o.limitPrice == Some(limit)
    ensures FillQuantity(FullBroker(a), o, o.quantity) == o.quantity
    ensures FillPrice(FullBroker(a), Buy, limit, limit) == ToCents(limit)
  {
    RoundFixesIntegers(o.quantity);
  }

  lemma FullSubmit(s: State, id: OrderId, a: int, limit: real)
    requires Inv(s) && Covered(s, id, a) && s.orders[id].status in FILLABLE
    requires s.orders[id].limitPrice == Some(limit)
    ensures var o := s.orders[id];
            && o.Consistent() && o.quantity > 0
            && SubmitOrder(FullBroker(a), s, o, limit, o.quantity, None)
            == (RecordFill(FullBroker(a), Mark(s, o), o.(status := Submitted), ToCents(limit),
                           o.quantity), Done)
  {
    assert OrderInv(s, id);
    FullFill(a, s.orders[id], limit);
  }

  lemma FirstFillValue(ledger: seq<Transaction>, row: Transaction, id: OrderId)
    requires FillsOf(ledger, id) == [] && row.orderId == Some(id)
    ensures Value(FillsOf(ledger + [row], id)) == row.Value()
  {
    AppendFill(ledger, row, id);
    assert [] + [row] == [row] && [row][..0] == [];
  }

  /** Nothing but the terms stands in the way: whoever approved it, such an order can be filled
      whole at its limit, rounded to the cent. */
  lemma CommittedTermsCanBeSpent(s: State, id: OrderId, a: int) returns (submit: Step)
    requires Inv(s) && Covered(s, id, a) && s.orders[id].status in FILLABLE
    ensures Sound(s, submit)
    ensures Value(FillsOf(Next(s, submit).ledger, id))
         == Gross(ToCents(s.orders[id].limitPrice.value), s.orders[id].quantity)
  {
    hide SubmitOrder, RecordFill, Mark, Amount;
    var c, o := FullBroker(a), s.orders[id];
    var limit := o.limitPrice.value;
    submit := Submit(c, id, limit, o.quantity, None);
    assert o.id == id by { assert OrderInv(s, id); }
    FullSubmit(s, id, a, limit);
    RecordedLedger(c, s, o, ToCents(limit), o.quantity);
    NoFillsYet(s, id);
    FirstFillValue(s.ledger, FillRow(c, o, ToCents(limit), o.quantity), id);
  }

  lemma RecordedLedger(c: Config, s: State, o: OrderRow, price: real, quantity: int)
    requires c.accountId in s.accounts && o.filledQuantity + quantity != 0
    ensures RecordFill(c, Mark(s, o), o.(status := Submitted), price, quantity).ledger
         == s.ledger + [FillRow(c, o, price, quantity)]
  {
    hide FilledOrder, CashDelta, FeeOf;
  }

  lemma NoFillsYet(s: State, id: OrderId)
    requires Inv(s) && id in s.orders && s.orders[id].filledQuantity == 0
    ensures FillsOf(s.ledger, id) == []
  {
    LedgerFacts(s, id);
    TotalPositive(FillsOf(s.ledger, id));
  }

  lemma ApprovalStaysCovered(s: State, review: Step, a: int)
    requires Inv(s) && Sound(s, review) && Approving(s, review) && Covered(s, review.id, a)
    ensures var s' := Next(s, review);
            && Covered(s', review.id, a)
            && s'.orders[review.id] == s.orders[review.id].(status := Approved)
  {
    assert OrderInv(s, review.id);
  }

  /** A review may approve, within its own limits, an order that is worth more: the order can then
      be filled beyond the limit under which it was approved. */
  lemma MismatchedReviewOverspends(s: State, review: Step, a: int) returns (submit: Step)
    requires Inv(s) && Sound(s, review) && Approving(s, review) && Covered(s, review.id, a)
    requires Gross(ToCents(s.orders[review.id].limitPrice.value), s.orders[review.id].quantity)
           > review.limits.maxTradeValue
    ensures Sound(Next(s, review), submit)
    ensures Value(FillsOf(Next(Next(s, review), submit).ledger, review.id))
         == Gross(ToCents(s.orders[review.id].limitPrice.value), s.orders[review.id].quantity)
          > review.limits.maxTradeValue
  {
    ApprovalStaysCovered(s, review, a);
    submit := CommittedTermsCanBeSpent(Next(s, review), review.id, a);
  }

  const DEFAULT_LIMITS := RiskEngine.Limits(250000.0, 100000, 20.0, 20, 10, 10000, 1.0, 2.0, 1.5,
                                            3.0, 10.0, 3, [], [])

  /** 100000 shares at 10.00 wait for a review, which looks at one share: it approves, and the
      order is filled for 1000000.00 under a trade-value limit of 250000.00. */
  lemma OneShareReviewApprovesAMillion()
    ensures var o := OrderRow("o", "k", "GP", Buy, Limit, 100000, Some(10.0), AwaitingApproval, 0,
                              None);
            var s := State(map["o" := o], map[1 := AccountRow(2000000.0, 2000000.0)], [], []);
            var p := RiskEngine.Proposal("GP", 1, Some(10.0), 10.0, false, None, None, None, None);
            var i := RiskEngine.Inputs(true, 2000000.0, 0.0, 0, 0, 0.0, 30, 0.0, 0.0, 0, false,
                                       true, true);
            var review := Review("o", true, DEFAULT_LIMITS, p, i);
            && Inv(s) && Sound(s, review) && Approving(s, review)
            && exists submit :: && Sound(Next(s, review), submit)
                                && Value(FillsOf(Next(Next(s, review), submit).ledger, "o"))
                                   == 1000000.0
  {
    var o := OrderRow("o", "k", "GP", Buy, Limit, 100000, Some(10.0), AwaitingApproval, 0, None);
    var s := State(map["o" := o], map[1 := AccountRow(2000000.0, 2000000.0)], [], []);
    var p := RiskEngine.Proposal("GP", 1, Some(10.0), 10.0, false, None, None, None, None);
    var i := RiskEngine.Inputs(true, 2000000.0, 0.0, 0, 0, 0.0, 30, 0.0, 0.0, 0, false, true, true);
    var review := Review("o", true, DEFAULT_LIMITS, p, i);
    assert OrderOk(o, [], []);
    forall c ensures !RiskEngine.Violated(c, DEFAULT_LIMITS, p, i) {}
    assert ToCents(10.0) == 10.0 by { RoundFixesIntegers(1000); }
    assert Gross(10.0, 100000) == 1000000.0;
    assert FeeOf(1000000.0) == 4000.0 by { RoundFixesIntegers(400000); }
    var submit := MismatchedReviewOverspends(s, review, 1);
  }

  /** An unsound approval is worse: a purchase of -5 shares, replaced so and approved on another
      proposal, credits the account and leaves it short. */
  lemma ApprovedNegativeOrderMintsCash()
    ensures var o := OrderRow("o", "k", "GP", Buy, Limit, -5, Some(10.0), Approved, 0, None);
            var s := State(map["o" := o], map[1 := AccountRow(1000.0, 1000.0)], [], []);
            var s' := SubmitOrder(FullBroker(1), s, o, 10.0, 1000, None).0;
            && s'.accounts[1].cash == 1050.2
            && HeldQuantity(s'.ledger, "paper", "GP") == -5
            && s'.orders["o"].status == Filled
  {
    var o := OrderRow("o", "k", "GP", Buy, Limit, -5, Some(10.0), Approved, 0, None);
    var s := State(map["o" := o], map[1 := AccountRow(1000.0, 1000.0)], [], []);
    var c := FullBroker(1);
    hide Execute;
    assert FillQuantity(c, o, 1000) == -5 by { RoundFixesIntegers(1000); }
    assert FillPrice(c, Buy, 10.0, 10.0) == 10.0 by { ToCentsProperties(10.0); }
    NegativeFill(s, o);
  }

  lemma NegativeFill(s: State, o: OrderRow)
    requires o == OrderRow("o", "k", "GP", Buy, Limit, -5, Some(10.0), Approved, 0, None)
    requires s == State(map["o" := o], map[1 := AccountRow(1000.0, 1000.0)], [], [])
    ensures var (s', outcome) :=
              Execute(FullBroker(1), Mark(s, o), o.(status := Submitted), 10.0, -5);
            && s'.accounts[1].cash == 1050.2
            && HeldQuantity(s'.ledger, "paper", "GP") == -5
            && s'.orders["o"].status == Filled
  {
    assert Gross(10.0, -5) == -50.0;
    assert FeeOf(-50.0) == -0.2 by { RoundFixesIntegers(-20); }
    var row := FillRow(FullBroker(1), o, 10.0, -5);
    assert [] + [row] == [row] && [row][..0] == [];
    assert Holding([row], "paper", "GP") == -5.0;
    assert Trunc(-5.0) == -5 by { RoundFixesIntegers(-5); }
  }
}
