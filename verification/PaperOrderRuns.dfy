/** The order state machine over every run of the paper broker. */
module PaperOrderRuns {
  import opened Common
  import opened PaperModel
  import opened PaperRuns

  /** How one order may change: its identity never, its terms only before its first fill, its
      filled quantity only upwards, and nothing at all once it is closed. */
  ghost predicate Evolves(o: OrderRow, o': OrderRow) {
    && o' == o.(quantity := o'.quantity, limitPrice := o'.limitPrice, status := o'.status,
                filledQuantity := o'.filledQuantity, averageFillPrice := o'.averageFillPrice)
    && o.filledQuantity <= o'.filledQuantity
    && (o.filledQuantity > 0 ==> o'.quantity == o.quantity && o'.limitPrice == o.limitPrice)
    && (o.status in CLOSED ==> o' == o)
  }

  ghost predicate StoreEvolves(s: State, s': State) {
    && s.ledger <= s'.ledger
    && (forall id :: id in s.orders ==> id in s'.orders && Evolves(s.orders[id], s'.orders[id]))
  }

  lemma RewriteEvolves(s: State, s': State, o: OrderRow)
    requires o.id in s.orders && Evolves(s.orders[o.id], o)
    requires s'.orders == s.orders[o.id := o] && s.ledger <= s'.ledger
    ensures StoreEvolves(s, s')
  {
  }

  lemma BookedEvolves(c: Config, s: State, o: OrderRow, s': State, price: real, quantity: int)
    requires o.id in s.orders && s.orders[o.id] == o && Booked(c, s, o, s', price, quantity)
    ensures StoreEvolves(s, s')
  {
    var filled := FilledOrder(o.(status := Submitted), price, quantity);
    assert s'.orders == s.orders[o.id := filled];
    RewriteEvolves(s, s', filled);
  }

  lemma SubmitEvolves(s: State, step: Step)
    requires Inv(s) && Usable(step) && step.Submit? && step.id in s.orders
    ensures StoreEvolves(s, Call(s, step).0)
  {
    var o, s' := s.orders[step.id], Call(s, step).0;
    assert OrderInv(s, step.id);
    if o.status in FILLABLE {
      var booked, available :=
        SubmitShape(step.config, s, o, step.market, step.volume, step.context);
      if booked {
        var (price, quantity) := Plan(step.config, o, step.market, available);
        BookedEvolves(step.config, s, o, s', price, quantity);
      } else {
        RewriteEvolves(s, s', o.(status := s'.orders[o.id].status));
      }
    }
  }

  lemma DeskEvolves(s: State, step: Step)
    requires Inv(s) && Usable(step) && AtDesk(step)
    ensures StoreEvolves(s, Call(s, step).0)
  {
    hide Call;
    var s' := Call(s, step).0;
    DeskShape(s, step);
    if s' != s {
      assert OrderInv(s, step.id);
      RewriteEvolves(s, s', s'.orders[step.id]);
    }
  }

  lemma NextEvolves(s: State, step: Step)
    requires Inv(s) && Sound(s, step)
    ensures StoreEvolves(s, Next(s, step))
  {
    if step.Submit? && step.id in s.orders {
      SubmitEvolves(s, step);
    } else if AtDesk(step) {
      DeskEvolves(s, step);
    }
  }

  /** Over every run, orders only evolve and the ledger only grows. */
  lemma {:induction false} RunEvolves(s: State, steps: seq<Step>)
    requires Inv(s) && SoundRun(s, steps)
    ensures StoreEvolves(s, Run(s, steps))
  {
    if steps != [] {
      var earlier := steps[..|steps| - 1];
      RunEvolves(s, earlier);
      NextEvolves(Run(s, earlier), steps[|steps| - 1]);
    }
  }

  lemma FillsOnlyGrow(ledger: seq<Transaction>, ledger': seq<Transaction>, id: OrderId)
    requires ledger <= ledger'
    ensures FillsOf(ledger, id) <= FillsOf(ledger', id)
  {
    if ledger' != ledger {
      var n := |ledger'| - 1;
      FillsOnlyGrow(ledger, ledger'[..n], id);
    } else {
      assert ledger' == ledger;
    }
  }

  lemma {:induction false} TotalGrows(fills: seq<Transaction>, fills': seq<Transaction>)
    requires fills <= fills'
    requires forall i :: 0 <= i < |fills'| ==> fills'[i].quantity >= 1.0
    ensures Total(fills) + (|fills'| - |fills|) as real <= Total(fills')
  {
    if |fills| < |fills'| {
      TotalGrows(fills, fills'[..|fills'| - 1]);
    } else {
      assert fills == fills';
    }
  }

  /** A filled, cancelled, expired or rejected order is frozen: no later run changes it or
      books another fill of it. */
  lemma ClosedOrdersFrozen(s: State, steps: seq<Step>, id: OrderId)
    requires Inv(s) && SoundRun(s, steps)
    requires id in s.orders && s.orders[id].status in CLOSED
    ensures var s' := Run(s, steps);
            && id in s'.orders && s'.orders[id] == s.orders[id]
            && FillsOf(s'.ledger, id) == FillsOf(s.ledger, id)
  {
    RunEvolves(s, steps);
    var s' := Run(s, steps);
    assert OrderInv(s, id) && OrderInv(s', id);
    var fills, fills' := FillsOf(s.ledger, id), FillsOf(s'.ledger, id);
    FillsOnlyGrow(s.ledger, s'.ledger, id);
    assert forall i :: 0 <= i < |fills'| ==> FillFits(s'.orders[id], fills'[i]);
    TotalGrows(fills, fills');
  }

  /** In every reachable store an order's filled quantity is the sum of its ledger fills, an order
      with fills is within its quantity, and `filled` means exactly that it has reached it. */
  lemma FilledExactly(s: State, steps: seq<Step>, id: OrderId)
    requires Inv(s) && SoundRun(s, steps)
    requires id in Run(s, steps).orders
    ensures var s' := Run(s, steps);
            var o := s'.orders[id];
            && o.filledQuantity as real == Total(FillsOf(s'.ledger, id))
            && 0 <= o.filledQuantity
            && (o.filledQuantity > 0 ==> o.filledQuantity <= o.quantity)
            && (o.status == Filled <==> 0 < o.filledQuantity == o.quantity)
            && (o.status in FILLABLE ==> o.filledQuantity < o.quantity)
  {
    assert OrderInv(Run(s, steps), id);
  }

  // ---- Quantities ----

  ghost predicate WithinQuantity(s: State) {
    forall id :: id in s.orders ==> s.orders[id].filledQuantity <= s.orders[id].quantity
  }

  /** One call keeps every order within its quantity, unless it is an accepted replacement with a
      negative quantity. */
  lemma NextWithinQuantity(s: State, step: Step)
    requires Inv(s) && Sound(s, step) && WithinQuantity(s)
    ensures WithinQuantity(Next(s, step)) <==> (Replaces(s, step) ==> step.quantity >= 0)
  {
    var s' := Next(s, step);
    if Replaces(s, step) {
      assert OrderInv(s, step.id);
      assert s'.orders[step.id].quantity == step.quantity;
    } else {
      NextEvolves(s, step);
      forall id | id in s'.orders
        ensures s'.orders[id].filledQuantity <= s'.orders[id].quantity
      {
        assert OrderInv(s', id) && OrderInv(s, id);
        UnreplacedTerms(s, step, id);
      }
    }
  }

  lemma DeskKeepsQuantity(s: State, step: Step, id: OrderId)
    requires Sane(s) && Usable(step) && AtDesk(step) && !Replaces(s, step)
    requires id in Call(s, step).0.orders
    ensures id in s.orders && Call(s, step).0.orders[id].quantity == s.orders[id].quantity
  {
    DeskShape(s, step);
    if step.Replace? {
      assert Call(s, step).0 == s;
    }
    hide Call;
  }

  lemma UnreplacedTerms(s: State, step: Step, id: OrderId)
    requires Inv(s) && Sound(s, step) && !Replaces(s, step)
    requires id in Next(s, step).orders
    ensures if id in s.orders then Next(s, step).orders[id].quantity == s.orders[id].quantity
            else Next(s, step).orders[id].quantity > 0
  {
    hide SubmitOrder;
    if step.Submit? && step.id in s.orders {
      SubmitKeepsTerms(s, step);
    } else if AtDesk(step) {
      DeskKeepsQuantity(s, step, id);
    } else if step.Propose? {
      assert step.proposal.Valid();
    }
  }

  lemma SubmitKeepsTerms(s: State, step: Step)
    requires Inv(s) && Sound(s, step) && step.Submit? && step.id in s.orders
    ensures Next(s, step).orders.Keys == s.orders.Keys
    ensures forall id :: id in s.orders ==>
              && Next(s, step).orders[id].quantity == s.orders[id].quantity
              && Next(s, step).orders[id].limitPrice == s.orders[id].limitPrice
  {
    hide SubmitOrder;
    var o := s.orders[step.id];
    assert OrderInv(s, step.id);
    var booked, available :=
      SubmitShape(step.config, s, o, step.market, step.volume, step.context);
  }

  /** In every store of the run, all orders are within their quantity. */
  ghost predicate AlwaysWithinQuantity(s: State, steps: seq<Step>)
    requires Inv(s) && SoundRun(s, steps)
  {
    && WithinQuantity(Run(s, steps))
    && (steps != [] ==> AlwaysWithinQuantity(s, steps[..|steps| - 1]))
  }

  /** No accepted replacement of the run carries a negative quantity. */
  ghost predicate ReplacementsInRange(s: State, steps: seq<Step>)
    requires Inv(s) && SoundRun(s, steps)
  {
    steps != [] ==>
      var n := |steps| - 1;
      && ReplacementsInRange(s, steps[..n])
      && (Replaces(Run(s, steps[..n]), steps[n]) ==> steps[n].quantity >= 0)
  }

  /** Over every run, orders are always within their quantity if and only if no accepted
      replacement carries a negative one. */
  lemma {:induction false} WithinQuantityExactly(s: State, steps: seq<Step>)
    requires Inv(s) && SoundRun(s, steps) && WithinQuantity(s)
    ensures AlwaysWithinQuantity(s, steps) <==> ReplacementsInRange(s, steps)
  {
    if steps != [] {
      var n := |steps| - 1;
      WithinQuantityExactly(s, steps[..n]);
      if AlwaysWithinQuantity(s, steps[..n]) {
        assert WithinQuantity(Run(s, steps[..n]));
        NextWithinQuantity(Run(s, steps[..n]), steps[n]);
      }
    }
  }

  /** The exception is real: an approved order may be replaced to a negative quantity. */
  lemma ReplaceAcceptsAnyQuantity(s: State, id: OrderId, limit: real)
    requires Inv(s) && id in s.orders && s.orders[id].status == Approved
    ensures var s' := Next(s, Replace(id, -5, limit));
            && s'.orders[id].filledQuantity > s'.orders[id].quantity
            && s'.orders[id].status == AwaitingApproval
  {
    assert OrderInv(s, id);
  }

  // ---- Fill events ----

  lemma CumulativeIncreases(fills: seq<Transaction>)
    requires forall i :: 0 <= i < |fills| ==> fills[i].quantity >= 1.0
    ensures |Cumulative(fills)| == |fills|
    ensures forall i, j :: 0 <= i < j < |fills| ==> Cumulative(fills)[i] < Cumulative(fills)[j]
  {
    if fills != [] {
      var earlier := fills[..|fills| - 1];
      CumulativeIncreases(earlier);
      CumulativeBounded(earlier);
      assert Cumulative(fills)[..|earlier|] == Cumulative(earlier);
      assert forall i :: 0 <= i < |earlier| ==> Cumulative(earlier)[i] in Cumulative(earlier);
    }
  }

  /** In every reachable store the outbox announces each booked fill of an order exactly once,
      in order, under strictly increasing keys: no fill event is lost to deduplication. */
  lemma OneEventPerFill(s: State, steps: seq<Step>, id: OrderId)
    requires Inv(s) && SoundRun(s, steps)
    ensures var s' := Run(s, steps);
            var keys := FillKeys(s'.outbox, id);
            && |keys| == |FillsOf(s'.ledger, id)|
            && (forall i, j :: 0 <= i < j < |keys| ==> keys[i] < keys[j])
            && (forall i :: 0 <= i < |keys| ==> keys[i] == Total(FillsOf(s'.ledger, id)[..i + 1]))
  {
    var s' := Run(s, steps);
    assert OrderInv(s', id);
    var fills := FillsOf(s'.ledger, id);
    if id in s'.orders {
      assert forall i :: 0 <= i < |fills| ==> FillFits(s'.orders[id], fills[i]);
      CumulativeIncreases(fills);
      CumulativeAt(fills);
    }
  }

  lemma CumulativeAt(fills: seq<Transaction>)
    ensures |Cumulative(fills)| == |fills|
    ensures forall i :: 0 <= i < |fills| ==> Cumulative(fills)[i] == Total(fills[..i + 1])
  {
    if fills != [] {
      var earlier := fills[..|fills| - 1];
      CumulativeAt(earlier);
      assert fills[..|fills|] == fills;
      forall i | 0 <= i < |earlier|
        ensures Cumulative(fills)[i] == Total(fills[..i + 1])
      {
        assert earlier[..i + 1] == fills[..i + 1];
      }
    }
  }

  ghost predicate Distinct(outbox: seq<EventKey>) {
    forall i, j :: 0 <= i < j < |outbox| ==> outbox[i] != outbox[j]
  }

  /** Events are only added, and never twice. */
  ghost predicate Grows(outbox: seq<EventKey>, outbox': seq<EventKey>) {
    outbox <= outbox' && (Distinct(outbox) ==> Distinct(outbox'))
  }

  lemma EmitGrows(outbox: seq<EventKey>, key: EventKey)
    ensures Grows(outbox, Emit(outbox, key))
  {
  }

  lemma ExecuteGrows(c: Config, s: State, o: OrderRow, price: real, quantity: int)
    requires o.filledQuantity + quantity != 0
    ensures Grows(s.outbox, Execute(c, s, o, price, quantity).0.outbox)
  {
  }

  lemma AdmittedGrows(c: Config, s: State, o: OrderRow, limit: real, market: real, volume: int)
    requires o.Consistent()
    ensures Grows(s.outbox, SubmitAdmitted(c, s, o, limit, market, volume).0.outbox)
  {
    var quantity := FillQuantity(c, o, volume);
    EmitGrows(s.outbox, OrderSubmitted(o.id));
    if quantity != 0 {
      ExecuteGrows(c, Mark(s, o), o.(status := Submitted),
                   FillPrice(c, o.side, limit, market), quantity);
    }
  }

  lemma NextGrows(s: State, step: Step)
    requires Sane(s) && Usable(step)
    ensures Grows(s.outbox, Next(s, step).outbox)
  {
    if step.Submit? && step.id in s.orders {
      var o := s.orders[step.id];
      var screened := Screen(step.config, o, step.market, step.volume, step.context);
      if screened.Admit? {
        AdmittedGrows(step.config, s, o, o.limitPrice.value, step.market, screened.volume);
      }
    }
  }

  /** No two outbox rows ever share an idempotency key, and none is ever withdrawn. */
  lemma {:induction false} OutboxKeysDistinct(s: State, steps: seq<Step>)
    requires Sane(s) && AllUsable(steps) && Distinct(s.outbox)
    ensures Distinct(Run(s, steps).outbox) && s.outbox <= Run(s, steps).outbox
  {
    if steps != [] {
      var earlier := steps[..|steps| - 1];
      OutboxKeysDistinct(s, earlier);
      NextGrows(Run(s, earlier), steps[|steps| - 1]);
    }
  }

  // ---- Raising calls ----

  /** A call that raises changes nothing, with one exception: a submit that finds no account
      has already marked the order. It leaves the store alone exactly when the order was marked
      before. */
  lemma RaisingCalls(s: State, step: Step)
    requires Sane(s) && Usable(step) && Call(s, step).1.Raised?
    ensures var (s', outcome) := Call(s, step);
            if step.Submit? && outcome == Raised(AccountMissing) then
              && step.id in s.orders
              && s' == Mark(s, s.orders[step.id])
              && (s' == s <==> && s.orders[step.id].status == Submitted
                               && OrderSubmitted(step.id) in s.outbox)
            else s' == s
  {
    if step.Submit? && step.id in s.orders {
      var o := s.orders[step.id];
      if Call(s, step).1 == Raised(AccountMissing) {
        assert Call(s, step).0 == Mark(s, o);
        assert Mark(s, o).orders[o.id].status == Submitted;
        if o.status == Submitted {
          assert s.orders == s.orders[o.id := o];
        }
      }
    }
  }

  /** The exception is real: without an account, submitting an approved order raises and leaves
      the order submitted. */
  lemma MissingAccountLeavesAMark()
    ensures var o := OrderRow("o", "k", "GP", Buy, Limit, 10, Some(10.0), Approved, 0, None);
            var s := State(map["o" := o], map[], [], []);
            var step := Submit(Config(1.0, 0.0, "pessimistic", None, 1, "paper"), "o", 10.0, 1000,
                               None);
            && Inv(s) && Call(s, step).1 == Raised(AccountMissing)
            && Call(s, step).0.orders["o"].status == Submitted
  {
    var o := OrderRow("o", "k", "GP", Buy, Limit, 10, Some(10.0), Approved, 0, None);
    var c := Config(1.0, 0.0, "pessimistic", None, 1, "paper");
    assert OrderOk(o, [], []);
    assert (1000.0).Floor == 1000 && LiquidityCap(c, 1000) == 1000;
  }

  // ---- Replacement ----

  ghost predicate Reviews(step: Step, id: OrderId) {
    step.Review? && step.id == id
  }

  /** Waiting for review, or out of the book for good, without ever having been filled. */
  ghost predicate Parked(s: State, id: OrderId) {
    && id in s.orders
    && s.orders[id].filledQuantity == 0
    && s.orders[id].status in {AwaitingApproval, Cancelled, Expired, Rejected, RiskRejected}
  }

  /** A replaced order cannot fill until a review has approved it again: over any run without a
      review of it, it has no fill in the ledger. */
  lemma {:induction false} ReplacedOrderWaits(s: State, id: OrderId, quantity: int, limit: real,
                                              steps: seq<Step>)
    requires Inv(s) && id in s.orders && Call(s, Replace(id, quantity, limit)).1 == Done
    requires SoundRun(Next(s, Replace(id, quantity, limit)), steps)
    requires forall i :: 0 <= i < |steps| ==> !Reviews(steps[i], id)
    ensures var s' := Run(Next(s, Replace(id, quantity, limit)), steps);
            Parked(s', id) && FillsOf(s'.ledger, id) == []
  {
    var start := Next(s, Replace(id, quantity, limit));
    assert OrderInv(s, id);
    ParkedStays(start, id, steps);
    var s' := Run(start, steps);
    assert OrderInv(s', id);
    var fills := FillsOf(s'.ledger, id);
    if fills != [] {
      assert forall i :: 0 <= i < |fills| ==> FillFits(s'.orders[id], fills[i]);
      TotalPositive(fills);
    }
  }

  lemma {:induction false} ParkedStays(s: State, id: OrderId, steps: seq<Step>)
    requires Inv(s) && SoundRun(s, steps) && Parked(s, id)
    requires forall i :: 0 <= i < |steps| ==> !Reviews(steps[i], id)
    ensures Parked(Run(s, steps), id)
  {
    if steps != [] {
      var earlier, last := steps[..|steps| - 1], steps[|steps| - 1];
      ParkedStays(s, id, earlier);
      ParkedStep(Run(s, earlier), id, last);
    }
  }

  lemma RewriteKeepsParked(s: State, id: OrderId, o: OrderRow)
    requires Parked(s, id) && o.id in s.orders
    requires DeskChange(s.orders[o.id], o) && (o.id == id ==> o.status != Approved)
    ensures Parked(SetOrder(s, o), id)
  {
  }

  lemma SubmitKeepsParked(s: State, id: OrderId, step: Step)
    requires Inv(s) && Usable(step) && Parked(s, id) && step.Submit? && step.id in s.orders
    ensures Parked(Call(s, step).0, id)
  {
    hide Execute, FillQuantity;
    assert OrderInv(s, step.id);
    var booked, available :=
      SubmitShape(step.config, s, s.orders[step.id], step.market, step.volume, step.context);
  }

  lemma ParkedStep(s: State, id: OrderId, step: Step)
    requires Inv(s) && Sound(s, step) && Parked(s, id) && !Reviews(step, id)
    ensures Parked(Next(s, step), id)
  {
    if step.Submit? && step.id in s.orders {
      SubmitKeepsParked(s, id, step);
    } else if AtDesk(step) {
      DeskShape(s, step);
      if Next(s, step) != s {
        RewriteKeepsParked(s, id, Next(s, step).orders[step.id]);
      }
    }
  }
}
