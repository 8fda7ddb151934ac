/** Runs of the paper broker: any interleaving, on any number of orders and accounts and by
    brokers of any configuration, of the calls of backend/app/brokers/paper.py with everything
    else that adds orders and accounts or decides on orders: proposals, reviews, placements,
    refusals, expiries. Every run keeps a store sane (`Sane`); a run that approves only orders
    with positive terms (`SoundRun`) also keeps the invariant `Inv`. */
module PaperRuns {
  import opened Common
  import opened Decimals
  import opened PaperModel
  import DseExecution
  import RiskEngine

  datatype Step =
    | Submit(config: Config, id: OrderId, market: real, volume: int,
             context: Option<DseExecution.Context>)
    | Cancel(id: OrderId)
    | Replace(id: OrderId, quantity: int, limit: real)
    | ReconcileStep(config: Config)
    | Reset(config: Config, startingCash: real)
    | Propose(id: OrderId, idempotencyKey: string, side: Side, orderType: OrderType,
              trusted: bool, limits: RiskEngine.Limits, proposal: RiskEngine.Proposal,
              inputs: RiskEngine.Inputs)
    | Review(id: OrderId, trusted: bool, limits: RiskEngine.Limits,
             proposal: RiskEngine.Proposal, inputs: RiskEngine.Inputs)
    | Place(id: OrderId, idempotencyKey: string, symbol: string, side: Side, quantity: int,
            limit: real)
    | Decline(id: OrderId)
    | Expire(id: OrderId)
    | OpenAccount(account: int, startingCash: real)

  const ACTIVE := {Proposed, AwaitingApproval, Approved, Submitted, PartiallyFilled}

  /** The risk gate accepts, from a provider that is trusted. */
  ghost predicate Accepts(trusted: bool, limits: RiskEngine.Limits, p: RiskEngine.Proposal,
                          i: RiskEngine.Inputs) {
    trusted && RiskEngine.Approves(limits, p, i)
  }

  /** An order under this id can be added. */
  ghost predicate Vacant(s: State, id: OrderId, idempotencyKey: string) {
    id !in s.orders && forall k :: k in s.orders ==> s.orders[k].idempotencyKey != idempotencyKey
  }

  /** What no call is made without: a configured broker, a placed limit that is a price. */
  predicate Usable(step: Step) {
    && (step.Submit? ==> step.config.Valid())
    && (step.Place? ==> step.limit >= 0.0)
  }

  /** Orders that may be submitted are not overfilled, and orders that wait are unfilled. */
  ghost predicate SaneOrder(o: OrderRow) {
    && (o.status in FILLABLE ==> o.Consistent())
    && (o.status in {Proposed, AwaitingApproval} ==> o.filledQuantity == 0)
  }

  /** What every run keeps, whatever is approved. */
  ghost predicate Sane(s: State) {
    forall id :: id in s.orders ==> s.orders[id].id == id && SaneOrder(s.orders[id])
  }

  /** The store after one call, raising or not, and what the call answered. */
  ghost function Call(s: State, step: Step): (State, Outcome)
    requires Sane(s) && Usable(step)
  {
    match step
    case Submit(c, id, market, volume, context) =>
      if id in s.orders then
        SubmitOrder(c, s, s.orders[id], market, volume, context)
      else (s, Done)
    case Cancel(id) =>
      if id in s.orders then CancelOrder(s, s.orders[id]) else (s, Done)
    case Replace(id, quantity, limit) =>
      if id in s.orders then ReplaceOrder(s, s.orders[id], quantity, limit) else (s, Done)
    case ReconcileStep(c) => Reconcile(c, s)
    case Reset(c, cash) => ResetAccount(c, s, cash)
    case Propose(id, key, side, orderType, trusted, limits, p, i) =>
      if Vacant(s, id, key) then
        var verdict := if Accepts(trusted, limits, p, i) then AwaitingApproval else RiskRejected;
        (SetOrder(s, OrderRow(id, key, p.symbol, side, orderType, p.quantity, p.limitPrice, verdict,
                              0, None)), Done)
      else (s, Done)
    case Review(id, trusted, limits, p, i) =>
      if Waiting(s, id) then
        var verdict := if Accepts(trusted, limits, p, i) then Approved else RiskRejected;
        (SetOrder(s, s.orders[id].(status := verdict)), Done)
      else (s, Done)
    case Place(id, key, symbol, side, quantity, limit) =>
      if Vacant(s, id, key) && quantity > 0 then
        (SetOrder(s, OrderRow(id, key, symbol, side, Limit, quantity, Some(limit), Approved, 0,
                              None)), Done)
      else (s, Done)
    case Decline(id) =>
      if Waiting(s, id) then (SetOrder(s, s.orders[id].(status := Rejected)), Done) else (s, Done)
    case Expire(id) =>
      if id in s.orders && s.orders[id].status in ACTIVE
      then (SetOrder(s, s.orders[id].(status := Expired)), Done)
      else (s, Done)
    case OpenAccount(a, cash) =>
      if a in s.accounts then (s, Done)
      else (s.(accounts := s.accounts[a := AccountRow(cash, cash)]), Done)
  }

  predicate Waiting(s: State, id: OrderId) {
    id in s.orders && s.orders[id].status == AwaitingApproval
  }

  /** The call is a review that approves the order it names. The proposal is the reviewer's: it
      need not have anything to do with the order. */
  ghost predicate Approving(s: State, step: Step) {
    && step.Review? && Waiting(s, step.id)
    && Accepts(step.trusted, step.limits, step.proposal, step.inputs)
  }

  predicate PositiveTerms(o: OrderRow) {
    o.quantity > 0 && (o.limitPrice.Some? ==> o.limitPrice.value >= 0.0)
  }

  /** No order is approved whose own quantity or limit is out of range. */
  ghost predicate Sound(s: State, step: Step): (sound: bool)
    ensures sound ==> Usable(step)
  {
    Usable(step) && (Approving(s, step) ==> PositiveTerms(s.orders[step.id]))
  }

  ghost function Next(s: State, step: Step): (s': State)
    requires Sane(s) && Usable(step)
    ensures Sane(s')
    ensures Inv(s) && Sound(s, step) ==> Inv(s')
  {
    CallKeepsSane(s, step);
    assert Inv(s) && Sound(s, step) ==> Inv(Call(s, step).0) by {
      if Inv(s) && Sound(s, step) {
        CallKeepsInv(s, step);
      }
    }
    Call(s, step).0
  }

  ghost predicate AllUsable(steps: seq<Step>) {
    forall i :: 0 <= i < |steps| ==> Usable(steps[i])
  }

  ghost function Run(s: State, steps: seq<Step>): (s': State)
    requires Sane(s) && AllUsable(steps)
    ensures Sane(s')
    ensures Inv(s) && SoundRun(s, steps) ==> Inv(s')
    decreases |steps|, 1
  {
    if steps == [] then s
    else Next(Run(s, steps[..|steps| - 1]), steps[|steps| - 1])
  }

  /** Every call of the run is sound in the store it finds. */
  ghost predicate SoundRun(s: State, steps: seq<Step>): (sound: bool)
    requires Sane(s)
    ensures sound ==> AllUsable(steps)
    decreases |steps|, 0
  {
    hide Inv, OrderInv, Next, Run, Sane, SaneOrder, Sound, Usable;
    steps != [] ==>
      var n := |steps| - 1;
      SoundRun(s, steps[..n]) && Sound(Run(s, steps[..n]), steps[n])
  }

  // ---- What the ledger and the outbox say about one order ----

  /** The order's fills, in the order in which they were booked. */
  function FillsOf(ledger: seq<Transaction>, id: OrderId): seq<Transaction> {
    if ledger == [] then []
    else
      var earlier := FillsOf(ledger[..|ledger| - 1], id);
      var last := ledger[|ledger| - 1];
      if last.orderId == Some(id) then earlier + [last] else earlier
  }

  /** The filled quantities announced in the order's fill events. */
  function FillKeys(outbox: seq<EventKey>, id: OrderId): seq<real> {
    if outbox == [] then []
    else
      var earlier := FillKeys(outbox[..|outbox| - 1], id);
      var last := outbox[|outbox| - 1];
      if last.FillDone? && last.id == id then earlier + [last.filledQuantity as real] else earlier
  }

  function Total(fills: seq<Transaction>): real {
    if fills == [] then 0.0
    else Total(fills[..|fills| - 1]) + fills[|fills| - 1].quantity
  }

  /** The filled quantity after each fill. */
  function Cumulative(fills: seq<Transaction>): seq<real> {
    if fills == [] then [] else Cumulative(fills[..|fills| - 1]) + [Total(fills)]
  }

  /** The average `submit_order` stores: re-averaged and truncated at every fill. */
  function RunningAverage(fills: seq<Transaction>): real {
    if fills == [] then 0.0
    else
      var earlier := fills[..|fills| - 1];
      var last := fills[|fills| - 1];
      if Total(earlier) + last.quantity == 0.0 then 0.0
      else Averaged(RunningAverage(earlier), Total(earlier), last.price, last.quantity)
  }

  // ---- The invariant ----

  /** A ledger row that this order, at its present limit, may have produced. */
  predicate FillFits(o: OrderRow, tx: Transaction) {
    && tx.orderId == Some(o.id)
    && tx.symbol == o.symbol
    && tx.kind == (if o.side == Buy then BuyRow else SellRow)
    && tx.quantity >= 1.0
    && OnCentGrid(tx.price)
    && o.limitPrice.Some?
    && (o.side == Buy ==> tx.price <= ToCents(o.limitPrice.value))
    && (o.side == Sell ==> tx.price >= ToCents(o.limitPrice.value))
  }

  ghost predicate OrderOk(o: OrderRow, fills: seq<Transaction>, keys: seq<real>) {
    && o.Consistent()
    && Total(fills) == o.filledQuantity as real
    && (o.status in FILLABLE ==> o.filledQuantity < o.quantity)
    && ((o.status in FILLABLE || o.filledQuantity > 0) && o.limitPrice.Some? ==>
          o.limitPrice.value >= 0.0)
    && (o.status == PartiallyFilled ==> o.filledQuantity > 0)
    && (o.status == Filled <==> 0 < o.filledQuantity == o.quantity)
    && (o.status in {Proposed, AwaitingApproval, Approved, RiskRejected} ==> o.filledQuantity == 0)
    && o.averageFillPrice == (if fills == [] then None else Some(RunningAverage(fills)))
    && (forall i :: 0 <= i < |fills| ==> FillFits(o, fills[i]))
    && keys == Cumulative(fills)
  }

  ghost predicate OrderInv(s: State, id: OrderId) {
    var fills, keys := FillsOf(s.ledger, id), FillKeys(s.outbox, id);
    if id in s.orders then s.orders[id].id == id && OrderOk(s.orders[id], fills, keys)
    else fills == [] && keys == []
  }

  ghost predicate Inv(s: State): (holds: bool)
    ensures holds ==> Sane(s)
  {
    assert (forall id :: OrderInv(s, id)) ==> Sane(s) by {
      if forall id :: OrderInv(s, id) {
        InvIsSane(s);
      }
    }
    forall id :: OrderInv(s, id)
  }

  lemma InvIsSane(s: State)
    requires forall id :: OrderInv(s, id)
    ensures Sane(s)
  {
    forall id | id in s.orders
      ensures s.orders[id].id == id && SaneOrder(s.orders[id])
    {
      assert OrderInv(s, id);
    }
  }

  /** Same orders' fill events: what any step leaves of the outbox except a fill of `id`. */
  ghost predicate SameFillKeys(outbox: seq<EventKey>, outbox': seq<EventKey>) {
    forall id :: FillKeys(outbox', id) == FillKeys(outbox, id)
  }

  lemma EmitOther(outbox: seq<EventKey>, key: EventKey)
    requires !key.FillDone?
    ensures SameFillKeys(outbox, Emit(outbox, key))
  {
  }

  /** Writing one order touches no other order's rows. */
  lemma RewriteKeepsInv(s: State, s': State, o: OrderRow)
    requires Inv(s)
    requires s'.orders == s.orders[o.id := o]
    requires forall id :: id != o.id ==>
               && FillsOf(s'.ledger, id) == FillsOf(s.ledger, id)
               && FillKeys(s'.outbox, id) == FillKeys(s.outbox, id)
    requires OrderOk(o, FillsOf(s'.ledger, o.id), FillKeys(s'.outbox, o.id))
    ensures Inv(s')
  {
    forall id
      ensures OrderInv(s', id)
    {
      assert OrderInv(s, id);
    }
  }

  lemma {:induction false} KeyIsListed(outbox: seq<EventKey>, id: OrderId, n: int)
    requires FillDone(id, n) in outbox
    ensures n as real in FillKeys(outbox, id)
  {
    var last := outbox[|outbox| - 1];
    if last != FillDone(id, n) {
      assert outbox == outbox[..|outbox| - 1] + [last];
      KeyIsListed(outbox[..|outbox| - 1], id, n);
    }
  }

  /** Fill events never announce more than is filled. */
  lemma CumulativeBounded(fills: seq<Transaction>)
    requires forall i :: 0 <= i < |fills| ==> fills[i].quantity >= 1.0
    ensures forall x :: x in Cumulative(fills) ==> x <= Total(fills)
  {
  }

  ghost predicate FillAllowed(o: OrderRow, price: real, quantity: int) {
    && o.status in FILLABLE && o.limitPrice.Some?
    && 1 <= quantity <= o.quantity - o.filledQuantity
    && OnCentGrid(price)
    && (o.side == Buy ==> price <= ToCents(o.limitPrice.value))
    && (o.side == Sell ==> price >= ToCents(o.limitPrice.value))
  }

  lemma FilledOrderOk(c: Config, o: OrderRow, fills: seq<Transaction>, keys: seq<real>,
                      price: real, quantity: int)
    requires OrderOk(o, fills, keys) && FillAllowed(o, price, quantity)
    ensures OrderOk(FilledOrder(o, price, quantity), fills + [FillRow(c, o, price, quantity)],
                    keys + [(o.filledQuantity + quantity) as real])
  {
    var row := FillRow(c, o, price, quantity);
    var o' := FilledOrder(o, price, quantity);
    assert (fills + [row])[..|fills|] == fills;
    assert Total(fills + [row]) == o'.filledQuantity as real;
    NextAverageIsRunning(o, fills, row, price, quantity);
    forall i | 0 <= i < |fills + [row]|
      ensures FillFits(o', (fills + [row])[i])
    {
      assert i < |fills| ==> FillFits(o, fills[i]);
    }
  }

  lemma NextAverageIsRunning(o: OrderRow, fills: seq<Transaction>, row: Transaction,
                             price: real, quantity: int)
    requires row.price == price && row.quantity == quantity as real
    requires 0 <= o.filledQuantity && 1 <= quantity
    requires Total(fills) == o.filledQuantity as real
    requires o.averageFillPrice == if fills == [] then None else Some(RunningAverage(fills))
    ensures NextAverage(o.averageFillPrice, o.filledQuantity, price, quantity)
         == RunningAverage(fills + [row])
  {
  }

  /** A fill event's key is never in the outbox already, so the event is not swallowed. */
  lemma FillKeyIsFresh(s: State, o: OrderRow, quantity: int)
    requires OrderOk(o, FillsOf(s.ledger, o.id), FillKeys(s.outbox, o.id))
    requires 1 <= quantity
    ensures FillDone(o.id, o.filledQuantity + quantity) !in s.outbox
  {
    var n := o.filledQuantity + quantity;
    if FillDone(o.id, n) in s.outbox {
      KeyIsListed(s.outbox, o.id, n);
      CumulativeBounded(FillsOf(s.ledger, o.id));
    }
  }

  lemma AppendFill(ledger: seq<Transaction>, row: Transaction, id: OrderId)
    ensures FillsOf(ledger + [row], id)
         == if row.orderId == Some(id) then FillsOf(ledger, id) + [row] else FillsOf(ledger, id)
  {
  }

  lemma AppendKey(outbox: seq<EventKey>, key: EventKey, id: OrderId)
    ensures FillKeys(outbox + [key], id)
         == if key.FillDone? && key.id == id then FillKeys(outbox, id) + [key.filledQuantity as real]
            else FillKeys(outbox, id)
  {
  }

  /** A fill books one row and one event. */
  lemma FillKeepsInv(c: Config, s: State, o: OrderRow, price: real, quantity: int)
    requires Inv(s) && c.accountId in s.accounts
    requires OrderOk(o, FillsOf(s.ledger, o.id), FillKeys(s.outbox, o.id))
    requires FillAllowed(o, price, quantity)
    ensures Inv(RecordFill(c, s, o, price, quantity))
  {
    var s' := RecordFill(c, s, o, price, quantity);
    var row := FillRow(c, o, price, quantity);
    var key := FillDone(o.id, o.filledQuantity + quantity);
    FillKeyIsFresh(s, o, quantity);
    assert s'.ledger == s.ledger + [row] && s'.outbox == s.outbox + [key];
    forall id
      ensures FillsOf(s'.ledger, id)
           == if id == o.id then FillsOf(s.ledger, id) + [row] else FillsOf(s.ledger, id)
      ensures FillKeys(s'.outbox, id)
           == if id == o.id then FillKeys(s.outbox, id) + [key.filledQuantity as real]
              else FillKeys(s.outbox, id)
    {
      AppendFill(s.ledger, row, id);
      AppendKey(s.outbox, key, id);
    }
    FilledOrderOk(c, o, FillsOf(s.ledger, o.id), FillKeys(s.outbox, o.id), price, quantity);
    RewriteKeepsInv(s, s', FilledOrder(o, price, quantity));
  }

  /** Rounding the clamped price never passes the rounded limit, and the result is in cents. */
  lemma FillPriceWithinLimit(c: Config, side: Side, limit: real, market: real)
    ensures OnCentGrid(FillPrice(c, side, limit, market))
    ensures side == Buy ==> FillPrice(c, side, limit, market) <= ToCents(limit)
    ensures side == Sell ==> FillPrice(c, side, limit, market) >= ToCents(limit)
  {
    hide ToCents, OnCentGrid, Simulated;
    var clamped := Clamped(side, Simulated(c, side, market), limit);
    ToCentsProperties(clamped);
    if side == Buy {
      ToCentsMonotone(clamped, limit);
    } else {
      ToCentsMonotone(limit, clamped);
    }
  }

  lemma ExecuteKeepsInv(c: Config, s: State, o: OrderRow, price: real, quantity: int)
    requires Inv(s)
    requires OrderOk(o, FillsOf(s.ledger, o.id), FillKeys(s.outbox, o.id))
    requires FillAllowed(o, price, quantity)
    ensures Inv(Execute(c, s, o, price, quantity).0)
  {
    if c.accountId in s.accounts {
      FillKeepsInv(c, s, o, price, quantity);
      RejectKeepsInv(s, o, InsufficientCash(o.id));
      RejectKeepsInv(s, o, InsufficientShares(o.id));
    }
  }

  lemma RejectKeepsInv(s: State, o: OrderRow, key: EventKey)
    requires Inv(s) && !key.FillDone?
    requires OrderOk(o, FillsOf(s.ledger, o.id), FillKeys(s.outbox, o.id))
    requires o.status in FILLABLE
    ensures Inv(Reject(s, o, key))
  {
    EmitOther(s.outbox, key);
    RewriteKeepsInv(s, Reject(s, o, key), o.(status := Rejected));
  }

  lemma MarkKeepsInv(s: State, o: OrderRow)
    requires Inv(s) && o.id in s.orders && s.orders[o.id] == o
    requires o.status in FILLABLE
    ensures Inv(Mark(s, o)) && Inv(SetOrder(s, o.(status := Submitted)))
    ensures var o' := o.(status := Submitted);
            OrderOk(o', FillsOf(Mark(s, o).ledger, o.id), FillKeys(Mark(s, o).outbox, o.id))
  {
    assert OrderInv(s, o.id);
    EmitOther(s.outbox, OrderSubmitted(o.id));
    RewriteKeepsInv(s, Mark(s, o), o.(status := Submitted));
    RewriteKeepsInv(s, SetOrder(s, o.(status := Submitted)), o.(status := Submitted));
  }

  lemma AdmittedKeepsInv(c: Config, s: State, o: OrderRow, market: real, volume: int)
    requires Inv(s) && o.id in s.orders && s.orders[o.id] == o
    requires o.Consistent() && o.status in FILLABLE && o.limitPrice.Some?
    ensures Inv(SubmitAdmitted(c, s, o, o.limitPrice.value, market, volume).0)
  {
    var limit, quantity := o.limitPrice.value, FillQuantity(c, o, volume);
    MarkKeepsInv(s, o);
    if quantity != 0 {
      FillPriceWithinLimit(c, o.side, limit, market);
      assert OrderInv(s, o.id);
      ExecuteKeepsInv(c, Mark(s, o), o.(status := Submitted),
                      FillPrice(c, o.side, limit, market), quantity);
    }
  }

  lemma SubmitKeepsInv(c: Config, s: State, o: OrderRow, market: real, volume: int,
                       context: Option<DseExecution.Context>)
    requires Inv(s) && o.id in s.orders && s.orders[o.id] == o && c.Valid()
    ensures Inv(SubmitOrder(c, s, o, market, volume, context).0)
  {
    var screened := Screen(c, o, market, volume, context);
    if screened.Skip? {
      MarkKeepsInv(s, o);
    } else if screened.Admit? {
      AdmittedKeepsInv(c, s, o, market, screened.volume);
    }
  }

  /** What the other calls may do to an order: close it, decide on it, or give an unfilled one
      new terms. */
  predicate DeskChange(was: OrderRow, o: OrderRow) {
    || (o == was.(status := Cancelled) && was.status !in CLOSED)
    || (o == was.(status := Expired) && was.status in ACTIVE)
    || (o.status in {Rejected, RiskRejected} && o == was.(status := o.status)
        && was.status == AwaitingApproval)
    || (o == was.(status := Approved) && was.status == AwaitingApproval)
    || (&& o == was.(quantity := o.quantity, limitPrice := o.limitPrice,
                     status := AwaitingApproval)
        && was.filledQuantity == 0 && was.status in REPLACEABLE)
  }

  predicate AtDesk(step: Step) {
    step.Cancel? || step.Replace? || step.Review? || step.Decline? || step.Expire?
  }

  /** A call at the desk rewrites one order in that way, or changes nothing. */
  lemma DeskShape(s: State, step: Step)
    requires Sane(s) && Usable(step) && AtDesk(step)
    ensures var s' := Call(s, step).0;
            || s' == s
            || (&& step.id in s.orders && step.id in s'.orders
                && s'.orders[step.id].id == step.id && s' == SetOrder(s, s'.orders[step.id])
                && DeskChange(s.orders[step.id], s'.orders[step.id])
                && (s'.orders[step.id].status == Approved ==> Approving(s, step))
                && (step.Replace? || s'.orders[step.id].status != AwaitingApproval))
  {
  }

  lemma DeskKeepsInv(s: State, o: OrderRow)
    requires Inv(s) && o.id in s.orders && DeskChange(s.orders[o.id], o)
    requires o.status == Approved ==> PositiveTerms(o)
    ensures Inv(SetOrder(s, o))
  {
    var fills := FillsOf(s.ledger, o.id);
    assert OrderInv(s, o.id);
    assert fills != [] ==> fills[0].quantity >= 1.0;
    TotalPositive(fills);
    RewriteKeepsInv(s, SetOrder(s, o), o);
  }

  lemma TotalPositive(fills: seq<Transaction>)
    requires forall i :: 0 <= i < |fills| ==> fills[i].quantity >= 1.0
    ensures fills != [] ==> Total(fills) >= 1.0
  {
  }

  lemma DeskCallKeepsInv(s: State, step: Step)
    requires Inv(s) && Sound(s, step) && AtDesk(step)
    ensures Inv(Call(s, step).0)
  {
    hide Call;
    DeskShape(s, step);
    if Call(s, step).0 != s {
      DeskKeepsInv(s, Call(s, step).0.orders[step.id]);
    }
  }

  lemma NewOrderKeepsInv(s: State, step: Step)
    requires Inv(s) && Usable(step) && (step.Propose? || step.Place?)
    ensures Inv(Call(s, step).0)
  {
    var s' := Call(s, step).0;
    if s' != s {
      assert OrderInv(s, step.id);
      RewriteKeepsInv(s, s', s'.orders[step.id]);
    }
  }

  /** Every sound call, raising or not, keeps the invariant. */
  lemma CallKeepsInv(s: State, step: Step)
    requires Inv(s) && Sound(s, step)
    ensures Inv(Call(s, step).0)
  {
    match step
    case Submit(c, id, market, volume, context) =>
      if id in s.orders {
        assert OrderInv(s, id);
        SubmitKeepsInv(c, s, s.orders[id], market, volume, context);
      }
    case ReconcileStep(c) =>
      if c.accountId in s.accounts {
        var rows := CountedRows(s.ledger, c.accountId, c.accountLabel);
        EmitOther(s.outbox, Reconciled(c.accountId, rows, s.accounts[c.accountId].cash));
        SameOrdersKeepInv(s, Call(s, step).0);
      }
    case Reset(_, _) => SameOrdersKeepInv(s, Call(s, step).0);
    case OpenAccount(_, _) => SameOrdersKeepInv(s, Call(s, step).0);
    case Propose(_, _, _, _, _, _, _, _) => NewOrderKeepsInv(s, step);
    case Place(_, _, _, _, _, _) => NewOrderKeepsInv(s, step);
    case Cancel(_) => DeskCallKeepsInv(s, step);
    case Replace(_, _, _) => DeskCallKeepsInv(s, step);
    case Review(_, _, _, _, _) => DeskCallKeepsInv(s, step);
    case Decline(_) => DeskCallKeepsInv(s, step);
    case Expire(_) => DeskCallKeepsInv(s, step);
  }

  /** Soundness is exactly what the invariant needs of a call: it can be checked before a review,
      on the order alone. */
  lemma InvariantExactly(s: State, step: Step)
    requires Inv(s) && Usable(step)
    ensures Inv(Call(s, step).0) <==> Sound(s, step)
  {
    if Sound(s, step) {
      CallKeepsInv(s, step);
    } else {
      assert OrderInv(s, step.id);
      assert !OrderInv(Call(s, step).0, step.id);
    }
  }

  lemma SameOrdersKeepInv(s: State, s': State)
    requires Inv(s)
    requires s'.orders == s.orders && s'.ledger == s.ledger && SameFillKeys(s.outbox, s'.outbox)
    ensures Inv(s')
  {
    forall id ensures OrderInv(s', id) { assert OrderInv(s, id); }
  }

  // ---- What one submit can do ----

  /** The fill that a submit of `o` would book, as (price, quantity). */
  function Plan(c: Config, o: OrderRow, market: real, volume: int): (real, int)
    requires o.limitPrice.Some?
  {
    (FillPrice(c, o.side, o.limitPrice.value, market), FillQuantity(c, o, volume))
  }

  /** s' is s with one fill of o booked by broker c, and the fill was covered. */
  ghost predicate Recorded(c: Config, s: State, o: OrderRow, s': State, price: real,
                           quantity: int)
  {
    && c.accountId in s.accounts
    && o.status in FILLABLE && o.Consistent()
    && quantity != 0 && o.filledQuantity + quantity != 0 && OnCentGrid(price)
    && s' == RecordFill(c, Mark(s, o), o.(status := Submitted), price, quantity)
    && (o.side == Buy ==> s.accounts[c.accountId].cash >= Cost(price, quantity))
    && (o.side == Sell ==> HeldQuantity(s.ledger, c.accountLabel, o.symbol) >= quantity)
  }

  /** The fill is of a positive quantity, within the order and its limit. */
  ghost predicate Booked(c: Config, s: State, o: OrderRow, s': State, price: real, quantity: int)
  {
    Recorded(c, s, o, s', price, quantity) && FillAllowed(o, price, quantity)
  }

  /** s' is s except for the status of o and for other events than fills. */
  ghost predicate Unbooked(s: State, o: OrderRow, s': State) {
    && s'.ledger == s.ledger && s'.accounts == s.accounts
    && o.id in s'.orders
    && s'.orders == s.orders[o.id := o.(status := s'.orders[o.id].status)]
  }

  lemma ExecuteRecords(c: Config, s: State, o: OrderRow, price: real, quantity: int)
    requires o.status in FILLABLE && o.Consistent() && OnCentGrid(price)
    requires quantity != 0 && o.filledQuantity + quantity != 0
    ensures var s' := Execute(c, Mark(s, o), o.(status := Submitted), price, quantity).0;
            if s'.ledger != s.ledger then Recorded(c, s, o, s', price, quantity)
            else Unbooked(s, o, s')
  {
    hide OnCentGrid, HeldQuantity, Cost, FilledOrder, CashDelta;
  }

  lemma AdmittedRecords(c: Config, s: State, o: OrderRow, market: real, volume: int)
    requires o.Consistent() && o.status in FILLABLE && o.limitPrice.Some?
    ensures var s' := SubmitAdmitted(c, s, o, o.limitPrice.value, market, volume).0;
            if s'.ledger != s.ledger then
              && volume > 0 && Crosses(o.side, o.limitPrice.value, market)
              && Recorded(c, s, o, s', Plan(c, o, market, volume).0, Plan(c, o, market, volume).1)
            else Unbooked(s, o, s')
  {
    var (price, quantity) := Plan(c, o, market, volume);
    FillPriceWithinLimit(c, o.side, o.limitPrice.value, market);
    if quantity != 0 {
      ExecuteRecords(c, s, o, price, quantity);
    }
    hide Execute, FillPrice, Recorded, Crosses, OnCentGrid;
  }

  /** Every submit either books exactly the planned fill or books nothing. */
  lemma SubmitRecords(c: Config, s: State, o: OrderRow, market: real, volume: int,
                      context: Option<DseExecution.Context>) returns (booked: bool, available: int)
    requires Sane(s) && c.Valid() && o.id in s.orders && s.orders[o.id] == o
    ensures var s' := SubmitOrder(c, s, o, market, volume, context).0;
            if booked then
              && Screen(c, o, market, volume, context) == Admit(available) && available > 0
              && o.limitPrice.Some? && Crosses(o.side, o.limitPrice.value, market)
              && Recorded(c, s, o, s', Plan(c, o, market, available).0,
                          Plan(c, o, market, available).1)
            else Unbooked(s, o, s')
  {
    var s' := SubmitOrder(c, s, o, market, volume, context).0;
    var screened := Screen(c, o, market, volume, context);
    booked, available := s'.ledger != s.ledger, if screened.Admit? then screened.volume else 0;
    assert s.orders == s.orders[o.id := o.(status := o.status)];
    if screened.Admit? {
      AdmittedRecords(c, s, o, market, available);
    }
    hide SubmitAdmitted, Recorded, Crosses;
  }

  /** On sound stores the fill is also of a positive quantity within the order and its limit. */
  lemma SubmitShape(c: Config, s: State, o: OrderRow, market: real, volume: int,
                    context: Option<DseExecution.Context>) returns (booked: bool, available: int)
    requires Inv(s) && c.Valid() && o.id in s.orders && s.orders[o.id] == o
    ensures var s' := SubmitOrder(c, s, o, market, volume, context).0;
            if booked then
              && Screen(c, o, market, volume, context) == Admit(available) && available > 0
              && o.limitPrice.Some? && Crosses(o.side, o.limitPrice.value, market)
              && Booked(c, s, o, s', Plan(c, o, market, available).0,
                        Plan(c, o, market, available).1)
            else Unbooked(s, o, s')
  {
    hide SubmitOrder, Screen, Crosses, RecordFill, Cost, HeldQuantity;
    booked, available := SubmitRecords(c, s, o, market, volume, context);
    if booked {
      assert o.filledQuantity < o.quantity by { assert OrderInv(s, o.id); }
      FillPriceWithinLimit(c, o.side, o.limitPrice.value, market);
    }
  }

  // ---- Every call keeps a store sane ----

  lemma RewriteKeepsSane(s: State, s': State, o: OrderRow)
    requires Sane(s) && SaneOrder(o) && s'.orders == s.orders[o.id := o]
    ensures Sane(s')
  {
  }

  lemma FilledOrderIsSane(o: OrderRow, price: real, quantity: int, cap: nat)
    requires o.Consistent() && o.filledQuantity + quantity != 0
    requires quantity == if o.quantity - o.filledQuantity <= cap then o.quantity - o.filledQuantity
                         else cap
    ensures SaneOrder(FilledOrder(o, price, quantity))
  {
    hide NextAverage;
  }

  lemma SubmitKeepsSane(c: Config, s: State, o: OrderRow, market: real, volume: int,
                        context: Option<DseExecution.Context>)
    requires Sane(s) && c.Valid() && o.id in s.orders && s.orders[o.id] == o
    ensures Sane(SubmitOrder(c, s, o, market, volume, context).0)
  {
    var s' := SubmitOrder(c, s, o, market, volume, context).0;
    var booked, available := SubmitRecords(c, s, o, market, volume, context);
    if booked {
      var (price, quantity) := Plan(c, o, market, available);
      FilledOrderIsSane(o.(status := Submitted), price, quantity, LiquidityCap(c, available));
      RecordedKeepsSane(c, s, o, s', price, quantity);
    } else {
      SubmitStatus(c, s, o, market, volume, context);
      hide SubmitOrder;
      RewriteKeepsSane(s, s', s'.orders[o.id]);
    }
  }

  lemma RecordedKeepsSane(c: Config, s: State, o: OrderRow, s': State, price: real, quantity: int)
    requires Sane(s) && Recorded(c, s, o, s', price, quantity)
    requires SaneOrder(FilledOrder(o.(status := Submitted), price, quantity))
    ensures Sane(s')
  {
    hide FilledOrder, SaneOrder;
    var filled := FilledOrder(o.(status := Submitted), price, quantity);
    assert filled.id == o.id by { FilledOrderId(o.(status := Submitted), price, quantity); }
    assert s'.orders == s.orders[o.id := filled];
    RewriteKeepsSane(s, s', filled);
  }

  lemma FilledOrderId(o: OrderRow, price: real, quantity: int)
    requires o.filledQuantity + quantity != 0
    ensures FilledOrder(o, price, quantity).id == o.id
  {
  }

  /** A submit leaves an order as it was, or submitted, rejected or filled in part or whole. */
  lemma SubmitStatus(c: Config, s: State, o: OrderRow, market: real, volume: int,
                     context: Option<DseExecution.Context>)
    requires Sane(s) && c.Valid() && o.id in s.orders && s.orders[o.id] == o
    ensures var s' := SubmitOrder(c, s, o, market, volume, context).0;
            || s' == s
            || (&& o.status in FILLABLE && o.id in s'.orders
                && s'.orders[o.id].status in {Submitted, Rejected, Filled, PartiallyFilled})
  {
    var screened := Screen(c, o, market, volume, context);
    if screened.Admit? {
      var quantity := FillQuantity(c, o, screened.volume);
      var price := FillPrice(c, o.side, o.limitPrice.value, market);
      if quantity != 0 {
        ExecuteStatus(c, Mark(s, o), o.(status := Submitted), price, quantity);
      }
    }
    hide Execute, Screen, FillQuantity, FillPrice;
  }

  lemma ExecuteStatus(c: Config, s: State, o: OrderRow, price: real, quantity: int)
    requires o.filledQuantity + quantity != 0
    requires o.id in s.orders && s.orders[o.id] == o
    ensures var s' := Execute(c, s, o, price, quantity).0;
            o.id in s'.orders && s'.orders[o.id].status in {o.status, Rejected, Filled, PartiallyFilled}
  {
    hide NextAverage, Cost, HeldQuantity, CashDelta, FillRow;
  }

  lemma CallKeepsSane(s: State, step: Step)
    requires Sane(s) && Usable(step)
    ensures Sane(Call(s, step).0)
  {
    if step.Submit? {
      if step.id in s.orders {
        SubmitKeepsSane(step.config, s, s.orders[step.id], step.market, step.volume, step.context);
      }
      hide SubmitOrder;
    } else if AtDesk(step) {
      DeskShape(s, step);
      if Call(s, step).0 != s {
        RewriteKeepsSane(s, Call(s, step).0, Call(s, step).0.orders[step.id]);
      }
    }
  }

  // ---- When runs are sound ----

  /** A review that looks at the order's own terms. */
  predicate Describes(p: RiskEngine.Proposal, o: OrderRow) {
    p.symbol == o.symbol && p.quantity == o.quantity && p.limitPrice == o.limitPrice
  }

  lemma DescribingReviewIsSound(s: State, step: Step)
    requires step.Review? && (Waiting(s, step.id) ==> Describes(step.proposal, s.orders[step.id]))
    ensures Sound(s, step)
  {
  }

  /** Every order that waits for a review has terms in range. */
  ghost predicate WaitingPositive(s: State) {
    forall id :: Waiting(s, id) ==> PositiveTerms(s.orders[id])
  }

  /** The call is a replacement that the broker accepts. */
  predicate Replaces(s: State, step: Step) {
    && step.Replace? && step.id in s.orders
    && s.orders[step.id].filledQuantity == 0 && s.orders[step.id].status in REPLACEABLE
  }

  predicate PositiveReplacement(step: Step) {
    step.Replace? ==> step.quantity > 0 && step.limit >= 0.0
  }

  lemma RewriteWaitingPositive(s: State, o: OrderRow)
    requires WaitingPositive(s) && (o.status == AwaitingApproval ==> PositiveTerms(o))
    ensures WaitingPositive(SetOrder(s, o))
  {
    forall id | Waiting(SetOrder(s, o), id)
      ensures PositiveTerms(SetOrder(s, o).orders[id])
    {
      assert id != o.id ==> Waiting(s, id);
    }
  }

  lemma SubmitWaitingPositive(s: State, step: Step)
    requires Sane(s) && Usable(step) && step.Submit? && WaitingPositive(s)
    ensures WaitingPositive(Call(s, step).0)
  {
    hide SubmitOrder;
    var s' := Call(s, step).0;
    if step.id in s.orders {
      var o := s.orders[step.id];
      var booked, available :=
        SubmitRecords(step.config, s, o, step.market, step.volume, step.context);
      SubmitStatus(step.config, s, o, step.market, step.volume, step.context);
      forall id | Waiting(s', id)
        ensures PositiveTerms(s'.orders[id])
      {
        assert Waiting(s, id);
      }
    }
  }

  lemma NextWaitingPositive(s: State, step: Step)
    requires Sane(s) && Usable(step) && WaitingPositive(s) && PositiveReplacement(step)
    ensures WaitingPositive(Next(s, step))
  {
    var s' := Next(s, step);
    if step.Submit? {
      SubmitWaitingPositive(s, step);
    } else if AtDesk(step) {
      DeskShape(s, step);
      if s' != s {
        DeskTerms(s, step);
        RewriteWaitingPositive(s, s'.orders[step.id]);
      }
    } else if (step.Propose? || step.Place?) && s' != s {
      RewriteWaitingPositive(s, s'.orders[step.id]);
    }
  }

  lemma DeskTerms(s: State, step: Step)
    requires Sane(s) && Usable(step) && AtDesk(step) && PositiveReplacement(step)
    requires Call(s, step).0 != s
    ensures step.id in Call(s, step).0.orders
    ensures var o := Call(s, step).0.orders[step.id];
            o.status == AwaitingApproval ==> PositiveTerms(o)
  {
  }

  /** If replacements carry quantities and limits in range, whatever the reviews look at, the
      whole run is sound. */
  lemma {:induction false} PositiveRunsAreSound(s: State, steps: seq<Step>)
    requires Inv(s) && WaitingPositive(s)
    requires forall i :: 0 <= i < |steps| ==> Usable(steps[i]) && PositiveReplacement(steps[i])
    ensures SoundRun(s, steps) && WaitingPositive(Run(s, steps))
  {
    if steps != [] {
      var n := |steps| - 1;
      PositiveRunsAreSound(s, steps[..n]);
      assert Usable(steps[n]) && PositiveReplacement(steps[n]);
      NextWaitingPositive(Run(s, steps[..n]), steps[n]);
    }
  }
}
