/** What one call of the paper broker decides and books, stated from the order, the market, the
    account and the ledger alone. */
module PaperOutcomes {
  import opened Common
  import opened Decimals
  import opened PaperModel
  import opened PaperRuns
  import opened PaperMoneyRuns
  import opened PaperFillRuns
  import opened PaperOrderRuns
  import opened PaperLedger
  import DseExecution
  import RiskEngine

  // ---- When a submit is refused ----

  /** A market context is given and the broker has rules for it. */
  predicate Ruled(c: Config, context: Option<DseExecution.Context>) {
    context.Some? && c.rules.Some?
  }

  /** The symbol does not trade. */
  predicate Halted(c: Config, context: Option<DseExecution.Context>) {
    Ruled(c, context) && (context.value.suspended || context.value.noTrade)
  }

  /** An error that a submit may raise before it writes anything. */
  ghost predicate Reason(c: Config, o: OrderRow, market: real, context: Option<DseExecution.Context>,
                         e: Error)
    requires c.Valid()
  {
    match e
    case NotFillable => o.status !in {Approved, Submitted, PartiallyFilled}
    case MarketOrdersDisabled => o.orderType == Market
    case LimitRequired => o.limitPrice.None?
    case AtLimitUp =>
      && Ruled(c, context) && !Halted(c, context) && o.side == Buy
      && DseExecution.Band(c.rules.value, context.value.previousClose).1 <= market
    case AtLimitDown =>
      && Ruled(c, context) && !Halted(c, context) && o.side == Sell
      && market <= DseExecution.Band(c.rules.value, context.value.previousClose).0
    case BelowMinimumLiquidity =>
      && Ruled(c, context) && !Halted(c, context)
      && context.value.availableVolume < c.rules.value.minimumLiquidity
    case UnsettledShares =>
      && Ruled(c, context) && !Halted(c, context) && o.side == Sell
      && context.value.settledQuantity.Some?
      && o.filledQuantity + context.value.settledQuantity.value < o.quantity
    case UnknownFillMode =>
      Ruled(c, context) && !Halted(c, context) && c.fillModel !in c.rules.value.fillModes
    case _ => false
  }

  ghost predicate Refused(c: Config, o: OrderRow, market: real,
                          context: Option<DseExecution.Context>)
    requires c.Valid()
  {
    exists e :: Reason(c, o, market, context, e)
  }

  /** The volume that an order may draw on: what the fill mode leaves of the visible volume, or the
      volume of the call. */
  function Offer(c: Config, volume: int, context: Option<DseExecution.Context>): int {
    if Ruled(c, context) && c.fillModel in c.rules.value.fillModes
    then DseExecution.FillableVolume(c.rules.value, context.value, c.fillModel).value
    else volume
  }

  lemma ScreenDecides(c: Config, o: OrderRow, market: real, volume: int,
                      context: Option<DseExecution.Context>)
    requires c.Valid()
    ensures var screened := Screen(c, o, market, volume, context);
            && (screened.Refuse? <==> Refused(c, o, market, context))
            && (screened.Refuse? ==> Reason(c, o, market, context, screened.error))
            && (!screened.Refuse? ==>
                  && o.limitPrice.Some?
                  && screened == if Halted(c, context) then Skip else Admit(Offer(c, volume, context)))
  {
    hide DseExecution.Band, DseExecution.Share, DseExecution.Max0;
    var screened := Screen(c, o, market, volume, context);
    if screened.Refuse? {
      assert Reason(c, o, market, context, screened.error);
    } else {
      forall e
        ensures !Reason(c, o, market, context, e)
      {
      }
    }
  }

  // ---- What a submit decides ----

  /** The order is refused for nothing, its symbol trades, the market has reached its limit and
      there are shares to fill. */
  ghost predicate Wants(c: Config, o: OrderRow, market: real, volume: int,
                        context: Option<DseExecution.Context>)
    requires c.Valid()
  {
    && !Refused(c, o, market, context) && !Halted(c, context)
    && o.limitPrice.Some?
    && (if o.side == Buy then market <= o.limitPrice.value else o.limitPrice.value <= market)
    && Offer(c, volume, context) > 0
    && o.filledQuantity != o.quantity
    && (o.filledQuantity < o.quantity ==> LiquidityCap(c, Offer(c, volume, context)) > 0)
  }

  /** The account pays for a buy, fee included; the label holds what is sold. */
  predicate CoveredBy(c: Config, s: State, o: OrderRow, price: real, quantity: int)
    requires c.accountId in s.accounts
  {
    if o.side == Buy then
      Gross(price, quantity) + FeeOf(Gross(price, quantity)) <= s.accounts[c.accountId].cash
    else
      quantity <= Trunc(Received(s.ledger, c.accountLabel, o.symbol)
                        - Sold(s.ledger, c.accountLabel, o.symbol))
  }

  lemma ExecuteDecides(c: Config, s: State, o: OrderRow, price: real, quantity: int)
    requires o.filledQuantity + quantity != 0 && o.id in s.orders
    ensures var (s', outcome) := Execute(c, s, o, price, quantity);
            && (outcome.Raised? <==> c.accountId !in s.accounts)
            && (outcome.Raised? ==> outcome == Raised(AccountMissing))
            && (!outcome.Raised? ==>
                  && (s'.ledger != s.ledger <==> CoveredBy(c, s, o, price, quantity))
                  && o.id in s'.orders
                  && (s'.orders[o.id].status == Rejected
                      <==> !CoveredBy(c, s, o, price, quantity)))
  {
    HoldingIsNet(s.ledger, c.accountLabel, o.symbol);
    hide Holding, Received, Sold, Gross, FeeOf, CashDelta, FillRow, NextAverage, Emit;
    assert s.ledger + [FillRow(c, o, price, quantity)] != s.ledger;
  }

  lemma AdmittedDecides(c: Config, s: State, o: OrderRow, market: real, volume: int)
    requires o.Consistent() && o.status in FILLABLE && o.limitPrice.Some? && o.id in s.orders
    ensures var (s', outcome) := SubmitAdmitted(c, s, o, o.limitPrice.value, market, volume);
            var (price, quantity) := Plan(c, o, market, volume);
            var wants := && Crosses(o.side, o.limitPrice.value, market) && volume > 0
                         && quantity != 0;
            && (outcome.Raised? <==> wants && c.accountId !in s.accounts)
            && (outcome.Raised? ==> outcome == Raised(AccountMissing))
            && (!outcome.Raised? ==>
                  && o.id in s'.orders
                  && (s'.ledger != s.ledger <==> wants && CoveredBy(c, s, o, price, quantity))
                  && (s'.orders[o.id].status == Rejected
                      <==> wants && !CoveredBy(c, s, o, price, quantity))
                  && (!wants ==> s' == Mark(s, o)))
  {
    var (price, quantity) := Plan(c, o, market, volume);
    if quantity != 0 {
      ExecuteDecides(c, Mark(s, o), o.(status := Submitted), price, quantity);
    }
    hide Execute, FillPrice, FillQuantity, Crosses, Received, Sold, Gross, FeeOf, Emit;
  }

  /** Every submit, of any order to any broker: it raises exactly for a reason, which is the one it
      names, or when it wants to fill and there is no account; it fills exactly when it wants to and
      the fill is covered; it is rejected exactly when it wants to and the fill is not; and a submit
      that does not want to fill only marks the order. */
  lemma SubmitDecides(s: State, step: Step)
    requires Sane(s) && Usable(step) && step.Submit? && step.id in s.orders
    ensures var (s', outcome) := Call(s, step);
            var c, o := step.config, s.orders[step.id];
            var wants := Wants(c, o, step.market, step.volume, step.context);
            && (Refused(c, o, step.market, step.context) ==>
                  && s' == s && outcome.Raised?
                  && Reason(c, o, step.market, step.context, outcome.error))
            && (!Refused(c, o, step.market, step.context) ==>
                  && o.limitPrice.Some?
                  && (outcome.Raised? <==> wants && c.accountId !in s.accounts)
                  && (outcome.Raised? ==> outcome == Raised(AccountMissing))
                  && (!outcome.Raised? ==>
                        var (price, quantity) :=
                          Plan(c, o, step.market, Offer(c, step.volume, step.context));
                        && step.id in s'.orders
                        && (s'.ledger != s.ledger
                            <==> wants && CoveredBy(c, s, o, price, quantity))
                        && (s'.orders[step.id].status == Rejected
                            <==> wants && !CoveredBy(c, s, o, price, quantity))
                        && (!wants ==>
                              && s'.orders == s.orders[step.id := o.(status := Submitted)]
                              && s'.accounts == s.accounts && s'.ledger == s.ledger)))
  {
    var c, o := step.config, s.orders[step.id];
    ScreenDecides(c, o, step.market, step.volume, step.context);
    if !Refused(c, o, step.market, step.context) && !Halted(c, step.context) {
      AdmittedDecides(c, s, o, step.market, Offer(c, step.volume, step.context));
    }
    hide Screen, SubmitAdmitted, Refused, Halted, Reason, Offer, LiquidityCap, FillPrice, CoveredBy;
  }

  // ---- What a submit announces ----

  function Keys(outbox: seq<EventKey>): set<EventKey> {
    set key | key in outbox
  }

  lemma EmitAdds(outbox: seq<EventKey>, key: EventKey)
    ensures Keys(Emit(outbox, key)) == Keys(outbox) + {key}
  {
  }

  /** The event that tells how an attempt to fill ended. */
  function Verdict(c: Config, s: State, o: OrderRow, price: real, quantity: int): EventKey
    requires c.accountId in s.accounts
  {
    if CoveredBy(c, s, o, price, quantity) then FillDone(o.id, o.filledQuantity + quantity)
    else if o.side == Buy then InsufficientCash(o.id)
    else InsufficientShares(o.id)
  }

  lemma ExecuteAnnounces(c: Config, s: State, o: OrderRow, price: real, quantity: int)
    requires o.filledQuantity + quantity != 0 && c.accountId in s.accounts
    ensures Keys(Execute(c, s, o, price, quantity).0.outbox)
         == Keys(s.outbox) + {Verdict(c, s, o, price, quantity)}
  {
    HoldingIsNet(s.ledger, c.accountLabel, o.symbol);
    EmitAdds(s.outbox, Verdict(c, s, o, price, quantity));
    hide Holding, Received, Sold, Gross, FeeOf, CashDelta, FillRow, NextAverage, Emit, Keys;
  }

  lemma AdmittedAnnounces(c: Config, s: State, o: OrderRow, market: real, volume: int)
    requires o.Consistent() && o.status in FILLABLE && o.limitPrice.Some?
    ensures var s' := SubmitAdmitted(c, s, o, o.limitPrice.value, market, volume).0;
            var (price, quantity) := Plan(c, o, market, volume);
            var wants := && Crosses(o.side, o.limitPrice.value, market) && volume > 0
                         && quantity != 0;
            Keys(s'.outbox)
              == Keys(s.outbox) + {OrderSubmitted(o.id)}
                 + if wants && c.accountId in s.accounts then {Verdict(c, s, o, price, quantity)}
                   else {}
  {
    var (price, quantity) := Plan(c, o, market, volume);
    EmitAdds(s.outbox, OrderSubmitted(o.id));
    if quantity != 0 && c.accountId in s.accounts {
      ExecuteAnnounces(c, Mark(s, o), o.(status := Submitted), price, quantity);
    }
    hide FillPrice, FillQuantity, Crosses, Received, Sold, Gross, FeeOf, Emit, Keys, RecordFill,
         HeldQuantity, Cost;
  }

  /** A submit that is not refused announces exactly this: nothing if the symbol does not trade; else
      the submission and, if it wants to fill and has an account, how that ended. */
  lemma SubmitAnnounces(s: State, step: Step)
    requires Sane(s) && Usable(step) && step.Submit? && step.id in s.orders
    requires !Refused(step.config, s.orders[step.id], step.market, step.context)
    ensures s.orders[step.id].limitPrice.Some?
    ensures var c, o := step.config, s.orders[step.id];
            var (price, quantity) := Plan(c, o, step.market, Offer(c, step.volume, step.context));
            Keys(Next(s, step).outbox)
              == Keys(s.outbox)
                 + (if Halted(c, step.context) then {} else {OrderSubmitted(step.id)})
                 + (if Wants(c, o, step.market, step.volume, step.context)
                       && c.accountId in s.accounts
                    then {Verdict(c, s, o, price, quantity)} else {})
  {
    var c, o := step.config, s.orders[step.id];
    ScreenDecides(c, o, step.market, step.volume, step.context);
    if !Halted(c, step.context) {
      AdmittedAnnounces(c, s, o, step.market, Offer(c, step.volume, step.context));
    }
    hide Screen, SubmitAdmitted, Refused, Halted, Reason, Offer, LiquidityCap, FillPrice, CoveredBy,
         Keys, Verdict;
  }

  // ---- What a fill books ----

  /** 0.4 percent of what is paid, to the nearest cent. */
  predicate FeeFor(fee: real, paid: real) {
    OnCentGrid(fee) && -0.005 <= fee - paid * 0.004 <= 0.005
  }

  /** s' is s with `quantity` shares of o filled at `price` for `fee` under the broker's label: one
      ledger row, and one account that pays or is paid. */
  predicate Settled(c: Config, s: State, o: OrderRow, s': State, price: real, quantity: int,
                    fee: real)
  {
    && s'.ledger
       == s.ledger + [Transaction(if o.side == Buy then BuyRow else SellRow, o.symbol,
                                  quantity as real, price, fee, 0.0, Some(c.accountLabel),
                                  Some(o.id))]
    && c.accountId in s.accounts
    && (var account, paid := s.accounts[c.accountId], Gross(price, quantity);
        s'.accounts
        == s.accounts[c.accountId :=
             account.(cash := if o.side == Buy then account.cash - paid - fee
                              else account.cash + paid - fee)])
  }

  lemma RecordSettles(c: Config, s: State, o: OrderRow, price: real, quantity: int)
    requires c.accountId in s.accounts && o.filledQuantity + quantity != 0
    ensures FeeFor(FeeOf(Gross(price, quantity)), Gross(price, quantity))
    ensures Settled(c, s, o, RecordFill(c, s, o, price, quantity), price, quantity,
                    FeeOf(Gross(price, quantity)))
  {
    ToCentsProperties(Gross(price, quantity) * FEE_RATE);
    hide Gross, ToCents, FilledOrder, Emit;
  }

  lemma RecordFills(c: Config, s: State, o: OrderRow, price: real, quantity: int)
    requires c.accountId in s.accounts && o.filledQuantity + quantity != 0
    ensures var s' := RecordFill(c, s, o, price, quantity);
            && o.id in s'.orders
            && s'.orders[o.id].filledQuantity == o.filledQuantity + quantity
            && s'.orders[o.id].status
               == (if o.filledQuantity + quantity == o.quantity then Filled else PartiallyFilled)
  {
    hide NextAverage, CashDelta, FillRow, Emit;
  }

  /** What every fill of every run books: the smaller of what remains and what liquidity allows, at
      the price that pays the slippage, with the fee on top of a purchase and off a sale. */
  lemma FillBooks(s: State, step: Step) returns (price: real, quantity: int, fee: real)
    requires Sane(s) && Usable(step) && step.Submit? && step.id in s.orders
    requires Next(s, step).ledger != s.ledger
    ensures var c, o, s' := step.config, s.orders[step.id], Next(s, step);
            var cap := LiquidityCap(c, Offer(c, step.volume, step.context));
            && o.limitPrice.Some?
            && PaysSlippage(c, o.side, o.limitPrice.value, step.market, price)
            && quantity == (if o.quantity - o.filledQuantity <= cap
                            then o.quantity - o.filledQuantity else cap)
            && FeeFor(fee, Gross(price, quantity)) && Settled(c, s, o, s', price, quantity, fee)
            && step.id in s'.orders
            && s'.orders[step.id].filledQuantity == o.filledQuantity + quantity
            && s'.orders[step.id].status
               == (if o.filledQuantity + quantity == o.quantity then Filled else PartiallyFilled)
  {
    var c, o := step.config, s.orders[step.id];
    ScreenDecides(c, o, step.market, step.volume, step.context);
    var booked, available := SubmitRecords(c, s, o, step.market, step.volume, step.context);
    hide SubmitOrder, Screen, LiquidityCap, FillPrice, PaysSlippage, Gross, FeeOf, RecordFill,
         Refused, Reason, Offer, Halted, Crosses;
    price, quantity := Plan(c, o, step.market, available).0, Plan(c, o, step.market, available).1;
    fee := FeeOf(Gross(price, quantity));
    SlippageIsPaid(c, o.side, o.limitPrice.value, step.market);
    RecordSettles(c, Mark(s, o), o.(status := Submitted), price, quantity);
    RecordFills(c, Mark(s, o), o.(status := Submitted), price, quantity);
  }

  // ---- Cancelling and replacing ----

  /** Cancelling an order that is not closed cancels it and touches nothing else; the order stays
      cancelled, with the fills it had, over every later run. Any other order raises. */
  lemma CancelIsFinal(s: State, id: OrderId, steps: seq<Step>)
    requires Inv(s) && id in s.orders && SoundRun(Next(s, Cancel(id)), steps)
    ensures var (s', outcome) := Call(s, Cancel(id));
            var o := s.orders[id];
            if o.status in {Filled, Cancelled, Expired, Rejected} then
              s' == s && outcome == Raised(NotCancellable)
            else
              && outcome == Done
              && s' == s.(orders := s.orders[id := o.(status := Cancelled)])
              && id in Run(s', steps).orders
              && Run(s', steps).orders[id] == o.(status := Cancelled)
              && FillsOf(Run(s', steps).ledger, id) == FillsOf(s.ledger, id)
  {
    if s.orders[id].status !in CLOSED {
      ClosedOrdersFrozen(Next(s, Cancel(id)), steps, id);
    }
  }

  /** Replacing is accepted exactly for orders without fills that are still open to it, and then
      the order waits for a new approval of exactly the new terms. */
  lemma ReplaceDecides(s: State, id: OrderId, quantity: int, limit: real)
    requires Inv(s) && id in s.orders
    ensures var (s', outcome) := Call(s, Replace(id, quantity, limit));
            var o := s.orders[id];
            if FillsOf(s.ledger, id) == []
               && o.status in {Proposed, AwaitingApproval, Approved, Submitted} then
              && outcome == Done
              && s' == s.(orders := s.orders[id := o.(quantity := quantity, limitPrice := Some(limit),
                                                      status := AwaitingApproval)])
            else s' == s && outcome == Raised(NotReplaceable)
  {
    assert OrderInv(s, id);
    if FillsOf(s.ledger, id) != [] {
      var fills := FillsOf(s.ledger, id);
      assert forall i :: 0 <= i < |fills| ==> FillFits(s.orders[id], fills[i]);
      TotalPositive(fills);
    }
  }

  // ---- Outside the broker ----

  /** s' is s with another status of order id. */
  predicate Restated(s: State, s': State, id: OrderId, status: Status) {
    id in s.orders && s' == s.(orders := s.orders[id := s.orders[id].(status := status)])
  }

  /** A review approves a waiting order exactly if the provider is trusted and no rule is violated by
      what is reviewed, and refuses it otherwise; it does nothing to any other order. */
  lemma ReviewDecides(s: State, step: Step)
    requires Sane(s) && Usable(step) && step.Review?
    ensures var s' := Next(s, step);
            if step.id in s.orders && s.orders[step.id].status == AwaitingApproval then
              Restated(s, s', step.id,
                       if step.trusted
                          && forall c :: !RiskEngine.Violated(c, step.limits, step.proposal, step.inputs)
                       then Approved else RiskRejected)
            else s' == s
  {
    hide RiskEngine.Violated;
  }

  lemma OpenOrClosed(status: Status)
    ensures status in ACTIVE
       <==> status !in {Filled, Cancelled, Expired, Rejected, RiskRejected}
  {
    match status
    case Proposed =>
    case AwaitingApproval =>
    case Approved =>
    case Submitted =>
    case PartiallyFilled =>
    case _ =>
  }

  /** An owner can refuse an order that waits, and an order that is not closed can expire. */
  lemma ClosingDecides(s: State, step: Step)
    requires Sane(s) && Usable(step) && (step.Decline? || step.Expire?)
    ensures var s' := Next(s, step);
            if step.id !in s.orders then s' == s
            else
              var status := s.orders[step.id].status;
              if step.Decline? then
                if status == AwaitingApproval then Restated(s, s', step.id, Rejected) else s' == s
              else if status in {Filled, Cancelled, Expired, Rejected, RiskRejected} then s' == s
              else Restated(s, s', step.id, Expired)
  {
    if step.id in s.orders {
      OpenOrClosed(s.orders[step.id].status);
    }
  }

  /** A proposal enters under a free key, to wait if the gate accepts it; a placed order enters
      approved without the gate, as a limit order for a positive quantity. */
  lemma PlaceDecides(s: State, step: Step)
    requires Sane(s) && Usable(step) && (step.Propose? || step.Place?)
    ensures var s', id := Next(s, step), step.id;
            var vacant := id !in s.orders
                          && forall k :: k in s.orders ==>
                               s.orders[k].idempotencyKey != step.idempotencyKey;
            if !vacant || (step.Place? && step.quantity <= 0) then s' == s
            else
              && id in s'.orders && s'.orders == s.orders[id := s'.orders[id]]
              && var o := s'.orders[id];
                 && o.idempotencyKey == step.idempotencyKey && o.side == step.side
                 && o.filledQuantity == 0 && o.averageFillPrice == None
                 && (step.Place? ==>
                       && o.status == Approved && o.orderType == Limit && o.symbol == step.symbol
                       && o.quantity == step.quantity && o.limitPrice == Some(step.limit))
                 && (step.Propose? ==>
                       && o.orderType == step.orderType && o.symbol == step.proposal.symbol
                       && o.quantity == step.proposal.quantity
                       && o.limitPrice == step.proposal.limitPrice
                       && o.status
                          == if step.trusted && RiskEngine.Approves(step.limits, step.proposal, step.inputs)
                             then AwaitingApproval else RiskRejected)
  {
  }

  // ---- Whose keys are whose ----

  function DigitsOf(digits: string): int {
    if digits == "" then 0
    else 10 * DigitsOf(digits[..|digits| - 1]) + (digits[|digits| - 1] as int - '0' as int)
  }

  /** The number that a decimal numeral stands for. */
  function Number(numeral: string): int {
    if numeral != "" && numeral[0] == '-' then -DigitsOf(numeral[1..]) else DigitsOf(numeral)
  }

  lemma {:induction false} NaturalNumeral(n: nat)
    ensures Digits(n) != "" && DigitsOf(Digits(n)) == n
    ensures forall i :: 0 <= i < |Digits(n)| ==> '0' <= Digits(n)[i] <= '9'
  {
    var all := "0123456789";
    assert all[n % 10] as int - '0' as int == n % 10;
    if n < 10 {
      assert Digits(n)[..0] == "";
    } else {
      NaturalNumeral(n / 10);
      assert Digits(n)[..|Digits(n)| - 1] == Digits(n / 10);
    }
  }

  lemma NegativeNumeral(digits: string)
    ensures Number("-" + digits) == -DigitsOf(digits)
  {
    assert ("-" + digits)[1..] == digits;
    hide DigitsOf;
  }

  lemma NaturalNumber(digits: string)
    requires forall i :: 0 <= i < |digits| ==> '0' <= digits[i] <= '9'
    ensures Number(digits) == DigitsOf(digits) && ':' !in digits && ':' !in "-" + digits
  {
    hide DigitsOf;
  }

  /** Account ids are written in decimal: a numeral stands for its number. */
  lemma {:induction false} NumeralRoundTrip(n: int)
    ensures Number(Digits(n)) == n && ':' !in Digits(n)
  {
    assert n < 0 ==> Digits(n) == "-" + Digits(-n);
    hide Digits, DigitsOf, Number;
    var m := if n < 0 then -n else n;
    NaturalNumeral(m);
    NaturalNumber(Digits(m));
    NegativeNumeral(Digits(m));
  }

  lemma SamePrefix(a: string, b: string, key: string)
    requires ':' !in a && ':' !in b && a + ":" <= key && b + ":" <= key
    ensures a == b
  {
    assert key[|a|] == (a + ":")[|a|] == ':' && key[|b|] == (b + ":")[|b|] == ':';
    assert a == (a + ":")[..|a|] == key[..|a|];
    assert b == (b + ":")[..|b|] == key[..|b|];
  }

  /** No order key is in the scope of two forward accounts: account 1 does not answer for the keys
      of account 10. */
  lemma KeyScopesAreDisjoint(a: int, b: int, key: string)
    requires KeyPrefix(a) <= key && KeyPrefix(b) <= key
    ensures a == b
  {
    NumeralRoundTrip(a);
    NumeralRoundTrip(b);
    hide Digits, Number;
    assert KeyPrefix(a)[3..] == Digits(a) + ":" && KeyPrefix(b)[3..] == Digits(b) + ":";
    SamePrefix(Digits(a), Digits(b), key[3..]);
  }

  /** Two orders under one key make the report of the account that the key names unhealthy, and
      account 1's, which answers for all keys, but no other account's. */
  lemma DuplicatesAreReported(s: State, a: int, owner: string, x: OrderId, y: OrderId, n: int)
    requires a in s.accounts && x in s.orders && y in s.orders && x != y
    requires s.orders[x].idempotencyKey == s.orders[y].idempotencyKey
    requires KeyPrefix(n) <= s.orders[x].idempotencyKey
    ensures a == n || a == 1 ==>
              !ReportFor(s, a, owner).healthy && ReportFor(s, a, owner).duplicateOrders
    ensures a != n && a != 1
            && (forall v, w :: v in s.orders && w in s.orders && v != w
                               && s.orders[v].idempotencyKey == s.orders[w].idempotencyKey ==>
                  s.orders[v].idempotencyKey == s.orders[x].idempotencyKey) ==>
              !ReportFor(s, a, owner).duplicateOrders
  {
    if KeyPrefix(a) <= s.orders[x].idempotencyKey {
      KeyScopesAreDisjoint(a, n, s.orders[x].idempotencyKey);
    }
    hide KeyPrefix, NetCash;
  }
}
