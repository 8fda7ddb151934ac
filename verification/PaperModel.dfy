/** backend/app/brokers/paper.py on values: what one broker call does to the stored orders,
    accounts, transaction ledger and outbox. The classes of PaperBroker are proved to do
    exactly this, and the properties of runs are proved about these functions. */
module PaperModel {
  import opened Common
  import opened Decimals
  import opened DseExecution

  type OrderId = string

  datatype Side = Buy | Sell

  datatype OrderType = Limit | Stop | StopLimit | TrailingStop | Market

  datatype Status =
    | Proposed | AwaitingApproval | Approved | Submitted | PartiallyFilled
    | Filled | Cancelled | Expired | Rejected | RiskRejected

  datatype OrderRow = OrderRow(
    id: OrderId,
    idempotencyKey: string,
    symbol: string,
    side: Side,
    orderType: OrderType,
    quantity: int,
    limitPrice: Option<real>,
    status: Status,
    filledQuantity: int,
    averageFillPrice: Option<real>)
  {
    /** Never overfilled. A replacement may set any quantity, but only on an unfilled order. */
    predicate Consistent() {
      filledQuantity == 0 || 0 < filledQuantity <= quantity
    }
  }

  datatype AccountRow = AccountRow(cash: real, startingCash: real)

  datatype Kind =
    | BuyRow | SellRow | Dividend | Bonus | Split | Rights | FeeRow | TaxRow | Adjustment
    | CashBalance

  datatype Transaction = Transaction(
    kind: Kind,
    symbol: string,
    quantity: real,
    price: real,
    fees: real,
    taxes: real,
    accountLabel: Option<string>,
    orderId: Option<OrderId>)
  {
    function Value(): real {
      Amount(price, quantity)
    }
  }

  /** Idempotency keys of the outbox, one constructor for each format string. */
  datatype EventKey =
    | OrderSubmitted(id: OrderId)
    | InsufficientCash(id: OrderId)
    | InsufficientShares(id: OrderId)
    | FillDone(id: OrderId, filledQuantity: int)
    | Reconciled(accountId: int, transactions: nat, cash: real)

  datatype State = State(
    orders: map<OrderId, OrderRow>,
    accounts: map<int, AccountRow>,
    ledger: seq<Transaction>,
    outbox: seq<EventKey>)

  /** The constructor arguments of `PaperBroker`. */
  datatype Config = Config(
    participationRate: real,
    slippagePercent: real,
    fillModel: string,
    rules: Option<Rules>,
    accountId: int,
    accountLabel: string)
  {
    predicate Valid() {
      rules.Some? ==> TicksPositive(rules.value.tickSizes)
    }
  }

  datatype Error =
    | NotFillable | MarketOrdersDisabled | LimitRequired | AtLimitUp | AtLimitDown
    | BelowMinimumLiquidity | UnsettledShares | UnknownFillMode | AccountMissing
    | NotCancellable | NotReplaceable

  datatype Outcome = Done | Raised(error: Error)

  const FILLABLE := {Approved, Submitted, PartiallyFilled}
  const CLOSED := {Filled, Cancelled, Expired, Rejected}
  const REPLACEABLE := {Proposed, AwaitingApproval, Approved, Submitted}
  const FEE_RATE := 0.004

  // ---- Outbox ----

  /** `emit_event`: an existing key is returned as it is, a new one is appended. */
  function Emit(outbox: seq<EventKey>, key: EventKey): seq<EventKey> {
    if key in outbox then outbox else outbox + [key]
  }

  // ---- Submitting ----

  datatype Admission = Refuse(error: Error) | Skip | Admit(volume: int)

  /** The checks in front of the first write, and the volume the order may draw on. */
  function Screen(c: Config, o: OrderRow, market: real, volume: int, context: Option<Context>)
    : Admission
    requires c.Valid()
  {
    if o.status !in FILLABLE then Refuse(NotFillable)
    else if o.orderType == Market then Refuse(MarketOrdersDisabled)
    else if o.limitPrice == None then Refuse(LimitRequired)
    else if context.None? || c.rules.None? then Admit(volume)
    else
      var x, rules := context.value, c.rules.value;
      var (lower, upper) := Band(rules, x.previousClose);
      if x.suspended || x.noTrade then Skip
      else if o.side == Buy && market >= upper then Refuse(AtLimitUp)
      else if o.side == Sell && market <= lower then Refuse(AtLimitDown)
      else if x.availableVolume < rules.minimumLiquidity then Refuse(BelowMinimumLiquidity)
      else if && o.side == Sell
              && x.settledQuantity.Some?
              && x.settledQuantity.value < o.quantity - o.filledQuantity
        then Refuse(UnsettledShares)
      else
        match FillableVolume(rules, x, c.fillModel)
        case None => Refuse(UnknownFillMode)
        case Some(v) => Admit(v)
  }

  predicate Crosses(side: Side, limit: real, market: real) {
    if side == Buy then limit >= market else limit <= market
  }

  function LiquidityCap(c: Config, volume: int): nat {
    Max0(Trunc(Portion(volume as real, c.participationRate)))
  }

  function FillQuantity(c: Config, o: OrderRow, volume: int): int {
    var remaining := o.quantity - o.filledQuantity;
    if remaining <= LiquidityCap(c, volume) then remaining else LiquidityCap(c, volume)
  }

  function Slippage(c: Config, market: real): real {
    market * c.slippagePercent / 100.0
  }

  function Simulated(c: Config, side: Side, market: real): real {
    if side == Buy then market + Slippage(c, market) else market - Slippage(c, market)
  }

  function Clamped(side: Side, price: real, limit: real): real {
    if side == Buy then (if price <= limit then price else limit)
    else (if price >= limit then price else limit)
  }

  function FillPrice(c: Config, side: Side, limit: real, market: real): real {
    ToCents(Clamped(side, Simulated(c, side, market), limit))
  }

  /** Price times number of shares. */
  function Amount(price: real, shares: real): real {
    price * shares
  }

  function Gross(price: real, quantity: int): real {
    Amount(price, quantity as real)
  }

  function FeeOf(gross: real): real {
    ToCents(gross * FEE_RATE)
  }

  /** What a buy needs in cash. */
  function Cost(price: real, quantity: int): real {
    Gross(price, quantity) + FeeOf(Gross(price, quantity))
  }

  /** What a fill does to the cash balance. */
  function CashDelta(side: Side, price: real, quantity: int): real {
    if side == Buy then -Cost(price, quantity)
    else Gross(price, quantity) - FeeOf(Gross(price, quantity))
  }

  /** The stored average after one more fill, truncated to the cent. */
  function NextAverage(average: Option<real>, filled: int, price: real, quantity: int): real
    requires filled + quantity != 0
  {
    Averaged(if average.Some? then average.value else 0.0, filled as real, price, quantity as real)
  }

  function Averaged(previous: real, filled: real, price: real, quantity: real): real
    requires filled + quantity != 0.0
  {
    DownCents((Amount(previous, filled) + Amount(price, quantity)) / (filled + quantity))
  }

  function FillRow(c: Config, o: OrderRow, price: real, quantity: int): Transaction {
    Transaction(if o.side == Buy then BuyRow else SellRow, o.symbol, quantity as real, price,
                FeeOf(Gross(price, quantity)), 0.0, Some(c.accountLabel), Some(o.id))
  }

  function FilledOrder(o: OrderRow, price: real, quantity: int): OrderRow
    requires o.filledQuantity + quantity != 0
  {
    var filled := o.filledQuantity + quantity;
    o.(filledQuantity := filled,
       averageFillPrice := Some(NextAverage(o.averageFillPrice, o.filledQuantity, price, quantity)),
       status := if filled == o.quantity then Filled else PartiallyFilled)
  }

  function SetOrder(s: State, o: OrderRow): State {
    s.(orders := s.orders[o.id := o])
  }

  function RecordFill(c: Config, s: State, o: OrderRow, price: real, quantity: int): State
    requires c.accountId in s.accounts
    requires o.filledQuantity + quantity != 0
  {
    var account := s.accounts[c.accountId];
    var o' := FilledOrder(o, price, quantity);
    State(
      s.orders[o.id := o'],
      s.accounts[c.accountId :=
        account.(cash := account.cash + CashDelta(o.side, price, quantity))],
      s.ledger + [FillRow(c, o, price, quantity)],
      Emit(s.outbox, FillDone(o.id, o'.filledQuantity)))
  }

  function Reject(s: State, o: OrderRow, key: EventKey): State {
    SetOrder(s, o.(status := Rejected)).(outbox := Emit(s.outbox, key))
  }

  /** The part of `submit_order` behind the liquidity cap. */
  function Execute(c: Config, s: State, o: OrderRow, price: real, quantity: int)
    : (State, Outcome)
    requires o.filledQuantity + quantity != 0
  {
    if c.accountId !in s.accounts then (s, Raised(AccountMissing))
    else if o.side == Buy && s.accounts[c.accountId].cash < Cost(price, quantity)
      then (Reject(s, o, InsufficientCash(o.id)), Done)
    else if o.side == Sell && HeldQuantity(s.ledger, c.accountLabel, o.symbol) < quantity
      then (Reject(s, o, InsufficientShares(o.id)), Done)
    else (RecordFill(c, s, o, price, quantity), Done)
  }

  /** `PaperBroker.submit_order`. A raising call keeps what it had written: that is nothing,
      except when the account turns out to be missing after the order was marked. */
  function SubmitOrder(c: Config, s: State, o: OrderRow, market: real, volume: int,
                       context: Option<Context>): (State, Outcome)
    requires c.Valid() && (o.status in FILLABLE ==> o.Consistent())
  {
    match Screen(c, o, market, volume, context)
    case Refuse(e) => (s, Raised(e))
    case Skip => (SetOrder(s, o.(status := Submitted)), Done)
    case Admit(v) => SubmitAdmitted(c, s, o, o.limitPrice.value, market, v)
  }

  /** The order is marked as submitted before anything else is looked at. */
  function Mark(s: State, o: OrderRow): State {
    SetOrder(s, o.(status := Submitted)).(outbox := Emit(s.outbox, OrderSubmitted(o.id)))
  }

  function SubmitAdmitted(c: Config, s: State, o: OrderRow, limit: real, market: real,
                          volume: int): (State, Outcome)
    requires o.Consistent()
  {
    var quantity := FillQuantity(c, o, volume);
    if !Crosses(o.side, limit, market) || volume <= 0 || quantity == 0 then (Mark(s, o), Done)
    else
      Execute(c, Mark(s, o), o.(status := Submitted), FillPrice(c, o.side, limit, market), quantity)
  }

  // ---- Cancelling and replacing ----

  function CancelOrder(s: State, o: OrderRow): (State, Outcome) {
    if o.status in CLOSED then (s, Raised(NotCancellable))
    else (SetOrder(s, o.(status := Cancelled)), Done)
  }

  function ReplaceOrder(s: State, o: OrderRow, quantity: int, limit: real): (State, Outcome) {
    if o.filledQuantity != 0 || o.status !in REPLACEABLE then (s, Raised(NotReplaceable))
    else (SetOrder(s, o.(quantity := quantity, limitPrice := Some(limit),
                         status := AwaitingApproval)), Done)
  }

  // ---- Reading the ledger ----

  function HeldChange(tx: Transaction, owner: string, symbol: string): real {
    if tx.symbol != symbol || tx.accountLabel != Some(owner) then 0.0
    else if tx.kind in {BuyRow, Rights, Bonus} then tx.quantity
    else if tx.kind == SellRow then -tx.quantity
    else 0.0
  }

  function Holding(ledger: seq<Transaction>, owner: string, symbol: string): real {
    if ledger == [] then 0.0
    else
      Holding(ledger[..|ledger| - 1], owner, symbol)
      + HeldChange(ledger[|ledger| - 1], owner, symbol)
  }

  function HeldQuantity(ledger: seq<Transaction>, owner: string, symbol: string): int {
    Trunc(Holding(ledger, owner, symbol))
  }

  /** Which ledger rows `reconcile` reads: account 1 owns the unlabelled and the two shared
      labels, any other account the rows carrying the broker's own label. */
  predicate Counted(accountId: int, owner: string, tx: Transaction) {
    if accountId != 1 then tx.accountLabel == Some(owner)
    else tx.accountLabel in {None, Some("paper"), Some("simulation")}
  }

  function CashChange(tx: Transaction): real {
    match tx.kind
    case BuyRow => -(tx.Value() + tx.fees + tx.taxes)
    case Rights => -(tx.Value() + tx.fees + tx.taxes)
    case SellRow => tx.Value() - tx.fees - tx.taxes
    case Dividend => if tx.quantity == 0.0 then tx.price else tx.Value()
    case FeeRow => -(if tx.fees != 0.0 then tx.fees else tx.price)
    case TaxRow => -(if tx.taxes != 0.0 then tx.taxes else tx.price)
    case Adjustment => tx.price
    case Bonus => 0.0
    case Split => 0.0
    case CashBalance => 0.0
  }

  /** Net effect of the counted rows on cash. */
  function NetCash(ledger: seq<Transaction>, accountId: int, owner: string): real {
    if ledger == [] then 0.0
    else
      var last := ledger[|ledger| - 1];
      NetCash(ledger[..|ledger| - 1], accountId, owner)
      + if Counted(accountId, owner, last) then CashChange(last) else 0.0
  }

  function CountedRows(ledger: seq<Transaction>, accountId: int, owner: string): nat {
    if ledger == [] then 0
    else
      CountedRows(ledger[..|ledger| - 1], accountId, owner)
      + if Counted(accountId, owner, ledger[|ledger| - 1]) then 1 else 0
  }

  // ---- Reconciling ----

  datatype Report = Report(
    healthy: bool,
    cash: real,
    derivedCash: real,
    duplicateOrders: bool,
    cashReconciled: bool)

  /** `f"fv:{account_id}:"`, the prefix of one forward account's order keys. */
  function KeyPrefix(accountId: int): string {
    "fv:" + Digits(accountId) + ":"
  }

  function Digits(n: int): string
    decreases n < 0, if n < 0 then -n else n
  {
    if n < 0 then "-" + Digits(-n)
    else if n < 10 then ["0123456789"[n]]
    else Digits(n / 10) + ["0123456789"[n % 10]]
  }

  predicate InKeyScope(accountId: int, key: string) {
    accountId == 1 || KeyPrefix(accountId) <= key
  }

  predicate HasDuplicateKeys(orders: map<OrderId, OrderRow>, accountId: int) {
    exists a, b :: && a in orders && b in orders && a != b
                   && orders[a].idempotencyKey == orders[b].idempotencyKey
                   && InKeyScope(accountId, orders[a].idempotencyKey)
  }

  function ReportFor(s: State, accountId: int, owner: string): Report
    requires accountId in s.accounts
  {
    var account := s.accounts[accountId];
    var derived := account.startingCash + NetCash(s.ledger, accountId, owner);
    var gap := account.cash - derived;
    var reconciled := -0.01 <= gap <= 0.01;
    var duplicates := HasDuplicateKeys(s.orders, accountId);
    Report(!duplicates && account.cash >= 0.0 && reconciled,
           account.cash, derived, duplicates, reconciled)
  }

  function Reconcile(c: Config, s: State): (State, Outcome) {
    if c.accountId !in s.accounts then (s, Raised(AccountMissing))
    else
      var rows := CountedRows(s.ledger, c.accountId, c.accountLabel);
      var key := Reconciled(c.accountId, rows, s.accounts[c.accountId].cash);
      (s.(outbox := Emit(s.outbox, key)), Done)
  }

  function ResetAccount(c: Config, s: State, startingCash: real): (State, Outcome) {
    if c.accountId !in s.accounts then (s, Raised(AccountMissing))
    else (s.(accounts := s.accounts[c.accountId := AccountRow(startingCash, startingCash)]), Done)
  }
}
