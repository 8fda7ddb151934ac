/** backend/app/brokers/paper.py in its own form: order and account objects that the broker
    updates in place, over one store. Each method is proved to do what its function in
    PaperModel says. */
module PaperBroker {
  import opened Common
  import opened Decimals
  import opened DseExecution
  import opened PaperModel

  class Order {
    const id: OrderId
    const idempotencyKey: string
    const symbol: string
    const side: Side
    const orderType: OrderType
    var quantity: int
    var limitPrice: Option<real>
    var status: Status
    var filledQuantity: int
    var averageFillPrice: Option<real>

    constructor (row: OrderRow)
      ensures Row() == row
    {
      id, idempotencyKey, symbol := row.id, row.idempotencyKey, row.symbol;
      side, orderType := row.side, row.orderType;
      quantity, limitPrice, status := row.quantity, row.limitPrice, row.status;
      filledQuantity, averageFillPrice := row.filledQuantity, row.averageFillPrice;
    }

    /** Filled quantity, average and status after one more fill. */
    method Fill(fillPrice: real, fillQuantity: int)
      requires filledQuantity + fillQuantity != 0
      modifies this
      ensures Row() == FilledOrder(old(Row()), fillPrice, fillQuantity)
    {
      var oldFilled := filledQuantity;
      var previous := if averageFillPrice.Some? then averageFillPrice.value else 0.0;
      var totalCost := Amount(previous, oldFilled as real) + Amount(fillPrice, fillQuantity as real);
      filledQuantity := filledQuantity + fillQuantity;
      averageFillPrice := Some(DownCents(totalCost / filledQuantity as real));
      status := if filledQuantity == quantity then Filled else PartiallyFilled;
    }

    function Row(): OrderRow
      reads this
    {
      OrderRow(id, idempotencyKey, symbol, side, orderType, quantity, limitPrice, status,
               filledQuantity, averageFillPrice)
    }
  }

  class PaperAccount {
    const id: int
    var cash: real
    var startingCash: real

    constructor (id: int, startingCash: real)
      ensures this.id == id && Row() == AccountRow(startingCash, startingCash)
    {
      this.id, this.cash, this.startingCash := id, startingCash, startingCash;
    }

    function Row(): AccountRow
      reads this
    {
      AccountRow(cash, startingCash)
    }
  }

  /** The session: every stored object under its primary key. */
  class Database {
    var orders: map<OrderId, Order>
    var accounts: map<int, PaperAccount>
    var ledger: seq<Transaction>
    var outbox: seq<EventKey>

    ghost predicate Valid()
      reads this
    {
      && (forall id :: id in orders ==> orders[id].id == id)
      && (forall id :: id in accounts ==> accounts[id].id == id)
    }

    function OrderRows(): map<OrderId, OrderRow>
      reads this`orders, orders.Values
    {
      map id | id in orders :: orders[id].Row()
    }

    ghost function AccountRows(): map<int, AccountRow>
      reads this`accounts, accounts.Values
    {
      map id | id in accounts :: accounts[id].Row()
    }

    ghost function View(): State
      reads this, orders.Values, accounts.Values
    {
      State(OrderRows(), AccountRows(), ledger, outbox)
    }

    ghost predicate Stores(order: Order)
      reads this
    {
      order.id in orders && orders[order.id] == order
    }

    /** Writing one order changes one row. */
    twostate lemma OrderWritten(order: Order)
      requires Valid() && Stores(order) && orders == old(orders)
      requires forall id :: id in orders && orders[id] != order ==> unchanged(orders[id])
      ensures OrderRows() == old(OrderRows())[order.id := order.Row()]
    {
    }

    twostate lemma AccountWritten(account: PaperAccount)
      requires Valid() && accounts == old(accounts)
      requires account.id in accounts && accounts[account.id] == account
      requires forall id :: id in accounts && accounts[id] != account ==> unchanged(accounts[id])
      ensures AccountRows() == old(AccountRows())[account.id := account.Row()]
    {
      forall id | id in accounts && id != account.id
        ensures accounts[id].Row() == old(accounts[id].Row())
      {
        assert accounts[id].id != account.id;
      }
    }

    constructor ()
      ensures Valid() && View() == State(map[], map[], [], [])
    {
      orders, accounts, ledger, outbox := map[], map[], [], [];
    }

    method EmitEvent(key: EventKey)
      modifies this`outbox
      ensures outbox == Emit(old(outbox), key)
    {
      if key !in outbox {
        outbox := outbox + [key];
      }
    }
  }

  class Broker {
    const db: Database
    const config: Config

    constructor (db: Database, config: Config)
      ensures this.db == db && this.config == config
    {
      this.db, this.config := db, config;
    }

    /** `_held_quantity`: one pass over the label's rows of the symbol. */
    method HeldQuantity(symbol: string) returns (held: int)
      ensures held == PaperModel.HeldQuantity(db.ledger, config.accountLabel, symbol)
    {
      var total := 0.0;
      var n := |db.ledger|;
      for i := 0 to n
        invariant total == Holding(db.ledger[..i], config.accountLabel, symbol)
      {
        var tx := db.ledger[i];
        assert db.ledger[..i + 1][..i] == db.ledger[..i];
        if tx.symbol == symbol && tx.accountLabel == Some(config.accountLabel) {
          if tx.kind in {BuyRow, Rights, Bonus} {
            total := total + tx.quantity;
          } else if tx.kind == SellRow {
            total := total - tx.quantity;
          }
        }
      }
      assert db.ledger[..n] == db.ledger;
      held := Trunc(total);
    }

    /** The checks of `submit_order` in front of its first write, in their order. */
    method ScreenOrder(order: Order, marketPrice: real, availableVolume: int,
                       context: Option<Context>) returns (a: Admission)
      requires config.Valid()
      ensures a == Screen(config, order.Row(), marketPrice, availableVolume, context)
    {
      if order.status !in FILLABLE {
        return Refuse(NotFillable);
      }
      if order.orderType == Market {
        return Refuse(MarketOrdersDisabled);
      }
      if order.limitPrice == None {
        return Refuse(LimitRequired);
      }
      var volume := availableVolume;
      if context.Some? && config.rules.Some? {
        var x, rules := context.value, config.rules.value;
        if x.suspended || x.noTrade {
          return Skip;
        }
        var (lower, upper) := Band(rules, x.previousClose);
        if order.side == Buy && marketPrice >= upper {
          return Refuse(AtLimitUp);
        }
        if order.side == Sell && marketPrice <= lower {
          return Refuse(AtLimitDown);
        }
        if x.availableVolume < rules.minimumLiquidity {
          return Refuse(BelowMinimumLiquidity);
        }
        if && order.side == Sell
           && x.settledQuantity.Some?
           && x.settledQuantity.value < order.quantity - order.filledQuantity {
          return Refuse(UnsettledShares);
        }
        match FillableVolume(rules, x, config.fillModel) {
          case None => return Refuse(UnknownFillMode);
          case Some(v) => volume := v;
        }
      }
      return Admit(volume);
    }

    method SubmitOrder(order: Order, marketPrice: real, availableVolume: int,
                       context: Option<Context>) returns (outcome: Outcome)
      requires config.Valid() && db.Valid() && db.Stores(order)
      requires order.status in FILLABLE ==> order.Row().Consistent()
      modifies db`ledger, db`outbox, order, db.accounts.Values
      ensures db.Valid()
      ensures (db.View(), outcome)
           == PaperModel.SubmitOrder(config, old(db.View()), old(order.Row()),
                                     marketPrice, availableVolume, context)
    {
      var admission := ScreenOrder(order, marketPrice, availableVolume, context);
      match admission
      case Refuse(e) =>
        outcome := Raised(e);
      case Skip =>
        order.status := Submitted;
        db.OrderWritten(order);
        outcome := Done;
      case Admit(volume) =>
        outcome := SubmitAdmitted(order, order.limitPrice.value, marketPrice, volume);
    }

    /** The rest of `submit_order`: mark, cross, cap by liquidity, fill. */
    method SubmitAdmitted(order: Order, limit: real, marketPrice: real, volume: int)
      returns (outcome: Outcome)
      requires db.Valid() && db.Stores(order)
      requires order.Row().Consistent()
      modifies db`ledger, db`outbox, order, db.accounts.Values
      ensures db.Valid()
      ensures (db.View(), outcome)
           == PaperModel.SubmitAdmitted(config, old(db.View()), old(order.Row()),
                                        limit, marketPrice, volume)
    {
      hide Execute, FillPrice, LiquidityCap, Crosses;
      order.status := Submitted;
      db.OrderWritten(order);
      db.EmitEvent(OrderSubmitted(order.id));
      assert db.View() == Mark(old(db.View()), old(order.Row()));
      if !Crosses(order.side, limit, marketPrice) || volume <= 0 {
        return Done;
      }
      var remaining := order.quantity - order.filledQuantity;
      var liquidityCap := LiquidityCap(config, volume);
      var fillQuantity := if remaining <= liquidityCap then remaining else liquidityCap;
      if fillQuantity == 0 {
        return Done;
      }
      var fillPrice := FillPrice(config, order.side, limit, marketPrice);
      outcome := Fill(order, fillPrice, fillQuantity);
    }

    /** The cash and share checks, and the fill itself. */
    method Fill(order: Order, fillPrice: real, fillQuantity: int) returns (outcome: Outcome)
      requires db.Valid() && db.Stores(order)
      requires order.filledQuantity + fillQuantity != 0
      modifies db`ledger, db`outbox, order, db.accounts.Values
      ensures db.Valid()
      ensures (db.View(), outcome)
           == Execute(config, old(db.View()), old(order.Row()), fillPrice, fillQuantity)
    {
      hide PaperModel.RecordFill, PaperModel.HeldQuantity, FeeOf, Gross;
      if config.accountId !in db.accounts {
        return Raised(AccountMissing);
      }
      var account := db.accounts[config.accountId];
      var gross := Gross(fillPrice, fillQuantity);
      var fee := FeeOf(gross);
      if order.side == Buy && account.cash < gross + fee {
        order.status := Rejected;
        db.EmitEvent(InsufficientCash(order.id));
        db.OrderWritten(order);
        return Done;
      }
      if order.side == Sell {
        var held := HeldQuantity(order.symbol);
        if held < fillQuantity {
          order.status := Rejected;
          db.EmitEvent(InsufficientShares(order.id));
          db.OrderWritten(order);
          return Done;
        }
      }
      RecordFill(order, account, fillPrice, fillQuantity);
      return Done;
    }

    /** Cash, order, ledger and outbox after an accepted fill. */
    method RecordFill(order: Order, account: PaperAccount, fillPrice: real, fillQuantity: int)
      requires db.Valid() && db.Stores(order)
      requires config.accountId in db.accounts && db.accounts[config.accountId] == account
      requires order.filledQuantity + fillQuantity != 0
      modifies db`ledger, db`outbox, order, account
      ensures db.Valid()
      ensures db.View() == PaperModel.RecordFill(config, old(db.View()), old(order.Row()),
                                                 fillPrice, fillQuantity)
    {
      hide FilledOrder, FeeOf, Gross;
      var gross := Gross(fillPrice, fillQuantity);
      var fee := FeeOf(gross);
      account.cash := account.cash + if order.side == Buy then -(gross + fee) else gross - fee;
      order.Fill(fillPrice, fillQuantity);
      var row := Transaction(if order.side == Buy then BuyRow else SellRow, order.symbol,
                             fillQuantity as real, fillPrice, fee, 0.0,
                             Some(config.accountLabel), Some(order.id));
      db.ledger := db.ledger + [row];
      db.EmitEvent(FillDone(order.id, order.filledQuantity));
      db.OrderWritten(order);
      db.AccountWritten(account);
    }

    method CancelOrder(order: Order) returns (outcome: Outcome)
      requires db.Valid() && db.Stores(order)
      modifies order
      ensures db.Valid()
      ensures (db.View(), outcome)
           == PaperModel.CancelOrder(old(db.View()), old(order.Row()))
    {
      if order.status in CLOSED {
        return Raised(NotCancellable);
      }
      order.status := Cancelled;
      db.OrderWritten(order);
      return Done;
    }

    method ReplaceOrder(order: Order, quantity: int, limitPrice: real)
      returns (outcome: Outcome)
      requires db.Valid() && db.Stores(order)
      modifies order
      ensures db.Valid()
      ensures (db.View(), outcome)
           == PaperModel.ReplaceOrder(old(db.View()), old(order.Row()), quantity, limitPrice)
    {
      if order.filledQuantity != 0 || order.status !in REPLACEABLE {
        return Raised(NotReplaceable);
      }
      order.quantity, order.limitPrice, order.status := quantity, Some(limitPrice), AwaitingApproval;
      db.OrderWritten(order);
      return Done;
    }

    /** One round of the reconciliation loop. */
    method Account(cash: real, t: Transaction) returns (derivedCash: real)
      ensures derivedCash == cash + CashChange(t)
    {
      derivedCash := cash;
      match t.kind
      case BuyRow => derivedCash := derivedCash - (t.Value() + t.fees + t.taxes);
      case Rights => derivedCash := derivedCash - (t.Value() + t.fees + t.taxes);
      case SellRow => derivedCash := derivedCash + (t.Value() - t.fees - t.taxes);
      case Dividend =>
        derivedCash := derivedCash + if t.quantity == 0.0 then t.price else t.Value();
      case FeeRow => derivedCash := derivedCash - if t.fees != 0.0 then t.fees else t.price;
      case TaxRow => derivedCash := derivedCash - if t.taxes != 0.0 then t.taxes else t.price;
      case Adjustment => derivedCash := derivedCash + t.price;
      case Bonus =>
      case Split =>
      case CashBalance =>
    }

    /** The second pass over the ledger that `reconcile` makes: cash recomputed row by row. */
    method DeriveCash(startingCash: real) returns (derivedCash: real, rows: nat)
      ensures derivedCash
           == startingCash + NetCash(db.ledger, config.accountId, config.accountLabel)
      ensures rows == CountedRows(db.ledger, config.accountId, config.accountLabel)
    {
      derivedCash, rows := startingCash, 0;
      var n := |db.ledger|;
      for i := 0 to n
        invariant derivedCash
               == startingCash + NetCash(db.ledger[..i], config.accountId, config.accountLabel)
        invariant rows == CountedRows(db.ledger[..i], config.accountId, config.accountLabel)
      {
        var t := db.ledger[i];
        assert db.ledger[..i + 1][..i] == db.ledger[..i];
        if Counted(config.accountId, config.accountLabel, t) {
          rows := rows + 1;
          derivedCash := Account(derivedCash, t);
        }
      }
      assert db.ledger[..n] == db.ledger;
    }

    method Reconcile() returns (report: Option<Report>, outcome: Outcome)
      requires db.Valid()
      modifies db`outbox
      ensures db.Valid()
      ensures (db.View(), outcome) == PaperModel.Reconcile(config, old(db.View()))
      ensures report.Some? <==> outcome == Done
      ensures report.Some? ==>
                report.value == ReportFor(old(db.View()), config.accountId, config.accountLabel)
    {
      if config.accountId !in db.accounts {
        return None, Raised(AccountMissing);
      }
      var account := db.accounts[config.accountId];
      var duplicates := HasDuplicateKeys(db.OrderRows(), config.accountId);
      var derivedCash, rows := DeriveCash(account.startingCash);
      var gap := account.cash - derivedCash;
      var reconciled := -0.01 <= gap <= 0.01;
      report := Some(Report(!duplicates && account.cash >= 0.0 && reconciled,
                            account.cash, derivedCash, duplicates, reconciled));
      outcome := Done;
      db.EmitEvent(Reconciled(config.accountId, rows, account.cash));
    }

    method ResetAccount(startingCash: real) returns (outcome: Outcome)
      requires db.Valid()
      modifies db.accounts.Values
      ensures db.Valid()
      ensures (db.View(), outcome)
           == PaperModel.ResetAccount(config, old(db.View()), startingCash)
    {
      if config.accountId !in db.accounts {
        return Raised(AccountMissing);
      }
      var account := db.accounts[config.accountId];
      account.startingCash := startingCash;
      account.cash := startingCash;
      db.AccountWritten(account);
      return Done;
    }
  }
}
