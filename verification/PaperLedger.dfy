/** What the transaction ledger says, summed kind by kind: the shares a label holds and the cash an
    account should have. The broker's two passes over the ledger compute exactly this. */
module PaperLedger {
  import opened Common
  import opened Decimals
  import opened PaperModel
  import opened PaperRuns
  import opened PaperMoneyRuns

  // ---- Shares ----

  /** The quantities of a label's rows of these kinds in one symbol. */
  function Shares(ledger: seq<Transaction>, kinds: set<Kind>, owner: string, symbol: string): real {
    if ledger == [] then 0.0
    else
      var last := ledger[|ledger| - 1];
      Shares(ledger[..|ledger| - 1], kinds, owner, symbol)
      + if last.kind in kinds && last.accountLabel == Some(owner) && last.symbol == symbol
        then last.quantity else 0.0
  }

  /** Shares bought or granted, and shares sold. */
  function Received(ledger: seq<Transaction>, owner: string, symbol: string): real {
    Shares(ledger, {BuyRow, Rights, Bonus}, owner, symbol)
  }

  function Sold(ledger: seq<Transaction>, owner: string, symbol: string): real {
    Shares(ledger, {SellRow}, owner, symbol)
  }

  /** What is held is what was received less what was sold. */
  lemma {:induction false} HoldingIsNet(ledger: seq<Transaction>, owner: string, symbol: string)
    ensures Holding(ledger, owner, symbol)
         == Received(ledger, owner, symbol) - Sold(ledger, owner, symbol)
    ensures HeldQuantity(ledger, owner, symbol)
         == Trunc(Received(ledger, owner, symbol) - Sold(ledger, owner, symbol))
  {
    if ledger != [] {
      HoldingIsNet(ledger[..|ledger| - 1], owner, symbol);
    }
  }

  lemma AppendShares(ledger: seq<Transaction>, row: Transaction, kinds: set<Kind>, owner: string,
                     symbol: string)
    ensures Shares(ledger + [row], kinds, owner, symbol)
         == Shares(ledger, kinds, owner, symbol)
            + if row.kind in kinds && row.accountLabel == Some(owner) && row.symbol == symbol
              then row.quantity else 0.0
  {
    assert (ledger + [row])[..|ledger|] == ledger;
  }

  /** A fill moves what the broker's label holds of the order's symbol by its quantity, up for a buy
      and down for a sell, and no other holding. */
  lemma FillMovesHolding(c: Config, s: State, o: OrderRow, price: real, quantity: int,
                         owner: string, symbol: string)
    requires c.accountId in s.accounts && o.filledQuantity + quantity != 0
    ensures var ledger := RecordFill(c, s, o, price, quantity).ledger;
            var moved := c.accountLabel == owner && o.symbol == symbol;
            && Received(ledger, owner, symbol)
               == Received(s.ledger, owner, symbol)
                  + (if moved && o.side == Buy then quantity as real else 0.0)
            && Sold(ledger, owner, symbol)
               == Sold(s.ledger, owner, symbol)
                  + (if moved && o.side == Sell then quantity as real else 0.0)
            && Holding(ledger, owner, symbol)
               == Holding(s.ledger, owner, symbol)
                  + (if !moved then 0.0
                     else if o.side == Buy then quantity as real else -(quantity as real))
  {
    var row := FillRow(c, o, price, quantity);
    AppendShares(s.ledger, row, {BuyRow, Rights, Bonus}, owner, symbol);
    AppendShares(s.ledger, row, {SellRow}, owner, symbol);
    HoldingIsNet(s.ledger, owner, symbol);
    HoldingIsNet(s.ledger + [row], owner, symbol);
    hide Holding, Shares, FilledOrder, CashDelta;
  }

  /** Over every run what a label sells of a symbol is covered by what it held at the start and
      what it received since. */
  lemma SalesAreCovered(s: State, steps: seq<Step>, owner: string, symbol: string)
    requires Inv(s) && SoundRun(s, steps)
    requires Sold(s.ledger, owner, symbol) <= Received(s.ledger, owner, symbol)
    ensures var s' := Run(s, steps);
            Sold(s'.ledger, owner, symbol) - Sold(s.ledger, owner, symbol)
              <= Received(s.ledger, owner, symbol) - Sold(s.ledger, owner, symbol)
                 + (Received(s'.ledger, owner, symbol) - Received(s.ledger, owner, symbol))
  {
    HoldingIsNet(s.ledger, owner, symbol);
    NeverShort(s, steps, owner, symbol);
    HoldingIsNet(Run(s, steps).ledger, owner, symbol);
  }

  // ---- Cash ----

  /** Account 1 owns the rows without a label and those of the two shared labels; every other
      account the rows of its broker's label. */
  predicate Belongs(row: Transaction, accountId: int, owner: string) {
    || (accountId != 1 && row.accountLabel == Some(owner))
    || (accountId == 1 && (|| row.accountLabel == None || row.accountLabel == Some("paper")
                           || row.accountLabel == Some("simulation")))
  }

  /** The sum of `amount` over an account's rows of these kinds. */
  function CashOf(ledger: seq<Transaction>, kinds: set<Kind>, accountId: int, owner: string,
                  amount: Transaction -> real): real {
    if ledger == [] then 0.0
    else
      var last := ledger[|ledger| - 1];
      CashOf(ledger[..|ledger| - 1], kinds, accountId, owner, amount)
      + if last.kind in kinds && Belongs(last, accountId, owner) then amount(last) else 0.0
  }

  /** The amounts of the single kinds: a dividend is per share if it names shares, a fee or a tax
      stands in its own column or else in the price. */
  function Worth(row: Transaction): real { row.price * row.quantity }
  function Charges(row: Transaction): real { row.fees + row.taxes }
  function Payout(row: Transaction): real { if row.quantity == 0.0 then row.price else Worth(row) }
  function Fee(row: Transaction): real { if row.fees == 0.0 then row.price else row.fees }
  function Tax(row: Transaction): real { if row.taxes == 0.0 then row.price else row.taxes }
  function Stated(row: Transaction): real { row.price }

  /** Sales, dividends and adjustments bring cash; purchases, rights, charges, fees and taxes cost
      it; bonus shares, splits and balance notes do neither. */
  lemma {:induction false} CashIsNet(ledger: seq<Transaction>, a: int, owner: string)
    ensures NetCash(ledger, a, owner)
         == CashOf(ledger, {SellRow}, a, owner, Worth)
            + CashOf(ledger, {Dividend}, a, owner, Payout)
            + CashOf(ledger, {Adjustment}, a, owner, Stated)
            - CashOf(ledger, {BuyRow, Rights}, a, owner, Worth)
            - CashOf(ledger, {BuyRow, Rights, SellRow}, a, owner, Charges)
            - CashOf(ledger, {FeeRow}, a, owner, Fee)
            - CashOf(ledger, {TaxRow}, a, owner, Tax)
  {
    if ledger != [] {
      CashIsNet(ledger[..|ledger| - 1], a, owner);
      RowIsNet(ledger[|ledger| - 1]);
      hide CashChange, Worth, Charges, Payout, Fee, Tax;
    }
  }

  lemma RowIsNet(row: Transaction)
    ensures CashChange(row)
         == (if row.kind == SellRow then Worth(row) else 0.0)
            + (if row.kind == Dividend then Payout(row) else 0.0)
            + (if row.kind == Adjustment then Stated(row) else 0.0)
            - (if row.kind in {BuyRow, Rights} then Worth(row) else 0.0)
            - (if row.kind in {BuyRow, Rights, SellRow} then Charges(row) else 0.0)
            - (if row.kind == FeeRow then Fee(row) else 0.0)
            - (if row.kind == TaxRow then Tax(row) else 0.0)
  {
  }

  /** A reset sets both balances, and afterwards the cash of every routed run is the new balance
      plus the net effect of the rows booked since: the rows before it no longer count. */
  lemma ResetStartsOver(s: State, c: Config, cash: real, steps: seq<Step>, owner: string)
    requires Sane(s) && c.accountId in s.accounts
    requires AllUsable(steps) && AllRouted(steps, c.accountId, owner)
    ensures var s' := Run(Next(s, Reset(c, cash)), steps);
            && Next(s, Reset(c, cash)).accounts[c.accountId] == AccountRow(cash, cash)
            && c.accountId in s'.accounts
            && s'.accounts[c.accountId].startingCash == cash
            && s'.accounts[c.accountId].cash
               == cash + NetCash(s'.ledger, c.accountId, owner) - NetCash(s.ledger, c.accountId, owner)
  {
    LedgerConservation(Next(s, Reset(c, cash)), steps, c.accountId, owner);
  }

  // ---- Reconciling ----

  /** The positions of an account's rows in the ledger. */
  function RowsOf(ledger: seq<Transaction>, a: int, owner: string): set<int> {
    set i | 0 <= i < |ledger| && Belongs(ledger[i], a, owner)
  }

  lemma BelongingIsCounted(row: Transaction, a: int, owner: string)
    ensures Counted(a, owner, row) == Belongs(row, a, owner)
  {
  }

  lemma LastRow(ledger: seq<Transaction>, a: int, owner: string)
    requires ledger != []
    ensures var n := |ledger| - 1;
            |RowsOf(ledger, a, owner)|
              == |RowsOf(ledger[..n], a, owner)| + if Belongs(ledger[n], a, owner) then 1 else 0
  {
    hide Belongs;
    var n := |ledger| - 1;
    var earlier, rows := RowsOf(ledger[..n], a, owner), RowsOf(ledger, a, owner);
    assert rows == earlier + if Belongs(ledger[n], a, owner) then {n} else {};
    assert n !in earlier;
  }

  lemma {:induction false} RowsAreCounted(ledger: seq<Transaction>, a: int, owner: string)
    ensures CountedRows(ledger, a, owner) == |RowsOf(ledger, a, owner)|
  {
    if ledger != [] {
      hide Belongs, Counted, RowsOf;
      RowsAreCounted(ledger[..|ledger| - 1], a, owner);
      LastRow(ledger, a, owner);
      BelongingIsCounted(ledger[|ledger| - 1], a, owner);
    } else {
      assert RowsOf(ledger, a, owner) == {};
    }
  }

  /** Reconciling writes nothing but one event for each account, number of its rows and cash; doing
      it again changes nothing. */
  lemma ReconcileDecides(s: State, c: Config)
    requires Sane(s)
    ensures var (s', outcome) := Call(s, ReconcileStep(c));
            if c.accountId !in s.accounts then s' == s && outcome == Raised(AccountMissing)
            else
              var key := Reconciled(c.accountId, |RowsOf(s.ledger, c.accountId, c.accountLabel)|,
                                    s.accounts[c.accountId].cash);
              && outcome == Done && Sane(s') && Call(s', ReconcileStep(c)).0 == s'
              && s' == s.(outbox := if key in s.outbox then s.outbox else s.outbox + [key])
  {
    if c.accountId in s.accounts {
      RowsAreCounted(s.ledger, c.accountId, c.accountLabel);
    }
  }
}
