/** Cash and holdings over every run of the paper broker: the balance that the fills maintain
    against the balance that `reconcile` recomputes from the ledger. */
module PaperMoneyRuns {
  import opened Common
  import opened Decimals
  import opened PaperModel
  import opened PaperRuns

  /** How far the cash of account `a` is from what `reconcile`, run by a broker with the label
      `owner`, derives from the ledger. */
  function Drift(s: State, a: int, owner: string): real
    requires a in s.accounts
  {
    s.accounts[a].cash - (s.accounts[a].startingCash + NetCash(s.ledger, a, owner))
  }

  /** The rows a broker writes are read back for account `a`. */
  predicate WritesFor(c: Config, a: int, owner: string) {
    if a != 1 then c.accountLabel == owner else c.accountLabel in {"paper", "simulation"}
  }

  /** Broker c pays from account `a` if and only if its rows count for `a`. */
  predicate Coherent(c: Config, a: int, owner: string) {
    c.accountId == a <==> WritesFor(c, a, owner)
  }

  /** The label of the forward validation runner. */
  const FORWARD_LABEL := "minimal_v1_forward_absolute_momentum"

  predicate DeskBroker(c: Config) {
    c.accountId == 1 && c.accountLabel == "paper"
  }

  predicate RunnerBroker(c: Config, account: int) {
    c.accountId == account && c.accountLabel == FORWARD_LABEL
  }

  /** The account that the runner opens: one more than the highest id, or 1. */
  predicate NextAccountId(accounts: map<int, AccountRow>, n: int) {
    if accounts == map[] then n == 1
    else n - 1 in accounts && forall a :: a in accounts ==> a < n
  }

  /** That rule names exactly one id for every store, and one without an account. */
  lemma NextAccountIdIsFree(accounts: map<int, AccountRow>) returns (n: int)
    ensures NextAccountId(accounts, n) && n !in accounts
    ensures forall m :: NextAccountId(accounts, m) ==> m == n
  {
    if accounts == map[] {
      n := 1;
    } else {
      var top := HighestId(accounts.Keys);
      n := top + 1;
    }
  }

  lemma HighestId(ids: set<int>) returns (top: int)
    ensures ids != {} ==> top in ids && forall a :: a in ids ==> a <= top
  {
    if forall a :: a !in ids {
      assert ids == {};
      top := 0;
    } else {
      var a :| a in ids;
      var other := HighestId(ids - {a});
      assert forall b :: b in ids ==> b == a || b in ids - {a};
      top := if ids != {a} && other > a then other else a;
    }
  }

  /** The platform's two brokers, the desk's and the runner's, route coherently for each other's
      accounts if and only if the runner's account is not account 1. */
  lemma PlatformBrokersAreCoherent(account: int)
    ensures (forall c :: DeskBroker(c) || RunnerBroker(c, account) ==>
               Coherent(c, 1, "paper") && Coherent(c, account, FORWARD_LABEL))
       <==> account != 1
  {
    assert |FORWARD_LABEL| != |"paper"| && |FORWARD_LABEL| != |"simulation"|;
    var runner := Config(1.0, 0.25, "pessimistic", None, account, FORWARD_LABEL);
    assert RunnerBroker(runner, account);
    assert account == 1 ==> !Coherent(runner, 1, "paper");
  }

  lemma RunnerLabelIsItsOwn(c: Config, account: int)
    requires RunnerBroker(c, account)
    ensures c.accountLabel !in {"paper", "simulation"}
  {
    assert |FORWARD_LABEL| != |"paper"| && |FORWARD_LABEL| != |"simulation"|;
  }

  /** What opening the runner's account by that rule gives: a funded account of its own, on which
      the runner routes coherently for itself and for the desk once the desk has account 1, and on
      a store without accounts account 1, on which it does for neither. */
  lemma RunnerOpensAccount(s: State, n: int, cash: real, c: Config)
    requires Sane(s) && NextAccountId(s.accounts, n) && RunnerBroker(c, n)
    ensures var s' := Next(s, OpenAccount(n, cash));
            && n in s'.accounts && s'.accounts[n] == AccountRow(cash, cash)
            && (forall a :: a in s.accounts ==> a in s'.accounts && s'.accounts[a] == s.accounts[a])
    ensures 1 in s.accounts ==> Coherent(c, 1, "paper") && Coherent(c, n, FORWARD_LABEL)
    ensures s.accounts == map[] ==> !Coherent(c, 1, "paper") && !Coherent(c, n, FORWARD_LABEL)
  {
    RunnerLabelIsItsOwn(c, n);
  }

  // ---- One fill ----

  lemma RowMatchesCash(c: Config, o: OrderRow, price: real, quantity: int)
    ensures CashChange(FillRow(c, o, price, quantity)) == CashDelta(o.side, price, quantity)
  {
  }

  lemma AppendNet(ledger: seq<Transaction>, row: Transaction, a: int, owner: string)
    ensures NetCash(ledger + [row], a, owner)
         == NetCash(ledger, a, owner) + if Counted(a, owner, row) then CashChange(row) else 0.0
  {
  }

  lemma AppendHolding(ledger: seq<Transaction>, row: Transaction, owner: string, symbol: string)
    ensures Holding(ledger + [row], owner, symbol)
         == Holding(ledger, owner, symbol) + HeldChange(row, owner, symbol)
  {
  }

  lemma FillRowCounted(c: Config, o: OrderRow, price: real, quantity: int, a: int, owner: string)
    ensures Counted(a, owner, FillRow(c, o, price, quantity)) <==> WritesFor(c, a, owner)
  {
  }

  lemma FillAccounts(c: Config, s: State, o: OrderRow, price: real, quantity: int, a: int)
    requires a in s.accounts && c.accountId in s.accounts
    requires o.filledQuantity + quantity != 0
    ensures var s' := RecordFill(c, s, o, price, quantity);
            && a in s'.accounts && s'.ledger == s.ledger + [FillRow(c, o, price, quantity)]
            && s'.accounts[a].startingCash == s.accounts[a].startingCash
            && s'.accounts[a].cash
               == s.accounts[a].cash
                  + if c.accountId == a then CashDelta(o.side, price, quantity) else 0.0
  {
    hide FilledOrder, CashDelta, FillRow;
  }

  /** A fill moves an account's drift by its cash effect, once if the broker pays from the
      account and once, the other way, if the account counts the broker's label. */
  lemma FillMovesDrift(c: Config, s: State, o: OrderRow, price: real, quantity: int,
                       a: int, owner: string)
    requires a in s.accounts && c.accountId in s.accounts
    requires o.filledQuantity + quantity != 0
    ensures var s' := RecordFill(c, s, o, price, quantity);
            var delta := CashDelta(o.side, price, quantity);
            && a in s'.accounts
            && Drift(s', a, owner)
               == Drift(s, a, owner) + (if c.accountId == a then delta else 0.0)
                  - (if WritesFor(c, a, owner) then delta else 0.0)
  {
    RowMatchesCash(c, o, price, quantity);
    FillRowCounted(c, o, price, quantity, a, owner);
    FillAccounts(c, s, o, price, quantity, a);
    hide RecordFill, CashDelta, CashChange, NetCash, Counted, WritesFor, FillRow;
    AppendNet(s.ledger, FillRow(c, o, price, quantity), a, owner);
  }

  /** So it keeps the drift exactly when both or neither hold, or nothing was paid. */
  lemma FillDrift(c: Config, s: State, o: OrderRow, price: real, quantity: int,
                  a: int, owner: string)
    requires a in s.accounts && c.accountId in s.accounts
    requires o.filledQuantity + quantity != 0
    ensures a in RecordFill(c, s, o, price, quantity).accounts
    ensures Drift(RecordFill(c, s, o, price, quantity), a, owner) == Drift(s, a, owner)
       <==> Coherent(c, a, owner) || CashDelta(o.side, price, quantity) == 0.0
  {
    FillMovesDrift(c, s, o, price, quantity, a, owner);
    hide RecordFill, CashDelta, Drift, WritesFor;
  }

  // ---- Conservation ----

  /** Every broker of the run routes coherently for the account, and nobody resets it. */
  ghost predicate Routed(step: Step, a: int, owner: string) {
    && (step.Submit? ==> Coherent(step.config, a, owner))
    && (step.Reset? ==> step.config.accountId != a)
  }

  ghost predicate AllRouted(steps: seq<Step>, a: int, owner: string) {
    forall i :: 0 <= i < |steps| ==> Routed(steps[i], a, owner)
  }

  lemma NextConserves(s: State, step: Step, a: int, owner: string)
    requires Sane(s) && Usable(step) && a in s.accounts && Routed(step, a, owner)
    ensures a in Next(s, step).accounts
    ensures Next(s, step).accounts[a].startingCash == s.accounts[a].startingCash
    ensures Drift(Next(s, step), a, owner) == Drift(s, a, owner)
  {
    hide SubmitOrder;
    if step.Submit? && step.id in s.orders {
      var o := s.orders[step.id];
      var booked, available :=
        SubmitRecords(step.config, s, o, step.market, step.volume, step.context);
      if booked {
        var (price, quantity) := Plan(step.config, o, step.market, available);
        FillDrift(step.config, Mark(s, o), o.(status := Submitted), price, quantity, a, owner);
      }
    }
  }

  /** Ledger conservation: over any interleaving of calls on any number of orders, cash stays
      exactly as far from the cash derived from the ledger as it was at the start. */
  lemma {:induction false} LedgerConservation(s: State, steps: seq<Step>, a: int, owner: string)
    requires Sane(s) && AllUsable(steps) && a in s.accounts && AllRouted(steps, a, owner)
    ensures a in Run(s, steps).accounts
    ensures Run(s, steps).accounts[a].startingCash == s.accounts[a].startingCash
    ensures Drift(Run(s, steps), a, owner) == Drift(s, a, owner)
  {
    if steps != [] {
      var earlier := steps[..|steps| - 1];
      LedgerConservation(s, earlier, a, owner);
      NextConserves(Run(s, earlier), steps[|steps| - 1], a, owner);
    }
  }

  /** A reset overwrites the cash but not the ledger: afterwards the drift is minus the net
      effect of all rows booked so far, and stays there. Cash agrees with the ledger again
      exactly when those rows cancel out. */
  lemma ResetDrift(s: State, c: Config, cash: real, steps: seq<Step>, owner: string)
    requires Sane(s) && c.accountId in s.accounts
    requires AllUsable(steps) && AllRouted(steps, c.accountId, owner)
    ensures var s' := Run(Next(s, Reset(c, cash)), steps);
            && c.accountId in s'.accounts
            && Drift(s', c.accountId, owner) == -NetCash(s.ledger, c.accountId, owner)
            && (Drift(s', c.accountId, owner) == 0.0
                <==> NetCash(s.ledger, c.accountId, owner) == 0.0)
  {
    LedgerConservation(Next(s, Reset(c, cash)), steps, c.accountId, owner);
  }

  /** An account level with its ledger, which holds one purchase for 100.40, is 100.40 off after a
      reset. */
  lemma ResetLosesTheLedger(c: Config, cash: real)
    requires c.accountId == 1
    ensures var row := Transaction(BuyRow, "GP", 10.0, 10.0, 0.4, 0.0, Some("paper"), None);
            var s := State(map[], map[1 := AccountRow(899.6, 1000.0)], [row], []);
            && Inv(s) && Drift(s, 1, "paper") == 0.0
            && Drift(Next(s, Reset(c, cash)), 1, "paper") == 100.4
  {
    var row := Transaction(BuyRow, "GP", 10.0, 10.0, 0.4, 0.0, Some("paper"), None);
    FreshStore(map[1 := AccountRow(899.6, 1000.0)], [row]);
    AppendNet([], row, 1, "paper");
    assert [] + [row] == [row];
  }

  // ---- Solvency ----

  ghost predicate Solvent(s: State) {
    forall a :: a in s.accounts ==> s.accounts[a].cash >= 0.0
  }

  lemma GrossOnCentGrid(price: real, quantity: int)
    requires OnCentGrid(price)
    ensures OnCentGrid(Gross(price, quantity))
  {
    var n := (price * 100.0).Floor;
    assert Gross(price, quantity) * 100.0 == (n * quantity) as real by {
      assert price * 100.0 == n as real;
      assert Gross(price, quantity) * 100.0 == (price * 100.0) * quantity as real;
      ProductOfIntegers(n, quantity);
    }
    assert ((n * quantity) as real).Floor == n * quantity;
  }

  lemma ProductOfIntegers(m: int, n: int)
    ensures m as real * n as real == (m * n) as real
  {
  }

  /** The fee of a non-negative amount in cents is 0.4 percent of it to the nearest cent, and
      never exceeds it. */
  lemma FeeWithinGross(gross: real)
    requires gross >= 0.0 && OnCentGrid(gross)
    ensures 0.0 <= FeeOf(gross) <= gross
    ensures OnCentGrid(FeeOf(gross)) && -0.005 <= FeeOf(gross) - gross * 0.004 <= 0.005
  {
    ToCentsProperties(gross);
    ToCentsProperties(gross * FEE_RATE);
    ToCentsMonotone(gross * FEE_RATE, gross);
  }

  lemma SaleIsNotALoss(o: OrderRow, price: real, quantity: int)
    requires FillAllowed(o, price, quantity) && o.side == Sell && o.limitPrice.value >= 0.0
    ensures CashDelta(Sell, price, quantity) >= 0.0
  {
    ToCentsProperties(o.limitPrice.value);
    MulNonNegative(price, quantity as real);
    GrossOnCentGrid(price, quantity);
    FeeWithinGross(Gross(price, quantity));
  }

  /** Accounts are opened and reset with balances that are not negative. */
  predicate Funded(step: Step) {
    step.Reset? || step.OpenAccount? ==> step.startingCash >= 0.0
  }

  lemma BookedSolvent(c: Config, s: State, o: OrderRow, s': State, price: real, quantity: int)
    requires Solvent(s) && Booked(c, s, o, s', price, quantity) && o.limitPrice.value >= 0.0
    ensures Solvent(s')
  {
    if o.side == Sell {
      SaleIsNotALoss(o, price, quantity);
    }
  }

  lemma NextSolvent(s: State, step: Step)
    requires Inv(s) && Sound(s, step) && Solvent(s)
    requires Funded(step)
    ensures Solvent(Next(s, step))
  {
    hide SubmitOrder;
    if step.Submit? && step.id in s.orders {
      var o := s.orders[step.id];
      assert OrderInv(s, step.id);
      var booked, available :=
        SubmitShape(step.config, s, o, step.market, step.volume, step.context);
      if booked {
        var (price, quantity) := Plan(step.config, o, step.market, available);
        BookedSolvent(step.config, s, o, Next(s, step), price, quantity);
      }
    }
  }

  /** Cash is never overdrawn, on any account, by any run. */
  lemma {:induction false} NeverOverdrawn(s: State, steps: seq<Step>)
    requires Inv(s) && SoundRun(s, steps) && Solvent(s)
    requires forall i :: 0 <= i < |steps| ==> Funded(steps[i])
    ensures Solvent(Run(s, steps))
  {
    if steps != [] {
      var earlier := steps[..|steps| - 1];
      NeverOverdrawn(s, earlier);
      NextSolvent(Run(s, earlier), steps[|steps| - 1]);
    }
  }

  // ---- Stored precision ----

  /** x fits a column of four decimals. */
  predicate Storable(x: real) {
    (x * 10000.0).Floor as real == x * 10000.0
  }

  ghost predicate CashStorable(s: State) {
    forall a :: a in s.accounts ==> Storable(s.accounts[a].cash)
  }

  lemma AddCents(cash: real, delta: real)
    requires Storable(cash) && OnCentGrid(delta)
    ensures Storable(cash + delta)
  {
    var m, n := (cash * 10000.0).Floor, (delta * 100.0).Floor;
    assert (cash + delta) * 10000.0 == (m + 100 * n) as real;
    assert ((m + 100 * n) as real).Floor == m + 100 * n;
  }

  lemma SumOfCents(a: real, b: real)
    requires OnCentGrid(a) && OnCentGrid(b)
    ensures OnCentGrid(a - b) && OnCentGrid(-(a + b))
  {
    var m, n := (a * 100.0).Floor, (b * 100.0).Floor;
    assert (a - b) * 100.0 == (m - n) as real && -(a + b) * 100.0 == (-m - n) as real;
    assert ((m - n) as real).Floor == m - n && ((-m - n) as real).Floor == -m - n;
  }

  lemma DeltaInCents(side: Side, price: real, quantity: int)
    requires OnCentGrid(price)
    ensures OnCentGrid(CashDelta(side, price, quantity))
  {
    GrossOnCentGrid(price, quantity);
    ToCentsProperties(Gross(price, quantity) * FEE_RATE);
    SumOfCents(Gross(price, quantity), FeeOf(Gross(price, quantity)));
  }

  predicate StorablyFunded(step: Step) {
    step.Reset? || step.OpenAccount? ==> Storable(step.startingCash)
  }

  lemma NextCashStorable(s: State, step: Step)
    requires Sane(s) && Usable(step) && CashStorable(s)
    requires StorablyFunded(step)
    ensures CashStorable(Next(s, step))
  {
    hide SubmitOrder;
    if step.Submit? && step.id in s.orders {
      var c, o := step.config, s.orders[step.id];
      var booked, available := SubmitRecords(c, s, o, step.market, step.volume, step.context);
      if booked {
        var (price, quantity) := Plan(c, o, step.market, available);
        DeltaInCents(o.side, price, quantity);
        AddCents(s.accounts[c.accountId].cash, CashDelta(o.side, price, quantity));
      }
    }
  }

  /** Cash is kept in a column of four decimals, and no run ever produces a balance that the
      column would round: what is stored is the exact cash of the theorems above. */
  lemma {:induction false} NothingIsRoundedAway(s: State, steps: seq<Step>)
    requires Sane(s) && AllUsable(steps) && CashStorable(s)
    requires forall i :: 0 <= i < |steps| ==> StorablyFunded(steps[i])
    ensures CashStorable(Run(s, steps))
  {
    if steps != [] {
      var earlier := steps[..|steps| - 1];
      NothingIsRoundedAway(s, earlier);
      NextCashStorable(Run(s, earlier), steps[|steps| - 1]);
    }
  }

  // ---- Reconciliation ----

  ghost predicate UniqueKeys(s: State) {
    forall a, b :: a in s.orders && b in s.orders && a != b ==>
      s.orders[a].idempotencyKey != s.orders[b].idempotencyKey
  }

  lemma {:induction false} KeysStayUnique(s: State, steps: seq<Step>)
    requires Sane(s) && AllUsable(steps) && UniqueKeys(s)
    ensures UniqueKeys(Run(s, steps))
  {
    if steps != [] {
      var earlier := steps[..|steps| - 1];
      KeysStayUnique(s, earlier);
      NextKeepsKeys(Run(s, earlier), steps[|steps| - 1]);
    }
  }

  lemma NextKeepsKeys(s: State, step: Step)
    requires Sane(s) && Usable(step) && UniqueKeys(s)
    ensures UniqueKeys(Next(s, step))
  {
    var s' := Next(s, step);
    if !step.Propose? && !step.Place? {
      NextKeepsKey(s, step);
    }
  }

  /** The same orders, each with its key. */
  ghost predicate SameKeys(s: State, s': State) {
    forall id :: id in s'.orders ==>
      id in s.orders && s'.orders[id].idempotencyKey == s.orders[id].idempotencyKey
  }

  lemma SubmitKeepsKeys(s: State, step: Step)
    requires Sane(s) && Usable(step) && step.Submit? && step.id in s.orders
    ensures SameKeys(s, Call(s, step).0)
  {
    hide SubmitOrder;
    var o := s.orders[step.id];
    var booked, available :=
      SubmitRecords(step.config, s, o, step.market, step.volume, step.context);
    if booked {
      RecordKeepsKeys(step.config, Mark(s, o), o.(status := Submitted),
                      Plan(step.config, o, step.market, available).0,
                      Plan(step.config, o, step.market, available).1);
    }
    hide RecordFill, Screen, Crosses, FillQuantity, FillPrice, HeldQuantity, Cost, OnCentGrid;
  }

  lemma RecordKeepsKeys(c: Config, s: State, o: OrderRow, price: real, quantity: int)
    requires c.accountId in s.accounts && o.filledQuantity + quantity != 0
    requires o.id in s.orders && s.orders[o.id] == o
    ensures SameKeys(s, RecordFill(c, s, o, price, quantity))
  {
    hide NextAverage, CashDelta, FillRow;
  }

  lemma DeskKeepsKeys(s: State, step: Step)
    requires Sane(s) && Usable(step) && AtDesk(step)
    ensures SameKeys(s, Call(s, step).0)
  {
    hide Call;
    DeskShape(s, step);
  }

  lemma NextKeepsKey(s: State, step: Step)
    requires Sane(s) && Usable(step) && !step.Propose? && !step.Place?
    ensures SameKeys(s, Next(s, step))
  {
    if step.Submit? && step.id in s.orders {
      SubmitKeepsKeys(s, step);
    } else if AtDesk(step) {
      DeskKeepsKeys(s, step);
    }
    hide SubmitOrder;
  }

  /** Over every run of coherent brokers on a solvent store the next reconciliation of the account
      is healthy exactly if the account was within a cent of its ledger at the start, and it
      reports that distance to the last digit. */
  lemma ReconciliationHealthy(s: State, steps: seq<Step>, a: int, owner: string)
    requires Inv(s) && SoundRun(s, steps) && a in s.accounts && AllRouted(steps, a, owner)
    requires Solvent(s) && UniqueKeys(s)
    requires forall i :: 0 <= i < |steps| ==> Funded(steps[i])
    ensures a in Run(s, steps).accounts
    ensures var report := ReportFor(Run(s, steps), a, owner);
            && report.cash - report.derivedCash == Drift(s, a, owner)
            && (report.healthy <==> -0.01 <= Drift(s, a, owner) <= 0.01)
  {
    LedgerConservation(s, steps, a, owner);
    NeverOverdrawn(s, steps);
    KeysStayUnique(s, steps);
    assert !HasDuplicateKeys(Run(s, steps).orders, a);
  }

  /** With incoherent labels one fill is enough to break it: a broker paying from account 1
      under a label that account 1 does not count. */
  lemma ForeignLabelBreaksReconciliation(c: Config, s: State, o: OrderRow, price: real,
                                         quantity: int)
    requires c.accountId == 1 && 1 in s.accounts && c.accountLabel !in {"paper", "simulation"}
    requires o.filledQuantity + quantity != 0 && Drift(s, 1, c.accountLabel) == 0.0
    requires CashDelta(o.side, price, quantity) < -0.01
    ensures !ReportFor(RecordFill(c, s, o, price, quantity), 1, c.accountLabel).healthy
  {
    FillMovesDrift(c, s, o, price, quantity, 1, c.accountLabel);
    hide RecordFill, CashDelta;
  }

  /** What account 1 reports after a broker's first purchase, of 10 shares at 10.00 from a balance
      of 1000.00. */
  function FirstPurchaseReport(c: Config): Report
    requires c.accountId == 1
  {
    var o := OrderRow("o", "k", "GP", Buy, Limit, 10, Some(10.0), Submitted, 0, None);
    var s := State(map["o" := o], map[1 := AccountRow(1000.0, 1000.0)], [], []);
    ReportFor(RecordFill(c, s, o, 10.0, 10), 1, c.accountLabel)
  }

  /** With a label of its own the broker leaves cash at 899.60 while the ledger still derives
      1000.00. */
  lemma OwnLabelOnAccountOne(c: Config)
    requires c.accountId == 1 && c.accountLabel !in {"paper", "simulation"}
    ensures var report := FirstPurchaseReport(c);
            !report.healthy && report.cash == 899.6 && report.derivedCash == 1000.0
  {
    var o := OrderRow("o", "k", "GP", Buy, Limit, 10, Some(10.0), Submitted, 0, None);
    var s := State(map["o" := o], map[1 := AccountRow(1000.0, 1000.0)], [], []);
    assert Gross(10.0, 10) == 100.0;
    assert FeeOf(100.0) == 0.4 by { RoundFixesIntegers(40); }
    FillMovesDrift(c, s, o, 10.0, 10, 1, c.accountLabel);
    FillAccounts(c, s, o, 10.0, 10, 1);
    hide RecordFill;
  }

  /** The runner on account 1 is such a broker. */
  lemma RunnerOnAccountOneIsMisread(c: Config)
    requires RunnerBroker(c, 1)
    ensures var report := FirstPurchaseReport(c);
            !report.healthy && report.cash == 899.6 && report.derivedCash == 1000.0
  {
    RunnerLabelIsItsOwn(c, 1);
    OwnLabelOnAccountOne(c);
    hide FirstPurchaseReport, FORWARD_LABEL;
  }

  // ---- Isolation ----

  /** s' agrees with s on every account but c's own, on the derived cash of every account that
      does not count c's label, and on the holdings of every other label. */
  ghost predicate Isolated(c: Config, s: State, s': State, a: int, owner: string, symbol: string)
    requires a in s.accounts
  {
    && a in s'.accounts
    && (c.accountId != a ==> s'.accounts[a] == s.accounts[a])
    && (!WritesFor(c, a, owner) ==> NetCash(s'.ledger, a, owner) == NetCash(s.ledger, a, owner))
    && (c.accountLabel != owner ==>
          Holding(s'.ledger, owner, symbol) == Holding(s.ledger, owner, symbol))
  }

  lemma FillIsIsolated(c: Config, s: State, o: OrderRow, price: real, quantity: int, a: int,
                       owner: string, symbol: string)
    requires a in s.accounts && c.accountId in s.accounts
    requires o.filledQuantity + quantity != 0
    ensures Isolated(c, s, RecordFill(c, s, o, price, quantity), a, owner, symbol)
  {
    var row := FillRow(c, o, price, quantity);
    FillRowCounted(c, o, price, quantity, a, owner);
    FillAccounts(c, s, o, price, quantity, a);
    assert c.accountLabel != owner ==> HeldChange(row, owner, symbol) == 0.0;
    assert c.accountId != a ==>
      RecordFill(c, s, o, price, quantity).accounts[a] == s.accounts[a];
    hide RecordFill, CashDelta, NetCash, Holding, HeldChange, WritesFor, Counted, CashChange, FillRow;
    AppendNet(s.ledger, row, a, owner);
    AppendHolding(s.ledger, row, owner, symbol);
  }

  /** A submit leaves every account but its broker's own alone, and the derived cash and the
      holdings of every label but its broker's own. */
  lemma SubmitIsIsolated(s: State, step: Step, a: int, owner: string, symbol: string)
    requires Sane(s) && Usable(step) && step.Submit?
    requires a in s.accounts
    ensures Isolated(step.config, s, Next(s, step), a, owner, symbol)
  {
    hide SubmitOrder;
    if step.id in s.orders {
      var c, o := step.config, s.orders[step.id];
      var booked, available := SubmitRecords(c, s, o, step.market, step.volume, step.context);
      if booked {
        var (price, quantity) := Plan(c, o, step.market, available);
        FillIsIsolated(c, Mark(s, o), o.(status := Submitted), price, quantity, a, owner, symbol);
      }
    }
  }

  // ---- Long only ----

  /** A booked fill sells no more than the label holds. */
  lemma BookedLongOnly(c: Config, s: State, o: OrderRow, s': State, price: real, quantity: int,
                       owner: string, symbol: string)
    requires Booked(c, s, o, s', price, quantity) && Holding(s.ledger, owner, symbol) >= 0.0
    ensures Holding(s'.ledger, owner, symbol) >= 0.0
  {
    hide Cost, NextAverage, FeeOf, Gross;
    AppendHolding(s.ledger, FillRow(c, o.(status := Submitted), price, quantity), owner, symbol);
  }

  lemma NextLongOnly(s: State, step: Step, owner: string, symbol: string)
    requires Inv(s) && Sound(s, step) && Holding(s.ledger, owner, symbol) >= 0.0
    ensures Holding(Next(s, step).ledger, owner, symbol) >= 0.0
  {
    if step.Submit? && step.id in s.orders {
      var c, o := step.config, s.orders[step.id];
      hide SubmitOrder, Booked, Screen, Crosses, Plan;
      var booked, available := SubmitShape(c, s, o, step.market, step.volume, step.context);
      if booked {
        var (price, quantity) := Plan(c, o, step.market, available);
        BookedLongOnly(c, s, o, Next(s, step), price, quantity, owner, symbol);
      }
    }
  }

  /** No interleaving of calls, on whatever orders, sells a share that is not held: a position
      that starts non-negative stays so, for every label and symbol. */
  lemma {:induction false} NeverShort(s: State, steps: seq<Step>, owner: string, symbol: string)
    requires Inv(s) && SoundRun(s, steps) && Holding(s.ledger, owner, symbol) >= 0.0
    ensures Holding(Run(s, steps).ledger, owner, symbol) >= 0.0
    ensures HeldQuantity(Run(s, steps).ledger, owner, symbol) >= 0
  {
    if steps != [] {
      var earlier := steps[..|steps| - 1];
      NeverShort(s, earlier, owner, symbol);
      NextLongOnly(Run(s, earlier), steps[|steps| - 1], owner, symbol);
    }
  }

  // ---- Where runs start ----

  /** A store without orders, over any ledger of externally recorded rows, is a start: the
      invariant holds, so every run from it has all the properties above. */
  lemma FreshStore(accounts: map<int, AccountRow>, ledger: seq<Transaction>)
    requires forall i :: 0 <= i < |ledger| ==> ledger[i].orderId == None
    ensures Inv(State(map[], accounts, ledger, [])) && UniqueKeys(State(map[], accounts, ledger, []))
  {
    forall id
      ensures OrderInv(State(map[], accounts, ledger, []), id)
    {
      NoFillsOutside(ledger, id);
    }
  }

  lemma NoFillsOutside(ledger: seq<Transaction>, id: OrderId)
    requires forall i :: 0 <= i < |ledger| ==> ledger[i].orderId == None
    ensures FillsOf(ledger, id) == []
  {
  }
}
