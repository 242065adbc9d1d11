/** The simulated trading account: orders fill against cash and inventory, a hidden
    table per symbol remembers average entry price, entry fees and capital used.
    Money, prices and rates are exact reals. */
module PaperAccounts {
  import opened Common
  import opened TableSums
  import Backtest

  datatype Side = Buy | Sell

  datatype Order = Order(
    symbol: string,
    side: Side,
    quantity: real,
    referencePrice: real,
    feeRate: real,
    slippageRate: Option<real>,
    slippageBps: Option<real>,
    latencyMs: real)

  /** The field and model validators of an order. */
  predicate ValidOrder(o: Order) {
    && o.symbol != ""
    && o.quantity > 0.0
    && o.referencePrice > 0.0
    && o.feeRate >= 0.0
    && (o.slippageRate.Some? ==> o.slippageRate.value >= 0.0)
    && (o.slippageBps.Some? ==> o.slippageBps.value >= 0.0)
    && o.latencyMs >= 0.0
    && !(o.slippageRate.Some? && o.slippageBps.Some?)
  }

  function EffectiveSlippageRate(o: Order): real {
    if o.slippageRate.Some? then o.slippageRate.value
    else if o.slippageBps.Some? then o.slippageBps.value / 10000.0
    else 0.0
  }

  /** The price an order would fill at; an order whose price is not positive is refused. */
  function FillPrice(o: Order): real {
    o.referencePrice * (if o.side.Sell? then 1.0 - EffectiveSlippageRate(o) else 1.0 + EffectiveSlippageRate(o))
  }

  function GrossValue(o: Order): real {
    o.quantity * FillPrice(o)
  }

  function Fee(o: Order): real {
    GrossValue(o) * o.feeRate
  }

  datatype Fill = Fill(
    symbol: string,
    side: Side,
    quantity: real,
    referencePrice: real,
    fillPrice: real,
    grossValue: real,
    fee: real,
    slippageRate: real,
    latencyMs: real)

  function FillOf(o: Order): Fill {
    Fill(o.symbol, o.side, o.quantity, o.referencePrice, FillPrice(o), GrossValue(o), Fee(o),
         EffectiveSlippageRate(o), o.latencyMs)
  }

  /** What one accepted order released or committed. */
  datatype Outcome = Outcome(capitalUsed: real, realizedGross: real, realizedNet: real)

  datatype TradeResult = TradeResult(fill: Fill, cash: real, inventory: Table, outcome: Outcome)

  datatype Refusal =
    | NonPositiveFillPrice
    | InsufficientCash
    | InsufficientInventory
    | MissingCostBasis
    | NegativeCash

  datatype Account = Account(
    cash: real,
    inventory: Table,
    realizedGross: real,
    realizedNet: real,
    average: Table,
    entryFees: Table,
    capital: Table)

  /** The part of an amount that goes with `part` out of `whole`. */
  function Portion(x: real, part: real, whole: real): real
    requires whole != 0.0
  {
    x * (part / whole)
  }

  function Worth(price: real, quantity: real): real {
    price * quantity
  }

  function PerUnit(total: real, quantity: real): real
    requires quantity != 0.0
  {
    total / quantity
  }

  /** Price movement on a quantity, before fees. */
  function Gain(price: real, entry: real, quantity: real): real {
    (price - entry) * quantity
  }

  datatype Executed = Executed(account: Account, outcome: Outcome)

  /** What the field types of the account guarantee. */
  predicate WellFormed(a: Account) {
    && a.cash >= 0.0
    && forall s :: s in a.inventory ==> a.inventory[s] >= 0.0
  }

  /** The account after buying `quantity` of `s` for `gross` and a fee. */
  function Bought(a: Account, s: string, quantity: real, gross: real, fee: real): Account
    requires Get(a.inventory, s) + quantity != 0.0
  {
    var held := Get(a.inventory, s);
    a.(cash := a.cash - (gross + fee),
       inventory := Added(a.inventory, s, quantity),
       average := a.average[s := PerUnit(Worth(Get(a.average, s), held) + gross, held + quantity)],
       entryFees := Added(a.entryFees, s, fee),
       capital := Added(a.capital, s, gross + fee))
  }

  function BuyOrder(a: Account, o: Order): Result<Executed, Refusal>
    requires ValidOrder(o) && WellFormed(a)
  {
    var cost := GrossValue(o) + Fee(o);
    if cost > a.cash then Failure(InsufficientCash)
    else Success(Executed(Bought(a, o.symbol, o.quantity, GrossValue(o), Fee(o)), Outcome(cost, 0.0, 0.0)))
  }

  function SellOrder(a: Account, o: Order): Result<Executed, Refusal>
    requires ValidOrder(o) && WellFormed(a)
  {
    var s := o.symbol;
    var held := Get(a.inventory, s);
    if o.quantity > held then Failure(InsufficientInventory)
    else if s !in a.average || s !in a.entryFees || s !in a.capital then Failure(MissingCostBasis)
    else if a.cash + (GrossValue(o) - Fee(o)) < 0.0 then Failure(NegativeCash)
    else
      var fees := Portion(a.entryFees[s], o.quantity, held);
      var capital := Portion(a.capital[s], o.quantity, held);
      var gross := Gain(FillPrice(o), a.average[s], o.quantity);
      var net := gross - fees - Fee(o);
      var left := held - o.quantity;
      var settled := a.(cash := a.cash + (GrossValue(o) - Fee(o)),
                        realizedGross := a.realizedGross + gross,
                        realizedNet := a.realizedNet + net,
                        inventory := a.inventory[s := left]);
      Success(Executed(
                if left == 0.0 then
                  settled.(average := a.average - {s}, entryFees := a.entryFees - {s}, capital := a.capital - {s})
                else
                  settled.(entryFees := a.entryFees[s := a.entryFees[s] - fees],
                           capital := a.capital[s := a.capital[s] - capital]),
                Outcome(capital, gross, net)))
  }

  function Execute(a: Account, o: Order): (r: Result<Executed, Refusal>)
    requires ValidOrder(o) && WellFormed(a)
    ensures r.Success? ==> WellFormed(r.value.account)
  {
    if FillPrice(o) <= 0.0 then Failure(NonPositiveFillPrice)
    else if o.side.Buy? then BuyOrder(a, o) else SellOrder(a, o)
  }

  /** The account after a sequence of orders; a refused order changes nothing. */
  function Run(a: Account, orders: seq<Order>): (r: Account)
    requires WellFormed(a) && forall o :: o in orders ==> ValidOrder(o)
    ensures WellFormed(r)
  {
    if orders == [] then a
    else
      var before := Run(a, orders[..|orders| - 1]);
      var r := Execute(before, orders[|orders| - 1]);
      if r.Success? then r.value.account else before
  }

  /** Fees charged on the accepted orders of a run, entries and exits alike. */
  function FeesPaid(a: Account, orders: seq<Order>): real
    requires WellFormed(a) && forall o :: o in orders ==> ValidOrder(o)
  {
    if orders == [] then 0.0
    else
      var front, last := orders[..|orders| - 1], orders[|orders| - 1];
      FeesPaid(a, front) + if Execute(Run(a, front), last).Success? then Fee(last) else 0.0
  }

  /** The fill of an order: at the reference price moved against it by the slippage it asks for. */
  predicate FillsAtSlippedPrice(o: Order, fill: Fill) {
    var slip :=
      if o.slippageRate.Some? then o.slippageRate.value
      else if o.slippageBps.Some? then o.slippageBps.value / 10000.0
      else 0.0;
    && fill.symbol == o.symbol && fill.side == o.side && fill.quantity == o.quantity
    && fill.referencePrice == o.referencePrice && fill.slippageRate == slip && fill.latencyMs == o.latencyMs
    && fill.fillPrice == (if o.side.Buy? then o.referencePrice * (1.0 + slip) else o.referencePrice * (1.0 - slip))
    && fill.grossValue == fill.quantity * fill.fillPrice
    && fill.fee == fill.quantity * fill.fillPrice * o.feeRate
  }

  /** A buy pays its quantity at the fill price with the fee on top, a sale earns it less the fee;
      the quantity is what the holding of the symbol, and of no other, changes by. */
  predicate SettlesFill(o: Order, fill: Fill, before: Account, after: Account) {
    if o.side.Buy? then
      && after.cash == before.cash - fill.quantity * fill.fillPrice * (1.0 + o.feeRate)
      && after.inventory == before.inventory[o.symbol := Get(before.inventory, o.symbol) + fill.quantity]
    else
      && after.cash == before.cash + fill.quantity * fill.fillPrice * (1.0 - o.feeRate)
      && after.inventory == before.inventory[o.symbol := Get(before.inventory, o.symbol) - fill.quantity]
  }

  lemma FillIsSlipped(o: Order)
    ensures FillsAtSlippedPrice(o, FillOf(o))
  {}

  lemma FillParts(o: Order)
    ensures GrossValue(o) == o.quantity * FillPrice(o) && Fee(o) == o.quantity * FillPrice(o) * o.feeRate
    ensures GrossValue(o) + Fee(o) == o.quantity * FillPrice(o) * (1.0 + o.feeRate)
    ensures GrossValue(o) - Fee(o) == o.quantity * FillPrice(o) * (1.0 - o.feeRate)
  {
    FeeOnTop(o.quantity * FillPrice(o), o.feeRate);
    hide FillPrice;
  }

  lemma FeeOnTop(value: real, rate: real)
    ensures value * (1.0 + rate) == value + value * rate && value * (1.0 - rate) == value - value * rate
  {}

  lemma BuySettles(a: Account, o: Order)
    requires ValidOrder(o) && WellFormed(a) && o.side.Buy? && BuyOrder(a, o).Success?
    ensures SettlesFill(o, FillOf(o), a, BuyOrder(a, o).value.account)
  {
    hide FillPrice, GrossValue, Fee, ValidOrder, WellFormed, BuyOrder, PerUnit, Worth, Get;
    FillParts(o);
    BuyAccepted(a, o);
  }

  lemma SellSettles(a: Account, o: Order)
    requires ValidOrder(o) && WellFormed(a) && o.side.Sell? && SellOrder(a, o).Success?
    ensures SettlesFill(o, FillOf(o), a, SellOrder(a, o).value.account)
  {
    hide FillPrice, GrossValue, Fee, ValidOrder, WellFormed, SellOrder, Portion, Gain, Get;
    FillParts(o);
    SellFields(a, o);
  }

  lemma OrderSettles(a: Account, o: Order)
    requires ValidOrder(o) && WellFormed(a) && Execute(a, o).Success?
    ensures SettlesFill(o, FillOf(o), a, Execute(a, o).value.account)
  {
    hide FillPrice, ValidOrder, WellFormed, BuyOrder, SellOrder, SettlesFill;
    if o.side.Buy? {
      BuySettles(a, o);
    } else {
      SellSettles(a, o);
    }
  }

  function Opened(cash: real): Account {
    Account(cash, map[], 0.0, 0.0, map[], map[], map[])
  }

  datatype RoundTripError = WrongSides | SymbolMismatch | QuantityMismatch | NegativeHolding

  /** A buy fill and a sell fill read as one trade of a backtest. */
  function RoundTrip(entry: Fill, exit: Fill, holding: real): Result<Backtest.BacktestResult, RoundTripError>
    requires entry.grossValue > 0.0 && exit.grossValue > 0.0 && entry.referencePrice > 0.0 && entry.fee >= 0.0
  {
    if !entry.side.Buy? || !exit.side.Sell? then Failure(WrongSides)
    else if entry.symbol != exit.symbol then Failure(SymbolMismatch)
    else if entry.quantity != exit.quantity then Failure(QuantityMismatch)
    else if holding < 0.0 then Failure(NegativeHolding)
    else
      var grossReturn := (exit.referencePrice - entry.referencePrice) / entry.referencePrice;
      Success(Backtest.BacktestResult(
                (exit.grossValue - exit.fee) / (entry.grossValue + entry.fee) - 1.0,
                0.0,
                if grossReturn > 0.0 then 1.0 else 0.0,
                1,
                holding,
                grossReturn - entry.fee / entry.grossValue - exit.fee / exit.grossValue,
                grossReturn - entry.slippageRate - exit.slippageRate))
  }

  // ----- The account as the program keeps it: one object updated in place -----

  datatype MarkError = MissingMark(symbol: string) | MissingBasis(symbol: string) | BadMark(symbol: string)

  datatype MarkToMarket = MarkToMarket(
    cash: real,
    inventoryValue: real,
    equity: real,
    realizedGross: real,
    realizedNet: real,
    unrealizedGross: real)

  ghost function OpenSymbols(a: Account): set<string> {
    set s | s in a.inventory && a.inventory[s] > 0.0
  }

  ghost predicate Marked(a: Account, marks: Table, s: string) {
    s in marks && s in a.average && marks[s] > 0.0
  }

  ghost function ValueTable(a: Account, marks: Table, over: set<string>): Table
    requires over <= a.inventory.Keys && over <= marks.Keys
  {
    map s | s in over :: Worth(marks[s], a.inventory[s])
  }

  ghost function GainTable(a: Account, marks: Table, over: set<string>): Table
    requires over <= a.inventory.Keys && over <= marks.Keys && over <= a.average.Keys
  {
    map s | s in over :: Gain(marks[s], a.average[s], a.inventory[s])
  }

  class PaperAccount {
    var cash: real
    var inventory: Table
    var realizedGross: real
    var realizedNet: real
    var average: Table
    var entryFees: Table
    var capital: Table

    function State(): Account
      reads this
    {
      Account(cash, inventory, realizedGross, realizedNet, average, entryFees, capital)
    }

    constructor (cash: real)
      requires cash >= 0.0
      ensures State() == Opened(cash)
    {
      this.cash, inventory := cash, map[];
      realizedGross, realizedNet := 0.0, 0.0;
      average, entryFees, capital := map[], map[], map[];
    }

    method ExecuteOrder(o: Order) returns (r: Result<TradeResult, Refusal>)
      requires ValidOrder(o) && WellFormed(State())
      modifies this
      ensures match Execute(old(State()), o) {
                case Failure(e) => r == Failure(e) && State() == old(State())
                case Success(x) =>
                  && State() == x.account
                  && r == Success(TradeResult(FillOf(o), x.account.cash, x.account.inventory, x.outcome))
              }
      ensures r.Success? ==>
                FillsAtSlippedPrice(o, r.value.fill) && SettlesFill(o, r.value.fill, old(State()), State())
    {
      hide FillsAtSlippedPrice, SettlesFill, GrossValue, Fee, FillPrice, EffectiveSlippageRate, BuyOrder, SellOrder;
      FillIsSlipped(o);
      FillParts(o);
      if Execute(State(), o).Success? {
        OrderSettles(State(), o);
      }
      var price := FillPrice(o);
      if price <= 0.0 {
        return Failure(NonPositiveFillPrice);
      }
      var gross := o.quantity * price;
      var fee := gross * o.feeRate;
      var outcome;
      if o.side.Buy? {
        outcome := ExecuteBuy(o, gross, fee);
      } else {
        outcome := ExecuteSell(o, price, gross, fee);
      }
      if outcome.Failure? {
        return Failure(outcome.error);
      }
      var fill := Fill(o.symbol, o.side, o.quantity, o.referencePrice, price, gross, fee,
                       EffectiveSlippageRate(o), o.latencyMs);
      r := Success(TradeResult(fill, cash, inventory, outcome.value));
    }

    method ExecuteBuy(o: Order, gross: real, fee: real) returns (r: Result<Outcome, Refusal>)
      requires ValidOrder(o) && WellFormed(State()) && gross == GrossValue(o) && fee == Fee(o)
      modifies this
      ensures match BuyOrder(old(State()), o) {
                case Failure(e) => r == Failure(e) && State() == old(State())
                case Success(x) => r == Success(x.outcome) && State() == x.account
              }
    {
      hide FillPrice, GrossValue, Fee, Worth, PerUnit, Get, WellFormed, ValidOrder, BuyOrder;
      BuyAccepted(State(), o);
      var totalCost := gross + fee;
      if totalCost > cash {
        return Failure(InsufficientCash);
      }
      var previousQuantity := Get(inventory, o.symbol);
      var newQuantity := previousQuantity + o.quantity;
      var previousCost := Worth(Get(average, o.symbol), previousQuantity);
      average := average[o.symbol := PerUnit(previousCost + gross, newQuantity)];
      entryFees := entryFees[o.symbol := Get(entryFees, o.symbol) + fee];
      capital := capital[o.symbol := Get(capital, o.symbol) + totalCost];
      cash := cash - totalCost;
      inventory := inventory[o.symbol := newQuantity];
      r := Success(Outcome(totalCost, 0.0, 0.0));
    }

    method ExecuteSell(o: Order, price: real, gross: real, fee: real) returns (r: Result<Outcome, Refusal>)
      requires ValidOrder(o) && WellFormed(State())
      requires price == FillPrice(o) && gross == GrossValue(o) && fee == Fee(o)
      modifies this
      ensures match SellOrder(old(State()), o) {
                case Failure(e) => r == Failure(e) && State() == old(State())
                case Success(x) => r == Success(x.outcome) && State() == x.account
              }
    {
      hide FillPrice, GrossValue, Fee, Portion, Gain, Get, WellFormed, ValidOrder, SellOrder;
      SellRefused(State(), o);
      SellFields(State(), o);
      var s := o.symbol;
      var currentQuantity := Get(inventory, s);
      if o.quantity > currentQuantity {
        return Failure(InsufficientInventory);
      }
      if s !in average || s !in entryFees || s !in capital {
        return Failure(MissingCostBasis);
      }
      var averageEntry, entryFee, capitalUsed := average[s], entryFees[s], capital[s];
      var allocatedEntryFee := Portion(entryFee, o.quantity, currentQuantity);
      var allocatedCapital := Portion(capitalUsed, o.quantity, currentQuantity);
      var gain := Gain(price, averageEntry, o.quantity);
      var netGain := gain - allocatedEntryFee - fee;
      var remaining := currentQuantity - o.quantity;
      if cash + (gross - fee) < 0.0 {
        return Failure(NegativeCash);
      }
      cash := cash + (gross - fee);
      realizedGross := realizedGross + gain;
      realizedNet := realizedNet + netGain;
      if remaining == 0.0 {
        inventory := inventory[s := 0.0];
        average, entryFees, capital := average - {s}, entryFees - {s}, capital - {s};
      } else {
        inventory := inventory[s := remaining];
        entryFees := entryFees[s := entryFee - allocatedEntryFee];
        capital := capital[s := capitalUsed - allocatedCapital];
      }
      r := Success(Outcome(allocatedCapital, gain, netGain));
    }

    /** Values the open positions, or reports one that cannot be valued. */
    method Mark(marks: Table) returns (r: Result<MarkToMarket, MarkError>)
      ensures r.Success? <==> forall s :: s in OpenSymbols(State()) ==> Marked(State(), marks, s)
      ensures r.Success? ==>
                var open := OpenSymbols(State());
                && r.value.inventoryValue == Total(ValueTable(State(), marks, open))
                && r.value.unrealizedGross == Total(GainTable(State(), marks, open))
                && r.value.equity == cash + r.value.inventoryValue
                && r.value.cash == cash
                && r.value.realizedGross == realizedGross
                && r.value.realizedNet == realizedNet
      ensures r.Failure? ==>
                && r.error.symbol in OpenSymbols(State())
                && match r.error {
                     case MissingMark(s) => s !in marks
                     case MissingBasis(s) => s in marks && s !in average
                     case BadMark(s) => s in marks && marks[s] <= 0.0
                   }
    {
      var inventoryValue, unrealized := 0.0, 0.0;
      var pending := inventory.Keys;
      ghost var seen: set<string> := {};
      while pending != {}
        invariant pending <= inventory.Keys
        invariant seen == OpenSymbols(State()) - pending
        invariant forall s :: s in seen ==> Marked(State(), marks, s)
        invariant inventoryValue == Total(ValueTable(State(), marks, seen))
        invariant unrealized == Total(GainTable(State(), marks, seen))
        decreases pending
      {
        var s :| s in pending;
        pending := pending - {s};
        if inventory[s] > 0.0 {
          assert s in OpenSymbols(State());
          if s !in marks {
            return Failure(MissingMark(s));
          }
          if s !in average {
            return Failure(MissingBasis(s));
          }
          if marks[s] <= 0.0 {
            return Failure(BadMark(s));
          }
          TablesGrow(State(), marks, seen, s);
          inventoryValue := inventoryValue + Worth(marks[s], inventory[s]);
          unrealized := unrealized + Gain(marks[s], average[s], inventory[s]);
          seen := seen + {s};
        }
      }
      assert seen == OpenSymbols(State());
      r := Success(MarkToMarket(cash, inventoryValue, cash + inventoryValue, realizedGross, realizedNet, unrealized));
    }
  }

  lemma BuyAccepted(a: Account, o: Order)
    requires ValidOrder(o) && WellFormed(a)
    ensures Get(a.inventory, o.symbol) + o.quantity > 0.0
    ensures var cost := GrossValue(o) + Fee(o);
            BuyOrder(a, o) == if cost > a.cash then Failure(InsufficientCash)
                              else Success(Executed(Bought(a, o.symbol, o.quantity, GrossValue(o), Fee(o)),
                                                    Outcome(cost, 0.0, 0.0)))
  {
    hide GrossValue, Fee, Bought;
  }

  lemma SellRefused(a: Account, o: Order)
    requires ValidOrder(o) && WellFormed(a)
    ensures var s := o.symbol; var r := SellOrder(a, o);
            if o.quantity > Get(a.inventory, s) then r == Failure(InsufficientInventory)
            else if s !in a.average || s !in a.entryFees || s !in a.capital then r == Failure(MissingCostBasis)
            else if a.cash + (GrossValue(o) - Fee(o)) < 0.0 then r == Failure(NegativeCash)
            else r.Success? && Get(a.inventory, s) > 0.0
    ensures Get(a.inventory, o.symbol) >= o.quantity ==> Get(a.inventory, o.symbol) > 0.0
  {
    hide FillPrice, GrossValue, Fee, Portion, Gain;
  }

  /** The fields a sale sets, one by one. */
  lemma SellFields(a: Account, o: Order)
    requires ValidOrder(o) && WellFormed(a)
    ensures SellOrder(a, o).Success? ==>
              var x := SellOrder(a, o).value; var s, b := o.symbol, x.account; var held := Get(a.inventory, s);
              var left := held - o.quantity;
              && held > 0.0 && s in a.average && s in a.entryFees && s in a.capital
              && x.outcome.capitalUsed == Portion(a.capital[s], o.quantity, held)
              && x.outcome.realizedGross == Gain(FillPrice(o), a.average[s], o.quantity)
              && x.outcome.realizedNet
                 == x.outcome.realizedGross - Portion(a.entryFees[s], o.quantity, held) - Fee(o)
              && b.cash == a.cash + (GrossValue(o) - Fee(o))
              && b.realizedGross == a.realizedGross + x.outcome.realizedGross
              && b.realizedNet == a.realizedNet + x.outcome.realizedNet
              && b.inventory == a.inventory[s := left]
              && b.average == (if left == 0.0 then a.average - {s} else a.average)
              && b.entryFees == (if left == 0.0 then a.entryFees - {s} else
                                   a.entryFees[s := a.entryFees[s] - Portion(a.entryFees[s], o.quantity, held)])
              && b.capital == (if left == 0.0 then a.capital - {s} else
                                 a.capital[s := a.capital[s] - x.outcome.capitalUsed])
  {
    hide FillPrice, GrossValue, Fee, Portion, Gain;
  }

  lemma TablesGrow(a: Account, marks: Table, over: set<string>, s: string)
    requires over + {s} <= a.inventory.Keys && over + {s} <= marks.Keys && over + {s} <= a.average.Keys
    requires s !in over
    ensures Total(ValueTable(a, marks, over + {s}))
         == Total(ValueTable(a, marks, over)) + Worth(marks[s], a.inventory[s])
    ensures Total(GainTable(a, marks, over + {s}))
         == Total(GainTable(a, marks, over)) + Gain(marks[s], a.average[s], a.inventory[s])
  {
    hide Worth, Gain;
    var values, gains := ValueTable(a, marks, over), GainTable(a, marks, over);
    assert ValueTable(a, marks, over + {s}) == values[s := Worth(marks[s], a.inventory[s])];
    assert GainTable(a, marks, over + {s}) == gains[s := Gain(marks[s], a.average[s], a.inventory[s])];
    TotalPut(values, s, Worth(marks[s], a.inventory[s]));
    TotalPut(gains, s, Gain(marks[s], a.average[s], a.inventory[s]));
  }
}
