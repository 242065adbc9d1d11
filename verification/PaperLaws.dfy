/** Accounting laws of the paper account, over every sequence of orders. */
module PaperLaws {
  import opened Common
  import opened TableSums
  import opened RealFacts
  import opened PaperAccounts

  /** The cost-basis tables describe exactly the symbols held. */
  ghost predicate TablesMatch(a: Account) {
    && WellFormed(a)
    && a.average.Keys == a.entryFees.Keys == a.capital.Keys == OpenSymbols(a)
    && forall s :: s in a.capital ==> BasisMatches(a, s)
  }

  /** A symbol's capital is its cost basis plus its entry fees. */
  ghost predicate BasisMatches(a: Account, s: string) {
    && s in a.inventory && s in a.average && s in a.entryFees && s in a.capital
    && a.average[s] > 0.0
    && a.entryFees[s] >= 0.0
    && a.capital[s] == Worth(a.average[s], a.inventory[s]) + a.entryFees[s]
  }

  /** The books balance: nothing is created or lost between cash, capital at work and realized profit. */
  ghost predicate Balanced(a: Account, initial: real, feesPaid: real) {
    && a.cash + Total(a.capital) == initial + a.realizedNet
    && a.realizedGross - a.realizedNet == feesPaid - Total(a.entryFees)
  }

  ghost function CostBasis(a: Account): Table
    requires TablesMatch(a)
  {
    map s | s in a.average :: Worth(a.average[s], a.inventory[s])
  }

  // ----- arithmetic of one order -----

  lemma PositivePrice(o: Order)
    requires ValidOrder(o) && FillPrice(o) > 0.0
    ensures GrossValue(o) > 0.0 && Fee(o) >= 0.0
  {}

  lemma PortionTimes(x: real, part: real, whole: real)
    requires whole != 0.0
    ensures Portion(x, part, whole) * whole == x * part
  {
    assert part / whole * whole == part;
    assert x * (part / whole) * whole == x * (part / whole * whole);
  }

  lemma PortionBounds(x: real, part: real, whole: real)
    requires x >= 0.0 && 0.0 <= part <= whole && whole > 0.0
    ensures 0.0 <= Portion(x, part, whole) <= x
  {
    assert 0.0 <= part / whole <= 1.0;
  }

  lemma PortionAll(x: real, whole: real)
    requires whole != 0.0
    ensures Portion(x, whole, whole) == x
  {}

  lemma PortionAdd(x: real, y: real, part: real, whole: real)
    requires whole != 0.0
    ensures Portion(x + y, part, whole) == Portion(x, part, whole) + Portion(y, part, whole)
  {}

  lemma PortionOfWorth(price: real, part: real, whole: real)
    requires whole != 0.0
    ensures Portion(Worth(price, whole), part, whole) == Worth(price, part)
  {
    PortionTimes(price, part, whole);
    assert price * whole * (part / whole) == price * (part / whole) * whole;
  }

  lemma WorthSplit(price: real, whole: real, part: real)
    ensures Worth(price, whole) - Worth(price, part) == Worth(price, whole - part)
  {}

  lemma AverageSplits(basis: real, quantity: real)
    requires quantity != 0.0
    ensures Worth(PerUnit(basis, quantity), quantity) == basis
  {}

  lemma AverageWorth(basis: real, gross: real, quantity: real)
    requires basis >= 0.0 && gross > 0.0 && quantity > 0.0
    ensures Worth(PerUnit(basis + gross, quantity), quantity) == basis + gross
    ensures PerUnit(basis + gross, quantity) > 0.0
  {}

  lemma BasisNonNegative(a: Account, s: string)
    requires TablesMatch(a)
    ensures Worth(Get(a.average, s), Get(a.inventory, s)) >= 0.0
    ensures s !in a.capital ==> Worth(Get(a.average, s), Get(a.inventory, s)) == 0.0
  {}

  lemma BuyKeepsTables(a: Account, o: Order)
    requires TablesMatch(a) && ValidOrder(o) && o.side.Buy?
    requires Execute(a, o).Success?
    ensures TablesMatch(Execute(a, o).value.account)
  {
    hide GrossValue, Fee, FillPrice, PerUnit, Worth, BasisMatches;
    var s, b := o.symbol, Execute(a, o).value.account;
    assert OpenSymbols(b) == OpenSymbols(a) + {s};
    BoughtBasis(a, o);
    hide Execute;
    forall r | r in b.capital
      ensures BasisMatches(b, r)
    {
      if r != s {
        OtherBasis(a, b, r);
      }
    }
  }

  lemma BoughtBasis(a: Account, o: Order)
    requires TablesMatch(a) && ValidOrder(o) && o.side.Buy? && Execute(a, o).Success?
    ensures var s, b := o.symbol, Execute(a, o).value.account;
            && BasisMatches(b, s)
            && forall r :: r != s ==> SameEntries(a, b, r)
  {
    hide GrossValue, Fee, FillPrice, PerUnit, Worth, OpenSymbols;
    var s := o.symbol;
    var held := Get(a.inventory, s);
    PositivePrice(o);
    BasisNonNegative(a, s);
    AverageWorth(Worth(Get(a.average, s), held), GrossValue(o), held + o.quantity);
  }

  /** The two accounts agree on a symbol. */
  ghost predicate SameEntries(a: Account, b: Account, s: string) {
    && (s in a.inventory <==> s in b.inventory) && Get(a.inventory, s) == Get(b.inventory, s)
    && (s in a.average <==> s in b.average) && Get(a.average, s) == Get(b.average, s)
    && (s in a.entryFees <==> s in b.entryFees) && Get(a.entryFees, s) == Get(b.entryFees, s)
    && (s in a.capital <==> s in b.capital) && Get(a.capital, s) == Get(b.capital, s)
  }

  lemma OtherBasis(a: Account, b: Account, s: string)
    requires SameEntries(a, b, s) && BasisMatches(a, s)
    ensures BasisMatches(b, s)
  {
    hide Worth;
  }

  /** A sale releases the cost basis of what it sells together with its part of the entry fees. */
  lemma SaleReleases(a: Account, o: Order)
    requires TablesMatch(a) && ValidOrder(o) && o.symbol in a.capital && o.quantity <= a.inventory[o.symbol]
    ensures var s := o.symbol; var held := a.inventory[s];
            && Portion(a.capital[s], o.quantity, held)
               == Worth(a.average[s], o.quantity) + Portion(a.entryFees[s], o.quantity, held)
            && 0.0 <= Portion(a.entryFees[s], o.quantity, held) <= a.entryFees[s]
            && Gain(FillPrice(o), a.average[s], o.quantity) == GrossValue(o) - Worth(a.average[s], o.quantity)
  {
    var s := o.symbol;
    var held := a.inventory[s];
    PortionAdd(Worth(a.average[s], held), a.entryFees[s], o.quantity, held);
    PortionOfWorth(a.average[s], o.quantity, held);
    PortionBounds(a.entryFees[s], o.quantity, held);
  }

  lemma SellKeepsTables(a: Account, o: Order)
    requires TablesMatch(a) && ValidOrder(o) && o.side.Sell?
    requires Execute(a, o).Success?
    ensures TablesMatch(Execute(a, o).value.account)
  {
    hide GrossValue, Fee, FillPrice, PerUnit, Worth, Portion, Gain, BasisMatches;
    var s, b := o.symbol, Execute(a, o).value.account;
    assert OpenSymbols(b) == if a.inventory[s] == o.quantity then OpenSymbols(a) - {s} else OpenSymbols(a);
    SoldBasis(a, o);
    hide Execute;
    forall r | r in b.capital
      ensures BasisMatches(b, r)
    {
      if r != s {
        OtherBasis(a, b, r);
      }
    }
  }

  lemma SoldBasis(a: Account, o: Order)
    requires TablesMatch(a) && ValidOrder(o) && o.side.Sell? && Execute(a, o).Success?
    ensures var s, b := o.symbol, Execute(a, o).value.account;
            && (s in b.capital ==> BasisMatches(b, s))
            && forall r :: r != s ==> SameEntries(a, b, r)
  {
    hide GrossValue, Fee, FillPrice, PerUnit, Worth, Portion, Gain, OpenSymbols;
    SaleReleases(a, o);
    WorthSplit(a.average[o.symbol], a.inventory[o.symbol], o.quantity);
  }

  lemma BuyKeepsBalance(a: Account, o: Order, initial: real, feesPaid: real)
    requires TablesMatch(a) && Balanced(a, initial, feesPaid) && ValidOrder(o) && o.side.Buy?
    requires Execute(a, o).Success?
    ensures Balanced(Execute(a, o).value.account, initial, feesPaid + Fee(o))
  {
    hide GrossValue, Fee, FillPrice, PerUnit, Worth, Added;
    TotalAdded(a.capital, o.symbol, GrossValue(o) + Fee(o));
    TotalAdded(a.entryFees, o.symbol, Fee(o));
  }

  lemma SellKeepsBalance(a: Account, o: Order, initial: real, feesPaid: real)
    requires TablesMatch(a) && Balanced(a, initial, feesPaid) && ValidOrder(o) && o.side.Sell?
    requires Execute(a, o).Success?
    ensures Balanced(Execute(a, o).value.account, initial, feesPaid + Fee(o))
  {
    SaleReleases(a, o);
    var s := o.symbol;
    var held := a.inventory[s];
    PortionAll(a.capital[s], held);
    PortionAll(a.entryFees[s], held);
    hide GrossValue, Fee, FillPrice, PerUnit, Worth, Portion, Gain;
    if held == o.quantity {
      TotalDrop(a.capital, s);
      TotalDrop(a.entryFees, s);
    } else {
      TotalPut(a.capital, s, a.capital[s] - Portion(a.capital[s], o.quantity, held));
      TotalPut(a.entryFees, s, a.entryFees[s] - Portion(a.entryFees[s], o.quantity, held));
    }
  }

  // ----- every run -----

  /** A run can be stopped and taken up again, and a single order is executed or leaves the account alone. */
  lemma {:induction false} RunResumes(a: Account, first: seq<Order>, later: seq<Order>)
    requires WellFormed(a) && forall o :: o in first + later ==> ValidOrder(o)
    ensures (forall o :: o in first ==> ValidOrder(o)) && forall o :: o in later ==> ValidOrder(o)
    ensures Run(a, first + later) == Run(Run(a, first), later)
    ensures |later| == 1 ==>
              Run(a, later) == if Execute(a, later[0]).Success? then Execute(a, later[0]).value.account else a
  {
    hide Execute;
    assert forall o :: o in later ==> o in first + later;
    assert forall o :: o in first ==> o in first + later;
    if later == [] {
      assert first + later == first;
    } else {
      var front, last := later[..|later| - 1], later[|later| - 1];
      assert (first + later)[..|first + later| - 1] == first + front;
      assert forall o :: o in first + front ==> o in first + later;
      RunResumes(a, first, front);
      assert |later| == 1 ==> front == [] && Run(a, front) == a;
    }
  }

  /** After any orders on a fresh account: the tables hold exactly the open symbols, each symbol's
      capital is its cost basis plus its entry fees, and the books balance. */
  lemma {:induction false} RunKeepsBooks(cash: real, orders: seq<Order>)
    requires cash >= 0.0 && forall o :: o in orders ==> ValidOrder(o)
    ensures TablesMatch(Run(Opened(cash), orders))
    ensures Balanced(Run(Opened(cash), orders), cash, FeesPaid(Opened(cash), orders))
  {
    if orders == [] {
      assert OpenSymbols(Opened(cash)) == {};
    } else {
      var front, last := orders[..|orders| - 1], orders[|orders| - 1];
      RunKeepsBooks(cash, front);
      var a := Run(Opened(cash), front);
      if Execute(a, last).Success? {
        var paid := FeesPaid(Opened(cash), front);
        if last.side.Buy? {
          BuyKeepsTables(a, last);
          BuyKeepsBalance(a, last, cash, paid);
        } else {
          SellKeepsTables(a, last);
          SellKeepsBalance(a, last, cash, paid);
        }
      }
    }
  }

  /** Cash, cost basis and outstanding entry fees add up to initial cash plus realized profit. */
  lemma CostBasisIdentity(cash: real, orders: seq<Order>)
    requires cash >= 0.0 && forall o :: o in orders ==> ValidOrder(o)
    ensures var a := Run(Opened(cash), orders);
            && TablesMatch(a)
            && a.cash + Total(CostBasis(a)) + Total(a.entryFees) == cash + a.realizedNet
  {
    RunKeepsBooks(cash, orders);
    var a := Run(Opened(cash), orders);
    TotalAdd(CostBasis(a), a.entryFees, a.capital);
  }

  /** Marking to market: whatever the positive marks, equity differs from initial cash by realized
      profit, unrealized gain and the entry fees still allocated to open positions. */
  lemma EquityIdentity(cash: real, orders: seq<Order>, marks: Table)
    requires cash >= 0.0 && forall o :: o in orders ==> ValidOrder(o)
    requires forall s :: s in OpenSymbols(Run(Opened(cash), orders)) ==> s in marks && marks[s] > 0.0
    ensures var a := Run(Opened(cash), orders); var open := OpenSymbols(a);
            && (forall s :: s in open ==> Marked(a, marks, s))
            && a.cash + Total(ValueTable(a, marks, open))
               == cash + a.realizedNet + Total(GainTable(a, marks, open)) - Total(a.entryFees)
  {
    CostBasisIdentity(cash, orders);
    var a := Run(Opened(cash), orders);
    TotalAdd(CostBasis(a), GainTable(a, marks, OpenSymbols(a)), ValueTable(a, marks, OpenSymbols(a)));
  }

  /** A flat account has turned all its profit into cash, and its gross and net profit differ by
      exactly the fees it was charged. */
  lemma FlatAccount(cash: real, orders: seq<Order>)
    requires cash >= 0.0 && forall o :: o in orders ==> ValidOrder(o)
    requires OpenSymbols(Run(Opened(cash), orders)) == {}
    ensures var a := Run(Opened(cash), orders);
            && a.cash == cash + a.realizedNet
            && a.realizedGross - a.realizedNet == FeesPaid(Opened(cash), orders)
  {
    RunKeepsBooks(cash, orders);
    var a := Run(Opened(cash), orders);
    assert a.capital == map[] && a.entryFees == map[];
  }

  lemma ProceedsNonNegative(o: Order)
    requires ValidOrder(o) && FillPrice(o) > 0.0 && o.feeRate <= 1.0
    ensures GrossValue(o) >= Fee(o)
  {
    hide GrossValue, FillPrice;
    PositivePrice(o);
    ProductAtMost(GrossValue(o), o.feeRate);
  }

  /** When an order on a reachable account is refused, and for which reason; a missing cost basis
      is never one. */
  lemma RefusalReasons(cash: real, orders: seq<Order>, o: Order)
    requires cash >= 0.0 && ValidOrder(o) && forall o :: o in orders ==> ValidOrder(o)
    ensures var a := Run(Opened(cash), orders); var r := Execute(a, o);
            && (r == Failure(NonPositiveFillPrice) <==> o.side.Sell? && EffectiveSlippageRate(o) >= 1.0)
            && (r == Failure(InsufficientCash) <==> o.side.Buy? && GrossValue(o) + Fee(o) > a.cash)
            && (r == Failure(InsufficientInventory) <==>
                o.side.Sell? && EffectiveSlippageRate(o) < 1.0 && Get(a.inventory, o.symbol) < o.quantity)
            && r != Failure(MissingCostBasis)
            && (r == Failure(NegativeCash) ==> o.feeRate > 1.0)
            && (r == Failure(NegativeCash) <==>
                o.side.Sell? && EffectiveSlippageRate(o) < 1.0 && Get(a.inventory, o.symbol) >= o.quantity
                && a.cash + GrossValue(o) < Fee(o))
  {
    hide FillPrice, GrossValue, Fee, EffectiveSlippageRate, Worth, Portion, Gain, PerUnit, Balanced;
    RunKeepsBooks(cash, orders);
    PriceSign(o);
    if FillPrice(o) > 0.0 && o.feeRate <= 1.0 {
      ProceedsNonNegative(o);
    }
  }

  lemma PriceSign(o: Order)
    requires ValidOrder(o)
    ensures EffectiveSlippageRate(o) >= 0.0
    ensures FillPrice(o) > 0.0 <==> o.side.Buy? || EffectiveSlippageRate(o) < 1.0
  {
    var slip := EffectiveSlippageRate(o);
    ProductSign(o.referencePrice, if o.side.Sell? then 1.0 - slip else 1.0 + slip);
  }

  // ----- splitting an order -----

  lemma Pieces(o: Order, q1: real, q2: real)
    requires ValidOrder(o) && q1 > 0.0 && q2 > 0.0 && o.quantity == q1 + q2
    ensures var o1, o2 := o.(quantity := q1), o.(quantity := q2);
            && ValidOrder(o1) && ValidOrder(o2)
            && FillPrice(o1) == FillPrice(o2) == FillPrice(o)
            && GrossValue(o) == GrossValue(o1) + GrossValue(o2)
            && Fee(o) == Fee(o1) + Fee(o2)
  {
    assert (q1 + q2) * FillPrice(o) == q1 * FillPrice(o) + q2 * FillPrice(o);
  }

  /** Two orders in a row, both accepted. */
  ghost predicate BothAccepted(a: Account, o1: Order, o2: Order)
    requires WellFormed(a) && ValidOrder(o1) && ValidOrder(o2)
  {
    Execute(a, o1).Success? && Execute(Execute(a, o1).value.account, o2).Success?
  }

  ghost predicate SameEffect(a: Account, o1: Order, o2: Order, whole: Order)
    requires WellFormed(a) && ValidOrder(o1) && ValidOrder(o2) && ValidOrder(whole)
  {
    && (BothAccepted(a, o1, o2) <==> Execute(a, whole).Success?)
    && (BothAccepted(a, o1, o2) ==>
          var first := Execute(a, o1).value;
          var second := Execute(first.account, o2).value;
          var once := Execute(a, whole).value;
          && second.account == once.account
          && once.outcome == Outcome(first.outcome.capitalUsed + second.outcome.capitalUsed,
                                     first.outcome.realizedGross + second.outcome.realizedGross,
                                     first.outcome.realizedNet + second.outcome.realizedNet))
  }

  /** Buying in two pieces is the same as buying at once. */
  lemma SplitBuy(a: Account, o: Order, q1: real, q2: real)
    requires WellFormed(a) && ValidOrder(o) && o.side.Buy?
    requires q1 > 0.0 && q2 > 0.0 && o.quantity == q1 + q2
    ensures ValidOrder(o.(quantity := q1)) && ValidOrder(o.(quantity := q2))
    ensures SameEffect(a, o.(quantity := q1), o.(quantity := q2), o)
  {
    Pieces(o, q1, q2);
    var o1, o2, s := o.(quantity := q1), o.(quantity := q2), o.symbol;
    if FillPrice(o) > 0.0 {
      PositivePrice(o1);
      PositivePrice(o2);
      if Execute(a, o).Success? {
        SplitBuyAccepted(a, o, q1, q2);
      }
    }
  }

  lemma SplitBuyAccepted(a: Account, o: Order, q1: real, q2: real)
    requires WellFormed(a) && ValidOrder(o) && q1 > 0.0 && q2 > 0.0 && o.quantity == q1 + q2
    requires ValidOrder(o.(quantity := q1)) && ValidOrder(o.(quantity := q2))
    requires BuyOrder(a, o).Success? && BuyOrder(a, o.(quantity := q1)).Success?
    requires WellFormed(BuyOrder(a, o.(quantity := q1)).value.account)
    requires BuyOrder(BuyOrder(a, o.(quantity := q1)).value.account, o.(quantity := q2)).Success?
    ensures BuyOrder(BuyOrder(a, o.(quantity := q1)).value.account, o.(quantity := q2)).value.account
         == BuyOrder(a, o).value.account
  {
    hide GrossValue, Fee, FillPrice, ValidOrder, WellFormed, BuyOrder, Get, Bought;
    var o1, o2, s := o.(quantity := q1), o.(quantity := q2), o.symbol;
    Pieces(o, q1, q2);
    BuyAccepted(a, o);
    BuyAccepted(a, o1);
    BuyAccepted(BuyOrder(a, o1).value.account, o2);
    BoughtTwice(a, s, q1, GrossValue(o1), Fee(o1), q2, GrossValue(o2), Fee(o2));
  }

  lemma BoughtTwice(
      a: Account, s: string, q1: real, gross1: real, fee1: real, q2: real, gross2: real, fee2: real)
    requires Get(a.inventory, s) + q1 != 0.0 && Get(a.inventory, s) + (q1 + q2) != 0.0
    ensures Get(Bought(a, s, q1, gross1, fee1).inventory, s) + q2 != 0.0
    ensures Bought(Bought(a, s, q1, gross1, fee1), s, q2, gross2, fee2)
         == Bought(a, s, q1 + q2, gross1 + gross2, fee1 + fee2)
  {
    hide Worth, PerUnit, Added;
    AddedTwice(a.inventory, s, q1, q2);
    AddedTwice(a.entryFees, s, fee1, fee2);
    AddedTwice(a.capital, s, gross1 + fee1, gross2 + fee2);
    assert gross1 + fee1 + (gross2 + fee2) == gross1 + gross2 + (fee1 + fee2);
    AverageOfPieces(a.average, s, Get(a.inventory, s), q1, gross1, q2, gross2);
  }

  /** Averaging in two steps is averaging in one. */
  lemma AverageOfPieces(m: Table, s: string, held: real, q1: real, gross1: real, q2: real, gross2: real)
    requires held + q1 != 0.0 && held + (q1 + q2) != 0.0
    ensures var basis := Worth(Get(m, s), held); var first := m[s := PerUnit(basis + gross1, held + q1)];
            first[s := PerUnit(Worth(Get(first, s), held + q1) + gross2, held + q1 + q2)]
            == m[s := PerUnit(basis + (gross1 + gross2), held + (q1 + q2))]
  {
    hide Worth, PerUnit;
    var basis := Worth(Get(m, s), held);
    AverageSplits(basis + gross1, held + q1);
    assert held + q1 + q2 == held + (q1 + q2) && basis + gross1 + gross2 == basis + (gross1 + gross2);
  }

  /** Releasing q1 and then q2 of what is left releases as much as q1 + q2 at once. */
  lemma SplitPortion(x: real, q1: real, q2: real, whole: real)
    requires 0.0 < q1 < whole
    ensures Portion(x - Portion(x, q1, whole), q2, whole - q1) == Portion(x, q2, whole)
    ensures Portion(x, q1, whole) + Portion(x, q2, whole) == Portion(x, q1 + q2, whole)
  {
    var rest, unit := whole - q1, x / whole;
    assert unit * whole == x;
    assert Portion(x, q1, whole) == unit * q1;
    assert Portion(x, q2, whole) == unit * q2;
    assert Portion(x, q1 + q2, whole) == unit * (q1 + q2);
    assert x - Portion(x, q1, whole) == Worth(unit, rest);
    PortionOfWorth(unit, q2, rest);
  }

  /** Selling in two pieces is the same as selling at once, also when the second piece closes the position. */
  lemma SplitSell(a: Account, o: Order, q1: real, q2: real)
    requires WellFormed(a) && ValidOrder(o) && o.side.Sell?
    requires q1 > 0.0 && q2 > 0.0 && o.quantity == q1 + q2
    ensures ValidOrder(o.(quantity := q1)) && ValidOrder(o.(quantity := q2))
    ensures SameEffect(a, o.(quantity := q1), o.(quantity := q2), o)
  {
    Pieces(o, q1, q2);
    var o1, o2, s := o.(quantity := q1), o.(quantity := q2), o.symbol;
    var held := Get(a.inventory, s);
    if FillPrice(o) > 0.0 && o.quantity <= held && s in a.average && s in a.entryFees && s in a.capital {
      SellProceedsSign(o1, o2);
      if Execute(a, o).Success? {
        SplitSellAccepted(a, o, q1, q2);
      }
    }
  }

  /** Both pieces add cash or both take cash, so the pieces stay non-negative exactly when the whole does. */
  lemma SellProceedsSign(o1: Order, o2: Order)
    requires ValidOrder(o1) && ValidOrder(o2) && o2 == o1.(quantity := o2.quantity) && FillPrice(o1) > 0.0
    ensures GrossValue(o1) >= Fee(o1) <==> GrossValue(o2) >= Fee(o2)
  {
    PositivePrice(o1);
    PositivePrice(o2);
    assert GrossValue(o1) - Fee(o1) == GrossValue(o1) * (1.0 - o1.feeRate);
    assert GrossValue(o2) - Fee(o2) == GrossValue(o2) * (1.0 - o1.feeRate);
  }

  lemma SplitSellAccepted(a: Account, o: Order, q1: real, q2: real)
    requires WellFormed(a) && ValidOrder(o) && o.side.Sell?
    requires q1 > 0.0 && q2 > 0.0 && o.quantity == q1 + q2
    requires ValidOrder(o.(quantity := q1)) && ValidOrder(o.(quantity := q2))
    requires Execute(a, o).Success? && BothAccepted(a, o.(quantity := q1), o.(quantity := q2))
    ensures SameEffect(a, o.(quantity := q1), o.(quantity := q2), o)
  {
    hide GrossValue, Fee, FillPrice, PerUnit, Worth, Portion, Gain, WellFormed, ValidOrder;
    Pieces(o, q1, q2);
    var o1, o2, s := o.(quantity := q1), o.(quantity := q2), o.symbol;
    var held := a.inventory[s];
    SplitPortion(a.entryFees[s], q1, q2, held);
    SplitPortion(a.capital[s], q1, q2, held);
    GainAdd(FillPrice(o), a.average[s], q1, q2);
    var once, twice := Execute(a, o).value.account, Execute(Execute(a, o1).value.account, o2).value.account;
    assert twice.average == once.average;
    assert twice.entryFees == once.entryFees && twice.capital == once.capital;
  }

  lemma GainAdd(price: real, entry: real, q1: real, q2: real)
    ensures Gain(price, entry, q1) + Gain(price, entry, q2) == Gain(price, entry, q1 + q2)
  {}

  // ----- what an accepted order reports -----

  /** The fill and result of an accepted order pass their own validators, so an order that
      has changed the account is never reported as a failure. */
  lemma ReportsAreValid(cash: real, orders: seq<Order>, o: Order)
    requires cash >= 0.0 && ValidOrder(o) && forall o :: o in orders ==> ValidOrder(o)
    requires Execute(Run(Opened(cash), orders), o).Success?
    ensures var f := FillOf(o); var x := Execute(Run(Opened(cash), orders), o).value;
            && f.quantity > 0.0 && f.referencePrice > 0.0 && f.fillPrice > 0.0
            && f.grossValue >= 0.0 && f.fee >= 0.0 && f.slippageRate >= 0.0 && f.latencyMs >= 0.0
            && x.account.cash >= 0.0
            && (forall s :: s in x.account.inventory ==> x.account.inventory[s] >= 0.0)
            && x.outcome.capitalUsed >= 0.0
  {
    RunKeepsBooks(cash, orders);
    PositivePrice(o);
    var a := Run(Opened(cash), orders);
    if o.side.Sell? {
      BasisNonNegative(a, o.symbol);
      PortionBounds(a.capital[o.symbol], o.quantity, a.inventory[o.symbol]);
      hide Portion, Worth, Gain;
    }
  }

  /** Capital moves with the cash: a buy commits exactly the cash it costs, and a sale brings in the
      capital it releases plus the net profit it realizes. */
  lemma CapitalMoves(a: Account, o: Order)
    requires TablesMatch(a) && ValidOrder(o) && Execute(a, o).Success?
    ensures var s := o.symbol; var b, x := Execute(a, o).value.account, Execute(a, o).value.outcome;
            && b.cash - a.cash == x.realizedNet + (if o.side.Sell? then x.capitalUsed else -x.capitalUsed)
            && Get(b.capital, s) - Get(a.capital, s) == (if o.side.Sell? then -x.capitalUsed else x.capitalUsed)
            && Get(b.inventory, s) - Get(a.inventory, s) == (if o.side.Sell? then -o.quantity else o.quantity)
            && b.realizedGross - a.realizedGross == x.realizedGross
            && b.realizedNet - a.realizedNet == x.realizedNet
  {
    var s := o.symbol;
    if o.side.Sell? {
      SaleReleases(a, o);
      PortionAll(a.capital[s], a.inventory[s]);
    }
    hide GrossValue, Fee, FillPrice, PerUnit, Worth, Portion, Gain;
  }

  lemma BuyThenSellNets(a: Account, buy: Order, sell: Order)
    requires TablesMatch(a) && ValidOrder(buy) && ValidOrder(sell) && buy.side.Buy? && sell.side.Sell?
    requires buy.symbol == sell.symbol && buy.quantity == sell.quantity && buy.symbol !in OpenSymbols(a)
    requires BothAccepted(a, buy, sell)
    ensures Execute(a, buy).value.outcome.capitalUsed == GrossValue(buy) + Fee(buy)
    ensures Execute(Execute(a, buy).value.account, sell).value.outcome.realizedNet
         == GrossValue(sell) - Fee(sell) - (GrossValue(buy) + Fee(buy))
  {
    var b := Execute(a, buy).value.account;
    var s := buy.symbol;
    BasisNonNegative(a, s);
    BuyKeepsTables(a, buy);
    SaleReleases(b, sell);
    PortionAll(b.entryFees[s], buy.quantity);
    PortionAll(b.capital[s], buy.quantity);
    hide GrossValue, Fee, FillPrice, PerUnit, Worth, Portion, Gain;
    assert b.inventory[s] == sell.quantity;
    assert b.capital[s] == GrossValue(buy) + Fee(buy);
  }

  /** What an order leaves of its reference price, per unit: slippage and fee both taken off a sale
      and both put on a buy. */
  function NetPrice(o: Order): real {
    FillPrice(o) * (if o.side.Sell? then 1.0 - o.feeRate else 1.0 + o.feeRate)
  }

  /** Buying a symbol not held and selling the same quantity again: the return that the round trip
      reports, times the capital the buy used, is the net profit the account realizes; it depends on
      prices and rates alone. The other figures are the reference return less the two fee rates and
      less the two slippages, and whether the reference price rose. */
  lemma RoundTripReturn(a: Account, buy: Order, sell: Order, holding: real)
    requires TablesMatch(a) && ValidOrder(buy) && ValidOrder(sell) && buy.side.Buy? && sell.side.Sell?
    requires buy.symbol == sell.symbol && buy.quantity == sell.quantity && holding >= 0.0
    requires buy.symbol !in OpenSymbols(a) && BothAccepted(a, buy, sell)
    ensures var f, g := FillOf(buy), FillOf(sell);
            && f.grossValue > 0.0 && g.grossValue > 0.0 && f.fee >= 0.0
            && RoundTrip(f, g, holding).Success?
    ensures var r := RoundTrip(FillOf(buy), FillOf(sell), holding).value;
            var first := Execute(a, buy).value;
            var second := Execute(first.account, sell).value;
            && r.netReturn * first.outcome.capitalUsed == second.outcome.realizedNet
            && (r.netReturn + 1.0) * NetPrice(buy) == NetPrice(sell)
    ensures var r := RoundTrip(FillOf(buy), FillOf(sell), holding).value;
            var rise := (sell.referencePrice - buy.referencePrice) / buy.referencePrice;
            && r.feeAdjusted == rise - buy.feeRate - sell.feeRate
            && r.slippageAdjusted == rise - EffectiveSlippageRate(buy) - EffectiveSlippageRate(sell)
            && r.winRate == (if sell.referencePrice > buy.referencePrice then 1.0 else 0.0)
            && r.maxDrawdown == 0.0 && r.tradeCount == 1 && r.averageHolding == holding
  {
    hide GrossValue, Fee, FillPrice, EffectiveSlippageRate, Execute, RoundTrip, NetPrice, OpenSymbols, BasisMatches;
    AcceptedFill(a, buy);
    AcceptedFill(Execute(a, buy).value.account, sell);
    BuyThenSellNets(a, buy, sell);
    RoundTripNet(FillOf(buy), FillOf(sell), holding);
    RoundTripRates(buy, sell, holding);
  }

  lemma AcceptedFill(a: Account, o: Order)
    requires WellFormed(a) && ValidOrder(o) && Execute(a, o).Success?
    ensures FillPrice(o) > 0.0 && GrossValue(o) > 0.0 && Fee(o) >= 0.0
  {
    hide BuyOrder, SellOrder, FillPrice;
    PositivePrice(o);
  }

  lemma RoundTripNet(f: Fill, g: Fill, holding: real)
    requires f.side.Buy? && g.side.Sell? && f.symbol == g.symbol && f.quantity == g.quantity && holding >= 0.0
    requires f.grossValue > 0.0 && g.grossValue > 0.0 && f.referencePrice > 0.0 && f.fee >= 0.0
    ensures RoundTrip(f, g, holding).Success?
    ensures RoundTrip(f, g, holding).value.netReturn * (f.grossValue + f.fee)
         == g.grossValue - g.fee - (f.grossValue + f.fee)
  {
    var spent, got := f.grossValue + f.fee, g.grossValue - g.fee;
    assert got / spent * spent == got;
  }

  /** A round trip is refused for the first of these that is wrong: the sides, the symbols, the
      quantities, the holding time. */
  lemma RoundTripRefusals(f: Fill, g: Fill, holding: real)
    requires f.grossValue > 0.0 && g.grossValue > 0.0 && f.referencePrice > 0.0 && f.fee >= 0.0
    ensures var r, sides := RoundTrip(f, g, holding), f.side.Buy? && g.side.Sell?;
            && (r == Failure(WrongSides) <==> !sides)
            && (r == Failure(SymbolMismatch) <==> sides && f.symbol != g.symbol)
            && (r == Failure(QuantityMismatch) <==> sides && f.symbol == g.symbol && f.quantity != g.quantity)
            && (r == Failure(NegativeHolding) <==>
                sides && f.symbol == g.symbol && f.quantity == g.quantity && holding < 0.0)
  {}

  /** What an order moves in cash is its quantity at the net price. */
  lemma CashAtNetPrice(o: Order)
    ensures o.quantity * NetPrice(o) == if o.side.Sell? then GrossValue(o) - Fee(o) else GrossValue(o) + Fee(o)
  {
    hide FillPrice;
    var q, p, r := o.quantity, FillPrice(o), o.feeRate;
    assert q * (p * (1.0 - r)) == q * p - q * p * r;
    assert q * (p * (1.0 + r)) == q * p + q * p * r;
  }

  lemma FeeShare(o: Order)
    requires GrossValue(o) > 0.0
    ensures Fee(o) / GrossValue(o) == o.feeRate
  {
    hide GrossValue;
    Cancel(Fee(o) / GrossValue(o), o.feeRate, GrossValue(o));
  }

  lemma RoundTripRates(buy: Order, sell: Order, holding: real)
    requires ValidOrder(buy) && ValidOrder(sell) && buy.side.Buy? && sell.side.Sell? && holding >= 0.0
    requires buy.symbol == sell.symbol && buy.quantity == sell.quantity
    requires GrossValue(buy) > 0.0 && GrossValue(sell) > 0.0 && Fee(buy) >= 0.0
    ensures RoundTrip(FillOf(buy), FillOf(sell), holding).Success?
    ensures var r := RoundTrip(FillOf(buy), FillOf(sell), holding).value;
            var rise := (sell.referencePrice - buy.referencePrice) / buy.referencePrice;
            && (r.netReturn + 1.0) * NetPrice(buy) == NetPrice(sell)
            && r.feeAdjusted == rise - buy.feeRate - sell.feeRate
            && r.slippageAdjusted == rise - EffectiveSlippageRate(buy) - EffectiveSlippageRate(sell)
            && r.winRate == (if sell.referencePrice > buy.referencePrice then 1.0 else 0.0)
            && r.maxDrawdown == 0.0 && r.tradeCount == 1 && r.averageHolding == holding
  {
    hide GrossValue, Fee, FillPrice, EffectiveSlippageRate, NetPrice;
    FeeShare(buy);
    FeeShare(sell);
    RatioOrder(sell.referencePrice - buy.referencePrice, 0.0, buy.referencePrice);
    hide RoundTrip;
    RoundTripNet(FillOf(buy), FillOf(sell), holding);
    CashAtNetPrice(buy);
    CashAtNetPrice(sell);
    NetReturnPerUnit(RoundTrip(FillOf(buy), FillOf(sell), holding).value.netReturn,
                     buy.quantity, NetPrice(buy), NetPrice(sell));
  }

  lemma NetReturnPerUnit(net: real, quantity: real, spent: real, got: real)
    requires quantity > 0.0 && net * (quantity * spent) == quantity * got - quantity * spent
    ensures (net + 1.0) * spent == got
  {
    assert (net + 1.0) * spent * quantity == net * (quantity * spent) + quantity * spent;
    Cancel((net + 1.0) * spent, got, quantity);
  }
}
