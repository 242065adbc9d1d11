/** The backtest kernel: one loop extracts trades from entry and exit signals, a second
    one compounds equity over the same bars, and a summary is drawn from both. */
module Backtest {
  import opened Common
  import opened RealFacts

  datatype Signals = Signals(prices: seq<real>, entries: seq<bool>, exits: seq<bool>)

  datatype SignalError = TooFewPrices | LengthMismatch | NegativeFee | NegativeSlippage | ZeroEntryPrice

  datatype BacktestResult = BacktestResult(
    netReturn: real,
    maxDrawdown: real,
    winRate: real,
    tradeCount: nat,
    averageHolding: real,
    feeAdjusted: real,
    slippageAdjusted: real)

  predicate SameLength(s: Signals) {
    |s.prices| == |s.entries| == |s.exits|
  }

  /** Lets through exactly the inputs that the loops below are for. */
  function ValidateSignals(s: Signals, fee: real, slip: real): (e: Option<SignalError>)
    ensures e.None? <==> SameLength(s) && |s.prices| >= 2 && fee >= 0.0 && slip >= 0.0
    ensures e == Some(TooFewPrices) <==> |s.prices| < 2
    ensures e == Some(LengthMismatch) <==> |s.prices| >= 2 && !SameLength(s)
    ensures e == Some(NegativeFee) ==> fee < 0.0
    ensures e == Some(NegativeSlippage) ==> slip < 0.0 <= fee
  {
    if |s.prices| < 2 then Some(TooFewPrices)
    else if !SameLength(s) then Some(LengthMismatch)
    else if fee < 0.0 then Some(NegativeFee)
    else if slip < 0.0 then Some(NegativeSlippage)
    else None
  }

  datatype Trade = Trade(entryIndex: nat, exitIndex: nat, entryPrice: real, exitPrice: real) {
    function HoldingTime(): int {
      exitIndex - entryIndex
    }

    function GrossReturn(): real
      requires entryPrice != 0.0
    {
      (exitPrice - entryPrice) / entryPrice
    }
  }

  // ----- the entry/exit automaton -----

  /** Trades closed by a signal so far, and the bar at which the open position was entered. */
  datatype Position = Position(closed: seq<Trade>, open: Option<nat>)

  predicate OpenBefore(p: Position, i: nat) {
    p.open.Some? ==> p.open.value < i
  }

  /** What one bar does: enter, exit, or nothing. */
  function Bar(s: Signals, b: nat, p: Position): (q: Position)
    requires SameLength(s) && b < |s.prices| && OpenBefore(p, b)
    ensures OpenBefore(q, b + 1)
  {
    if s.entries[b] && p.open.None? then Position(p.closed, Some(b))
    else if s.exits[b] && p.open.Some? then
      Position(p.closed + [Trade(p.open.value, b, s.prices[p.open.value], s.prices[b])], None)
    else p
  }

  function Scan(s: Signals, i: nat): (p: Position)
    requires SameLength(s) && i <= |s.prices|
    ensures OpenBefore(p, i)
  {
    if i == 0 then Position([], None) else Bar(s, i - 1, Scan(s, i - 1))
  }

  /** Every trade, a position still open being closed at the last bar. */
  function AllTrades(s: Signals): seq<Trade>
    requires SameLength(s)
  {
    var n := |s.prices|;
    var p := Scan(s, n);
    if p.open.None? then p.closed
    else p.closed + [Trade(p.open.value, n - 1, s.prices[p.open.value], s.prices[n - 1])]
  }

  method ExtractTrades(s: Signals) returns (trades: seq<Trade>)
    requires SameLength(s)
    ensures trades == AllTrades(s)
    ensures Extracted(s, trades)
    ensures forall t :: t in trades ==>
              t.entryIndex < |s.prices| && t.entryPrice == s.prices[t.entryIndex]
              && t.exitIndex < |s.prices| && t.exitPrice == s.prices[t.exitIndex]
  {
    ExtractedExactly(s, AllTrades(s));
    ExtractedPrices(s, AllTrades(s));
    trades := [];
    var openEntry: Option<nat> := None;
    for i := 0 to |s.prices|
      invariant Position(trades, openEntry) == Scan(s, i)
    {
      if s.entries[i] && openEntry.None? {
        openEntry := Some(i);
      } else if s.exits[i] && openEntry.Some? {
        trades := trades + [Trade(openEntry.value, i, s.prices[openEntry.value], s.prices[i])];
        openEntry := None;
      }
    }
    if openEntry.Some? {
      var last := |s.prices| - 1;
      trades := trades + [Trade(openEntry.value, last, s.prices[openEntry.value], s.prices[last])];
    }
  }

  // ----- what a trade list has to be, without running the automaton -----

  ghost function LastExit(closed: seq<Trade>): int {
    if closed == [] then -1 else closed[|closed| - 1].exitIndex
  }

  ghost predicate Quiet(signal: seq<bool>, from: int, to: int) {
    forall k :: from < k < to && 0 <= k < |signal| ==> !signal[k]
  }

  /** A trade opens at the first entry signal after `after` and closes at the first exit signal after that. */
  ghost predicate SignalTrade(s: Signals, after: int, t: Trade) {
    && SameLength(s)
    && after < t.entryIndex < t.exitIndex < |s.prices|
    && s.entries[t.entryIndex] && Quiet(s.entries, after, t.entryIndex)
    && s.exits[t.exitIndex] && Quiet(s.exits, t.entryIndex, t.exitIndex)
    && t.entryPrice == s.prices[t.entryIndex]
    && t.exitPrice == s.prices[t.exitIndex]
  }

  /** Signal trades one after the other, each looking for its entry after the exit of the one before. */
  ghost predicate Chained(s: Signals, closed: seq<Trade>) {
    closed == [] ||
    (var front := closed[..|closed| - 1];
     Chained(s, front) && SignalTrade(s, LastExit(front), closed[|closed| - 1]))
  }

  /** The history the first `i` bars call for: chained trades, and then either nothing to enter on
      or one entry that no exit signal has closed. */
  ghost predicate History(s: Signals, i: nat, p: Position)
    requires SameLength(s) && i <= |s.prices|
  {
    && Chained(s, p.closed)
    && LastExit(p.closed) < i
    && match p.open {
         case None => Quiet(s.entries, LastExit(p.closed), i)
         case Some(o) =>
           && LastExit(p.closed) < o < i
           && s.entries[o] && Quiet(s.entries, LastExit(p.closed), o)
           && Quiet(s.exits, o, i)
       }
  }

  lemma ClosedByExit(s: Signals, b: nat, closed: seq<Trade>, t: Trade)
    requires Chained(s, closed) && SignalTrade(s, LastExit(closed), t) && t.exitIndex == b
    ensures Chained(s, closed + [t]) && LastExit(closed + [t]) == b
  {
    hide SignalTrade;
    assert (closed + [t])[..|closed|] == closed;
  }

  lemma BarKeepsHistory(s: Signals, b: nat, p: Position)
    requires SameLength(s) && b < |s.prices| && History(s, b, p)
    ensures OpenBefore(p, b) && History(s, b + 1, Bar(s, b, p))
  {
    hide Chained;
    if s.exits[b] && p.open.Some? {
      ClosedByExit(s, b, p.closed, Trade(p.open.value, b, s.prices[p.open.value], s.prices[b]));
    }
    hide LastExit;
  }

  lemma HistoryAtStart(s: Signals, p: Position)
    requires SameLength(s)
    ensures History(s, 0, p) <==> p == Scan(s, 0)
  {}

  lemma {:induction false} ScanIsHistory(s: Signals, i: nat)
    requires SameLength(s) && i <= |s.prices|
    ensures History(s, i, Scan(s, i))
  {
    hide History, Bar;
    if i == 0 {
      HistoryAtStart(s, Scan(s, 0));
    } else {
      ScanIsHistory(s, i - 1);
      BarKeepsHistory(s, i - 1, Scan(s, i - 1));
    }
  }

  /** The position one bar earlier, undoing what the last bar did. */
  ghost function Undo(p: Position, b: nat): Position {
    if p.open == Some(b) then Position(p.closed, None)
    else if p.closed != [] && LastExit(p.closed) == b then
      Position(p.closed[..|p.closed| - 1], Some(p.closed[|p.closed| - 1].entryIndex))
    else p
  }

  lemma UndoIsHistory(s: Signals, b: nat, p: Position)
    requires SameLength(s) && b < |s.prices| && History(s, b + 1, p)
    ensures History(s, b, Undo(p, b))
  {}

  /** What the bar does to the position before it gives the position after it back. */
  lemma BarRedoes(s: Signals, b: nat, p: Position)
    requires SameLength(s) && b < |s.prices| && History(s, b + 1, p) && OpenBefore(Undo(p, b), b)
    ensures p == Bar(s, b, Undo(p, b))
  {
    if p.open != Some(b) && p.closed != [] && LastExit(p.closed) == b {
      assert p.closed == Undo(p, b).closed + [p.closed[|p.closed| - 1]];
    }
  }

  /** The automaton finds the trades the signals call for, and no other list of trades qualifies. */
  lemma {:induction false} HistoryIsScan(s: Signals, i: nat, p: Position)
    requires SameLength(s) && i <= |s.prices|
    ensures History(s, i, p) <==> p == Scan(s, i)
  {
    hide History, Bar, Undo;
    ScanIsHistory(s, i);
    if i == 0 {
      HistoryAtStart(s, p);
    } else if History(s, i, p) {
      UndoIsHistory(s, i - 1, p);
      HistoryIsScan(s, i - 1, Undo(p, i - 1));
      BarRedoes(s, i - 1, p);
    }
  }

  /** A trade entered at the first entry signal after `after`, with no exit signal since, and closed at
      the last bar. */
  ghost predicate ForcedTrade(s: Signals, after: int, t: Trade) {
    && SameLength(s)
    && after < t.entryIndex < |s.prices|
    && s.entries[t.entryIndex] && Quiet(s.entries, after, t.entryIndex)
    && Quiet(s.exits, t.entryIndex, |s.prices|)
    && t.exitIndex == |s.prices| - 1
    && t.entryPrice == s.prices[t.entryIndex]
    && t.exitPrice == s.prices[|s.prices| - 1]
  }

  /** The trades the signals call for: signal trades one after the other and then either no further entry
      signal, or one that nothing closes before the end. */
  ghost predicate Extracted(s: Signals, trades: seq<Trade>) {
    || (Chained(s, trades) && LastExit(trades) < |s.prices| && Quiet(s.entries, LastExit(trades), |s.prices|))
    || (trades != [] &&
        var front := trades[..|trades| - 1];
        Chained(s, front) && LastExit(front) < |s.prices| && ForcedTrade(s, LastExit(front), trades[|trades| - 1]))
  }

  /** The list extracted is the one list of trades the signals call for. */
  lemma ExtractedExactly(s: Signals, trades: seq<Trade>)
    requires SameLength(s)
    ensures Extracted(s, trades) <==> trades == AllTrades(s)
  {
    hide Chained, Scan;
    var n, p := |s.prices|, Scan(s, |s.prices|);
    ScanIsHistory(s, n);
    if p.open.Some? {
      assert AllTrades(s)[..|p.closed|] == p.closed;
    }
    if Extracted(s, trades) {
      if Chained(s, trades) && LastExit(trades) < n && Quiet(s.entries, LastExit(trades), n) {
        HistoryIsScan(s, n, Position(trades, None));
      } else {
        var front, last := trades[..|trades| - 1], trades[|trades| - 1];
        HistoryIsScan(s, n, Position(front, Some(last.entryIndex)));
        assert trades == front + [last];
      }
    }
  }

  lemma {:induction false} ChainedPrices(s: Signals, closed: seq<Trade>)
    requires Chained(s, closed)
    ensures forall t :: t in closed ==>
              && SameLength(s) && t.entryIndex < |s.prices| && t.entryPrice == s.prices[t.entryIndex]
              && t.exitIndex < |s.prices| && t.exitPrice == s.prices[t.exitIndex]
  {
    if closed != [] {
      ChainedPrices(s, closed[..|closed| - 1]);
    }
  }

  lemma ExtractedPrices(s: Signals, trades: seq<Trade>)
    requires SameLength(s) && Extracted(s, trades)
    ensures forall t :: t in trades ==>
              && t.entryIndex < |s.prices| && t.entryPrice == s.prices[t.entryIndex]
              && t.exitIndex < |s.prices| && t.exitPrice == s.prices[t.exitIndex]
  {
    hide Chained;
    if Chained(s, trades) {
      ChainedPrices(s, trades);
    } else {
      ChainedPrices(s, trades[..|trades| - 1]);
    }
  }

  /** Trades take up separate bars: their holding times and their number fit in the series. */
  lemma HoldingTimesFit(s: Signals)
    requires SameLength(s)
    ensures TotalHolding(AllTrades(s)) + |AllTrades(s)| <= |s.prices|
  {
    ClosedHoldingFits(s, |s.prices|);
    var p := Scan(s, |s.prices|);
    if p.open.Some? {
      assert AllTrades(s)[..|p.closed|] == p.closed;
    }
  }

  function TotalHolding(trades: seq<Trade>): int {
    if trades == [] then 0
    else TotalHolding(trades[..|trades| - 1]) + trades[|trades| - 1].HoldingTime()
  }

  lemma {:induction false} ClosedHoldingFits(s: Signals, i: nat)
    requires SameLength(s) && i <= |s.prices|
    ensures var p := Scan(s, i);
            TotalHolding(p.closed) + |p.closed| <= (if p.open.Some? then p.open.value else i)
  {
    if i > 0 {
      ClosedHoldingFits(s, i - 1);
      var p, q := Scan(s, i - 1), Scan(s, i);
      if q.closed != p.closed {
        assert q.closed[..|p.closed|] == p.closed;
      }
    }
  }

  // ----- compounding -----

  function Slipped(price: real, slip: real): real {
    price * (1.0 + slip)
  }

  /** Proceeds of a trade per unit spent, slippage against it on both legs. */
  function SlippedRatio(t: Trade, slip: real): real
    requires t.entryPrice != 0.0 && slip >= 0.0
  {
    Slipped(t.exitPrice, -slip) / Slipped(t.entryPrice, slip)
  }

  /** What is left of an amount after one fee. */
  function Kept(x: real, fee: real): real {
    x * (1.0 - fee)
  }

  /** What one signal-closed trade multiplies equity by: two fees and the slipped price ratio. */
  function Growth(t: Trade, fee: real, slip: real): real
    requires t.entryPrice != 0.0 && slip >= 0.0
  {
    Kept(Kept(SlippedRatio(t, slip), fee), fee)
  }

  predicate Divisible(trades: seq<Trade>) {
    forall t :: t in trades ==> t.entryPrice != 0.0
  }

  ghost function Compounded(trades: seq<Trade>, fee: real, slip: real): real
    requires Divisible(trades) && slip >= 0.0
  {
    if trades == [] then 1.0
    else Compounded(trades[..|trades| - 1], fee, slip) * Growth(trades[|trades| - 1], fee, slip)
  }

  ghost function EquityAfter(p: Position, fee: real, slip: real): real
    requires Divisible(p.closed) && slip >= 0.0
  {
    if p.open.Some? then Kept(Compounded(p.closed, fee, slip), fee) else Compounded(p.closed, fee, slip)
  }

  /** Equity after a position entered at `entry` is left at `exit`, before the exit fee. */
  function Returned(equity: real, entry: real, exit: real): real
    requires entry != 0.0
  {
    equity * ((exit - entry) / entry + 1.0)
  }

  lemma ExitGrowth(equity: real, t: Trade, fee: real, slip: real)
    requires t.entryPrice != 0.0 && slip >= 0.0
    ensures Slipped(t.entryPrice, slip) != 0.0
    ensures var entry, exit := Slipped(t.entryPrice, slip), Slipped(t.exitPrice, -slip);
            Kept(Returned(Kept(equity, fee), entry, exit), fee) == equity * Growth(t, fee, slip)
  {
    assert Slipped(t.entryPrice, slip) != 0.0;
    hide Slipped;
    RatioMinusOne(Slipped(t.exitPrice, -slip), Slipped(t.entryPrice, slip));
    var keep, ratio := 1.0 - fee, SlippedRatio(t, slip);
    assert equity * keep * ratio * keep == equity * (keep * keep * ratio);
  }

  /** A signal-closed trade in its prices and rates: what is received at the exit, slippage off and a fee
      taken, for what is paid at the entry, slippage on and a fee taken. */
  lemma GrowthExactly(t: Trade, fee: real, slip: real)
    requires t.entryPrice != 0.0 && slip >= 0.0
    ensures Growth(t, fee, slip) * (t.entryPrice * (1.0 + slip))
         == t.exitPrice * (1.0 - slip) * (1.0 - fee) * (1.0 - fee)
  {
    var paid, received, keep := t.entryPrice * (1.0 + slip), t.exitPrice * (1.0 - slip), 1.0 - fee;
    SlippedToZero(t.entryPrice, slip);
    assert Slipped(t.entryPrice, slip) == paid && Slipped(t.exitPrice, -slip) == received;
    var ratio := received / paid;
    assert ratio * paid == received;
    assert Growth(t, fee, slip) == ratio * keep * keep;
    assert ratio * keep * keep * paid == ratio * paid * keep * keep;
  }

  /** `equity` is the value after the first `k` bars. */
  ghost predicate OnCurve(s: Signals, fee: real, slip: real, k: nat, equity: real)
    requires SameLength(s) && slip >= 0.0
  {
    k <= |s.prices| && Divisible(Scan(s, k).closed) && equity == EquityAfter(Scan(s, k), fee, slip)
  }

  lemma EnterStep(s: Signals, fee: real, slip: real, i: nat, equity: real)
    requires SameLength(s) && i < |s.prices| && slip >= 0.0 && OnCurve(s, fee, slip, i, equity)
    requires s.entries[i] && Scan(s, i).open.None?
    ensures OnCurve(s, fee, slip, i + 1, Kept(equity, fee)) && Scan(s, i + 1).open == Some(i)
  {
    hide Compounded, Kept;
  }

  lemma StayStep(s: Signals, fee: real, slip: real, i: nat, equity: real)
    requires SameLength(s) && i < |s.prices| && slip >= 0.0 && OnCurve(s, fee, slip, i, equity)
    requires if Scan(s, i).open.Some? then !s.exits[i] else !s.entries[i]
    ensures OnCurve(s, fee, slip, i + 1, equity) && Scan(s, i + 1).open == Scan(s, i).open
  {
    hide Compounded, Kept;
  }

  lemma CompoundedOneMore(closed: seq<Trade>, t: Trade, fee: real, slip: real)
    requires slip >= 0.0
    ensures Divisible(closed + [t]) <==> Divisible(closed) && t.entryPrice != 0.0
    ensures Divisible(closed + [t]) ==>
              Compounded(closed + [t], fee, slip) == Compounded(closed, fee, slip) * Growth(t, fee, slip)
  {
    hide Growth;
    assert forall x :: x in closed + [t] <==> x in closed || x == t;
    assert (closed + [t])[..|closed|] == closed;
  }

  lemma SlippedToZero(price: real, slip: real)
    requires slip >= 0.0
    ensures Slipped(price, slip) == 0.0 <==> price == 0.0
  {
    assert price > 0.0 ==> Slipped(price, slip) > 0.0;
    assert price < 0.0 ==> Slipped(price, slip) < 0.0;
  }

  lemma ExitStep(s: Signals, fee: real, slip: real, i: nat, equity: real)
    requires SameLength(s) && i < |s.prices| && slip >= 0.0 && OnCurve(s, fee, slip, i, equity)
    requires s.exits[i] && Scan(s, i).open.Some?
    ensures Scan(s, i + 1).open.None?
    ensures var entry := Slipped(s.prices[Scan(s, i).open.value], slip);
            var exit := Slipped(s.prices[i], -slip);
            && (entry == 0.0 ==> !Divisible(Scan(s, |s.prices|).closed))
            && (entry != 0.0 ==> OnCurve(s, fee, slip, i + 1, Kept(Returned(equity, entry, exit), fee)))
  {
    hide Slipped, Growth, Compounded, Returned, Kept, Divisible;
    var p := Scan(s, i);
    var t := Trade(p.open.value, i, s.prices[p.open.value], s.prices[i]);
    assert Scan(s, i + 1) == Position(p.closed + [t], None);
    SlippedToZero(t.entryPrice, slip);
    CompoundedOneMore(p.closed, t, fee, slip);
    if t.entryPrice != 0.0 {
      ExitGrowth(Compounded(p.closed, fee, slip), t, fee, slip);
    } else {
      DivisibleSoFar(s, i + 1);
    }
  }

  lemma DivisibleSoFar(s: Signals, i: nat)
    requires SameLength(s) && i <= |s.prices| && !Divisible(Scan(s, i).closed)
    ensures !Divisible(Scan(s, |s.prices|).closed)
  {
    ClosedGrows(s, i, |s.prices|);
    hide Scan;
    var t :| t in Scan(s, i).closed && t.entryPrice == 0.0;
    assert t in Scan(s, |s.prices|).closed;
  }

  /** The curve after each bar is the product over the trades closed so far, times one more
      entry fee while a position is open; it cannot be drawn exactly when a closed trade was
      entered at price zero. */
  method EquityCurve(s: Signals, fee: real, slip: real) returns (r: Result<seq<real>, SignalError>)
    requires SameLength(s) && slip >= 0.0
    ensures r.Success? <==> Divisible(Scan(s, |s.prices|).closed)
    ensures r.Success? ==>
              && |r.value| == |s.prices| + 1
              && forall k :: 0 <= k < |r.value| ==> OnCurve(s, fee, slip, k, r.value[k])
  {
    assert Scan(s, 0).open.None? && OnCurve(s, fee, slip, 0, 1.0);
    hide OnCurve, Scan, Slipped, Kept, Returned, Divisible;
    var equity := 1.0;
    var curve := [equity];
    var inPosition := false;
    var entryPrice := 0.0;
    for i := 0 to |s.prices|
      invariant |curve| == i + 1 && curve[i] == equity
      invariant inPosition <==> Scan(s, i).open.Some?
      invariant inPosition ==> entryPrice == Slipped(s.prices[Scan(s, i).open.value], slip)
      invariant forall k :: 0 <= k < |curve| ==> OnCurve(s, fee, slip, k, curve[k])
    {
      assert OnCurve(s, fee, slip, i, curve[i]);
      if s.entries[i] && !inPosition {
        EnterStep(s, fee, slip, i, equity);
        inPosition := true;
        entryPrice := Slipped(s.prices[i], slip);
        equity := Kept(equity, fee);
      } else if s.exits[i] && inPosition {
        ExitStep(s, fee, slip, i, equity);
        var exitPrice := Slipped(s.prices[i], -slip);
        if entryPrice == 0.0 {
          return Failure(ZeroEntryPrice);
        }
        equity := Returned(equity, entryPrice, exitPrice);
        equity := Kept(equity, fee);
        inPosition := false;
      } else {
        StayStep(s, fee, slip, i, equity);
      }
      curve := curve + [equity];
    }
    OnCurveDivisible(s, fee, slip, |s.prices|, equity);
    r := Success(curve);
  }

  lemma OnCurveDivisible(s: Signals, fee: real, slip: real, k: nat, equity: real)
    requires SameLength(s) && slip >= 0.0 && k <= |s.prices| && OnCurve(s, fee, slip, k, equity)
    ensures Divisible(Scan(s, k).closed)
  {}

  lemma {:induction false} ClosedGrows(s: Signals, i: nat, j: nat)
    requires SameLength(s) && i <= j <= |s.prices|
    ensures Scan(s, i).closed <= Scan(s, j).closed
  {
    if i < j {
      ClosedGrows(s, i, j - 1);
    }
  }

  lemma {:induction false} ScanPrices(s: Signals, i: nat)
    requires SameLength(s) && i <= |s.prices|
    ensures forall t :: t in Scan(s, i).closed ==> t.entryPrice in s.prices && t.exitPrice in s.prices
  {
    if i > 0 {
      ScanPrices(s, i - 1);
    }
  }

  lemma {:induction false} CompoundedSign(trades: seq<Trade>, fee: real, slip: real)
    requires fee <= 1.0 && 0.0 <= slip <= 1.0
    requires forall t :: t in trades ==> t.entryPrice > 0.0 && t.exitPrice > 0.0
    ensures Divisible(trades) && Compounded(trades, fee, slip) >= 0.0
    ensures fee < 1.0 && slip < 1.0 ==> Compounded(trades, fee, slip) > 0.0
  {
    if trades != [] {
      hide Growth;
      var front, t := trades[..|trades| - 1], trades[|trades| - 1];
      CompoundedSign(front, fee, slip);
      GrowthSign(t, fee, slip);
      SignOfProduct(Compounded(front, fee, slip), Growth(t, fee, slip));
    }
  }

  lemma SignOfProduct(x: real, y: real)
    requires x >= 0.0 && y >= 0.0
    ensures x * y >= 0.0
    ensures x > 0.0 && y > 0.0 ==> x * y > 0.0
  {}

  lemma KeptSign(x: real, fee: real)
    requires x >= 0.0 && fee <= 1.0
    ensures Kept(x, fee) >= 0.0
    ensures x > 0.0 && fee < 1.0 ==> Kept(x, fee) > 0.0
  {
    SignOfProduct(x, 1.0 - fee);
  }

  /** With costs up to one and positive prices equity is never negative, and with costs below one it
      never reaches zero. */
  lemma EquityStaysPositive(s: Signals, i: nat, fee: real, slip: real)
    requires SameLength(s) && i <= |s.prices| && fee <= 1.0 && 0.0 <= slip <= 1.0
    requires forall p :: p in s.prices ==> p > 0.0
    ensures Divisible(Scan(s, i).closed)
    ensures EquityAfter(Scan(s, i), fee, slip) >= 0.0
    ensures fee < 1.0 && slip < 1.0 ==> EquityAfter(Scan(s, i), fee, slip) > 0.0
  {
    hide Compounded, Kept, Scan;
    ScanPrices(s, i);
    CompoundedSign(Scan(s, i).closed, fee, slip);
    KeptSign(Compounded(Scan(s, i).closed, fee, slip), fee);
  }

  lemma RatioSign(x: real, y: real)
    requires x >= 0.0 && y > 0.0
    ensures x / y >= 0.0
    ensures x > 0.0 ==> x / y > 0.0
  {
    RatioOrder(0.0, x, y);
    if x > 0.0 {
      RatioPositive(x, y);
    }
  }

  lemma SlippedSign(price: real, slip: real)
    requires price > 0.0 && slip >= -1.0
    ensures Slipped(price, slip) >= 0.0
    ensures slip > -1.0 ==> Slipped(price, slip) > 0.0
  {
    SignOfProduct(price, 1.0 + slip);
  }

  lemma GrowthSign(t: Trade, fee: real, slip: real)
    requires t.entryPrice > 0.0 && t.exitPrice > 0.0 && fee <= 1.0 && 0.0 <= slip <= 1.0
    ensures Growth(t, fee, slip) >= 0.0
    ensures fee < 1.0 && slip < 1.0 ==> Growth(t, fee, slip) > 0.0
  {
    hide Slipped, Kept;
    SlippedSign(t.exitPrice, -slip);
    SlippedSign(t.entryPrice, slip);
    RatioSign(Slipped(t.exitPrice, -slip), Slipped(t.entryPrice, slip));
    KeptSign(SlippedRatio(t, slip), fee);
    KeptSign(Kept(SlippedRatio(t, slip), fee), fee);
  }

  // ----- drawdown -----

  /** The highest point of the curve up to bar `j`. */
  function Peak(curve: seq<real>, j: nat): real
    requires j < |curve|
  {
    if j == 0 then curve[0]
    else
      var before := Peak(curve, j - 1);
      if curve[j] > before then curve[j] else before
  }

  function Fall(curve: seq<real>, i: nat, j: nat): real
    requires i < |curve| && j < |curve| && curve[i] != 0.0
  {
    (curve[j] - curve[i]) / curve[i]
  }

  /** The curve starts above zero, as every curve that starts at one does, so its peaks are positive. */
  predicate Started(curve: seq<real>) {
    curve != [] && curve[0] > 0.0
  }

  ghost predicate NonNegative(curve: seq<real>) {
    forall k :: 0 <= k < |curve| ==> curve[k] >= 0.0
  }

  ghost predicate Positive(curve: seq<real>) {
    forall k :: 0 <= k < |curve| ==> curve[k] > 0.0
  }

  /** The least fall from the running peak, over bars 0 to `j`. */
  function DrawdownTo(curve: seq<real>, j: nat): real
    requires j < |curve| && Started(curve)
  {
    PeakIsAttained(curve, j);
    var fall := (curve[j] - Peak(curve, j)) / Peak(curve, j);
    if j == 0 then fall
    else
      var before := DrawdownTo(curve, j - 1);
      if fall < before then fall else before
  }

  function MaxDrawdown(curve: seq<real>): real
    requires Started(curve)
  {
    DrawdownTo(curve, |curve| - 1)
  }

  lemma {:induction false} PeakIsAttained(curve: seq<real>, j: nat)
    requires j < |curve|
    ensures exists i :: 0 <= i <= j && curve[i] == Peak(curve, j)
    ensures forall i :: 0 <= i <= j ==> curve[i] <= Peak(curve, j)
    ensures curve[0] <= Peak(curve, j)
  {
    if j > 0 {
      PeakIsAttained(curve, j - 1);
      var i :| 0 <= i <= j - 1 && curve[i] == Peak(curve, j - 1);
      assert curve[i] == Peak(curve, j) || curve[j] == Peak(curve, j);
    } else {
      assert curve[0] == Peak(curve, 0);
    }
  }

  lemma FallFromHigher(x: real, low: real, high: real)
    requires x >= 0.0 && 0.0 < low <= high
    ensures (x - high) / high <= (x - low) / low
  {
    RatioMinusOne(x, high);
    RatioMinusOne(x, low);
    RatioShrinks(x, low, high);
  }

  /** The running-peak drawdown is the least fall over all pairs of bars that start above zero: a
      lower bound that is attained. */
  lemma {:induction false} DrawdownIsPairwise(curve: seq<real>, j: nat)
    requires j < |curve| && Started(curve) && NonNegative(curve)
    ensures forall i, k :: 0 <= i <= k <= j && curve[i] > 0.0 ==> DrawdownTo(curve, j) <= Fall(curve, i, k)
    ensures exists i, k :: 0 <= i <= k <= j && curve[i] > 0.0 && DrawdownTo(curve, j) == Fall(curve, i, k)
  {
    PeakIsAttained(curve, j);
    var top :| 0 <= top <= j && curve[top] == Peak(curve, j);
    if j > 0 {
      DrawdownIsPairwise(curve, j - 1);
      var i, k :| 0 <= i <= k <= j - 1 && curve[i] > 0.0 && DrawdownTo(curve, j - 1) == Fall(curve, i, k);
      assert DrawdownTo(curve, j) == Fall(curve, i, k) || DrawdownTo(curve, j) == Fall(curve, top, j);
    } else {
      assert DrawdownTo(curve, 0) == Fall(curve, 0, 0);
    }
    forall i | 0 <= i <= j && curve[i] > 0.0
      ensures DrawdownTo(curve, j) <= Fall(curve, i, j)
    {
      FallFromHigher(curve[j], curve[i], curve[top]);
    }
  }

  /** It lies between minus one and zero; it is zero exactly when the curve never falls, and minus one
      exactly when the curve reaches zero. */
  lemma DrawdownRange(curve: seq<real>)
    requires Started(curve) && NonNegative(curve)
    ensures -1.0 <= MaxDrawdown(curve) <= 0.0
    ensures MaxDrawdown(curve) > -1.0 <==> Positive(curve)
    ensures MaxDrawdown(curve) == 0.0 <==> forall k :: 0 < k < |curve| ==> curve[k - 1] <= curve[k]
  {
    hide DrawdownTo, Fall;
    var n := |curve| - 1;
    DrawdownIsPairwise(curve, n);
    var i, k :| 0 <= i <= k <= n && curve[i] > 0.0 && MaxDrawdown(curve) == Fall(curve, i, k);
    FallSign(curve, i, k);
    FallSign(curve, 0, 0);
    assert MaxDrawdown(curve) <= Fall(curve, 0, 0);
    forall m | 0 <= m < |curve| && curve[m] == 0.0
      ensures MaxDrawdown(curve) <= -1.0
    {
      FallSign(curve, 0, m);
    }
    if MaxDrawdown(curve) == 0.0 {
      forall m | 0 < m < |curve| && curve[m - 1] > 0.0
        ensures curve[m - 1] <= curve[m]
      {
        FallSign(curve, m - 1, m);
      }
    } else if forall m :: 0 < m < |curve| ==> curve[m - 1] <= curve[m] {
      Climbs(curve, i, k);
    }
  }

  lemma FallSign(curve: seq<real>, i: nat, k: nat)
    requires i < |curve| && k < |curve| && curve[i] > 0.0 && curve[k] >= 0.0
    ensures Fall(curve, i, k) >= -1.0
    ensures Fall(curve, i, k) > -1.0 <==> curve[k] > 0.0
    ensures Fall(curve, i, k) >= 0.0 <==> curve[i] <= curve[k]
    ensures i == k ==> Fall(curve, i, k) == 0.0
  {
    RatioMinusOne(curve[k], curve[i]);
    RatioSign(curve[k], curve[i]);
    RatioOrder(0.0, curve[k] - curve[i], curve[i]);
  }

  lemma {:induction false} Climbs(curve: seq<real>, i: nat, k: nat)
    requires i <= k < |curve| && forall k :: 0 < k < |curve| ==> curve[k - 1] <= curve[k]
    ensures curve[i] <= curve[k]
    decreases k
  {
    if i < k {
      Climbs(curve, i, k - 1);
    }
  }

  // ----- the two loops side by side, and the summary -----

  /** Trades are ordered and disjoint, and all of them lie within the series. */
  lemma {:induction false} ChainedTrades(s: Signals, closed: seq<Trade>)
    requires SameLength(s) && Chained(s, closed)
    ensures forall k :: 0 <= k < |closed| ==> 0 <= closed[k].entryIndex < closed[k].exitIndex <= LastExit(closed)
    ensures forall j, k :: 0 <= j < k < |closed| ==> closed[j].exitIndex < closed[k].entryIndex
  {
    if closed != [] {
      ChainedTrades(s, closed[..|closed| - 1]);
    }
  }

  /** The trades the extracting loop closes on a signal: all but a last one that the end of the series closes. */
  ghost function SignalClosed(s: Signals): seq<Trade>
    requires SameLength(s)
  {
    var trades := AllTrades(s);
    if Scan(s, |s.prices|).open.Some? then trades[..|trades| - 1] else trades
  }

  lemma TradesInOrder(s: Signals)
    requires SameLength(s)
    ensures var all := AllTrades(s);
            && (forall k :: 0 <= k < |all| ==> 0 <= all[k].entryIndex <= all[k].exitIndex < |s.prices|)
            && (forall j, k :: 0 <= j < k < |all| ==> all[j].exitIndex < all[k].entryIndex)
  {
    hide Scan, Chained;
    var p := Scan(s, |s.prices|);
    ScanIsHistory(s, |s.prices|);
    ChainedTrades(s, p.closed);
    assert forall k :: 0 <= k < |p.closed| ==> AllTrades(s)[k] == p.closed[k];
  }

  /** Equity at the end is the product over the signal-closed trades of the extracted list, with one
      more entry fee if the last trade was still open; the list is ordered, disjoint and in range. */
  lemma FinalEquity(s: Signals, fee: real, slip: real, curve: seq<real>)
    requires SameLength(s) && slip >= 0.0
    requires |curve| == |s.prices| + 1
    requires forall k :: 0 <= k < |curve| ==> OnCurve(s, fee, slip, k, curve[k])
    ensures Divisible(SignalClosed(s))
    ensures var product := Compounded(SignalClosed(s), fee, slip);
            curve[|curve| - 1] == if |SignalClosed(s)| < |AllTrades(s)| then product * (1.0 - fee) else product
    ensures var all := AllTrades(s);
            && (forall k :: 0 <= k < |all| ==> 0 <= all[k].entryIndex <= all[k].exitIndex < |s.prices|)
            && (forall j, k :: 0 <= j < k < |all| ==> all[j].exitIndex < all[k].entryIndex)
  {
    hide Compounded, Scan;
    TradesInOrder(s);
    assert SignalClosed(s) == Scan(s, |s.prices|).closed;
    assert OnCurve(s, fee, slip, |s.prices|, curve[|s.prices|]);
  }

  function SumReturns(trades: seq<Trade>): real
    requires Divisible(trades)
  {
    if trades == [] then 0.0
    else SumReturns(trades[..|trades| - 1]) + trades[|trades| - 1].GrossReturn()
  }

  function Wins(trades: seq<Trade>): (n: nat)
    requires Divisible(trades)
    ensures n <= |trades|
  {
    if trades == [] then 0
    else Wins(trades[..|trades| - 1]) + if trades[|trades| - 1].GrossReturn() > 0.0 then 1 else 0
  }

  function Given(figure: Option<real>, computed: real): real {
    if figure.Some? then figure.value else computed
  }

  /** The caller may hand in net return and drawdown in place of those of the curve. */
  function Summarize(
      trades: seq<Trade>, curve: seq<real>, fee: real, slip: real, net: Option<real>, drawdown: Option<real>)
    : Result<BacktestResult, SignalError>
    requires Started(curve)
  {
    var netReturn, maxDrawdown := Given(net, curve[|curve| - 1] - 1.0), Given(drawdown, MaxDrawdown(curve));
    var n := |trades|;
    if n == 0 then Success(BacktestResult(netReturn, maxDrawdown, 0.0, 0, 0.0, 0.0, 0.0))
    else if !Divisible(trades) then Failure(ZeroEntryPrice)
    else
      var expectancy := Mean(SumReturns(trades), n);
      Success(BacktestResult(netReturn, maxDrawdown, Mean(Wins(trades) as real, n), n,
                             Mean(TotalHolding(trades) as real, n), expectancy - fee * 2.0, expectancy - slip * 2.0))
  }

  /** The summary of extracted trades on positive prices: it is always drawn, the win rate is a
      proportion and the average holding time leaves room for every trade; with costs up to one, net
      return and drawdown are in range too. */
  lemma SummaryRange(
      s: Signals, fee: real, slip: real, curve: seq<real>, net: Option<real>, drawdown: Option<real>)
    requires SameLength(s) && slip >= 0.0
    requires forall p :: p in s.prices ==> p > 0.0
    requires |curve| == |s.prices| + 1
    requires forall k :: 0 <= k < |curve| ==> OnCurve(s, fee, slip, k, curve[k])
    ensures Started(curve)
    ensures var r := Summarize(AllTrades(s), curve, fee, slip, net, drawdown);
            && r.Success?
            && TradeMetrics(r.value, |s.prices|)
            && (fee <= 1.0 && slip <= 1.0 ==> CurveMetrics(r.value, net, drawdown, fee < 1.0 && slip < 1.0))
  {
    CurveStarts(s, fee, slip, curve);
    HoldingTimesFit(s);
    ScanPrices(s, |s.prices|);
    assert forall t :: t in AllTrades(s) ==> t.entryPrice in s.prices;
    hide OnCurve, AllTrades, CurveMetrics, TradeMetrics, Summarize, TotalHolding;
    if fee <= 1.0 && slip <= 1.0 {
      CurveSign(s, fee, slip, curve);
      CurveMetricsInRange(AllTrades(s), curve, fee, slip, net, drawdown);
    }
    TradeMetricsInRange(AllTrades(s), curve, fee, slip, net, drawdown, |s.prices|);
  }

  ghost predicate CurveMetrics(r: BacktestResult, net: Option<real>, drawdown: Option<real>, costsBelowOne: bool) {
    && (if net.Some? then r.netReturn == net.value
        else r.netReturn >= -1.0 && (costsBelowOne ==> r.netReturn > -1.0))
    && (if drawdown.Some? then r.maxDrawdown == drawdown.value
        else -1.0 <= r.maxDrawdown <= 0.0 && (costsBelowOne ==> r.maxDrawdown > -1.0))
  }

  ghost predicate TradeMetrics(r: BacktestResult, bars: nat) {
    && 0.0 <= r.winRate <= 1.0
    && (r.averageHolding + 1.0) * r.tradeCount as real <= bars as real
  }

  lemma CurveStarts(s: Signals, fee: real, slip: real, curve: seq<real>)
    requires SameLength(s) && slip >= 0.0 && |curve| == |s.prices| + 1 && OnCurve(s, fee, slip, 0, curve[0])
    ensures Started(curve) && curve[0] == 1.0
  {}

  lemma CurveSign(s: Signals, fee: real, slip: real, curve: seq<real>)
    requires SameLength(s) && fee <= 1.0 && 0.0 <= slip <= 1.0
    requires forall p :: p in s.prices ==> p > 0.0
    requires |curve| == |s.prices| + 1
    requires forall k :: 0 <= k < |curve| ==> OnCurve(s, fee, slip, k, curve[k])
    ensures NonNegative(curve)
    ensures fee < 1.0 && slip < 1.0 ==> Positive(curve)
  {
    forall k | 0 <= k < |curve|
      ensures curve[k] >= 0.0 && (fee < 1.0 && slip < 1.0 ==> curve[k] > 0.0)
    {
      assert OnCurve(s, fee, slip, k, curve[k]);
      EquityStaysPositive(s, k, fee, slip);
      hide EquityAfter, Scan;
    }
  }

  lemma CurveMetricsInRange(
      trades: seq<Trade>, curve: seq<real>, fee: real, slip: real, net: Option<real>, drawdown: Option<real>)
    requires Started(curve) && NonNegative(curve) && Divisible(trades)
    requires fee < 1.0 && slip < 1.0 ==> Positive(curve)
    ensures var r := Summarize(trades, curve, fee, slip, net, drawdown);
            CurveMetrics(r.value, net, drawdown, fee < 1.0 && slip < 1.0)
  {
    hide MaxDrawdown, TotalHolding, SumReturns, Mean, Wins;
    DrawdownRange(curve);
  }

  lemma HoldingLeavesRoom(total: int, n: nat, bars: nat)
    requires n > 0 && total + n <= bars
    ensures (Mean(total as real, n) + 1.0) * n as real <= bars as real
  {
    hide Mean;
    MeanTimes(total as real, n);
  }

  lemma TradeMetricsInRange(
      trades: seq<Trade>, curve: seq<real>, fee: real, slip: real, net: Option<real>, drawdown: Option<real>, bars: nat)
    requires Started(curve) && Divisible(trades)
    requires TotalHolding(trades) + |trades| <= bars
    ensures var r := Summarize(trades, curve, fee, slip, net, drawdown);
            r.Success? && TradeMetrics(r.value, bars)
  {
    hide MaxDrawdown, SumReturns, Mean, Wins;
    if trades == [] {
      NoTradesFit(bars);
    } else {
      hide TotalHolding;
      HoldingLeavesRoom(TotalHolding(trades), |trades|, bars);
      UnitMean(Wins(trades), |trades|);
    }
  }

  lemma NoTradesFit(bars: nat)
    ensures (0.0 + 1.0) * 0 as real <= bars as real
  {}

  /** The relative gain of a trade. */
  function RelativeGain(t: Trade): real
    requires t.entryPrice != 0.0
  {
    (t.exitPrice - t.entryPrice) / t.entryPrice
  }

  ghost function TotalGain(trades: seq<Trade>): real
    requires Divisible(trades)
  {
    if trades == [] then 0.0 else TotalGain(trades[..|trades| - 1]) + RelativeGain(trades[|trades| - 1])
  }

  ghost function TotalBars(trades: seq<Trade>): real {
    if trades == [] then 0.0
    else
      var last := trades[|trades| - 1];
      TotalBars(trades[..|trades| - 1]) + (last.exitIndex as real - last.entryIndex as real)
  }

  ghost function GainingAt(trades: seq<Trade>): set<nat>
    requires Divisible(trades)
  {
    set i: nat | i < |trades| && RelativeGain(trades[i]) > 0.0
  }

  /** How many positions hold a trade that gained. */
  ghost function Gainers(trades: seq<Trade>): nat
    requires Divisible(trades)
  {
    |GainingAt(trades)|
  }

  lemma GainersGrow(front: seq<Trade>, t: Trade)
    requires Divisible(front + [t])
    ensures Divisible(front) && t.entryPrice != 0.0
    ensures Gainers(front + [t]) == Gainers(front) + if RelativeGain(t) > 0.0 then 1 else 0
  {
    hide RelativeGain, GainingAt;
    GainingGrows(front, t);
    NotGainingYet(front);
    hide Divisible;
  }

  lemma NotGainingYet(trades: seq<Trade>)
    requires Divisible(trades)
    ensures |trades| !in GainingAt(trades)
  {}

  lemma GainingGrows(front: seq<Trade>, t: Trade)
    requires Divisible(front + [t])
    ensures Divisible(front) && t.entryPrice != 0.0
    ensures GainingAt(front + [t]) == GainingAt(front) + if RelativeGain(t) > 0.0 then {|front|} else {}
  {
    hide RelativeGain;
    var all := front + [t];
    assert forall x :: x in all <==> x in front || x == t;
    assert forall i: nat :: i < |front| ==> all[i] == front[i];
    assert all[|front|] == t;
  }

  lemma NoGainers(trades: seq<Trade>)
    requires trades == []
    ensures Divisible(trades) && Gainers(trades) == 0
  {
    if Gainers(trades) > 0 {
      SomeGainer(trades);
    }
  }

  lemma SomeGainer(trades: seq<Trade>)
    requires Divisible(trades) && Gainers(trades) > 0
    ensures trades != []
  {
    var i :| i in GainingAt(trades);
  }

  lemma {:induction false} TotalsAreSums(trades: seq<Trade>)
    ensures TotalHolding(trades) as real == TotalBars(trades)
    ensures Divisible(trades) ==> SumReturns(trades) == TotalGain(trades) && Wins(trades) == Gainers(trades)
  {
    if trades == [] {
      NoGainers(trades);
    } else {
      var front, last := trades[..|trades| - 1], trades[|trades| - 1];
      TotalsAreSums(front);
      assert trades == front + [last];
      if Divisible(trades) {
        GainersGrow(front, last);
        assert last.GrossReturn() == RelativeGain(last);
        hide Gainers, RelativeGain, Trade.GrossReturn;
      }
    }
  }

  /** The figures of the summary: holding time, expectancy before costs and win rate are the averages of
      bars held, relative gains and gaining trades; the rest come from the curve, unless handed in. */
  lemma SummaryFigures(
      trades: seq<Trade>, curve: seq<real>, fee: real, slip: real, net: Option<real>, drawdown: Option<real>)
    requires Started(curve) && Divisible(trades)
    ensures var r := Summarize(trades, curve, fee, slip, net, drawdown);
            && r.Success? && r.value.tradeCount == |trades|
            && r.value.netReturn == (if net.Some? then net.value else curve[|curve| - 1] - 1.0)
            && (drawdown.Some? ==> r.value.maxDrawdown == drawdown.value)
    ensures var r, n := Summarize(trades, curve, fee, slip, net, drawdown).value, |trades|;
            if n == 0 then r.averageHolding == r.winRate == r.feeAdjusted == r.slippageAdjusted == 0.0
            else
              && r.averageHolding == Mean(TotalBars(trades), n)
              && r.winRate == Mean(Gainers(trades) as real, n)
              && r.feeAdjusted + 2.0 * fee == Mean(TotalGain(trades), n)
              && r.slippageAdjusted + 2.0 * slip == Mean(TotalGain(trades), n)
    ensures drawdown.None? && NonNegative(curve) ==>
              var worst := Summarize(trades, curve, fee, slip, net, drawdown).value.maxDrawdown;
              && (forall i, k :: 0 <= i <= k < |curve| && curve[i] > 0.0 ==> worst <= Fall(curve, i, k))
              && exists i, k :: 0 <= i <= k < |curve| && curve[i] > 0.0 && worst == Fall(curve, i, k)
  {
    hide DrawdownTo, Fall, Mean, RelativeGain, Trade.GrossReturn, Gainers;
    TotalsAreSums(trades);
    if NonNegative(curve) {
      DrawdownIsPairwise(curve, |curve| - 1);
    }
    hide TotalHolding, SumReturns, Wins, TotalGain, TotalBars;
  }

  /** The expectancies are averages less two costs: no better than the best trade and no worse than
      the worst. The win rate is one when every trade closed higher than it opened, and zero when none did. */
  lemma SummaryAverages(
      trades: seq<Trade>, curve: seq<real>, fee: real, slip: real, net: Option<real>, drawdown: Option<real>,
      low: real, high: real)
    requires Started(curve) && trades != []
    requires forall t :: t in trades ==> t.entryPrice > 0.0 && low <= t.GrossReturn() <= high
    ensures var r := Summarize(trades, curve, fee, slip, net, drawdown);
            && r.Success?
            && low <= r.value.feeAdjusted + 2.0 * fee <= high
            && low <= r.value.slippageAdjusted + 2.0 * slip <= high
            && (r.value.winRate == 1.0 <==> forall t :: t in trades ==> t.entryPrice < t.exitPrice)
            && (r.value.winRate == 0.0 <==> forall t :: t in trades ==> t.exitPrice <= t.entryPrice)
  {
    hide MaxDrawdown, TotalHolding, SumReturns, Wins, Mean, Trade.GrossReturn;
    var n := |trades|;
    ReturnsBetween(trades, low, high);
    WinsAreRises(trades);
    MeanBetween(SumReturns(trades), n, low, high);
    MeanEnds(Wins(trades), n);
  }

  lemma {:induction false} ReturnsBetween(trades: seq<Trade>, low: real, high: real)
    requires Divisible(trades) && forall t :: t in trades ==> low <= t.GrossReturn() <= high
    ensures low * |trades| as real <= SumReturns(trades) <= high * |trades| as real
  {
    if trades != [] {
      ReturnsBetween(trades[..|trades| - 1], low, high);
      assert trades[|trades| - 1] in trades;
      var n := |trades| as real;
      assert low * n == low * (n - 1.0) + low && high * n == high * (n - 1.0) + high;
    }
  }

  lemma RiseIsGain(t: Trade)
    requires t.entryPrice > 0.0
    ensures t.GrossReturn() > 0.0 <==> t.entryPrice < t.exitPrice
  {
    RatioOrder(t.exitPrice - t.entryPrice, 0.0, t.entryPrice);
  }

  lemma {:induction false} WinsAreRises(trades: seq<Trade>)
    requires forall t :: t in trades ==> t.entryPrice > 0.0
    ensures Wins(trades) == |trades| <==> forall t :: t in trades ==> t.entryPrice < t.exitPrice
    ensures Wins(trades) == 0 <==> forall t :: t in trades ==> t.exitPrice <= t.entryPrice
  {
    hide Trade.GrossReturn;
    if trades != [] {
      var front, last := trades[..|trades| - 1], trades[|trades| - 1];
      WinsAreRises(front);
      RiseIsGain(last);
      assert Wins(trades) == Wins(front) + if last.GrossReturn() > 0.0 then 1 else 0;
      hide Wins;
      assert forall t :: t in trades <==> t in front || t == last by {
        assert trades == front + [last];
      }
    }
  }
}
