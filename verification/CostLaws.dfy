/** What an estimate comes to, from the fields of the trade and the assumptions alone: the size, every
    reason, the fill against the known volumes, and the money figures. */
module CostLaws {
  import opened Common
  import opened RealFacts
  import opened CostModel

  // ----- volumes -----

  /** The volume, if known, covers the notional: its worth at the price, cut to the participation. */
  predicate Covers(volume: Option<real>, price: real, participation: real, notional: real) {
    volume.Some? ==> notional <= volume.value * price * participation
  }

  predicate VolumesCover(t: TradeSpec, a: Assumptions, notional: real) {
    && Covers(t.entryVolume, EntryPrice(t, a), a.participation, notional)
    && Covers(t.exitVolume, ExitPrice(t, a), a.participation, notional)
  }

  /** The capacity is what every known volume covers, and no more; without a known volume there is none. */
  lemma CapacityIsLeast(t: TradeSpec, a: Assumptions)
    ensures Capacity(t, a).None? <==> t.entryVolume.None? && t.exitVolume.None?
    ensures forall notional :: VolumesCover(t, a, notional) <==>
              (Capacity(t, a).Some? ==> notional <= Capacity(t, a).value)
  {
    hide EntryPrice, ExitPrice;
  }

  /** A tradeable estimate stays within each known volume. */
  lemma TradeableWithinVolumes(t: TradeSpec, a: Assumptions)
    requires ValidTrade(t) && ValidAssumptions(a)
    ensures EstimateCost(t, a).Success? && EstimateCost(t, a).value.tradeable ==>
            var e := EstimateCost(t, a).value;
            && Covers(t.entryVolume, e.entryPrice, a.participation, e.notional)
            && Covers(t.exitVolume, e.exitPrice, a.participation, e.notional)
  {
    hide AllGates, EntryPrice, ExitPrice, Capacity, Worth, SlippageCost, MultipleOf, Covers;
    TradeableEstimate(t, a);
    CapacityIsLeast(t, a);
    if EstimateCost(t, a).Success? && EstimateCost(t, a).value.tradeable {
      assert VolumesCover(t, a, EstimateCost(t, a).value.notional);
    }
  }

  // ----- sizes -----

  /** What a quantity is worth at a price. */
  function Value(quantity: real, price: real): real {
    quantity * price
  }

  lemma WorthIsValue(quantity: real, price: real)
    ensures Worth(quantity, price) == Value(quantity, price)
  {}

  /** The largest quantity on the step that the notional buys at the price; without a step, all of it. */
  ghost predicate IsSized(q: real, notional: real, price: real, step: real) {
    if step == 0.0 then Value(q, price) == notional
    else MultipleOf(q, step) && Value(q, price) <= notional < Value(q + step, price)
  }

  lemma ValueOrder(x: real, y: real, price: real)
    requires price > 0.0
    ensures Value(x, price) <= Value(y, price) <==> x <= y
    ensures Value(x, price) > 0.0 <==> x > 0.0
  {
    WorthOrder(x, y, price);
    ProductSign(price, x);
  }

  lemma AffordableValue(notional: real, price: real)
    requires price > 0.0
    ensures Value(Affordable(notional, price), price) == notional
  {}

  lemma RoundedIsSized(notional: real, price: real, step: real)
    requires price > 0.0 && step >= 0.0
    ensures IsSized(RoundToStep(Affordable(notional, price), step, false), notional, price, step)
  {
    hide Value, MultipleOf;
    var x, r := Affordable(notional, price), RoundToStep(Affordable(notional, price), step, false);
    AffordableValue(notional, price);
    if step > 0.0 {
      RoundedToMultiple(x, step, false);
      hide RoundToStep, Affordable;
      ValueOrder(r, x, price);
      ValueOrder(r + step, x, price);
    }
  }

  lemma MultiplesApart(q: real, r: real, step: real)
    requires step > 0.0 && MultipleOf(q, step) && MultipleOf(r, step) && q < r + step && r < q + step
    ensures q == r
  {
    hide Times;
    var n: int :| Times(n, step) == q;
    var m: int :| Times(m, step) == r;
    TimesNext(n, step);
    TimesNext(m, step);
    TimesGrow(n, m + 1, step);
    TimesGrow(m, n + 1, step);
  }

  lemma SizedIsUnique(q: real, r: real, notional: real, price: real, step: real)
    requires price > 0.0 && step >= 0.0 && IsSized(q, notional, price, step) && IsSized(r, notional, price, step)
    ensures q == r
  {
    hide Value, MultipleOf;
    ValueOrder(q, r, price);
    ValueOrder(r, q, price);
    if step > 0.0 {
      ValueOrder(r + step, q, price);
      ValueOrder(q + step, r, price);
      MultiplesApart(q, r, step);
    }
  }

  /** The size of an order is what rounding down gives. */
  lemma SizedExactly(q: real, notional: real, price: real, step: real)
    requires price > 0.0 && step >= 0.0
    ensures IsSized(q, notional, price, step) <==> q == RoundToStep(Affordable(notional, price), step, false)
  {
    hide IsSized;
    RoundedIsSized(notional, price, step);
    if IsSized(q, notional, price, step) {
      SizedIsUnique(q, RoundToStep(Affordable(notional, price), step, false), notional, price, step);
    }
  }

  // ----- reasons -----

  ghost predicate Fresh(t: TradeSpec, a: Assumptions) {
    a.maxSignalAge.Some? ==> t.entryAt <= t.signalAt + a.maxSignalAge.value
  }

  /** Which of the reasons against size and age are given for the quantity `q` at the price. */
  ghost predicate SizeReasons(t: TradeSpec, a: Assumptions, price: real, q: real, reasons: seq<Reason>) {
    && (MinNotionalExceedsMax in reasons <==> a.limits.minNotional > a.maxNotional)
    && (MinQuantityExceedsMax in reasons <==> Value(a.limits.minQuantity, price) > a.maxNotional)
    && (QuantityNotTradeable in reasons <==> q <= 0.0 || q < a.limits.minQuantity)
    && (RoundedExceedsMax in reasons <==> Value(q, price) > a.maxNotional)
    && (BelowMinNotional in reasons <==> 0.0 < Value(q, price) < a.limits.minNotional)
    && (StaleSignal in reasons <==> !Fresh(t, a))
  }

  /** None of them is given. */
  ghost predicate WellSizedOrder(t: TradeSpec, a: Assumptions, price: real, q: real) {
    && a.limits.minNotional <= a.maxNotional && Value(a.limits.minQuantity, price) <= a.maxNotional
    && q > 0.0 && q >= a.limits.minQuantity && a.limits.minNotional <= Value(q, price) <= a.maxNotional
    && Fresh(t, a)
  }

  /** The smaller of what is asked for and the cap. */
  function Asked(t: TradeSpec, a: Assumptions): real {
    if t.requestedNotional <= a.maxNotional then t.requestedNotional else a.maxNotional
  }

  /** `q` is the size of the order. */
  ghost predicate OrderSize(t: TradeSpec, a: Assumptions, q: real) {
    IsSized(q, Asked(t, a), EntryPrice(t, a), a.limits.quantityStep)
  }

  ghost predicate OnlySizeReasons(reasons: seq<Reason>) {
    MissedFill !in reasons && PartialBelowMin !in reasons && PreCostOnlyProfitable !in reasons
  }

  lemma SizeGatesExactly(t: TradeSpec, a: Assumptions, q: real)
    requires ValidTrade(t) && ValidAssumptions(a) && EntryPrice(t, a) != 0.0 && OrderSize(t, a, q)
    ensures var g := SizeGates(t, a, EntryPrice(t, a));
            && g.quantity == q && g.notional == Value(q, EntryPrice(t, a)) && g.fill.Full?
            && (g.notional > 0.0 ==> g.fillRatio == 1.0)
            && SizeReasons(t, a, EntryPrice(t, a), q, g.reasons) && OnlySizeReasons(g.reasons)
  {
    hide RoundToStep, Affordable, EntryPrice, IsSized, Value, Worth, If, SignalAge, SizeReasons, OnlySizeReasons;
    var price := EntryPrice(t, a);
    PriceSigns(t, a);
    SizedExactly(q, Asked(t, a), price, a.limits.quantityStep);
    WorthIsValue(q, price);
    SizeReasonsListed(t, a, price, q);
  }

  lemma SizeReasonsListed(t: TradeSpec, a: Assumptions, price: real, q: real)
    requires ValidTrade(t) && ValidAssumptions(a)
    requires price != 0.0 && q == RoundToStep(Affordable(Requested(t, a), price), a.limits.quantityStep, false)
    ensures SizeReasons(t, a, price, q, SizeGates(t, a, price).reasons)
    ensures OnlySizeReasons(SizeGates(t, a, price).reasons)
  {
    hide RoundToStep, Affordable, Requested, If, Value, Worth;
    assert SignalAge(t, a.maxSignalAge).1.Stale? <==> !Fresh(t, a);
    hide SignalAge, Fresh, ValidTrade, ValidAssumptions;
    WorthIsValue(q, price);
    WorthIsValue(a.limits.minQuantity, price);
    var c, notional := a.limits, Value(q, price);
    Listed(c.minNotional > a.maxNotional, Value(c.minQuantity, price) > a.maxNotional, q <= 0.0 || q < c.minQuantity,
           notional > a.maxNotional, notional < c.minNotional && notional > 0.0, !Fresh(t, a));
  }

  lemma Listed(a: bool, b: bool, c: bool, d: bool, e: bool, f: bool)
    ensures var reasons := If(a, MinNotionalExceedsMax) + If(b, MinQuantityExceedsMax) + If(c, QuantityNotTradeable)
                           + If(d, RoundedExceedsMax) + If(e, BelowMinNotional) + If(f, StaleSignal);
            && (MinNotionalExceedsMax in reasons <==> a) && (MinQuantityExceedsMax in reasons <==> b)
            && (QuantityNotTradeable in reasons <==> c) && (RoundedExceedsMax in reasons <==> d)
            && (BelowMinNotional in reasons <==> e) && (StaleSignal in reasons <==> f)
            && OnlySizeReasons(reasons)
  {
    hide If;
    OneMore([], a, MinNotionalExceedsMax);
    assert [] + If(a, MinNotionalExceedsMax) == If(a, MinNotionalExceedsMax);
    var s1 := If(a, MinNotionalExceedsMax);
    OneMore(s1, b, MinQuantityExceedsMax);
    var s2 := s1 + If(b, MinQuantityExceedsMax);
    OneMore(s2, c, QuantityNotTradeable);
    var s3 := s2 + If(c, QuantityNotTradeable);
    OneMore(s3, d, RoundedExceedsMax);
    var s4 := s3 + If(d, RoundedExceedsMax);
    OneMore(s4, e, BelowMinNotional);
    OneMore(s4 + If(e, BelowMinNotional), f, StaleSignal);
  }

  lemma OneMore(s: seq<Reason>, given: bool, reason: Reason)
    ensures forall r :: r in s + If(given, reason) <==> r in s || (given && r == reason)
  {}

  lemma NoReason(t: TradeSpec, a: Assumptions, price: real, q: real, reasons: seq<Reason>)
    requires SizeReasons(t, a, price, q, reasons) && OnlySizeReasons(reasons) && price > 0.0
    ensures reasons == [] <==> WellSizedOrder(t, a, price, q)
    ensures WellSizedOrder(t, a, price, q) ==> Value(q, price) > 0.0
  {
    hide Fresh, Value;
    ValueOrder(q, q, price);
    if reasons == [] {
      assert forall r: Reason :: r !in reasons;
    } else {
      var r := reasons[0];
      assert r in reasons;
      match r
      case MinNotionalExceedsMax =>
      case MinQuantityExceedsMax =>
      case QuantityNotTradeable =>
      case RoundedExceedsMax =>
      case BelowMinNotional =>
      case StaleSignal =>
      case PartialBelowMin =>
      case MissedFill =>
      case PreCostOnlyProfitable =>
    }
  }

  // ----- outcomes -----

  /** The estimate gives the reasons of the gates, and at most one more. */
  lemma EstimateReasons(t: TradeSpec, a: Assumptions)
    requires EntryPrice(t, a) != 0.0
    ensures EstimateCost(t, a).Success?
    ensures var e, g := EstimateCost(t, a).value, AllGates(t, a);
            && (PreCostOnlyProfitable !in g.reasons ==>
                  forall r :: r in g.reasons <==> r in e.reasons && r != PreCostOnlyProfitable)
            && e.fill == (if g.reasons != [] && g.fill.Full? then Blocked else g.fill)
            && (g.reasons == [] ==> e.quantity == g.quantity && e.notional == g.notional && e.fillRatio == g.fillRatio)
            && (g.reasons != [] ==> e.quantity == 0.0 && e.notional == 0.0 && e.fillRatio == 0.0)
  {
    hide AllGates, EntryPrice, ExitPrice, Worth, SlippageCost, AppliedFeeRate, SignalAge, Requested;
  }

  /** What the known volumes do to an order that has been sized. */
  lemma FillExactly(g: Gates, a: Assumptions, price: real, capacity: Option<real>)
    requires price != 0.0 && g.fill.Full?
    requires MissedFill !in g.reasons && PartialBelowMin !in g.reasons
    ensures var f := FillGates(g, a, price, capacity);
            var covered := capacity.Some? ==> g.notional <= capacity.value;
            var partly := a.allowPartial && (capacity.Some? ==> a.limits.minNotional <= capacity.value);
            && (forall r :: r != MissedFill && r != PartialBelowMin ==> (r in f.reasons <==> r in g.reasons))
            && (MissedFill in f.reasons <==> !covered && !partly)
            && (PartialBelowMin in f.reasons ==> !covered && partly)
            && (covered ==> f == g)
            && (f.fill.Full? <==> covered) && (f.fill.Missed? <==> !covered && !partly)
            && (f.reasons == [] ==> g.reasons == [])
  {
    hide RoundToStep, Affordable, Worth;
  }

  /** Every reason of the estimate, and when it is filled in full: exactly when size and age speak for
      it and every known volume covers it. */
  lemma OutcomeExactly(t: TradeSpec, a: Assumptions, q: real)
    requires ValidTrade(t) && ValidAssumptions(a) && EntryPrice(t, a) != 0.0 && OrderSize(t, a, q)
    ensures var e, price := EstimateCost(t, a).value, EntryPrice(t, a);
            var covered := VolumesCover(t, a, Value(q, price));
            var partly := a.allowPartial && VolumesCover(t, a, a.limits.minNotional);
            && SizeReasons(t, a, price, q, e.reasons)
            && (MissedFill in e.reasons <==> !covered && !partly)
            && (PartialBelowMin in e.reasons ==> !covered && partly)
            && (e.fill.Full? <==> covered && WellSizedOrder(t, a, price, q))
            && (e.fill.Full? ==> e.quantity == q && e.notional == Value(q, price) && e.fillRatio == 1.0)
            && (e.fill.Missed? <==> !covered && !partly)
  {
    hide EntryPrice, Capacity, SizeGates, FillGates, VolumesCover, WellSizedOrder, OrderSize, EstimateCost, Value;
    var price, g := EntryPrice(t, a), SizeGates(t, a, EntryPrice(t, a));
    PriceSigns(t, a);
    CapacityIsLeast(t, a);
    SizeGatesExactly(t, a, q);
    NoReason(t, a, price, q, g.reasons);
    FillExactly(g, a, price, Capacity(t, a));
    EstimateReasons(t, a);
    hide AllGates;
    SameSizeReasons(t, a, price, q, g.reasons, EstimateCost(t, a).value.reasons);
  }

  lemma SameSizeReasons(t: TradeSpec, a: Assumptions, price: real, q: real, r: seq<Reason>, s: seq<Reason>)
    requires SizeReasons(t, a, price, q, r)
    requires forall x :: x != MissedFill && x != PartialBelowMin && x != PreCostOnlyProfitable ==> (x in r <==> x in s)
    ensures SizeReasons(t, a, price, q, s)
  {}

  /** An order that the known volumes do not cover, but that may be cut: `part` is what the smallest
      of them buys, and is traded if it is worth the minimum notional. */
  lemma PartialExactly(t: TradeSpec, a: Assumptions, q: real, capacity: real, part: real)
    requires ValidTrade(t) && ValidAssumptions(a) && EntryPrice(t, a) != 0.0 && OrderSize(t, a, q)
    requires forall notional :: VolumesCover(t, a, notional) <==> notional <= capacity
    requires a.allowPartial && a.limits.minNotional <= capacity < Value(q, EntryPrice(t, a))
    requires IsSized(part, capacity, EntryPrice(t, a), a.limits.quantityStep)
    ensures var e, price := EstimateCost(t, a).value, EntryPrice(t, a);
            && (PartialBelowMin in e.reasons <==> part <= 0.0 || Value(part, price) < a.limits.minNotional)
            && (WellSizedOrder(t, a, price, q) && PartialBelowMin !in e.reasons ==>
                  && e.fill.Partial? && e.quantity == part && e.notional == Value(part, price)
                  && Value(e.fillRatio, Value(q, price)) == Value(part, price))
  {
    hide EntryPrice, VolumesCover, WellSizedOrder, OrderSize, EstimateCost, IsSized, Capacity, AllGates, Value;
    CutGates(t, a, q, capacity, part);
    EstimateReasons(t, a);
  }

  lemma CutGates(t: TradeSpec, a: Assumptions, q: real, capacity: real, part: real)
    requires ValidTrade(t) && ValidAssumptions(a) && EntryPrice(t, a) != 0.0 && OrderSize(t, a, q)
    requires forall notional :: VolumesCover(t, a, notional) <==> notional <= capacity
    requires a.allowPartial && a.limits.minNotional <= capacity < Value(q, EntryPrice(t, a))
    requires IsSized(part, capacity, EntryPrice(t, a), a.limits.quantityStep)
    ensures var f, price := AllGates(t, a), EntryPrice(t, a);
            && (PartialBelowMin in f.reasons <==> part <= 0.0 || Value(part, price) < a.limits.minNotional)
            && PreCostOnlyProfitable !in f.reasons
            && (WellSizedOrder(t, a, price, q) && PartialBelowMin !in f.reasons ==>
                  && f.reasons == [] && f.fill.Partial? && f.quantity == part && f.notional == Value(part, price)
                  && Value(f.fillRatio, Value(q, price)) == Value(part, price))
  {
    hide EntryPrice, SizeGates, FillGates, VolumesCover, WellSizedOrder, OrderSize, IsSized, Capacity, Value;
    hide RoundToStep, Affordable, SizeReasons;
    var price := EntryPrice(t, a);
    PriceSigns(t, a);
    LeastIsCapacity(t, a, capacity);
    SizeGatesExactly(t, a, q);
    NoReason(t, a, price, q, SizeGates(t, a, price).reasons);
    SizedExactly(part, capacity, price, a.limits.quantityStep);
    CutExactly(SizeGates(t, a, price), a, price, capacity, part);
  }

  lemma LeastIsCapacity(t: TradeSpec, a: Assumptions, capacity: real)
    requires forall notional :: VolumesCover(t, a, notional) <==> notional <= capacity
    ensures Capacity(t, a) == Some(capacity)
  {
    CapacityIsLeast(t, a);
    hide VolumesCover, Capacity;
    assert VolumesCover(t, a, capacity) && !VolumesCover(t, a, capacity + 1.0);
    if Capacity(t, a).Some? {
      assert VolumesCover(t, a, Capacity(t, a).value);
    }
  }

  lemma CutExactly(g: Gates, a: Assumptions, price: real, capacity: real, part: real)
    requires price > 0.0 && g.fill.Full? && OnlySizeReasons(g.reasons)
    requires a.allowPartial && a.limits.minNotional <= capacity < g.notional
    requires part == RoundToStep(Affordable(capacity, price), a.limits.quantityStep, false)
    ensures var f := FillGates(g, a, price, Some(capacity));
            && (PartialBelowMin in f.reasons <==> part <= 0.0 || Value(part, price) < a.limits.minNotional)
            && (PartialBelowMin !in f.reasons ==> f.reasons == g.reasons)
            && PreCostOnlyProfitable !in f.reasons
            && (PartialBelowMin !in f.reasons && g.notional > 0.0 ==>
                  f.fill.Partial? && f.quantity == part && f.notional == Value(part, price)
                  && Value(f.fillRatio, g.notional) == Value(part, price))
  {
    hide RoundToStep, Affordable, Worth, Value;
    WorthIsValue(part, price);
    if g.notional > 0.0 {
      ShareValue(Value(part, price), g.notional);
    }
  }

  lemma ShareValue(part: real, whole: real)
    requires whole > 0.0
    ensures Value(part / whole, whole) == part
  {}

  // ----- money -----

  /** The money figures of every estimate, blocked ones included, from its notional: the taker fee on
      both legs, in pessimistic mode at least the floor; slippage on both; the loss, if any, as drawdown. */
  lemma FiguresExactly(t: TradeSpec, a: Assumptions)
    requires EntryPrice(t, a) != 0.0
    ensures var e := EstimateCost(t, a).value;
            var rate := if a.mode.Base? || a.fees.takerRate >= a.feeRateFloor then a.fees.takerRate else a.feeRateFloor;
            && e.entryPrice == EntryPrice(t, a) && e.exitPrice == ExitPrice(t, a) && e.requested == Asked(t, a)
            && e.entryRate == e.exitRate == rate
            && e.grossPnl == Value(e.notional, t.rawReturn)
            && e.entryFee == e.exitFee == Value(e.notional, rate) && e.fees == e.entryFee + e.exitFee
            && e.slippage == e.notional * (a.slippageBps / 10000.0) * 2.0
            && e.netPnl == e.grossPnl - e.fees - e.slippage
            && e.maxDrawdown == (if e.netPnl < 0.0 then -e.netPnl else 0.0)
    ensures var e := EstimateCost(t, a).value;
            && (e.tradeable <==> e.reasons == [])
            && (AllGates(t, a).reasons == [] ==>
                  (PreCostOnlyProfitable in e.reasons <==> e.grossPnl > 0.0 && e.netPnl <= 0.0))
    ensures var e := EstimateCost(t, a).value; var waited := t.entryAt - t.signalAt;
            && e.signalAge == (if a.maxSignalAge.None? then None else if waited > 0.0 then Some(waited) else Some(0.0))
            && (e.staleness.NotEvaluated? <==> a.maxSignalAge.None?)
            && (a.maxSignalAge.Some? ==> (e.staleness.Stale? <==> e.signalAge.value > a.maxSignalAge.value))
  {
    hide AllGates, EntryPrice, ExitPrice;
  }
}
