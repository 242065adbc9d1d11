/** The execution cost model: adverse tick rounding, notional caps, volume capacity, partial
    fills, fee modes and the gates that block an estimate. Rounding uses the floor and ceiling
    of the exact quotient. */
module CostModel {
  import opened Common
  import opened RealFacts

  datatype Mode = Base | Pessimistic

  datatype FeeSchedule = FeeSchedule(makerRate: real, takerRate: real)

  datatype Constraints = Constraints(minNotional: real, minQuantity: real, quantityStep: real, tickSize: real)

  datatype Assumptions = Assumptions(
    mode: Mode,
    maxNotional: real,
    feeRateFloor: real,
    slippageBps: real,
    maxSignalAge: Option<real>,
    participation: real,
    allowPartial: bool,
    fees: FeeSchedule,
    limits: Constraints)

  /** Timestamps are seconds on one UTC clock. */
  datatype TradeSpec = TradeSpec(
    direction: string,
    signalAt: real,
    entryAt: real,
    entryReference: real,
    exitReference: real,
    rawReturn: real,
    requestedNotional: real,
    entryVolume: Option<real>,
    exitVolume: Option<real>)

  datatype FillStatus = Full | Partial | Missed | Blocked

  datatype Staleness = Fresh | Stale | NotEvaluated

  datatype Reason =
    | MinNotionalExceedsMax
    | MinQuantityExceedsMax
    | QuantityNotTradeable
    | RoundedExceedsMax
    | BelowMinNotional
    | StaleSignal
    | PartialBelowMin
    | MissedFill
    | PreCostOnlyProfitable

  datatype Estimate = Estimate(
    tradeable: bool,
    entryRate: real,
    exitRate: real,
    staleness: Staleness,
    signalAge: Option<real>,
    fill: FillStatus,
    fillRatio: real,
    entryPrice: real,
    exitPrice: real,
    quantity: real,
    requested: real,
    notional: real,
    grossPnl: real,
    entryFee: real,
    exitFee: real,
    fees: real,
    slippage: real,
    netPnl: real,
    maxDrawdown: real,
    reasons: seq<Reason>)

  datatype CostError = ZeroEntryPrice

  predicate NonNegative(x: Option<real>) {
    x.Some? ==> x.value >= 0.0
  }

  /** The field validators of the three inputs. */
  predicate ValidAssumptions(a: Assumptions) {
    && a.maxNotional > 0.0
    && a.feeRateFloor >= 0.0
    && a.slippageBps >= 0.0
    && NonNegative(a.maxSignalAge)
    && 0.0 < a.participation <= 1.0
    && 0.0 <= a.fees.makerRate <= a.fees.takerRate
    && a.limits.minNotional >= 0.0 && a.limits.minQuantity >= 0.0
    && a.limits.quantityStep >= 0.0 && a.limits.tickSize >= 0.0
  }

  predicate ValidTrade(t: TradeSpec) {
    && t.direction != ""
    && t.entryReference > 0.0 && t.exitReference > 0.0
    && t.requestedNotional >= 0.0
    && NonNegative(t.entryVolume) && NonNegative(t.exitVolume)
  }

  // ----- rounding -----

  function Ceiling(x: real): int {
    -(-x).Floor
  }

  function RoundToStep(value: real, step: real, up: bool): real {
    if step <= 0.0 then value
    else Times(if up then Ceiling(value / step) else (value / step).Floor, step)
  }

  ghost predicate MultipleOf(x: real, step: real) {
    exists n: int :: Times(n, step) == x
  }

  function Times(n: int, step: real): real {
    n as real * step
  }

  /** Rounding down lands on a multiple of the step less than one step below; rounding up, less
      than one step above. */
  lemma RoundedToMultiple(value: real, step: real, up: bool)
    requires step > 0.0
    ensures var r := RoundToStep(value, step, up);
            && MultipleOf(r, step)
            && (if up then value <= r < value + step else value - step < r <= value)
  {
    var q := value / step;
    var n := if up then Ceiling(q) else q.Floor;
    assert q * step == value;
    assert Times(n, step) == RoundToStep(value, step, up);
    var other := if up then n - 1 else n + 1;
    TimesOrder(n, q, value, step);
    TimesOrder(other, q, value, step);
    TimesNext(if up then other else n, step);
    hide RoundToStep, Times;
  }

  lemma TimesOrder(n: int, q: real, value: real, step: real)
    requires step > 0.0 && q * step == value
    ensures n as real <= q <==> Times(n, step) <= value
    ensures n as real >= q <==> Times(n, step) >= value
  {
    assert (q - n as real) * step == value - Times(n, step);
  }

  lemma TimesNext(n: int, step: real)
    ensures Times(n + 1, step) == Times(n, step) + step
  {}

  lemma RoundDownNonNegative(value: real, step: real)
    requires value >= 0.0 && step >= 0.0
    ensures 0.0 <= RoundToStep(value, step, false) <= value
  {
    if step > 0.0 {
      RoundedToMultiple(value, step, false);
      RatioOrder(0.0, value, step);
      assert (value / step).Floor >= 0;
      assert Times((value / step).Floor, step) >= 0.0;
    }
  }

  // ----- the pieces of an estimate -----

  predicate IsShort(direction: string) {
    "short" <= direction
  }

  datatype Leg = Entry | Exit

  function AdversePrice(price: real, tick: real, direction: string, leg: Leg): real {
    RoundToStep(price, tick, (leg.Entry? && !IsShort(direction)) || (leg.Exit? && IsShort(direction)))
  }

  function AppliedFeeRate(a: Assumptions): real {
    if a.mode.Base? || a.fees.takerRate >= a.feeRateFloor then a.fees.takerRate else a.feeRateFloor
  }

  function SignalAge(t: TradeSpec, maxAge: Option<real>): (Option<real>, Staleness) {
    if maxAge.None? then (None, NotEvaluated)
    else
      var age := if t.entryAt - t.signalAt > 0.0 then t.entryAt - t.signalAt else 0.0;
      (Some(age), if age > maxAge.value then Stale else Fresh)
  }

  function Worth(quantity: real, price: real): real {
    quantity * price
  }

  function Affordable(notional: real, price: real): real
    requires price != 0.0
  {
    notional / price
  }

  /** The smallest of the volume capacities that are known. */
  function VolumeCapacity(t: TradeSpec, entryPrice: real, exitPrice: real, participation: real): Option<real> {
    var onEntry :=
      if t.entryVolume.Some? then Some(Worth(Worth(t.entryVolume.value, entryPrice), participation)) else None;
    var onExit :=
      if t.exitVolume.Some? then Some(Worth(Worth(t.exitVolume.value, exitPrice), participation)) else None;
    if onEntry.None? then onExit
    else if onExit.None? || onEntry.value <= onExit.value then onEntry
    else onExit
  }

  function Least(x: real, y: real): real {
    if y < x then y else x
  }

  function Requested(t: TradeSpec, a: Assumptions): real {
    Least(t.requestedNotional, a.maxNotional)
  }

  /** What the structural gates decide: size, fill and the reasons against the trade. */
  datatype Gates = Gates(quantity: real, notional: real, fill: FillStatus, fillRatio: real, reasons: seq<Reason>)

  function If(condition: bool, reason: Reason): seq<Reason> {
    if condition then [reason] else []
  }

  function SizeGates(t: TradeSpec, a: Assumptions, entryPrice: real): Gates
    requires entryPrice != 0.0
  {
    var c := a.limits;
    var quantity := RoundToStep(Affordable(Requested(t, a), entryPrice), c.quantityStep, false);
    var notional := Worth(quantity, entryPrice);
    Gates(quantity, notional, Full, if notional > 0.0 then 1.0 else 0.0,
          If(c.minNotional > a.maxNotional, MinNotionalExceedsMax)
          + If(Worth(c.minQuantity, entryPrice) > a.maxNotional, MinQuantityExceedsMax)
          + If(quantity <= 0.0 || quantity < c.minQuantity, QuantityNotTradeable)
          + If(notional > a.maxNotional, RoundedExceedsMax)
          + If(notional < c.minNotional && notional > 0.0, BelowMinNotional)
          + If(SignalAge(t, a.maxSignalAge).1.Stale?, StaleSignal))
  }

  function FillGates(g: Gates, a: Assumptions, entryPrice: real, capacity: Option<real>): Gates
    requires entryPrice != 0.0
  {
    if capacity.None? || capacity.value >= g.notional then g
    else if a.allowPartial && capacity.value >= a.limits.minNotional then
      var quantity := RoundToStep(Affordable(capacity.value, entryPrice), a.limits.quantityStep, false);
      var notional := Worth(quantity, entryPrice);
      if quantity > 0.0 && notional >= a.limits.minNotional then
        Gates(quantity, notional, Partial, if g.notional != 0.0 then notional / g.notional else 0.0, g.reasons)
      else g.(fill := Blocked, fillRatio := 0.0, reasons := g.reasons + [PartialBelowMin])
    else g.(fill := Missed, fillRatio := 0.0, reasons := g.reasons + [MissedFill])
  }

  function EntryPrice(t: TradeSpec, a: Assumptions): real {
    AdversePrice(t.entryReference, a.limits.tickSize, t.direction, Entry)
  }

  function ExitPrice(t: TradeSpec, a: Assumptions): real {
    AdversePrice(t.exitReference, a.limits.tickSize, t.direction, Exit)
  }

  function Capacity(t: TradeSpec, a: Assumptions): Option<real> {
    VolumeCapacity(t, EntryPrice(t, a), ExitPrice(t, a), a.participation)
  }

  function AllGates(t: TradeSpec, a: Assumptions): Gates
    requires EntryPrice(t, a) != 0.0
  {
    FillGates(SizeGates(t, a, EntryPrice(t, a)), a, EntryPrice(t, a), Capacity(t, a))
  }

  function BlockedEstimate(t: TradeSpec, a: Assumptions, g: Gates): Estimate {
    var rate := AppliedFeeRate(a);
    Estimate(false, rate, rate, SignalAge(t, a.maxSignalAge).1, SignalAge(t, a.maxSignalAge).0,
             if g.fill.Full? then Blocked else g.fill, 0.0, EntryPrice(t, a), ExitPrice(t, a),
             0.0, Requested(t, a), 0.0, 0.0, 0.0, 0.0, 0.0, 0.0, 0.0, 0.0, g.reasons)
  }

  function SlippageCost(notional: real, bps: real): real {
    notional * (bps / 10000.0) * 2.0
  }

  function PricedEstimate(t: TradeSpec, a: Assumptions, g: Gates): Estimate {
    var rate := AppliedFeeRate(a);
    var gross := Worth(g.notional, t.rawReturn);
    var fee := Worth(g.notional, rate);
    var slippage := SlippageCost(g.notional, a.slippageBps);
    var net := gross - (fee + fee) - slippage;
    var killed := gross > 0.0 && net <= 0.0;
    Estimate(!killed, rate, rate, SignalAge(t, a.maxSignalAge).1, SignalAge(t, a.maxSignalAge).0,
             g.fill, g.fillRatio, EntryPrice(t, a), ExitPrice(t, a),
             g.quantity, Requested(t, a), g.notional, gross, fee, fee, fee + fee, slippage, net,
             if net < 0.0 then -net else 0.0, If(killed, PreCostOnlyProfitable))
  }

  /** The whole estimate; an entry price rounded down to zero divides by zero. */
  function EstimateCost(t: TradeSpec, a: Assumptions): Result<Estimate, CostError> {
    if EntryPrice(t, a) == 0.0 then Failure(ZeroEntryPrice)
    else
      var g := AllGates(t, a);
      Success(if g.reasons != [] then BlockedEstimate(t, a, g) else PricedEstimate(t, a, g))
  }

  /** Sizes the order and collects the reasons against it, gate by gate. */
  method SizeOrder(t: TradeSpec, a: Assumptions, entryPrice: real) returns (g: Gates)
    requires entryPrice != 0.0
    ensures g == SizeGates(t, a, entryPrice)
  {
    hide RoundToStep, Worth, Affordable, SignalAge;
    var c := a.limits;
    var reasons: seq<Reason> := [];
    if c.minNotional > a.maxNotional {
      reasons := reasons + [MinNotionalExceedsMax];
    }
    ghost var expected := If(c.minNotional > a.maxNotional, MinNotionalExceedsMax);
    assert reasons == expected;
    if Worth(c.minQuantity, entryPrice) > a.maxNotional {
      reasons := reasons + [MinQuantityExceedsMax];
    }
    expected := expected + If(Worth(c.minQuantity, entryPrice) > a.maxNotional, MinQuantityExceedsMax);
    assert reasons == expected;
    var requested := Least(t.requestedNotional, a.maxNotional);
    var quantity := RoundToStep(Affordable(requested, entryPrice), c.quantityStep, false);
    if quantity <= 0.0 || quantity < c.minQuantity {
      reasons := reasons + [QuantityNotTradeable];
    }
    expected := expected + If(quantity <= 0.0 || quantity < c.minQuantity, QuantityNotTradeable);
    assert reasons == expected;
    var notional := Worth(quantity, entryPrice);
    if notional > a.maxNotional {
      reasons := reasons + [RoundedExceedsMax];
    }
    expected := expected + If(notional > a.maxNotional, RoundedExceedsMax);
    assert reasons == expected;
    if notional < c.minNotional && notional > 0.0 {
      reasons := reasons + [BelowMinNotional];
    }
    expected := expected + If(notional < c.minNotional && notional > 0.0, BelowMinNotional);
    assert reasons == expected;
    if SignalAge(t, a.maxSignalAge).1.Stale? {
      reasons := reasons + [StaleSignal];
    }
    g := Gates(quantity, notional, Full, if notional > 0.0 then 1.0 else 0.0, reasons);
  }

  /** Cuts a sized order down to the volume capacity. */
  method FillOrder(sized: Gates, a: Assumptions, entryPrice: real, capacity: Option<real>) returns (g: Gates)
    requires entryPrice != 0.0
    ensures g == FillGates(sized, a, entryPrice, capacity)
  {
    hide RoundToStep, Worth, Affordable;
    g := sized;
    if capacity.Some? && capacity.value < sized.notional {
      if a.allowPartial && capacity.value >= a.limits.minNotional {
        var quantity := RoundToStep(Affordable(capacity.value, entryPrice), a.limits.quantityStep, false);
        var notional := Worth(quantity, entryPrice);
        if quantity > 0.0 && notional >= a.limits.minNotional {
          var share := if sized.notional != 0.0 then notional / sized.notional else 0.0;
          g := g.(quantity := quantity, notional := notional, fill := Partial, fillRatio := share);
        } else {
          g := g.(fill := Blocked, fillRatio := 0.0, reasons := g.reasons + [PartialBelowMin]);
        }
      } else {
        g := g.(fill := Missed, fillRatio := 0.0, reasons := g.reasons + [MissedFill]);
      }
    }
  }

  method DecideGates(t: TradeSpec, a: Assumptions, entryPrice: real, exitPrice: real) returns (g: Gates)
    requires entryPrice == EntryPrice(t, a) != 0.0 && exitPrice == ExitPrice(t, a)
    ensures g == AllGates(t, a)
  {
    hide SizeGates, FillGates, VolumeCapacity, EntryPrice, ExitPrice;
    g := SizeOrder(t, a, entryPrice);
    g := FillOrder(g, a, entryPrice, VolumeCapacity(t, entryPrice, exitPrice, a.participation));
  }

  method EstimateExecutionCost(t: TradeSpec, a: Assumptions) returns (r: Result<Estimate, CostError>)
    requires ValidTrade(t) && ValidAssumptions(a)
    ensures r == EstimateCost(t, a)
  {
    hide AdversePrice, AllGates, Worth, SlippageCost, SignalAge, AppliedFeeRate;
    var entryPrice := AdversePrice(t.entryReference, a.limits.tickSize, t.direction, Entry);
    var exitPrice := AdversePrice(t.exitReference, a.limits.tickSize, t.direction, Exit);
    if entryPrice == 0.0 {
      return Failure(ZeroEntryPrice);
    }
    var g := DecideGates(t, a, entryPrice, exitPrice);
    var age, staleness := SignalAge(t, a.maxSignalAge).0, SignalAge(t, a.maxSignalAge).1;
    var requested := Least(t.requestedNotional, a.maxNotional);
    var rate := AppliedFeeRate(a);
    if g.reasons != [] {
      return Success(Estimate(false, rate, rate, staleness, age, if g.fill.Full? then Blocked else g.fill, 0.0,
                              entryPrice, exitPrice, 0.0, requested, 0.0, 0.0, 0.0, 0.0, 0.0, 0.0, 0.0, 0.0,
                              g.reasons));
    }
    var gross := Worth(g.notional, t.rawReturn);
    var entryFee, exitFee := Worth(g.notional, rate), Worth(g.notional, rate);
    var slippage := SlippageCost(g.notional, a.slippageBps);
    var net := gross - (entryFee + exitFee) - slippage;
    var tradeable, reasons := true, g.reasons;
    if gross > 0.0 && net <= 0.0 {
      tradeable := false;
      reasons := reasons + [PreCostOnlyProfitable];
    }
    assert reasons == If(gross > 0.0 && net <= 0.0, PreCostOnlyProfitable);
    r := Success(Estimate(tradeable, rate, rate, staleness, age, g.fill, g.fillRatio, entryPrice, exitPrice,
                          g.quantity, requested, g.notional, gross, entryFee, exitFee, entryFee + exitFee, slippage,
                          net, if net < 0.0 then -net else 0.0, reasons));
  }

  // ----- what an estimate promises -----

  lemma PriceSigns(t: TradeSpec, a: Assumptions)
    requires ValidTrade(t) && ValidAssumptions(a)
    ensures EntryPrice(t, a) >= 0.0 && ExitPrice(t, a) >= 0.0
  {
    var tick := a.limits.tickSize;
    if tick > 0.0 {
      RoundDownNonNegative(t.entryReference, tick);
      RoundDownNonNegative(t.exitReference, tick);
      RoundedToMultiple(t.entryReference, tick, true);
      RoundedToMultiple(t.exitReference, tick, true);
    }
  }

  /** Estimation fails exactly for a short whose reference price is below one tick. */
  lemma FailsOnlyBelowOneTick(t: TradeSpec, a: Assumptions)
    requires ValidTrade(t) && ValidAssumptions(a)
    ensures EstimateCost(t, a).Failure? <==> "short" <= t.direction && t.entryReference < a.limits.tickSize
  {
    var tick, price := a.limits.tickSize, t.entryReference;
    hide RoundToStep;
    if tick > 0.0 {
      RoundedToMultiple(price, tick, !IsShort(t.direction));
      if IsShort(t.direction) {
        RoundDownNonNegative(price, tick);
        var n :| Times(n, tick) == RoundToStep(price, tick, false);
        SmallMultiple(n, tick);
      }
    } else {
      NoRounding(price, !IsShort(t.direction));
    }
  }

  const SHORT_BELOW_TICK := TradeSpec("short", 0.0, 0.0, 1.0, 1.0, 0.0, 25.0, None, None)

  const COARSE_TICK :=
    Assumptions(Base, 25.0, 0.0, 0.0, None, 1.0, true, FeeSchedule(0.0, 0.0), Constraints(5.0, 0.0, 0.0, 2.0))

  /** Entering short at one with a tick of two rounds the price down to zero. */
  lemma ShortBelowOneTickFails()
    ensures ValidTrade(SHORT_BELOW_TICK) && ValidAssumptions(COARSE_TICK)
    ensures EstimateCost(SHORT_BELOW_TICK, COARSE_TICK) == Failure(ZeroEntryPrice)
  {
    FailsOnlyBelowOneTick(SHORT_BELOW_TICK, COARSE_TICK);
    hide AllGates;
  }

  lemma NoRounding(price: real, up: bool)
    ensures RoundToStep(price, 0.0, up) == price
  {}

  /** A non-negative multiple below one step is zero, and any other is at least one step. */
  lemma SmallMultiple(n: int, step: real)
    requires step > 0.0 && Times(n, step) >= 0.0
    ensures Times(n, step) == 0.0 || Times(n, step) >= step
  {
    if n >= 1 {
      assert (n - 1) as real * step >= 0.0;
      assert n as real * step == (n - 1) as real * step + step;
    } else if n < 0 {
      assert (-n) as real * step > 0.0;
    }
  }

  /** Entry and exit prices lie on the tick grid, on the adverse side of the reference and less than one tick away. */
  lemma PricesAreAdverse(t: TradeSpec, a: Assumptions)
    requires ValidTrade(t) && ValidAssumptions(a)
    ensures var tick := a.limits.tickSize; var entry, exit := EntryPrice(t, a), ExitPrice(t, a);
            if tick == 0.0 then entry == t.entryReference && exit == t.exitReference
            else
              && MultipleOf(entry, tick) && MultipleOf(exit, tick)
              && if "short" <= t.direction then
                   && t.entryReference - tick < entry <= t.entryReference
                   && t.exitReference <= exit < t.exitReference + tick
                 else
                   && t.entryReference <= entry < t.entryReference + tick
                   && t.exitReference - tick < exit <= t.exitReference
  {
    if a.limits.tickSize > 0.0 {
      RoundedToMultiple(t.entryReference, a.limits.tickSize, !IsShort(t.direction));
      RoundedToMultiple(t.exitReference, a.limits.tickSize, IsShort(t.direction));
      hide RoundToStep;
    }
  }

  /** Rounding a quantity down never makes it worth more than the notional it was sized from. */
  lemma SizedWithin(notional: real, price: real, step: real)
    requires notional >= 0.0 && price > 0.0 && step >= 0.0
    ensures var q := RoundToStep(Affordable(notional, price), step, false);
            && q >= 0.0
            && 0.0 <= Worth(q, price) <= notional
            && (q > 0.0 <==> Worth(q, price) > 0.0)
            && (step > 0.0 ==> MultipleOf(q, step))
  {
    RatioOrder(0.0, notional, price);
    RoundDownNonNegative(Affordable(notional, price), step);
    if step > 0.0 {
      RoundedToMultiple(Affordable(notional, price), step, false);
    }
    hide RoundToStep;
    var q, most := RoundToStep(Affordable(notional, price), step, false), Affordable(notional, price);
    assert most * price == notional;
    assert (most - q) * price >= 0.0;
    assert q * price >= 0.0;
  }

  lemma CapacityNonNegative(t: TradeSpec, a: Assumptions)
    requires ValidTrade(t) && ValidAssumptions(a)
    ensures NonNegative(Capacity(t, a))
  {
    PriceSigns(t, a);
    hide EntryPrice, ExitPrice;
    if t.entryVolume.Some? {
      WorthNonNegative(t.entryVolume.value, EntryPrice(t, a));
      WorthNonNegative(Worth(t.entryVolume.value, EntryPrice(t, a)), a.participation);
    }
    if t.exitVolume.Some? {
      WorthNonNegative(t.exitVolume.value, ExitPrice(t, a));
      WorthNonNegative(Worth(t.exitVolume.value, ExitPrice(t, a)), a.participation);
    }
    hide Worth;
  }

  lemma WorthNonNegative(x: real, y: real)
    requires x >= 0.0 && y >= 0.0
    ensures Worth(x, y) >= 0.0
  {}

  /** What passing the gates establishes about size and fill. */
  ghost predicate WellSized(t: TradeSpec, a: Assumptions, g: Gates) {
    var c, capacity := a.limits, Capacity(t, a);
    && g.quantity > 0.0 && g.notional == Worth(g.quantity, EntryPrice(t, a))
    && (c.quantityStep > 0.0 ==> MultipleOf(g.quantity, c.quantityStep))
    && c.minNotional <= g.notional <= Least(t.requestedNotional, a.maxNotional)
    && (capacity.Some? ==> g.notional <= capacity.value)
    && 0.0 < g.fillRatio <= 1.0
    && (g.fill.Full? || g.fill.Partial?)
    && (g.fill.Full? <==> g.fillRatio == 1.0)
    && (g.fill.Full? ==> g.quantity >= c.minQuantity)
  }

  lemma SizeGatesBound(t: TradeSpec, a: Assumptions)
    requires ValidTrade(t) && ValidAssumptions(a) && EntryPrice(t, a) != 0.0
    ensures var g := SizeGates(t, a, EntryPrice(t, a));
            && 0.0 <= g.notional <= Requested(t, a)
            && (g.quantity > 0.0 <==> g.notional > 0.0)
            && (a.limits.quantityStep > 0.0 ==> MultipleOf(g.quantity, a.limits.quantityStep))
  {
    PriceSigns(t, a);
    SizedWithin(Requested(t, a), EntryPrice(t, a), a.limits.quantityStep);
  }

  lemma SizePasses(t: TradeSpec, a: Assumptions)
    requires ValidTrade(t) && ValidAssumptions(a) && EntryPrice(t, a) != 0.0
    requires SizeGates(t, a, EntryPrice(t, a)).reasons == []
    ensures var g := SizeGates(t, a, EntryPrice(t, a));
            && g.quantity > 0.0 && g.quantity >= a.limits.minQuantity && g.fill.Full? && g.fillRatio == 1.0
            && g.notional == Worth(g.quantity, EntryPrice(t, a))
            && a.limits.minNotional <= g.notional <= Requested(t, a)
            && (a.limits.quantityStep > 0.0 ==> MultipleOf(g.quantity, a.limits.quantityStep))
  {
    SizeGatesBound(t, a);
    hide RoundToStep, Worth, Affordable, EntryPrice, MultipleOf, SignalAge;
  }

  lemma GatesWellSized(t: TradeSpec, a: Assumptions)
    requires ValidTrade(t) && ValidAssumptions(a) && EntryPrice(t, a) != 0.0
    requires AllGates(t, a).reasons == []
    ensures WellSized(t, a, AllGates(t, a))
  {
    PriceSigns(t, a);
    SizePasses(t, a);
    CapacityNonNegative(t, a);
    var capacity, price := Capacity(t, a), EntryPrice(t, a);
    hide RoundToStep, Worth, Affordable, EntryPrice, Capacity, MultipleOf, SizeGates;
    var g := SizeGates(t, a, price);
    if capacity.Some? && capacity.value < g.notional {
      SizedWithin(capacity.value, price, a.limits.quantityStep);
      ProperShare(AllGates(t, a).notional, g.notional);
    }
  }

  lemma ProperShare(part: real, whole: real)
    requires 0.0 < part < whole
    ensures 0.0 < part / whole < 1.0
  {
    RatioPositive(part, whole);
    RatioOrder(whole, part, whole);
    assert whole / whole == 1.0;
  }

  /** A tradeable estimate is sized on the quantity step, between the minimum notional and the
      smaller of request and cap, within the volume capacity; its profit is what fees and
      slippage leave, and it never was profitable only before costs. */
  lemma TradeableEstimate(t: TradeSpec, a: Assumptions)
    requires ValidTrade(t) && ValidAssumptions(a)
    ensures EstimateCost(t, a).Success? && EstimateCost(t, a).value.tradeable ==>
            var e := EstimateCost(t, a).value;
            && WellSized(t, a, Gates(e.quantity, e.notional, e.fill, e.fillRatio, e.reasons))
            && e.reasons == []
            && e.netPnl == e.grossPnl - e.fees - e.slippage
            && e.fees == e.entryFee + e.exitFee
            && (e.grossPnl > 0.0 ==> e.netPnl > 0.0)
  {
    hide WellSized, AllGates, EntryPrice, Worth;
    if EstimateCost(t, a).Success? && EstimateCost(t, a).value.tradeable {
      GatesWellSized(t, a);
      var e, g := EstimateCost(t, a).value, AllGates(t, a);
      assert g == Gates(e.quantity, e.notional, e.fill, e.fillRatio, e.reasons);
    }
  }

  /** Rounding down cannot push the notional over the cap, so that reason is never given. */
  lemma RoundedNeverExceedsMax(t: TradeSpec, a: Assumptions)
    requires ValidTrade(t) && ValidAssumptions(a)
    ensures EstimateCost(t, a).Success? ==> RoundedExceedsMax !in EstimateCost(t, a).value.reasons
  {
    hide EntryPrice;
    if EntryPrice(t, a) != 0.0 {
      SizeGatesBound(t, a);
      assert a.maxNotional >= SizeGates(t, a, EntryPrice(t, a)).notional;
      hide RoundToStep, Worth, Affordable, Capacity, MultipleOf, SignalAge, Requested, ValidTrade, ValidAssumptions;
      assert RoundedExceedsMax !in SizeGates(t, a, EntryPrice(t, a)).reasons;
      hide SizeGates;
    }
  }

  /** Every estimate passes the validators of the estimate model, and is tradeable exactly when no
      reason speaks against it. */
  lemma EstimatesAreValid(t: TradeSpec, a: Assumptions)
    requires ValidTrade(t) && ValidAssumptions(a)
    ensures EstimateCost(t, a).Success? ==>
            var e := EstimateCost(t, a).value;
            && (e.tradeable <==> e.reasons == [])
            && e.entryPrice >= 0.0 && e.exitPrice >= 0.0 && e.quantity >= 0.0 && e.requested >= 0.0 && e.notional >= 0.0
            && e.entryRate >= 0.0 && e.exitRate >= 0.0
            && e.entryFee >= 0.0 && e.exitFee >= 0.0 && e.fees >= 0.0 && e.slippage >= 0.0 && e.maxDrawdown >= 0.0
            && 0.0 <= e.fillRatio <= 1.0 && NonNegative(e.signalAge)
  {
    PriceSigns(t, a);
    hide AllGates, EntryPrice, ExitPrice, SlippageCost, Worth;
    if EntryPrice(t, a) != 0.0 && AllGates(t, a).reasons == [] {
      var g := AllGates(t, a);
      GatesWellSized(t, a);
      SlippageNonNegative(g.notional, a.slippageBps);
      WorthNonNegative(g.notional, AppliedFeeRate(a));
    }
  }

  lemma SlippageNonNegative(notional: real, bps: real)
    requires notional >= 0.0 && bps >= 0.0
    ensures SlippageCost(notional, bps) >= 0.0
  {
    assert notional * (bps / 10000.0) >= 0.0;
  }

  lemma TimesGrow(n: int, k: int, step: real)
    requires step > 0.0
    ensures Times(n, step) >= Times(k, step) <==> n >= k
  {
    TimesOrder(k, n as real, Times(n, step), step);
  }

  /** Rounding a value down reaches a minimum exactly when the value reaches the minimum rounded
      up, and what is rounded down reaches both or neither. */
  lemma RoundDownReaches(value: real, step: real, minimum: real)
    requires step >= 0.0
    ensures var rounded, needed := RoundToStep(value, step, false), RoundToStep(minimum, step, true);
            (rounded >= minimum <==> value >= needed) && (rounded >= minimum <==> rounded >= needed)
  {
    if step > 0.0 {
      var n, k := (value / step).Floor, Ceiling(minimum / step);
      assert value / step * step == value && minimum / step * step == minimum;
      TimesOrder(n, minimum / step, minimum, step);
      TimesOrder(k, value / step, value, step);
      TimesGrow(n, k, step);
      hide Times;
    }
  }

  lemma AffordableReaches(notional: real, price: real, quantity: real)
    requires price > 0.0
    ensures Affordable(notional, price) >= quantity <==> notional >= Worth(quantity, price)
  {
    WorthOrder(quantity, Affordable(notional, price), price);
    assert Worth(Affordable(notional, price), price) == notional;
  }

  /** The volume that a minimum quantity calls for: the minimum rounded up to the step, at the price. */
  function VolumeForMinimum(t: TradeSpec, a: Assumptions): real {
    Worth(RoundToStep(a.limits.minQuantity, a.limits.quantityStep, true), EntryPrice(t, a))
  }

  lemma SizedReaches(t: TradeSpec, a: Assumptions, notional: real)
    requires ValidTrade(t) && ValidAssumptions(a) && EntryPrice(t, a) != 0.0
    ensures var q := RoundToStep(Affordable(notional, EntryPrice(t, a)), a.limits.quantityStep, false);
            && (q >= a.limits.minQuantity <==> notional >= VolumeForMinimum(t, a))
            && (q >= a.limits.minQuantity <==> Worth(q, EntryPrice(t, a)) >= VolumeForMinimum(t, a))
  {
    PriceSigns(t, a);
    var price, step, minimum := EntryPrice(t, a), a.limits.quantityStep, a.limits.minQuantity;
    var needed := RoundToStep(minimum, step, true);
    RoundDownReaches(Affordable(notional, price), step, minimum);
    AffordableReaches(notional, price, needed);
    WorthOrder(needed, RoundToStep(Affordable(notional, price), step, false), price);
    hide EntryPrice, RoundToStep, Affordable, Worth;
  }

  /** A partial fill is not checked against the minimum quantity again, so a tradeable estimate
      meets it exactly when the volume capacity reaches the worth of the minimum rounded up. */
  lemma MinQuantityAfterPartialFill(t: TradeSpec, a: Assumptions)
    requires ValidTrade(t) && ValidAssumptions(a)
    ensures EstimateCost(t, a).Success? && EstimateCost(t, a).value.tradeable ==>
            var capacity := Capacity(t, a);
            EstimateCost(t, a).value.quantity >= a.limits.minQuantity <==>
            capacity.None? || capacity.value >= VolumeForMinimum(t, a)
  {
    hide RoundToStep, Worth, Affordable, EntryPrice, Capacity, SignalAge, VolumeForMinimum;
    if EstimateCost(t, a).Success? && EstimateCost(t, a).value.tradeable {
      SizedReaches(t, a, Requested(t, a));
      if Capacity(t, a).Some? {
        SizedReaches(t, a, Capacity(t, a).value);
      }
    }
  }

  const THIN_MARKET :=
    Assumptions(Base, 25.0, 0.0, 0.0, None, 1.0, true, FeeSchedule(0.0, 0.0), Constraints(5.0, 2.0, 0.0, 0.0))

  const THIN_TRADE := TradeSpec("long", 0.0, 0.0, 10.0, 10.0, 0.0, 25.0, Some(1.0), None)

  lemma ThinMarketGates()
    ensures EntryPrice(THIN_TRADE, THIN_MARKET) == 10.0
    ensures AllGates(THIN_TRADE, THIN_MARKET) == Gates(1.0, 10.0, Partial, 10.0 / 25.0, [])
  {
    assert Capacity(THIN_TRADE, THIN_MARKET) == Some(10.0);
    assert SizeGates(THIN_TRADE, THIN_MARKET, 10.0) == Gates(2.5, 25.0, Full, 1.0, []);
  }

  /** With a minimum quantity of two and volume for one, the estimate trades one. */
  lemma PartialFillUndercutsMinQuantity()
    ensures ValidTrade(THIN_TRADE) && ValidAssumptions(THIN_MARKET)
    ensures var r := EstimateCost(THIN_TRADE, THIN_MARKET);
            r.Success? && r.value.tradeable && r.value.quantity < THIN_MARKET.limits.minQuantity
  {
    hide AllGates, EntryPrice, ExitPrice, Worth, SlippageCost, AppliedFeeRate, SignalAge;
    ThinMarketGates();
    ReturnCoversCosts(THIN_TRADE, THIN_MARKET);
  }

  /** A stale signal is a reason exactly when the entry comes later than the age allowed. */
  lemma StaleExactly(t: TradeSpec, a: Assumptions)
    requires ValidTrade(t) && ValidAssumptions(a) && EntryPrice(t, a) != 0.0
    ensures StaleSignal in EstimateCost(t, a).value.reasons
        <==> a.maxSignalAge.Some? && t.entryAt > t.signalAt + a.maxSignalAge.value
  {
    hide RoundToStep, Worth, Affordable, EntryPrice, Capacity, SlippageCost;
    var g := SizeGates(t, a, EntryPrice(t, a));
    assert StaleSignal in g.reasons <==> SignalAge(t, a.maxSignalAge).1.Stale?;
    hide SizeGates, SignalAge;
  }

  /** Rounding down costs less than one quantity step at the price. */
  lemma SizedClose(notional: real, price: real, step: real)
    requires notional >= 0.0 && price > 0.0 && step >= 0.0
    ensures var worth := Worth(RoundToStep(Affordable(notional, price), step, false), price);
            if step == 0.0 then worth == notional else worth > notional - Worth(step, price)
  {
    assert Affordable(notional, price) * price == notional;
    if step > 0.0 {
      RoundedToMultiple(Affordable(notional, price), step, false);
      hide RoundToStep, Affordable;
      var short := RoundToStep(Affordable(notional, price), step, false) + step - Affordable(notional, price);
      ProductPositive(short, price);
    }
  }

  lemma WorthOrder(x: real, y: real, price: real)
    requires price > 0.0
    ensures Worth(x, price) <= Worth(y, price) <==> x <= y
  {
    ProductSign(price, x - y);
    assert Worth(x, price) - Worth(y, price) == price * (x - y);
  }

  /** The order leaves room for rounding: it is fresh, and a step less still meets both minimums. */
  ghost predicate Roomy(t: TradeSpec, a: Assumptions) {
    var c, price, requested := a.limits, EntryPrice(t, a), Requested(t, a);
    && price != 0.0 && requested > 0.0
    && Worth(c.quantityStep, price) + c.minNotional <= requested
    && Worth(c.quantityStep, price) + Worth(c.minQuantity, price) <= requested
    && !SignalAge(t, a.maxSignalAge).1.Stale?
  }

  lemma RoomySizePasses(t: TradeSpec, a: Assumptions)
    requires ValidTrade(t) && ValidAssumptions(a) && Roomy(t, a)
    ensures var g := SizeGates(t, a, EntryPrice(t, a));
            && g.reasons == [] && g.fill.Full? && g.fillRatio == 1.0
            && Requested(t, a) - Worth(a.limits.quantityStep, EntryPrice(t, a)) <= g.notional <= Requested(t, a)
  {
    var c, price := a.limits, EntryPrice(t, a);
    PriceSigns(t, a);
    SizeGatesBound(t, a);
    SizedClose(Requested(t, a), price, c.quantityStep);
    assert Worth(0.0, price) == 0.0;
    var g := SizeGates(t, a, price);
    WorthNonNegative(c.quantityStep, price);
    WorthNonNegative(c.minQuantity, price);
    WorthOrder(c.minQuantity, g.quantity, price);
    hide RoundToStep, Worth, Affordable, EntryPrice, MultipleOf, SignalAge;
  }

  lemma RoomyPartPasses(capacity: real, price: real, c: Constraints)
    requires price > 0.0 && c.quantityStep >= 0.0 && c.minNotional >= 0.0
    requires capacity > 0.0 && Worth(c.quantityStep, price) + c.minNotional <= capacity
    ensures var q := RoundToStep(Affordable(capacity, price), c.quantityStep, false);
            q > 0.0 && Worth(q, price) >= c.minNotional && capacity >= c.minNotional
  {
    SizedWithin(capacity, price, c.quantityStep);
    SizedClose(capacity, price, c.quantityStep);
    WorthNonNegative(c.quantityStep, price);
    hide RoundToStep, Affordable, Worth;
  }

  /** An order with room gets through the gates as far as volume goes: filled in full when volume
      covers it, missed when it does not and partial fills are off, and otherwise filled in part when
      what volume allows leaves room itself. */
  lemma RoomyOrderFills(t: TradeSpec, a: Assumptions)
    requires ValidTrade(t) && ValidAssumptions(a) && Roomy(t, a)
    ensures var g, capacity, c, price := AllGates(t, a), Capacity(t, a), a.limits, EntryPrice(t, a);
            && (capacity.None? || capacity.value >= Requested(t, a) ==> g.reasons == [] && g.fill.Full?)
            && (capacity.Some? && capacity.value < Requested(t, a) - Worth(c.quantityStep, price) ==>
                  && (!a.allowPartial ==> g.reasons == [MissedFill] && g.fill.Missed?)
                  && (a.allowPartial && capacity.value > 0.0
                      && Worth(c.quantityStep, price) + c.minNotional <= capacity.value ==>
                        g.reasons == [] && g.fill.Partial?))
  {
    PriceSigns(t, a);
    RoomySizePasses(t, a);
    var capacity, price := Capacity(t, a), EntryPrice(t, a);
    hide RoundToStep, Worth, Affordable, EntryPrice, Capacity, SizeGates, Requested, SignalAge;
    if capacity.Some? && capacity.value > 0.0
       && Worth(a.limits.quantityStep, price) + a.limits.minNotional <= capacity.value {
      RoomyPartPasses(capacity.value, price, a.limits);
    }
  }

  lemma NetSign(notional: real, raw: real, rate: real, bps: real)
    requires notional > 0.0
    ensures Worth(notional, raw) > 0.0 <==> raw > 0.0
    ensures Worth(notional, raw) - (Worth(notional, rate) + Worth(notional, rate)) - SlippageCost(notional, bps) > 0.0
        <==> raw > 2.0 * rate + 2.0 * (bps / 10000.0)
  {
    ProductSign(notional, raw);
    var costs := 2.0 * rate + 2.0 * (bps / 10000.0);
    ProductSign(notional, raw - costs);
    assert notional * (raw - costs) == notional * raw - notional * costs;
    assert notional * costs == notional * rate + notional * rate + notional * (bps / 10000.0) * 2.0;
  }

  /** An order that passes the gates is tradeable exactly when its return covers both fees and both
      slippages, or was no gain to begin with. */
  lemma ReturnCoversCosts(t: TradeSpec, a: Assumptions)
    requires ValidTrade(t) && ValidAssumptions(a) && EntryPrice(t, a) != 0.0 && AllGates(t, a).reasons == []
    ensures EstimateCost(t, a).value.tradeable
        <==> t.rawReturn <= 0.0 || t.rawReturn > 2.0 * AppliedFeeRate(a) + 2.0 * (a.slippageBps / 10000.0)
  {
    hide AllGates, AppliedFeeRate, EntryPrice, ExitPrice, Worth, SlippageCost, SignalAge;
    PositiveNotional(t, a);
    NetSign(AllGates(t, a).notional, t.rawReturn, AppliedFeeRate(a), a.slippageBps);
  }

  lemma PositiveNotional(t: TradeSpec, a: Assumptions)
    requires ValidTrade(t) && ValidAssumptions(a) && EntryPrice(t, a) != 0.0 && AllGates(t, a).reasons == []
    ensures AllGates(t, a).notional > 0.0
  {
    hide AllGates, EntryPrice;
    GatesWellSized(t, a);
    PriceSigns(t, a);
    ProductPositive(AllGates(t, a).quantity, EntryPrice(t, a));
  }

  /** For the same trade the pessimistic mode never beats base: the gates decide alike, profit is
      no higher, and whatever pessimistic lets through base lets through. */
  lemma PessimisticNeverBeatsBase(t: TradeSpec, a: Assumptions)
    requires ValidTrade(t) && ValidAssumptions(a)
    ensures var base, pessimistic := EstimateCost(t, a.(mode := Base)), EstimateCost(t, a.(mode := Pessimistic));
            && (base.Success? <==> pessimistic.Success?)
            && (base.Success? ==>
                  var b, p := base.value, pessimistic.value;
                  && b.(tradeable := p.tradeable, entryRate := p.entryRate, exitRate := p.exitRate,
                        entryFee := p.entryFee, exitFee := p.exitFee, fees := p.fees, netPnl := p.netPnl,
                        maxDrawdown := p.maxDrawdown, reasons := p.reasons) == p
                  && p.netPnl <= b.netPnl && b.maxDrawdown <= p.maxDrawdown
                  && (p.tradeable ==> b.tradeable))
  {
    var b, p := a.(mode := Base), a.(mode := Pessimistic);
    if EntryPrice(t, a) != 0.0 {
      assert AllGates(t, b) == AllGates(t, p);
      var g := AllGates(t, b);
      if g.reasons == [] {
        GatesWellSized(t, b);
        WorthGrows(g.notional, AppliedFeeRate(b), AppliedFeeRate(p));
      }
      hide AllGates, AppliedFeeRate, Worth, SlippageCost, EntryPrice, ExitPrice;
    }
  }

  lemma WorthGrows(x: real, low: real, high: real)
    requires x >= 0.0 && low <= high
    ensures Worth(x, low) <= Worth(x, high)
  {
    WorthNonNegative(x, high - low);
    assert Worth(x, high - low) == Worth(x, high) - Worth(x, low);
  }
}
