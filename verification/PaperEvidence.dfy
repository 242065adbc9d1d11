/** Grouping paper outcomes by strategy family into evidence packages. */
module PaperEvidence {
  import opened Common
  import opened RealFacts
  import opened Dedupes
  import TextOrder
  import PaperAccounts

  datatype Status = Closed | Filled | Succeeded | Failed | Rejected | Blocked

  predicate IsClosed(s: Status) {
    s.Closed? || s.Filled? || s.Succeeded?
  }

  predicate IsFailed(s: Status) {
    s.Failed? || s.Rejected? || s.Blocked?
  }

  datatype Input = Input(
    family: string,
    status: Status,
    realizedNet: Option<real>,
    maxDrawdown: Option<real>,
    notional: real,
    grossPnl: real,
    fees: real,
    slippage: real,
    costMode: Option<string>,
    staleSignal: Option<string>,
    fill: Option<string>,
    reasons: seq<string>)

  /** The figures of a package that simply add up. */
  datatype Totals = Totals(
    sample: int, closed: int, failed: int, blocked: int, wins: int, stale: int, missed: int, partly: int,
    net: real, notional: real, gross: real, fees: real, slippage: real)

  const NOTHING := Totals(0, 0, 0, 0, 0, 0, 0, 0, 0.0, 0.0, 0.0, 0.0, 0.0)

  function Plus(a: Totals, b: Totals): Totals {
    Totals(a.sample + b.sample, a.closed + b.closed, a.failed + b.failed, a.blocked + b.blocked, a.wins + b.wins,
           a.stale + b.stale, a.missed + b.missed, a.partly + b.partly,
           a.net + b.net, a.notional + b.notional, a.gross + b.gross, a.fees + b.fees, a.slippage + b.slippage)
  }

  function Count(b: bool): int {
    if b then 1 else 0
  }

  function One(x: Input): Totals {
    Totals(1, Count(IsClosed(x.status)), Count(IsFailed(x.status)), Count(x.status.Blocked?),
           Count(IsClosed(x.status) && x.realizedNet.Some? && x.realizedNet.value > 0.0),
           Count(x.staleSignal == Some("stale")), Count(x.fill == Some("missed")), Count(x.fill == Some("partial")),
           if x.realizedNet.Some? then x.realizedNet.value else 0.0, x.notional, x.grossPnl, x.fees, x.slippage)
  }

  function TotalsOf(items: seq<Input>): Totals {
    if items == [] then NOTHING else Plus(TotalsOf(items[..|items| - 1]), One(items[|items| - 1]))
  }

  function Larger(x: real, y: real): real {
    if y > x then y else x
  }

  /** A reported drawdown counts, and so does a realized loss. */
  function WithDrawdown(worst: real, x: Input): real {
    var reported := if x.maxDrawdown.Some? then Larger(worst, x.maxDrawdown.value) else worst;
    if x.realizedNet.Some? && x.realizedNet.value < 0.0 then Larger(reported, -x.realizedNet.value) else reported
  }

  function WorstOf(items: seq<Input>): (worst: real)
    ensures worst >= 0.0
  {
    if items == [] then 0.0 else WithDrawdown(WorstOf(items[..|items| - 1]), items[|items| - 1])
  }

  function ModeOf(x: Input): seq<string> {
    if x.costMode.Some? && x.costMode.value != "" then [x.costMode.value] else []
  }

  function ModesOf(items: seq<Input>): seq<string> {
    if items == [] then [] else ModesOf(items[..|items| - 1]) + ModeOf(items[|items| - 1])
  }

  function ReasonsOf(items: seq<Input>): seq<string> {
    if items == [] then [] else ReasonsOf(items[..|items| - 1]) + items[|items| - 1].reasons
  }

  datatype Package = Package(
    family: string, totals: Totals, hitRate: real, maxDrawdown: real, costModes: seq<string>, reasons: seq<string>)

  function HitRate(wins: int, closed: int): real {
    if closed <= 0 then 0.0 else wins as real / closed as real
  }

  function PackageOf(family: string, items: seq<Input>): Package {
    var t := TotalsOf(items);
    Package(family, t, HitRate(t.wins, t.closed), WorstOf(items), Dedupe(ModesOf(items)), Dedupe(ReasonsOf(items)))
  }

  function Selected(items: seq<Input>, family: string, keep: bool): seq<Input> {
    if items == [] then []
    else
      var last := items[|items| - 1];
      Selected(items[..|items| - 1], family, keep) + if (last.family == family) == keep then [last] else []
  }

  function OfFamily(items: seq<Input>, family: string): seq<Input> {
    Selected(items, family, true)
  }

  function Others(items: seq<Input>, family: string): seq<Input> {
    Selected(items, family, false)
  }

  // ----- aggregation -----

  /** An input as it stands, the result of one paper trade, or a free-form mapping: what it reads as,
      given the family asked for, or nothing when it is refused. */
  datatype Item =
    | Ready(input: Input)
    | Trade(result: PaperAccounts.TradeResult)
    | Free(read: Option<string> -> Option<Input>)

  function Coerced(x: Item, family: Option<string>): Option<Input> {
    match x
    case Ready(input) => Some(input)
    case Trade(result) =>
      Some(Input(if family.Some? && family.value != "" then family.value else "paper_execution", Closed,
                 Some(result.outcome.realizedNet), None, 0.0, 0.0, 0.0, 0.0, None, None, None, []))
    case Free(read) => read(family)
  }

  /** The inputs of all items, unless one is refused. */
  function CoercedAll(items: seq<Item>, family: Option<string>): Option<seq<Input>> {
    if |items| == 0 then Some([])
    else
      var front :- CoercedAll(items[..|items| - 1], family);
      var last :- Coerced(items[|items| - 1], family);
      Some(front + [last])
  }

  function OfFamilyAsked(inputs: seq<Input>, family: Option<string>): seq<Input> {
    if family.Some? then OfFamily(inputs, family.value) else inputs
  }

  function KeptInputs(items: seq<Item>, family: Option<string>): Option<seq<Input>> {
    var all :- CoercedAll(items, family);
    Some(OfFamilyAsked(all, family))
  }

  /** One package for every family that occurs, in text order. */
  ghost predicate IsAggregate(inputs: seq<Input>, packages: seq<Package>) {
    && (forall i, j :: 0 <= i < j < |packages| ==> TextOrder.Before(packages[i].family, packages[j].family))
    && (forall i :: 0 <= i < |packages| ==>
          packages[i] == PackageOf(packages[i].family, OfFamily(inputs, packages[i].family)))
    && (forall i :: 0 <= i < |packages| ==> OfFamily(inputs, packages[i].family) != [])
    && (forall x :: x in inputs ==> exists i :: 0 <= i < |packages| && packages[i].family == x.family)
  }

  method PackageFamily(family: string, items: seq<Input>) returns (p: Package)
    ensures p == PackageOf(family, items)
    ensures (forall x :: x in items ==> x.family == family) ==> Reports(p, items)
  {
    var reasons, modes := [], [];
    var worst, totals := 0.0, NOTHING;
    for i := 0 to |items|
      invariant reasons == ReasonsOf(items[..i])
      invariant modes == ModesOf(items[..i])
      invariant worst == WorstOf(items[..i])
      invariant totals == TotalsOf(items[..i])
    {
      assert items[..i + 1][..i] == items[..i];
      hide One, Plus;
      var x := items[i];
      reasons := reasons + x.reasons;
      totals := Plus(totals, One(x));
      if x.costMode.Some? && x.costMode.value != "" {
        modes := modes + [x.costMode.value];
      }
      if x.maxDrawdown.Some? {
        worst := Larger(worst, x.maxDrawdown.value);
      }
      if x.realizedNet.Some? && x.realizedNet.value < 0.0 {
        worst := Larger(worst, -x.realizedNet.value);
      }
    }
    assert items[..|items|] == items;
    var costModes := DedupeLoop(modes);
    var failureReasons := DedupeLoop(reasons);
    p := Package(family, totals, HitRate(totals.wins, totals.closed), worst, costModes, failureReasons);
    hide PackageOf, Reports;
    if forall x :: x in items ==> x.family == family {
      SelectedAll(items, family);
      PackageReports(family, items);
    }
  }

  datatype EvidenceError = RefusedItem

  method AggregatePaperEvidence(items: seq<Item>, family: Option<string>)
    returns (r: Result<seq<Package>, EvidenceError>)
    ensures r.Success? <==> KeptInputs(items, family).Some?
    ensures r.Success? ==> IsAggregate(KeptInputs(items, family).value, r.value)
    ensures r.Success? ==> forall p :: p in r.value ==> Reports(p, KeptInputs(items, family).value)
  {
    hide KeptInputs, IsAggregate, Reports;
    var kept := KeptInputs(items, family);
    if kept.None? {
      return Failure(RefusedItem);
    }
    var packages := PackageFamilies(kept.value);
    AggregateReports(kept.value, packages);
    r := Success(packages);
  }

  method PackageFamilies(inputs: seq<Input>) returns (packages: seq<Package>)
    ensures IsAggregate(inputs, packages)
  {
    hide TextOrder.Before, PackageOf, Selected;
    packages := [];
    var families := TextOrder.Sorted(set x | x in inputs :: x.family);
    for i := 0 to |families|
      invariant |packages| == i
      invariant forall k :: 0 <= k < i ==> packages[k] == PackageOf(families[k], OfFamily(inputs, families[k]))
      invariant forall k :: 0 <= k < i ==> packages[k].family == families[k]
    {
      var p := PackageFamily(families[i], OfFamily(inputs, families[i]));
      PackageNamed(families[i], OfFamily(inputs, families[i]));
      packages := packages + [p];
    }
    forall i | 0 <= i < |packages|
      ensures OfFamily(inputs, packages[i].family) != []
    {
      assert families[i] in families;
      var x :| x in inputs && x.family == families[i];
      SelectedContents(inputs, families[i], true);
    }
    forall x | x in inputs
      ensures exists i :: 0 <= i < |packages| && packages[i].family == x.family
    {
      assert x.family in families;
      var i :| 0 <= i < |families| && families[i] == x.family;
      assert packages[i].family == x.family;
    }
  }

  lemma PackageNamed(family: string, items: seq<Input>)
    ensures PackageOf(family, items).family == family
  {}

  lemma {:induction false} SelectedContents(items: seq<Input>, family: string, keep: bool)
    ensures forall x :: x in Selected(items, family, keep) <==> x in items && ((x.family == family) == keep)
  {
    if items != [] {
      SelectedContents(items[..|items| - 1], family, keep);
      assert items == items[..|items| - 1] + [items[|items| - 1]];
    }
  }

  // ----- what a package reports -----

  predicate EveryInput(x: Input) {
    true
  }

  predicate ClosedInput(x: Input) {
    x.status.Closed? || x.status.Filled? || x.status.Succeeded?
  }

  predicate FailedInput(x: Input) {
    x.status.Failed? || x.status.Rejected? || x.status.Blocked?
  }

  predicate BlockedInput(x: Input) {
    x.status.Blocked?
  }

  /** Closed with a realized net profit. */
  predicate WonInput(x: Input) {
    ClosedInput(x) && x.realizedNet.Some? && x.realizedNet.value > 0.0
  }

  predicate StaleInput(x: Input) {
    x.staleSignal == Some("stale")
  }

  predicate MissedInput(x: Input) {
    x.fill == Some("missed")
  }

  predicate PartlyInput(x: Input) {
    x.fill == Some("partial")
  }

  function NetAmount(x: Input): real {
    if x.realizedNet.Some? then x.realizedNet.value else 0.0
  }

  function NotionalAmount(x: Input): real {
    x.notional
  }

  function GrossAmount(x: Input): real {
    x.grossPnl
  }

  function FeeAmount(x: Input): real {
    x.fees
  }

  function SlippageAmount(x: Input): real {
    x.slippage
  }

  ghost function PositionsIn(inputs: seq<Input>, family: string, holds: Input -> bool): set<nat> {
    set i: nat | i < |inputs| && inputs[i].family == family && holds(inputs[i])
  }

  /** How many positions hold an input of the family for which the condition holds. */
  ghost function CountIn(inputs: seq<Input>, family: string, holds: Input -> bool): nat {
    |PositionsIn(inputs, family, holds)|
  }

  /** The sum of an amount over the inputs of the family. */
  ghost function SumIn(inputs: seq<Input>, family: string, amount: Input -> real): real {
    if inputs == [] then 0.0
    else
      var last := inputs[|inputs| - 1];
      SumIn(inputs[..|inputs| - 1], family, amount) + if last.family == family then amount(last) else 0.0
  }

  ghost predicate CountsReport(t: Totals, inputs: seq<Input>, family: string) {
    && t.sample == CountIn(inputs, family, EveryInput)
    && t.closed == CountIn(inputs, family, ClosedInput)
    && t.failed == CountIn(inputs, family, FailedInput)
    && t.blocked == CountIn(inputs, family, BlockedInput)
    && t.wins == CountIn(inputs, family, WonInput)
    && t.stale == CountIn(inputs, family, StaleInput)
    && t.missed == CountIn(inputs, family, MissedInput)
    && t.partly == CountIn(inputs, family, PartlyInput)
  }

  ghost predicate SumsReport(t: Totals, inputs: seq<Input>, family: string) {
    && t.net == SumIn(inputs, family, NetAmount)
    && t.notional == SumIn(inputs, family, NotionalAmount)
    && t.gross == SumIn(inputs, family, GrossAmount)
    && t.fees == SumIn(inputs, family, FeeAmount)
    && t.slippage == SumIn(inputs, family, SlippageAmount)
  }

  /** The drawdown covers every drawdown and loss of the family and is zero or one of them. */
  ghost predicate WorstReport(worst: real, inputs: seq<Input>, family: string) {
    && (forall x :: x in inputs && x.family == family && x.maxDrawdown.Some? ==> x.maxDrawdown.value <= worst)
    && (forall x :: x in inputs && x.family == family && x.realizedNet.Some? ==> -x.realizedNet.value <= worst)
    && (worst == 0.0
        || exists x :: x in inputs && x.family == family
                       && (x.maxDrawdown == Some(worst) || x.realizedNet == Some(-worst)))
  }

  /** The cost modes and reasons of the family, each once. */
  ghost predicate ListsReport(p: Package, inputs: seq<Input>) {
    && (forall m :: m in p.costModes <==>
          m != "" && exists x :: x in inputs && x.family == p.family && x.costMode == Some(m))
    && (forall r :: r in p.reasons <==> exists x :: x in inputs && x.family == p.family && r in x.reasons)
    && (forall i, j :: 0 <= i < j < |p.costModes| ==> p.costModes[i] != p.costModes[j])
    && (forall i, j :: 0 <= i < j < |p.reasons| ==> p.reasons[i] != p.reasons[j])
  }

  /** Everything a package says about its family, from the inputs of all families: counts of positions,
      sums, the hit rate as wins among closed, the worst drawdown, modes and reasons. */
  ghost predicate Reports(p: Package, inputs: seq<Input>) {
    && CountsReport(p.totals, inputs, p.family)
    && SumsReport(p.totals, inputs, p.family)
    && p.hitRate * CountIn(inputs, p.family, ClosedInput) as real == CountIn(inputs, p.family, WonInput) as real
    && (CountIn(inputs, p.family, ClosedInput) == 0 ==> p.hitRate == 0.0)
    && WorstReport(p.maxDrawdown, inputs, p.family)
    && ListsReport(p, inputs)
  }

  lemma CountGrows(front: seq<Input>, x: Input, family: string, holds: Input -> bool)
    ensures CountIn(front + [x], family, holds)
         == CountIn(front, family, holds) + if x.family == family && holds(x) then 1 else 0
  {
    hide PositionsIn;
    PositionsGrow(front, x, family, holds);
    NoPositionYet(front, family, holds);
  }

  lemma NoPositionYet(inputs: seq<Input>, family: string, holds: Input -> bool)
    ensures |inputs| !in PositionsIn(inputs, family, holds)
  {}

  lemma PositionsGrow(front: seq<Input>, x: Input, family: string, holds: Input -> bool)
    ensures PositionsIn(front + [x], family, holds)
         == PositionsIn(front, family, holds) + if x.family == family && holds(x) then {|front|} else {}
  {
    var all := front + [x];
    assert forall i: nat :: i < |front| ==> all[i] == front[i];
    assert all[|front|] == x;
  }

  lemma CountNothing(family: string, holds: Input -> bool)
    ensures CountIn([], family, holds) == 0
  {
    assert PositionsIn([], family, holds) == {};
  }

  lemma CountsGrow(t: Totals, front: seq<Input>, x: Input, family: string)
    requires CountsReport(t, front, family)
    ensures CountsReport(if x.family == family then Plus(t, One(x)) else t, front + [x], family)
  {
    hide CountIn;
    CountGrows(front, x, family, EveryInput);
    CountGrows(front, x, family, ClosedInput);
    CountGrows(front, x, family, FailedInput);
    CountGrows(front, x, family, BlockedInput);
    CountGrows(front, x, family, WonInput);
    CountGrows(front, x, family, StaleInput);
    CountGrows(front, x, family, MissedInput);
    CountGrows(front, x, family, PartlyInput);
  }

  lemma NothingReports(family: string)
    ensures TotalsOf(OfFamily([], family)) == NOTHING
    ensures CountsReport(NOTHING, [], family) && SumsReport(NOTHING, [], family)
  {
    hide CountIn;
    CountNothing(family, EveryInput);
    CountNothing(family, ClosedInput);
    CountNothing(family, FailedInput);
    CountNothing(family, BlockedInput);
    CountNothing(family, WonInput);
    CountNothing(family, StaleInput);
    CountNothing(family, MissedInput);
    CountNothing(family, PartlyInput);
  }

  lemma SumGrows(front: seq<Input>, x: Input, family: string, amount: Input -> real)
    ensures SumIn(front + [x], family, amount)
         == SumIn(front, family, amount) + if x.family == family then amount(x) else 0.0
  {
    assert (front + [x])[..|front|] == front;
  }

  lemma SumsGrow(t: Totals, front: seq<Input>, x: Input, family: string)
    requires SumsReport(t, front, family)
    ensures SumsReport(if x.family == family then Plus(t, One(x)) else t, front + [x], family)
  {
    hide SumIn;
    SumGrows(front, x, family, NetAmount);
    SumGrows(front, x, family, NotionalAmount);
    SumGrows(front, x, family, GrossAmount);
    SumGrows(front, x, family, FeeAmount);
    SumGrows(front, x, family, SlippageAmount);
  }

  lemma {:induction false} TotalsReport(inputs: seq<Input>, family: string)
    ensures CountsReport(TotalsOf(OfFamily(inputs, family)), inputs, family)
    ensures SumsReport(TotalsOf(OfFamily(inputs, family)), inputs, family)
  {
    hide CountsReport, SumsReport, Plus, One, TotalsOf, Selected;
    if inputs == [] {
      NothingReports(family);
    } else {
      var front, last := inputs[..|inputs| - 1], inputs[|inputs| - 1];
      var t := TotalsOf(OfFamily(front, family));
      TotalsReport(front, family);
      SelectedLast(inputs, family, true);
      TotalsGrow(OfFamily(front, family), last);
      CountsGrow(t, front, last, family);
      SumsGrow(t, front, last, family);
      assert inputs == front + [last];
    }
  }

  lemma {:induction false} ModesHold(items: seq<Input>, m: string)
    ensures m in ModesOf(items) <==> m != "" && exists x :: x in items && x.costMode == Some(m)
  {
    if items != [] {
      var front, last := items[..|items| - 1], items[|items| - 1];
      ModesHold(front, m);
      assert forall x :: x in items <==> x in front || x == last by {
        assert items == front + [last];
      }
    }
  }

  lemma {:induction false} ReasonsHold(items: seq<Input>, r: string)
    ensures r in ReasonsOf(items) <==> exists x :: x in items && r in x.reasons
  {
    if items != [] {
      var front, last := items[..|items| - 1], items[|items| - 1];
      ReasonsHold(front, r);
      assert forall x :: x in items <==> x in front || x == last by {
        assert items == front + [last];
      }
    }
  }

  lemma PackageLists(family: string, inputs: seq<Input>)
    ensures ListsReport(PackageOf(family, OfFamily(inputs, family)), inputs)
  {
    hide Dedupe, ModesOf, ReasonsOf, Selected, TotalsOf, WorstOf;
    var items := OfFamily(inputs, family);
    SelectedContents(inputs, family, true);
    DedupeContents(ModesOf(items));
    DedupeContents(ReasonsOf(items));
    forall m {
      ModesHold(items, m);
    }
    forall r {
      ReasonsHold(items, r);
    }
  }

  lemma PackageWorst(family: string, inputs: seq<Input>)
    ensures WorstReport(PackageOf(family, OfFamily(inputs, family)).maxDrawdown, inputs, family)
  {
    hide Dedupe, Selected, TotalsOf, WorstOf;
    SelectedContents(inputs, family, true);
    DrawdownIsWorst(OfFamily(inputs, family));
  }

  /** The package of a family reports on all inputs. */
  lemma PackageReports(family: string, inputs: seq<Input>)
    ensures Reports(PackageOf(family, OfFamily(inputs, family)), inputs)
  {
    hide SumsReport, ListsReport, WorstReport, CountIn, TotalsOf, Selected, WorstOf, Dedupe, HitRate;
    var items := OfFamily(inputs, family);
    TotalsReport(inputs, family);
    PackageCounts(items);
    HitsBack(TotalsOf(items).wins, TotalsOf(items).closed);
    PackageWorst(family, inputs);
    PackageLists(family, inputs);
  }

  lemma AggregateReports(inputs: seq<Input>, packages: seq<Package>)
    requires IsAggregate(inputs, packages)
    ensures forall p :: p in packages ==> Reports(p, inputs)
  {
    hide Reports, PackageOf, Selected, TextOrder.Before;
    forall p | p in packages
      ensures Reports(p, inputs)
    {
      PackageReports(p.family, inputs);
    }
  }

  lemma {:induction false} SelectedAll(items: seq<Input>, family: string)
    requires forall x :: x in items ==> x.family == family
    ensures OfFamily(items, family) == items
  {
    if items == [] {
      assert Selected([], family, true) == [];
    } else {
      hide Selected;
      var front, last := items[..|items| - 1], items[|items| - 1];
      assert last in items && items == front + [last];
      SelectedAll(front, family);
      SelectedLast(items, family, true);
    }
  }

  // ----- conservation -----

  ghost function SumOf(packages: seq<Package>): Totals {
    if packages == [] then NOTHING else Plus(SumOf(packages[..|packages| - 1]), packages[|packages| - 1].totals)
  }

  lemma SelectedLast(items: seq<Input>, family: string, keep: bool)
    requires items != []
    ensures var front, last := Selected(items[..|items| - 1], family, keep), items[|items| - 1];
            Selected(items, family, keep) == if (last.family == family) == keep then front + [last] else front
  {
    var front := Selected(items[..|items| - 1], family, keep);
    assert front + [] == front;
  }

  lemma {:induction false} TotalsSplit(items: seq<Input>, family: string)
    ensures TotalsOf(items) == Plus(TotalsOf(Others(items, family)), TotalsOf(OfFamily(items, family)))
  {
    hide One, Plus;
    if items == [] {
      assert Plus(NOTHING, NOTHING) == NOTHING by { NothingAdds(); }
    } else {
      var front, last := items[..|items| - 1], items[|items| - 1];
      SelectedLast(items, family, true);
      SelectedLast(items, family, false);
      assert TotalsOf(items) == Plus(TotalsOf(front), One(last));
      hide Selected, TotalsOf;
      TotalsSplit(front, family);
      TotalsGrow(Selected(front, family, last.family == family), last);
      SumsShuffle(TotalsOf(Others(front, family)), TotalsOf(OfFamily(front, family)), One(last));
    }
  }

  lemma NothingAdds()
    ensures Plus(NOTHING, NOTHING) == NOTHING
  {}

  lemma SumsShuffle(a: Totals, b: Totals, c: Totals)
    ensures Plus(Plus(a, b), c) == Plus(a, Plus(b, c)) == Plus(Plus(a, c), b)
  {}

  lemma TotalsGrow(items: seq<Input>, x: Input)
    ensures TotalsOf(items + [x]) == Plus(TotalsOf(items), One(x))
  {
    hide One, Plus;
    assert (items + [x])[..|items|] == items;
  }

  lemma {:induction false} FamilyAmongOthers(items: seq<Input>, f: string, g: string)
    requires f != g
    ensures OfFamily(Others(items, f), g) == OfFamily(items, g)
  {
    if items != [] {
      var front, last := items[..|items| - 1], items[|items| - 1];
      FamilyAmongOthers(front, f, g);
      var rest := Others(front, f);
      assert (rest + [last])[..|rest|] == rest;
      assert rest + [] == rest;
    }
  }

  /** Nothing is lost or counted twice: the packages' figures sum to those of the inputs kept. */
  lemma {:induction false} AggregationConserves(inputs: seq<Input>, packages: seq<Package>)
    requires IsAggregate(inputs, packages)
    ensures SumOf(packages) == TotalsOf(inputs)
    decreases |packages|
  {
    hide TextOrder.Before, One, Plus, Selected, TotalsOf;
    if packages == [] {
      SomeInput(inputs);
      NothingTotals();
    } else {
      var front, p := packages[..|packages| - 1], packages[|packages| - 1];
      TotalsSplit(inputs, p.family);
      RestAggregates(inputs, packages);
      AggregationConserves(Others(inputs, p.family), front);
      PackageTotals(p.family, OfFamily(inputs, p.family));
    }
  }

  lemma SomeInput(inputs: seq<Input>)
    ensures inputs != [] ==> exists x :: x in inputs
  {
    if inputs != [] {
      assert inputs[0] in inputs;
    }
  }

  lemma NothingTotals()
    ensures TotalsOf([]) == NOTHING
  {}

  lemma PackageTotals(family: string, items: seq<Input>)
    ensures PackageOf(family, items).totals == TotalsOf(items)
  {}

  lemma RestAggregates(inputs: seq<Input>, packages: seq<Package>)
    requires IsAggregate(inputs, packages) && packages != []
    ensures IsAggregate(Others(inputs, packages[|packages| - 1].family), packages[..|packages| - 1])
  {
    hide PackageOf, Selected, TextOrder.Before;
    var front, f := packages[..|packages| - 1], packages[|packages| - 1].family;
    var rest := Others(inputs, f);
    forall i | 0 <= i < |front|
      ensures front[i].family != f && OfFamily(rest, front[i].family) == OfFamily(inputs, front[i].family)
    {
      TextOrder.Irreflexive(f);
      FamilyAmongOthers(inputs, f, front[i].family);
    }
    SelectedContents(inputs, f, false);
    RestCovered(inputs, packages);
  }

  lemma RestCovered(inputs: seq<Input>, packages: seq<Package>)
    requires IsAggregate(inputs, packages) && packages != []
    ensures var front, f := packages[..|packages| - 1], packages[|packages| - 1].family;
            forall x :: x in Others(inputs, f) ==> exists i :: 0 <= i < |front| && front[i].family == x.family
  {
    hide PackageOf, Selected, TextOrder.Before;
    var front, f := packages[..|packages| - 1], packages[|packages| - 1].family;
    SelectedContents(inputs, f, false);
    forall x | x in Others(inputs, f)
      ensures exists i :: 0 <= i < |front| && front[i].family == x.family
    {
      var i :| 0 <= i < |packages| && packages[i].family == x.family;
      assert front[i].family == x.family;
    }
  }

  /** In every package closed and failed outcomes make up the sample, blocked ones are among the
      failed, wins among the closed, and the hit rate is a proportion. */
  lemma {:induction false} PackageCounts(items: seq<Input>)
    ensures var t := TotalsOf(items);
            && t.closed + t.failed == t.sample == |items|
            && 0 <= t.blocked <= t.failed && 0 <= t.wins <= t.closed
            && 0 <= t.stale <= t.sample && 0 <= t.missed && 0 <= t.partly && t.missed + t.partly <= t.sample
            && 0.0 <= HitRate(t.wins, t.closed) <= 1.0
  {
    if items != [] {
      PackageCounts(items[..|items| - 1]);
    }
    var t := TotalsOf(items);
    if t.closed > 0 {
      UnitMean(t.wins, t.closed);
    }
  }

  /** One item can only raise the worst drawdown, to what it reports or lost. */
  lemma DrawdownStep(worst: real, x: Input)
    requires worst >= 0.0
    ensures var after := WithDrawdown(worst, x);
            && after >= worst
            && (x.maxDrawdown.Some? ==> x.maxDrawdown.value <= after)
            && (x.realizedNet.Some? ==> -x.realizedNet.value <= after)
            && (after == worst || x.maxDrawdown == Some(after) || x.realizedNet == Some(-after))
  {}

  /** The drawdown of a package covers every reported drawdown and every realized loss, and is zero or one of them. */
  lemma {:induction false} DrawdownIsWorst(items: seq<Input>)
    ensures forall x :: x in items && x.maxDrawdown.Some? ==> x.maxDrawdown.value <= WorstOf(items)
    ensures forall x :: x in items && x.realizedNet.Some? ==> -x.realizedNet.value <= WorstOf(items)
    ensures WorstOf(items) == 0.0
         || exists x :: x in items && (x.maxDrawdown == Some(WorstOf(items)) || x.realizedNet == Some(-WorstOf(items)))
  {
    hide WithDrawdown;
    if items != [] {
      var front, last := items[..|items| - 1], items[|items| - 1];
      DrawdownIsWorst(front);
      DrawdownStep(WorstOf(front), last);
      assert forall x :: x in items <==> x in front || x == last by {
        assert items == front + [last];
      }
      if WorstOf(items) == WorstOf(front) && WorstOf(front) != 0.0 {
        var x :| x in front && (x.maxDrawdown == Some(WorstOf(front)) || x.realizedNet == Some(-WorstOf(front)));
        assert x in items;
      }
    }
  }

  // ----- merging -----

  /** Hit rates weighed by the closed trades they are about. */
  function Weighed(x: real, n: int, y: real, m: int): real {
    if n + m <= 0 then 0.0 else (x * n as real + y * m as real) / (n + m) as real
  }

  /** Two packages of one family put together. */
  function Merged(p: Package, q: Package): Package {
    var t := Plus(p.totals, q.totals);
    Package(p.family, t,
            Weighed(p.hitRate, p.totals.closed, q.hitRate, q.totals.closed),
            Larger(p.maxDrawdown, q.maxDrawdown),
            Dedupe(p.costModes + q.costModes),
            Dedupe(p.reasons + q.reasons))
  }

  lemma {:induction false} TotalsConcat(a: seq<Input>, b: seq<Input>)
    ensures TotalsOf(a + b) == Plus(TotalsOf(a), TotalsOf(b))
  {
    hide One;
    if b == [] {
      assert a + b == a;
    } else {
      assert (a + b)[..|a + b| - 1] == a + b[..|b| - 1];
      TotalsConcat(a, b[..|b| - 1]);
    }
  }

  lemma {:induction false} WorstConcat(a: seq<Input>, b: seq<Input>)
    ensures WorstOf(a + b) == Larger(WorstOf(a), WorstOf(b))
  {
    if b == [] {
      assert a + b == a;
    } else {
      assert (a + b)[..|a + b| - 1] == a + b[..|b| - 1];
      WorstConcat(a, b[..|b| - 1]);
    }
  }

  lemma {:induction false} ModesConcat(a: seq<Input>, b: seq<Input>)
    ensures ModesOf(a + b) == ModesOf(a) + ModesOf(b)
  {
    hide ModeOf;
    if b == [] {
      assert a + b == a;
    } else {
      assert (a + b)[..|a + b| - 1] == a + b[..|b| - 1];
      ModesConcat(a, b[..|b| - 1]);
    }
  }

  lemma {:induction false} ReasonsConcat(a: seq<Input>, b: seq<Input>)
    ensures ReasonsOf(a + b) == ReasonsOf(a) + ReasonsOf(b)
  {
    if b == [] {
      assert a + b == a;
    } else {
      assert (a + b)[..|a + b| - 1] == a + b[..|b| - 1];
      ReasonsConcat(a, b[..|b| - 1]);
    }
  }

  lemma {:induction false} SelectedConcat(a: seq<Input>, b: seq<Input>, family: string, keep: bool)
    ensures Selected(a + b, family, keep) == Selected(a, family, keep) + Selected(b, family, keep)
  {
    if b == [] {
      assert a + b == a;
    } else {
      assert (a + b)[..|a + b| - 1] == a + b[..|b| - 1];
      SelectedConcat(a, b[..|b| - 1], family, keep);
    }
  }

  lemma HitsBack(wins: int, closed: int)
    requires 0 <= wins <= closed
    ensures HitRate(wins, closed) * closed as real == wins as real
    ensures closed == 0 ==> HitRate(wins, closed) == 0.0
  {
    if closed > 0 {
      MeanTimes(wins as real, closed);
    }
  }

  lemma HitRatesMerge(w: int, n: int, v: int, m: int)
    requires 0 <= w <= n && 0 <= v <= m
    ensures HitRate(w + v, n + m) == Weighed(HitRate(w, n), n, HitRate(v, m), m)
  {
    HitsBack(w, n);
    HitsBack(v, m);
  }

  lemma PackagesMerge(family: string, a: seq<Input>, b: seq<Input>)
    ensures PackageOf(family, a + b) == Merged(PackageOf(family, a), PackageOf(family, b))
  {
    hide TotalsOf, WorstOf, ModesOf, ReasonsOf, Dedupe, HitRate, Weighed;
    PackageCounts(a);
    PackageCounts(b);
    HitRatesMerge(TotalsOf(a).wins, TotalsOf(a).closed, TotalsOf(b).wins, TotalsOf(b).closed);
    TotalsConcat(a, b);
    WorstConcat(a, b);
    ModesConcat(a, b);
    ReasonsConcat(a, b);
    DedupeMerge(ModesOf(a), ModesOf(b));
    DedupeMerge(ReasonsOf(a), ReasonsOf(b));
  }

  function Joined(a: Option<seq<Input>>, b: Option<seq<Input>>): Option<seq<Input>> {
    if a.Some? && b.Some? then Some(a.value + b.value) else None
  }

  lemma {:induction false} CoercedConcat(x: seq<Item>, y: seq<Item>, family: Option<string>)
    ensures CoercedAll(x + y, family) == Joined(CoercedAll(x, family), CoercedAll(y, family))
  {
    hide Coerced;
    if |y| == 0 {
      assert x + y == x;
      assert CoercedAll(x, family).Some? ==> CoercedAll(x, family).value + [] == CoercedAll(x, family).value;
    } else {
      var front, last := y[..|y| - 1], Coerced(y[|y| - 1], family);
      assert (x + y)[..|x + y| - 1] == x + front;
      CoercedConcat(x, front, family);
      var a, b := CoercedAll(x, family), CoercedAll(front, family);
      if a.Some? && b.Some? && last.Some? {
        assert a.value + b.value + [last.value] == a.value + (b.value + [last.value]);
      }
    }
  }

  /** The inputs kept of two batches are those kept of each; a refused item in either refuses both. */
  lemma KeptConcat(x: seq<Item>, y: seq<Item>, family: Option<string>)
    ensures KeptInputs(x + y, family) == Joined(KeptInputs(x, family), KeptInputs(y, family))
  {
    hide CoercedAll, Selected;
    CoercedConcat(x, y, family);
    var a, b := CoercedAll(x, family), CoercedAll(y, family);
    if a.Some? && b.Some? && family.Some? {
      SelectedConcat(a.value, b.value, family.value, true);
    }
  }

  /** Aggregating two batches of items at once gives, family by family, the two separate packages put
      together: figures add, drawdowns take the larger, lists join and drop repeats, hit rates weigh by
      closed trades. */
  lemma AggregationMerges(x: seq<Item>, y: seq<Item>, family: Option<string>, packages: seq<Package>, k: nat)
    requires KeptInputs(x + y, family).Some? && k < |packages|
    requires IsAggregate(KeptInputs(x + y, family).value, packages)
    ensures KeptInputs(x, family).Some? && KeptInputs(y, family).Some?
    ensures var f := packages[k].family;
            packages[k] == Merged(PackageOf(f, OfFamily(KeptInputs(x, family).value, f)),
                                  PackageOf(f, OfFamily(KeptInputs(y, family).value, f)))
  {
    hide PackageOf, Selected, TextOrder.Before, Merged, KeptInputs;
    KeptConcat(x, y, family);
    var f, a, b := packages[k].family, KeptInputs(x, family).value, KeptInputs(y, family).value;
    SelectedConcat(a, b, f, true);
    PackagesMerge(f, OfFamily(a, f), OfFamily(b, f));
  }

  // ----- the evidence of a paper account -----

  /** The results of the accepted orders of a run. */
  ghost function Results(a: PaperAccounts.Account, orders: seq<PaperAccounts.Order>): seq<Item>
    requires PaperAccounts.WellFormed(a) && forall o :: o in orders ==> PaperAccounts.ValidOrder(o)
  {
    if orders == [] then []
    else
      var front, last := orders[..|orders| - 1], orders[|orders| - 1];
      var r := PaperAccounts.Execute(PaperAccounts.Run(a, front), last);
      Results(a, front) +
      if r.Success? then [Trade(ResultOf(last, r.value))] else []
  }

  function ResultOf(o: PaperAccounts.Order, x: PaperAccounts.Executed): PaperAccounts.TradeResult {
    PaperAccounts.TradeResult(PaperAccounts.FillOf(o), x.account.cash, x.account.inventory, x.outcome)
  }

  /** The family that trades are filed under. */
  function TradeFamily(family: Option<string>): string {
    if family.None? || family.value == "" then "paper_execution" else family.value
  }

  /** What one item adds: an input as it stands, if it is of the family asked for; a trade as one closed
      outcome under the family asked for, or `paper_execution`; a mapping as what it reads as. A trade is
      dropped when the empty family is asked for. */
  lemma KeptOne(x: Item, family: Option<string>)
    ensures var kept := KeptInputs([x], family);
            match x
            case Ready(input) => kept == Some(if family.None? || family.value == input.family then [input] else [])
            case Trade(result) =>
              if family == Some("") then kept == Some([])
              else
                kept == Some([Input(TradeFamily(family), Closed, Some(result.outcome.realizedNet), None,
                                    0.0, 0.0, 0.0, 0.0, None, None, None, [])])
            case Free(read) =>
              match read(family)
              case None => kept == None
              case Some(input) => kept == Some(if family.None? || family.value == input.family then [input] else [])
  {
    var items := [x];
    assert |items[..0]| == 0;
    assert CoercedAll(items[..0], family) == Some([]);
    var input := Coerced(x, family);
    if input.Some? {
      assert [] + [input.value] == [input.value];
      assert CoercedAll(items, family) == Some([input.value]);
      if family.Some? {
        SelectedOne(input.value, family.value);
      }
    }
  }

  lemma SelectedOne(x: Input, family: string)
    ensures OfFamily([x], family) == if x.family == family then [x] else []
  {
    assert [x][..0] == [] && Selected([], family, true) == [];
    SelectedLast([x], family, true);
  }

  /** Trades only, kept under one family. */
  ghost predicate TradesKept(kept: Option<seq<Input>>, count: nat, net: real, family: string) {
    && kept.Some? && |kept.value| == count
    && (forall x :: x in kept.value ==> x.family == family && ClosedInput(x))
    && TotalsOf(kept.value).net == net
  }

  lemma OneMoreTrade(
      items: seq<Item>, result: PaperAccounts.TradeResult, family: Option<string>, count: nat, net: real)
    requires family != Some("") && TradesKept(KeptInputs(items, family), count, net, TradeFamily(family))
    ensures TradesKept(KeptInputs(items + [Trade(result)], family), count + 1, net + result.outcome.realizedNet,
                       TradeFamily(family))
  {
    hide TotalsOf, KeptInputs;
    KeptConcat(items, [Trade(result)], family);
    KeptOne(Trade(result), family);
    var front, last := KeptInputs(items, family).value, KeptInputs([Trade(result)], family).value;
    assert front + last == front + [last[0]];
    TotalsGrow(front, last[0]);
  }

  /** How many orders of a run were accepted. */
  ghost function Accepted(a: PaperAccounts.Account, orders: seq<PaperAccounts.Order>): nat
    requires PaperAccounts.WellFormed(a) && forall o :: o in orders ==> PaperAccounts.ValidOrder(o)
  {
    if orders == [] then 0
    else
      var front, last := orders[..|orders| - 1], orders[|orders| - 1];
      Accepted(a, front) + if PaperAccounts.Execute(PaperAccounts.Run(a, front), last).Success? then 1 else 0
  }

  /** The evidence taken from an account's trades: one closed input for every accepted order, all under
      one family, with the profit the account has realized. */
  lemma {:induction false} EvidenceOfAccount(
      cash: real, orders: seq<PaperAccounts.Order>, family: Option<string>)
    requires cash >= 0.0 && forall o :: o in orders ==> PaperAccounts.ValidOrder(o)
    requires family != Some("")
    ensures var a := PaperAccounts.Opened(cash);
            TradesKept(KeptInputs(Results(a, orders), family), Accepted(a, orders),
                       PaperAccounts.Run(a, orders).realizedNet, TradeFamily(family))
  {
    hide PaperAccounts.Execute, TradesKept, KeptInputs, ResultOf, PaperAccounts.ValidOrder;
    if orders == [] {
      NoTrades(family);
    } else {
      var front, last := orders[..|orders| - 1], orders[|orders| - 1];
      assert last in orders && forall o :: o in front ==> o in orders;
      EvidenceOfAccount(cash, front, family);
      var a := PaperAccounts.Opened(cash);
      OrderAddsTrade(PaperAccounts.Run(a, front), last, Results(a, front), family, Accepted(a, front));
    }
  }

  lemma NoTrades(family: Option<string>)
    ensures TradesKept(KeptInputs([], family), 0, 0.0, TradeFamily(family))
  {
    NothingTotals();
  }

  lemma OrderAddsTrade(
      a: PaperAccounts.Account, o: PaperAccounts.Order, before: seq<Item>, family: Option<string>, count: nat)
    requires PaperAccounts.WellFormed(a) && PaperAccounts.ValidOrder(o) && family != Some("")
    requires TradesKept(KeptInputs(before, family), count, a.realizedNet, TradeFamily(family))
    ensures var r := PaperAccounts.Execute(a, o);
            if r.Success? then
              TradesKept(KeptInputs(before + [Trade(ResultOf(o, r.value))], family), count + 1,
                         r.value.account.realizedNet, TradeFamily(family))
            else TradesKept(KeptInputs(before + [], family), count, a.realizedNet, TradeFamily(family))
  {
    hide PaperAccounts.Execute, TradesKept, KeptInputs, ResultOf, PaperAccounts.WellFormed, PaperAccounts.ValidOrder;
    var r := PaperAccounts.Execute(a, o);
    if r.Success? {
      RealizedGrows(a, o);
      ResultNames(o, r.value);
      OneMoreTrade(before, ResultOf(o, r.value), family, count, a.realizedNet);
    } else {
      assert before + [] == before;
    }
  }

  /** So the aggregation of an account's trades is one package, or none when no order was accepted: its
      sample counts the accepted orders and its net profit is the one the account has realized. */
  lemma PackageOfAccount(
      cash: real, orders: seq<PaperAccounts.Order>, family: Option<string>, packages: seq<Package>)
    requires cash >= 0.0 && forall o :: o in orders ==> PaperAccounts.ValidOrder(o)
    requires family != Some("")
    requires KeptInputs(Results(PaperAccounts.Opened(cash), orders), family).Some?
    requires IsAggregate(KeptInputs(Results(PaperAccounts.Opened(cash), orders), family).value, packages)
    ensures var accepted := Accepted(PaperAccounts.Opened(cash), orders);
            if accepted == 0 then packages == []
            else
              && |packages| == 1 && packages[0].family == TradeFamily(family)
              && packages[0].totals.sample == packages[0].totals.closed == accepted
              && packages[0].totals.net == PaperAccounts.Run(PaperAccounts.Opened(cash), orders).realizedNet
  {
    hide PackageOf, Selected, TotalsOf, KeptInputs, TextOrder.Before, ClosedInput;
    EvidenceOfAccount(cash, orders, family);
    var inputs, name := KeptInputs(Results(PaperAccounts.Opened(cash), orders), family).value, TradeFamily(family);
    SelectedAll(inputs, name);
    OneFamily(inputs, name, packages);
    if packages != [] {
      PackageTotals(name, inputs);
      AllClosed(inputs);
    }
  }

  lemma FamiliesDiffer(inputs: seq<Input>, packages: seq<Package>)
    requires IsAggregate(inputs, packages)
    ensures |packages| > 1 ==> packages[0].family != packages[1].family
  {
    hide PackageOf, Selected, TextOrder.Before;
    if |packages| > 1 {
      TextOrder.Irreflexive(packages[0].family);
      assert TextOrder.Before(packages[0].family, packages[1].family);
    }
  }

  lemma OneFamily(inputs: seq<Input>, name: string, packages: seq<Package>)
    requires IsAggregate(inputs, packages) && forall x :: x in inputs ==> x.family == name
    ensures if inputs == [] then packages == [] else |packages| == 1 && packages[0].family == name
  {
    hide PackageOf, Selected, TextOrder.Before;
    forall i | 0 <= i < |packages|
      ensures inputs != [] && packages[i].family == name
    {
      SelectedContents(inputs, packages[i].family, true);
      var kept := OfFamily(inputs, packages[i].family);
      assert kept[0] in kept;
      assert kept[0] in inputs;
    }
    assert packages != [] ==> packages[0].family == name && inputs != [];
    FamiliesDiffer(inputs, packages);
    if inputs != [] {
      assert inputs[0] in inputs;
      assert packages != [];
    }
  }

  lemma {:induction false} AllClosed(inputs: seq<Input>)
    requires forall x :: x in inputs ==> ClosedInput(x)
    ensures TotalsOf(inputs).sample == TotalsOf(inputs).closed == |inputs|
  {
    if inputs != [] {
      assert inputs[|inputs| - 1] in inputs && forall x :: x in inputs[..|inputs| - 1] ==> x in inputs;
      AllClosed(inputs[..|inputs| - 1]);
    }
  }

  lemma ResultNames(o: PaperAccounts.Order, x: PaperAccounts.Executed)
    ensures ResultOf(o, x).outcome == x.outcome
  {}

  lemma RealizedGrows(a: PaperAccounts.Account, o: PaperAccounts.Order)
    requires PaperAccounts.WellFormed(a) && PaperAccounts.ValidOrder(o) && PaperAccounts.Execute(a, o).Success?
    ensures PaperAccounts.Execute(a, o).value.account.realizedNet
         == a.realizedNet + PaperAccounts.Execute(a, o).value.outcome.realizedNet
  {
    hide PaperAccounts.FillPrice, PaperAccounts.GrossValue, PaperAccounts.Fee, PaperAccounts.Portion,
         PaperAccounts.Gain, PaperAccounts.Worth, PaperAccounts.PerUnit;
  }
}
