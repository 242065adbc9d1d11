/** Continuity of time series: bars missing between neighbouring records, and stale series. */
module DataQuality {
  import opened Common
  import TextOrder

  /** Times are microseconds on one clock. */
  datatype SourceRecord = SourceRecord(observedAt: int, source: string, timeframe: string)

  datatype Issue =
    | MissingBars(key: string, source: string, bars: int, observedAt: int)
    | StaleSource(key: string, source: string, observedAt: int)

  const MINUTE_MICROS := 60_000_000

  /** A timeframe like "5m", "4h" or "1d"; reading the number is a parameter. */
  function TimeframeDelta(timeframe: string, parseInt: string -> Option<int>): (delta: Option<int>)
    ensures delta.Some? ==> delta.value >= MINUTE_MICROS
  {
    if |timeframe| < 2 then None
    else
      var unit, amount := timeframe[|timeframe| - 1], parseInt(timeframe[..|timeframe| - 1]);
      if amount.None? || amount.value <= 0 then None
      else if unit == 'm' then Some(amount.value * MINUTE_MICROS)
      else if unit == 'h' then Some(amount.value * (60 * MINUTE_MICROS))
      else if unit == 'd' then Some(amount.value * (1440 * MINUTE_MICROS))
      else None
  }

  /** A timeframe is a positive number and one of three units; an hour is sixty minutes, a day
      twenty-four hours. */
  lemma TimeframeUnits(number: string, unit: char, parseInt: string -> Option<int>)
    requires number != ""
    ensures TimeframeDelta(number + [unit], parseInt).Some? <==>
            parseInt(number).Some? && parseInt(number).value > 0 && (unit == 'm' || unit == 'h' || unit == 'd')
    ensures TimeframeDelta(number + ['m'], parseInt).Some? ==>
              var minutes := TimeframeDelta(number + ['m'], parseInt).value;
              && minutes == parseInt(number).value * 60_000_000
              && TimeframeDelta(number + ['h'], parseInt) == Some(60 * minutes)
              && TimeframeDelta(number + ['d'], parseInt) == Some(24 * (60 * minutes))
  {
    assert forall u :: (number + [u])[..|number|] == number;
  }

  // ----- stable sorting by time -----

  /** After everything observed no later. */
  function InsertByTime(sorted: seq<SourceRecord>, r: SourceRecord): seq<SourceRecord> {
    if sorted == [] || sorted[|sorted| - 1].observedAt <= r.observedAt then sorted + [r]
    else InsertByTime(sorted[..|sorted| - 1], r) + [sorted[|sorted| - 1]]
  }

  function SortByTime(group: seq<SourceRecord>): (sorted: seq<SourceRecord>)
    ensures |sorted| == |group|
  {
    if group == [] then []
    else
      InsertedLength(SortByTime(group[..|group| - 1]), group[|group| - 1]);
      InsertByTime(SortByTime(group[..|group| - 1]), group[|group| - 1])
  }

  lemma {:induction false} InsertedLength(sorted: seq<SourceRecord>, r: SourceRecord)
    ensures |InsertByTime(sorted, r)| == |sorted| + 1
  {
    if sorted != [] && sorted[|sorted| - 1].observedAt > r.observedAt {
      InsertedLength(sorted[..|sorted| - 1], r);
    }
  }

  ghost function Times(group: seq<SourceRecord>): (times: seq<int>)
    ensures |times| == |group|
    ensures forall k :: 0 <= k < |group| ==> times[k] == group[k].observedAt
  {
    seq(|group|, k requires 0 <= k < |group| => group[k].observedAt)
  }

  ghost predicate Ascending(times: seq<int>) {
    forall i, j :: 0 <= i < j < |times| ==> times[i] <= times[j]
  }

  lemma TimesGrow(group: seq<SourceRecord>, r: SourceRecord)
    ensures Times(group + [r]) == Times(group) + [r.observedAt]
  {}

  ghost predicate AtMost(group: seq<SourceRecord>, time: int) {
    forall k :: 0 <= k < |group| ==> group[k].observedAt <= time
  }

  lemma {:induction false} InsertBound(sorted: seq<SourceRecord>, r: SourceRecord, time: int)
    requires AtMost(sorted, time) && r.observedAt <= time
    ensures AtMost(InsertByTime(sorted, r), time)
  {
    if sorted != [] && sorted[|sorted| - 1].observedAt > r.observedAt {
      InsertBound(sorted[..|sorted| - 1], r, time);
    }
  }

  lemma {:induction false} InsertAscends(sorted: seq<SourceRecord>, r: SourceRecord)
    requires Ascending(Times(sorted))
    ensures Ascending(Times(InsertByTime(sorted, r)))
  {
    if sorted != [] && sorted[|sorted| - 1].observedAt > r.observedAt {
      var front, last := sorted[..|sorted| - 1], sorted[|sorted| - 1];
      assert Times(front) == Times(sorted)[..|front|];
      InsertAscends(front, r);
      InsertBound(front, r, last.observedAt);
    }
  }

  /** The records of one time, in order. */
  ghost function RecordsAt(group: seq<SourceRecord>, time: int): seq<SourceRecord> {
    if group == [] then []
    else
      var last := group[|group| - 1];
      RecordsAt(group[..|group| - 1], time) + if last.observedAt == time then [last] else []
  }

  lemma RecordsAtGrow(group: seq<SourceRecord>, r: SourceRecord, time: int)
    ensures RecordsAt(group + [r], time) == RecordsAt(group, time) + if r.observedAt == time then [r] else []
  {
    assert (group + [r])[..|group|] == group;
  }

  lemma {:induction false} InsertStable(sorted: seq<SourceRecord>, r: SourceRecord, time: int)
    ensures RecordsAt(InsertByTime(sorted, r), time)
         == RecordsAt(sorted, time) + if r.observedAt == time then [r] else []
  {
    if sorted == [] || sorted[|sorted| - 1].observedAt <= r.observedAt {
      RecordsAtGrow(sorted, r, time);
    } else {
      var front, last := sorted[..|sorted| - 1], sorted[|sorted| - 1];
      assert InsertByTime(sorted, r) == InsertByTime(front, r) + [last] && sorted == front + [last];
      hide InsertByTime, RecordsAt;
      InsertStable(front, r, time);
      RecordsAtGrow(InsertByTime(front, r), last, time);
      RecordsAtGrow(front, last, time);
    }
  }

  lemma {:induction false} InsertContents(sorted: seq<SourceRecord>, r: SourceRecord)
    ensures multiset(InsertByTime(sorted, r)) == multiset(sorted) + multiset{r}
    ensures multiset(Times(InsertByTime(sorted, r))) == multiset(Times(sorted)) + multiset{r.observedAt}
  {
    if sorted == [] || sorted[|sorted| - 1].observedAt <= r.observedAt {
      TimesGrow(sorted, r);
    } else {
      var front, last := sorted[..|sorted| - 1], sorted[|sorted| - 1];
      InsertContents(front, r);
      TimesGrow(front, last);
      TimesGrow(InsertByTime(front, r), last);
      assert sorted == front + [last];
    }
  }

  /** Sorting gives the same records in ascending order of time, and leaves those of one time in
      the order they came in. */
  lemma {:induction false} SortSorts(group: seq<SourceRecord>)
    ensures Ascending(Times(SortByTime(group)))
    ensures multiset(SortByTime(group)) == multiset(group)
    ensures forall time :: RecordsAt(SortByTime(group), time) == RecordsAt(group, time)
  {
    hide Times, Ascending, InsertByTime;
    if group == [] {
      assert Ascending(Times([])) by { NoTimes(); }
    } else {
      var front, last := group[..|group| - 1], group[|group| - 1];
      SortSorts(front);
      InsertAscends(SortByTime(front), last);
      InsertContents(SortByTime(front), last);
      assert group == front + [last];
      forall time
        ensures RecordsAt(SortByTime(group), time) == RecordsAt(group, time)
      {
        InsertStable(SortByTime(front), last, time);
        RecordsAtGrow(front, last, time);
      }
    }
  }

  lemma NoTimes()
    ensures Times([]) == [] && Ascending(Times([]))
  {}

  lemma {:induction false} SortTimes(group: seq<SourceRecord>)
    ensures Ascending(Times(SortByTime(group)))
    ensures multiset(Times(SortByTime(group))) == multiset(Times(group))
  {
    hide InsertByTime, Ascending, RecordsAt, Times;
    SortSorts(group);
    if group != [] {
      var front, last := group[..|group| - 1], group[|group| - 1];
      assert SortByTime(group) == InsertByTime(SortByTime(front), last);
      hide SortByTime;
      SortTimes(front);
      InsertContents(SortByTime(front), last);
      TimesGrow(front, last);
      assert group == front + [last];
    }
  }

  // ----- gaps -----

  function Quotient(span: int, interval: int): int
    requires interval > 0
  {
    span / interval
  }

  ghost predicate Whole(span: int, interval: int)
    requires interval > 0
  {
    span % interval == 0
  }

  function MissingBetween(previous: int, current: int, interval: int): int
    requires interval > 0
  {
    Quotient(current - previous, interval) - 1
  }

  function GapIssues(key: string, ordered: seq<SourceRecord>, interval: int): seq<Issue>
    requires interval > 0
  {
    if |ordered| < 2 then []
    else
      var previous, current := ordered[|ordered| - 2], ordered[|ordered| - 1];
      var bars := MissingBetween(previous.observedAt, current.observedAt, interval);
      GapIssues(key, ordered[..|ordered| - 1], interval)
      + if bars > 0 then [MissingBars(key, current.source, bars, current.observedAt)] else []
  }

  function StaleIssues(key: string, ordered: seq<SourceRecord>, interval: int, generatedAt: int): seq<Issue>
    requires ordered != []
  {
    var latest := ordered[|ordered| - 1];
    if generatedAt - latest.observedAt > interval * 2 then [StaleSource(key, latest.source, latest.observedAt)] else []
  }

  function GroupIssues(
      key: string, group: seq<SourceRecord>, generatedAt: int, parseInt: string -> Option<int>): seq<Issue>
    requires group != []
  {
    var ordered := SortByTime(group);
    var interval := TimeframeDelta(ordered[0].timeframe, parseInt);
    if interval.None? then []
    else GapIssues(key, ordered, interval.value) + StaleIssues(key, ordered, interval.value, generatedAt)
  }

  type Groups = map<string, seq<SourceRecord>>

  /** The issues of the groups in the order of the keys given. */
  function AllIssues(
      keys: seq<string>, groups: Groups, generatedAt: int, parseInt: string -> Option<int>): seq<Issue>
    requires forall key :: key in keys ==> key in groups && groups[key] != []
  {
    if keys == [] then []
    else
      var key := keys[|keys| - 1];
      AllIssues(keys[..|keys| - 1], groups, generatedAt, parseInt)
      + GroupIssues(key, groups[key], generatedAt, parseInt)
  }

  /** The keys of the groups, ascending; there is only one such list. */
  ghost predicate KeysInOrder(keys: seq<string>, groups: Groups) {
    TextOrder.Ascending(TextOrder.Before, keys) && forall key :: key in keys <==> key in groups
  }

  lemma KeyOrderUnique(a: seq<string>, b: seq<string>, groups: Groups)
    requires KeysInOrder(a, groups) && KeysInOrder(b, groups)
    ensures a == b
  {
    TextOrder.SortedUnique(a, b);
  }

  method FindGaps(key: string, ordered: seq<SourceRecord>, interval: int) returns (issues: seq<Issue>)
    requires interval > 0 && ordered != []
    ensures issues == GapIssues(key, ordered, interval)
  {
    hide MissingBetween;
    issues := [];
    for k := 1 to |ordered|
      invariant issues == GapIssues(key, ordered[..k], interval)
    {
      assert ordered[..k + 1][..k] == ordered[..k];
      var bars := MissingBetween(ordered[k - 1].observedAt, ordered[k].observedAt, interval);
      if bars > 0 {
        issues := issues + [MissingBars(key, ordered[k].source, bars, ordered[k].observedAt)];
      }
    }
    assert ordered[..|ordered|] == ordered;
  }

  method SeriesContinuityIssues(groups: Groups, generatedAt: int, parseInt: string -> Option<int>)
    returns (issues: seq<Issue>)
    requires forall key :: key in groups ==> groups[key] != []
    ensures exists keys :: KeysInOrder(keys, groups) && issues == AllIssues(keys, groups, generatedAt, parseInt)
    ensures forall key :: key in groups ==> Answers(UnderKey(issues, key), key, groups[key], generatedAt, parseInt)
    ensures forall x :: x in issues ==> x.key in groups
    ensures InKeyOrder(issues)
  {
    hide GroupIssues, Answers, InKeyOrder, UnderKey;
    issues := [];
    var keys := TextOrder.Sorted(groups.Keys);
    assert KeysInOrder(keys, groups);
    for i := 0 to |keys|
      invariant issues == AllIssues(keys[..i], groups, generatedAt, parseInt)
    {
      assert keys[..i + 1][..i] == keys[..i];
      var found := OneGroup(keys[i], groups[keys[i]], generatedAt, parseInt);
      issues := issues + found;
    }
    assert keys[..|keys|] == keys;
    AllAnswered(keys, groups, generatedAt, parseInt);
  }

  /** Gaps first, then staleness; a group without a known timeframe is passed over. */
  method OneGroup(key: string, group: seq<SourceRecord>, generatedAt: int, parseInt: string -> Option<int>)
    returns (issues: seq<Issue>)
    requires group != []
    ensures issues == GroupIssues(key, group, generatedAt, parseInt)
  {
    hide GapIssues, SortByTime, TimeframeDelta;
    var ordered := SortByTime(group);
    var interval := TimeframeDelta(ordered[0].timeframe, parseInt);
    if interval.None? {
      return [];
    }
    issues := FindGaps(key, ordered, interval.value);
    var latest := ordered[|ordered| - 1];
    if generatedAt - latest.observedAt > interval.value * 2 {
      issues := issues + [StaleSource(key, latest.source, latest.observedAt)];
    }
  }

  // ----- how many bars are reported missing -----

  ghost function ReportedBars(issues: seq<Issue>): int {
    if issues == [] then 0
    else
      var last := issues[|issues| - 1];
      ReportedBars(issues[..|issues| - 1]) + if last.MissingBars? then last.bars else 0
  }

  ghost function GapTotal(times: seq<int>, interval: int): int
    requires interval > 0
  {
    if |times| < 2 then 0
    else
      var bars := MissingBetween(times[|times| - 2], times[|times| - 1], interval);
      GapTotal(times[..|times| - 1], interval) + if bars > 0 then bars else 0
  }

  lemma ReportedGrows(issues: seq<Issue>, x: Issue)
    ensures ReportedBars(issues + [x]) == ReportedBars(issues) + if x.MissingBars? then x.bars else 0
  {
    assert (issues + [x])[..|issues|] == issues;
  }

  lemma {:induction false} ReportIsGapTotal(key: string, ordered: seq<SourceRecord>, interval: int)
    requires interval > 0
    ensures ReportedBars(GapIssues(key, ordered, interval)) == GapTotal(Times(ordered), interval)
  {
    hide MissingBetween, ReportedBars;
    if |ordered| < 2 {
      assert ReportedBars([]) == 0 by { NothingReported(); }
    } else {
      var front, last := ordered[..|ordered| - 1], ordered[|ordered| - 1];
      ReportIsGapTotal(key, front, interval);
      assert Times(front) == Times(ordered)[..|front|];
      var bars := MissingBetween(ordered[|ordered| - 2].observedAt, last.observedAt, interval);
      ReportedGrows(GapIssues(key, front, interval), MissingBars(key, last.source, bars, last.observedAt));
      assert GapIssues(key, front, interval) + [] == GapIssues(key, front, interval);
    }
  }

  lemma NothingReported()
    ensures ReportedBars([]) == 0
  {}

  /** What is reported about staleness adds no missing bars. */
  lemma GroupReport(key: string, group: seq<SourceRecord>, generatedAt: int, parseInt: string -> Option<int>)
    requires group != []
    ensures var interval := TimeframeDelta(SortByTime(group)[0].timeframe, parseInt);
            interval.Some? ==>
              ReportedBars(GroupIssues(key, group, generatedAt, parseInt))
              == GapTotal(Times(SortByTime(group)), interval.value)
  {
    var ordered := SortByTime(group);
    var interval := TimeframeDelta(ordered[0].timeframe, parseInt);
    if interval.Some? {
      ReportIsGapTotal(key, ordered, interval.value);
      var gaps := GapIssues(key, ordered, interval.value);
      var stale := StaleIssues(key, ordered, interval.value, generatedAt);
      if stale == [] {
        assert gaps + stale == gaps;
      } else {
        assert (gaps + stale)[..|gaps|] == gaps;
      }
    }
  }

  /** Every time lies a whole number of intervals from `base`. */
  ghost predicate OnGrid(times: seq<int>, base: int, interval: int)
    requires interval > 0
  {
    forall t :: t in times ==> Whole(t - base, interval)
  }

  ghost function Distinct(times: seq<int>): set<int> {
    set t | t in times
  }

  lemma ProductSize(d: int, x: int)
    requires d > 0
    ensures x >= 1 ==> d * x >= d
    ensures x <= -1 ==> d * x <= -d
  {}

  lemma QuotientOf(k: int, d: int)
    requires d > 0
    ensures d * k / d == k
  {
    var q := d * k / d;
    assert d * (k - q) == d * k % d;
    ProductSize(d, k - q);
  }

  lemma WholeDifference(a: int, b: int, d: int)
    requires d > 0 && Whole(a, d) && Whole(b, d)
    ensures Whole(a - b, d) && Quotient(a - b, d) == Quotient(a, d) - Quotient(b, d)
  {
    var k := a / d - b / d;
    assert a == d * (a / d) && b == d * (b / d);
    assert a - b == d * k;
    QuotientOf(k, d);
  }

  lemma QuotientSize(a: int, d: int)
    requires d > 0 && Whole(a, d)
    ensures a > 0 ==> Quotient(a, d) >= 1
    ensures a == 0 ==> Quotient(a, d) == 0
  {
    assert a == d * (a / d);
    ProductSize(d, a / d);
  }

  lemma GapTotalGrows(front: seq<int>, last: int, interval: int)
    requires interval > 0 && front != []
    ensures var bars := Quotient(last - front[|front| - 1], interval) - 1;
            GapTotal(front + [last], interval) == GapTotal(front, interval) + if bars > 0 then bars else 0
  {
    hide Quotient;
    assert (front + [last])[..|front|] == front;
  }

  lemma OneTime(times: seq<int>, interval: int)
    requires interval > 0 && |times| == 1
    ensures GapTotal(times, interval) == 0 && |Distinct(times)| == 1 && Quotient(times[0] - times[0], interval) == 0
  {
    assert Distinct(times) == {times[0]} && times[0] in times;
  }

  /** For ascending times on a grid, the gaps add up to the bars the span has room for, less the distinct times. */
  lemma {:induction false} GapsFillSpan(times: seq<int>, interval: int)
    requires interval > 0 && times != [] && Ascending(times) && OnGrid(times, times[0], interval)
    ensures GapTotal(times, interval) == Quotient(times[|times| - 1] - times[0], interval) + 1 - |Distinct(times)|
  {
    hide Quotient, Whole, Distinct, GapTotal;
    if |times| == 1 {
      OneTime(times, interval);
    } else {
      var front, last := times[..|times| - 1], times[|times| - 1];
      var previous := front[|front| - 1];
      FrontOnGrid(times, interval);
      hide OnGrid, Ascending;
      assert times == front + [last];
      GapsFillSpan(front, interval);
      GapStep(times[0], previous, last, interval);
      DistinctGrows(front, last);
      GapTotalGrows(front, last, interval);
    }
  }

  lemma FrontOnGrid(times: seq<int>, interval: int)
    requires interval > 0 && |times| > 1 && Ascending(times) && OnGrid(times, times[0], interval)
    ensures var front := times[..|times| - 1];
            && Ascending(front) && OnGrid(front, front[0], interval)
            && front[|front| - 1] <= times[|times| - 1]
            && Whole(front[|front| - 1] - times[0], interval) && Whole(times[|times| - 1] - times[0], interval)
  {
    hide Whole;
    var front := times[..|times| - 1];
    assert front[|front| - 1] in times && times[|times| - 1] in times;
    assert forall t :: t in front ==> t in times;
  }

  lemma GapStep(first: int, previous: int, last: int, interval: int)
    requires interval > 0 && previous <= last && Whole(previous - first, interval) && Whole(last - first, interval)
    ensures Quotient(last - first, interval)
         == Quotient(previous - first, interval) + Quotient(last - previous, interval)
    ensures Quotient(last - previous, interval) >= if last == previous then 0 else 1
    ensures last == previous ==> Quotient(last - previous, interval) == 0
  {
    assert last - first - (previous - first) == last - previous;
    WholeDifference(last - first, previous - first, interval);
    QuotientSize(last - previous, interval);
  }

  lemma DistinctGrows(front: seq<int>, last: int)
    requires front != [] && Ascending(front + [last])
    ensures |Distinct(front + [last])| == |Distinct(front)| + if last == front[|front| - 1] then 0 else 1
  {
    var times := front + [last];
    assert times[|front|] == last && forall k :: 0 <= k < |front| ==> times[k] == front[k];
    if last == front[|front| - 1] {
      assert Distinct(times) == Distinct(front);
    } else {
      assert Distinct(times) == Distinct(front) + {last};
      assert last !in front;
    }
  }

  lemma DropTop(a: seq<int>)
    requires a != []
    ensures multiset(a[..|a| - 1]) == multiset(a) - multiset{a[|a| - 1]}
  {
    assert a == a[..|a| - 1] + [a[|a| - 1]];
  }

  lemma TopsAgree(a: seq<int>, b: seq<int>)
    requires Ascending(a) && Ascending(b) && multiset(a) == multiset(b) && a != []
    ensures b != [] && a[|a| - 1] == b[|b| - 1]
  {
    assert a[|a| - 1] in multiset(b);
    assert b[|b| - 1] in multiset(a);
  }

  lemma {:induction false} AscendingPermutation(a: seq<int>, b: seq<int>)
    requires Ascending(a) && Ascending(b) && multiset(a) == multiset(b)
    ensures a == b
  {
    if a == [] {
      assert multiset(b) == multiset{} && |b| == |multiset(b)|;
    } else {
      TopsAgree(a, b);
      DropTop(a);
      DropTop(b);
      var x, y := a[..|a| - 1], b[..|b| - 1];
      AscendingPermutation(x, y);
      assert a == x + [a[|a| - 1]] && b == y + [b[|b| - 1]];
    }
  }

  /** Only the times count: series of one timeframe with the same times, in whatever order their records
      come in, report the same number of missing bars. */
  lemma OrderDoesNotMatter(
      key: string, group: seq<SourceRecord>, shuffled: seq<SourceRecord>, timeframe: string,
      generatedAt: int, parseInt: string -> Option<int>)
    requires group != [] && shuffled != [] && multiset(Times(group)) == multiset(Times(shuffled))
    requires forall r :: r in group + shuffled ==> r.timeframe == timeframe
    ensures ReportedBars(GroupIssues(key, group, generatedAt, parseInt))
         == ReportedBars(GroupIssues(key, shuffled, generatedAt, parseInt))
  {
    var a, b := SortByTime(group), SortByTime(shuffled);
    SortMembers(group);
    SortMembers(shuffled);
    assert a[0] in a && b[0] in b;
    SortTimes(group);
    SortTimes(shuffled);
    AscendingPermutation(Times(a), Times(b));
    GroupReport(key, group, generatedAt, parseInt);
    GroupReport(key, shuffled, generatedAt, parseInt);
  }

  lemma SortMembers(group: seq<SourceRecord>)
    ensures forall x :: x in SortByTime(group) <==> x in group
  {
    SortSorts(group);
    hide RecordsAt, Ascending, SortByTime;
    forall x
      ensures x in SortByTime(group) <==> x in group
    {
      assert x in multiset(SortByTime(group)) <==> x in multiset(group);
    }
  }

  /** For a series on a grid of its own timeframe, in any input order: the bars reported missing are
      those the span from the earliest to the latest record has room for, less the distinct times;
      duplicates change nothing. */
  lemma MissingBarsFillSpan(
      key: string, group: seq<SourceRecord>, generatedAt: int, parseInt: string -> Option<int>,
      first: int, last: int, interval: int)
    requires group != [] && interval > 0
    requires TimeframeDelta(SortByTime(group)[0].timeframe, parseInt) == Some(interval)
    requires Spans(Times(group), first, last)
    requires OnGrid(Times(group), first, interval)
    ensures ReportedBars(GroupIssues(key, group, generatedAt, parseInt))
         == Quotient(last - first, interval) + 1 - |Distinct(Times(group))|
  {
    hide Quotient, Whole, Distinct, GapTotal, ReportedBars, GroupIssues, SortByTime, TimeframeDelta;
    hide OnGrid, Spans, Ascending;
    GroupReport(key, group, generatedAt, parseInt);
    SortedTimes(group, first, last, interval);
    GapsFillSpan(Times(SortByTime(group)), interval);
  }

  /** A series is reported stale exactly when its latest record is more than two intervals old. */
  lemma StaleExactly(
      key: string, group: seq<SourceRecord>, generatedAt: int, parseInt: string -> Option<int>,
      first: int, last: int, interval: int)
    requires group != [] && interval > 0
    requires TimeframeDelta(SortByTime(group)[0].timeframe, parseInt) == Some(interval)
    requires Spans(Times(group), first, last)
    ensures (exists x :: x in GroupIssues(key, group, generatedAt, parseInt) && x.StaleSource?)
        <==> generatedAt - last > 2 * interval
  {
    hide Times, TimeframeDelta, SortByTime, Spans;
    var ordered := SortByTime(group);
    SortedEnds(group, first, last);
    OnlyGaps(key, ordered, interval);
    hide GapIssues;
    var stale := StaleIssues(key, ordered, interval, generatedAt);
    if generatedAt - last > 2 * interval {
      assert stale[0] in GroupIssues(key, group, generatedAt, parseInt);
    }
  }

  lemma {:induction false} OnlyGaps(key: string, ordered: seq<SourceRecord>, interval: int)
    requires interval > 0
    ensures forall x :: x in GapIssues(key, ordered, interval) ==> x.MissingBars? && x.bars > 0
  {
    if |ordered| >= 2 {
      OnlyGaps(key, ordered[..|ordered| - 1], interval);
    }
  }

  lemma SortedEnds(group: seq<SourceRecord>, first: int, last: int)
    requires group != [] && Spans(Times(group), first, last)
    ensures var sorted := SortByTime(group);
            sorted != [] && sorted[0].observedAt == first && sorted[|sorted| - 1].observedAt == last
  {
    hide SortByTime;
    SortTimes(group);
    var ts, sorted := Times(group), Times(SortByTime(group));
    SameMembers(ts, sorted);
    assert sorted[0] in sorted && sorted[|sorted| - 1] in sorted && first in sorted && last in sorted;
  }

  /** The earliest and the latest of the times. */
  ghost predicate Spans(times: seq<int>, first: int, last: int) {
    first in times && last in times && forall t :: t in times ==> first <= t <= last
  }

  lemma SortedTimes(group: seq<SourceRecord>, first: int, last: int, interval: int)
    requires group != [] && interval > 0
    requires Spans(Times(group), first, last)
    requires OnGrid(Times(group), first, interval)
    ensures var sorted := Times(SortByTime(group));
            && Ascending(sorted) && OnGrid(sorted, first, interval) && Distinct(sorted) == Distinct(Times(group))
            && sorted[0] == first && sorted[|sorted| - 1] == last
  {
    hide Whole, SortByTime;
    SortTimes(group);
    var ts, sorted := Times(group), Times(SortByTime(group));
    SameMembers(ts, sorted);
    assert sorted[0] in sorted && sorted[|sorted| - 1] in sorted && first in sorted && last in sorted;
  }

  lemma SameMembers(a: seq<int>, b: seq<int>)
    requires multiset(a) == multiset(b)
    ensures forall t :: t in a <==> t in b
    ensures Distinct(a) == Distinct(b)
  {
    forall t
      ensures t in a <==> t in b
    {
      assert t in multiset(a) <==> t in multiset(b);
    }
  }

  // ----- what the issues of a group say, in terms of its records -----

  /** The first record of its time, in the order the records came in. */
  ghost predicate IsFirst(group: seq<SourceRecord>, r: SourceRecord) {
    exists k :: 0 <= k < |group| && group[k] == r && forall j :: 0 <= j < k ==> group[j].observedAt != r.observedAt
  }

  /** The last record of its time. */
  ghost predicate IsLast(group: seq<SourceRecord>, r: SourceRecord) {
    exists k :: 0 <= k < |group| && group[k] == r
                && forall j :: k < j < |group| ==> group[j].observedAt != r.observedAt
  }

  ghost predicate Earliest(group: seq<SourceRecord>, r: SourceRecord) {
    IsFirst(group, r) && forall x :: x in group ==> r.observedAt <= x.observedAt
  }

  ghost predicate Latest(group: seq<SourceRecord>, r: SourceRecord) {
    IsLast(group, r) && forall x :: x in group ==> x.observedAt <= r.observedAt
  }

  /** No record lies between the time `previous` and the record, which is the first of its own time. */
  ghost predicate Follows(group: seq<SourceRecord>, previous: int, r: SourceRecord) {
    && IsFirst(group, r) && previous < r.observedAt
    && (exists x :: x in group && x.observedAt == previous)
    && forall x :: x in group ==> x.observedAt <= previous || r.observedAt <= x.observedAt
  }

  /** A gap issue: whole intervals between two neighbouring times, less one. */
  ghost predicate ReportsGap(x: Issue, key: string, group: seq<SourceRecord>, interval: int)
    requires interval > 0
  {
    exists previous, r :: Follows(group, previous, r)
      && x == MissingBars(key, r.source, (r.observedAt - previous) / interval - 1, r.observedAt) && x.bars > 0
  }

  /** Gaps in ascending order of time, and then staleness, at most once. */
  ghost predicate GapsThenStale(found: seq<Issue>) {
    forall i, j :: 0 <= i < j < |found| ==>
      found[i].MissingBars? && (found[j].MissingBars? ==> found[i].observedAt < found[j].observedAt)
  }

  /** What is reported about a group of records whose timeframe is known: exactly the gaps between
      neighbouring times, and the last of its latest records when that is more than two intervals old. On
      a grid the gaps fill the span. */
  ghost predicate AnswersFor(
      found: seq<Issue>, key: string, group: seq<SourceRecord>, generatedAt: int, interval: int,
      earliest: SourceRecord, latest: SourceRecord)
    requires interval > 0
  {
    && (forall x :: x in found && x.MissingBars? <==> ReportsGap(x, key, group, interval))
    && (forall x :: x in found && x.StaleSource? <==>
          x == StaleSource(key, latest.source, latest.observedAt) && generatedAt - latest.observedAt > 2 * interval)
    && GapsThenStale(found)
    && (OnGrid(Times(group), earliest.observedAt, interval) ==>
          ReportedBars(found) == (latest.observedAt - earliest.observedAt) / interval + 1 - |Distinct(Times(group))|)
  }

  /** The first of the earliest records gives the timeframe; nothing is reported without a known one. */
  ghost predicate Answers(
      found: seq<Issue>, key: string, group: seq<SourceRecord>, generatedAt: int, parseInt: string -> Option<int>)
  {
    exists earliest, latest :: Earliest(group, earliest) && Latest(group, latest) &&
      var delta := TimeframeDelta(earliest.timeframe, parseInt);
      if delta.None? then found == []
      else AnswersFor(found, key, group, generatedAt, delta.value, earliest, latest)
  }

  /** The issues under a key, in order. */
  ghost function UnderKey(issues: seq<Issue>, key: string): seq<Issue> {
    if issues == [] then []
    else
      var last := issues[|issues| - 1];
      UnderKey(issues[..|issues| - 1], key) + if last.key == key then [last] else []
  }

  ghost predicate InKeyOrder(issues: seq<Issue>) {
    forall i, j :: 0 <= i < j < |issues| ==>
      issues[i].key == issues[j].key || TextOrder.Before(issues[i].key, issues[j].key)
  }

  lemma {:induction false} NoRecordsAt(group: seq<SourceRecord>, time: int)
    ensures RecordsAt(group, time) == [] <==> forall x :: x in group ==> x.observedAt != time
  {
    if group != [] {
      var front, last := group[..|group| - 1], group[|group| - 1];
      NoRecordsAt(front, time);
      assert forall x :: x in group <==> x in front || x == last by {
        assert group == front + [last];
      }
    }
  }

  lemma FirstOfMore(front: seq<SourceRecord>, last: SourceRecord, r: SourceRecord)
    ensures IsFirst(front + [last], r) <==>
            IsFirst(front, r) || (r == last && forall x :: x in front ==> x.observedAt != r.observedAt)
  {
    var group := front + [last];
    assert group[|front|] == last && forall k :: 0 <= k < |front| ==> group[k] == front[k];
    if IsFirst(front, r) {
      var k :| 0 <= k < |front| && front[k] == r && forall j :: 0 <= j < k ==> front[j].observedAt != r.observedAt;
      assert group[k] == r;
    }
    if IsFirst(group, r) {
      var k :| 0 <= k < |group| && group[k] == r && forall j :: 0 <= j < k ==> group[j].observedAt != r.observedAt;
      if k < |front| {
        assert front[k] == r;
      } else {
        assert forall x :: x in front ==> x.observedAt != r.observedAt;
      }
    }
  }

  lemma {:induction false} FirstIsHead(group: seq<SourceRecord>, r: SourceRecord)
    ensures IsFirst(group, r) <==> RecordsAt(group, r.observedAt) != [] && RecordsAt(group, r.observedAt)[0] == r
  {
    if group != [] {
      hide IsFirst;
      var front, last := group[..|group| - 1], group[|group| - 1];
      FirstIsHead(front, r);
      FirstOfMore(front, last, r);
      NoRecordsAt(front, r.observedAt);
      assert group == front + [last];
      NotFirstLater(front, r);
    }
  }

  lemma NotFirstLater(group: seq<SourceRecord>, r: SourceRecord)
    ensures IsFirst(group, r) ==> exists x :: x in group && x.observedAt == r.observedAt
  {
    if IsFirst(group, r) {
      assert r in group;
    }
  }

  lemma LastOfMore(front: seq<SourceRecord>, last: SourceRecord, r: SourceRecord)
    ensures IsLast(front + [last], r) <==> if last.observedAt == r.observedAt then last == r else IsLast(front, r)
  {
    var group := front + [last];
    assert group[|front|] == last && forall k :: 0 <= k < |front| ==> group[k] == front[k];
    if IsLast(front, r) && last.observedAt != r.observedAt {
      var k :| 0 <= k < |front| && front[k] == r && forall j :: k < j < |front| ==> front[j].observedAt != r.observedAt;
      assert group[k] == r;
    }
    if IsLast(group, r) && last.observedAt != r.observedAt {
      var k :| 0 <= k < |group| && group[k] == r && forall j :: k < j < |group| ==> group[j].observedAt != r.observedAt;
      assert front[k] == r;
    }
  }

  lemma {:induction false} LastIsTail(group: seq<SourceRecord>, r: SourceRecord)
    ensures var records := RecordsAt(group, r.observedAt);
            IsLast(group, r) <==> records != [] && records[|records| - 1] == r
  {
    if group != [] {
      hide IsLast;
      var front, last := group[..|group| - 1], group[|group| - 1];
      LastIsTail(front, r);
      LastOfMore(front, last, r);
      assert group == front + [last];
    }
  }

  /** Sorting changes neither which record is the first nor which is the last of its time. */
  lemma SortKeepsEnds(group: seq<SourceRecord>, r: SourceRecord)
    ensures IsFirst(SortByTime(group), r) <==> IsFirst(group, r)
    ensures IsLast(SortByTime(group), r) <==> IsLast(group, r)
  {
    hide IsFirst, IsLast, SortByTime, RecordsAt, Ascending;
    SortSorts(group);
    FirstIsHead(group, r);
    FirstIsHead(SortByTime(group), r);
    LastIsTail(group, r);
    LastIsTail(SortByTime(group), r);
  }

  /** The gap at one of the first `n` records. */
  ghost predicate GapAmong(key: string, ordered: seq<SourceRecord>, n: nat, interval: int, x: Issue)
    requires interval > 0 && n <= |ordered|
  {
    exists k :: 1 <= k < n && IsGap(key, ordered[k - 1], ordered[k], interval, x)
  }

  lemma GapAmongMore(key: string, ordered: seq<SourceRecord>, n: nat, interval: int, x: Issue)
    requires interval > 0 && 1 <= n < |ordered|
    ensures GapAmong(key, ordered, n + 1, interval, x)
        <==> GapAmong(key, ordered, n, interval, x) || IsGap(key, ordered[n - 1], ordered[n], interval, x)
  {
    hide IsGap;
  }

  lemma {:induction false} GapMembersTo(key: string, ordered: seq<SourceRecord>, n: nat, interval: int, x: Issue)
    requires interval > 0 && n <= |ordered|
    ensures x in GapIssues(key, ordered[..n], interval) <==> GapAmong(key, ordered, n, interval, x)
  {
    if n >= 2 {
      hide IsGap, MissingBetween, GapAmong;
      GapMembersTo(key, ordered, n - 1, interval, x);
      GapAmongMore(key, ordered, n - 1, interval, x);
      GapOfTwo(key, ordered[n - 2], ordered[n - 1], interval, x);
      assert ordered[..n][..n - 1] == ordered[..n - 1];
    }
  }

  lemma GapMembers(key: string, ordered: seq<SourceRecord>, interval: int, x: Issue)
    requires interval > 0
    ensures x in GapIssues(key, ordered, interval) <==>
            exists k :: 1 <= k < |ordered| && IsGap(key, ordered[k - 1], ordered[k], interval, x)
  {
    hide IsGap, GapIssues;
    GapMembersTo(key, ordered, |ordered|, interval, x);
    assert ordered[..|ordered|] == ordered;
  }

  ghost predicate IsGap(key: string, previous: SourceRecord, r: SourceRecord, interval: int, x: Issue)
    requires interval > 0
  {
    var bars := (r.observedAt - previous.observedAt) / interval - 1;
    bars > 0 && x == MissingBars(key, r.source, bars, r.observedAt)
  }

  lemma GapOfTwo(key: string, previous: SourceRecord, r: SourceRecord, interval: int, x: Issue)
    requires interval > 0
    ensures var bars := MissingBetween(previous.observedAt, r.observedAt, interval);
            IsGap(key, previous, r, interval, x) <==> bars > 0 && x == MissingBars(key, r.source, bars, r.observedAt)
  {}

  lemma GapIsForward(previous: SourceRecord, r: SourceRecord, key: string, interval: int, x: Issue)
    requires interval > 0 && IsGap(key, previous, r, interval, x)
    ensures previous.observedAt < r.observedAt
  {
    var span := r.observedAt - previous.observedAt;
    assert span == span / interval * interval + span % interval;
    ProductSize(interval, span / interval);
  }

  ghost predicate InTimeOrder(ordered: seq<SourceRecord>) {
    forall i, j :: 0 <= i < j < |ordered| ==> ordered[i].observedAt <= ordered[j].observedAt
  }

  lemma SortInOrder(group: seq<SourceRecord>)
    ensures InTimeOrder(SortByTime(group))
  {
    hide SortByTime;
    SortTimes(group);
    assert forall i :: 0 <= i < |group| ==> Times(SortByTime(group))[i] == SortByTime(group)[i].observedAt;
  }

  /** Sorting does not change which times are neighbours. */
  lemma SortKeepsNeighbours(group: seq<SourceRecord>, previous: int, r: SourceRecord)
    ensures Follows(SortByTime(group), previous, r) <==> Follows(group, previous, r)
  {
    hide SortByTime, IsFirst, IsLast;
    SortMembers(group);
    SortKeepsEnds(group, r);
  }

  /** In a sorted list, what `Follows` describes are neighbours with different times. */
  lemma NeighboursFollow(ordered: seq<SourceRecord>, k: nat)
    requires InTimeOrder(ordered) && 1 <= k < |ordered| && ordered[k - 1].observedAt < ordered[k].observedAt
    ensures Follows(ordered, ordered[k - 1].observedAt, ordered[k])
  {
    assert IsFirst(ordered, ordered[k]);
    hide IsFirst;
    forall x | x in ordered
      ensures x.observedAt <= ordered[k - 1].observedAt || ordered[k].observedAt <= x.observedAt
    {
      var i :| 0 <= i < |ordered| && ordered[i] == x;
    }
    hide InTimeOrder;
  }

  lemma FollowersAreNeighbours(ordered: seq<SourceRecord>, previous: int, r: SourceRecord) returns (k: nat)
    requires InTimeOrder(ordered) && Follows(ordered, previous, r)
    ensures 1 <= k < |ordered| && ordered[k] == r && ordered[k - 1].observedAt == previous
  {
    k :| 0 <= k < |ordered| && ordered[k] == r && forall j :: 0 <= j < k ==> ordered[j].observedAt != r.observedAt;
    hide IsFirst;
    var x :| x in ordered && x.observedAt == previous;
    var i :| 0 <= i < |ordered| && ordered[i] == x;
    assert i < k;
    assert ordered[k - 1] in ordered;
    hide Follows;
  }

  lemma GapsExactly(key: string, group: seq<SourceRecord>, interval: int, x: Issue)
    requires interval > 0 && group != []
    ensures x in GapIssues(key, SortByTime(group), interval) <==> ReportsGap(x, key, group, interval)
  {
    hide SortByTime, Follows, GapIssues, InTimeOrder;
    var ordered := SortByTime(group);
    SortInOrder(group);
    GapMembers(key, ordered, interval, x);
    if x in GapIssues(key, ordered, interval) {
      var k :| 1 <= k < |ordered| && IsGap(key, ordered[k - 1], ordered[k], interval, x);
      GapIsForward(ordered[k - 1], ordered[k], key, interval, x);
      NeighboursFollow(ordered, k);
      SortKeepsNeighbours(group, ordered[k - 1].observedAt, ordered[k]);
    }
    if ReportsGap(x, key, group, interval) {
      var previous, r :| Follows(group, previous, r)
        && x == MissingBars(key, r.source, (r.observedAt - previous) / interval - 1, r.observedAt) && x.bars > 0;
      SortKeepsNeighbours(group, previous, r);
      var k := FollowersAreNeighbours(ordered, previous, r);
      assert IsGap(key, ordered[k - 1], ordered[k], interval, x);
    }
  }

  lemma {:induction false} GapsAscend(key: string, ordered: seq<SourceRecord>, interval: int)
    requires interval > 0 && Ascending(Times(ordered))
    ensures var gaps := GapIssues(key, ordered, interval);
            && (forall i :: 0 <= i < |gaps| ==> gaps[i].MissingBars? && gaps[i].key == key)
            && (forall i, j :: 0 <= i < j < |gaps| ==> gaps[i].observedAt < gaps[j].observedAt)
            && (forall i :: 0 <= i < |gaps| ==> gaps[i].observedAt <= ordered[|ordered| - 1].observedAt)
  {
    if |ordered| >= 2 {
      hide MissingBetween;
      var front, n := ordered[..|ordered| - 1], |ordered| - 1;
      assert Times(front) == Times(ordered)[..n];
      assert Times(ordered)[n - 1] <= Times(ordered)[n];
      GapsAscend(key, front, interval);
      assert front[|front| - 1] == ordered[n - 1] && ordered[n - 1].observedAt <= ordered[n].observedAt;
      hide Times;
      var bars := MissingBetween(ordered[n - 1].observedAt, ordered[n].observedAt, interval);
      if bars > 0 {
        var x := MissingBars(key, ordered[n].source, bars, ordered[n].observedAt);
        GapOfTwo(key, ordered[n - 1], ordered[n], interval, x);
        GapIsForward(ordered[n - 1], ordered[n], key, interval, x);
        assert GapIssues(key, ordered, interval) == GapIssues(key, front, interval) + [x];
        hide GapIssues;
      } else {
        assert GapIssues(key, front, interval) + [] == GapIssues(key, front, interval);
      }
    }
  }

  lemma EndsAreEnds(group: seq<SourceRecord>)
    requires group != []
    ensures IsFirst(group, group[0]) && IsLast(group, group[|group| - 1])
  {}

  lemma SortedBounds(group: seq<SourceRecord>, x: SourceRecord)
    requires x in group
    ensures SortByTime(group)[0].observedAt <= x.observedAt <= SortByTime(group)[|group| - 1].observedAt
  {
    hide SortByTime;
    var ordered := SortByTime(group);
    SortInOrder(group);
    SortMembers(group);
    assert x in ordered;
    var i :| 0 <= i < |ordered| && ordered[i] == x;
  }

  /** The sorted group begins with the first of its earliest records and ends with the last of its latest. */
  lemma SortedEndsAre(group: seq<SourceRecord>)
    requires group != []
    ensures Earliest(group, SortByTime(group)[0]) && Latest(group, SortByTime(group)[|group| - 1])
  {
    hide SortByTime, IsFirst, IsLast;
    EndsAreEnds(SortByTime(group));
    SortKeepsEnds(group, SortByTime(group)[0]);
    SortKeepsEnds(group, SortByTime(group)[|group| - 1]);
    forall x | x in group
      ensures SortByTime(group)[0].observedAt <= x.observedAt <= SortByTime(group)[|group| - 1].observedAt
    {
      SortedBounds(group, x);
    }
  }

  lemma IssuesOfInterval(
      key: string, group: seq<SourceRecord>, generatedAt: int, parseInt: string -> Option<int>, interval: int)
    requires group != [] && interval > 0
    requires TimeframeDelta(SortByTime(group)[0].timeframe, parseInt) == Some(interval)
    ensures GroupIssues(key, group, generatedAt, parseInt)
         == GapIssues(key, SortByTime(group), interval) + StaleIssues(key, SortByTime(group), interval, generatedAt)
  {
    hide SortByTime, GapIssues, StaleIssues, TimeframeDelta;
  }

  lemma IntervalAnswers(
      key: string, group: seq<SourceRecord>, generatedAt: int, parseInt: string -> Option<int>, interval: int,
      ordered: seq<SourceRecord>)
    requires group != [] && interval > 0 && ordered == SortByTime(group)
    requires TimeframeDelta(ordered[0].timeframe, parseInt) == Some(interval)
    ensures AnswersFor(GroupIssues(key, group, generatedAt, parseInt), key, group, generatedAt, interval,
                       ordered[0], ordered[|ordered| - 1])
  {
    hide SortByTime, Earliest, Latest, GapIssues, StaleIssues, ReportedBars, OnGrid, Distinct, Times, TimeframeDelta;
    hide GapsThenStale, ReportsGap, AnswersFor, GroupIssues;
    SortedEndsAre(group);
    SpanFilled(key, group, generatedAt, parseInt, ordered[0], ordered[|ordered| - 1], interval);
    IssuesOfInterval(key, group, generatedAt, parseInt, interval);
    GapsBeforeStale(key, group, generatedAt, interval);
    AllGapsExactly(key, group, interval);
    AnswersTogether(GapIssues(key, ordered, interval), key, group, generatedAt, interval, ordered);
  }

  lemma AllGapsExactly(key: string, group: seq<SourceRecord>, interval: int)
    requires interval > 0 && group != []
    ensures forall x :: x in GapIssues(key, SortByTime(group), interval) <==> ReportsGap(x, key, group, interval)
  {
    hide SortByTime, GapIssues, ReportsGap;
    forall x
      ensures x in GapIssues(key, SortByTime(group), interval) <==> ReportsGap(x, key, group, interval)
    {
      GapsExactly(key, group, interval, x);
    }
  }

  lemma AnswersTogether(
      gaps: seq<Issue>, key: string, group: seq<SourceRecord>, generatedAt: int, interval: int,
      ordered: seq<SourceRecord>)
    requires interval > 0 && ordered != []
    requires forall x :: x in gaps <==> ReportsGap(x, key, group, interval)
    requires GapsThenStale(gaps + StaleIssues(key, ordered, interval, generatedAt))
    requires OnGrid(Times(group), ordered[0].observedAt, interval) ==>
               ReportedBars(gaps + StaleIssues(key, ordered, interval, generatedAt))
               == (ordered[|ordered| - 1].observedAt - ordered[0].observedAt) / interval + 1 - |Distinct(Times(group))|
    ensures AnswersFor(gaps + StaleIssues(key, ordered, interval, generatedAt), key, group, generatedAt, interval,
                       ordered[0], ordered[|ordered| - 1])
  {
    hide GapsThenStale, ReportsGap, OnGrid, Times, Distinct, ReportedBars;
    forall x
      ensures ReportsGap(x, key, group, interval) ==> x.MissingBars?
    {
      GapIsMissing(x, key, group, interval);
    }
  }

  lemma GapIsMissing(x: Issue, key: string, group: seq<SourceRecord>, interval: int)
    requires interval > 0
    ensures ReportsGap(x, key, group, interval) ==> x.MissingBars?
  {}

  /** The issues of one group answer for its records. */
  lemma GroupAnswers(key: string, group: seq<SourceRecord>, generatedAt: int, parseInt: string -> Option<int>)
    requires group != []
    ensures Answers(GroupIssues(key, group, generatedAt, parseInt), key, group, generatedAt, parseInt)
  {
    hide SortByTime, Earliest, Latest, GapIssues, StaleIssues, AnswersFor, TimeframeDelta;
    SortedEndsAre(group);
    var delta := TimeframeDelta(SortByTime(group)[0].timeframe, parseInt);
    if delta.Some? {
      IntervalAnswers(key, group, generatedAt, parseInt, delta.value, SortByTime(group));
    }
  }

  lemma GapsBeforeStale(key: string, group: seq<SourceRecord>, generatedAt: int, interval: int)
    requires group != [] && interval > 0
    ensures var ordered := SortByTime(group);
            var gaps, stale := GapIssues(key, ordered, interval), StaleIssues(key, ordered, interval, generatedAt);
            GapsThenStale(gaps + stale) && forall x :: x in gaps ==> x.MissingBars?
  {
    hide SortByTime, Times, GapIssues;
    SortTimes(group);
    GapsAscend(key, SortByTime(group), interval);
    hide Ascending;
  }

  lemma SpanFilled(
      key: string, group: seq<SourceRecord>, generatedAt: int, parseInt: string -> Option<int>,
      earliest: SourceRecord, latest: SourceRecord, interval: int)
    requires group != [] && interval > 0
    requires TimeframeDelta(SortByTime(group)[0].timeframe, parseInt) == Some(interval)
    requires Earliest(group, earliest) && Latest(group, latest)
    ensures OnGrid(Times(group), earliest.observedAt, interval) ==>
              ReportedBars(GroupIssues(key, group, generatedAt, parseInt))
              == (latest.observedAt - earliest.observedAt) / interval + 1 - |Distinct(Times(group))|
  {
    hide SortByTime, TimeframeDelta, GroupIssues, ReportedBars, OnGrid, Distinct;
    SpansEnds(group, earliest, latest);
    hide Times, Spans, Earliest, Latest;
    if OnGrid(Times(group), earliest.observedAt, interval) {
      MissingBarsFillSpan(key, group, generatedAt, parseInt, earliest.observedAt, latest.observedAt, interval);
    }
  }

  lemma SpansEnds(group: seq<SourceRecord>, earliest: SourceRecord, latest: SourceRecord)
    requires Earliest(group, earliest) && Latest(group, latest)
    ensures Spans(Times(group), earliest.observedAt, latest.observedAt)
  {
    var k :| 0 <= k < |group| && group[k] == earliest;
    var n :| 0 <= n < |group| && group[n] == latest;
    assert Times(group)[k] == earliest.observedAt && Times(group)[n] == latest.observedAt;
    forall t | t in Times(group)
      ensures earliest.observedAt <= t <= latest.observedAt
    {
      var i :| 0 <= i < |group| && Times(group)[i] == t;
      assert group[i] in group;
    }
  }

  // ----- all groups together -----

  lemma {:induction false} UnderKeyConcat(a: seq<Issue>, b: seq<Issue>, key: string)
    ensures UnderKey(a + b, key) == UnderKey(a, key) + UnderKey(b, key)
  {
    if b == [] {
      assert a + b == a;
    } else {
      assert (a + b)[..|a + b| - 1] == a + b[..|b| - 1];
      UnderKeyConcat(a, b[..|b| - 1], key);
    }
  }

  lemma {:induction false} UnderOwnKey(issues: seq<Issue>, own: string, key: string)
    requires forall x :: x in issues ==> x.key == own
    ensures UnderKey(issues, key) == if key == own then issues else []
  {
    if issues != [] {
      var front, last := issues[..|issues| - 1], issues[|issues| - 1];
      assert last in issues && issues == front + [last];
      UnderOwnKey(front, own, key);
    }
  }

  lemma GroupKeys(key: string, group: seq<SourceRecord>, generatedAt: int, parseInt: string -> Option<int>)
    requires group != []
    ensures forall x :: x in GroupIssues(key, group, generatedAt, parseInt) ==> x.key == key
  {
    hide SortByTime, TimeframeDelta;
    var ordered := SortByTime(group);
    var interval := TimeframeDelta(ordered[0].timeframe, parseInt);
    if interval.Some? {
      forall x | x in GapIssues(key, ordered, interval.value)
        ensures x.key == key
      {
        GapMembers(key, ordered, interval.value, x);
      }
      hide GapIssues;
    }
  }

  lemma LastKey(keys: seq<string>)
    requires keys != [] && TextOrder.Ascending(TextOrder.Before, keys)
    ensures var front, last := keys[..|keys| - 1], keys[|keys| - 1];
            && TextOrder.Ascending(TextOrder.Before, front)
            && (forall key :: key in front ==> TextOrder.Before(key, last) && key in keys)
            && last !in front && last in keys && keys == front + [last]
  {
    hide TextOrder.Before;
    TextOrder.Irreflexive(keys[|keys| - 1]);
  }

  lemma {:induction false} KeysOfAll(
      keys: seq<string>, groups: Groups, generatedAt: int, parseInt: string -> Option<int>)
    requires forall key :: key in keys ==> key in groups && groups[key] != []
    requires TextOrder.Ascending(TextOrder.Before, keys)
    ensures var issues := AllIssues(keys, groups, generatedAt, parseInt);
            (forall x :: x in issues ==> x.key in keys) && InKeyOrder(issues)
  {
    hide GroupIssues, TextOrder.Before, InKeyOrder, TextOrder.Ascending;
    if keys == [] {
      NoIssuesInOrder();
    } else {
      var last := keys[|keys| - 1];
      LastKey(keys);
      KeysOfAll(keys[..|keys| - 1], groups, generatedAt, parseInt);
      GroupKeys(last, groups[last], generatedAt, parseInt);
      KeyOrderGrows(AllIssues(keys[..|keys| - 1], groups, generatedAt, parseInt),
                    GroupIssues(last, groups[last], generatedAt, parseInt), last);
    }
  }

  lemma {:induction false} UnderKeyOfAll(
      keys: seq<string>, groups: Groups, generatedAt: int, parseInt: string -> Option<int>, key: string)
    requires forall key :: key in keys ==> key in groups && groups[key] != []
    requires TextOrder.Ascending(TextOrder.Before, keys)
    ensures UnderKey(AllIssues(keys, groups, generatedAt, parseInt), key)
         == if key in keys then GroupIssues(key, groups[key], generatedAt, parseInt) else []
  {
    hide GroupIssues, TextOrder.Before, TextOrder.Ascending;
    if keys != [] {
      var last := keys[|keys| - 1];
      LastKey(keys);
      UnderKeyOfAll(keys[..|keys| - 1], groups, generatedAt, parseInt, key);
      GroupKeys(last, groups[last], generatedAt, parseInt);
      var before := AllIssues(keys[..|keys| - 1], groups, generatedAt, parseInt);
      var found := GroupIssues(last, groups[last], generatedAt, parseInt);
      assert AllIssues(keys, groups, generatedAt, parseInt) == before + found;
      hide AllIssues, UnderKey;
      UnderKeyConcat(before, found, key);
      UnderOwnKey(found, last, key);
    }
  }

  lemma NoIssuesInOrder()
    ensures InKeyOrder([])
  {}

  lemma KeyOrderGrows(before: seq<Issue>, found: seq<Issue>, last: string)
    requires InKeyOrder(before) && forall x :: x in before ==> TextOrder.Before(x.key, last)
    requires forall x :: x in found ==> x.key == last
    ensures InKeyOrder(before + found)
  {
    hide TextOrder.Before;
    var all := before + found;
    assert forall i :: 0 <= i < |before| ==> all[i] == before[i] && before[i] in before;
    assert forall i :: |before| <= i < |all| ==> all[i] == found[i - |before|] && found[i - |before|] in found;
  }

  lemma AllAnswered(keys: seq<string>, groups: Groups, generatedAt: int, parseInt: string -> Option<int>)
    requires forall key :: key in groups ==> groups[key] != []
    requires KeysInOrder(keys, groups)
    ensures var issues := AllIssues(keys, groups, generatedAt, parseInt);
            && (forall key :: key in groups ==>
                  Answers(UnderKey(issues, key), key, groups[key], generatedAt, parseInt))
            && (forall x :: x in issues ==> x.key in groups)
            && InKeyOrder(issues)
  {
    hide GroupIssues, Answers, UnderKey, InKeyOrder, AllIssues;
    KeysOfAll(keys, groups, generatedAt, parseInt);
    forall key | key in groups
      ensures var found := UnderKey(AllIssues(keys, groups, generatedAt, parseInt), key);
              Answers(found, key, groups[key], generatedAt, parseInt)
    {
      UnderKeyOfAll(keys, groups, generatedAt, parseInt, key);
      GroupAnswers(key, groups[key], generatedAt, parseInt);
    }
  }
}
