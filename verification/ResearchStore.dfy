/** The research data store: one SQL row per record id, times kept and compared as ISO text. */
module ResearchStore {
  import opened Common
  import opened TextOrder
  import opened IsoTime

  datatype SourceRecord<Payload> = SourceRecord(
    recordId: string,
    source: string,
    recordType: string,
    observedAt: DateTime,
    payload: Payload)

  type Rows<Payload> = map<string, SourceRecord<Payload>>

  datatype Clause = TypeIs(text: string) | SourceIs(text: string) | NotBefore(text: string) | EarlierThan(text: string)

  datatype Query = Query(
    recordType: Option<string>,
    source: Option<string>,
    start: Option<DateTime>,
    end: Option<DateTime>)

  ghost predicate ValidQuery(q: Query) {
    (q.start.Some? ==> Valid(q.start.value)) && (q.end.Some? ==> Valid(q.end.value))
  }

  predicate Holds<P>(c: Clause, r: SourceRecord<P>)
    requires Valid(r.observedAt)
  {
    match c
    case TypeIs(text) => r.recordType == text
    case SourceIs(text) => r.source == text
    case NotBefore(text) => !Before(Iso(r.observedAt), text)
    case EarlierThan(text) => Before(Iso(r.observedAt), text)
  }

  /** The rows a query asks for. */
  predicate Matches<P>(q: Query, r: SourceRecord<P>)
    requires ValidQuery(q) && Valid(r.observedAt)
  {
    && (q.recordType.Some? ==> r.recordType == q.recordType.value)
    && (q.source.Some? ==> r.source == q.source.value)
    && (q.start.Some? ==> !Before(Iso(r.observedAt), Iso(q.start.value)))
    && (q.end.Some? ==> Before(Iso(r.observedAt), Iso(q.end.value)))
  }

  function Fields(q: Query): seq<Clause> {
    (if q.recordType.Some? then [TypeIs(q.recordType.value)] else [])
    + if q.source.Some? then [SourceIs(q.source.value)] else []
  }

  function ClausesOf(q: Query): seq<Clause>
    requires ValidQuery(q)
  {
    Fields(q)
    + (if q.start.Some? then [NotBefore(Iso(q.start.value))] else [])
    + if q.end.Some? then [EarlierThan(Iso(q.end.value))] else []
  }

  /** The conjunction of the clauses is the query. */
  lemma ClausesMatch<P>(q: Query, r: SourceRecord<P>)
    requires ValidQuery(q) && Valid(r.observedAt)
    ensures Matches(q, r) <==> forall c :: c in ClausesOf(q) ==> Holds(c, r)
  {
    hide Iso, Before;
    if forall c :: c in ClausesOf(q) ==> Holds(c, r) {
      assert q.recordType.Some? ==> TypeIs(q.recordType.value) in ClausesOf(q);
      assert q.source.Some? ==> SourceIs(q.source.value) in ClausesOf(q);
      assert q.start.Some? ==> NotBefore(Iso(q.start.value)) in ClausesOf(q);
      assert q.end.Some? ==> EarlierThan(Iso(q.end.value)) in ClausesOf(q);
    }
  }

  /** Every row sits under its own id and has a proper timestamp. */
  ghost predicate Keyed<P>(rows: Rows<P>) {
    forall id :: id in rows ==> rows[id].recordId == id && Valid(rows[id].observedAt)
  }

  // ----- insert or replace -----

  function Upserted<P>(rows: Rows<P>, records: seq<SourceRecord<P>>): Rows<P> {
    if records == [] then rows
    else
      var last := records[|records| - 1];
      Upserted(rows, records[..|records| - 1])[last.recordId := last]
  }

  /** After an upsert an id holds the last record of the batch that carries it, or what it held before. */
  lemma {:induction false} UpsertedHolds<P>(rows: Rows<P>, records: seq<SourceRecord<P>>, id: string)
    ensures var r := Upserted(rows, records);
            (exists k :: 0 <= k < |records| && records[k].recordId == id && id in r && r[id] == records[k]
                         && forall j :: k < j < |records| ==> records[j].recordId != id)
            || ((forall k :: 0 <= k < |records| ==> records[k].recordId != id)
                && (id in r <==> id in rows) && (id in rows ==> r[id] == rows[id]))
  {
    if records != [] {
      var n := |records| - 1;
      var front := records[..n];
      UpsertedHolds(rows, front, id);
      if records[n].recordId == id {
        assert 0 <= n < |records|;
      } else if exists k :: 0 <= k < |front| && front[k].recordId == id {
        var k :| 0 <= k < |front| && front[k].recordId == id
                 && id in Upserted(rows, front) && Upserted(rows, front)[id] == front[k]
                 && forall j :: k < j < |front| ==> front[j].recordId != id;
        assert records[k] == front[k];
        forall j | k < j < |records|
          ensures records[j].recordId != id
        {
          assert j < n ==> records[j] == front[j];
        }
      } else {
        forall k | 0 <= k < |records|
          ensures records[k].recordId != id
        {
          assert k < n ==> records[k] == front[k];
        }
      }
    }
  }

  // ----- ordered selection -----

  predicate RowBefore<P>(x: SourceRecord<P>, y: SourceRecord<P>)
    requires Valid(x.observedAt) && Valid(y.observedAt)
  {
    Before(Iso(x.observedAt), Iso(y.observedAt))
    || (Iso(x.observedAt) == Iso(y.observedAt) && Before(x.recordId, y.recordId))
  }

  ghost predicate ValidRows<P>(s: seq<SourceRecord<P>>) {
    forall i :: 0 <= i < |s| ==> Valid(s[i].observedAt)
  }

  ghost predicate InRowOrder<P>(s: seq<SourceRecord<P>>) {
    ValidRows(s) && forall i, j :: 0 <= i < j < |s| ==> RowBefore(s[i], s[j])
  }

  /** The matching rows, each once, ordered by time text and then by id. */
  ghost predicate Selection<P(!new)>(rows: Rows<P>, q: Query, s: seq<SourceRecord<P>>)
    requires Keyed(rows) && ValidQuery(q)
  {
    && InRowOrder(s)
    && forall r :: r in s <==> r.recordId in rows && rows[r.recordId] == r && Matches(q, r)
  }

  /** Ascending by time text, and by id among rows of one time text. */
  ghost predicate ByTimeThenId<P>(s: seq<SourceRecord<P>>)
    requires ValidRows(s)
  {
    forall i, j :: 0 <= i < j < |s| ==>
      var first, second := Iso(s[i].observedAt), Iso(s[j].observedAt);
      Before(first, second) || (first == second && Before(s[i].recordId, s[j].recordId))
  }

  lemma RowOrderIsByTime<P>(s: seq<SourceRecord<P>>)
    requires InRowOrder(s)
    ensures ByTimeThenId(s)
  {
    hide Iso, Before;
  }

  lemma RowBeforeTransitive<P>(x: SourceRecord<P>, y: SourceRecord<P>, z: SourceRecord<P>)
    requires Valid(x.observedAt) && Valid(y.observedAt) && Valid(z.observedAt) && RowBefore(x, y) && RowBefore(y, z)
    ensures RowBefore(x, z)
  {
    hide Iso, Before;
    var a, b, c := Iso(x.observedAt), Iso(y.observedAt), Iso(z.observedAt);
    if Before(a, b) && Before(b, c) {
      Transitive(a, b, c);
    } else if a == b == c {
      Transitive(x.recordId, y.recordId, z.recordId);
    }
  }

  lemma RowBeforeAsymmetric<P>(x: SourceRecord<P>, y: SourceRecord<P>)
    requires Valid(x.observedAt) && Valid(y.observedAt) && RowBefore(x, y)
    ensures !RowBefore(y, x)
  {
    hide Iso, Before;
    var a, b := Iso(x.observedAt), Iso(y.observedAt);
    Irreflexive(a);
    Irreflexive(x.recordId);
    if Before(a, b) && Before(b, a) {
      Transitive(a, b, a);
    } else if Before(x.recordId, y.recordId) && Before(y.recordId, x.recordId) {
      Transitive(x.recordId, y.recordId, x.recordId);
    }
  }

  lemma RowBeforeTotal<P>(x: SourceRecord<P>, y: SourceRecord<P>)
    requires Valid(x.observedAt) && Valid(y.observedAt) && x.recordId != y.recordId
    ensures RowBefore(x, y) || RowBefore(y, x)
  {
    hide Iso, Before;
    Total(Iso(x.observedAt), Iso(y.observedAt));
    Total(x.recordId, y.recordId);
  }

  /** A query has one answer. */
  lemma SelectionUnique<P(!new)>(rows: Rows<P>, q: Query, s: seq<SourceRecord<P>>, t: seq<SourceRecord<P>>)
    requires Keyed(rows) && ValidQuery(q) && Selection(rows, q, s) && Selection(rows, q, t)
    ensures s == t
  {
    hide RowBefore, Matches;
    var less := (x: SourceRecord<P>, y: SourceRecord<P>) =>
      Valid(x.observedAt) && Valid(y.observedAt) && RowBefore(x, y);
    forall x, y | less(x, y)
      ensures !less(y, x)
    {
      RowBeforeAsymmetric(x, y);
    }
    assert forall x :: x in s <==> x in t;
    AscendingUnique(less, s, t);
  }

  class ResearchDataStore<Payload> {
    var rows: Rows<Payload>

    constructor ()
      ensures rows == map[]
    {
      rows := map[];
    }

    method UpsertRecords(records: seq<SourceRecord<Payload>>) returns (count: nat)
      requires Keyed(rows) && ValidRows(records)
      modifies this
      ensures rows == Upserted(old(rows), records) && Keyed(rows) && count == |records|
    {
      for i := 0 to |records|
        invariant rows == Upserted(old(rows), records[..i]) && Keyed(rows)
      {
        assert records[..i + 1][..i] == records[..i];
        rows := rows[records[i].recordId := records[i]];
      }
      assert records[..|records|] == records;
      count := |records|;
    }

    method LoadRecords(q: Query) returns (found: seq<SourceRecord<Payload>>)
      requires Keyed(rows) && ValidQuery(q)
      ensures forall r :: r in found <==> r.recordId in rows && rows[r.recordId] == r && Matches(q, r)
      ensures InRowOrder(found) && ByTimeThenId(found)
    {
      hide ClausesOf, Matches, Holds, RowBefore;
      var clauses := WhereClauses(q);
      forall r: SourceRecord<Payload> | Valid(r.observedAt)
        ensures Matches(q, r) <==> forall c :: c in clauses ==> Holds(c, r)
      {
        ClausesMatch(q, r);
      }
      found := Execute(clauses);
      RowOrderIsByTime(found);
    }

    /** The query engine: any row order will do to visit, each match is put in its place. */
    method Execute(clauses: seq<Clause>) returns (found: seq<SourceRecord<Payload>>)
      requires Keyed(rows)
      ensures forall r :: r in found <==>
                r.recordId in rows && rows[r.recordId] == r && forall c :: c in clauses ==> Holds(c, r)
      ensures InRowOrder(found)
    {
      hide Holds, RowBefore;
      found := [];
      var pending := rows.Keys;
      while pending != {}
        invariant pending <= rows.Keys
        invariant InRowOrder(found)
        invariant forall r :: r in found <==>
                    && r.recordId in rows && r.recordId !in pending && rows[r.recordId] == r
                    && forall c :: c in clauses ==> Holds(c, r)
        decreases pending
      {
        var id :| id in pending;
        pending := pending - {id};
        if forall c :: c in clauses ==> Holds(c, rows[id]) {
          found := PlacedRow(found, rows[id]);
        }
      }
    }
  }

  /** Grows the WHERE clauses one filter at a time. */
  method WhereClauses(q: Query) returns (clauses: seq<Clause>)
    requires ValidQuery(q)
    ensures clauses == ClausesOf(q)
  {
    hide Iso;
    clauses := [];
    if q.recordType.Some? {
      clauses := clauses + [TypeIs(q.recordType.value)];
    }
    if q.source.Some? {
      clauses := clauses + [SourceIs(q.source.value)];
    }
    assert clauses == Fields(q);
    hide Fields;
    if q.start.Some? {
      clauses := clauses + [NotBefore(Iso(q.start.value))];
    }
    assert clauses == Fields(q) + (if q.start.Some? then [NotBefore(Iso(q.start.value))] else []);
    if q.end.Some? {
      clauses := clauses + [EarlierThan(Iso(q.end.value))];
    }
  }

  lemma PlacedInOrder<P>(s: seq<SourceRecord<P>>, i: nat, r: SourceRecord<P>)
    requires InRowOrder(s) && Valid(r.observedAt) && i <= |s|
    requires forall j :: 0 <= j < |s| ==> if j < i then RowBefore(s[j], r) else RowBefore(r, s[j])
    ensures InRowOrder(s[..i] + [r] + s[i..])
  {
    hide RowBefore;
    var t := s[..i] + [r] + s[i..];
    assert forall j :: 0 <= j < |t| ==> t[j] == if j < i then s[j] else if j == i then r else s[j - 1];
  }

  lemma PlacedHolds<P>(s: seq<SourceRecord<P>>, i: nat, r: SourceRecord<P>)
    requires i <= |s|
    ensures forall x :: x in s[..i] + [r] + s[i..] <==> x == r || x in s
  {
    assert s == s[..i] + s[i..];
  }

  /** The rows behind one that does not come before a row come after it. */
  lemma RowsBehind<P>(s: seq<SourceRecord<P>>, i: nat, j: nat, r: SourceRecord<P>)
    requires InRowOrder(s) && Valid(r.observedAt) && i <= j < |s|
    requires s[i].recordId != r.recordId && !RowBefore(s[i], r)
    ensures RowBefore(r, s[j])
  {
    hide RowBefore;
    RowBeforeTotal(s[i], r);
    if i < j {
      RowBeforeTransitive(r, s[i], s[j]);
    }
  }

  /** Puts a row with a new id in its place. */
  method PlacedRow<P>(s: seq<SourceRecord<P>>, r: SourceRecord<P>) returns (t: seq<SourceRecord<P>>)
    requires InRowOrder(s) && Valid(r.observedAt) && forall x :: x in s ==> x.recordId != r.recordId
    ensures InRowOrder(t)
    ensures forall x :: x in t <==> x == r || x in s
  {
    hide RowBefore;
    var i := 0;
    while i < |s| && RowBefore(s[i], r)
      invariant 0 <= i <= |s|
      invariant forall j :: 0 <= j < i ==> RowBefore(s[j], r)
    {
      i := i + 1;
    }
    forall j | i <= j < |s|
      ensures RowBefore(r, s[j])
    {
      RowsBehind(s, i, j, r);
    }
    t := s[..i] + [r] + s[i..];
    PlacedInOrder(s, i, r);
    PlacedHolds(s, i, r);
    hide InRowOrder;
  }

  // ----- filters -----

  /** The records of a list that a condition keeps, in order. */
  ghost function Picked<P>(s: seq<SourceRecord<P>>, keep: SourceRecord<P> -> bool): seq<SourceRecord<P>> {
    if s == [] then []
    else
      var last := s[|s| - 1];
      Picked(s[..|s| - 1], keep) + if keep(last) then [last] else []
  }

  lemma {:induction false} PickedHolds<P>(s: seq<SourceRecord<P>>, keep: SourceRecord<P> -> bool, r: SourceRecord<P>)
    ensures r in Picked(s, keep) <==> r in s && keep(r)
  {
    if s != [] {
      PickedHolds(s[..|s| - 1], keep, r);
      assert s == s[..|s| - 1] + [s[|s| - 1]];
    }
  }

  lemma InOrderGrows<P>(s: seq<SourceRecord<P>>, r: SourceRecord<P>)
    requires InRowOrder(s) && Valid(r.observedAt) && forall x :: x in s ==> Valid(x.observedAt) && RowBefore(x, r)
    ensures InRowOrder(s + [r])
  {
    hide RowBefore;
    assert forall i :: 0 <= i < |s| ==> s[i] in s;
  }

  lemma {:induction false} PickedInOrder<P>(s: seq<SourceRecord<P>>, keep: SourceRecord<P> -> bool)
    requires InRowOrder(s)
    ensures InRowOrder(Picked(s, keep))
  {
    hide RowBefore;
    if s != [] {
      var front, last := s[..|s| - 1], s[|s| - 1];
      PickedInOrder(front, keep);
      var kept := Picked(front, keep);
      forall x | x in kept
        ensures Valid(x.observedAt) && RowBefore(x, last)
      {
        PickedHolds(front, keep, x);
        var i :| 0 <= i < |front| && front[i] == x;
        assert s[i] == x;
      }
      InOrderGrows(kept, last);
    }
  }

  lemma FilterPicks<P(!new)>(
      rows: Rows<P>, q: Query, narrow: Query, keep: SourceRecord<P> -> bool,
      all: seq<SourceRecord<P>>, found: seq<SourceRecord<P>>)
    requires Keyed(rows) && ValidQuery(q) && ValidQuery(narrow)
    requires forall r: SourceRecord<P> :: Valid(r.observedAt) ==> (Matches(narrow, r) <==> Matches(q, r) && keep(r))
    requires Selection(rows, q, all) && Selection(rows, narrow, found)
    ensures found == Picked(all, keep)
  {
    hide Matches, RowBefore;
    PickedInOrder(all, keep);
    hide InRowOrder;
    forall r {
      PickedHolds(all, keep, r);
    }
    SelectionUnique(rows, narrow, found, Picked(all, keep));
  }

  /** Loading with a record type gives, of what loading without one gives, the records of that type in
      the same order. */
  lemma TypeFilterPicks<P(!new)>(
      rows: Rows<P>, q: Query, recordType: string, all: seq<SourceRecord<P>>, found: seq<SourceRecord<P>>)
    requires Keyed(rows) && ValidQuery(q) && q.recordType.None?
    requires Selection(rows, q, all) && Selection(rows, q.(recordType := Some(recordType)), found)
    ensures found == Picked(all, (r: SourceRecord<P>) => r.recordType == recordType)
  {
    hide Selection, Iso, Before, Picked;
    FilterPicks(rows, q, q.(recordType := Some(recordType)),
                (r: SourceRecord<P>) => r.recordType == recordType, all, found);
  }

  /** And likewise for a source. */
  lemma SourceFilterPicks<P(!new)>(
      rows: Rows<P>, q: Query, source: string, all: seq<SourceRecord<P>>, found: seq<SourceRecord<P>>)
    requires Keyed(rows) && ValidQuery(q) && q.source.None?
    requires Selection(rows, q, all) && Selection(rows, q.(source := Some(source)), found)
    ensures found == Picked(all, (r: SourceRecord<P>) => r.source == source)
  {
    hide Selection, Iso, Before, Picked;
    FilterPicks(rows, q, q.(source := Some(source)), (r: SourceRecord<P>) => r.source == source, all, found);
  }

  /** A query without filters loads every row. */
  lemma NoFilterLoadsAll<P(!new)>(rows: Rows<P>, found: seq<SourceRecord<P>>)
    requires Keyed(rows) && Selection(rows, Query(None, None, None, None), found)
    ensures forall id :: id in rows ==> rows[id] in found
    ensures forall r :: r in found ==> r.recordId in rows && rows[r.recordId] == r
  {
    hide InRowOrder;
  }

  // ----- half-open windows -----

  /** Within the window by time. */
  ghost predicate Within<P>(r: SourceRecord<P>, start: Option<DateTime>, end: Option<DateTime>) {
    && (start.Some? ==> Instant(start.value) <= Instant(r.observedAt))
    && (end.Some? ==> Instant(r.observedAt) < Instant(end.value))
  }

  ghost predicate At(t: Option<DateTime>, offset: Option<int>) {
    t.Some? ==> Valid(t.value) && t.value.offset == offset
  }

  /** For rows at one offset and bounds at two, a window holds the rows of its time, from its start
      up to and not including its end. */
  ghost predicate WindowsAreTime<P(!new)>(row: Option<int>, startAt: Option<int>, endAt: Option<int>) {
    forall r: SourceRecord<P>, start, end ::
      Valid(r.observedAt) && r.observedAt.offset == row && At(start, startAt) && At(end, endAt) ==>
      (Matches(Query(None, None, start, end), r) <==> Within(r, start, end))
  }

  /** Windows hold the rows of their time exactly when the offset of the rows agrees with that of each bound. */
  lemma WindowIsHalfOpen<P(!new)>(
      payload: P, row: Option<int>, startAt: Option<int>, endAt: Option<int>)
    requires ValidOffset(row) && ValidOffset(startAt) && ValidOffset(endAt)
    ensures WindowsAreTime<P>(row, startAt, endAt) <==> OffsetsAgree(row, startAt) && OffsetsAgree(row, endAt)
  {
    hide WindowsAreTime, OffsetsAgree, Instant, Iso, Before;
    if !OffsetsAgree(row, startAt) {
      var a, b := DisagreeingPair(row, startAt);
      StartMisses(SourceRecord("", "", "", a, payload), b, endAt);
    } else if !OffsetsAgree(row, endAt) {
      var a, b := DisagreeingPair(row, endAt);
      EndMisses(SourceRecord("", "", "", a, payload), startAt, b);
    } else {
      AgreeingWindows<P>(row, startAt, endAt);
    }
  }

  lemma StartMisses<P(!new)>(r: SourceRecord<P>, start: DateTime, endAt: Option<int>)
    requires Valid(r.observedAt) && Valid(start)
    requires !(Before(Iso(r.observedAt), Iso(start)) <==> Instant(r.observedAt) < Instant(start))
    ensures !WindowsAreTime<P>(r.observedAt.offset, start.offset, endAt)
  {
    hide Iso, Before, Instant;
    assert !(Matches(Query(None, None, Some(start), None), r) <==> Within(r, Some(start), None));
  }

  lemma EndMisses<P(!new)>(r: SourceRecord<P>, startAt: Option<int>, end: DateTime)
    requires Valid(r.observedAt) && Valid(end)
    requires !(Before(Iso(r.observedAt), Iso(end)) <==> Instant(r.observedAt) < Instant(end))
    ensures !WindowsAreTime<P>(r.observedAt.offset, startAt, end.offset)
  {
    hide Iso, Before, Instant;
    assert !(Matches(Query(None, None, None, Some(end)), r) <==> Within(r, None, Some(end)));
  }

  lemma AgreeingWindows<P(!new)>(row: Option<int>, startAt: Option<int>, endAt: Option<int>)
    requires ValidOffset(row) && ValidOffset(startAt) && ValidOffset(endAt)
    requires OffsetsAgree(row, startAt) && OffsetsAgree(row, endAt)
    ensures WindowsAreTime<P>(row, startAt, endAt)
  {
    TextIsTimeExactly(row, startAt);
    TextIsTimeExactly(row, endAt);
    hide OffsetsAgree, Instant, Iso, Before;
  }

  /** Naive bounds, which count as UTC, cut rows at UTC by time; bounds at UTC cut naive rows wrongly,
      and no bound at another offset of whole seconds cuts them rightly. */
  lemma WholeSecondWindows<P(!new)>(payload: P, row: Option<int>, bound: Option<int>)
    requires ValidOffset(row) && ValidOffset(bound)
    requires WholeSeconds(row) && WholeSeconds(bound)
    ensures WindowsAreTime<P>(row, bound, bound) <==> row == bound || (row == Some(0) && bound == None)
  {
    WindowIsHalfOpen(payload, row, bound, bound);
    WholeSecondOffsetsAgree(row, bound);
    hide WindowsAreTime, OffsetsAgree;
  }

  /** The texts of the bounds ascend. */
  ghost predicate AscendingBounds(a: DateTime, b: DateTime, c: DateTime) {
    Valid(a) && Valid(b) && Valid(c) && !Before(Iso(b), Iso(a)) && !Before(Iso(c), Iso(b))
  }

  lemma WindowsMeet<P>(q: Query, r: SourceRecord<P>, a: DateTime, b: DateTime, c: DateTime)
    requires ValidQuery(q) && Valid(r.observedAt) && AscendingBounds(a, b, c)
    ensures Matches(q.(start := Some(a), end := Some(c)), r)
        <==> Matches(q.(start := Some(a), end := Some(b)), r) || Matches(q.(start := Some(b), end := Some(c)), r)
  {
    hide Iso, Before;
    var t, x, y, z := Iso(r.observedAt), Iso(a), Iso(b), Iso(c);
    Total(x, y);
    Total(y, z);
    if Before(t, x) && Before(x, y) {
      Transitive(t, x, y);
    }
    if Before(t, y) && Before(y, z) {
      Transitive(t, y, z);
    }
  }

  /** Rows whose texts lie below a bound, followed by rows whose texts do not, are in order. */
  lemma JoinedInOrder<P>(first: seq<SourceRecord<P>>, second: seq<SourceRecord<P>>, b: DateTime)
    requires InRowOrder(first) && InRowOrder(second) && Valid(b)
    requires forall i :: 0 <= i < |first| ==> Before(Iso(first[i].observedAt), Iso(b))
    requires forall j :: 0 <= j < |second| ==> !Before(Iso(second[j].observedAt), Iso(b))
    ensures InRowOrder(first + second)
  {
    hide RowBefore, Iso, Before;
    forall i, j | 0 <= i < |first| && 0 <= j < |second|
      ensures RowBefore(first[i], second[j])
    {
      FirstBelowSecond(first[i], second[j], b);
    }
    var whole := first + second;
    assert forall k :: 0 <= k < |whole| ==> whole[k] == if k < |first| then first[k] else second[k - |first|];
  }

  lemma FirstBelowSecond<P>(x: SourceRecord<P>, y: SourceRecord<P>, b: DateTime)
    requires Valid(x.observedAt) && Valid(y.observedAt) && Valid(b)
    requires Before(Iso(x.observedAt), Iso(b)) && !Before(Iso(y.observedAt), Iso(b))
    ensures RowBefore(x, y)
  {
    hide Iso, Before;
    Total(Iso(y.observedAt), Iso(b));
    if Before(Iso(b), Iso(y.observedAt)) {
      Transitive(Iso(x.observedAt), Iso(b), Iso(y.observedAt));
    }
  }

  lemma JoinedHolds<P(!new)>(
      rows: Rows<P>, q: Query, a: DateTime, b: DateTime, c: DateTime,
      first: seq<SourceRecord<P>>, second: seq<SourceRecord<P>>, r: SourceRecord<P>)
    requires Keyed(rows) && ValidQuery(q) && AscendingBounds(a, b, c)
    requires Selection(rows, q.(start := Some(a), end := Some(b)), first)
    requires Selection(rows, q.(start := Some(b), end := Some(c)), second)
    ensures r in first + second <==>
            r.recordId in rows && rows[r.recordId] == r && Matches(q.(start := Some(a), end := Some(c)), r)
  {
    hide Matches, InRowOrder;
    if r.recordId in rows && rows[r.recordId] == r {
      WindowsMeet(q, r, a, b, c);
    }
  }

  lemma JoinedSelection<P(!new)>(
      rows: Rows<P>, q: Query, a: DateTime, b: DateTime, c: DateTime,
      first: seq<SourceRecord<P>>, second: seq<SourceRecord<P>>)
    requires Keyed(rows) && ValidQuery(q) && AscendingBounds(a, b, c)
    requires Selection(rows, q.(start := Some(a), end := Some(b)), first)
    requires Selection(rows, q.(start := Some(b), end := Some(c)), second)
    ensures Selection(rows, q.(start := Some(a), end := Some(c)), first + second)
  {
    hide Iso, Before, RowBefore;
    assert forall i :: 0 <= i < |first| ==> first[i] in first;
    assert forall j :: 0 <= j < |second| ==> second[j] in second;
    JoinedInOrder(first, second, b);
    hide Matches, InRowOrder, AscendingBounds;
    forall r {
      JoinedHolds(rows, q, a, b, c, first, second, r);
    }
  }

  /** Loading [a, c) gives what loading [a, b) gives followed by what loading [b, c) gives, whatever
      the offsets of rows and bounds, as long as the texts of the bounds ascend. */
  lemma WindowsConcatenate<P(!new)>(
      rows: Rows<P>, q: Query, a: DateTime, b: DateTime, c: DateTime,
      first: seq<SourceRecord<P>>, second: seq<SourceRecord<P>>, whole: seq<SourceRecord<P>>)
    requires Keyed(rows) && ValidQuery(q) && AscendingBounds(a, b, c)
    requires Selection(rows, q.(start := Some(a), end := Some(b)), first)
    requires Selection(rows, q.(start := Some(b), end := Some(c)), second)
    requires Selection(rows, q.(start := Some(a), end := Some(c)), whole)
    ensures whole == first + second
  {
    hide Selection;
    JoinedSelection(rows, q, a, b, c, first, second);
    SelectionUnique(rows, q.(start := Some(a), end := Some(c)), whole, first + second);
  }
}
