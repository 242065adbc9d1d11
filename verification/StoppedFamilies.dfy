/** Degraded strategy families, remembered in a memory store that every operation loads and rewrites. */
module StoppedFamilies {
  import opened Common
  import opened TextLines
  import opened RecordLists
  import opened MemoryStores
  import opened Dedupes
  import TextOrder

  /** Lower-casing is a parameter; all that matters here is that it leaves the word itself alone. */
  ghost predicate LowersMarker(lower: string -> string) {
    lower("degraded") == "degraded"
  }

  predicate IsMarker(text: string) {
    || text == "degraded" || text == "degraded_expectancy" || text == "fee_killed_edge"
    || text == "slippage_killed_edge" || text == "insufficient_evidence_progress" || text == "drawdown_breach"
    || text == "too_many_blocked_runs" || text == "negative_expectancy"
  }

  predicate HasDegradedMarker(lower: string -> string, r: MemoryRecord) {
    exists token :: token in r.content.tags + r.content.rejectedReasons
                    && Strip(token) != "" && IsMarker(lower(Strip(token)))
  }

  function FamilyIn(payloads: seq<Option<Payload>>): Option<string> {
    if payloads == [] then None
    else
      match payloads[0]
      case Some(p) =>
        if "strategy_family" in p && p["strategy_family"].Text? && Strip(p["strategy_family"].text) != ""
        then Some(Strip(p["strategy_family"].text))
        else FamilyIn(payloads[1..])
      case None => FamilyIn(payloads[1..])
  }

  /** The first payload that names a family decides. */
  function FamilyOf(r: MemoryRecord): Option<string> {
    var x := r.content;
    FamilyIn([x.opportunity, x.hypothesis, x.score, x.backtestArtifacts, x.paperTradeOutcome])
  }

  predicate Stops(lower: string -> string, r: MemoryRecord, family: string) {
    HasDegradedMarker(lower, r) && FamilyOf(r) == Some(family)
  }

  ghost predicate StoppedIn(lower: string -> string, rs: seq<MemoryRecord>, family: string) {
    exists r :: r in rs && Stops(lower, r, family)
  }

  ghost predicate Stopped(c: Codec, d: nat, lower: string -> string, file: Option<string>, family: string) {
    StoppedIn(lower, Load(c, d, file).records, family)
  }

  lemma StoppedByOneMore(lower: string -> string, rs: seq<MemoryRecord>, r: MemoryRecord, family: string)
    ensures StoppedIn(lower, rs + [r], family) <==> StoppedIn(lower, rs, family) || Stops(lower, r, family)
  {
    hide Stops;
    if StoppedIn(lower, rs, family) {
      var x :| x in rs && Stops(lower, x, family);
      assert x in rs + [r];
    }
    if Stops(lower, r, family) {
      assert r in rs + [r];
    }
  }

  method FamiliesIn(lower: string -> string, records: seq<MemoryRecord>) returns (found: set<string>)
    ensures forall family :: family in found <==> StoppedIn(lower, records, family)
  {
    hide HasDegradedMarker, FamilyOf, StoppedIn;
    found := {};
    StoppedByNothing(lower);
    for i := 0 to |records|
      invariant forall f :: f in found <==> StoppedIn(lower, records[..i], f)
    {
      var r := records[i];
      assert records[..i + 1] == records[..i] + [r];
      forall f {
        StoppedByOneMore(lower, records[..i], r, f);
      }
      if HasDegradedMarker(lower, r) && FamilyOf(r).Some? {
        found := found + {FamilyOf(r).value};
      }
    }
    assert records[..|records|] == records;
  }

  /** A memory path, with or without a file there, or none at all. */
  datatype Memory = NoPath | At(file: Option<string>)

  method LoadStoppedStrategyFamilies(c: Codec, d: nat, lower: string -> string, memory: Memory)
    returns (families: seq<string>)
    ensures TextOrder.Ascending(TextOrder.Before, families)
    ensures memory.NoPath? ==> families == []
    ensures memory.At? ==> forall family :: family in families <==> Stopped(c, d, lower, memory.file, family)
  {
    if memory.NoPath? || memory.file.None? {
      StoppedByNothing(lower);
      return [];
    }
    var store := new MemoryStore(c, d, memory.file);
    var found := FamiliesIn(lower, store.records);
    hide Load, StoppedIn;
    families := TextOrder.Sorted(found);
  }

  lemma StoppedByNothing(lower: string -> string)
    ensures forall f :: !StoppedIn(lower, [], f)
  {}

  // ----- records that the operations write -----

  function StripAll(texts: seq<string>): seq<string> {
    if texts == [] then []
    else
      var last := Strip(texts[|texts| - 1]);
      StripAll(texts[..|texts| - 1]) + if last == "" then [] else [last]
  }

  function Reasons(codes: seq<string>): seq<string> {
    var reasons := Dedupe(StripAll(codes));
    if reasons == [] then ["degraded"] else reasons
  }

  const MARK_PREFIX := "degraded:"

  function MarkRecord(family: string, codes: seq<string>): MemoryRecord {
    var reasons := Reasons(codes);
    Entry(MARK_PREFIX + family,
          Content(None, None, Some(map["strategy_family" := Text(family)]),
                  Some(map["decision" := Text("strategy_family_degraded"), "reason_codes" := Texts(reasons)]),
                  Some(map["degraded" := Flag(true), "reason_codes" := Texts(reasons)]),
                  reasons, None, None, Dedupe([family, "degraded"] + reasons), []))
  }

  const OVERRIDE_USED := "stopped_family_override_used"

  function OverrideRecord(family: string, command: string, runId: string): MemoryRecord {
    Entry("stopped-family-override:" + command + ":" + runId + ":" + family,
          Content(None, None,
                  Some(map["strategy_family" := Text(family), "run_id" := Text(runId), "command" := Text(command),
                           "uses_real_capital" := Flag(false), "live_order_routing" := Flag(false)]),
                  Some(map["decision" := Text(OVERRIDE_USED), "reason_codes" := Texts([OVERRIDE_USED])]),
                  Some(map["override_used" := Flag(true), "reason_codes" := Texts([OVERRIDE_USED])]),
                  [], None, None, Dedupe([family, OVERRIDE_USED, "stopped-family-override"]), []))
  }

  const CANDIDATE_PREFIX := "candidate-state:"

  predicate IsCandidate(r: MemoryRecord) {
    CANDIDATE_PREFIX <= r.id
  }

  /** A candidate's record keeps the creation time of the record it replaces. */
  function CandidateRecord(rs: seq<MemoryRecord>, entry: Entry<Content>): MemoryRecord {
    var id := CANDIDATE_PREFIX + entry.id;
    var created := if id in View(rs) then View(rs)[id].content.createdAt else None;
    Entry(id, if created.Some? && created.value != "" then entry.content.(createdAt := created) else entry.content)
  }

  function CandidateRecords(rs: seq<MemoryRecord>, entries: seq<Entry<Content>>): (news: seq<MemoryRecord>)
    ensures forall k :: 0 <= k < |news| ==> IsCandidate(news[k])
  {
    if entries == [] then []
    else CandidateRecords(rs, entries[..|entries| - 1]) + [CandidateRecord(rs, entries[|entries| - 1])]
  }

  // ----- the operations -----

  datatype OpError = BlankFamily | Disk

  method Upsert(c: Codec, d: nat, r: MemoryRecord, file: Option<string>, now: Clock, diskWorks: bool)
    returns (result: Result<MemoryRecord, OpError>, after: Option<string>)
    ensures diskWorks ==> result == Success(Prepared(c, d, r, now)) && after == Upserted(c, d, file, r, now)
    ensures !diskWorks ==> result == Failure(Disk) && after == file
  {
    var store := new MemoryStore(c, d, file);
    var stored := store.Append(r, now, diskWorks);
    after := store.file;
    result := if stored.Success? then Success(stored.value) else Failure(Disk);
  }

  function UpsertedRecords(c: Codec, d: nat, file: Option<string>, r: MemoryRecord, now: Clock): seq<MemoryRecord> {
    Put(Load(c, d, file).records, Prepared(c, d, r, now))
  }

  function Upserted(c: Codec, d: nat, file: Option<string>, r: MemoryRecord, now: Clock): Option<string> {
    Some(FileText(c, UpsertedRecords(c, d, file, r, now)))
  }

  function WithCandidates(
      c: Codec, d: nat, file: Option<string>, entries: seq<Entry<Content>>, now: Clock): seq<MemoryRecord>
  {
    var rs := Load(c, d, file).records;
    Replaced(rs, IsCandidate, PreparedAll(c, d, CandidateRecords(rs, entries), now))
  }

  /** Without a memory path the mark is only built. */
  method MarkFamilyDegraded(
      c: Codec, d: nat, family: string, codes: seq<string>, memory: Memory, now: Clock, diskWorks: bool)
    returns (result: Result<MemoryRecord, OpError>, after: Memory)
    ensures Strip(family) == "" ==> result == Failure(BlankFamily) && after == memory
    ensures Strip(family) != "" && memory.NoPath? ==>
              result == Success(MarkRecord(Strip(family), codes)) && after == NoPath
    ensures Strip(family) != "" && memory.At? ==>
              if diskWorks then
                && after == At(Upserted(c, d, memory.file, MarkRecord(Strip(family), codes), now))
                && result == Success(Prepared(c, d, MarkRecord(Strip(family), codes), now))
              else result == Failure(Disk) && after == memory
  {
    var name := Strip(family);
    if name == "" {
      return Failure(BlankFamily), memory;
    }
    if memory.NoPath? {
      return Success(MarkRecord(name, codes)), memory;
    }
    var file;
    result, file := Upsert(c, d, MarkRecord(name, codes), memory.file, now, diskWorks);
    after := At(file);
  }

  method RecordStoppedFamilyOverrideUsed(
      c: Codec, d: nat, family: string, command: string, runId: string, file: Option<string>, now: Clock,
      diskWorks: bool)
    returns (result: Result<MemoryRecord, OpError>, after: Option<string>)
    ensures Strip(family) == "" ==> result == Failure(BlankFamily)
    ensures Strip(family) == "" || !diskWorks ==> result.Failure? && after == file
    ensures Strip(family) != "" && diskWorks ==>
              && after == Upserted(c, d, file, OverrideRecord(Strip(family), command, runId), now)
              && result == Success(Prepared(c, d, OverrideRecord(Strip(family), command, runId), now))
  {
    var name := Strip(family);
    if name == "" {
      return Failure(BlankFamily), file;
    }
    result, after := Upsert(c, d, OverrideRecord(name, command, runId), file, now, diskWorks);
  }

  method PersistCandidateStateMemory(
      c: Codec, d: nat, entries: seq<Entry<Content>>, file: Option<string>, now: Clock, diskWorks: bool)
    returns (result: Result<seq<MemoryRecord>, OpError>, after: Option<string>)
    ensures entries == [] ==> result == Success([]) && after == file
    ensures entries != [] && diskWorks ==>
              result.Success? && after == Some(FileText(c, WithCandidates(c, d, file, entries, now)))
    ensures entries != [] && !diskWorks ==> result == Failure(Disk) && after == file
  {
    if entries == [] {
      return Success([]), file;
    }
    var store := new MemoryStore(c, d, file);
    var stored := store.ReplaceMatching(IsCandidate, CandidateRecords(store.records, entries), now, diskWorks);
    after := store.file;
    result := if stored.Success? then Success(stored.value) else Failure(Disk);
  }

  // ----- what stays stopped -----

  datatype Op =
    | Mark(family: string, codes: seq<string>, now: Clock)
    | Override(family: string, command: string, runId: string, now: Clock)
    | Candidates(entries: seq<Entry<Content>>, now: Clock)

  /** The records an operation writes, if it writes. */
  ghost function Written(c: Codec, d: nat, file: Option<string>, op: Op): Option<seq<MemoryRecord>> {
    match op
    case Mark(family, codes, now) =>
      if Strip(family) == "" then None else Some(UpsertedRecords(c, d, file, MarkRecord(Strip(family), codes), now))
    case Override(family, command, runId, now) =>
      if Strip(family) == "" then None
      else Some(UpsertedRecords(c, d, file, OverrideRecord(Strip(family), command, runId), now))
    case Candidates(entries, now) => if entries == [] then None else Some(WithCandidates(c, d, file, entries, now))
  }

  ghost function After(c: Codec, d: nat, file: Option<string>, op: Op): Option<string> {
    var written := Written(c, d, file, op);
    if written.None? then file else Some(FileText(c, written.value))
  }

  ghost function Run(c: Codec, d: nat, file: Option<string>, ops: seq<Op>): Option<string> {
    if ops == [] then file else After(c, d, Run(c, d, file, ops[..|ops| - 1]), ops[|ops| - 1])
  }

  /** The assumption on printing, for the records the operation writes. */
  ghost predicate WritesWell(c: Codec, d: nat, file: Option<string>, op: Op) {
    var written := Written(c, d, file, op);
    written.Some? ==> Lawful(c, d, written.value)
  }

  ghost predicate RunWritesWell(c: Codec, d: nat, file: Option<string>, ops: seq<Op>) {
    ops == [] || (RunWritesWell(c, d, file, ops[..|ops| - 1])
                  && WritesWell(c, d, Run(c, d, file, ops[..|ops| - 1]), ops[|ops| - 1]))
  }

  /** The operation marks the family. */
  predicate Marks(op: Op, family: string) {
    op.Mark? && Strip(op.family) == family
  }

  /** The record a marking operation stores. */
  function MarkStored(c: Codec, d: nat, op: Op): MemoryRecord
    requires op.Mark?
  {
    Prepared(c, d, MarkRecord(Strip(op.family), op.codes), op.now)
  }

  ghost predicate IsMark(lower: string -> string, r: MemoryRecord, family: string) {
    r.id == MARK_PREFIX + family && Stops(lower, r, family)
  }

  /** The file holds a mark of the family that survives a reload. */
  ghost predicate HoldsMark(c: Codec, d: nat, lower: string -> string, file: Option<string>, family: string) {
    exists r :: r in Load(c, d, file).records && IsMark(lower, r, family) && Clean(c, r)
  }

  lemma MarkStops(lower: string -> string, family: string, codes: seq<string>, c: Codec, d: nat, now: Clock)
    requires LowersMarker(lower) && Strip(family) == family != ""
    ensures IsMark(lower, Prepared(c, d, MarkRecord(family, codes), now), family)
  {
    var r := Prepared(c, d, MarkRecord(family, codes), now);
    TaggedDegraded(family, Reasons(codes));
    hide Reasons, Dedupe, Strip, Stops;
    assert r.content.tags == MarkRecord(family, codes).content.tags;
    DegradedIsMarker(lower);
    hide IsMarker;
    MarkHasMarker(lower, r, "degraded");
    MarkNamesFamily(family, r);
    MarkStopsBoth(lower, family, r);
  }

  lemma MarkStopsBoth(lower: string -> string, family: string, r: MemoryRecord)
    requires HasDegradedMarker(lower, r) && FamilyOf(r) == Some(family)
    ensures Stops(lower, r, family)
  {
    hide HasDegradedMarker, FamilyOf;
  }

  lemma TaggedDegraded(family: string, reasons: seq<string>)
    ensures "degraded" in Dedupe([family, "degraded"] + reasons)
  {
    var tags := [family, "degraded"] + reasons;
    DedupeContents(tags);
    assert tags[1] == "degraded";
    assert tags[1] in tags;
  }

  lemma DegradedIsMarker(lower: string -> string)
    requires LowersMarker(lower)
    ensures Strip("degraded") == "degraded" && IsMarker(lower("degraded"))
  {
    StripNothing("degraded");
    hide Strip;
  }

  lemma MarkHasMarker(lower: string -> string, r: MemoryRecord, token: string)
    requires token in r.content.tags && Strip(token) == token != "" && IsMarker(lower(token))
    ensures HasDegradedMarker(lower, r)
  {
    hide Strip, IsMarker;
    assert token in r.content.tags + r.content.rejectedReasons;
  }

  lemma MarkNamesFamily(family: string, r: MemoryRecord)
    requires Strip(family) == family != "" && r.content.opportunity == Some(map["strategy_family" := Text(family)])
    ensures FamilyOf(r) == Some(family)
  {
    hide Strip;
    var x := r.content;
    var payloads := [x.opportunity, x.hypothesis, x.score, x.backtestArtifacts, x.paperTradeOutcome];
    assert payloads[0] == x.opportunity;
  }

  lemma PutMembers(rs: seq<MemoryRecord>, x: MemoryRecord, r: MemoryRecord)
    ensures x in Put(rs, x)
    ensures r.id != x.id ==> (r in Put(rs, x) <==> r in rs)
    ensures NoDuplicates(rs) && r.id == x.id ==> (r in Put(rs, x) <==> r == x)
  {
    IndexIsLast(rs, x.id);
    hide IndexOf;
    var ps := Put(rs, x);
    if x.id in IndexOf(rs) {
      var k := IndexOf(rs)[x.id];
      assert ps[k] == x;
      assert forall j :: 0 <= j < |rs| && j != k ==> ps[j] == rs[j];
      if r in rs && r.id != x.id {
        var j :| 0 <= j < |rs| && rs[j] == r;
        assert ps[j] == r;
      }
    }
  }

  lemma {:induction false} PutAllMembers(rs: seq<MemoryRecord>, news: seq<MemoryRecord>, r: MemoryRecord)
    requires forall x :: x in news ==> x.id != r.id
    ensures r in PutAll(rs, news) <==> r in rs
  {
    hide Put;
    if news != [] {
      var front, last := news[..|news| - 1], news[|news| - 1];
      assert news == front + [last];
      PutAllMembers(rs, front, r);
      PutMembers(PutAll(rs, front), last, r);
    }
  }

  /** After a write, the store loads the clean ones among the records written. */
  lemma LoadedAfter(c: Codec, d: nat, rs: seq<MemoryRecord>, r: MemoryRecord)
    requires Lawful(c, d, rs)
    ensures r in Load(c, d, Some(FileText(c, rs))).records <==> r in rs && Clean(c, r)
  {
    hide Clean, Lawful, Load, FileText;
    ReloadKeepsClean(c, d, rs);
    CleanOnesContents(c, rs);
  }

  lemma UpsertLeaves(c: Codec, d: nat, file: Option<string>, x: MemoryRecord, now: Clock, r: MemoryRecord)
    requires Lawful(c, d, UpsertedRecords(c, d, file, x, now)) && x.id != r.id
    ensures r in Load(c, d, Upserted(c, d, file, x, now)).records <==> r in Load(c, d, file).records && Clean(c, r)
  {
    hide Clean, Lawful, Load, FileText, Put;
    LoadedAfter(c, d, UpsertedRecords(c, d, file, x, now), r);
    PutMembers(Load(c, d, file).records, Prepared(c, d, x, now), r);
  }

  lemma CandidatesLeave(
      c: Codec, d: nat, file: Option<string>, entries: seq<Entry<Content>>, now: Clock, r: MemoryRecord)
    requires Lawful(c, d, WithCandidates(c, d, file, entries, now)) && !IsCandidate(r)
    ensures r in Load(c, d, Some(FileText(c, WithCandidates(c, d, file, entries, now)))).records
        <==> r in Load(c, d, file).records && Clean(c, r)
  {
    hide Clean, Lawful, Load, FileText, PutAll, Kept, PreparedAll, CandidateRecords, IsCandidate;
    var rs := Load(c, d, file).records;
    LoadedAfter(c, d, WithCandidates(c, d, file, entries, now), r);
    CandidatesAreOthers(c, d, CandidateRecords(rs, entries), now, r);
    KeptContents(rs, IsCandidate);
    PutAllMembers(Kept(rs, IsCandidate), PreparedAll(c, d, CandidateRecords(rs, entries), now), r);
  }

  lemma CandidatesAreOthers(c: Codec, d: nat, rs: seq<MemoryRecord>, now: Clock, r: MemoryRecord)
    requires !IsCandidate(r) && forall k :: 0 <= k < |rs| ==> IsCandidate(rs[k])
    ensures forall x :: x in PreparedAll(c, d, rs, now) ==> x.id != r.id
  {
    var news := PreparedAll(c, d, rs, now);
    forall x | x in news
      ensures x.id != r.id
    {
      var k :| 0 <= k < |news| && news[k] == x;
      assert IsCandidate(rs[k]);
    }
  }

  lemma MarkIsNoCandidate(family: string, r: MemoryRecord)
    requires r.id == MARK_PREFIX + family
    ensures !IsCandidate(r)
  {
    assert r.id[0] == 'd';
  }

  lemma MarkIdsDiffer(name: string, family: string)
    ensures MARK_PREFIX + name == MARK_PREFIX + family <==> name == family
  {
    assert (MARK_PREFIX + name)[|MARK_PREFIX|..] == name;
    assert (MARK_PREFIX + family)[|MARK_PREFIX|..] == family;
  }

  lemma OverrideIsNoMark(name: string, command: string, runId: string, family: string)
    ensures OverrideRecord(name, command, runId).id != MARK_PREFIX + family
  {
    assert OverrideRecord(name, command, runId).id[0] == 's';
    assert (MARK_PREFIX + family)[0] == 'd';
  }

  /** An operation that does not mark the family leaves a record under the id of its mark in the
      store, if the record is clean, and adds none there. */
  lemma OthersLeaveMark(c: Codec, d: nat, file: Option<string>, op: Op, family: string, r: MemoryRecord)
    requires WritesWell(c, d, file, op) && !Marks(op, family) && r.id == MARK_PREFIX + family && Clean(c, r)
    ensures r in Load(c, d, After(c, d, file, op)).records <==> r in Load(c, d, file).records
  {
    hide Strip, Load, Clean, Lawful, WithCandidates, UpsertedRecords, FileText;
    match op
    case Mark(name, codes, now) =>
      if Strip(name) != "" {
        MarkIdsDiffer(Strip(name), family);
        UpsertLeaves(c, d, file, MarkRecord(Strip(name), codes), now, r);
      }
    case Override(name, command, runId, now) =>
      if Strip(name) != "" {
        OverrideIsNoMark(Strip(name), command, runId, family);
        UpsertLeaves(c, d, file, OverrideRecord(Strip(name), command, runId), now, r);
      }
    case Candidates(entries, now) =>
      if entries != [] {
        MarkIsNoCandidate(family, r);
        CandidatesLeave(c, d, file, entries, now, r);
      }
  }

  lemma OthersKeepMark(c: Codec, d: nat, lower: string -> string, file: Option<string>, op: Op, family: string)
    requires WritesWell(c, d, file, op) && !Marks(op, family)
    ensures HoldsMark(c, d, lower, After(c, d, file, op), family) <==> HoldsMark(c, d, lower, file, family)
  {
    hide Load, Clean, Stops, After, Marks, WritesWell;
    forall r | IsMark(lower, r, family) && Clean(c, r)
      ensures r in Load(c, d, After(c, d, file, op)).records <==> r in Load(c, d, file).records
    {
      OthersLeaveMark(c, d, file, op, family, r);
    }
  }

  /** A marking operation stores its record, if that is clean, beside the clean records under other ids. */
  lemma MarkingStores(c: Codec, d: nat, file: Option<string>, mark: Op, r: MemoryRecord)
    requires mark.Mark? && Strip(mark.family) != "" && WritesWell(c, d, file, mark)
    ensures MarkStored(c, d, mark) in Load(c, d, After(c, d, file, mark)).records <==> Clean(c, MarkStored(c, d, mark))
    ensures NoDuplicates(Load(c, d, file).records) && r != MarkStored(c, d, mark) ==>
              (r in Load(c, d, After(c, d, file, mark)).records
               <==> r in Load(c, d, file).records && r.id != MARK_PREFIX + Strip(mark.family) && Clean(c, r))
  {
    hide Strip, Load, Clean, Lawful, FileText, Put, NoDuplicates;
    var rs, stored := Load(c, d, file).records, MarkStored(c, d, mark);
    assert Written(c, d, file, mark) == Some(Put(rs, stored));
    LoadedAfter(c, d, Put(rs, stored), stored);
    LoadedAfter(c, d, Put(rs, stored), r);
    PutMembers(rs, stored, r);
  }

  /** In a store without duplicate ids, a mark is held after marking exactly when it prints on one
      line, whatever the store held for the family before. */
  lemma MarkHeld(c: Codec, d: nat, lower: string -> string, file: Option<string>, mark: Op)
    requires LowersMarker(lower) && mark.Mark? && Strip(mark.family) != "" && WritesWell(c, d, file, mark)
    ensures Clean(c, MarkStored(c, d, mark)) ==> HoldsMark(c, d, lower, After(c, d, file, mark), Strip(mark.family))
    ensures NoDuplicates(Load(c, d, file).records) ==>
              (HoldsMark(c, d, lower, After(c, d, file, mark), Strip(mark.family))
               <==> Clean(c, MarkStored(c, d, mark)))
  {
    hide Strip, Load, Clean, After, WritesWell, Stops, NoDuplicates, MarkStored, LowersMarker;
    var family, stored := Strip(mark.family), MarkStored(c, d, mark);
    StoredIsMark(c, d, lower, mark);
    MarkingStores(c, d, file, mark, stored);
    if NoDuplicates(Load(c, d, file).records) && HoldsMark(c, d, lower, After(c, d, file, mark), family) {
      var r :| r in Load(c, d, After(c, d, file, mark)).records && IsMark(lower, r, family) && Clean(c, r);
      MarkingStores(c, d, file, mark, r);
    }
  }

  lemma StoredIsMark(c: Codec, d: nat, lower: string -> string, mark: Op)
    requires LowersMarker(lower) && mark.Mark? && Strip(mark.family) != ""
    ensures IsMark(lower, MarkStored(c, d, mark), Strip(mark.family))
  {
    hide Strip, MarkRecord, IsMark;
    StripTwice(mark.family);
    MarkStops(lower, Strip(mark.family), mark.codes, c, d, mark.now);
  }

  /** Once a family has been marked degraded, it stays stopped through any later marks, overrides and
      candidate replacements, each of which loads and rewrites the store, as long as the marks of
      this family print on one line. The store may hold duplicate ids. */
  lemma {:induction false} DegradedFamilyStaysStopped(
      c: Codec, d: nat, lower: string -> string, file: Option<string>, first: Op, later: seq<Op>)
    requires LowersMarker(lower) && first.Mark? && Strip(first.family) != ""
    requires WritesWell(c, d, file, first) && RunWritesWell(c, d, After(c, d, file, first), later)
    requires Clean(c, MarkStored(c, d, first))
    requires forall op :: op in later && Marks(op, Strip(first.family)) ==> Clean(c, MarkStored(c, d, op))
    ensures HoldsMark(c, d, lower, Run(c, d, After(c, d, file, first), later), Strip(first.family))
    ensures Stopped(c, d, lower, Run(c, d, After(c, d, file, first), later), Strip(first.family))
  {
    hide Load, Strip, Clean, After, WritesWell, MarkStored, Stops, LowersMarker;
    if later == [] {
      MarkHeld(c, d, lower, file, first);
    } else {
      var front, last := later[..|later| - 1], later[|later| - 1];
      assert later == front + [last];
      DegradedFamilyStaysStopped(c, d, lower, file, first, front);
      var before := Run(c, d, After(c, d, file, first), front);
      if Marks(last, Strip(first.family)) {
        MarkHeld(c, d, lower, before, last);
      } else {
        OthersKeepMark(c, d, lower, before, last, Strip(first.family));
      }
    }
  }

  lemma UpsertNoDuplicates(c: Codec, d: nat, file: Option<string>, x: MemoryRecord, now: Clock)
    requires NoDuplicates(Load(c, d, file).records)
    ensures NoDuplicates(UpsertedRecords(c, d, file, x, now))
  {
    hide Load, NoDuplicates, Put, Prepared;
    PutRefinesMap(Load(c, d, file).records, Prepared(c, d, x, now));
  }

  lemma CandidatesNoDuplicates(c: Codec, d: nat, file: Option<string>, entries: seq<Entry<Content>>, now: Clock)
    requires NoDuplicates(Load(c, d, file).records)
    ensures NoDuplicates(WithCandidates(c, d, file, entries, now))
  {
    hide Load, NoDuplicates, Replaced, PreparedAll, CandidateRecords, View;
    var rs := Load(c, d, file).records;
    ReplacedRefinesMap(rs, IsCandidate, PreparedAll(c, d, CandidateRecords(rs, entries), now));
  }

  lemma WrittenNoDuplicates(c: Codec, d: nat, file: Option<string>, op: Op)
    requires NoDuplicates(Load(c, d, file).records)
    ensures Written(c, d, file, op).Some? ==> NoDuplicates(Written(c, d, file, op).value)
  {
    hide Load, NoDuplicates, UpsertedRecords, WithCandidates, Strip, MarkRecord, OverrideRecord;
    match op
    case Mark(name, codes, now) => UpsertNoDuplicates(c, d, file, MarkRecord(Strip(name), codes), now);
    case Override(name, command, runId, now) =>
      UpsertNoDuplicates(c, d, file, OverrideRecord(Strip(name), command, runId), now);
    case Candidates(entries, now) => CandidatesNoDuplicates(c, d, file, entries, now);
  }

  lemma NoDuplicatesAfter(c: Codec, d: nat, file: Option<string>, op: Op)
    requires WritesWell(c, d, file, op) && NoDuplicates(Load(c, d, file).records)
    ensures NoDuplicates(Load(c, d, After(c, d, file, op)).records)
  {
    hide Load, Lawful, NoDuplicates, FileText, Written;
    var written := Written(c, d, file, op);
    if written.Some? {
      WrittenNoDuplicates(c, d, file, op);
      ReloadKeepsClean(c, d, written.value);
      CleanOnesNoDuplicates(c, written.value);
    }
  }

  lemma {:induction false} NoDuplicatesAlongRun(c: Codec, d: nat, file: Option<string>, ops: seq<Op>)
    requires RunWritesWell(c, d, file, ops) && NoDuplicates(Load(c, d, file).records)
    ensures NoDuplicates(Load(c, d, Run(c, d, file, ops)).records)
  {
    hide Load, NoDuplicates, After, WritesWell;
    if ops != [] {
      NoDuplicatesAlongRun(c, d, file, ops[..|ops| - 1]);
      NoDuplicatesAfter(c, d, Run(c, d, file, ops[..|ops| - 1]), ops[|ops| - 1]);
    }
  }

  ghost function LastMark(ops: seq<Op>, family: string): Option<Op>
    ensures LastMark(ops, family).Some? ==> LastMark(ops, family).value.Mark?
  {
    if ops == [] then None
    else if Marks(ops[|ops| - 1], family) then Some(ops[|ops| - 1])
    else LastMark(ops[..|ops| - 1], family)
  }

  /** From a store without duplicate ids, or none, a run ends with the family's mark held exactly
      when the last mark of the family in it printed on one line; a run without one leaves what was. */
  lemma {:induction false} LastMarkDecides(
      c: Codec, d: nat, lower: string -> string, file: Option<string>, ops: seq<Op>, family: string)
    requires LowersMarker(lower) && family != ""
    requires RunWritesWell(c, d, file, ops) && NoDuplicates(Load(c, d, file).records)
    ensures HoldsMark(c, d, lower, Run(c, d, file, ops), family) <==>
            match LastMark(ops, family)
            case None => HoldsMark(c, d, lower, file, family)
            case Some(mark) => Clean(c, MarkStored(c, d, mark))
  {
    hide Load, NoDuplicates, Strip, Clean, After, WritesWell, MarkStored, HoldsMark, LowersMarker;
    if ops != [] {
      var front, last := ops[..|ops| - 1], ops[|ops| - 1];
      var before := Run(c, d, file, front);
      NoDuplicatesAlongRun(c, d, file, front);
      if Marks(last, family) {
        MarkHeld(c, d, lower, before, last);
      } else {
        LastMarkDecides(c, d, lower, file, front, family);
        OthersKeepMark(c, d, lower, before, last, family);
      }
    }
  }

  /** In a store without duplicate ids, marking a family leaves it stopped exactly when the mark
      prints on one line, or a clean record under another id stops it too. */
  lemma MarkTakesEffect(c: Codec, d: nat, lower: string -> string, file: Option<string>, mark: Op)
    requires LowersMarker(lower) && mark.Mark? && Strip(mark.family) != ""
    requires WritesWell(c, d, file, mark) && NoDuplicates(Load(c, d, file).records)
    ensures Stopped(c, d, lower, After(c, d, file, mark), Strip(mark.family)) <==>
            || Clean(c, MarkStored(c, d, mark))
            || exists r :: r in Load(c, d, file).records && Clean(c, r)
                           && r.id != MARK_PREFIX + Strip(mark.family) && Stops(lower, r, Strip(mark.family))
  {
    hide Strip, Load, Clean, After, WritesWell, Stops, NoDuplicates, MarkStored, LowersMarker;
    var family, stored := Strip(mark.family), MarkStored(c, d, mark);
    StoredIsMark(c, d, lower, mark);
    MarkingStores(c, d, file, mark, stored);
    forall r | r != stored
      ensures r in Load(c, d, After(c, d, file, mark)).records
         <==> r in Load(c, d, file).records && r.id != MARK_PREFIX + family && Clean(c, r)
    {
      MarkingStores(c, d, file, mark, r);
    }
  }

  // ----- a mark that is lost -----

  const AT_NOON := Clock("noon", "noon")

  /** The mark of the family `trend` with one reason, as stored at noon without an embedding. */
  function TrendMark(reason: string): MemoryRecord {
    var r := MarkRecord("trend", [reason]);
    r.(content := r.content.(createdAt := Some("noon"), updatedAt := Some("noon"), embedding := []))
  }

  function MarkTrend(reason: string): Op {
    Mark("trend", [reason], AT_NOON)
  }

  const CUT_REASON := "a\U{2028}b"

  function FirstReason(r: MemoryRecord): string {
    if r.content.rejectedReasons == [] then "" else r.content.rejectedReasons[0]
  }

  /** Prints a record as its first reason in braces; reads two marks back. */
  const REASONS_IN_BRACES := Codec(
    (r: MemoryRecord) => "{" + FirstReason(r) + "}",
    s => if s == "{slow}" then Some(TrendMark("slow"))
         else if s == "{" + CUT_REASON + "}" then Some(TrendMark(CUT_REASON))
         else None,
    (r: MemoryRecord, d: nat) => seq(d, _ => 0))

  lemma TrendMarkReason(reason: string)
    requires Strip(reason) == reason != ""
    ensures TrendMark(reason).content.rejectedReasons == [reason]
  {
    hide Strip;
    assert [reason][..0] == [] && StripAll([]) == [];
    assert StripAll([reason]) == [reason];
    assert Dedupe<string>([]) == [];
    assert Dedupe([reason]) == [reason];
  }

  lemma TrendCodec(reason: string)
    requires Strip(reason) == reason != ""
    ensures REASONS_IN_BRACES.encode(TrendMark(reason)) == "{" + reason + "}"
  {
    hide Strip;
    TrendMarkReason(reason);
    hide TrendMark;
  }

  lemma BracesReadBack()
    ensures REASONS_IN_BRACES.decode("{slow}") == Some(TrendMark("slow"))
    ensures REASONS_IN_BRACES.decode("{" + CUT_REASON + "}") == Some(TrendMark(CUT_REASON))
    ensures REASONS_IN_BRACES.decode("{a").None? && REASONS_IN_BRACES.decode("b}").None?
  {
    hide TrendMark;
    assert ("{" + CUT_REASON + "}")[1] == 'a' && "{slow}"[1] == 's';
    assert |"{" + CUT_REASON + "}"| == 5;
  }

  lemma NoVector(r: MemoryRecord)
    ensures REASONS_IN_BRACES.vectorize(r, 0) == []
  {
    hide TrendMark;
  }

  lemma TrendName()
    ensures Strip("trend") == "trend"
  {
    StripNothing("trend");
  }

  lemma MarkIsBare(family: string, codes: seq<string>)
    ensures var x := MarkRecord(family, codes).content;
            x.createdAt.None? && x.updatedAt.None? && x.embedding == []
    ensures MarkRecord(family, codes).id == MARK_PREFIX + family
  {}

  lemma StoredAtNoon(c: Codec, reason: string)
    requires c.vectorize(MarkRecord("trend", [reason]), 0) == []
    ensures MarkStored(c, 0, MarkTrend(reason)) == TrendMark(reason)
  {
    hide Strip, MarkRecord;
    StripNothing("trend");
    MarkIsBare("trend", [reason]);
  }

  lemma TrendStored(reason: string)
    ensures MarkStored(REASONS_IN_BRACES, 0, MarkTrend(reason)) == TrendMark(reason)
    ensures TrendMark(reason).id == MARK_PREFIX + "trend"
  {
    hide MarkRecord, REASONS_IN_BRACES, MarkStored;
    NoVector(MarkRecord("trend", [reason]));
    StoredAtNoon(REASONS_IN_BRACES, reason);
    MarkIsBare("trend", [reason]);
  }

  lemma WholePrintsWell(c: Codec, r: MemoryRecord, text: string)
    requires c.encode(r) == text && c.decode(text) == Some(r) && r.content.embedding == []
    requires !Blank(text) && Unbroken(text, IsLineBoundary)
    ensures Lawful(c, 0, [r]) && Clean(c, r)
  {
    hide Blank, Split, IsLineBoundary;
  }

  lemma CutPrintsWell(c: Codec, r: MemoryRecord, text: string, a: string, b: string)
    requires c.encode(r) == text && c.decode(text) == Some(r) && r.content.embedding == []
    requires Split(text, IsLineBoundary) == [a, b] && c.decode(a).None? && c.decode(b).None?
    requires !Blank(text) && !Unbroken(text, IsLineBoundary)
    ensures Lawful(c, 0, [r]) && !Clean(c, r)
  {
    hide Blank, Split, IsLineBoundary, Unbroken;
  }

  lemma SlowText()
    ensures "{" + "slow" + "}" == "{slow}" && !Blank("{slow}") && Unbroken("{slow}", IsLineBoundary)
  {
    SolidText("{slow}");
  }

  lemma SlowPrintsWell()
    ensures Lawful(REASONS_IN_BRACES, 0, [TrendMark("slow")]) && Clean(REASONS_IN_BRACES, TrendMark("slow"))
  {
    hide Split, Strip, Blank, REASONS_IN_BRACES, MarkRecord, IsLineBoundary, Unbroken;
    StripNothing("slow");
    TrendCodec("slow");
    BracesReadBack();
    SlowText();
    WholePrintsWell(REASONS_IN_BRACES, TrendMark("slow"), "{slow}");
  }

  lemma CutMarkPieces()
    ensures var text := "{" + CUT_REASON + "}";
            Split(text, IsLineBoundary) == ["{a", "b}"] && !Unbroken(text, IsLineBoundary) && !Blank(text)
  {
    hide Split, Blank;
    var text := "{" + CUT_REASON + "}";
    assert text == "{a" + ['\U{2028}'] + "b}" && text[2] == '\U{2028}';
    SplitAt("{a", '\U{2028}', "b}", IsLineBoundary);
    SplitUnbroken("{a", IsLineBoundary);
    SplitUnbroken("b}", IsLineBoundary);
    SolidText(text);
  }

  lemma CutMarkPrintsWell()
    ensures Lawful(REASONS_IN_BRACES, 0, [TrendMark(CUT_REASON)])
    ensures !Clean(REASONS_IN_BRACES, TrendMark(CUT_REASON))
  {
    hide Split, Strip, Blank, REASONS_IN_BRACES, MarkRecord, IsLineBoundary, Unbroken;
    StripNothing(CUT_REASON);
    TrendCodec(CUT_REASON);
    BracesReadBack();
    CutMarkPieces();
    CutPrintsWell(REASONS_IN_BRACES, TrendMark(CUT_REASON), "{" + CUT_REASON + "}", "{a", "b}");
  }

  lemma FirstPut(r: MemoryRecord)
    ensures Put([], r) == [r] && NoDuplicates([r])
  {}

  lemma LoadedAlone(c: Codec, r: MemoryRecord)
    requires Lawful(c, 0, [r]) && Clean(c, r)
    ensures Load(c, 0, Some(FileText(c, [r]))).records == [r]
  {
    hide Load, Lawful, Clean, FileText;
    ReloadRoundTrip(c, 0, [r]);
  }

  lemma SlowIsWritten()
    ensures Written(REASONS_IN_BRACES, 0, None, MarkTrend("slow")) == Some([TrendMark("slow")])
  {
    hide Load, REASONS_IN_BRACES, Strip, TrendMark, Prepared, MarkRecord, Put;
    TrendName();
    TrendStored("slow");
    LoadNone(REASONS_IN_BRACES, 0);
    FirstPut(TrendMark("slow"));
  }

  lemma SlowIsLoaded()
    ensures Load(REASONS_IN_BRACES, 0, After(REASONS_IN_BRACES, 0, None, MarkTrend("slow"))).records
         == [TrendMark("slow")]
  {
    hide Load, REASONS_IN_BRACES, Clean, Lawful, TrendMark, FileText, Written;
    SlowIsWritten();
    SlowPrintsWell();
    LoadedAlone(REASONS_IN_BRACES, TrendMark("slow"));
  }

  lemma SameIdOverwrites(r: MemoryRecord, x: MemoryRecord)
    requires r.id == x.id
    ensures Put([r], x) == [x]
  {
    assert [r][..0] == [];
    IndexIsLast([r], x.id);
  }

  lemma RemarkOverwrites(file: Option<string>)
    requires Load(REASONS_IN_BRACES, 0, file).records == [TrendMark("slow")]
    ensures Written(REASONS_IN_BRACES, 0, file, MarkTrend(CUT_REASON)) == Some([TrendMark(CUT_REASON)])
  {
    hide Load, REASONS_IN_BRACES, Strip, TrendMark, Prepared, MarkRecord, Put;
    TrendName();
    TrendStored("slow");
    TrendStored(CUT_REASON);
    SameIdOverwrites(TrendMark("slow"), TrendMark(CUT_REASON));
  }

  lemma SlowStops(lower: string -> string)
    requires LowersMarker(lower)
    ensures WritesWell(REASONS_IN_BRACES, 0, None, MarkTrend("slow"))
    ensures Stopped(REASONS_IN_BRACES, 0, lower, After(REASONS_IN_BRACES, 0, None, MarkTrend("slow")), "trend")
  {
    hide Load, REASONS_IN_BRACES, Strip, Clean, Lawful, TrendMark, MarkStored, Stops, Written, After, Stopped;
    TrendName();
    TrendStored("slow");
    SlowIsWritten();
    SlowPrintsWell();
    LoadNone(REASONS_IN_BRACES, 0);
    MarkTakesEffect(REASONS_IN_BRACES, 0, lower, None, MarkTrend("slow"));
  }

  lemma CutMarkStopsNothing(lower: string -> string, file: Option<string>)
    requires LowersMarker(lower) && Load(REASONS_IN_BRACES, 0, file).records == [TrendMark("slow")]
    ensures WritesWell(REASONS_IN_BRACES, 0, file, MarkTrend(CUT_REASON))
    ensures !Stopped(REASONS_IN_BRACES, 0, lower, After(REASONS_IN_BRACES, 0, file, MarkTrend(CUT_REASON)), "trend")
  {
    hide Load, REASONS_IN_BRACES, Strip, Clean, Lawful, TrendMark, MarkStored, Stops, Written, After, Stopped;
    hide NoDuplicates, LowersMarker;
    TrendName();
    TrendStored("slow");
    TrendStored(CUT_REASON);
    CutMarkPrintsWell();
    FirstPut(TrendMark("slow"));
    hide Put;
    RemarkOverwrites(file);
    MarkTakesEffect(REASONS_IN_BRACES, 0, lower, file, MarkTrend(CUT_REASON));
  }

  /** A family that is marked and stopped is no longer stopped once it is marked again with a reason
      that holds a line separator: the second mark takes the place of the first and is lost. */
  lemma RemarkLosesStop(lower: string -> string)
    requires LowersMarker(lower)
    ensures var c, good, cut := REASONS_IN_BRACES, MarkTrend("slow"), MarkTrend(CUT_REASON);
            && RunWritesWell(c, 0, None, [good, cut])
            && Stopped(c, 0, lower, Run(c, 0, None, [good]), "trend")
            && !Stopped(c, 0, lower, Run(c, 0, None, [good, cut]), "trend")
  {
    hide Load, REASONS_IN_BRACES, TrendMark, WritesWell, After, Stopped, CUT_REASON;
    SlowStops(lower);
    SlowIsLoaded();
    CutMarkStopsNothing(lower, After(REASONS_IN_BRACES, 0, None, MarkTrend("slow")));
    TwoSteps(REASONS_IN_BRACES, MarkTrend("slow"), MarkTrend(CUT_REASON));
  }

  lemma TwoSteps(c: Codec, x: Op, y: Op)
    ensures Run(c, 0, None, [x]) == After(c, 0, None, x)
    ensures Run(c, 0, None, [x, y]) == After(c, 0, After(c, 0, None, x), y)
    ensures RunWritesWell(c, 0, None, [x, y]) <==>
            WritesWell(c, 0, None, x) && WritesWell(c, 0, After(c, 0, None, x), y)
  {
    hide After, WritesWell;
    assert [x, y][..1] == [x] && [x][..0] == [];
    assert Run(c, 0, None, []) == None && RunWritesWell(c, 0, None, []);
    assert RunWritesWell(c, 0, None, [x]) <==> WritesWell(c, 0, None, x);
  }

  lemma LoadNone(c: Codec, d: nat)
    ensures Load(c, d, None) == Loaded([], 0)
  {}
}
