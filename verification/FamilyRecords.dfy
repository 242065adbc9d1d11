/** What the records of marks, overrides and candidates say, and how long they stay in the store. */
module FamilyRecords {
  import opened Common
  import opened TextLines
  import opened RecordLists
  import opened MemoryStores
  import opened Dedupes
  import opened StoppedFamilies

  // ----- which family a record names, and whether it stops it -----

  /** The payload names the family: with a text that is not blank, stripped. */
  predicate NamesFamily(p: Option<Payload>, family: string) {
    && p.Some? && "strategy_family" in p.value && p.value["strategy_family"].Text?
    && family != "" && Strip(p.value["strategy_family"].text) == family
  }

  ghost predicate NamesNone(p: Option<Payload>) {
    forall family :: !NamesFamily(p, family)
  }

  lemma {:induction false} FirstNamed(payloads: seq<Option<Payload>>, k: nat, family: string)
    requires k < |payloads| && NamesFamily(payloads[k], family)
    requires forall j :: 0 <= j < k ==> NamesNone(payloads[j])
    ensures FamilyIn(payloads) == Some(family)
  {
    hide Strip;
    if k > 0 {
      assert NamesNone(payloads[0]);
      NoneHere(payloads);
      FirstNamed(payloads[1..], k - 1, family);
    }
  }

  lemma NoneHere(payloads: seq<Option<Payload>>)
    requires payloads != [] && NamesNone(payloads[0])
    ensures FamilyIn(payloads) == FamilyIn(payloads[1..])
  {
    hide Strip;
    var p := payloads[0];
    if p.Some? && "strategy_family" in p.value && p.value["strategy_family"].Text? {
      assert !NamesFamily(p, Strip(p.value["strategy_family"].text));
    }
  }

  lemma {:induction false} NoneNamed(payloads: seq<Option<Payload>>)
    requires forall j :: 0 <= j < |payloads| ==> NamesNone(payloads[j])
    ensures FamilyIn(payloads) == None
  {
    hide Strip, NamesNone;
    if payloads != [] {
      assert NamesNone(payloads[0]);
      NoneHere(payloads);
      assert forall j :: 0 <= j < |payloads| - 1 ==> payloads[1..][j] == payloads[j + 1];
      NoneNamed(payloads[1..]);
    }
  }

  /** The opportunity names the family before the hypothesis, that before the score, the backtest
      artifacts and the paper outcome; a record in which none does is of no family. */
  lemma FamilyPrecedence(r: MemoryRecord, family: string)
    ensures var x := r.content;
            && (NamesFamily(x.opportunity, family) ==> FamilyOf(r) == Some(family))
            && (NamesNone(x.opportunity) && NamesFamily(x.hypothesis, family) ==> FamilyOf(r) == Some(family))
            && (NamesNone(x.opportunity) && NamesNone(x.hypothesis) && NamesFamily(x.score, family) ==>
                  FamilyOf(r) == Some(family))
    ensures var x := r.content;
            NamesNone(x.opportunity) && NamesNone(x.hypothesis) && NamesNone(x.score) ==>
              && (NamesFamily(x.backtestArtifacts, family) ==> FamilyOf(r) == Some(family))
              && (NamesNone(x.backtestArtifacts) && NamesFamily(x.paperTradeOutcome, family) ==>
                    FamilyOf(r) == Some(family))
              && (NamesNone(x.backtestArtifacts) && NamesNone(x.paperTradeOutcome) ==> FamilyOf(r) == None)
  {
    hide Strip, NamesFamily, NamesNone, FamilyIn;
    var x := r.content;
    var payloads := [x.opportunity, x.hypothesis, x.score, x.backtestArtifacts, x.paperTradeOutcome];
    assert FamilyOf(r) == FamilyIn(payloads);
    forall k | 0 <= k < 5
      ensures NamesFamily(payloads[k], family) && (forall j :: 0 <= j < k ==> NamesNone(payloads[j])) ==>
                FamilyIn(payloads) == Some(family)
    {
      if NamesFamily(payloads[k], family) && forall j :: 0 <= j < k ==> NamesNone(payloads[j]) {
        FirstNamed(payloads, k, family);
      }
    }
    if forall j :: 0 <= j < 5 ==> NamesNone(payloads[j]) {
      NoneNamed(payloads);
    }
    assert payloads[0] == x.opportunity && payloads[1] == x.hypothesis && payloads[2] == x.score;
    assert payloads[3] == x.backtestArtifacts && payloads[4] == x.paperTradeOutcome;
  }

  /** A tag or a rejected reason will do to mark a record as degraded. */
  lemma MarkedByAny(lower: string -> string, r: MemoryRecord, token: string)
    requires token in r.content.tags || token in r.content.rejectedReasons
    requires Strip(token) != "" && IsMarker(lower(Strip(token)))
    ensures HasDegradedMarker(lower, r)
  {
    hide Strip, IsMarker;
    assert token in r.content.tags + r.content.rejectedReasons;
  }

  // ----- the reasons of a mark -----

  lemma {:induction false} StripAllHolds(codes: seq<string>, reason: string)
    ensures reason in StripAll(codes) <==> reason != "" && exists code :: code in codes && Strip(code) == reason
  {
    hide Strip;
    if codes != [] {
      var front, last := codes[..|codes| - 1], codes[|codes| - 1];
      StripAllHolds(front, reason);
      assert forall code :: code in codes <==> code in front || code == last by {
        assert codes == front + [last];
      }
    }
  }

  ghost predicate SomeReason(codes: seq<string>) {
    exists code :: code in codes && Strip(code) != ""
  }

  /** A mark gives the reasons asked for, stripped, without blanks and each once, or the word `degraded`
      when none is left; its tags are the family, that word and the reasons. */
  lemma MarkSays(family: string, codes: seq<string>, text: string)
    ensures var reasons := MarkRecord(family, codes).content.rejectedReasons;
            text in reasons <==>
            text != "" && if SomeReason(codes) then exists code :: code in codes && Strip(code) == text
                          else text == "degraded"
    ensures var mark := MarkRecord(family, codes).content;
            text in mark.tags <==> text == family || text == "degraded" || text in mark.rejectedReasons
    ensures var reasons := MarkRecord(family, codes).content.rejectedReasons;
            forall i, j :: 0 <= i < j < |reasons| ==> reasons[i] != reasons[j]
  {
    hide Strip, Dedupe;
    var stripped := StripAll(codes);
    StripAllHolds(codes, text);
    DedupeContents(stripped);
    DedupeContents([family, "degraded"] + Reasons(codes));
    NoneStripped(codes);
    hide StripAll;
    assert Dedupe(stripped) == [] ==> text !in stripped;
    assert stripped != [] ==> stripped[0] in Dedupe(stripped);
    EmptyDedupe();
  }

  predicate Says(payload: Option<Payload>, key: string, value: Value) {
    payload.Some? && key in payload.value && payload.value[key] == value
  }

  /** The payloads of a mark name the family, the decision and the reasons, and say that it is degraded. */
  lemma MarkPayloads(family: string, codes: seq<string>)
    ensures var mark := MarkRecord(family, codes).content;
            && Says(mark.opportunity, "strategy_family", Text(family))
            && Says(mark.hypothesis, "decision", Text("strategy_family_degraded"))
            && Says(mark.hypothesis, "reason_codes", Texts(mark.rejectedReasons))
            && Says(mark.score, "degraded", Flag(true))
            && Says(mark.score, "reason_codes", Texts(mark.rejectedReasons))
  {
    hide Reasons, Dedupe;
  }

  /** The payloads of an override name family, run and command, and say that it was used, without real
      capital or live orders. */
  lemma OverridePayloads(family: string, command: string, runId: string)
    ensures var x := OverrideRecord(family, command, runId).content;
            && Says(x.opportunity, "strategy_family", Text(family)) && Says(x.opportunity, "run_id", Text(runId))
            && Says(x.opportunity, "command", Text(command))
            && Says(x.opportunity, "uses_real_capital", Flag(false))
            && Says(x.opportunity, "live_order_routing", Flag(false))
            && Says(x.hypothesis, "decision", Text("stopped_family_override_used"))
            && Says(x.hypothesis, "reason_codes", Texts(["stopped_family_override_used"]))
            && Says(x.score, "override_used", Flag(true))
            && Says(x.score, "reason_codes", Texts(["stopped_family_override_used"]))
            && x.rejectedReasons == []
  {
    hide Dedupe;
  }

  lemma EmptyDedupe()
    ensures Dedupe<string>([]) == []
  {}

  lemma NoneStripped(codes: seq<string>)
    ensures StripAll(codes) != [] <==> SomeReason(codes)
  {
    hide Strip;
    if StripAll(codes) != [] {
      StripAllHolds(codes, StripAll(codes)[0]);
    }
    if SomeReason(codes) {
      var code :| code in codes && Strip(code) != "";
      StripAllHolds(codes, Strip(code));
    }
  }

  // ----- the ids of overrides -----

  predicate NoColon(text: string) {
    ':' !in text
  }

  lemma ColonsBeyond(head: string, rest: string, k: nat)
    ensures k < |head| && (head + rest)[k] == ':' ==> !NoColon(head)
  {
    if k < |head| && head[k] == ':' {
      assert head[k] in head;
    }
  }

  /** A text is cut in one way at its first colon. */
  lemma HeadsAgree(a: string, x: string, b: string, y: string)
    requires NoColon(a) && NoColon(b) && a + ":" + x == b + ":" + y
    ensures a == b && x == y
  {
    var text := a + ":" + x;
    assert text[|a|] == ':' && text[|b|] == ':' && text == a + (":" + x) && text == b + (":" + y);
    ColonsBeyond(b, ":" + y, |a|);
    ColonsBeyond(a, ":" + x, |b|);
    assert a == text[..|a|] && b == text[..|b|];
    assert x == text[|a| + 1..] && y == text[|b| + 1..];
  }

  function OverrideId(family: string, command: string, runId: string): string {
    OverrideRecord(family, command, runId).id
  }

  const OVERRIDE_PREFIX := "stopped-family-override:"

  lemma OverrideIdParts(family: string, command: string, runId: string)
    ensures OverrideId(family, command, runId) == OVERRIDE_PREFIX + (command + ":" + (runId + ":" + family))
  {}

  /** As long as command and run id hold no colon, overrides of different commands, runs or families
      have different ids. */
  lemma OverrideIdsApart(
      family: string, command: string, runId: string, family2: string, command2: string, runId2: string)
    requires NoColon(command) && NoColon(runId) && NoColon(command2) && NoColon(runId2)
    ensures OverrideId(family, command, runId) == OverrideId(family2, command2, runId2)
        <==> family == family2 && command == command2 && runId == runId2
  {
    OverrideIdParts(family, command, runId);
    OverrideIdParts(family2, command2, runId2);
    hide OverrideId, NoColon;
    var x, y := command + ":" + (runId + ":" + family), command2 + ":" + (runId2 + ":" + family2);
    if OverrideId(family, command, runId) == OverrideId(family2, command2, runId2) {
      SamePrefix(OVERRIDE_PREFIX, x, y);
      HeadsAgree(command, runId + ":" + family, command2, runId2 + ":" + family2);
      HeadsAgree(runId, family, runId2, family2);
    }
  }

  lemma SamePrefix(prefix: string, x: string, y: string)
    requires prefix + x == prefix + y
    ensures x == y
  {
    assert (prefix + x)[|prefix|..] == x && (prefix + y)[|prefix|..] == y;
  }

  /** Where a text with a colon is cut first. */
  lemma {:induction false} FirstColon(text: string) returns (head: string, rest: string)
    requires !NoColon(text)
    ensures NoColon(head) && text == head + ":" + rest
  {
    if text[0] == ':' {
      head, rest := "", text[1..];
    } else {
      assert text == [text[0]] + text[1..];
      head, rest := FirstColon(text[1..]);
      head := [text[0]] + head;
    }
  }

  /** A colon in command or run id makes the id that of another override. */
  lemma ColonsCollide(family: string, command: string, runId: string)
      returns (family2: string, command2: string, runId2: string)
    ensures NoColon(command2) && NoColon(runId2)
    ensures OverrideId(family, command, runId) == OverrideId(family2, command2, runId2)
  {
    OverrideIdParts(family, command, runId);
    var text := command + ":" + (runId + ":" + family);
    assert text[|command|] == ':';
    var rest;
    command2, rest := FirstColon(text);
    RestHasColon(command, runId, family, command2, rest);
    runId2, family2 := FirstColon(rest);
    OverrideIdParts(family2, command2, runId2);
    hide OverrideId, NoColon;
    assert text == command2 + ":" + (runId2 + ":" + family2);
  }

  lemma RestHasColon(command: string, runId: string, family: string, head: string, rest: string)
    requires NoColon(head) && command + ":" + (runId + ":" + family) == head + ":" + rest
    ensures !NoColon(rest)
  {
    var text := head + ":" + rest;
    var k := |command| + 1 + |runId|;
    assert text[|command|] == ':' && text[k] == ':' && text[|head|] == ':';
    assert text == head + (":" + rest);
    ColonsBeyond(head, ":" + rest, |command|);
    assert rest[k - |head| - 1] == ':';
  }

  /** The id of an override is its own, among those with plain commands and run ids, exactly when its
      command and run id hold no colon either. */
  lemma OverrideIdExactly(family: string, command: string, runId: string)
    ensures (forall family2, command2, runId2 ::
               NoColon(command2) && NoColon(runId2)
               && OverrideId(family2, command2, runId2) == OverrideId(family, command, runId) ==>
                 family2 == family && command2 == command && runId2 == runId)
        <==> NoColon(command) && NoColon(runId)
  {
    hide OverrideId, NoColon;
    if NoColon(command) && NoColon(runId) {
      forall family2, command2, runId2 | NoColon(command2) && NoColon(runId2)
        ensures OverrideId(family2, command2, runId2) == OverrideId(family, command, runId) ==>
                  family2 == family && command2 == command && runId2 == runId
      {
        OverrideIdsApart(family2, command2, runId2, family, command, runId);
      }
    } else {
      var family2, command2, runId2 := ColonsCollide(family, command, runId);
    }
  }

  // ----- how long a record stays -----

  /** The id an operation writes under, if it is one id. */
  function WrittenId(op: Op): Option<string> {
    match op
    case Mark(family, _, _) => Some(MARK_PREFIX + Strip(family))
    case Override(family, command, runId, _) => Some(OverrideId(Strip(family), command, runId))
    case Candidates(_, _) => None
  }

  predicate LeavesAlone(op: Op, r: MemoryRecord) {
    if op.Candidates? then !IsCandidate(r) else WrittenId(op) != Some(r.id)
  }

  /** A clean record that an operation does not write over stays, and none appears. */
  lemma OthersStay(c: Codec, d: nat, file: Option<string>, op: Op, r: MemoryRecord)
    requires WritesWell(c, d, file, op) && LeavesAlone(op, r) && Clean(c, r)
    ensures r in Load(c, d, After(c, d, file, op)).records <==> r in Load(c, d, file).records
  {
    hide Strip, Load, Clean, Lawful, WithCandidates, UpsertedRecords, FileText, IsCandidate;
    match op
    case Mark(name, codes, now) =>
      if Strip(name) != "" {
        UpsertLeaves(c, d, file, MarkRecord(Strip(name), codes), now, r);
      }
    case Override(name, command, runId, now) =>
      if Strip(name) != "" {
        UpsertLeaves(c, d, file, OverrideRecord(Strip(name), command, runId), now, r);
      }
    case Candidates(entries, now) =>
      if entries != [] {
        CandidatesLeave(c, d, file, entries, now, r);
      }
  }

  lemma {:induction false} RunLeaves(c: Codec, d: nat, file: Option<string>, ops: seq<Op>, r: MemoryRecord)
    requires RunWritesWell(c, d, file, ops) && Clean(c, r) && forall op :: op in ops ==> LeavesAlone(op, r)
    ensures r in Load(c, d, Run(c, d, file, ops)).records <==> r in Load(c, d, file).records
  {
    hide Load, Clean, After, WritesWell, LeavesAlone;
    if ops != [] {
      var front, last := ops[..|ops| - 1], ops[|ops| - 1];
      assert ops == front + [last];
      RunLeaves(c, d, file, front, r);
      OthersStay(c, d, Run(c, d, file, front), last, r);
    }
  }

  /** The record an override stores. */
  function OverrideStored(c: Codec, d: nat, op: Op): MemoryRecord
    requires op.Override?
  {
    Prepared(c, d, OverrideRecord(Strip(op.family), op.command, op.runId), op.now)
  }

  lemma OverrideIsStored(c: Codec, d: nat, file: Option<string>, op: Op)
    requires op.Override? && Strip(op.family) != "" && WritesWell(c, d, file, op)
    ensures OverrideStored(c, d, op) in Load(c, d, After(c, d, file, op)).records
        <==> Clean(c, OverrideStored(c, d, op))
  {
    hide Strip, Load, Clean, Lawful, FileText, Put, OverrideRecord;
    var rs, stored := Load(c, d, file).records, OverrideStored(c, d, op);
    LoadedAfter(c, d, Put(rs, stored), stored);
    PutMembers(rs, stored, stored);
  }

  lemma OverrideIsNoCandidate(family: string, command: string, runId: string, r: MemoryRecord)
    requires r.id == OverrideId(family, command, runId)
    ensures !IsCandidate(r)
  {
    OverrideIdParts(family, command, runId);
    assert r.id[0] == 's';
  }

  /** Once an override is recorded on one line, it stays on record through any later marks, candidate
      replacements and overrides of other families, commands or runs without colons. */
  lemma OverrideStaysOnRecord(c: Codec, d: nat, file: Option<string>, op: Op, later: seq<Op>)
    requires op.Override? && Strip(op.family) != "" && NoColon(op.command) && NoColon(op.runId)
    requires WritesWell(c, d, file, op) && RunWritesWell(c, d, After(c, d, file, op), later)
    requires Clean(c, OverrideStored(c, d, op))
    requires forall x :: x in later && x.Override? ==>
               && NoColon(x.command) && NoColon(x.runId)
               && !(Strip(x.family) == Strip(op.family) && x.command == op.command && x.runId == op.runId)
    ensures OverrideStored(c, d, op) in Load(c, d, Run(c, d, After(c, d, file, op), later)).records
  {
    hide Strip, Load, Clean, After, WritesWell, OverrideId, NoColon, IsCandidate;
    var stored := OverrideStored(c, d, op);
    OverrideIsStored(c, d, file, op);
    assert stored.id == OverrideId(Strip(op.family), op.command, op.runId) by { StoredId(c, d, op); }
    OverrideIsNoCandidate(Strip(op.family), op.command, op.runId, stored);
    forall x | x in later
      ensures LeavesAlone(x, stored)
    {
      if x.Override? {
        OverrideIdsApart(Strip(x.family), x.command, x.runId, Strip(op.family), op.command, op.runId);
      } else if x.Mark? {
        NotAMark(Strip(op.family), op.command, op.runId, Strip(x.family));
      }
    }
    hide LeavesAlone, OverrideStored;
    RunLeaves(c, d, After(c, d, file, op), later, stored);
  }

  lemma StoredId(c: Codec, d: nat, op: Op)
    requires op.Override?
    ensures OverrideStored(c, d, op).id == OverrideId(Strip(op.family), op.command, op.runId)
  {
    hide Strip, OverrideRecord;
  }

  lemma NotAMark(family: string, command: string, runId: string, marked: string)
    ensures OverrideId(family, command, runId) != MARK_PREFIX + marked
  {
    OverrideIsNoMark(family, command, runId, marked);
  }

  const OVERRIDE_TAG := "stopped-family-override"

  lemma OverrideTokens(family: string, command: string, runId: string, token: string)
    ensures var r := OverrideRecord(family, command, runId).content;
            token in r.tags + r.rejectedReasons <==> token == family || token == OVERRIDE_USED || token == OVERRIDE_TAG
  {
    hide Dedupe;
    DedupeContents([family, OVERRIDE_USED, OVERRIDE_TAG]);
    var r := OverrideRecord(family, command, runId).content;
    assert r.tags + r.rejectedReasons == r.tags;
  }

  lemma MarkerLengths(text: string)
    ensures IsMarker(text) ==> |text| != 23 && |text| != 28
  {}

  lemma PlainTag(text: string)
    requires text != "" && !IsSpace(text[0]) && !IsSpace(text[|text| - 1]) && (|text| == 23 || |text| == 28)
    ensures Strip(text) == text && !IsMarker(text)
  {
    hide Strip, IsMarker;
    StripNothing(text);
    MarkerLengths(text);
  }

  lemma PlainOverrideTags()
    ensures Strip(OVERRIDE_USED) == OVERRIDE_USED && !IsMarker(OVERRIDE_USED)
    ensures Strip(OVERRIDE_TAG) == OVERRIDE_TAG && !IsMarker(OVERRIDE_TAG)
  {
    hide Strip, IsMarker;
    PlainTag(OVERRIDE_USED);
    PlainTag(OVERRIDE_TAG);
  }

  lemma OverrideHasMarker(lower: string -> string, family: string, command: string, runId: string)
    requires Strip(family) == family != ""
    requires lower(OVERRIDE_USED) == OVERRIDE_USED && lower(OVERRIDE_TAG) == OVERRIDE_TAG
    ensures HasDegradedMarker(lower, OverrideRecord(family, command, runId)) <==> IsMarker(lower(family))
  {
    var r := OverrideRecord(family, command, runId);
    hide Strip, OverrideRecord, IsMarker;
    PlainOverrideTags();
    var tokens := r.content.tags + r.content.rejectedReasons;
    forall token
      ensures token in tokens <==> token == family || token == OVERRIDE_USED || token == OVERRIDE_TAG
    {
      OverrideTokens(family, command, runId, token);
    }
    if IsMarker(lower(family)) {
      assert family in tokens;
    }
  }

  lemma OverrideNamesFamily(family: string, command: string, runId: string)
    requires Strip(family) == family != ""
    ensures FamilyOf(OverrideRecord(family, command, runId)) == Some(family)
  {
    hide Strip, Dedupe;
    var x := OverrideRecord(family, command, runId).content;
    var payloads := [x.opportunity, x.hypothesis, x.score, x.backtestArtifacts, x.paperTradeOutcome];
    assert payloads[0] == x.opportunity;
  }

  /** Recording an override stops no family, but for one thing: a family whose own name is a degraded
      marker is stopped by it. */
  lemma OverrideStopsOnly(lower: string -> string, family: string, command: string, runId: string, other: string)
    requires Strip(family) == family != ""
    requires lower(OVERRIDE_USED) == OVERRIDE_USED && lower(OVERRIDE_TAG) == OVERRIDE_TAG
    ensures Stops(lower, OverrideRecord(family, command, runId), other) <==> other == family && IsMarker(lower(family))
  {
    hide Strip, OverrideRecord, IsMarker, HasDegradedMarker, FamilyOf;
    OverrideHasMarker(lower, family, command, runId);
    OverrideNamesFamily(family, command, runId);
  }

  // ----- candidates -----

  lemma {:induction false} CandidateAt(rs: seq<MemoryRecord>, entries: seq<Entry<Content>>, k: nat)
    requires k < |entries|
    ensures |CandidateRecords(rs, entries)| == |entries|
    ensures CandidateRecords(rs, entries)[k] == CandidateRecord(rs, entries[k])
  {
    hide CandidateRecord;
    var n := |entries| - 1;
    if n > 0 {
      CandidateAt(rs, entries[..n], if k < n then k else 0);
    }
  }

  /** The records that a replacement stores for its entries. */
  function CandidatesStored(
      c: Codec, d: nat, file: Option<string>, entries: seq<Entry<Content>>, now: Clock): seq<MemoryRecord>
  {
    PreparedAll(c, d, CandidateRecords(Load(c, d, file).records, entries), now)
  }

  /** The record stored for an entry: under the prefixed id, and created when the record shown under
      that id was, if that is known. */
  lemma StoredForEntry(
      c: Codec, d: nat, file: Option<string>, entries: seq<Entry<Content>>, now: Clock, k: nat, time: string)
    requires k < |entries| && time != ""
    ensures var news, id := CandidatesStored(c, d, file, entries, now), CANDIDATE_PREFIX + entries[k].id;
            var shown := View(Load(c, d, file).records);
            && |news| == |entries| && news[k].id == id
            && (id in shown && shown[id].content.createdAt == Some(time) ==> news[k].content.createdAt == Some(time))
  {
    hide Load, View;
    CandidateAt(Load(c, d, file).records, entries, k);
    hide CandidateRecords;
  }

  /** After a replacement the store holds, of the clean records, the others it held and the last stored
      candidate of every id. */
  lemma CandidatesExactly(
      c: Codec, d: nat, file: Option<string>, entries: seq<Entry<Content>>, now: Clock, r: MemoryRecord)
    requires entries != [] && NoDuplicates(Load(c, d, file).records)
    requires WritesWell(c, d, file, Candidates(entries, now))
    ensures r in Load(c, d, After(c, d, file, Candidates(entries, now))).records <==>
            && Clean(c, r)
            && if IsCandidate(r) then
                 var news := View(CandidatesStored(c, d, file, entries, now)); r.id in news && news[r.id] == r
               else r in Load(c, d, file).records
  {
    hide Load, Clean, Lawful, FileText, View, NoDuplicates, PreparedAll, CandidateRecords, IsCandidate, Replaced;
    var rs, news := Load(c, d, file).records, CandidatesStored(c, d, file, entries, now);
    var written := WithCandidates(c, d, file, entries, now);
    assert written == Replaced(rs, IsCandidate, news);
    ReplacedRefinesMap(rs, IsCandidate, news);
    LoadedAfter(c, d, written, r);
    UniqueView(written, r);
    UniqueView(rs, r);
    StoredAreCandidates(c, d, file, entries, now, r);
    ViewIds(rs);
    hide Kept, Extends, CandidatesStored;
    if IsCandidate(r) {
      CandidateById(rs, r);
    }
  }

  lemma CandidateById(rs: seq<MemoryRecord>, r: MemoryRecord)
    requires IsCandidate(r)
    ensures r.id in View(rs) ==> IsCandidate(View(rs)[r.id])
  {
    ViewIds(rs);
    hide View;
  }

  lemma StoredAreCandidates(
      c: Codec, d: nat, file: Option<string>, entries: seq<Entry<Content>>, now: Clock, r: MemoryRecord)
    ensures r.id in View(CandidatesStored(c, d, file, entries, now)) ==> IsCandidate(r)
  {
    hide Load, IsCandidate;
    var news := CandidatesStored(c, d, file, entries, now);
    if r.id in View(news) {
      IndexIsLast(news, r.id);
      var k :| 0 <= k < |news| && news[k].id == r.id;
      assert IsCandidate(news[k]) by {
        StoredIsCandidate(CandidateRecords(Load(c, d, file).records, entries)[k], c, d, now);
      }
      SameIdCandidate(news[k], r);
    }
  }

  lemma StoredIsCandidate(x: MemoryRecord, c: Codec, d: nat, now: Clock)
    requires IsCandidate(x)
    ensures IsCandidate(Prepared(c, d, x, now))
  {}

  lemma SameIdCandidate(x: MemoryRecord, r: MemoryRecord)
    requires IsCandidate(x) && x.id == r.id
    ensures IsCandidate(r)
  {}

  /** The store holds a clean record under the id that was created at the time. */
  ghost predicate CreatedAt(c: Codec, d: nat, file: Option<string>, id: string, time: string) {
    exists r :: r in Load(c, d, file).records && r.id == id && r.content.createdAt == Some(time) && Clean(c, r)
  }

  ghost predicate Names(entries: seq<Entry<Content>>, name: string) {
    exists k :: 0 <= k < |entries| && entries[k].id == name
  }

  /** What the operation writes under the id, if anything, prints on one line. */
  ghost predicate WritesCleanly(c: Codec, d: nat, file: Option<string>, op: Op, id: string) {
    var written := Written(c, d, file, op);
    written.Some? ==> forall r :: r in written.value && r.id == id ==> Clean(c, r)
  }

  ghost predicate RunWritesCleanly(c: Codec, d: nat, file: Option<string>, ops: seq<Op>, id: string) {
    ops == [] || (RunWritesCleanly(c, d, file, ops[..|ops| - 1], id)
                  && WritesCleanly(c, d, Run(c, d, file, ops[..|ops| - 1]), ops[|ops| - 1], id))
  }

  lemma ReplacementKeepsCreation(
      c: Codec, d: nat, file: Option<string>, entries: seq<Entry<Content>>, now: Clock, name: string, time: string)
    requires NoDuplicates(Load(c, d, file).records) && Names(entries, name) && time != ""
    requires WritesWell(c, d, file, Candidates(entries, now))
    requires WritesCleanly(c, d, file, Candidates(entries, now), CANDIDATE_PREFIX + name)
    requires CreatedAt(c, d, file, CANDIDATE_PREFIX + name, time)
    ensures CreatedAt(c, d, After(c, d, file, Candidates(entries, now)), CANDIDATE_PREFIX + name, time)
  {
    hide Load, Clean, Lawful, FileText, View, NoDuplicates, PreparedAll, CandidateRecords, Replaced, CandidatesStored;
    var id, rs, news := CANDIDATE_PREFIX + name, Load(c, d, file).records, CandidatesStored(c, d, file, entries, now);
    var written := WithCandidates(c, d, file, entries, now);
    assert written == Replaced(rs, IsCandidate, news) by { CandidatesWritten(c, d, file, entries, now); }
    var r :| r in rs && r.id == id && r.content.createdAt == Some(time) && Clean(c, r);
    UniqueView(rs, r);
    ShownForName(c, d, file, entries, now, name, time);
    ReplacedRefinesMap(rs, IsCandidate, news);
    var stored := View(news)[id];
    UniqueView(written, stored);
    LoadedAfter(c, d, written, stored);
    hide IsCandidate, Kept, Extends, WithCandidates;
  }

  lemma CandidatesWritten(c: Codec, d: nat, file: Option<string>, entries: seq<Entry<Content>>, now: Clock)
    ensures WithCandidates(c, d, file, entries, now)
         == Replaced(Load(c, d, file).records, IsCandidate, CandidatesStored(c, d, file, entries, now))
  {
    hide Load, Replaced, PreparedAll, CandidateRecords;
  }

  lemma ShownForName(
      c: Codec, d: nat, file: Option<string>, entries: seq<Entry<Content>>, now: Clock, name: string, time: string)
    requires Names(entries, name) && time != ""
    requires var shown, id := View(Load(c, d, file).records), CANDIDATE_PREFIX + name;
             id in shown && shown[id].content.createdAt == Some(time)
    ensures var news, id := CandidatesStored(c, d, file, entries, now), CANDIDATE_PREFIX + name;
            id in View(news) && View(news)[id].id == id && View(news)[id].content.createdAt == Some(time)
  {
    var news, id := CandidatesStored(c, d, file, entries, now), CANDIDATE_PREFIX + name;
    IndexIsLast(news, id);
    var k :| 0 <= k < |entries| && entries[k].id == name;
    StoredForEntry(c, d, file, entries, now, k, time);
    assert news[k].id == id;
    var last := IndexOf(news)[id];
    StoredForEntry(c, d, file, entries, now, last, time);
    SamePrefix(CANDIDATE_PREFIX, entries[last].id, name);
    assert View(news)[id] == news[last];
    hide CandidatesStored, IndexOf, View;
  }

  /** From a store without duplicate ids, a candidate keeps the time it was created at through any run
      whose replacements all name it, as long as its records print on one line. */
  lemma {:induction false} CreationTimeStays(
      c: Codec, d: nat, file: Option<string>, ops: seq<Op>, name: string, time: string)
    requires NoDuplicates(Load(c, d, file).records) && RunWritesWell(c, d, file, ops) && time != ""
    requires RunWritesCleanly(c, d, file, ops, CANDIDATE_PREFIX + name)
    requires forall op :: op in ops && op.Candidates? && op.entries != [] ==> Names(op.entries, name)
    requires CreatedAt(c, d, file, CANDIDATE_PREFIX + name, time)
    ensures CreatedAt(c, d, Run(c, d, file, ops), CANDIDATE_PREFIX + name, time)
  {
    hide Load, NoDuplicates, After, WritesWell, WritesCleanly, CreatedAt, Names;
    if ops != [] {
      var front, last := ops[..|ops| - 1], ops[|ops| - 1];
      var before := Run(c, d, file, front);
      assert ops == front + [last];
      CreationTimeStays(c, d, file, front, name, time);
      NoDuplicatesAlongRun(c, d, file, front);
      if last.Candidates? {
        assert last == Candidates(last.entries, last.now);
        NothingToReplace(c, d, before, last.now);
        if last.entries != [] {
          ReplacementKeepsCreation(c, d, before, last.entries, last.now, name, time);
        }
      } else {
        OthersKeepCreation(c, d, before, last, name, time);
      }
    }
  }

  lemma NothingToReplace(c: Codec, d: nat, file: Option<string>, now: Clock)
    ensures After(c, d, file, Candidates([], now)) == file
  {}

  lemma OthersKeepCreation(c: Codec, d: nat, file: Option<string>, op: Op, name: string, time: string)
    requires !op.Candidates? && WritesWell(c, d, file, op)
    requires CreatedAt(c, d, file, CANDIDATE_PREFIX + name, time)
    ensures CreatedAt(c, d, After(c, d, file, op), CANDIDATE_PREFIX + name, time)
  {
    hide Load, Clean, After, WritesWell, Strip, OverrideId;
    var r :| r in Load(c, d, file).records && r.id == CANDIDATE_PREFIX + name
             && r.content.createdAt == Some(time) && Clean(c, r);
    assert r.id[0] == 'c';
    if op.Mark? {
      assert (MARK_PREFIX + Strip(op.family))[0] == 'd';
    } else {
      OverrideIdParts(Strip(op.family), op.command, op.runId);
      assert OverrideId(Strip(op.family), op.command, op.runId)[0] == 's';
    }
    OthersStay(c, d, file, op, r);
  }
}
