/** The memory store: a list of records with an index by id, rewritten as a whole on every change. */
module MemoryStores {
  import opened Common
  import opened TextLines
  import opened RecordLists

  /** The values inside a JSON object; `Other` keeps the printed form of the kinds not looked at here. */
  datatype Value = Text(text: string) | Texts(texts: seq<string>) | Flag(value: bool) | Other(raw: string)

  type Payload = map<string, Value>

  /** A record without its id; `embedding` holds the bit patterns of the stored floats. */
  datatype Content = Content(
    createdAt: Option<string>,
    updatedAt: Option<string>,
    opportunity: Option<Payload>,
    hypothesis: Option<Payload>,
    score: Option<Payload>,
    rejectedReasons: seq<string>,
    backtestArtifacts: Option<Payload>,
    paperTradeOutcome: Option<Payload>,
    tags: seq<string>,
    embedding: seq<nat>)

  type MemoryRecord = Entry<Content>

  /** Printing and parsing of records, and the text embedding, are parameters. */
  datatype Codec = Codec(
    encode: MemoryRecord -> string,
    decode: string -> Option<MemoryRecord>,
    vectorize: (MemoryRecord, nat) -> seq<nat>)

  /** The record prints on a single line, in the eyes of `splitlines`. */
  ghost predicate Clean(c: Codec, r: MemoryRecord) {
    Unbroken(c.encode(r), IsLineBoundary)
  }

  /** A printed record parses back, and no piece of one cut at a line boundary parses. */
  ghost predicate PrintedWell(c: Codec, r: MemoryRecord) {
    && !Blank(c.encode(r))
    && c.decode(c.encode(r)) == Some(r)
    && (!Clean(c, r) ==> forall piece :: piece in Split(c.encode(r), IsLineBoundary) ==> c.decode(piece).None?)
  }

  /** What is assumed of the records written: they print well and carry an embedding of the store's dimensions. */
  ghost predicate Lawful(c: Codec, d: nat, rs: seq<MemoryRecord>) {
    forall r :: r in rs ==> PrintedWell(c, r) && |r.content.embedding| == d
  }

  datatype Clock = Clock(created: string, updated: string)

  function OrNow(stamp: Option<string>, now: string): Option<string> {
    if stamp.None? || stamp.value == "" then Some(now) else stamp
  }

  function Prepared(c: Codec, d: nat, r: MemoryRecord, now: Clock): MemoryRecord {
    r.(content := r.content.(createdAt := OrNow(r.content.createdAt, now.created),
                             updatedAt := OrNow(r.content.updatedAt, now.updated),
                             embedding := c.vectorize(r, d)))
  }

  predicate Given(stamp: Option<string>) {
    stamp.Some? && stamp.value != ""
  }

  /** A record as it is stored: times that are given are kept and missing ones filled in, the embedding
      is computed anew, everything else stays. */
  predicate StoredAs(c: Codec, d: nat, r: MemoryRecord, stored: MemoryRecord, now: Clock) {
    && stored.id == r.id
    && stored.content.createdAt == (if Given(r.content.createdAt) then r.content.createdAt else Some(now.created))
    && stored.content.updatedAt == (if Given(r.content.updatedAt) then r.content.updatedAt else Some(now.updated))
    && stored.content.embedding == c.vectorize(r, d)
    && stored.content.opportunity == r.content.opportunity && stored.content.hypothesis == r.content.hypothesis
    && stored.content.score == r.content.score && stored.content.rejectedReasons == r.content.rejectedReasons
    && stored.content.backtestArtifacts == r.content.backtestArtifacts
    && stored.content.paperTradeOutcome == r.content.paperTradeOutcome && stored.content.tags == r.content.tags
  }

  function PreparedAll(c: Codec, d: nat, rs: seq<MemoryRecord>, now: Clock): (ps: seq<MemoryRecord>)
    ensures |ps| == |rs| && forall k :: 0 <= k < |rs| ==> ps[k] == Prepared(c, d, rs[k], now)
  {
    if rs == [] then [] else PreparedAll(c, d, rs[..|rs| - 1], now) + [Prepared(c, d, rs[|rs| - 1], now)]
  }

  // ----- the file -----

  datatype Loaded = Loaded(records: seq<MemoryRecord>, skipped: nat)

  function Embedded(c: Codec, d: nat, r: MemoryRecord): MemoryRecord {
    if |r.content.embedding| == d then r else r.(content := r.content.(embedding := c.vectorize(r, d)))
  }

  function LoadLine(c: Codec, d: nat, so: Loaded, line: string): Loaded {
    if Blank(line) then so
    else
      match c.decode(line)
      case Some(r) => so.(records := so.records + [Embedded(c, d, r)])
      case None => so.(skipped := so.skipped + 1)
  }

  function LoadLines(c: Codec, d: nat, lines: seq<string>): Loaded {
    if lines == [] then Loaded([], 0)
    else LoadLine(c, d, LoadLines(c, d, lines[..|lines| - 1]), lines[|lines| - 1])
  }

  function Load(c: Codec, d: nat, file: Option<string>): Loaded {
    if file.None? then Loaded([], 0) else LoadLines(c, d, Split(file.value, IsLineBoundary))
  }

  function FileText(c: Codec, rs: seq<MemoryRecord>): string {
    if rs == [] then "" else FileText(c, rs[..|rs| - 1]) + c.encode(rs[|rs| - 1]) + ['\n']
  }

  datatype StoreError = DiskFailure

  class MemoryStore {
    const codec: Codec
    const dimensions: nat
    var file: Option<string>
    var records: seq<MemoryRecord>
    var index: map<string, nat>
    var skippedRecords: nat

    /** The index is the last position of every id. */
    ghost predicate Valid()
      reads this
    {
      index == IndexOf(records)
    }

    constructor (codec: Codec, dimensions: nat, file: Option<string>)
      ensures this.codec == codec && this.dimensions == dimensions && this.file == file && Valid()
      ensures Loaded(records, skippedRecords) == Load(codec, dimensions, file)
    {
      this.codec, this.dimensions, this.file := codec, dimensions, file;
      records, index, skippedRecords := [], map[], 0;
      new;
      Reload();
    }

    method Reload()
      modifies this
      ensures file == old(file) && Valid()
      ensures Loaded(records, skippedRecords) == Load(codec, dimensions, file)
    {
      records, index, skippedRecords := [], map[], 0;
      if file.None? {
        return;
      }
      var lines := Split(file.value, IsLineBoundary);
      assert lines[..0] == [] && LoadLines(codec, dimensions, []) == Loaded([], 0);
      hide LoadLines, LoadLine, Blank, Split, IndexOf, Embedded;
      for i := 0 to |lines|
        invariant file == old(file) && Valid()
        invariant records == LoadLines(codec, dimensions, lines[..i]).records
        invariant skippedRecords == LoadLines(codec, dimensions, lines[..i]).skipped
      {
        LoadNext(codec, dimensions, lines, i);
        ReadLine(codec, dimensions, LoadLines(codec, dimensions, lines[..i]), lines[i]);
        if Blank(lines[i]) {
          continue;
        }
        var parsed := codec.decode(lines[i]);
        if parsed.None? {
          skippedRecords := skippedRecords + 1;
          continue;
        }
        var record := Embedded(codec, dimensions, parsed.value);
        IndexGrows(records, record);
        index := index[record.id := |records|];
        records := records + [record];
      }
      assert lines[..|lines|] == lines;
    }

    /** The whole list goes to a temporary file that then replaces the store's file; a failure leaves the file alone. */
    method Persist(rs: seq<MemoryRecord>, diskWorks: bool) returns (ok: bool)
      modifies this`file
      ensures ok == diskWorks
      ensures file == if ok then Some(FileText(codec, rs)) else old(file)
    {
      var text := "";
      for i := 0 to |rs|
        invariant text == FileText(codec, rs[..i])
      {
        assert rs[..i + 1][..i] == rs[..i];
        text := text + codec.encode(rs[i]) + ['\n'];
      }
      assert rs[..|rs|] == rs;
      if !diskWorks {
        return false;
      }
      file := Some(text);
      ok := true;
    }

    method RebuildIndex()
      modifies this`index
      ensures Valid()
    {
      index := map[];
      for i := 0 to |records|
        invariant index == IndexOf(records[..i])
      {
        assert records[..i + 1][..i] == records[..i];
        index := index[records[i].id := i];
      }
      assert records[..|records|] == records;
    }

    method Append(r: MemoryRecord, now: Clock, diskWorks: bool) returns (result: Result<MemoryRecord, StoreError>)
      requires Valid()
      modifies this
      ensures Valid() && skippedRecords == old(skippedRecords)
      ensures diskWorks ==>
                && result == Success(Prepared(codec, dimensions, r, now))
                && StoredAs(codec, dimensions, r, result.value, now)
                && records == Put(old(records), result.value)
                && file == Some(FileText(codec, records))
      ensures !diskWorks ==> result == Failure(DiskFailure) && records == old(records) && file == old(file)
    {
      var stored := Prepared(codec, dimensions, r, now);
      var changed := records;
      if stored.id in index {
        changed := changed[index[stored.id] := stored];
      } else {
        changed := changed + [stored];
      }
      var ok := Persist(changed, diskWorks);
      if !ok {
        return Failure(DiskFailure);
      }
      records := changed;
      RebuildIndex();
      result := Success(stored);
    }

    method ReplaceMatching(matches: MemoryRecord -> bool, news: seq<MemoryRecord>, now: Clock, diskWorks: bool)
      returns (result: Result<seq<MemoryRecord>, StoreError>)
      requires Valid()
      modifies this
      ensures Valid() && skippedRecords == old(skippedRecords)
      ensures diskWorks ==>
                && result == Success(PreparedAll(codec, dimensions, news, now))
                && (forall k :: 0 <= k < |news| ==> StoredAs(codec, dimensions, news[k], result.value[k], now))
                && records == Replaced(old(records), matches, result.value)
                && file == Some(FileText(codec, records))
      ensures !diskWorks ==> result == Failure(DiskFailure) && records == old(records) && file == old(file)
    {
      hide PreparedAll, StoredAs, FileText, PutAll, Kept, IndexOf;
      var stored := PreparedAll(codec, dimensions, news, now);
      AllStoredAs(codec, dimensions, news, now);
      var kept := PutEach(Kept(records, matches), stored);
      var ok := Persist(kept, diskWorks);
      if !ok {
        return Failure(DiskFailure);
      }
      records := kept;
      RebuildIndex();
      result := Success(stored);
    }

    /** Looking up by id agrees with the list. */
    method Lookup(id: string) returns (r: Option<MemoryRecord>)
      requires Valid()
      ensures r == if id in View(records) then Some(View(records)[id]) else None
    {
      r := if id in index then Some(records[index[id]]) else None;
    }
  }

  lemma AllStoredAs(c: Codec, d: nat, news: seq<MemoryRecord>, now: Clock)
    ensures |PreparedAll(c, d, news, now)| == |news|
    ensures forall k :: 0 <= k < |news| ==> StoredAs(c, d, news[k], PreparedAll(c, d, news, now)[k], now)
  {}

  /** Puts each record in turn, finding its place in an index that grows along. */
  method PutEach(rs: seq<MemoryRecord>, news: seq<MemoryRecord>) returns (all: seq<MemoryRecord>)
    ensures all == PutAll(rs, news)
  {
    hide IndexOf, View, NoDuplicates;
    all := rs;
    var indexes := IndexOf(rs);
    for i := 0 to |news|
      invariant all == PutAll(rs, news[..i])
      invariant indexes == IndexOf(all)
    {
      PutRefinesMap(all, news[i]);
      PutNext(rs, news, i);
      if news[i].id in indexes {
        all := all[indexes[news[i].id] := news[i]];
      } else {
        indexes := indexes[news[i].id := |all|];
        all := all + [news[i]];
      }
    }
    assert news[..|news|] == news;
  }

  lemma PutNext(rs: seq<MemoryRecord>, news: seq<MemoryRecord>, i: nat)
    requires i < |news|
    ensures PutAll(rs, news[..i + 1]) == Put(PutAll(rs, news[..i]), news[i])
  {
    hide Put;
    assert news[..i + 1][..i] == news[..i];
  }

  /** A line is blank, or unreadable and counted, or a record. */
  lemma ReadLine(c: Codec, d: nat, so: Loaded, line: string)
    ensures Blank(line) ==> LoadLine(c, d, so, line) == so
    ensures !Blank(line) && c.decode(line).None? ==> LoadLine(c, d, so, line) == so.(skipped := so.skipped + 1)
    ensures !Blank(line) && c.decode(line).Some? ==>
              LoadLine(c, d, so, line) == so.(records := so.records + [Embedded(c, d, c.decode(line).value)])
  {
    hide Blank, Embedded;
  }

  lemma LoadNext(c: Codec, d: nat, lines: seq<string>, i: nat)
    requires i < |lines|
    ensures LoadLines(c, d, lines[..i + 1]) == LoadLine(c, d, LoadLines(c, d, lines[..i]), lines[i])
  {
    hide LoadLine;
    assert lines[..i + 1][..i] == lines[..i];
  }

  // ----- what survives being written and loaded again -----

  ghost function LoadOver(c: Codec, d: nat, so: Loaded, lines: seq<string>): Loaded {
    if lines == [] then so else LoadLine(c, d, LoadOver(c, d, so, lines[..|lines| - 1]), lines[|lines| - 1])
  }

  lemma {:induction false} LoadConcat(c: Codec, d: nat, a: seq<string>, b: seq<string>)
    ensures LoadLines(c, d, a + b) == LoadOver(c, d, LoadLines(c, d, a), b)
  {
    hide LoadLine;
    if b == [] {
      assert a + b == a;
    } else {
      assert (a + b)[..|a + b| - 1] == a + b[..|b| - 1];
      LoadConcat(c, d, a, b[..|b| - 1]);
    }
  }

  lemma {:induction false} UnreadablePieces(c: Codec, d: nat, so: Loaded, lines: seq<string>)
    requires forall line :: line in lines ==> c.decode(line).None?
    ensures LoadOver(c, d, so, lines).records == so.records
  {
    hide Blank;
    if lines != [] {
      UnreadablePieces(c, d, so, lines[..|lines| - 1]);
    }
  }

  lemma LoadOverEmptyEnd(c: Codec, d: nat, so: Loaded, lines: seq<string>)
    ensures LoadOver(c, d, so, lines + [""]) == LoadOver(c, d, so, lines)
  {
    hide Blank, LoadLine;
    NothingIsBlank();
    ReadLine(c, d, LoadOver(c, d, so, lines), "");
    assert (lines + [""])[..|lines|] == lines;
  }

  lemma LoadOverOne(c: Codec, d: nat, so: Loaded, line: string)
    ensures LoadOver(c, d, so, [line]) == LoadLine(c, d, so, line)
  {
    hide LoadLine;
    assert [line][..0] == [] && LoadOver(c, d, so, []) == so;
  }

  /** One record's line adds the record if it prints cleanly, and otherwise none. */
  lemma LineOfRecord(c: Codec, d: nat, so: Loaded, r: MemoryRecord)
    requires PrintedWell(c, r)
    ensures var after := LoadOver(c, d, so, Split(c.encode(r) + ['\n'], IsLineBoundary));
            OneMore(c, d, r, so, after)
  {
    hide Blank, Split, LoadOver, LoadLine, PrintedWell, Clean;
    var pieces := Split(c.encode(r), IsLineBoundary);
    SplitEnd(c.encode(r), '\n', IsLineBoundary);
    LoadOverEmptyEnd(c, d, so, pieces);
    if Clean(c, r) {
      WholeLine(c, d, so, r);
      LoadOverOne(c, d, so, c.encode(r));
    } else {
      CutLine(c, r);
      UnreadablePieces(c, d, so, pieces);
    }
  }

  lemma CutLine(c: Codec, r: MemoryRecord)
    requires PrintedWell(c, r) && !Clean(c, r)
    ensures forall piece :: piece in Split(c.encode(r), IsLineBoundary) ==> c.decode(piece).None?
  {
    hide Split, Blank;
  }

  lemma WholeLine(c: Codec, d: nat, so: Loaded, r: MemoryRecord)
    requires PrintedWell(c, r) && Clean(c, r)
    ensures Split(c.encode(r), IsLineBoundary) == [c.encode(r)]
    ensures LoadLine(c, d, so, c.encode(r)) == so.(records := so.records + [Embedded(c, d, r)])
  {
    SplitUnbroken(c.encode(r), IsLineBoundary);
    hide Blank, Split, Embedded;
  }

  lemma LoadNothing(c: Codec, d: nat)
    ensures Load(c, d, Some("")) == Loaded([], 0)
  {
    assert Split("", IsLineBoundary) == [""] && Blank("");
    hide Split, Blank;
    var lines := [""];
    assert lines[..0] == [];
    assert LoadLines(c, d, lines) == LoadLine(c, d, LoadLines(c, d, lines[..0]), lines[0]);
    LoadLinesNothing(c, d);
    hide LoadLines;
  }

  /** What a store of other dimensions makes of records: the same, but for embeddings of another length. */
  ghost function Reembedded(c: Codec, d: nat, rs: seq<MemoryRecord>): seq<MemoryRecord> {
    if rs == [] then []
    else Reembedded(c, d, rs[..|rs| - 1]) + [Embedded(c, d, rs[|rs| - 1])]
  }

  lemma {:induction false} ReembeddedSame(c: Codec, d: nat, rs: seq<MemoryRecord>)
    requires forall r :: r in rs ==> |r.content.embedding| == d
    ensures Reembedded(c, d, rs) == rs
  {
    if rs != [] {
      var front, last := rs[..|rs| - 1], rs[|rs| - 1];
      assert last in rs && rs == front + [last];
      ReembeddedSame(c, d, front);
    }
  }

  /** Position by position: an embedding of the right length is kept and any other computed anew, and
      nothing else changes. */
  lemma {:induction false} ReembeddedAt(c: Codec, d: nat, rs: seq<MemoryRecord>, k: nat)
    requires k < |rs|
    ensures |Reembedded(c, d, rs)| == |rs|
    ensures var after := Reembedded(c, d, rs)[k];
            && after == rs[k].(content := rs[k].content.(embedding := after.content.embedding))
            && after.content.embedding
               == if |rs[k].content.embedding| == d then rs[k].content.embedding else c.vectorize(rs[k], d)
  {
    var n := |rs| - 1;
    if n > 0 {
      ReembeddedAt(c, d, rs[..n], if k < n then k else 0);
    }
  }

  lemma ReembeddedMore(c: Codec, d: nat, rs: seq<MemoryRecord>, r: MemoryRecord)
    ensures Reembedded(c, d, rs + [r]) == Reembedded(c, d, rs) + [Embedded(c, d, r)]
  {
    hide Embedded;
    assert (rs + [r])[..|rs|] == rs;
  }

  /** Writing records and loading them again, at any dimensions, gives exactly those that print on one
      line, embedded anew where the length differs. */
  lemma {:induction false} ReloadReembeds(c: Codec, d: nat, rs: seq<MemoryRecord>)
    requires forall r :: r in rs ==> PrintedWell(c, r)
    ensures Load(c, d, Some(FileText(c, rs))).records == Reembedded(c, d, CleanOnes(c, rs))
    ensures (forall r :: r in rs ==> Clean(c, r)) ==> Load(c, d, Some(FileText(c, rs))).skipped == 0
  {
    hide Load, Clean, PrintedWell, Embedded;
    if rs == [] {
      LoadNothing(c, d);
    } else {
      var front, last := rs[..|rs| - 1], rs[|rs| - 1];
      assert forall r :: r in front ==> r in rs;
      assert last in rs;
      ReloadReembeds(c, d, front);
      AppendedLine(c, d, FileText(c, front), last);
      ReembeddedMore(c, d, CleanOnes(c, front), last);
      assert CleanOnes(c, front) + [] == CleanOnes(c, front);
      hide Reembedded;
    }
  }

  /** At the same dimensions it gives back exactly those that print on one line. */
  lemma ReloadKeepsClean(c: Codec, d: nat, rs: seq<MemoryRecord>)
    requires Lawful(c, d, rs)
    ensures Load(c, d, Some(FileText(c, rs))).records == CleanOnes(c, rs)
    ensures (forall r :: r in rs ==> Clean(c, r)) ==> Load(c, d, Some(FileText(c, rs))).skipped == 0
  {
    hide Load, Clean, PrintedWell;
    ReloadReembeds(c, d, rs);
    CleanOnesContents(c, rs);
    ReembeddedSame(c, d, CleanOnes(c, rs));
  }

  ghost predicate OneMore(c: Codec, d: nat, r: MemoryRecord, before: Loaded, after: Loaded) {
    && after.records == before.records + (if Clean(c, r) then [Embedded(c, d, r)] else [])
    && (Clean(c, r) ==> after.skipped == before.skipped)
  }

  lemma FirstLine(c: Codec, d: nat, r: MemoryRecord)
    requires PrintedWell(c, r)
    ensures OneMore(c, d, r, Load(c, d, Some("")), Load(c, d, Some(c.encode(r) + ['\n'])))
  {
    LoadNothing(c, d);
    LoadLinesNothing(c, d);
    hide Split, LoadLines, LoadOver, Clean, PrintedWell;
    var lines := Split(c.encode(r) + ['\n'], IsLineBoundary);
    assert [] + lines == lines;
    LoadConcat(c, d, [], lines);
    LineOfRecord(c, d, Loaded([], 0), r);
  }

  lemma NextLine(c: Codec, d: nat, front: string, r: MemoryRecord)
    requires PrintedWell(c, r)
    ensures OneMore(c, d, r, Load(c, d, Some(front + ['\n'])),
                    Load(c, d, Some(front + ['\n'] + (c.encode(r) + ['\n']))))
  {
    hide Split, LoadLines, LoadOver, Clean, PrintedWell;
    var line := c.encode(r) + ['\n'];
    var before := Split(front, IsLineBoundary);
    SplitEnd(front, '\n', IsLineBoundary);
    SplitAt(front, '\n', line, IsLineBoundary);
    LoadConcat(c, d, before, [""]);
    LoadOverEmptyOne(c, d, LoadLines(c, d, before));
    LoadConcat(c, d, before, Split(line, IsLineBoundary));
    LineOfRecord(c, d, LoadLines(c, d, before), r);
  }

  lemma AppendedLine(c: Codec, d: nat, text: string, r: MemoryRecord)
    requires PrintedWell(c, r) && (text == "" || text[|text| - 1] == '\n')
    ensures OneMore(c, d, r, Load(c, d, Some(text)), Load(c, d, Some(text + c.encode(r) + ['\n'])))
  {
    hide Load, PrintedWell, OneMore;
    var line := c.encode(r) + ['\n'];
    assert text + c.encode(r) + ['\n'] == text + line;
    if text == "" {
      assert text + line == line;
      FirstLine(c, d, r);
    } else {
      var front := text[..|text| - 1];
      assert text == front + ['\n'];
      NextLine(c, d, front, r);
    }
  }

  lemma LoadLinesNothing(c: Codec, d: nat)
    ensures LoadLines(c, d, []) == Loaded([], 0)
  {}

  lemma LoadOverEmptyOne(c: Codec, d: nat, so: Loaded)
    ensures LoadOver(c, d, so, [""]) == so
  {
    hide Blank, LoadLine;
    NothingIsBlank();
    ReadLine(c, d, so, "");
    LoadOverOne(c, d, so, "");
  }

  ghost function CleanOnes(c: Codec, rs: seq<MemoryRecord>): seq<MemoryRecord> {
    if rs == [] then []
    else
      var last := rs[|rs| - 1];
      CleanOnes(c, rs[..|rs| - 1]) + if Clean(c, last) then [last] else []
  }

  lemma {:induction false} CleanOnesContents(c: Codec, rs: seq<MemoryRecord>)
    ensures forall r :: r in CleanOnes(c, rs) <==> r in rs && Clean(c, r)
    ensures |CleanOnes(c, rs)| <= |rs|
    ensures CleanOnes(c, rs) == rs <==> forall r :: r in rs ==> Clean(c, r)
  {
    hide Clean;
    if rs != [] {
      var front, last := rs[..|rs| - 1], rs[|rs| - 1];
      CleanOnesContents(c, front);
      assert rs == front + [last];
      if CleanOnes(c, rs) == rs {
        assert CleanOnes(c, rs)[..|rs| - 1] == front;
      }
    }
  }

  /** The reload gives the same records exactly when every one of them prints without a line-boundary
      character. JSON text may hold U+0085, U+2028 and U+2029 unescaped inside strings. */
  lemma ReloadRoundTrip(c: Codec, d: nat, rs: seq<MemoryRecord>)
    requires Lawful(c, d, rs)
    ensures Load(c, d, Some(FileText(c, rs))).records == rs <==> forall r :: r in rs ==> Clean(c, r)
    ensures (forall r :: r in rs ==> Clean(c, r)) ==> Load(c, d, Some(FileText(c, rs))) == Loaded(rs, 0)
  {
    ReloadKeepsClean(c, d, rs);
    CleanOnesContents(c, rs);
  }

  lemma {:induction false} CleanOnesNoDuplicates(c: Codec, rs: seq<MemoryRecord>)
    requires NoDuplicates(rs)
    ensures NoDuplicates(CleanOnes(c, rs))
  {
    hide Clean;
    if rs != [] {
      var front, last := rs[..|rs| - 1], rs[|rs| - 1];
      LastIsNew(rs);
      hide NoDuplicates;
      CleanOnesNoDuplicates(c, front);
      CleanOnesContents(c, front);
      NewAtTheEnd(CleanOnes(c, front), last);
    }
  }

  // ----- a record that is lost -----

  const NO_CONTENT := Content(None, None, None, None, None, [], None, None, [], [])

  /** Prints a record without content as its id in braces. */
  const IDS_IN_BRACES := Codec(
    (r: MemoryRecord) => "{" + r.id + "}",
    s => if |s| >= 2 && s[0] == '{' && s[|s| - 1] == '}' then Some(Entry(s[1..|s| - 1], NO_CONTENT)) else None,
    (r: MemoryRecord, d: nat) => seq(d, _ => 0))

  lemma BracesParseBack(id: string)
    ensures IDS_IN_BRACES.encode(Entry(id, NO_CONTENT)) == "{" + id + "}"
    ensures IDS_IN_BRACES.decode("{" + id + "}") == Some(Entry(id, NO_CONTENT))
  {
    assert ("{" + id + "}")[1..|id| + 1] == id;
  }

  lemma CutAtSeparator(text: string)
    requires text == "{fee\U{2028}killed}"
    ensures Split(text, IsLineBoundary) == ["{fee", "killed}"] && !Unbroken(text, IsLineBoundary) && !Blank(text)
  {
    hide Split;
    assert text == "{fee" + ['\U{2028}'] + "killed}" && text[4] == '\U{2028}';
    SplitAt("{fee", '\U{2028}', "killed}", IsLineBoundary);
    SplitUnbroken("{fee", IsLineBoundary);
    SplitUnbroken("killed}", IsLineBoundary);
    SolidText(text);
  }

  const LOST_ID := "fee\U{2028}killed"

  const LOST := Entry(LOST_ID, NO_CONTENT)

  lemma LostPrintsWell()
    ensures PrintedWell(IDS_IN_BRACES, LOST)
    ensures Split(IDS_IN_BRACES.encode(LOST), IsLineBoundary) == ["{fee", "killed}"]
  {
    hide Split, Blank, IsLineBoundary;
    BracesParseBack(LOST_ID);
    CutAtSeparator(IDS_IN_BRACES.encode(LOST));
  }

  /** A record with a line separator in it parses back by itself, yet the store that wrote it loads
      nothing and skips two lines. */
  lemma SeparatorLosesRecord()
    ensures Lawful(IDS_IN_BRACES, 0, [LOST])
    ensures Load(IDS_IN_BRACES, 0, Some(FileText(IDS_IN_BRACES, [LOST]))) == Loaded([], 2)
  {
    hide PrintedWell, Split, LoadLines, IsLineBoundary, FileText;
    LostPrintsWell();
    OneRecordText(IDS_IN_BRACES, LOST);
    NewlineBounds();
    SplitEnd(IDS_IN_BRACES.encode(LOST), '\n', IsLineBoundary);
    assert ["{fee", "killed}"] + [""] == ["{fee", "killed}", ""];
    ThreeLines(IDS_IN_BRACES);
  }

  lemma NewlineBounds()
    ensures IsLineBoundary('\n')
  {}

  lemma OneRecordText(c: Codec, r: MemoryRecord)
    ensures FileText(c, [r]) == c.encode(r) + ['\n']
  {
    assert [r][..0] == [] && FileText(c, []) == "";
  }

  lemma SolidText(text: string)
    requires text != "" && !IsSpace(text[0])
    ensures !Blank(text)
  {
    StripPiece(text);
  }

  lemma NothingIsBlank()
    ensures Blank("")
  {}

  lemma ThreeLines(c: Codec)
    requires c.decode("{fee").None? && c.decode("killed}").None?
    ensures LoadLines(c, 0, ["{fee", "killed}", ""]) == Loaded([], 2)
  {
    hide Blank, LoadLine;
    var lines := ["{fee", "killed}", ""];
    SolidText("{fee");
    SolidText("killed}");
    NothingIsBlank();
    LoadLinesNothing(c, 0);
    assert lines[..0] == [] && lines[..3] == lines;
    forall i | 0 <= i < 3 {
      LoadNext(c, 0, lines, i);
    }
    ReadLine(c, 0, Loaded([], 0), "{fee");
    ReadLine(c, 0, Loaded([], 1), "killed}");
    ReadLine(c, 0, Loaded([], 2), "");
  }
}
