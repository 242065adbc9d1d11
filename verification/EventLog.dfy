/** The append-only event log: one printed event per line, a torn tail repaired on opening,
    unreadable lines counted on loading. */
module EventLog {
  import opened Common
  import opened TextLines

  /** How events become text and back; what the JSON library does is a parameter. */
  datatype Codec<!Event> = Codec(encode: Event -> string, decode: string -> Option<Event>)

  predicate IsNewline(c: char) {
    c == '\n' || c == '\r'
  }

  ghost predicate PrintedWell<Event>(c: Codec<Event>, e: Event) {
    var text := c.encode(e);
    && text != "" && !IsSpace(text[0]) && !IsSpace(text[|text| - 1])
    && Unbroken(text, IsNewline)
    && c.decode(text) == Some(e)
    && forall p :: p < text ==> c.decode(p).None?
  }

  /** Printed events parse back, sit on one line without outer whitespace, and no proper prefix of one parses. */
  ghost predicate Lawful<Event(!new)>(c: Codec<Event>) {
    forall e :: PrintedWell(c, e)
  }

  // ----- loading -----

  datatype Loaded<Event> = Loaded(events: seq<Event>, skipped: nat)

  function Joined<Event>(a: Loaded<Event>, b: Loaded<Event>): Loaded<Event> {
    Loaded(a.events + b.events, a.skipped + b.skipped)
  }

  function LoadLine<Event>(c: Codec<Event>, line: string): Loaded<Event> {
    if Blank(line) then Loaded([], 0)
    else
      match c.decode(Strip(line))
      case Some(e) => Loaded([e], 0)
      case None => Loaded([], 1)
  }

  function LoadLines<Event>(c: Codec<Event>, lines: seq<string>): Loaded<Event> {
    if lines == [] then Loaded([], 0)
    else Joined(LoadLines(c, lines[..|lines| - 1]), LoadLine(c, lines[|lines| - 1]))
  }

  function Load<Event>(c: Codec<Event>, file: Option<string>): Loaded<Event> {
    if file.None? then Loaded([], 0) else LoadLines(c, Split(file.value, IsNewline))
  }

  lemma LoadNext<Event>(c: Codec<Event>, lines: seq<string>, i: nat)
    requires i < |lines|
    ensures LoadLines(c, lines[..i + 1]) == Joined(LoadLines(c, lines[..i]), LoadLine(c, lines[i]))
  {
    hide LoadLine;
    assert lines[..i + 1][..i] == lines[..i];
  }

  /** A line is blank, or unreadable and counted, or an event. */
  lemma ReadLine<Event>(c: Codec<Event>, line: string)
    ensures var text := Strip(line);
            LoadLine(c, line) == if text == "" then Loaded([], 0)
                                 else if c.decode(text).None? then Loaded([], 1)
                                 else Loaded([c.decode(text).value], 0)
  {
    hide Strip;
  }

  method LoadEvents<Event>(c: Codec<Event>, file: Option<string>) returns (r: Loaded<Event>)
    ensures r == Load(c, file)
  {
    hide LoadLines, LoadLine, Strip, Split;
    if file.None? {
      return Loaded([], 0);
    }
    var lines := Split(file.value, IsNewline);
    var events, skipped := [], 0;
    assert lines[..0] == [];
    NoLines(c);
    for i := 0 to |lines|
      invariant Loaded(events, skipped) == LoadLines(c, lines[..i])
    {
      LoadNext(c, lines, i);
      ReadLine(c, lines[i]);
      var line := Strip(lines[i]);
      if line == "" {
        continue;
      }
      var parsed := c.decode(line);
      if parsed.Some? {
        events := events + [parsed.value];
      } else {
        skipped := skipped + 1;
      }
    }
    assert lines[..|lines|] == lines;
    r := Loaded(events, skipped);
  }

  lemma NoLines<Event>(c: Codec<Event>)
    ensures LoadLines(c, []) == Loaded([], 0)
  {}

  // ----- the logger -----

  /** The file on disk, if any, and whether a logger holds it open. */
  datatype LogState = LogState(file: Option<string>, open: bool)

  function Repaired(file: Option<string>): string {
    if file.None? then ""
    else if file.value == "" || file.value[|file.value| - 1] == '\n' then file.value
    else file.value + ['\n']
  }

  function Opened(s: LogState): (r: LogState)
    ensures r.open
  {
    if s.open then s else LogState(Some(Repaired(s.file)), true)
  }

  /** The first `k` characters of a printed event, appended by a process that is then gone
      unless the newline follows. */
  function Appended(s: LogState, text: string, stillOpen: bool): LogState {
    var file := Opened(s).file;
    LogState(Some((if file.Some? then file.value else "") + text), stillOpen)
  }

  class EventLogger<Event> {
    const codec: Codec<Event>
    var file: Option<string>
    var handleOpen: bool

    function State(): LogState
      reads this
    {
      LogState(file, handleOpen)
    }

    constructor (codec: Codec<Event>, file: Option<string>)
      ensures this.codec == codec && State() == LogState(file, false)
    {
      this.codec, this.file, handleOpen := codec, file, false;
    }

    method EnsureTrailingNewline()
      modifies this
      ensures handleOpen == old(handleOpen)
      ensures file == if old(file).None? then None else Some(Repaired(old(file)))
    {
      if file.None? || file.value == "" {
        return;
      }
      if file.value[|file.value| - 1] != '\n' {
        file := Some(file.value + ['\n']);
      }
    }

    method Open()
      modifies this
      ensures State() == Opened(old(State())) == After(codec, old(State()), Step.Open)
    {
      if handleOpen {
        return;
      }
      EnsureTrailingNewline();
      if file.None? {
        file := Some("");
      }
      handleOpen := true;
    }

    method Close()
      modifies this
      ensures State() == LogState(old(file), false) == After(codec, old(State()), Step.Close)
    {
      if !handleOpen {
        return;
      }
      handleOpen := false;
    }

    method Record(e: Event) returns (recorded: Event)
      requires handleOpen ==> file.Some?
      modifies this
      ensures State() == Appended(old(State()), codec.encode(e) + ['\n'], true)
                      == After(codec, old(State()), Step.Record(e))
      ensures recorded == e
    {
      if !handleOpen {
        Open();
      }
      file := Some(file.value + (codec.encode(e) + ['\n']));
      recorded := e;
    }
  }

  // ----- runs with crashes -----

  /** What can happen to the log. A crash while recording an event leaves its first `k` characters;
      a process that dies between operations is a Close. */
  datatype Step<Event> = Open | Close | Record(event: Event) | Crash(event: Event, k: nat)

  ghost predicate Possible<Event>(c: Codec<Event>, steps: seq<Step<Event>>) {
    forall x :: x in steps && x.Crash? ==> x.k <= |c.encode(x.event)|
  }

  ghost function After<Event>(c: Codec<Event>, s: LogState, x: Step<Event>): LogState
    requires x.Crash? ==> x.k <= |c.encode(x.event)|
  {
    match x
    case Open => Opened(s)
    case Close => s.(open := false)
    case Record(e) => Appended(s, c.encode(e) + ['\n'], true)
    case Crash(e, k) => Appended(s, c.encode(e)[..k], false)
  }

  ghost function Run<Event>(c: Codec<Event>, s: LogState, steps: seq<Step<Event>>): LogState
    requires Possible(c, steps)
  {
    if steps == [] then s else After(c, Run(c, s, steps[..|steps| - 1]), steps[|steps| - 1])
  }

  /** The events whose text was written completely, in order. */
  ghost function Written<Event>(c: Codec<Event>, steps: seq<Step<Event>>): seq<Event> {
    if steps == [] then []
    else
      var x := steps[|steps| - 1];
      Written(c, steps[..|steps| - 1])
      + if x.Record? || (x.Crash? && x.k == |c.encode(x.event)|) then [x.event] else []
  }

  /** The number of crashes that left part of an event behind. */
  ghost function Torn<Event>(c: Codec<Event>, steps: seq<Step<Event>>): nat {
    if steps == [] then 0
    else
      var x := steps[|steps| - 1];
      Torn(c, steps[..|steps| - 1]) + if x.Crash? && 0 < x.k < |c.encode(x.event)| then 1 else 0
  }

  predicate EndsLine(text: string) {
    text == "" || text[|text| - 1] == '\n'
  }

  /** An open log ends a line. */
  predicate Sound(s: LogState) {
    s.open ==> s.file.Some? && EndsLine(s.file.value)
  }

  lemma {:induction false} LoadConcat<Event>(c: Codec<Event>, a: seq<string>, b: seq<string>)
    ensures LoadLines(c, a + b) == Joined(LoadLines(c, a), LoadLines(c, b))
  {
    hide LoadLine;
    if b == [] {
      assert a + b == a;
    } else {
      var front, line := b[..|b| - 1], LoadLine(c, b[|b| - 1]);
      assert (a + b)[..|a + b| - 1] == a + front;
      LoadConcat(c, a, front);
      JoinedAssociates(LoadLines(c, a), LoadLines(c, front), line);
    }
  }

  lemma JoinedAssociates<Event>(x: Loaded<Event>, y: Loaded<Event>, z: Loaded<Event>)
    ensures Joined(Joined(x, y), z) == Joined(x, Joined(y, z))
  {}

  lemma LoadOneLine<Event>(c: Codec<Event>, line: string)
    ensures LoadLines(c, [line]) == LoadLine(c, line)
  {
    hide LoadLine;
    var lines := [line];
    assert LoadLines(c, lines) == Joined(LoadLines(c, lines[..0]), LoadLine(c, line));
    assert lines[..0] == [];
    assert LoadLines(c, []) == Loaded([], 0);
    hide LoadLines;
    JoinedNothing(LoadLine(c, line));
  }

  lemma JoinedNothing<Event>(x: Loaded<Event>)
    ensures Joined(Loaded([], 0), x) == x == Joined(x, Loaded([], 0))
  {}

  lemma LoadNothing<Event>(c: Codec<Event>)
    ensures Load(c, Some("")) == Loaded([], 0)
  {
    LoadOneLine(c, "");
  }

  /** Ending the last line changes nothing about what loads. */
  lemma LoadEnded<Event>(c: Codec<Event>, text: string)
    ensures Load(c, Some(text + ['\n'])) == Load(c, Some(text))
  {
    hide Split, LoadLines;
    SplitEnd(text, '\n', IsNewline);
    LoadConcat(c, Split(text, IsNewline), [""]);
    LoadOneLine(c, "");
    JoinedNothing(Load(c, Some(text)));
  }

  /** After a line end, an unbroken piece of text loads as a line of its own. */
  lemma LoadPiece<Event>(c: Codec<Event>, text: string, piece: string)
    requires EndsLine(text) && Unbroken(piece, IsNewline)
    ensures Load(c, Some(text + piece)) == Joined(Load(c, Some(text)), LoadLine(c, piece))
  {
    hide Split, LoadLines, LoadLine;
    SplitUnbroken(piece, IsNewline);
    LoadOneLine(c, piece);
    if text == "" {
      assert text + piece == piece;
      LoadNothing(c);
      JoinedNothing(LoadLine(c, piece));
    } else {
      var front := text[..|text| - 1];
      assert text == front + ['\n'];
      SplitAt(front, '\n', piece, IsNewline);
      LoadConcat(c, Split(front, IsNewline), [piece]);
      LoadEnded(c, front);
    }
  }

  lemma LoadRepaired<Event>(c: Codec<Event>, file: Option<string>)
    ensures EndsLine(Repaired(file))
    ensures Load(c, Some(Repaired(file))) == Load(c, file)
  {
    hide LoadLines, Split;
    if file.None? {
      LoadNothing(c);
    } else {
      LoadEnded(c, file.value);
    }
  }

  /** What the first `k` characters of a printed event load as. */
  lemma LoadPrefix<Event>(c: Codec<Event>, e: Event, k: nat)
    requires PrintedWell(c, e) && k <= |c.encode(e)|
    ensures Unbroken(c.encode(e)[..k], IsNewline)
    ensures LoadLine(c, c.encode(e)[..k])
         == if k == |c.encode(e)| then Loaded([e], 0) else if k == 0 then Loaded([], 0) else Loaded([], 1)
  {
    var text := c.encode(e);
    var piece := text[..k];
    if k == |text| {
      assert piece == text;
      StripNothing(text);
    } else if k > 0 {
      StripPiece(piece);
      assert Strip(piece) < text;
    }
  }

  /** What one step adds to a later load. */
  ghost function Gain<Event>(c: Codec<Event>, x: Step<Event>): Loaded<Event> {
    match x
    case Open => Loaded([], 0)
    case Close => Loaded([], 0)
    case Record(e) => Loaded([e], 0)
    case Crash(e, k) =>
      if k == |c.encode(e)| then Loaded([e], 0) else if k == 0 then Loaded([], 0) else Loaded([], 1)
  }

  lemma PieceLoads<Event>(c: Codec<Event>, p: LogState, e: Event, k: nat)
    requires PrintedWell(c, e) && k <= |c.encode(e)| && Sound(p)
    ensures var text := Opened(p).file.value + c.encode(e)[..k];
            Load(c, Some(text)) == Joined(Load(c, p.file), Gain(c, Crash(e, k)))
  {
    hide Load, LoadLine, PrintedWell, Repaired;
    LoadRepaired(c, p.file);
    var text, piece := Opened(p).file.value, c.encode(e)[..k];
    assert EndsLine(text) && Load(c, Some(text)) == Load(c, p.file);
    LoadPrefix(c, e, k);
    LoadPiece(c, text, piece);
  }

  lemma StepLoads<Event>(c: Codec<Event>, p: LogState, x: Step<Event>)
    requires Sound(p) && (x.Crash? ==> x.k <= |c.encode(x.event)|)
    requires x.Record? || x.Crash? ==> PrintedWell(c, x.event)
    ensures Sound(After(c, p, x)) && Load(c, After(c, p, x).file) == Joined(Load(c, p.file), Gain(c, x))
  {
    hide Load, PrintedWell, Repaired;
    LoadRepaired(c, p.file);
    JoinedNothing(Load(c, p.file));
    match x
    case Open =>
    case Close =>
    case Record(e) =>
      var text := c.encode(e);
      assert text[..|text|] == text;
      PieceLoads(c, p, e, |text|);
      LoadEnded(c, Opened(p).file.value + text);
      assert Opened(p).file.value + (text + ['\n']) == Opened(p).file.value + text + ['\n'];
    case Crash(e, k) => PieceLoads(c, p, e, k);
  }

  /** Whatever the file held before, and however often the process opened it, recorded, closed and
      crashed half way through an event: loading finds what was there plus exactly the events written
      completely, in order, and skips one line for every torn event. No torn tail swallows a later event. */
  lemma {:induction false} NoEventIsLost<Event(!new)>(c: Codec<Event>, s: LogState, steps: seq<Step<Event>>)
    requires Lawful(c) && Sound(s) && Possible(c, steps)
    ensures Sound(Run(c, s, steps))
    ensures Load(c, Run(c, s, steps).file)
         == Joined(Load(c, s.file), Loaded(Written(c, steps), Torn(c, steps)))
  {
    hide Load, Sound, After, PrintedWell;
    if steps == [] {
      JoinedNothing(Load(c, s.file));
    } else {
      var front, x := steps[..|steps| - 1], steps[|steps| - 1];
      NoEventIsLost(c, s, front);
      assert x.Record? || x.Crash? ==> PrintedWell(c, x.event);
      StepLoads(c, Run(c, s, front), x);
      JoinedAssociates(Load(c, s.file), Loaded(Written(c, front), Torn(c, front)), Gain(c, x));
    }
  }

  /** The assumptions about printing and parsing can be met. */
  lemma LawfulCodecExists()
    ensures Lawful(Codec((e: bool) => if e then "{t}" else "{f}",
                         (text: string) =>
                           if text == "{t}" then Some(true) else if text == "{f}" then Some(false) else None))
  {}
}
