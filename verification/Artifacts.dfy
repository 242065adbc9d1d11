/** Artifact files: written to a temporary name next to the target and then moved over it, the
    latest pointer after the target. */
module Artifacts {
  import opened Common

  datatype Path = Path(dir: string, name: string)

  function Temporary(p: Path): Path {
    Path(p.dir, "." + p.name + ".tmp")
  }

  type Files = map<Path, string>

  datatype Job = Job(target: Path, latest: Option<Path>, text: string)

  datatype Leg = Target | Latest

  datatype Stage = Open(leg: Leg) | Fill(leg: Leg) | Swap(leg: Leg) | Done

  datatype Writing = Writing(files: Files, stage: Stage)

  function Destination(job: Job, leg: Leg): Path {
    if leg.Latest? && job.latest.Some? then job.latest.value else job.target
  }

  /** One system call of the writer: truncate the temporary file, write its text up to some
      length, or move it over the destination. A crash is a job that never advances again. */
  function Advance(job: Job, w: Writing, n: nat): Writing {
    match w.stage
    case Open(leg) => Writing(w.files[Temporary(Destination(job, leg)) := ""], Fill(leg))
    case Fill(leg) =>
      var k := if n < |job.text| then n else |job.text|;
      Writing(w.files[Temporary(Destination(job, leg)) := job.text[..k]],
              if k == |job.text| then Swap(leg) else Fill(leg))
    case Swap(leg) =>
      var from := Temporary(Destination(job, leg));
      Writing(if from in w.files then w.files[Destination(job, leg) := w.files[from]] - {from} else w.files,
              if leg.Target? && job.latest.Some? then Open(Latest) else Done)
    case Done => w
  }

  function Progress(files: Files, job: Job, calls: seq<nat>): Writing {
    if calls == [] then Writing(files, Open(Target))
    else Advance(job, Progress(files, job, calls[..|calls| - 1]), calls[|calls| - 1])
  }

  predicate IsTemporary(job: Job, q: Path) {
    q == Temporary(job.target) || (job.latest.Some? && q == Temporary(job.latest.value))
  }

  predicate Names(job: Job, q: Path) {
    q == job.target || job.latest == Some(q)
  }

  predicate Holds(files: Files, q: Path, text: string) {
    q in files && files[q] == text
  }

  predicate SameAt(files: Files, start: Files, q: Path) {
    (q in files <==> q in start) && (q in files ==> files[q] == start[q])
  }

  /** Neither artifact of the job has the temporary name of the other. */
  predicate Apart(job: Job) {
    job.latest.Some? ==> job.latest.value != Temporary(job.target) && job.target != Temporary(job.latest.value)
  }

  lemma TemporaryIsNew(p: Path)
    ensures Temporary(p) != p
  {
    assert |Temporary(p).name| > |p.name|;
  }

  /** What has happened to a path that is no temporary name: nothing, until its leg is moved into
      place, and then it has the new text. */
  ghost predicate SoFar(files: Files, job: Job, w: Writing, q: Path) {
    var targetDone := w.stage.Done? || w.stage.leg.Latest?;
    var latestDone := w.stage.Done? && job.latest.Some?;
    if (targetDone && q == job.target) || (latestDone && job.latest == Some(q)) then Holds(w.files, q, job.text)
    else SameAt(w.files, files, q)
  }

  /** The temporary file holds the whole text by the time it is moved. */
  ghost predicate TemporaryReady(job: Job, w: Writing) {
    && (w.stage.Swap? ==> Holds(w.files, Temporary(Destination(job, w.stage.leg)), job.text))
    && (!w.stage.Done? && w.stage.leg.Latest? ==> job.latest.Some?)
  }

  lemma {:induction false} ReadyWhenMoved(files: Files, job: Job, calls: seq<nat>)
    ensures TemporaryReady(job, Progress(files, job, calls))
  {
    if calls != [] {
      ReadyWhenMoved(files, job, calls[..|calls| - 1]);
    }
  }

  lemma {:induction false} PathSoFar(files: Files, job: Job, calls: seq<nat>, q: Path)
    requires !IsTemporary(job, q)
    ensures SoFar(files, job, Progress(files, job, calls), q)
  {
    if calls != [] {
      PathSoFar(files, job, calls[..|calls| - 1], q);
      ReadyWhenMoved(files, job, calls[..|calls| - 1]);
    }
  }

  /** Wherever a job stops, every path that is none of its temporary names holds its old content or
      the new text, and holds the new text only if the job names it. */
  lemma {:induction false} OldOrNew(files: Files, job: Job, calls: seq<nat>, q: Path)
    requires !IsTemporary(job, q)
    ensures var now := Progress(files, job, calls).files;
            SameAt(now, files, q) || (Names(job, q) && Holds(now, q, job.text))
  {
    PathSoFar(files, job, calls, q);
  }

  ghost predicate NeverTorn(job: Job) {
    forall files, calls, q :: Names(job, q) ==>
      var now := Progress(files, job, calls).files;
      SameAt(now, files, q) || Holds(now, q, job.text)
  }

  /** Both artifacts are old or new wherever the job stops, whatever was there before, exactly when
      neither has the temporary name of the other. */
  lemma NeverTornWhenApart(job: Job)
    requires job.text != ""
    ensures NeverTorn(job) <==> Apart(job)
  {
    TemporaryIsNew(job.target);
    if Apart(job) {
      if job.latest.Some? {
        TemporaryIsNew(job.latest.value);
      }
      forall files, calls, q | Names(job, q)
        ensures var now := Progress(files, job, calls).files; SameAt(now, files, q) || Holds(now, q, job.text)
      {
        OldOrNew(files, job, calls, q);
      }
    } else if job.latest.value == Temporary(job.target) {
      TornLatest(job);
    } else {
      TornTarget(job);
    }
  }

  lemma TornLatest(job: Job)
    requires job.text != "" && job.latest == Some(Temporary(job.target))
    ensures !NeverTorn(job)
  {
    var q, calls := Temporary(job.target), [0];
    assert calls[..0] == [];
    assert Progress(map[], job, calls) == Advance(job, Progress(map[], job, calls[..0]), 0);
    assert Names(job, q) && Holds(Progress(map[], job, calls).files, q, "");
  }

  lemma TornTarget(job: Job)
    requires job.text != "" && job.latest.Some? && job.target == Temporary(job.latest.value)
    ensures !NeverTorn(job)
  {
    var n := |job.text|;
    var truncated, filled, moved, torn := [0], [0, n], [0, n, 0], [0, n, 0, 0];
    assert truncated[..0] == [] && filled[..1] == truncated && moved[..2] == filled && torn[..3] == moved;
    var w1 := Progress(map[], job, truncated);
    var w2 := Progress(map[], job, filled);
    var w3 := Progress(map[], job, moved);
    assert w1 == Advance(job, Progress(map[], job, []), 0);
    assert w2 == Advance(job, w1, n) && w3 == Advance(job, w2, 0);
    var w4 := Progress(map[], job, torn);
    assert w4 == Advance(job, w3, 0);
    assert w3.stage == Open(Latest);
    assert Names(job, job.target) && Holds(w4.files, job.target, "");
  }

  // ----- one writer after the other, any of them crashing -----

  datatype Attempt = Attempt(job: Job, calls: seq<nat>)

  function RunAll(files: Files, attempts: seq<Attempt>): Files {
    if attempts == [] then files
    else
      var a := attempts[|attempts| - 1];
      Progress(RunAll(files, attempts[..|attempts| - 1]), a.job, a.calls).files
  }

  /** After any number of attempts, each of which may stop anywhere, a path that was never a
      temporary name holds what it held at first or the complete text of an attempt that names it. */
  lemma {:induction false} AlwaysComplete(files: Files, attempts: seq<Attempt>, q: Path)
    requires forall a :: a in attempts ==> !IsTemporary(a.job, q)
    ensures var now := RunAll(files, attempts);
            SameAt(now, files, q) || exists a :: a in attempts && Names(a.job, q) && Holds(now, q, a.job.text)
  {
    if attempts != [] {
      var front, last := attempts[..|attempts| - 1], attempts[|attempts| - 1];
      assert attempts == front + [last];
      AlwaysComplete(files, front, q);
      OldOrNew(RunAll(files, front), last.job, last.calls, q);
    }
  }

  // ----- jobs that run to their end -----

  /** The calls of one undisturbed leg, and of an undisturbed job. */
  function LegCalls(job: Job): seq<nat> {
    [0, |job.text|, 0]
  }

  function AllCalls(job: Job): seq<nat> {
    if job.latest.Some? then LegCalls(job) + LegCalls(job) else LegCalls(job)
  }

  function Moved(files: Files, q: Path, text: string): Files {
    files[q := text] - {Temporary(q)}
  }

  function NextStage(job: Job, leg: Leg): Stage {
    if leg.Target? && job.latest.Some? then Open(Latest) else Done
  }

  lemma OneCall(files: Files, job: Job, before: seq<nat>, n: nat)
    ensures Progress(files, job, before + [n]) == Advance(job, Progress(files, job, before), n)
  {
    hide Advance;
    assert (before + [n])[..|before|] == before;
  }

  lemma OpenCall(job: Job, w: Writing, leg: Leg)
    requires w.stage == Open(leg)
    ensures Advance(job, w, 0) == Writing(w.files[Temporary(Destination(job, leg)) := ""], Fill(leg))
  {
    hide Temporary, Destination;
  }

  lemma FillCall(job: Job, w: Writing, leg: Leg)
    requires w.stage == Fill(leg)
    ensures Advance(job, w, |job.text|) == Writing(w.files[Temporary(Destination(job, leg)) := job.text], Swap(leg))
  {
    hide Temporary, Destination;
    assert job.text[..|job.text|] == job.text;
  }

  lemma SwapCall(job: Job, w: Writing, leg: Leg)
    requires w.stage == Swap(leg) && Holds(w.files, Temporary(Destination(job, leg)), job.text)
    ensures Advance(job, w, 0) == Writing(Moved(w.files, Destination(job, leg), job.text), NextStage(job, leg))
  {
    hide Temporary, Destination;
  }

  /** Whatever the temporary file holds is gone once it has been moved. */
  lemma TemporaryIsGone(files: Files, q: Path, held: string, text: string)
    ensures Moved(files[Temporary(q) := held], q, text) == Moved(files, q, text)
  {
    TemporaryIsNew(q);
    hide Temporary;
  }

  lemma LegCompletes(files: Files, job: Job, before: seq<nat>, leg: Leg)
    requires Progress(files, job, before).stage == Open(leg)
    ensures Progress(files, job, before + LegCalls(job))
         == Writing(Moved(Progress(files, job, before).files, Destination(job, leg), job.text), NextStage(job, leg))
  {
    hide Advance, Progress, Moved, Temporary, Destination, NextStage;
    var start, q := Progress(files, job, before), Destination(job, leg);
    var truncated, filled := Advance(job, start, 0), Advance(job, Advance(job, start, 0), |job.text|);
    OneCall(files, job, before, 0);
    OneCall(files, job, before + [0], |job.text|);
    OneCall(files, job, before + [0] + [|job.text|], 0);
    assert before + LegCalls(job) == before + [0] + [|job.text|] + [0];
    OpenCall(job, start, leg);
    FillCall(job, truncated, leg);
    SwapCall(job, filled, leg);
    TemporaryIsGone(truncated.files, q, job.text, job.text);
    TemporaryIsGone(start.files, q, "", job.text);
  }

  /** Where an undisturbed job ends. */
  lemma JobEnds(files: Files, job: Job)
    ensures var first := Moved(files, job.target, job.text);
            Progress(files, job, AllCalls(job))
            == Writing(if job.latest.Some? then Moved(first, job.latest.value, job.text) else first, Done)
  {
    hide Advance, Moved;
    assert [] + LegCalls(job) == LegCalls(job);
    LegCompletes(files, job, [], Target);
    if job.latest.Some? {
      LegCompletes(files, job, LegCalls(job), Latest);
    }
    hide Progress;
  }

  /** The names of the job hold the text, its temporary files are gone, and nothing else has changed. */
  ghost predicate Completed(files: Files, job: Job, now: Files) {
    forall q ::
      if Names(job, q) then Holds(now, q, job.text)
      else if IsTemporary(job, q) then q !in now
      else SameAt(now, files, q)
  }

  /** An undisturbed job completes exactly when its target is not the temporary name of its latest
      pointer; a latest pointer under the temporary name of the target does no harm then. */
  lemma JobCompletes(files: Files, job: Job)
    ensures Progress(files, job, AllCalls(job)).stage.Done?
    ensures Completed(files, job, Progress(files, job, AllCalls(job)).files)
        <==> (job.latest.Some? ==> job.target != Temporary(job.latest.value))
  {
    JobEnds(files, job);
    TemporaryIsNew(job.target);
    if job.latest.Some? {
      TemporaryIsNew(job.latest.value);
      assert Names(job, job.target);
    }
    hide Progress, Temporary;
  }

  /** The latest pointer changes only after the target holds the new text. */
  ghost predicate LatestFollows(job: Job)
    requires job.latest.Some?
  {
    forall files, calls ::
      var now := Progress(files, job, calls).files;
      SameAt(now, files, job.latest.value) || Holds(now, job.target, job.text)
  }

  /** The order of the two moves keeps the latest pointer behind the target, wherever the job stops
      and whatever was there before, exactly when neither has the temporary name of the other. */
  lemma LatestFollowsTarget(job: Job)
    requires job.latest.Some?
    ensures LatestFollows(job) <==> Apart(job)
  {
    TemporaryIsNew(job.target);
    TemporaryIsNew(job.latest.value);
    if Apart(job) {
      forall files, calls
        ensures var now := Progress(files, job, calls).files;
                SameAt(now, files, job.latest.value) || Holds(now, job.target, job.text)
      {
        PathSoFar(files, job, calls, job.latest.value);
        PathSoFar(files, job, calls, job.target);
      }
    } else if job.latest.value == Temporary(job.target) {
      OneCall(map[], job, [], 0);
      assert job.latest.value in Progress(map[], job, [] + [0]).files;
    } else {
      JobEnds(map[], job);
      assert job.target !in Progress(map[], job, AllCalls(job)).files;
    }
  }

  class ArtifactDirectory {
    var files: Files

    method WriteTextArtifact(target: Path, text: string, latest: Option<Path>)
      modifies this
      ensures var job := Job(target, latest, text);
              files == Progress(old(files), job, AllCalls(job)).files
    {
      hide Progress, Moved, Temporary;
      JobEnds(files, Job(target, latest, text));
      WriteAndMove(target, text);
      if latest.Some? {
        WriteAndMove(latest.value, text);
      }
    }

    /** Writes a temporary file and moves it over the destination. */
    method WriteAndMove(destination: Path, text: string)
      modifies this
      ensures files == Moved(old(files), destination, text)
    {
      TemporaryIsNew(destination);
      TemporaryIsGone(files, destination, text, text);
      hide Temporary;
      var temporary := Temporary(destination);
      files := files[temporary := text];
      files := files[destination := files[temporary]] - {temporary};
    }
  }
}
