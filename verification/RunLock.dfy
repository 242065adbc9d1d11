/** The evidence-run lock: exclusive creation of one file, a payload written into it, and an exit
    that unlinks the file only when it reads back the holder's own run id. */
module RunLock {
  import opened Common

  /** What is in the lock file: nothing yet, part of a payload, or a whole one. */
  datatype Content = Empty | Garbled | Payload(runId: string)

  datatype LockFile = LockFile(creator: nat, content: Content)

  /** Where a process is: outside; after a successful create; inside with the lock acquired; having
      read its own run id back, about to unlink; dead. */
  datatype Pc = Idle | Created | Held | Verified | Gone

  datatype State = State(file: Option<LockFile>, pcs: seq<Pc>, runIds: seq<string>)

  datatype WriteOutcome = Whole | Short | Fails(partly: bool)

  datatype Step =
    | Create(p: nat)
    | Write(p: nat, outcome: WriteOutcome)
    | Read(p: nat)
    | ReadFails(p: nat)
    | Unlink(p: nat)
    | UnlinkFails(p: nat)
    | Crash(p: nat)

  predicate WellFormed(s: State) {
    |s.pcs| == |s.runIds|
  }

  predicate Enabled(s: State, x: Step)
    requires WellFormed(s)
  {
    x.p < |s.pcs| &&
    match x
    case Create(p) => s.pcs[p].Idle?
    case Write(p, _) => s.pcs[p].Created?
    case Read(p) => s.pcs[p].Held?
    case ReadFails(p) => s.pcs[p].Held?
    case Unlink(p) => s.pcs[p].Verified?
    case UnlinkFails(p) => s.pcs[p].Verified?
    case Crash(p) => !s.pcs[p].Gone?
  }

  /** The payload a short or failed write leaves behind. */
  function Stored(runId: string, outcome: WriteOutcome): Content {
    match outcome
    case Whole => Payload(runId)
    case Short => Garbled
    case Fails(partly) => if partly then Garbled else Empty
  }

  /** A write goes to the file the process created, which need not be the one at the path. */
  function Written(file: Option<LockFile>, p: nat, content: Content): Option<LockFile> {
    if file.Some? && file.value.creator == p then Some(LockFile(p, content)) else file
  }

  predicate ReadsBack(s: State, p: nat)
    requires WellFormed(s) && p < |s.pcs|
  {
    s.file.Some? && s.file.value.content == Payload(s.runIds[p])
  }

  /** One step of one process; a step that is not enabled changes nothing. An exclusive create
      fails when the file is there, and unlinking removes whatever is at the path. */
  function Next(s: State, x: Step): (r: State)
    requires WellFormed(s)
    ensures WellFormed(r) && r.runIds == s.runIds
  {
    if !Enabled(s, x) then s
    else
      match x
      case Create(p) =>
        if s.file.Some? then s else s.(file := Some(LockFile(p, Empty)), pcs := s.pcs[p := Created])
      case Write(p, outcome) =>
        s.(file := Written(s.file, p, Stored(s.runIds[p], outcome)),
           pcs := s.pcs[p := if outcome.Fails? then Idle else Held])
      case Read(p) => s.(pcs := s.pcs[p := if ReadsBack(s, p) then Verified else Idle])
      case ReadFails(p) => s.(pcs := s.pcs[p := Idle])
      case Unlink(p) => s.(file := None, pcs := s.pcs[p := Idle])
      case UnlinkFails(p) => s.(pcs := s.pcs[p := Held])
      case Crash(p) => s.(pcs := s.pcs[p := Gone])
  }

  function Run(s: State, steps: seq<Step>): (r: State)
    requires WellFormed(s)
    ensures WellFormed(r) && r.runIds == s.runIds
  {
    if steps == [] then s else Next(Run(s, steps[..|steps| - 1]), steps[|steps| - 1])
  }

  predicate Initial(s: State) {
    WellFormed(s) && s.file.None? && forall p :: 0 <= p < |s.pcs| ==> s.pcs[p].Idle?
  }

  /** Between its successful create and its own unlink. */
  predicate Inside(s: State, p: nat) {
    p < |s.pcs| && (s.pcs[p].Created? || s.pcs[p].Held? || s.pcs[p].Verified?)
  }

  /** The lock file belongs to whoever is inside, and says so once it has been written whole. */
  ghost predicate OwnerInside(s: State)
    requires WellFormed(s)
  {
    forall p: nat :: Inside(s, p) ==>
      && s.file.Some? && s.file.value.creator == p
      && (!s.pcs[p].Created? && s.file.value.content.Payload? ==> s.file.value.content.runId == s.runIds[p])
  }

  lemma {:induction false} RunKeepsOwner(s: State, steps: seq<Step>)
    requires Initial(s)
    ensures OwnerInside(Run(s, steps))
  {
    if steps != [] {
      RunKeepsOwner(s, steps[..|steps| - 1]);
      StepKeepsOwner(Run(s, steps[..|steps| - 1]), steps[|steps| - 1]);
    }
  }

  lemma StepKeepsOwner(s: State, x: Step)
    requires WellFormed(s) && OwnerInside(s)
    ensures OwnerInside(Next(s, x))
  {
    var t := Next(s, x);
    forall p: nat | Inside(t, p)
      ensures t.file.Some? && t.file.value.creator == p
      ensures !t.pcs[p].Created? && t.file.value.content.Payload? ==> t.file.value.content.runId == t.runIds[p]
    {
      if p != x.p {
        assert Inside(s, p);
        assert x.p < |s.pcs| && Inside(s, x.p) ==> x.p == p;
      } else if !x.Create? {
        assert Inside(s, p);
      }
    }
  }

  /** However the steps of any number of processes interleave, whatever writes and reads fail and
      whichever run ids coincide, at most one process is inside. */
  lemma MutualExclusion(s: State, steps: seq<Step>, p: nat, q: nat)
    requires Initial(s) && Inside(Run(s, steps), p) && Inside(Run(s, steps), q)
    ensures p == q
  {
    RunKeepsOwner(s, steps);
  }

  /** The lock file is there and its creator will never remove it. */
  ghost predicate Abandoned(s: State)
    requires WellFormed(s)
  {
    s.file.Some? && forall p :: !Inside(s, p)
  }

  /** When the process inside crashes, fails to write or cannot read its payload back, the lock is abandoned. */
  lemma LeavingWithoutUnlink(s: State, steps: seq<Step>, x: Step)
    requires Initial(s) && Inside(Run(s, steps), x.p) && Enabled(Run(s, steps), x)
    requires x.Crash? || x.ReadFails? || (x.Write? && x.outcome.Fails?) || (x.Read? && !ReadsBack(Run(s, steps), x.p))
    ensures Abandoned(Next(Run(s, steps), x))
    ensures x.Write? ==> Next(Run(s, steps), x).file.value.content == if x.outcome.partly then Garbled else Empty
  {
    RunKeepsOwner(s, steps);
    StepKeepsOwner(Run(s, steps), x);
    var t := Next(Run(s, steps), x);
    assert forall p: nat :: p != x.p && Inside(t, p) ==> Inside(Run(s, steps), p);
  }

  /** An abandoned lock stays: no later acquire succeeds, and the file never changes again. */
  lemma {:induction false} AbandonedForever(s: State, steps: seq<Step>)
    requires WellFormed(s) && Abandoned(s)
    ensures Abandoned(Run(s, steps)) && Run(s, steps).file == s.file
  {
    if steps != [] {
      AbandonedForever(s, steps[..|steps| - 1]);
      var r, x := Run(s, steps[..|steps| - 1]), steps[|steps| - 1];
      var t := Next(r, x);
      assert x.p < |r.pcs| ==> !Inside(r, x.p);
      forall p
        ensures !Inside(t, p)
      {
        assert !Inside(r, p);
      }
    }
  }

  /** Leaving undisturbed releases the lock exactly when the payload had been written whole; once it
      is released, the next process that tries gets in. */
  lemma ReleaseNeedsWholePayload(s: State, steps: seq<Step>, p: nat, q: nat)
    requires Initial(s) && p < |s.pcs| && Run(s, steps).pcs[p].Held?
    requires q < |s.pcs| && (q == p || Run(s, steps).pcs[q].Idle?)
    ensures var h := Run(s, steps); var left := Next(Next(h, Read(p)), Unlink(p));
            && (left.file.None? <==> h.file.Some? && h.file.value.content.Payload?)
            && (left.file.None? <==> Inside(Next(left, Create(q)), q))
            && (!left.file.None? ==> Abandoned(left))
  {
    RunKeepsOwner(s, steps);
    var h := Run(s, steps);
    assert Inside(h, p);
    var left := Next(Next(h, Read(p)), Unlink(p));
    forall o | o != p
      ensures !Inside(left, o)
    {
      assert Inside(left, o) ==> Inside(h, o);
    }
  }

  const ONE_PROCESS := State(None, [Idle], ["run-1"])

  /** A create, a short write and an undisturbed exit: acquired, left, and abandoned all the same. */
  lemma ShortWriteAbandons()
    ensures var held := Run(ONE_PROCESS, [Create(0), Write(0, Short)]);
            var left := Next(Next(held, Read(0)), Unlink(0));
            && Initial(ONE_PROCESS) && held.pcs == [Held]
            && left == State(Some(LockFile(0, Garbled)), [Idle], ["run-1"]) && Abandoned(left)
  {
    var steps := [Create(0), Write(0, Short)];
    assert steps[..1] == [Create(0)] && steps[..1][..0] == [];
    var created := Run(ONE_PROCESS, steps[..1]);
    assert created == Next(Run(ONE_PROCESS, []), Create(0));
    assert created == State(Some(LockFile(0, Empty)), [Created], ["run-1"]);
    var held := Run(ONE_PROCESS, steps);
    assert held == Next(created, Write(0, Short));
    assert held == State(Some(LockFile(0, Garbled)), [Held], ["run-1"]);
    assert !ReadsBack(held, 0);
  }

  // ----- the context manager -----

  class LockPath {
    var file: Option<LockFile>
    var pcs: seq<Pc>
    var runIds: seq<string>

    function Now(): State
      reads this
    {
      State(file, pcs, runIds)
    }
  }

  datatype LockError = LockHeld | WriteFailed

  class EvidenceRunLock {
    const path: LockPath
    const process: nat
    const runId: string
    var acquired: bool

    ghost predicate Valid()
      reads this, path
    {
      && WellFormed(path.Now()) && process < |path.pcs| && path.runIds[process] == runId
      && (acquired <==> path.pcs[process].Held?)
    }

    constructor (path: LockPath, process: nat, runId: string)
      requires WellFormed(path.Now()) && process < |path.pcs|
      requires path.runIds[process] == runId && path.pcs[process].Idle?
      ensures this.path == path && this.process == process && this.runId == runId && !acquired && Valid()
    {
      this.path, this.process, this.runId, acquired := path, process, runId, false;
    }

    /** Entering is a create and then a write; the lock is held only when both succeed. */
    method Enter(outcome: WriteOutcome) returns (error: Option<LockError>)
      requires Valid() && (path.file.Some? || path.pcs[process].Idle?)
      modifies this, path
      ensures Valid()
      ensures old(path.file).Some? ==>
                path.Now() == old(path.Now()) && error == Some(LockHeld) && acquired == old(acquired)
      ensures old(path.file).None? ==>
                && (acquired <==> error.None?)
                && path.Now() == Next(Next(old(path.Now()), Create(process)), Write(process, outcome))
                && error == if outcome.Fails? then Some(WriteFailed) else None
    {
      if path.file.Some? {
        return Some(LockHeld);
      }
      path.file := Some(LockFile(process, Empty));
      path.pcs := path.pcs[process := Created];
      path.file := Written(path.file, process, Stored(runId, outcome));
      if outcome.Fails? {
        path.pcs := path.pcs[process := Idle];
        return Some(WriteFailed);
      }
      path.pcs := path.pcs[process := Held];
      acquired := true;
      error := None;
    }

    /** Leaving is a read and, when the run id is the own one, an unlink. */
    method Exit(readWorks: bool)
      requires Valid()
      modifies this, path
      ensures Valid() && !acquired
      ensures !old(acquired) ==> path.Now() == old(path.Now())
      ensures old(acquired) && !readWorks ==> path.Now() == Next(old(path.Now()), ReadFails(process))
      ensures old(acquired) && readWorks ==>
                path.Now() == Next(Next(old(path.Now()), Read(process)), Unlink(process))
    {
      if !acquired {
        return;
      }
      var current := if readWorks && path.file.Some? then path.file.value.content else Empty;
      if current == Payload(runId) {
        path.pcs := path.pcs[process := Verified];
        path.file := None;
      }
      path.pcs := path.pcs[process := Idle];
      acquired := false;
    }
  }
}
