/** Many processes share one ledger file. Each operation creates a lock directory, reads the snapshot,
    publishes a new one by rename, and removes the directory; any of them may time out, fail or die
    at any point. */
module LedgerProtocol {
  import opened Wrappers
  import opened CandidateLedger
  import opened CandidateSinks

  /** Where one process stands in its current operation. */
  datatype Phase =
    | Idle
    | Waiting(request: Request)
    | Locked(request: Request)
    | Loaded(request: Request, snapshot: Ledger)
    | Leaving(request: Request, outcome: Option<Response>)

  /** What happened, in real-time order. A commit is the atomic rename, or the read when nothing needs
      writing. */
  datatype Mark =
    | Invoke(p: nat, request: Request)
    | Commit(p: nat, request: Request, response: Response)
    | Return(p: nat, outcome: Option<Response>)
    | Lost(p: nat)

  datatype System = System(lock: bool, file: Stored, procs: seq<Phase>, log: seq<Mark>)

  /** The steps of the protocol. `Die` is a crash; the process may come back. */
  datatype Step =
    | Begin(p: nat, request: Request)
    | CreateLock(p: nat)
    | LockFails(p: nat)
    | Load(p: nat)
    | LoadFails(p: nat)
    | Publish(p: nat)
    | WriteFails(p: nat)
    | RemoveLock(p: nat)
    | RemoveLockFails(p: nat)
    | Die(p: nat)

  function Enter(s: System, p: nat, phase: Phase): System
    requires p < |s.procs|
  {
    s.(procs := s.procs[p := phase])
  }

  function Note(s: System, m: Mark): System {
    s.(log := s.log + [m])
  }

  /** One step; a step that is not enabled does nothing. A wait that times out or whose directory
      cannot be created ends in an error and touches neither lock nor file. */
  function Next(s: System, step: Step): System {
    if step.p >= |s.procs| then s
    else
      var p := step.p;
      match (step, s.procs[p])
      case (Begin(_, request), Idle) => Note(Enter(s, p, Waiting(request)), Invoke(p, request))
      case (CreateLock(_), Waiting(request)) => if s.lock then s else Enter(s, p, Locked(request)).(lock := true)
      case (LockFails(_), Waiting(request)) => Note(Enter(s, p, Idle), Return(p, None))
      case (Load(_), Locked(request)) =>
        if ReadState(s.file).Some? then Enter(s, p, Loaded(request, ReadState(s.file).value))
        else Enter(s, p, Leaving(request, None))
      case (LoadFails(_), Locked(request)) => Enter(s, p, Leaving(request, None))
      case (Publish(_), Loaded(request, snapshot)) =>
        var served := Serve(snapshot, request);
        var file := if served.ledger == snapshot then s.file else Snapshot(1, served.ledger);
        Note(Enter(s, p, Leaving(request, Some(served.response))).(file := file), Commit(p, request, served.response))
      case (WriteFails(_), Loaded(request, snapshot)) => Enter(s, p, Leaving(request, None))
      case (RemoveLock(_), Leaving(request, outcome)) => Note(Enter(s, p, Idle).(lock := false), Return(p, outcome))
      case (RemoveLockFails(_), Leaving(request, outcome)) => Note(Enter(s, p, Idle), Return(p, outcome))
      case (Die(_), _) => if s.procs[p].Idle? then s else Note(Enter(s, p, Idle), Lost(p))
      case _ => s
  }

  function RunSteps(s: System, steps: seq<Step>): System
    decreases |steps|
  {
    if steps == [] then s
    else Next(RunSteps(s, steps[..|steps| - 1]), steps[|steps| - 1])
  }

  /** `n` idle processes and whatever file there was. */
  function Initial(n: nat, file: Stored): (s: System)
    ensures |s.procs| == n && s.log == []
  {
    System(false, file, seq(n, _ => Idle), [])
  }

  // ---------------------------------------------------------------- the sequential account

  /** The file after the committed requests of a log, applied one after another. */
  function Replay(file: Stored, log: seq<Mark>): Stored {
    if log == [] then file
    else
      var before, last := Replay(file, log[..|log| - 1]), log[|log| - 1];
      if last.Commit? then ServeStored(before, last.request).file else before
  }

  /** Every commit answers what the sequential run up to it answers. */
  ghost predicate AnswersSequential(file: Stored, log: seq<Mark>) {
    forall i | 0 <= i < |log| && log[i].Commit? ::
      ServeStored(Replay(file, log[..i]), log[i].request).response == Some(log[i].response)
  }

  /** The call a process is in, as its own marks tell it: None when they are out of order. */
  datatype Stage = Quiet | Called(request: Request) | Done(request: Request, response: Response)

  function Track(log: seq<Mark>, p: nat): Option<Stage> {
    if log == [] then Some(Quiet)
    else
      var before, last := Track(log[..|log| - 1], p), log[|log| - 1];
      if last.p == p && before.Some? then Advance(before.value, last) else before
  }

  /** The order a call's marks must come in: invoked, committed at most once, then returned with the
      committed response, failed uncommitted, or lost. */
  function Advance(stage: Stage, m: Mark): Option<Stage> {
    match (stage, m)
    case (Quiet, Invoke(_, request)) => Some(Called(request))
    case (Called(called), Commit(_, request, response)) => if called == request then Some(Done(request, response)) else None
    case (Called(_), Return(_, None)) => Some(Quiet)
    case (Done(_, response), Return(_, Some(outcome))) => if outcome == response then Some(Quiet) else None
    case (Called(_), Lost(_)) => Some(Quiet)
    case (Done(_, _), Lost(_)) => Some(Quiet)
    case _ => None
  }

  function StageOf(phase: Phase): Stage {
    match phase
    case Idle => Quiet
    case Waiting(request) => Called(request)
    case Locked(request) => Called(request)
    case Loaded(request, _) => Called(request)
    case Leaving(request, outcome) => if outcome.Some? then Done(request, outcome.value) else Called(request)
  }

  // ---------------------------------------------------------------- the invariant

  /** Past the lock. */
  predicate Inside(phase: Phase) {
    phase.Locked? || phase.Loaded? || phase.Leaving?
  }

  ghost predicate Exclusive(s: System) {
    && (forall p, q | 0 <= p < q < |s.procs| :: !(Inside(s.procs[p]) && Inside(s.procs[q])))
    && (forall p | 0 <= p < |s.procs| && Inside(s.procs[p]) :: s.lock)
  }

  ghost predicate SnapshotsCurrent(s: System) {
    forall p | 0 <= p < |s.procs| && s.procs[p].Loaded? :: ReadState(s.file) == Some(s.procs[p].snapshot)
  }

  ghost predicate MarksInOrder(s: System) {
    forall p | 0 <= p < |s.procs| :: Track(s.log, p) == Some(StageOf(s.procs[p]))
  }

  ghost predicate Inv(file: Stored, s: System) {
    && Exclusive(s)
    && SnapshotsCurrent(s)
    && s.file == Replay(file, s.log)
    && AnswersSequential(file, s.log)
    && MarksInOrder(s)
  }

  lemma {:induction false} MarkExtends(file: Stored, log: seq<Mark>, m: Mark)
    ensures Replay(file, log + [m]) == if m.Commit? then ServeStored(Replay(file, log), m.request).file else Replay(file, log)
    ensures AnswersSequential(file, log) && (m.Commit? ==> ServeStored(Replay(file, log), m.request).response == Some(m.response)) ==>
              AnswersSequential(file, log + [m])
  {
    assert (log + [m])[..|log|] == log;
    assert forall i | 0 <= i < |log| :: (log + [m])[..i] == log[..i] && (log + [m])[i] == log[i];
  }

  lemma {:induction false} StepKeepsExclusive(s: System, step: Step)
    requires Exclusive(s)
    ensures Exclusive(Next(s, step))
  {
  }

  lemma {:induction false} StepKeepsSnapshots(s: System, step: Step)
    requires Exclusive(s) && SnapshotsCurrent(s)
    ensures SnapshotsCurrent(Next(s, step))
  {
  }

  /** The one process inside publishes what the sequential ledger would: its snapshot is the file. */
  lemma {:induction false} StepKeepsReplay(file: Stored, s: System, step: Step)
    requires Inv(file, s)
    ensures Next(s, step).file == Replay(file, Next(s, step).log)
    ensures AnswersSequential(file, Next(s, step).log)
  {
    var t := Next(s, step);
    if |t.log| > |s.log| {
      var m := t.log[|s.log|];
      assert t.log == s.log + [m];
      MarkExtends(file, s.log, m);
    }
  }

  lemma {:induction false} TrackExtends(log: seq<Mark>, m: Mark, p: nat)
    requires Track(log, p).Some?
    ensures Track(log + [m], p) == if m.p == p then Advance(Track(log, p).value, m) else Track(log, p)
  {
    assert (log + [m])[..|log|] == log;
  }

  /** The mark a step leaves, if any, is the one its process may leave next. */
  lemma {:induction false} StepMarks(s: System, step: Step)
    ensures var t := Next(s, step);
            && |t.procs| == |s.procs|
            && (forall q | 0 <= q < |s.procs| && q != step.p :: t.procs[q] == s.procs[q])
            && (t.log == s.log ==> step.p < |s.procs| ==> StageOf(t.procs[step.p]) == StageOf(s.procs[step.p]))
            && (t.log != s.log ==>
                  exists m :: t.log == s.log + [m] && m.p == step.p < |s.procs|
                              && Advance(StageOf(s.procs[step.p]), m) == Some(StageOf(t.procs[step.p])))
  {
    var t := Next(s, step);
    if |t.log| > |s.log| {
      var m := t.log[|s.log|];
      assert t.log == s.log + [m];
    }
  }

  lemma {:induction false} StepKeepsMarks(s: System, step: Step)
    requires MarksInOrder(s)
    ensures MarksInOrder(Next(s, step))
  {
    var t := Next(s, step);
    StepMarks(s, step);
    if t.log != s.log {
      var m :| t.log == s.log + [m] && m.p == step.p < |s.procs| && Advance(StageOf(s.procs[step.p]), m) == Some(StageOf(t.procs[step.p]));
      forall p | 0 <= p < |t.procs|
        ensures Track(t.log, p) == Some(StageOf(t.procs[p]))
      {
        TrackExtends(s.log, m, p);
      }
    }
  }

  lemma {:induction false} RunKeepsInv(n: nat, file: Stored, steps: seq<Step>)
    ensures Inv(file, RunSteps(Initial(n, file), steps)) && |RunSteps(Initial(n, file), steps).procs| == n
    decreases |steps|
  {
    if steps != [] {
      var before, last := RunSteps(Initial(n, file), steps[..|steps| - 1]), steps[|steps| - 1];
      RunKeepsInv(n, file, steps[..|steps| - 1]);
      StepKeepsExclusive(before, last);
      StepKeepsSnapshots(before, last);
      StepKeepsReplay(file, before, last);
      StepKeepsMarks(before, last);
    }
  }
}
