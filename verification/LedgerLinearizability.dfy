/** What the lock protocol gives its clients: one sequential ledger, in real-time order, under any
    interleaving and any failures; and what a lock left behind costs. */
module LedgerLinearizability {
  import opened Wrappers
  import opened CandidateLedger
  import opened CandidateSinks
  import opened LedgerProtocol
  import Redelivery
  import LedgerRuns

  /** No mark of process `p` between two positions. */
  ghost predicate SilentBetween(log: seq<Mark>, p: nat, from: int, to: int)
    requires 0 <= from && to <= |log|
  {
    forall i | from <= i < to :: log[i].p != p
  }

  /** A call in progress was invoked; nothing else of that process happened since. */
  lemma {:induction false} CalledWasInvoked(log: seq<Mark>, p: nat) returns (i: nat)
    requires Track(log, p).Some? && Track(log, p).value.Called?
    ensures i < |log| && log[i] == Invoke(p, Track(log, p).value.request) && SilentBetween(log, p, i + 1, |log|)
  {
    var last := |log| - 1;
    if log[last].p == p {
      i := last;
    } else {
      i := CalledWasInvoked(log[..last], p);
    }
  }

  lemma {:induction false} DoneWasCommitted(log: seq<Mark>, p: nat) returns (i: nat, j: nat)
    requires Track(log, p).Some? && Track(log, p).value.Done?
    ensures i < j < |log| && log[j] == Commit(p, Track(log, p).value.request, Track(log, p).value.response)
    ensures log[i] == Invoke(p, Track(log, p).value.request)
    ensures SilentBetween(log, p, i + 1, j) && SilentBetween(log, p, j + 1, |log|)
  {
    var last := |log| - 1;
    if log[last].p == p {
      j := last;
      i := CalledWasInvoked(log[..last], p);
    } else {
      i, j := DoneWasCommitted(log[..last], p);
    }
  }

  lemma {:induction false} PrefixTracks(log: seq<Mark>, k: nat, p: nat)
    requires k <= |log| && Track(log, p).Some?
    ensures Track(log[..k], p).Some?
  {
    if k < |log| {
      var last := |log| - 1;
      assert log[..last][..k] == log[..k];
      PrefixTracks(log[..last], k, p);
    } else {
      assert log[..k] == log;
    }
  }

  /** In well-ordered marks a returned response is the one just committed for that very call. */
  lemma {:induction false} ReturnFollowsCommit(log: seq<Mark>, k: nat) returns (i: nat, j: nat)
    requires k < |log| && log[k].Return? && log[k].outcome.Some? && Track(log, log[k].p).Some?
    ensures i < j < k && log[i].Invoke? && log[i].p == log[k].p
    ensures log[j] == Commit(log[k].p, log[i].request, log[k].outcome.value)
    ensures SilentBetween(log, log[k].p, i + 1, j) && SilentBetween(log, log[k].p, j + 1, k)
  {
    PrefixTracks(log, k + 1, log[k].p);
    assert log[..k + 1][..k] == log[..k];
    i, j := DoneWasCommitted(log[..k], log[k].p);
  }

  /** In well-ordered marks an error is the first thing heard of its call. */
  lemma {:induction false} ErrorFollowsInvoke(log: seq<Mark>, k: nat) returns (i: nat)
    requires k < |log| && log[k].Return? && log[k].outcome.None? && Track(log, log[k].p).Some?
    ensures i < k && log[i].Invoke? && log[i].p == log[k].p && SilentBetween(log, log[k].p, i + 1, k)
  {
    PrefixTracks(log, k + 1, log[k].p);
    assert log[..k + 1][..k] == log[..k];
    i := CalledWasInvoked(log[..k], log[k].p);
  }

  lemma {:induction false} MarksNameProcesses(n: nat, file: Stored, steps: seq<Step>)
    ensures var s := RunSteps(Initial(n, file), steps);
            |s.procs| == n && forall i | 0 <= i < |s.log| :: s.log[i].p < n
    decreases |steps|
  {
    if steps != [] {
      MarksNameProcesses(n, file, steps[..|steps| - 1]);
    }
  }

  /** Linearizability: whatever the interleaving, failures, time-outs and deaths, the file is the
      committed requests applied sequentially in commit order, every commit answers what that run
      answers, and at most one process is past the lock. */
  lemma {:induction false} Linearizable(n: nat, file: Stored, steps: seq<Step>)
    ensures var s := RunSteps(Initial(n, file), steps);
            && |s.procs| == n
            && s.file == Replay(file, s.log)
            && AnswersSequential(file, s.log)
            && (forall p, q | 0 <= p < n && 0 <= q < n && Inside(s.procs[p]) && Inside(s.procs[q]) :: p == q)
  {
    RunKeepsInv(n, file, steps);
  }

  /** Real-time order: a response handed to a client was committed, as that very response, between the
      client's own invocation and its return. */
  lemma {:induction false} ReturnsWereCommitted(n: nat, file: Stored, steps: seq<Step>, k: nat) returns (i: nat, j: nat)
    requires var log := RunSteps(Initial(n, file), steps).log;
             k < |log| && log[k].Return? && log[k].outcome.Some?
    ensures var log := RunSteps(Initial(n, file), steps).log;
            && i < j < k && log[i].Invoke? && log[i].p == log[k].p
            && log[j] == Commit(log[k].p, log[i].request, log[k].outcome.value)
            && SilentBetween(log, log[k].p, i + 1, j) && SilentBetween(log, log[k].p, j + 1, k)
  {
    RunKeepsInv(n, file, steps);
    MarksNameProcesses(n, file, steps);
    i, j := ReturnFollowsCommit(RunSteps(Initial(n, file), steps).log, k);
  }

  lemma {:induction false} CommitFollowsInvoke(log: seq<Mark>, j: nat) returns (i: nat)
    requires j < |log| && log[j].Commit? && Track(log, log[j].p).Some?
    ensures i < j && log[i] == Invoke(log[j].p, log[j].request) && SilentBetween(log, log[j].p, i + 1, j)
  {
    PrefixTracks(log, j + 1, log[j].p);
    assert log[..j + 1][..j] == log[..j];
    i := CalledWasInvoked(log[..j], log[j].p);
  }

  /** Commit order respects the order of calls: if one call returned its response, at `k`, before
      another was invoked, then it was committed before the other, whether the other's answer ever
      reached its client or not. */
  lemma {:induction false} CommitOrderRespectsCalls(n: nat, file: Stored, steps: seq<Step>, k: nat, other: nat) returns (own: nat, invoked: nat)
    requires var log := RunSteps(Initial(n, file), steps).log;
             k < |log| && log[k].Return? && log[k].outcome.Some? && other < |log| && log[other].Commit?
    ensures var log := RunSteps(Initial(n, file), steps).log;
            && own < k && log[own].Commit? && log[own].p == log[k].p && log[own].response == log[k].outcome.value
            && SilentBetween(log, log[k].p, own + 1, k)
            && invoked < other && log[invoked] == Invoke(log[other].p, log[other].request) && SilentBetween(log, log[other].p, invoked + 1, other)
            && (k < invoked ==> own < other)
  {
    var log := RunSteps(Initial(n, file), steps).log;
    RunKeepsInv(n, file, steps);
    MarksNameProcesses(n, file, steps);
    var i;
    i, own := ReturnFollowsCommit(log, k);
    invoked := CommitFollowsInvoke(log, other);
  }

  /** An error means the call was not committed: the process left no mark between invoking it and
      reporting the error. So redelivering after an error applies the request at most once. */
  lemma {:induction false} ErrorsCommitNothing(n: nat, file: Stored, steps: seq<Step>, k: nat) returns (i: nat)
    requires var log := RunSteps(Initial(n, file), steps).log;
             k < |log| && log[k].Return? && log[k].outcome.None?
    ensures var log := RunSteps(Initial(n, file), steps).log;
            && i < k && log[i].Invoke? && log[i].p == log[k].p
            && forall j | i < j < k && log[j].Commit? :: log[j].p != log[k].p
  {
    RunKeepsInv(n, file, steps);
    MarksNameProcesses(n, file, steps);
    i := ErrorFollowsInvoke(RunSteps(Initial(n, file), steps).log, k);
  }

  /** No step of another process disturbs the one inside: it stays inside and the lock stays. In
      particular a waiter that gives up never removes a lock it does not hold. */
  lemma {:induction false} LockRespected(s: System, step: Step, q: nat)
    requires Exclusive(s) && q < |s.procs| && Inside(s.procs[q]) && step.p != q
    ensures var t := Next(s, step);
            t.lock && t.file == s.file && |t.procs| == |s.procs| && t.procs[q] == s.procs[q]
  {
  }

  /** Nobody is inside, yet the lock directory is there: left by a death inside or a failed removal. */
  ghost predicate Stale(s: System) {
    s.lock && forall p | 0 <= p < |s.procs| :: !Inside(s.procs[p])
  }

  /** Nothing breaks a stale lock: from then on the file never changes again, nobody gets inside, and
      no operation is ever committed. Recovery needs the directory removed by hand. */
  lemma {:induction false} StaleLockBlocks(s: System, steps: seq<Step>)
    requires Stale(s)
    ensures var t := RunSteps(s, steps);
            Stale(t) && t.file == s.file && |t.procs| == |s.procs|
            && s.log <= t.log && forall i | |s.log| <= i < |t.log| :: !t.log[i].Commit?
    decreases |steps|
  {
    if steps != [] {
      StaleLockBlocks(s, steps[..|steps| - 1]);
    }
  }

  /** The process inside dies there, or cannot remove its lock. */
  ghost predicate Abandons(s: System, step: Step) {
    step.p < |s.procs| && ((step.Die? && Inside(s.procs[step.p])) || (step.RemoveLockFails? && s.procs[step.p].Leaving?))
  }

  /** A lock goes stale exactly when the process inside abandons it. */
  lemma {:induction false} WhenStale(s: System, step: Step)
    requires Exclusive(s) && !Stale(s)
    ensures Stale(Next(s, step)) <==> Abandons(s, step)
  {
    var t := Next(s, step);
    if step.p < |s.procs| && Inside(s.procs[step.p]) {
      forall q | 0 <= q < |s.procs| && q != step.p
        ensures !Inside(s.procs[q])
      {
        assert !(Inside(s.procs[if q < step.p then q else step.p]) && Inside(s.procs[if q < step.p then step.p else q]));
      }
      assert Inside(t.procs[step.p]) || t.procs[step.p].Idle?;
    } else if s.lock {
      var q :| 0 <= q < |s.procs| && Inside(s.procs[q]);
      assert Inside(t.procs[q]);
    } else if t.lock {
      assert Inside(t.procs[step.p]);
    }
  }

  /** Step `k` of the run abandons the lock. */
  ghost predicate AbandonedAt(n: nat, file: Stored, steps: seq<Step>, k: nat) {
    k < |steps| && Abandons(RunSteps(Initial(n, file), steps[..k]), steps[k])
  }

  lemma {:induction false} StaleStays(s: System, step: Step)
    requires Stale(s)
    ensures Stale(Next(s, step))
  {
  }

  lemma {:induction false} AbandonedBefore(n: nat, file: Stored, steps: seq<Step>, k: nat)
    requires k < |steps| - 1
    ensures AbandonedAt(n, file, steps, k) <==> AbandonedAt(n, file, steps[..|steps| - 1], k)
  {
    assert steps[..|steps| - 1][..k] == steps[..k];
  }

  /** A run is stale exactly when somewhere in it a process abandoned its lock. */
  lemma {:induction false} StaleRuns(n: nat, file: Stored, steps: seq<Step>)
    ensures Stale(RunSteps(Initial(n, file), steps)) <==> exists k :: AbandonedAt(n, file, steps, k)
    decreases |steps|
  {
    if steps != [] {
      var last := |steps| - 1;
      var before := RunSteps(Initial(n, file), steps[..last]);
      StaleRuns(n, file, steps[..last]);
      forall k: nat | k < last
        ensures AbandonedAt(n, file, steps, k) <==> AbandonedAt(n, file, steps[..last], k)
      {
        AbandonedBefore(n, file, steps, k);
      }
      if Stale(before) {
        StaleStays(before, steps[last]);
      } else {
        RunKeepsInv(n, file, steps[..last]);
        WhenStale(before, steps[last]);
        assert AbandonedAt(n, file, steps, last) <==> Abandons(before, steps[last]);
      }
    }
  }

  // ---------------------------------------------------------------- recovery

  /** After `more`, process `p` has committed the request. */
  ghost predicate CommitsFor(s: System, more: seq<Step>, p: nat, request: Request) {
    var log := RunSteps(s, more).log;
    exists i | |s.log| <= i < |log| :: log[i].Commit? && log[i].p == p && log[i].request == request
  }

  /** Process `p` can still get the request committed. */
  ghost predicate CanCommit(s: System, p: nat, request: Request) {
    exists more :: CommitsFor(s, more, p, request)
  }

  ghost predicate NothingCommitted(s: System, more: seq<Step>) {
    var log := RunSteps(s, more).log;
    forall i | |s.log| <= i < |log| :: !log[i].Commit?
  }

  lemma {:induction false} RunsCompose(s: System, a: seq<Step>, b: seq<Step>)
    ensures RunSteps(s, a + b) == RunSteps(RunSteps(s, a), b)
    decreases |b|
  {
    if b == [] {
      assert a + b == a;
    } else {
      assert (a + b)[..|a + b| - 1] == a + b[..|b| - 1];
      RunsCompose(s, a, b[..|b| - 1]);
    }
  }

  lemma {:induction false} OneStep(s: System, step: Step)
    ensures RunSteps(s, [step]) == Next(s, step)
  {
    assert [step][..0] == [];
  }

  lemma {:induction false} TwoSteps(s: System, first: Step, second: Step)
    ensures RunSteps(s, [first, second]) == Next(Next(s, first), second)
  {
    RunsCompose(s, [first], [second]);
    OneStep(s, first);
    OneStep(Next(s, first), second);
    assert [first] + [second] == [first, second];
  }

  /** With the lock free and the file readable an idle process gets any request committed. */
  lemma {:induction false} FreeLockCommits(s: System, p: nat, request: Request) returns (more: seq<Step>)
    requires p < |s.procs| && s.procs[p].Idle? && !s.lock && ReadState(s.file).Some?
    ensures var t := RunSteps(s, more);
            |t.log| > |s.log| && var m := t.log[|t.log| - 1]; m.Commit? && m.p == p && m.request == request
  {
    var locked, done := [Begin(p, request), CreateLock(p)], [Load(p), Publish(p)];
    more := locked + done;
    RunsCompose(s, locked, done);
    TwoSteps(s, locked[0], locked[1]);
    TwoSteps(RunSteps(s, locked), done[0], done[1]);
  }

  /** Unless its lock is stale, a system can always come to a free lock and an unchanged file, nobody
      dying on the way. */
  lemma {:induction false} Vacates(s: System, p: nat) returns (more: seq<Step>)
    requires Exclusive(s) && !Stale(s) && p < |s.procs|
    ensures var t := RunSteps(s, more);
            !t.lock && t.file == s.file && |t.procs| == |s.procs| && s.log <= t.log && t.procs[p].Idle?
  {
    var left := [];
    if s.lock {
      var q :| 0 <= q < |s.procs| && Inside(s.procs[q]);
      left := HolderLeaves(s, q, p);
    }
    more := left + [LockFails(p)];
    RunsCompose(s, left, [LockFails(p)]);
    OneStep(RunSteps(s, left), LockFails(p));
  }

  lemma {:induction false} HolderLeaves(s: System, q: nat, p: nat) returns (left: seq<Step>)
    requires Exclusive(s) && q < |s.procs| && Inside(s.procs[q]) && p < |s.procs|
    ensures var t := RunSteps(s, left);
            !t.lock && t.file == s.file && |t.procs| == |s.procs| && s.log <= t.log && !Inside(t.procs[p])
  {
    var stop := if s.procs[q].Locked? then LoadFails(q) else WriteFails(q);
    left := [stop, RemoveLock(q)];
    TwoSteps(s, stop, RemoveLock(q));
    if p != q {
      assert !(Inside(s.procs[if p < q then p else q]) && Inside(s.procs[if p < q then q else p]));
    }
  }

  lemma {:induction false} ReadableStays(file: Stored, log: seq<Mark>)
    ensures ReadState(Replay(file, log)).Some? <==> ReadState(file).Some?
  {
    if log != [] {
      var before := Replay(file, log[..|log| - 1]);
      ReadableStays(file, log[..|log| - 1]);
      if ReadState(before).Some? && log[|log| - 1].Commit? {
        WritesAreReadable(before, log[|log| - 1].request);
      }
    }
  }

  lemma {:induction false} StillRecovers(n: nat, file: Stored, steps: seq<Step>, p: nat, request: Request)
    requires p < n && ReadState(file).Some? && !Stale(RunSteps(Initial(n, file), steps))
    ensures CanCommit(RunSteps(Initial(n, file), steps), p, request)
  {
    var s := RunSteps(Initial(n, file), steps);
    RunKeepsInv(n, file, steps);
    ReadableStays(file, s.log);
    var vacate := Vacates(s, p);
    var free := RunSteps(s, vacate);
    var work := FreeLockCommits(free, p, request);
    RunsCompose(s, vacate, work);
    assert CommitsFor(s, vacate + work, p, request);
  }

  /** A commit presupposes a readable file, and a lock that is not stale. */
  lemma {:induction false} CommitPresupposes(n: nat, file: Stored, steps: seq<Step>, more: seq<Step>)
    requires !NothingCommitted(RunSteps(Initial(n, file), steps), more)
    ensures !Stale(RunSteps(Initial(n, file), steps)) && ReadState(file).Some?
  {
    var s := RunSteps(Initial(n, file), steps);
    var log := RunSteps(s, more).log;
    var i :| |s.log| <= i < |log| && log[i].Commit?;
    RunsCompose(Initial(n, file), steps, more);
    RunKeepsInv(n, file, steps + more);
    ReadableStays(file, log[..i]);
    if Stale(s) {
      StaleLockBlocks(s, more);
    }
  }

  /** Recovery, exactly: at any point of any run, whoever may have failed, timed out or died, any
      process can still get any request committed if and only if the lock is not stale and the file
      was not damaged to begin with. */
  lemma {:induction false} RecoverableExactly(n: nat, file: Stored, steps: seq<Step>, p: nat, request: Request)
    requires p < n
    ensures var s := RunSteps(Initial(n, file), steps);
            CanCommit(s, p, request) <==> !Stale(s) && !Damaged(file)
  {
    var s := RunSteps(Initial(n, file), steps);
    if CanCommit(s, p, request) {
      var more :| CommitsFor(s, more, p, request);
      CommitPresupposes(n, file, steps, more);
    } else if !Stale(s) && ReadState(file).Some? {
      StillRecovers(n, file, steps, p, request);
    }
  }

  lemma {:induction false} ReplayNothing(file: Stored, log: seq<Mark>)
    requires forall i | 0 <= i < |log| :: !log[i].Commit?
    ensures Replay(file, log) == file
  {
    if log != [] {
      ReplayNothing(file, log[..|log| - 1]);
    }
  }

  /** A damaged file is never mistaken for an empty ledger: under any interleaving it stays as it is,
      nothing is committed, and every call that returns reports an error. */
  lemma {:induction false} DamageIsNeverOverwritten(n: nat, file: Stored, steps: seq<Step>)
    requires Damaged(file)
    ensures var s := RunSteps(Initial(n, file), steps);
            && s.file == file
            && forall i | 0 <= i < |s.log| :: !s.log[i].Commit? && (s.log[i].Return? ==> s.log[i].outcome == None)
  {
    var s := RunSteps(Initial(n, file), steps);
    RunKeepsInv(n, file, steps);
    forall i | 0 <= i < |s.log|
      ensures !s.log[i].Commit?
    {
      ReadableStays(file, s.log[..i]);
    }
    forall i | 0 <= i < |s.log| && s.log[i].Return?
      ensures s.log[i].outcome == None
    {
      if s.log[i].outcome.Some? {
        var invoked, committed := ReturnsWereCommitted(n, file, steps, i);
      }
    }
    ReplayNothing(file, s.log);
  }

  /** So a ledger begun without a file is lost for good exactly when its lock is stale. */
  lemma {:induction false} StaleExactlyWhenLost(n: nat, steps: seq<Step>)
    requires n > 0
    ensures var s := RunSteps(Initial(n, Missing), steps);
            Stale(s) <==> forall more :: NothingCommitted(s, more)
  {
    var s := RunSteps(Initial(n, Missing), steps);
    if Stale(s) {
      forall more
        ensures NothingCommitted(s, more)
      {
        StaleLockBlocks(s, more);
      }
    } else {
      StillRecovers(n, Missing, steps, 0, ListEntries(None));
      var more :| CommitsFor(s, more, 0, ListEntries(None));
      assert !NothingCommitted(s, more);
    }
  }

  /** It does happen, from the very start: a process that dies right after taking the lock, or that
      served its request and could not remove the lock, leaves it stale. */
  lemma {:induction false} RestartDoesNotRecover(request: Request)
    ensures Stale(RunSteps(Initial(1, Missing), [Begin(0, request), CreateLock(0)] + [Die(0)]))
    ensures Stale(RunSteps(Initial(1, Missing), [Begin(0, request), CreateLock(0)] + [Load(0), Publish(0)] + [RemoveLockFails(0)]))
  {
    var s, locked, served := Initial(1, Missing), [Begin(0, request), CreateLock(0)], [Load(0), Publish(0)];
    TwoSteps(s, locked[0], locked[1]);
    RunsCompose(s, locked, [Die(0)]);
    OneStep(RunSteps(s, locked), Die(0));
    RunsCompose(s, locked, served);
    TwoSteps(RunSteps(s, locked), served[0], served[1]);
    RunsCompose(s, locked + served, [RemoveLockFails(0)]);
    OneStep(RunSteps(s, locked + served), RemoveLockFails(0));
  }

  // ---------------------------------------------------------------- the ledger behind the file

  /** The committed requests of a log, in order. */
  function Committed(log: seq<Mark>): seq<Request> {
    if log == [] then []
    else
      var before, last := Committed(log[..|log| - 1]), log[|log| - 1];
      if last.Commit? then before + [last.request] else before
  }

  lemma {:induction false} ReplayIsExec(log: seq<Mark>)
    ensures ReadState(Replay(Missing, log)) == Some(Exec(EMPTY, Committed(log)))
  {
    if log != [] {
      var before, last := log[..|log| - 1], log[|log| - 1];
      ReplayIsExec(before);
      if last.Commit? {
        WritesAreReadable(Replay(Missing, before), last.request);
        assert (Committed(before) + [last.request])[..|Committed(before)|] == Committed(before);
      }
    }
  }

  /** Starting without a file, every reachable file decodes to the ledger of the committed requests, so
      every property of sequential runs holds of it. */
  lemma {:induction false} FileIsSequentialLedger(n: nat, steps: seq<Step>)
    ensures var s := RunSteps(Initial(n, Missing), steps);
            && ReadState(s.file) == Some(Exec(EMPTY, Committed(s.log)))
            && LedgerRuns.Inv(LedgerRuns.Run(Committed(s.log)))
            && LedgerRuns.Run(Committed(s.log)).ledger == ReadState(s.file).value
  {
    var s := RunSteps(Initial(n, Missing), steps);
    RunKeepsInv(n, Missing, steps);
    ReplayIsExec(s.log);
    LedgerRuns.RunKeepsInv(Committed(s.log));
  }

  lemma {:induction false} CommittedSplit(log: seq<Mark>, i: nat) returns (rest: seq<Request>)
    requires i <= |log|
    ensures Committed(log) == Committed(log[..i]) + rest
    decreases |log|
  {
    if i == |log| {
      assert log[..i] == log;
      rest := [];
    } else {
      var before, last := log[..|log| - 1], log[|log| - 1];
      assert before[..i] == log[..i];
      rest := CommittedSplit(before, i);
      rest := if last.Commit? then rest + [last.request] else rest;
    }
  }

  lemma {:induction false} CommitAnswer(n: nat, steps: seq<Step>, i: nat)
    requires var log := RunSteps(Initial(n, Missing), steps).log; i < |log| && log[i].Commit?
    ensures var log := RunSteps(Initial(n, Missing), steps).log;
            Serve(Exec(EMPTY, Committed(log[..i])), log[i].request).response == log[i].response
  {
    var log := RunSteps(Initial(n, Missing), steps).log;
    RunKeepsInv(n, Missing, steps);
    ReplayIsExec(log[..i]);
  }

  /** A submission committed as pending, by a process that may have died before answering its client,
      and redelivered later by any process: the redelivery is answered with the receipt the ledger then
      holds, under the same number, whatever other processes committed in between. */
  lemma {:induction false} CrashSafeRedelivery(n: nat, steps: seq<Step>, i: nat, j: nat)
    requires var log := RunSteps(Initial(n, Missing), steps).log;
             && i < j < |log| && log[i].Commit? && log[j].Commit?
             && log[i].request.Submit? && log[j].request.Submit?
             && log[i].request.agentId == log[j].request.agentId && log[i].request.candidate == log[j].request.candidate
             && log[i].request.digest == log[j].request.digest
             && log[i].response.Answered? && log[i].response.receipt.Pending?
    ensures var log := RunSteps(Initial(n, Missing), steps).log;
            && log[j].response.Answered?
            && Redelivery.CurrentReceipt(Exec(EMPTY, Committed(log[..j])), log[i].request.agentId, log[i].request.candidate.candidateId)
               == Some(log[j].response.receipt)
            && log[j].response.receipt.receiptId == log[i].response.receipt.receiptId
  {
    var log := RunSteps(Initial(n, Missing), steps).log;
    var early, late := log[i].request, log[j].request;
    CommitAnswer(n, steps, i);
    CommitAnswer(n, steps, j);
    var l := Exec(EMPTY, Committed(log[..i]));
    assert log[..i + 1][..i] == log[..i] && log[..j][..i + 1] == log[..i + 1];
    assert Exec(EMPTY, Committed(log[..i + 1])) == Serve(l, early).ledger by {
      ExecSplit(EMPTY, Committed(log[..i]), [early]);
      assert [early][..0] == [];
    }
    var rest := CommittedSplit(log[..j], i + 1);
    ExecSplit(EMPTY, Committed(log[..i + 1]), rest);
    Redelivery.LostAcknowledgement(l, early.agentId, early.candidate, early.digest, early.refusal, early.now, rest, late.refusal, late.now);
  }
}
