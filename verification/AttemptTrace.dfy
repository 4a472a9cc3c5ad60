/** What the events and the outcome of an attempt loop say, for every run that ends with an outcome. */
module AttemptTrace {
  import opened Wrappers
  import opened Limits
  import opened AttemptLoop

  // ---------------------------------------------------------------- the shape of the trace

  /** The loop's own events, without what it relays from the body. */
  function Control(events: seq<LoopEvent>): seq<LoopEvent> {
    if events == [] then []
    else
      var before, last := Control(events[..|events| - 1]), events[|events| - 1];
      if last.Relay? then before else before + [last]
  }

  /** What it relays. */
  function Relays(events: seq<LoopEvent>): seq<LoopEvent> {
    if events == [] then []
    else
      var before, last := Relays(events[..|events| - 1]), events[|events| - 1];
      if last.Relay? then before + [last] else before
  }

  lemma {:induction false} ProjectionsAppend(a: seq<LoopEvent>, b: seq<LoopEvent>)
    ensures Control(a + b) == Control(a) + Control(b)
    ensures Relays(a + b) == Relays(a) + Relays(b)
    decreases |b|
  {
    if b == [] {
      assert a + b == a;
    } else {
      var init := b[..|b| - 1];
      assert (a + b)[..|a + b| - 1] == a + init;
      ProjectionsAppend(a, init);
    }
  }

  lemma {:induction false} PureRelay(events: seq<LoopEvent>)
    requires forall e | e in events :: e.Relay?
    ensures Control(events) == [] && Relays(events) == events
  {
    if events != [] {
      assert events == events[..|events| - 1] + [events[|events| - 1]];
      PureRelay(events[..|events| - 1]);
    }
  }

  lemma {:induction false} PureControl(events: seq<LoopEvent>)
    requires forall e | e in events :: !e.Relay?
    ensures Control(events) == events && Relays(events) == []
  {
    if events != [] {
      assert events == events[..|events| - 1] + [events[|events| - 1]];
      PureControl(events[..|events| - 1]);
    }
  }

  function RelaysOf(attempts: seq<Attempt>): seq<LoopEvent> {
    if attempts == [] then [] else RelaysOf(attempts[..|attempts| - 1]) + Relayed(attempts[|attempts| - 1].events)
  }

  /** One attempt's segment: its relays, then its control events. */
  lemma {:induction false} Segment(before: seq<LoopEvent>, events: seq<BodyEvent>, control: seq<LoopEvent>)
    requires forall e | e in control :: !e.Relay?
    ensures Control(before + Relayed(events) + control) == Control(before) + control
    ensures Relays(before + Relayed(events) + control) == Relays(before) + Relayed(events)
  {
    OnlyRelays(events);
    PureRelay(Relayed(events));
    PureControl(control);
    ProjectionsAppend(before + Relayed(events), control);
    ProjectionsAppend(before, Relayed(events));
  }

  ghost predicate AllJudged(attempts: seq<Attempt>) {
    forall k | 0 <= k < |attempts| :: attempts[k].verdict.Some?
  }

  lemma {:induction false} RetriedShape(attempts: seq<Attempt>)
    requires AllJudged(attempts)
    ensures var c := Control(RetriedEvents(attempts));
            && |c| == 2 * |attempts|
            && forall k | 0 <= k < |attempts| :: c[2 * k] == Judging(k + 1) && c[2 * k + 1] == Retrying(k + 1, attempts[k].verdict.value)
    ensures Relays(RetriedEvents(attempts)) == RelaysOf(attempts)
  {
    if attempts != [] {
      RetriedShape(attempts[..|attempts| - 1]);
      RetriedControl(attempts);
    }
  }

  lemma {:induction false} RetriedControl(attempts: seq<Attempt>)
    requires attempts != [] && attempts[|attempts| - 1].verdict.Some?
    ensures var n, last, retried := |attempts|, attempts[|attempts| - 1], RetriedEvents(attempts[..|attempts| - 1]);
            && Control(RetriedEvents(attempts)) == Control(retried) + [Judging(n), Retrying(n, last.verdict.value)]
            && Relays(RetriedEvents(attempts)) == Relays(retried) + Relayed(last.events)
  {
    var n, last, retried := |attempts|, attempts[|attempts| - 1], RetriedEvents(attempts[..|attempts| - 1]);
    var control := [Judging(n), Retrying(n, last.verdict.value)];
    assert RetriedEvents(attempts) == retried + Relayed(last.events) + control;
    Segment(retried, last.events, control);
  }

  /** The trace of every run with an outcome: after attempt k, `Judging(k)` and, but for the last
      attempt, `Retrying(k)` with its failed verdict; a run error is not judged; exactly one
      `Completed`, and it comes last. Everything the bodies emitted is relayed in order, but for their
      end marks. */
  lemma {:induction false} TraceShape(pol: Policies, request: Request, attempts: seq<Attempt>)
    requires attempts != [] && Chain(pol, request, attempts)
    ensures var trace, n := TraceOf(pol, attempts), |attempts|;
            var c := Control(trace);
            var judged := attempts[n - 1].verdict.Some?;
            && |c| == 2 * (n - 1) + (if judged then 2 else 1)
            && (forall k | 0 <= k < n - 1 ::
                  attempts[k].verdict.Some? && !attempts[k].verdict.value.passed
                  && c[2 * k] == Judging(k + 1) && c[2 * k + 1] == Retrying(k + 1, attempts[k].verdict.value))
            && (judged ==> c[2 * n - 2] == Judging(n))
            && c[|c| - 1] == trace[|trace| - 1] == Completed(OutcomeOf(pol, attempts))
            && Relays(trace) == RelaysOf(attempts)
            && exists positions :: PassedOn(AllEvents(attempts), Relays(trace), positions)
  {
    EarlierFailed(pol, request, attempts);
    LastSegment(pol, attempts);
    RelaysOfAll(attempts);
    var positions := RelayedPassedOn(AllEvents(attempts));
  }

  /** Everything the bodies of these attempts emitted, in order. */
  function AllEvents(attempts: seq<Attempt>): seq<BodyEvent> {
    if attempts == [] then [] else AllEvents(attempts[..|attempts| - 1]) + attempts[|attempts| - 1].events
  }

  lemma {:induction false} RelayedAppend(a: seq<BodyEvent>, b: seq<BodyEvent>)
    ensures Relayed(a + b) == Relayed(a) + Relayed(b)
    decreases |b|
  {
    if b == [] {
      assert a + b == a;
    } else {
      assert (a + b)[..|a + b| - 1] == a + b[..|b| - 1];
      RelayedAppend(a, b[..|b| - 1]);
    }
  }

  lemma {:induction false} RelaysOfAll(attempts: seq<Attempt>)
    ensures RelaysOf(attempts) == Relayed(AllEvents(attempts))
  {
    if attempts != [] {
      RelaysOfAll(attempts[..|attempts| - 1]);
      RelayedAppend(AllEvents(attempts[..|attempts| - 1]), attempts[|attempts| - 1].events);
    }
  }

  /** Every attempt but the last was judged and failed. */
  lemma {:induction false} EarlierFailed(pol: Policies, request: Request, attempts: seq<Attempt>)
    requires attempts != [] && Chain(pol, request, attempts)
    ensures forall k | 0 <= k < |attempts| - 1 :: attempts[k].verdict.Some? && !attempts[k].verdict.value.passed
  {
    forall k | 0 <= k < |attempts| - 1
      ensures attempts[k].verdict.Some? && !attempts[k].verdict.value.passed
    {
      assert GoesOn(pol, attempts[..k + 1]);
    }
  }

  lemma {:induction false} LastSegment(pol: Policies, attempts: seq<Attempt>)
    requires attempts != [] && AllJudged(attempts[..|attempts| - 1])
    ensures var trace, n := TraceOf(pol, attempts), |attempts|;
            var c := Control(trace);
            var judged := attempts[n - 1].verdict.Some?;
            && |c| == 2 * (n - 1) + (if judged then 2 else 1)
            && (forall k | 0 <= k < n - 1 :: c[2 * k] == Judging(k + 1) && c[2 * k + 1] == Retrying(k + 1, attempts[k].verdict.value))
            && (judged ==> c[2 * n - 2] == Judging(n))
            && c[|c| - 1] == trace[|trace| - 1] == Completed(OutcomeOf(pol, attempts))
            && Relays(trace) == RelaysOf(attempts)
  {
    RetriedShape(attempts[..|attempts| - 1]);
    LastControl(pol, attempts);
  }

  function Ending(pol: Policies, attempts: seq<Attempt>): seq<LoopEvent>
    requires attempts != []
  {
    (if attempts[|attempts| - 1].verdict.Some? then [Judging(|attempts|)] else []) + [Completed(OutcomeOf(pol, attempts))]
  }

  lemma {:induction false} LastControl(pol: Policies, attempts: seq<Attempt>)
    requires attempts != []
    ensures var trace, retried := TraceOf(pol, attempts), RetriedEvents(attempts[..|attempts| - 1]);
            && Control(trace) == Control(retried) + Ending(pol, attempts)
            && trace[|trace| - 1] == Completed(OutcomeOf(pol, attempts))
            && Relays(trace) == Relays(retried) + Relayed(attempts[|attempts| - 1].events)
  {
    var retried, last := RetriedEvents(attempts[..|attempts| - 1]), attempts[|attempts| - 1];
    assert TraceOf(pol, attempts) == retried + Relayed(last.events) + Ending(pol, attempts);
    Segment(retried, last.events, Ending(pol, attempts));
  }

  /** The nodes announced by a trace, in order. */
  function NodesAnnounced(events: seq<LoopEvent>): seq<string> {
    if events == [] then []
    else
      var before, last := NodesAnnounced(events[..|events| - 1]), events[|events| - 1];
      if last.Relay? && last.event.NodesSubmitted? then before + last.event.nodes else before
  }

  lemma {:induction false} NodesSurviveRelays(events: seq<LoopEvent>)
    ensures NodesAnnounced(Relays(events)) == NodesAnnounced(events)
  {
    if events != [] {
      var init, last := events[..|events| - 1], events[|events| - 1];
      NodesSurviveRelays(init);
      if last.Relay? {
        assert (Relays(init) + [last])[..|Relays(init)|] == Relays(init);
      }
    }
  }

  lemma {:induction false} NodesSnoc(before: seq<LoopEvent>, e: LoopEvent)
    ensures NodesAnnounced(before + [e]) == NodesAnnounced(before) + if e.Relay? && e.event.NodesSubmitted? then e.event.nodes else []
  {
    assert (before + [e])[..|before|] == before;
  }

  lemma {:induction false} NodesAppend(before: seq<LoopEvent>, events: seq<BodyEvent>)
    ensures NodesAnnounced(before + Relayed(events)) == NodesAnnounced(before) + NodesIn(events)
  {
    if events == [] {
      assert before + [] == before;
      assert NodesAnnounced(before) + [] == NodesAnnounced(before);
    } else {
      var init, last := events[..|events| - 1], events[|events| - 1];
      NodesAppend(before, init);
      var shorter := before + Relayed(init);
      if last.BodyDone? {
        assert Relayed(events) == Relayed(init) && NodesIn(events) == NodesIn(init);
      } else {
        NodesSnoc(shorter, Relay(last));
        var nodes := if last.NodesSubmitted? then last.nodes else [];
        calc {
          NodesAnnounced(before + Relayed(events));
          { assert before + Relayed(events) == shorter + [Relay(last)]; }
          NodesAnnounced(before) + NodesIn(init) + nodes;
          { assert NodesAnnounced(before) + NodesIn(init) + nodes == NodesAnnounced(before) + (NodesIn(init) + nodes); }
          NodesAnnounced(before) + NodesIn(events);
        }
      }
    }
  }

  lemma {:induction false} NodesOfRelays(attempts: seq<Attempt>)
    ensures NodesAnnounced(RelaysOf(attempts)) == NodesOf(attempts)
  {
    if attempts != [] {
      NodesOfRelays(attempts[..|attempts| - 1]);
      NodesAppend(RelaysOf(attempts[..|attempts| - 1]), attempts[|attempts| - 1].events);
    }
  }

  /** The outcome reports exactly the workflow nodes its own trace announced, over all attempts and in
      order, and nothing when there were none. */
  lemma {:induction false} OutcomeReportsAnnouncedNodes(pol: Policies, request: Request, attempts: seq<Attempt>)
    requires attempts != [] && Chain(pol, request, attempts)
    ensures var announced := NodesAnnounced(TraceOf(pol, attempts));
            OutcomeOf(pol, attempts).submittedNodes == if announced == [] then None else Some(announced)
  {
    TraceShape(pol, request, attempts);
    NodesSurviveRelays(TraceOf(pol, attempts));
    NodesOfRelays(attempts);
  }

  // ---------------------------------------------------------------- the outcome

  /** What each kind of outcome means, and the budget: the attempt cap is respected, no attempt starts
      once the capped token total has reached the limit, and the reported totals are the true sums
      cut off at the type's maximum. */
  lemma {:induction false} OutcomeMeaning(pol: Policies, request: Request, attempts: seq<Attempt>)
    requires pol.stop.maxAttempts > 0 && attempts != [] && Chain(pol, request, attempts) && !GoesOn(pol, attempts)
    ensures var o, n := OutcomeOf(pol, attempts), |attempts|;
            && (o.kind.Passed? <==> o.verdict.Some? && o.verdict.value.passed)
            && (o.kind.RunError? <==> o.verdict.None?) && (o.kind.RunError? <==> IsRunError(o.runStatus))
            && (o.kind.FailedJudge? <==> o.verdict.Some? && !o.verdict.value.passed && pol.stop.stopOnFailedVerdict)
            && (o.kind.FailedJudge? ==> n == 1)
            && (o.kind.Exhausted? <==> o.verdict.Some? && !o.verdict.value.passed && !pol.stop.stopOnFailedVerdict)
            && (o.kind.Exhausted? ==> n == pol.stop.maxAttempts || (pol.stop.maxTotalTokens.Some? && o.totalTokens >= pol.stop.maxTotalTokens.value))
            && o.verdict == attempts[n - 1].verdict
            && o.attempts == n <= pol.stop.maxAttempts
            && Some(Terminal(o.runStatus, o.result, attempts[n - 1].terminal.turns, attempts[n - 1].terminal.tokens)) == LastDone(attempts[n - 1].events)
            && (forall k | 0 < k < n && pol.stop.maxTotalTokens.Some? ::
                  Capped(TokensUsed(attempts[..k]), MAX_U64) < pol.stop.maxTotalTokens.value)
            && o.totalTokens == (if TokensUsed(attempts) <= MAX_U64 then TokensUsed(attempts) else MAX_U64)
            && o.turns == (if TurnsUsed(attempts) <= MAX_U32 then TurnsUsed(attempts) else MAX_U32)
  {
    var n := |attempts|;
    assert Faithful(pol, request, attempts, n - 1);
    BelowCap(pol, request, attempts, n);
    forall k | 0 < k < n
      ensures !LimitReached(pol, attempts[..k]) && !pol.stop.stopOnFailedVerdict
    {
      assert GoesOn(pol, attempts[..k]);
    }
  }

  lemma {:induction false} BelowCap(pol: Policies, request: Request, attempts: seq<Attempt>, k: nat)
    requires pol.stop.maxAttempts > 0 && Chain(pol, request, attempts) && 0 < k <= |attempts|
    ensures k <= pol.stop.maxAttempts
  {
    if k > 1 {
      BelowCap(pol, request, attempts, k - 1);
      assert GoesOn(pol, attempts[..k - 1]);
    }
  }

  lemma {:induction false} ItemsInjective(a: seq<BodyEvent>, b: seq<BodyEvent>)
    requires Items(a) == Items(b)
    ensures a == b
  {
    assert |Items(a)| == |a| && |Items(b)| == |b|;
    forall i | 0 <= i < |a|
      ensures a[i] == b[i]
    {
      assert Items(a)[i] == Items(b)[i];
    }
  }

  lemma {:induction false} ChainsAgree(pol: Policies, request: Request, a: seq<Attempt>, b: seq<Attempt>, k: nat)
    requires Chain(pol, request, a) && Chain(pol, request, b) && k <= |a| && k <= |b|
    ensures a[..k] == b[..k]
  {
    if k > 0 {
      ChainsAgree(pol, request, a, b, k - 1);
      assert k > 1 ==> a[k - 2] == a[..k - 1][k - 2] == b[k - 2];
      assert Faithful(pol, request, a, k - 1) && Faithful(pol, request, b, k - 1);
      ItemsInjective(a[k - 1].events, b[k - 1].events);
      assert a[..k] == a[..k - 1] + [a[k - 1]] && b[..k] == b[..k - 1] + [b[k - 1]];
    }
  }

  lemma {:induction false} ShorterGoesOn(pol: Policies, request: Request, a: seq<Attempt>, b: seq<Attempt>)
    requires Chain(pol, request, a) && Chain(pol, request, b) && 0 < |a| < |b|
    ensures GoesOn(pol, a)
  {
    ChainsAgree(pol, request, a, b, |a|);
    assert a == a[..|a|] == b[..|a|];
  }

  /** The account of a run is determined by the policies: there is only one. */
  lemma {:induction false} RunDetermined(pol: Policies, request: Request, a: seq<Attempt>, b: seq<Attempt>)
    requires a != [] && Chain(pol, request, a) && !GoesOn(pol, a)
    requires b != [] && Chain(pol, request, b) && !GoesOn(pol, b)
    ensures a == b
  {
    if |a| < |b| {
      ShorterGoesOn(pol, request, a, b);
    } else if |b| < |a| {
      ShorterGoesOn(pol, request, b, a);
    } else {
      ChainsAgree(pol, request, a, b, |a|);
      assert a[..|a|] == a && b[..|a|] == b;
    }
  }

  /** An attempt that was followed by another did not end in an error. */
  lemma {:induction false} NoFailureBeforeRetry(pol: Policies, request: Request, attempts: seq<Attempt>, k: nat)
    requires Chain(pol, request, attempts) && k < |attempts| && GoesOn(pol, attempts[..k + 1])
    ensures FailureAfter(pol, request, attempts[..k]).None?
  {
    var a := attempts[k];
    assert attempts[..k + 1][k] == a;
    assert Faithful(pol, request, attempts, k);
    assert CarryInto(request, attempts[..k], k) == CarryInto(request, attempts, k);
    assert Items(a.events)[..|a.events|] == Items(a.events);
    SoundPrefix(Items(a.events), a.events);
  }

  lemma {:induction false} PartGoesOn(pol: Policies, request: Request, a: seq<Attempt>, b: seq<Attempt>)
    requires Chain(pol, request, a) && Open(pol, request, b) && 0 < |a| <= |b|
    ensures GoesOn(pol, a)
  {
    ChainsAgree(pol, request, a, b, |a|);
    assert a == a[..|a|] == b[..|a|];
    assert b == b[..|b|];
  }

  /** A run that ends with an outcome has no error on its way: whatever goes on is a part of it. */
  lemma {:induction false} NoErrorBeforeOutcome(pol: Policies, request: Request, whole: seq<Attempt>, part: seq<Attempt>)
    requires Completes(pol, request, whole) && Open(pol, request, part)
    ensures |part| < |whole| && part == whole[..|part|]
    ensures FailureAfter(pol, request, part).None?
  {
    if |whole| <= |part| {
      PartGoesOn(pol, request, whole, part);
    }
    ChainsAgree(pol, request, whole, part, |part|);
    assert part == part[..|part|];
    if |part| + 1 < |whole| {
      NoFailureBeforeRetry(pol, request, whole, |part|);
    }
  }

  /** The account of a run that ends in an error is determined as well. */
  lemma {:induction false} FailureDetermined(pol: Policies, request: Request, a: seq<Attempt>, b: seq<Attempt>)
    requires Fails(pol, request, a) && Fails(pol, request, b)
    ensures a == b
  {
    if |a| < |b| {
      FailsNoEarlier(pol, request, a, b);
    } else if |b| < |a| {
      FailsNoEarlier(pol, request, b, a);
    } else {
      ChainsAgree(pol, request, a, b, |a|);
      assert a[..|a|] == a && b[..|a|] == b;
    }
  }

  lemma {:induction false} FailsNoEarlier(pol: Policies, request: Request, a: seq<Attempt>, b: seq<Attempt>)
    requires Open(pol, request, a) && Open(pol, request, b) && |a| < |b|
    ensures FailureAfter(pol, request, a).None?
  {
    ChainsAgree(pol, request, a, b, |a|);
    assert a == a[..|a|];
    assert b == b[..|b|];
    NoFailureBeforeRetry(pol, request, b, |a|);
  }

  /** Running to completion: the outcome is that of the one completed run, and there is none exactly
      when the run ends in an error. */
  method Run(pol: Policies, request: Request) returns (outcome: Option<Outcome>, ghost attempts: seq<Attempt>)
    requires pol.stop.maxAttempts > 0
    ensures if outcome.Some? then Completes(pol, request, attempts) else Fails(pol, request, attempts)
    ensures forall a | Completes(pol, request, a) :: outcome == Some(OutcomeOf(pol, a))
    ensures forall a | Fails(pol, request, a) :: outcome == None
  {
    var events, failed, account := Stream(pol, request);
    attempts, outcome := account, None;
    for i := 0 to |events|
      invariant i > 0 && events[i - 1].Completed? ==> outcome == Some(events[i - 1].outcome)
    {
      if events[i].Completed? {
        outcome := Some(events[i].outcome);
      }
    }
    if failed {
      outcome := None;
    }
    OneAccount(pol, request, account);
  }

  lemma {:induction false} OneAccount(pol: Policies, request: Request, account: seq<Attempt>)
    requires Completes(pol, request, account) || Fails(pol, request, account)
    ensures forall a | Completes(pol, request, a) || Fails(pol, request, a) :: a == account
    ensures Completes(pol, request, account) <==> !Fails(pol, request, account)
  {
    forall a | Completes(pol, request, a) || Fails(pol, request, a)
      ensures a == account
    {
      if Completes(pol, request, a) && Completes(pol, request, account) {
        RunDetermined(pol, request, a, account);
      } else if Completes(pol, request, a) {
        NoErrorBeforeOutcome(pol, request, a, account);
      } else if Completes(pol, request, account) {
        NoErrorBeforeOutcome(pol, request, account, a);
      } else {
        FailureDetermined(pol, request, a, account);
      }
    }
  }

  /** Nothing drifts from attempt to attempt: each is prepared from the original session and goal and
      the immediately previous verdict, its body gets the original criteria and extensions, and the
      judge is asked about the original goal and criteria and this attempt's own result. */
  lemma {:induction false} AttemptsFromOriginal(pol: Policies, request: Request, attempts: seq<Attempt>, k: nat)
    requires Chain(pol, request, attempts) && k < |attempts|
    ensures var a := attempts[k];
            var previous := if k == 0 then None else attempts[k - 1].verdict;
            && pol.carry(CarryContext(request.sessionId, request.goal, k + 1, previous)) == Some(a.prepared)
            && pol.body(BodyContext(a.prepared, request.criteria, request.extensions, k + 1)) == Items(a.events)
            && EndsWith(a.events, Some(a.terminal))
            && (a.verdict.Some? ==>
                  pol.judge(JudgeContext(request.goal, request.criteria, k + 1, a.terminal.result)) == Judged(a.verdict.value))
            && (k > 0 ==> previous.Some? && !previous.value.passed)
  {
    assert Faithful(pol, request, attempts, k);
    LastDoneEnds(attempts[k].events);
    if k > 0 {
      assert GoesOn(pol, attempts[..k]);
    }
  }

  /** Why a run ends in an error instead of an outcome: its next attempt cannot be prepared, its body
      breaks or leaves no end mark, the judge gives no verdict, or the pass hook refuses the outcome. */
  lemma {:induction false} CausesOfFailure(pol: Policies, request: Request, attempts: seq<Attempt>)
    ensures var previous := if attempts == [] then None else attempts[|attempts| - 1].verdict;
            var carried := pol.carry(CarryContext(request.sessionId, request.goal, |attempts| + 1, previous));
            FailureAfter(pol, request, attempts).Some? <==>
              (carried.None?
               || BodyFaulty(pol.body(BodyContext(carried.value, request.criteria, request.extensions, |attempts| + 1)))
               || exists t, events | EndsWith(events, Some(t))
                    && pol.body(BodyContext(carried.value, request.criteria, request.extensions, |attempts| + 1)) == Items(events) ::
                    Unjudged(pol, request, attempts, Attempt(carried.value, events, t, None)))
  {
    var previous := if attempts == [] then None else attempts[|attempts| - 1].verdict;
    var carry := CarryContext(request.sessionId, request.goal, |attempts| + 1, previous);
    assert CarryInto(request, attempts, |attempts|) == carry;
    var carried := pol.carry(carry);
    if carried.Some? {
      var items := pol.body(BodyContext(carried.value, request.criteria, request.extensions, |attempts| + 1));
      BodyFaults(items);
      if !BodyFaulty(items) {
        var events := Sound(items);
        LastDoneEnds(events);
        forall t, other | EndsWith(other, Some(t)) && items == Items(other)
          ensures other == events && Some(t) == LastDone(events)
        {
          ItemsInjective(other, events);
          OneEnd(events, t);
        }
      }
    }
  }

  /** A body that breaks, or that never says it is done. */
  ghost predicate BodyFaulty(items: seq<BodyItem>) {
    Broken in items || forall t :: Emitted(BodyDone(t)) !in items
  }

  /** After a body that ended properly: no verdict, or a pass that the hook refuses. */
  ghost predicate Unjudged(pol: Policies, request: Request, attempts: seq<Attempt>, a: Attempt) {
    var reply := pol.judge(JudgeContext(request.goal, request.criteria, |attempts| + 1, a.terminal.result));
    && !IsRunError(a.terminal.runStatus)
    && (reply.JudgeFailed? || reply.NoVerdict?
        || (reply.verdict.passed && !pol.onPass(OutcomeOf(pol, attempts + [a.(verdict := Some(reply.verdict))]))))
  }

  lemma {:induction false} BodyFaults(items: seq<BodyItem>)
    ensures BodyFaulty(items) <==> Broken in items || LastDone(Sound(items)).None?
    ensures Broken !in items ==> items == Items(Sound(items))
  {
    if Broken !in items {
      SoundOfAll(items);
      var events := Sound(items);
      LastDoneEnds(events);
      if LastDone(events).Some? {
        var k: nat :| EndsAt(events, LastDone(events).value, k);
        assert items[k] == Items(events)[k] == Emitted(BodyDone(LastDone(events).value));
      } else {
        forall t
          ensures Emitted(BodyDone(t)) !in items
        {
          assert forall i | 0 <= i < |items| :: items[i] == Emitted(events[i]) && !events[i].BodyDone?;
        }
      }
    }
  }

  lemma {:induction false} SoundOfAll(items: seq<BodyItem>)
    requires Broken !in items
    ensures items == Items(Sound(items))
  {
    if items != [] {
      assert items[0] in items && forall x | x in items[1..] :: x in items;
      SoundOfAll(items[1..]);
      assert items == [items[0]] + items[1..];
      assert Items(Sound(items)) == [Emitted(items[0].event)] + Items(Sound(items[1..]));
    }
  }

  lemma {:induction false} OneEnd(events: seq<BodyEvent>, t: Terminal)
    requires EndsWith(events, Some(t))
    ensures LastDone(events) == Some(t)
  {
    LastDoneEnds(events);
    var k: nat :| EndsAt(events, t, k);
    if LastDone(events).Some? {
      var j: nat :| EndsAt(events, LastDone(events).value, j);
      assert j == k;
    }
  }

  // ---------------------------------------------------------------- carry policies

  function Decimal(n: nat): string {
    if n < 10 then [n as char + '0'] else Decimal(n / 10) + [(n % 10) as char + '0']
  }

  /** The number a decimal numeral stands for. */
  function Numeral(s: string): int {
    if s == "" then 0 else 10 * Numeral(s[..|s| - 1]) + (s[|s| - 1] as int - '0' as int)
  }

  lemma {:induction false} DecimalReadsBack(n: nat)
    ensures Decimal(n) != "" && Numeral(Decimal(n)) == n
    ensures n > 0 ==> Decimal(n)[0] != '0'
    ensures forall i | 0 <= i < |Decimal(n)| :: '0' <= Decimal(n)[i] <= '9'
  {
    if n >= 10 {
      DecimalReadsBack(n / 10);
      assert Decimal(n)[..|Decimal(n)| - 1] == Decimal(n / 10);
    }
  }

  /** Stable session, unchanged goal, feedback as context. */
  function ContinueSession(c: CarryContext): Prepared {
    var note := if c.previous.Some? && c.previous.value.feedback != "" then Some(c.previous.value.feedback) else None;
    Prepared(c.rootSessionId, c.goal, note)
  }

  /** New session and goal-appended feedback after the first attempt. */
  function FreshWithFeedback(c: CarryContext, freshId: string): Prepared {
    var goal :=
      if c.previous.Some? && c.previous.value.feedback != "" then
        c.goal + "\n\n[Attempt " + Decimal(if c.attempt > 0 then c.attempt - 1 else 0) + " feedback: " + c.previous.value.feedback + "]"
      else c.goal;
    Prepared(if c.attempt == 1 then c.rootSessionId else freshId, goal, None)
  }

  /** Under ContinueSession every attempt of a run has the original session and goal, and sees just the
      previous attempt's feedback. */
  lemma {:induction false} ContinueSessionKeepsGoal(pol: Policies, request: Request, attempts: seq<Attempt>, k: nat)
    requires Chain(pol, request, attempts) && k < |attempts|
    requires forall c :: pol.carry(c) == Some(ContinueSession(c))
    ensures var prepared := attempts[k].prepared;
            && prepared.sessionId == request.sessionId && prepared.goal == request.goal
            && (k == 0 ==> prepared.contextInput == None)
            && (k > 0 ==> attempts[k - 1].verdict.Some?
                          && prepared.contextInput == if attempts[k - 1].verdict.value.feedback == "" then None else Some(attempts[k - 1].verdict.value.feedback))
  {
    assert Faithful(pol, request, attempts, k);
    if k > 0 {
      assert GoesOn(pol, attempts[..k]);
    }
  }

  /** Under FreshWithFeedback the goal of an attempt is the original one plus at most the immediately
      previous feedback under its own number; nothing accumulates. */
  lemma {:induction false} FreshFeedbackDoesNotAccumulate(pol: Policies, request: Request, attempts: seq<Attempt>, k: nat, freshIds: nat -> string)
    requires Chain(pol, request, attempts) && k < |attempts|
    requires forall c :: pol.carry(c) == Some(FreshWithFeedback(c, freshIds(c.attempt)))
    ensures var prepared := attempts[k].prepared;
            && (k == 0 ==> prepared == Prepared(request.sessionId, request.goal, None))
            && (k > 0 ==>
                  && attempts[k - 1].verdict.Some?
                  && prepared.sessionId == freshIds(k + 1)
                  && prepared.goal == var feedback := attempts[k - 1].verdict.value.feedback;
                       if feedback == "" then request.goal else request.goal + "\n\n[Attempt " + Decimal(k) + " feedback: " + feedback + "]")
  {
    assert Faithful(pol, request, attempts, k);
    if k > 0 {
      assert GoesOn(pol, attempts[..k]);
    }
  }
}
