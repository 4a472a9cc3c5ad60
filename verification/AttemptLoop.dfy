/** The attempt loop: run a body, judge it, carry feedback into the next attempt, stop by policy. The
    body, judge, carry policy and pass hook are arbitrary functions of what they are given; since
    each is given the attempt number, they may answer differently every time. */
module AttemptLoop {
  import opened Wrappers
  import opened Limits

  datatype Verdict = Verdict(passed: bool, score: real, feedback: string)

  datatype Request = Request(sessionId: string, goal: string, criteria: seq<string>, extensions: string)

  datatype CarryContext = CarryContext(rootSessionId: string, goal: string, attempt: nat, previous: Option<Verdict>)

  datatype Prepared = Prepared(sessionId: string, goal: string, contextInput: Option<string>)

  datatype BodyContext = BodyContext(prepared: Prepared, criteria: seq<string>, extensions: string, attempt: nat)

  /** `Activity` stands for a token, tool call, tool delta, tool suspension or tool result: all are
      passed on as they are. */
  datatype BodyEvent =
    | Activity(detail: string)
    | NodesSubmitted(nodes: seq<string>)
    | BodyError(message: string)
    | BodyDone(terminal: Terminal)

  datatype Terminal = Terminal(runStatus: string, result: string, turns: nat, tokens: nat)

  datatype BodyItem = Emitted(event: BodyEvent) | Broken

  datatype JudgeContext = JudgeContext(goal: string, criteria: seq<string>, attempt: nat, result: string)

  datatype JudgeReply = JudgeFailed | NoVerdict | Judged(verdict: Verdict)

  datatype StopPolicy = StopPolicy(maxAttempts: nat, maxTotalTokens: Option<nat>, stopOnFailedVerdict: bool)

  datatype OutcomeKind = Passed | FailedJudge | Exhausted | RunError

  datatype Outcome = Outcome(kind: OutcomeKind, runStatus: string, verdict: Option<Verdict>, result: string,
                             attempts: nat, turns: nat, totalTokens: nat, submittedNodes: Option<seq<string>>)

  datatype LoopEvent = Relay(event: BodyEvent) | Judging(attempt: nat) | Retrying(attempt: nat, verdict: Verdict) | Completed(outcome: Outcome)

  datatype Policies = Policies(
    carry: CarryContext -> Option<Prepared>,
    body: BodyContext -> seq<BodyItem>,
    judge: JudgeContext -> JudgeReply,
    onPass: Outcome -> bool,
    stop: StopPolicy)

  function Lower(c: char): char {
    if 'A' <= c <= 'Z' then c - 'A' + 'a' else c
  }

  function LowerAscii(s: string): string {
    seq(|s|, i requires 0 <= i < |s| => Lower(s[i]))
  }

  /** The same letters, whatever their case; every other character must be the same. */
  predicate SameIgnoringCase(a: string, b: string) {
    && |a| == |b|
    && forall i | 0 <= i < |a| ::
         a[i] == b[i] || ('a' <= b[i] <= 'z' && a[i] as int == b[i] as int - 32)
  }

  /** A run status is an error in any spelling of `error`, `invalid_arg` or `user_abort`, and in nothing
      else. */
  lemma {:induction false} RunErrorsAnyCase(status: string)
    ensures IsRunError(status) <==>
              || SameIgnoringCase(status, "error") || SameIgnoringCase(status, "invalid_arg") || SameIgnoringCase(status, "user_abort")
  {
    LoweredSame(status, "error");
    LoweredSame(status, "invalid_arg");
    LoweredSame(status, "user_abort");
  }

  lemma {:induction false} LoweredSame(a: string, b: string)
    requires forall i | 0 <= i < |b| :: !('A' <= b[i] <= 'Z')
    ensures LowerAscii(a) == b <==> SameIgnoringCase(a, b)
  {
    if SameIgnoringCase(a, b) {
      assert forall i | 0 <= i < |a| :: LowerAscii(a)[i] == b[i];
    } else if |a| == |b| {
      var i :| 0 <= i < |a| && !(a[i] == b[i] || ('a' <= b[i] <= 'z' && a[i] as int == b[i] as int - 32));
      assert LowerAscii(a)[i] != b[i];
    }
  }

  predicate IsRunError(status: string) {
    LowerAscii(status) == "error" || LowerAscii(status) == "invalid_arg" || LowerAscii(status) == "user_abort"
  }

  function SaturatingAdd(a: nat, b: nat, max: nat): nat {
    if a + b > max then max else a + b
  }

  // ---------------------------------------------------------------- the account of a run

  /** One attempt: what it was prepared with, what its body emitted, how the body ended and how it was
      judged. */
  datatype Attempt = Attempt(prepared: Prepared, events: seq<BodyEvent>, terminal: Terminal, verdict: Option<Verdict>)

  function TokensUsed(attempts: seq<Attempt>): nat {
    if attempts == [] then 0 else TokensUsed(attempts[..|attempts| - 1]) + attempts[|attempts| - 1].terminal.tokens
  }

  function TurnsUsed(attempts: seq<Attempt>): nat {
    if attempts == [] then 0 else TurnsUsed(attempts[..|attempts| - 1]) + attempts[|attempts| - 1].terminal.turns
  }

  function NodesIn(events: seq<BodyEvent>): seq<string> {
    if events == [] then []
    else
      var last := events[|events| - 1];
      NodesIn(events[..|events| - 1]) + if last.NodesSubmitted? then last.nodes else []
  }

  function NodesOf(attempts: seq<Attempt>): seq<string> {
    if attempts == [] then [] else NodesOf(attempts[..|attempts| - 1]) + NodesIn(attempts[|attempts| - 1].events)
  }

  /** The last `BodyDone` counts. */
  function LastDone(events: seq<BodyEvent>): Option<Terminal> {
    if events == [] then None
    else
      var last := events[|events| - 1];
      if last.BodyDone? then Some(last.terminal) else LastDone(events[..|events| - 1])
  }

  /** Everything but `BodyDone` is passed on. */
  function Relayed(events: seq<BodyEvent>): seq<LoopEvent> {
    if events == [] then []
    else
      var last := events[|events| - 1];
      Relayed(events[..|events| - 1]) + if last.BodyDone? then [] else [Relay(last)]
  }

  /** What relaying promises: the relayed events are the body's own, at strictly increasing positions,
      and a position is left out only when it holds an end mark. */
  ghost predicate PassedOn(events: seq<BodyEvent>, relayed: seq<LoopEvent>, positions: seq<nat>) {
    && |positions| == |relayed|
    && (forall i, j | 0 <= i < j < |positions| :: positions[i] < positions[j])
    && (forall i | 0 <= i < |positions| :: positions[i] < |events| && relayed[i] == Relay(events[positions[i]]))
    && (forall k | 0 <= k < |events| :: k in positions <==> !events[k].BodyDone?)
  }

  lemma {:induction false} RelayedPassedOn(events: seq<BodyEvent>) returns (positions: seq<nat>)
    ensures PassedOn(events, Relayed(events), positions)
  {
    positions := [];
    if events != [] {
      var init, last := events[..|events| - 1], events[|events| - 1];
      positions := RelayedPassedOn(init);
      assert events == init + [last];
      if last.BodyDone? {
        EndMarkHeld(init, Relayed(init), positions, last);
      } else {
        OneMorePassedOn(init, Relayed(init), positions, last);
        positions := positions + [|init|];
      }
    }
  }

  lemma {:induction false} EndMarkHeld(events: seq<BodyEvent>, relayed: seq<LoopEvent>, positions: seq<nat>, last: BodyEvent)
    requires PassedOn(events, relayed, positions) && last.BodyDone?
    ensures PassedOn(events + [last], relayed, positions)
  {
    assert |events| !in positions;
  }

  lemma {:induction false} OneMorePassedOn(events: seq<BodyEvent>, relayed: seq<LoopEvent>, positions: seq<nat>, last: BodyEvent)
    requires PassedOn(events, relayed, positions) && !last.BodyDone?
    ensures PassedOn(events + [last], relayed + [Relay(last)], positions + [|events|])
  {
    var all, more := events + [last], positions + [|events|];
    assert forall k | 0 <= k < |events| :: all[k] == events[k] && (k in more <==> k in positions);
    assert more[|positions|] == |events|;
  }

  /** Position `k` holds the last end mark. */
  ghost predicate EndsAt(events: seq<BodyEvent>, t: Terminal, k: nat) {
    k < |events| && events[k] == BodyDone(t) && forall j | k < j < |events| :: !events[j].BodyDone?
  }

  /** The terminal is that of the last end mark; without end marks there is none. */
  ghost predicate EndsWith(events: seq<BodyEvent>, terminal: Option<Terminal>) {
    match terminal
    case None => forall k | 0 <= k < |events| :: !events[k].BodyDone?
    case Some(t) => exists k :: EndsAt(events, t, k)
  }

  lemma {:induction false} LastDoneEnds(events: seq<BodyEvent>)
    ensures EndsWith(events, LastDone(events))
  {
    if events != [] {
      var init, last := events[..|events| - 1], events[|events| - 1];
      LastDoneEnds(init);
      assert events == init + [last];
      if last.BodyDone? {
        assert EndsAt(events, last.terminal, |init|);
      } else if LastDone(init).Some? {
        var k :| EndsAt(init, LastDone(init).value, k);
        assert EndsAt(events, LastDone(init).value, k);
      }
    }
  }

  function Items(events: seq<BodyEvent>): seq<BodyItem> {
    seq(|events|, i requires 0 <= i < |events| => Emitted(events[i]))
  }

  function CarryInto(request: Request, attempts: seq<Attempt>, k: nat): CarryContext
    requires k <= |attempts|
  {
    CarryContext(request.sessionId, request.goal, k + 1, if k == 0 then None else attempts[k - 1].verdict)
  }

  /** Attempt `k` is what the policies answer: prepared from the original request and the previous
      verdict alone, run, ended, and judged unless it ended in a run error. */
  ghost predicate Faithful(pol: Policies, request: Request, attempts: seq<Attempt>, k: nat)
    requires k < |attempts|
  {
    var a := attempts[k];
    && pol.carry(CarryInto(request, attempts, k)) == Some(a.prepared)
    && pol.body(BodyContext(a.prepared, request.criteria, request.extensions, k + 1)) == Items(a.events)
    && LastDone(a.events) == Some(a.terminal)
    && (a.verdict.None? <==> IsRunError(a.terminal.runStatus))
    && (a.verdict.Some? ==> pol.judge(JudgeContext(request.goal, request.criteria, k + 1, a.terminal.result)) == Judged(a.verdict.value))
  }

  predicate LimitReached(pol: Policies, attempts: seq<Attempt>) {
    pol.stop.maxTotalTokens.Some? && Capped(TokensUsed(attempts), MAX_U64) >= pol.stop.maxTotalTokens.value
  }

  /** Whether the loop goes on after these attempts. */
  predicate GoesOn(pol: Policies, attempts: seq<Attempt>)
    requires attempts != []
  {
    var verdict := attempts[|attempts| - 1].verdict;
    && verdict.Some? && !verdict.value.passed
    && !pol.stop.stopOnFailedVerdict
    && |attempts| != pol.stop.maxAttempts
    && !LimitReached(pol, attempts)
  }

  ghost predicate Chain(pol: Policies, request: Request, attempts: seq<Attempt>) {
    && (forall k | 0 <= k < |attempts| :: Faithful(pol, request, attempts, k))
    && (forall k | 0 < k < |attempts| :: GoesOn(pol, attempts[..k]))
  }

  function OutcomeOf(pol: Policies, attempts: seq<Attempt>): Outcome
    requires attempts != []
  {
    var last := attempts[|attempts| - 1];
    var kind :=
      if last.verdict.None? then RunError
      else if last.verdict.value.passed then Passed
      else if pol.stop.stopOnFailedVerdict then FailedJudge
      else Exhausted;
    Outcome(kind, last.terminal.runStatus, last.verdict, last.terminal.result, |attempts|,
            Capped(TurnsUsed(attempts), MAX_U32), Capped(TokensUsed(attempts), MAX_U64),
            if NodesOf(attempts) == [] then None else Some(NodesOf(attempts)))
  }

  /** The events of attempts that were all judged and retried. */
  function RetriedEvents(attempts: seq<Attempt>): seq<LoopEvent> {
    if attempts == [] then []
    else
      var n, last := |attempts|, attempts[|attempts| - 1];
      RetriedEvents(attempts[..n - 1]) + Relayed(last.events) + [Judging(n)]
      + if last.verdict.Some? then [Retrying(n, last.verdict.value)] else []
  }

  /** The whole trace of a run that ended with an outcome. */
  function TraceOf(pol: Policies, attempts: seq<Attempt>): seq<LoopEvent>
    requires attempts != []
  {
    var n, last := |attempts|, attempts[|attempts| - 1];
    RetriedEvents(attempts[..n - 1]) + Relayed(last.events)
    + (if last.verdict.Some? then [Judging(n)] else []) + [Completed(OutcomeOf(pol, attempts))]
  }

  // ---------------------------------------------------------------- errors

  /** What a body emits before it breaks, or all of it. */
  function Sound(items: seq<BodyItem>): seq<BodyEvent> {
    if items == [] || items[0].Broken? then [] else [items[0].event] + Sound(items[1..])
  }

  /** A body that cannot be prepared, breaks or never says it is done: what it relayed till then. */
  function BodyFailure(pol: Policies, request: Request, carry: CarryContext): Option<seq<LoopEvent>> {
    var carried := pol.carry(carry);
    if carried.None? then Some([])
    else
      var items := pol.body(BodyContext(carried.value, request.criteria, request.extensions, carry.attempt));
      if Broken in items || LastDone(Sound(items)).None? then Some(Relayed(Sound(items))) else None
  }

  /** The judge gives no verdict on `a`, or the pass hook refuses. */
  predicate JudgeFails(pol: Policies, request: Request, attempts: seq<Attempt>, a: Attempt) {
    var reply := pol.judge(JudgeContext(request.goal, request.criteria, |attempts| + 1, a.terminal.result));
    && !IsRunError(a.terminal.runStatus)
    && (reply.Judged? ==> reply.verdict.passed && !pol.onPass(OutcomeOf(pol, attempts + [a.(verdict := Some(reply.verdict))])))
  }

  /** Whether the attempt after these ends in an error, and the events it yields before. */
  function FailureAfter(pol: Policies, request: Request, attempts: seq<Attempt>): Option<seq<LoopEvent>> {
    var carry := CarryInto(request, attempts, |attempts|);
    var bodyFailure := BodyFailure(pol, request, carry);
    if bodyFailure.Some? then bodyFailure
    else
      var prepared := pol.carry(carry).value;
      var events := Sound(pol.body(BodyContext(prepared, request.criteria, request.extensions, carry.attempt)));
      if JudgeFails(pol, request, attempts, Attempt(prepared, events, LastDone(events).value, None))
      then Some(Relayed(events) + [Judging(carry.attempt)])
      else None
  }

  /** These are all the attempts of a run, and it ends with an outcome. */
  ghost predicate Completes(pol: Policies, request: Request, attempts: seq<Attempt>) {
    && attempts != [] && Chain(pol, request, attempts) && !GoesOn(pol, attempts)
    && FailureAfter(pol, request, attempts[..|attempts| - 1]).None?
  }

  /** These are the full attempts of a run whose next attempt ends in an error. */
  ghost predicate Fails(pol: Policies, request: Request, attempts: seq<Attempt>) {
    Open(pol, request, attempts) && FailureAfter(pol, request, attempts).Some?
  }

  lemma {:induction false} SoundPrefix(items: seq<BodyItem>, events: seq<BodyEvent>)
    requires |events| <= |items| && items[..|events|] == Items(events)
    requires |events| < |items| ==> items[|events|].Broken?
    ensures Sound(items) == events
    ensures Broken in items <==> |events| < |items|
  {
    if events != [] {
      assert items[0] == items[..|events|][0] == Emitted(events[0]);
      assert items[1..][..|events| - 1] == items[..|events|][1..] == Items(events)[1..] == Items(events[1..]);
      SoundPrefix(items[1..], events[1..]);
      assert items == [items[0]] + items[1..];
    }
  }

  // ---------------------------------------------------------------- the loop itself

  /** Drain one body: relay its events, collect submitted nodes, remember the last end mark. */
  method DrainBody(items: seq<BodyItem>) returns (ok: bool, relayed: seq<LoopEvent>, nodes: seq<string>, terminal: Option<Terminal>, ghost events: seq<BodyEvent>)
    ensures events == Sound(items) && relayed == Relayed(events) && nodes == NodesIn(events) && terminal == LastDone(events)
    ensures if ok then items == Items(events) else Broken in items
    ensures forall e | e in relayed :: e.Relay?
    ensures (exists positions :: PassedOn(events, relayed, positions)) && EndsWith(events, terminal)
  {
    relayed, nodes, terminal, events := [], [], None, [];
    for i := 0 to |items|
      invariant |events| == i && items[..i] == Items(events)
      invariant relayed == Relayed(events) && nodes == NodesIn(events) && terminal == LastDone(events)
      invariant forall e | e in relayed :: e.Relay?
    {
      if items[i].Broken? {
        SoundPrefix(items, events);
        Drained(events);
        return false, relayed, nodes, terminal, events;
      }
      var event := items[i].event;
      assert (events + [event])[..|events|] == events;
      match event {
        case NodesSubmitted(submitted) =>
          nodes := nodes + submitted;
          relayed := relayed + [Relay(event)];
        case BodyDone(t) =>
          terminal := Some(t);
        case _ =>
          relayed := relayed + [Relay(event)];
      }
      events := events + [event];
    }
    SoundPrefix(items, events);
    Drained(events);
    ok := true;
  }

  lemma {:induction false} Drained(events: seq<BodyEvent>)
    ensures exists positions :: PassedOn(events, Relayed(events), positions)
    ensures EndsWith(events, LastDone(events))
  {
    var positions := RelayedPassedOn(events);
    LastDoneEnds(events);
  }

  /** Prepare and run one attempt's body. */
  method RunBody(pol: Policies, request: Request, attempt: nat, previous: Option<Verdict>)
    returns (ok: bool, prepared: Prepared, relayed: seq<LoopEvent>, nodes: seq<string>, terminal: Terminal, ghost events: seq<BodyEvent>)
    ensures forall e | e in relayed :: e.Relay?
    ensures ok ==>
              && pol.carry(CarryContext(request.sessionId, request.goal, attempt, previous)) == Some(prepared)
              && pol.body(BodyContext(prepared, request.criteria, request.extensions, attempt)) == Items(events)
              && events == Sound(Items(events))
              && relayed == Relayed(events) && nodes == NodesIn(events) && Some(terminal) == LastDone(events)
    ensures BodyFailure(pol, request, CarryContext(request.sessionId, request.goal, attempt, previous)) == if ok then None else Some(relayed)
  {
    prepared, relayed, nodes, terminal, events := Prepared("", "", None), [], [], Terminal("", "", 0, 0), [];
    var carried := pol.carry(CarryContext(request.sessionId, request.goal, attempt, previous));
    if carried.None? {
      return false, prepared, relayed, nodes, terminal, events;
    }
    prepared := carried.value;
    var ended;
    ok, relayed, nodes, ended, events := DrainBody(pol.body(BodyContext(prepared, request.criteria, request.extensions, attempt)));
    if ended.None? {
      return false, prepared, relayed, nodes, terminal, events;
    }
    terminal := ended.value;
  }

  /** The running totals of the loop. */
  datatype Tally = Tally(tokens: nat, turns: nat, nodes: seq<string>)

  function TallyOf(attempts: seq<Attempt>): Tally {
    Tally(Capped(TokensUsed(attempts), MAX_U64), Capped(TurnsUsed(attempts), MAX_U32), NodesOf(attempts))
  }

  lemma {:induction false} TallyExtends(attempts: seq<Attempt>, a: Attempt)
    ensures TallyOf(attempts + [a]) == Tally(
              SaturatingAdd(TallyOf(attempts).tokens, a.terminal.tokens, MAX_U64),
              SaturatingAdd(TallyOf(attempts).turns, a.terminal.turns, MAX_U32),
              TallyOf(attempts).nodes + NodesIn(a.events))
  {
    assert (attempts + [a])[..|attempts|] == attempts;
  }

  lemma {:induction false} NothingCompletedYet(attempts: seq<Attempt>)
    ensures forall e | e in RetriedEvents(attempts) :: !e.Completed?
  {
    if attempts != [] {
      NothingCompletedYet(attempts[..|attempts| - 1]);
      OnlyRelays(attempts[|attempts| - 1].events);
    }
  }

  lemma {:induction false} OnlyRelays(events: seq<BodyEvent>)
    ensures forall e | e in Relayed(events) :: e.Relay?
  {
    if events != [] {
      OnlyRelays(events[..|events| - 1]);
    }
  }

  function Report(nodes: seq<string>): Option<seq<string>> {
    if nodes == [] then None else Some(nodes)
  }

  /** The attempts so far form a chain that goes on. */
  ghost predicate Open(pol: Policies, request: Request, attempts: seq<Attempt>) {
    Chain(pol, request, attempts) && (attempts != [] ==> GoesOn(pol, attempts))
  }

  function LastVerdict(attempts: seq<Attempt>): Option<Verdict> {
    if attempts == [] then None else attempts[|attempts| - 1].verdict
  }

  ghost predicate NoneCompleted(events: seq<LoopEvent>) {
    forall e | e in events :: !e.Completed?
  }

  /** What an attempt comes to: an error, the run's outcome, or another try after a failed verdict. */
  datatype Decision = Failed | Ended(outcome: Outcome) | Again(verdict: Verdict)

  /** Judge one ended body and apply the stop policy. `total` already includes this attempt. */
  method Decide(pol: Policies, request: Request, attempt: nat, t: Terminal, total: Tally, ghost attempts: seq<Attempt>, ghost a: Attempt)
    returns (decision: Decision, events: seq<LoopEvent>, ghost judged: Attempt)
    requires Open(pol, request, attempts) && attempt == |attempts| + 1
    requires a.verdict.None? && a.terminal == t && Ran(pol, request, attempts, a)
    requires total == TallyOf(attempts + [a])
    ensures judged == a.(verdict := judged.verdict)
    ensures decision.Failed? <==> JudgeFails(pol, request, attempts, a)
    ensures decision.Failed? ==> events == [Judging(attempt)]
    ensures !decision.Failed? ==> Faithful(pol, request, attempts + [judged], |attempts|)
    ensures decision.Ended? ==>
              && !GoesOn(pol, attempts + [judged])
              && events == (if judged.verdict.Some? then [Judging(attempt)] else []) + [Completed(OutcomeOf(pol, attempts + [judged]))]
    ensures decision.Again? ==>
              && GoesOn(pol, attempts + [judged]) && judged.verdict == Some(decision.verdict)
              && events == [Judging(attempt)] + [Retrying(attempt, decision.verdict)]
  {
    judged := a;
    if IsRunError(t.runStatus) {
      var outcome := Outcome(RunError, t.runStatus, None, t.result, attempt, total.turns, total.tokens, Report(total.nodes));
      JudgedIsFaithful(pol, request, attempts, a, judged);
      assert outcome == OutcomeOf(pol, attempts + [judged]);
      return Ended(outcome), [Completed(outcome)], judged;
    }
    var reply := pol.judge(JudgeContext(request.goal, request.criteria, attempt, t.result));
    if !reply.Judged? {
      return Failed, [Judging(attempt)], judged;
    }
    var verdict := reply.verdict;
    judged := a.(verdict := Some(verdict));
    SameTally(attempts, a, judged);
    JudgedIsFaithful(pol, request, attempts, a, judged);
    if verdict.passed {
      var outcome := Outcome(Passed, t.runStatus, Some(verdict), t.result, attempt, total.turns, total.tokens, Report(total.nodes));
      if !pol.onPass(outcome) {
        return Failed, [Judging(attempt)], judged;
      }
      return Ended(outcome), [Judging(attempt)] + [Completed(outcome)], judged;
    }
    var limitReached := pol.stop.maxTotalTokens.Some? && total.tokens >= pol.stop.maxTotalTokens.value;
    if pol.stop.stopOnFailedVerdict || attempt == pol.stop.maxAttempts || limitReached {
      var kind := if pol.stop.stopOnFailedVerdict then FailedJudge else Exhausted;
      var outcome := Outcome(kind, t.runStatus, Some(verdict), t.result, attempt, total.turns, total.tokens, Report(total.nodes));
      return Ended(outcome), [Judging(attempt)] + [Completed(outcome)], judged;
    }
    return Again(verdict), [Judging(attempt)] + [Retrying(attempt, verdict)], judged;
  }

  /** The part of faithfulness that is settled before the judge speaks. */
  ghost predicate Ran(pol: Policies, request: Request, attempts: seq<Attempt>, a: Attempt) {
    && pol.carry(CarryContext(request.sessionId, request.goal, |attempts| + 1, LastVerdict(attempts))) == Some(a.prepared)
    && pol.body(BodyContext(a.prepared, request.criteria, request.extensions, |attempts| + 1)) == Items(a.events)
    && Sound(Items(a.events)) == a.events && LastDone(a.events) == Some(a.terminal)
  }

  /** The judge's word, or its absence after a run error, completes a faithful attempt. */
  lemma {:induction false} JudgedIsFaithful(pol: Policies, request: Request, attempts: seq<Attempt>, a: Attempt, judged: Attempt)
    requires Ran(pol, request, attempts, a) && judged == a.(verdict := judged.verdict)
    requires judged.verdict.None? <==> IsRunError(a.terminal.runStatus)
    requires judged.verdict.Some? ==>
               pol.judge(JudgeContext(request.goal, request.criteria, |attempts| + 1, a.terminal.result)) == Judged(judged.verdict.value)
    ensures Faithful(pol, request, attempts + [judged], |attempts|)
  {
    var all := attempts + [judged];
    assert CarryInto(request, all, |attempts|)
        == CarryContext(request.sessionId, request.goal, |attempts| + 1, LastVerdict(attempts));
  }

  lemma {:induction false} SameTally(attempts: seq<Attempt>, a: Attempt, b: Attempt)
    requires b == a.(verdict := b.verdict)
    ensures TallyOf(attempts + [b]) == TallyOf(attempts + [a])
  {
    TallyExtends(attempts, a);
    TallyExtends(attempts, b);
  }

  /** The stream of events of one run; `failed` means it ended in an error instead of an outcome. The
      constructor refuses a policy without attempts. */
  method Stream(pol: Policies, request: Request) returns (events: seq<LoopEvent>, failed: bool, ghost attempts: seq<Attempt>)
    requires pol.stop.maxAttempts > 0
    ensures if failed
            then Fails(pol, request, attempts) && events == RetriedEvents(attempts) + FailureAfter(pol, request, attempts).value
            else Completes(pol, request, attempts) && events == TraceOf(pol, attempts)
    ensures failed ==> NoneCompleted(events)
  {
    events, failed, attempts := [], false, [];
    var previous: Option<Verdict> := None;
    var total := Tally(0, 0, []);
    for attempt := 1 to pol.stop.maxAttempts + 1
      invariant |attempts| == attempt - 1 && Open(pol, request, attempts)
      invariant previous == LastVerdict(attempts) && total == TallyOf(attempts) && events == RetriedEvents(attempts)
    {
      var decision, added;
      ghost var judged;
      decision, added, total, judged := OneAttempt(pol, request, attempt, previous, total, attempts);
      events := events + added;
      if decision.Failed? {
        return events, true, attempts;
      }
      attempts := attempts + [judged];
      if decision.Ended? {
        return;
      }
      previous := Some(decision.verdict);
    }
    assert false;
  }

  /** One pass of the loop: run the body, add up, judge and decide. */
  method OneAttempt(pol: Policies, request: Request, attempt: nat, previous: Option<Verdict>, before: Tally, ghost attempts: seq<Attempt>)
    returns (decision: Decision, added: seq<LoopEvent>, total: Tally, ghost judged: Attempt)
    requires Open(pol, request, attempts) && attempt == |attempts| + 1
    requires previous == LastVerdict(attempts) && before == TallyOf(attempts)
    ensures decision.Failed? ==>
              && Fails(pol, request, attempts) && NoneCompleted(RetriedEvents(attempts) + added)
              && added == FailureAfter(pol, request, attempts).value
    ensures decision.Ended? ==>
              Completes(pol, request, attempts + [judged]) && RetriedEvents(attempts) + added == TraceOf(pol, attempts + [judged])
    ensures decision.Again? ==>
              && GoesOn(pol, attempts + [judged]) && Open(pol, request, attempts + [judged])
              && judged.verdict == Some(decision.verdict) && total == TallyOf(attempts + [judged])
              && RetriedEvents(attempts) + added == RetriedEvents(attempts + [judged])
  {
    total := before;
    var ok, prepared, relayed, nodes, t, bodyEvents := RunBody(pol, request, attempt, previous);
    judged := Attempt(prepared, bodyEvents, t, None);
    if !ok {
      BodyFails(pol, request, attempts, relayed);
      return Failed, relayed, total, judged;
    }
    ghost var a := judged;
    TallyExtends(attempts, a);
    total := Tally(SaturatingAdd(total.tokens, t.tokens, MAX_U64), SaturatingAdd(total.turns, t.turns, MAX_U32), total.nodes + nodes);
    var decided;
    decision, decided, judged := Decide(pol, request, attempt, t, total, attempts, a);
    added := relayed + decided;
    assert RetriedEvents(attempts) + added == RetriedEvents(attempts) + relayed + decided;
    if decision.Failed? {
      JudgementFails(pol, request, attempts, a);
    } else {
      AttemptRecorded(pol, request, attempts, a, judged);
    }
  }

  lemma {:induction false} BodyFails(pol: Policies, request: Request, attempts: seq<Attempt>, relayed: seq<LoopEvent>)
    requires Open(pol, request, attempts) && forall e | e in relayed :: e.Relay?
    requires BodyFailure(pol, request, CarryContext(request.sessionId, request.goal, |attempts| + 1, LastVerdict(attempts))) == Some(relayed)
    ensures Fails(pol, request, attempts) && FailureAfter(pol, request, attempts) == Some(relayed)
    ensures NoneCompleted(RetriedEvents(attempts) + relayed)
  {
    assert CarryInto(request, attempts, |attempts|) == CarryContext(request.sessionId, request.goal, |attempts| + 1, LastVerdict(attempts));
    NothingCompletedYet(attempts);
  }

  lemma {:induction false} JudgementFails(pol: Policies, request: Request, attempts: seq<Attempt>, a: Attempt)
    requires Open(pol, request, attempts) && Ran(pol, request, attempts, a) && a.verdict.None?
    requires JudgeFails(pol, request, attempts, a)
    ensures Fails(pol, request, attempts)
    ensures FailureAfter(pol, request, attempts).value == Relayed(a.events) + [Judging(|attempts| + 1)]
    ensures NoneCompleted(RetriedEvents(attempts) + Relayed(a.events) + [Judging(|attempts| + 1)])
  {
    FailureIs(pol, request, attempts, a);
    NothingCompletedYet(attempts);
    OnlyRelays(a.events);
  }

  /** Once its body has run, an attempt fails only with its judge. */
  lemma {:induction false} FailureIs(pol: Policies, request: Request, attempts: seq<Attempt>, a: Attempt)
    requires Ran(pol, request, attempts, a) && a.verdict.None?
    ensures FailureAfter(pol, request, attempts)
            == if JudgeFails(pol, request, attempts, a) then Some(Relayed(a.events) + [Judging(|attempts| + 1)]) else None
  {
    assert CarryInto(request, attempts, |attempts|) == CarryContext(request.sessionId, request.goal, |attempts| + 1, LastVerdict(attempts));
    assert forall i | 0 <= i < |a.events| :: Items(a.events)[i].Emitted?;
  }

  /** A judged attempt joins the account of the run. */
  lemma {:induction false} AttemptRecorded(pol: Policies, request: Request, attempts: seq<Attempt>, a: Attempt, judged: Attempt)
    requires Open(pol, request, attempts)
    requires Ran(pol, request, attempts, a) && a.verdict.None? && !JudgeFails(pol, request, attempts, a)
    requires judged == a.(verdict := judged.verdict) && Faithful(pol, request, attempts + [judged], |attempts|)
    ensures var all, n := attempts + [judged], |attempts| + 1;
            && TallyOf(all) == TallyOf(attempts + [a])
            && (if GoesOn(pol, all) then Open(pol, request, all) else Completes(pol, request, all))
            && TraceOf(pol, all) == RetriedEvents(attempts) + Relayed(a.events)
                 + ((if judged.verdict.Some? then [Judging(n)] else []) + [Completed(OutcomeOf(pol, all))])
            && (judged.verdict.Some? ==>
                  RetriedEvents(all) == RetriedEvents(attempts) + Relayed(a.events) + ([Judging(n)] + [Retrying(n, judged.verdict.value)]))
  {
    ChainExtends(pol, request, attempts, judged);
    SameTally(attempts, a, judged);
    TraceExtends(pol, attempts, judged);
    FailureIs(pol, request, attempts, a);
  }

  /** One more attempt extends the trace, whether the run ends with it or is retried. */
  lemma {:induction false} TraceExtends(pol: Policies, attempts: seq<Attempt>, a: Attempt)
    ensures var n := |attempts| + 1;
            && TraceOf(pol, attempts + [a]) == RetriedEvents(attempts) + Relayed(a.events)
                 + ((if a.verdict.Some? then [Judging(n)] else []) + [Completed(OutcomeOf(pol, attempts + [a]))])
            && (a.verdict.Some? ==>
                  RetriedEvents(attempts + [a]) == RetriedEvents(attempts) + Relayed(a.events) + ([Judging(n)] + [Retrying(n, a.verdict.value)]))
  {
    assert (attempts + [a])[..|attempts|] == attempts;
  }

  lemma {:induction false} ChainExtends(pol: Policies, request: Request, attempts: seq<Attempt>, a: Attempt)
    requires Chain(pol, request, attempts) && (attempts != [] ==> GoesOn(pol, attempts))
    requires Faithful(pol, request, attempts + [a], |attempts|)
    ensures Chain(pol, request, attempts + [a])
    ensures (attempts + [a])[..|attempts|] == attempts
  {
    var all := attempts + [a];
    assert all[..|attempts|] == attempts;
    forall k | 0 <= k < |all|
      ensures Faithful(pol, request, all, k)
    {
      if k < |attempts| {
        assert Faithful(pol, request, attempts, k);
        assert CarryInto(request, all, k) == CarryInto(request, attempts, k);
      }
    }
    forall k | 0 < k < |all|
      ensures GoesOn(pol, all[..k])
    {
      assert all[..k] == attempts[..k];
    }
  }
}
