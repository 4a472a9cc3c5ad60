/** Executing a batch of tool calls: one result per call, and no tool ever starts on arguments that do
    not conform to its schema. Tools and their sessions are whatever they are; a session here is one
    that finishes. */
module ToolBatch {
  import opened Wrappers
  import opened Json
  import opened ArgumentSchema
  import opened ArgumentValidator
  import opened ArgumentConformance
  import opened InPlaceValidation

  datatype Chunk = Text(text: string) | Silent(detail: string) | Suspend(suspensionId: string)

  function Projection(c: Chunk): string {
    if c.Text? then c.text else ""
  }

  /** The steps a session will answer, in order. */
  datatype Session = Step(chunk: Chunk, rest: Session) | Done(text: string) | Broken(error: string)

  datatype Start = Started(session: Session) | StartRefused(error: string)

  datatype Tool = Tool(parameters: Value, start: Value -> Start)

  datatype Call = Call(id: string, name: string, arguments: Value)

  /** What a call comes to; everything but `Finished` is an error result. */
  datatype Answer =
    | UnknownTool(name: string)
    | InvalidArguments
    | StartFailed(error: string)
    | SuspendedWithoutHandler
    | SessionFailed(error: string)
    | Finished(text: string)

  datatype ToolResult = ToolResult(callId: string, answer: Answer)

  // ---------------------------------------------------------------- sessions

  function Chunks(s: Session): seq<Chunk> {
    if s.Step? then [s.chunk] + Chunks(s.rest) else []
  }

  function Final(s: Session): (r: Session)
    ensures !r.Step?
  {
    if s.Step? then Final(s.rest) else s
  }

  function Projected(chunks: seq<Chunk>): string {
    if chunks == [] then "" else Projection(chunks[0]) + Projected(chunks[1..])
  }

  /** The texts among the chunks, in order. */
  function TextsOf(chunks: seq<Chunk>): seq<string> {
    if chunks == [] then [] else (if chunks[0].Text? then [chunks[0].text] else []) + TextsOf(chunks[1..])
  }

  function Concatenated(texts: seq<string>): string {
    if texts == [] then "" else texts[0] + Concatenated(texts[1..])
  }

  /** What is projected is the text chunks joined; everything else is silent. */
  lemma {:induction false} ProjectedTexts(chunks: seq<Chunk>)
    ensures Projected(chunks) == Concatenated(TextsOf(chunks))
  {
    if chunks != [] {
      ProjectedTexts(chunks[1..]);
      if chunks[0].Text? {
        assert TextsOf(chunks)[0] == chunks[0].text && TextsOf(chunks)[1..] == TextsOf(chunks[1..]);
      } else {
        assert TextsOf(chunks) == TextsOf(chunks[1..]);
      }
    }
  }

  /** A session that streams texts and then ends. */
  function Streaming(texts: seq<string>, final: string): Session {
    if texts == [] then Done(final) else Step(Text(texts[0]), Streaming(texts[1..], final))
  }

  /** A session of text chunks finishes with its texts joined and then the final text. */
  lemma {:induction false} StreamedText(texts: seq<string>, final: string)
    ensures SessionAnswer(Streaming(texts, final)) == Finished(Concatenated(texts) + final)
  {
    if texts == [] {
      DrainEnd("", Streaming(texts, final));
      NothingPrefixed(SessionAnswer(Streaming(texts, final)));
    } else {
      SessionUnfolds(Streaming(texts, final));
      StreamedText(texts[1..], final);
      assert texts[0] + (Concatenated(texts[1..]) + final) == Concatenated(texts) + final;
    }
  }

  ghost predicate Suspends(s: Session) {
    exists c | c in Chunks(s) :: c.Suspend?
  }

  /** A suspension anywhere is an error, there being nobody to resume it; otherwise the final step
      decides, and a finished text is the projections of all chunks in order and then the final text. */
  ghost function SessionAnswer(s: Session): Answer {
    if Suspends(s) then SuspendedWithoutHandler
    else if Final(s).Done? then Finished(Projected(Chunks(s)) + Final(s).text)
    else SessionFailed(Final(s).error)
  }

  /** A finished answer with text put in front; errors stay what they are. */
  function Prefixed(text: string, answer: Answer): Answer {
    if answer.Finished? then Finished(text + answer.text) else answer
  }

  lemma {:induction false} SessionUnfolds(s: Session)
    requires s.Step?
    ensures s.chunk.Suspend? ==> SessionAnswer(s) == SuspendedWithoutHandler
    ensures !s.chunk.Suspend? ==> SessionAnswer(s) == Prefixed(Projection(s.chunk), SessionAnswer(s.rest))
  {
    assert Chunks(s)[0] == s.chunk && Chunks(s)[1..] == Chunks(s.rest);
    assert forall c :: c in Chunks(s) <==> c == s.chunk || c in Chunks(s.rest);
    if Final(s).Done? {
      var first, rest, last := Projection(s.chunk), Projected(Chunks(s.rest)), Final(s).text;
      assert (first + rest) + last == first + (rest + last);
    }
  }

  lemma {:induction false} DrainStep(combined: string, s: Session)
    requires s.Step? && !s.chunk.Suspend?
    ensures Prefixed(combined, SessionAnswer(s)) == Prefixed(combined + Projection(s.chunk), SessionAnswer(s.rest))
  {
    SessionUnfolds(s);
    var tail := SessionAnswer(s.rest);
    if tail.Finished? {
      assert combined + (Projection(s.chunk) + tail.text) == (combined + Projection(s.chunk)) + tail.text;
    }
  }

  lemma {:induction false} DrainEnd(combined: string, s: Session)
    requires !s.Step?
    ensures Prefixed(combined, SessionAnswer(s)) == if s.Done? then Finished(combined + s.text) else SessionFailed(s.error)
  {
    assert Chunks(s) == [];
    if s.Done? {
      assert "" + s.text == s.text;
    }
  }

  lemma {:induction false} NothingPrefixed(answer: Answer)
    ensures Prefixed("", answer) == answer
  {
    if answer.Finished? {
      assert "" + answer.text == answer.text;
    }
  }

  /** The loop over a session: chunks appended as they come, until a final step or a suspension. */
  method Drain(session: Session) returns (answer: Answer)
    ensures answer == SessionAnswer(session)
  {
    var s, combined := session, "";
    NothingPrefixed(SessionAnswer(session));
    while s.Step?
      invariant Prefixed(combined, SessionAnswer(s)) == SessionAnswer(session)
      decreases s
    {
      if s.chunk.Suspend? {
        SessionUnfolds(s);
        return SuspendedWithoutHandler;
      }
      DrainStep(combined, s);
      combined := combined + Projection(s.chunk);
      s := s.rest;
    }
    DrainEnd(combined, s);
    answer := if s.Done? then Finished(combined + s.text) else SessionFailed(s.error);
  }

  // ---------------------------------------------------------------- calls

  /** What a single call must come to. */
  ghost function AnswerTo(parse: Parser, registry: map<string, Tool>, call: Call): Answer {
    if call.name !in registry then UnknownTool(call.name)
    else
      var tool := registry[call.name];
      match Repair(parse, tool.parameters, call.arguments, true)
      case Rejected => InvalidArguments
      case Accepted(args, _) =>
        match tool.start(args)
        case StartRefused(error) => StartFailed(error)
        case Started(session) => SessionAnswer(session)
  }

  /** What a call's answer says about the call, cause by cause: the unknown name, the arguments, the
      start's own error, a suspension, the session's own error, or success with the whole text. */
  ghost predicate Explains(parse: Parser, registry: map<string, Tool>, call: Call, answer: Answer) {
    match answer
    case UnknownTool(name) => name == call.name && call.name !in registry
    case InvalidArguments => call.name in registry && !Runnable(parse, registry, call)
    case StartFailed(error) => Runnable(parse, registry, call) && StartOf(parse, registry, call) == StartRefused(error)
    case SuspendedWithoutHandler => Starts(parse, registry, call) && Suspends(StartOf(parse, registry, call).session)
    case SessionFailed(error) =>
      && Starts(parse, registry, call) && !Suspends(StartOf(parse, registry, call).session)
      && Final(StartOf(parse, registry, call).session) == Broken(error)
    case Finished(text) =>
      && Starts(parse, registry, call) && !Suspends(StartOf(parse, registry, call).session)
      && Final(StartOf(parse, registry, call).session).Done?
      && text == Concatenated(TextsOf(Chunks(StartOf(parse, registry, call).session))) + Final(StartOf(parse, registry, call).session).text
  }

  ghost function StartOf(parse: Parser, registry: map<string, Tool>, call: Call): Start
    requires Runnable(parse, registry, call)
  {
    registry[call.name].start(Repair(parse, registry[call.name].parameters, call.arguments, true).value)
  }

  /** The tool is known, its arguments can be repaired, and it starts on them. */
  ghost predicate Starts(parse: Parser, registry: map<string, Tool>, call: Call) {
    Runnable(parse, registry, call) && StartOf(parse, registry, call).Started?
  }

  /** A call succeeds: it starts, is never suspended, and comes to its end. */
  ghost predicate Succeeds(parse: Parser, registry: map<string, Tool>, call: Call) {
    && Starts(parse, registry, call)
    && (forall c | c in Chunks(StartOf(parse, registry, call).session) :: !c.Suspend?)
    && Final(StartOf(parse, registry, call).session).Done?
  }

  lemma {:induction false} AnswerExplained(parse: Parser, registry: map<string, Tool>, call: Call)
    ensures Explains(parse, registry, call, AnswerTo(parse, registry, call))
  {
    if Starts(parse, registry, call) {
      ProjectedTexts(Chunks(StartOf(parse, registry, call).session));
    }
  }

  /** Exactly one answer explains a call, and it is a success exactly when the call succeeds. */
  lemma {:induction false} OneExplanation(parse: Parser, registry: map<string, Tool>, call: Call, answer: Answer)
    requires Explains(parse, registry, call, answer)
    ensures answer.Finished? <==> Succeeds(parse, registry, call)
    ensures forall other | Explains(parse, registry, call, other) :: other == answer
  {
  }

  /** A tool being started for the call at `index`. */
  datatype Launch = Launch(index: nat, arguments: Value)

  ghost predicate Runnable(parse: Parser, registry: map<string, Tool>, call: Call) {
    call.name in registry && Repair(parse, registry[call.name].parameters, call.arguments, true).Accepted?
  }

  /** The arguments a call's tool is started on: the repaired ones, and they conform. */
  ghost predicate StartsOn(parse: Parser, registry: map<string, Tool>, call: Call, arguments: Value) {
    && Runnable(parse, registry, call)
    && Repair(parse, registry[call.name].parameters, call.arguments, true).value == arguments
    && Conforms(registry[call.name].parameters, arguments, true)
  }

  /** Exactly one result per call, in order, under its id; and the tools started are exactly those of
      the calls with a known name and repairable arguments, in order, each on its repaired and conforming arguments. */
  method ExecuteTools(parse: Parser, calls: seq<Call>, registry: map<string, Tool>) returns (results: seq<ToolResult>, launches: seq<Launch>)
    ensures |results| == |calls|
    ensures forall i | 0 <= i < |calls| :: results[i].callId == calls[i].id && Explains(parse, registry, calls[i], results[i].answer)
    ensures forall i | 0 <= i < |calls| :: results[i].answer.Finished? <==> Succeeds(parse, registry, calls[i])
    ensures forall k | 0 <= k < |launches| ::
              launches[k].index < |calls| && StartsOn(parse, registry, calls[launches[k].index], launches[k].arguments)
    ensures forall k, m | 0 <= k < m < |launches| :: launches[k].index < launches[m].index
    ensures forall i | 0 <= i < |calls| ::
              Runnable(parse, registry, calls[i]) <==> exists k | 0 <= k < |launches| :: launches[k].index == i
  {
    results, launches := [], [];
    for i := 0 to |calls|
      invariant |results| == i
      invariant forall j | 0 <= j < i :: results[j].callId == calls[j].id && Explains(parse, registry, calls[j], results[j].answer)
      invariant forall j | 0 <= j < i :: results[j].answer.Finished? <==> Succeeds(parse, registry, calls[j])
      invariant forall k | 0 <= k < |launches| ::
                  launches[k].index < i && StartsOn(parse, registry, calls[launches[k].index], launches[k].arguments)
      invariant forall k, m | 0 <= k < m < |launches| :: launches[k].index < launches[m].index
      invariant forall j | 0 <= j < i ::
                  Runnable(parse, registry, calls[j]) <==> exists k | 0 <= k < |launches| :: launches[k].index == j
    {
      var answer, launch := ExecuteOne(parse, registry, calls[i]);
      ghost var before := launches;
      if launch.Some? {
        launches := launches + [Launch(i, launch.value)];
        assert launches[|before|].index == i;
      }
      assert forall k | 0 <= k < |before| :: launches[k] == before[k];
      results := results + [ToolResult(calls[i].id, answer)];
    }
  }

  method ExecuteOne(parse: Parser, registry: map<string, Tool>, call: Call) returns (answer: Answer, launch: Option<Value>)
    ensures Explains(parse, registry, call, answer) && (answer.Finished? <==> Succeeds(parse, registry, call))
    ensures launch.Some? <==> Runnable(parse, registry, call)
    ensures launch.Some? ==> StartsOn(parse, registry, call, launch.value)
  {
    AnswerExplained(parse, registry, call);
    OneExplanation(parse, registry, call, AnswerTo(parse, registry, call));
    if call.name !in registry {
      return UnknownTool(call.name), None;
    }
    var tool := registry[call.name];
    var ok, args, repaired := ValidateToolArguments(parse, tool.parameters, call.arguments);
    if !ok {
      return InvalidArguments, None;
    }
    launch := Some(args);
    match tool.start(args) {
      case StartRefused(error) => answer := StartFailed(error);
      case Started(session) => answer := Drain(session);
    }
  }
}
