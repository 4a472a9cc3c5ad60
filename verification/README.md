# Verified model of the deepstrike Rust SDK core

Dafny models of five components of the Rust SDK, with proofs that hold for every input, every run
or every interleaving.

- **Argument validator** (`rust/src/tools.rs`). `ArgumentSchema` reads a JSON schema as the code
  does; `ArgumentValidator.Repair` says what one call computes, free of any visiting order;
  `InPlaceValidation` is the sequential in-place algorithm, proved equal to it for any key order.
  `ArgumentConformance` holds a repair-free conformance relation and soundness, `RepairRetraction`
  the fixed points and the exact condition for idempotence, `RepairFactors` the equality of the
  fused pass with edit-then-check, `UnionRevalidation` the idempotence of unions in those terms,
  `ValidatorLaws` laws in the JSON a caller writes. `ToolBatch` runs batches of calls on top.
- **Memory-candidate ledger** (`rust/src/memory.rs`). `CandidateLedger` gives the effect of each
  request; `CandidateSinks` has the durable and the in-process sink as classes; `LedgerRuns`,
  `Redelivery` and `AgentIsolation` hold the laws of whole runs; `SinkRefinement` relates the two
  sinks; `LedgerProtocol` and `LedgerLinearizability` treat many processes sharing one file under
  a lock directory, with failures, time-outs and deaths at every step.
- **Attempt loop** (`rust/src/harness_loop.rs`). `AttemptLoop` is the loop, `AttemptTrace` what its
  events and outcome mean.
- **Signal delivery** (`rust/src/signals.rs`). `SignalDelivery` is the leased receiver and its runs.
- **Reference search** (`rust/src/memory.rs`). `Tokenizer` and `MemorySearch`.

`dafny verify dfyconfig.toml` checks the whole project.

## What comes from outside

The float parser, the alphanumeric test, lower-casing, payload digests, admission verdicts, the
clock, generated ids, the broadcast channel, and the behaviour of bodies, judges, carry policies,
hooks and tools are parameters or parts of a request, so every theorem quantifies over them.
JSON numbers are integers or reals; the saturating integer cast of the validator is explicit.

## Where the code and its documentation part ways

- The ledger is described as having restart recovery. A process that dies while holding the lock
  directory, or cannot remove it, leaves it behind, and no code path removes it.
  `LedgerLinearizability.RestartDoesNotRecover` gives the runs, `StaleRuns` says exactly which runs
  end so, and `RecoverableExactly` that any process can still get any request committed if and only
  if the lock is not left behind and the file was not damaged; `StaleExactlyWhenLost` puts it as:
  nothing is ever committed again.
- Idempotence of the validator fails on unions: `RepairRetraction.UnionRevalidationDiffers` gives
  the input, `ValidatingTwice` the exact condition on the input for every schema, and
  `UnionRevalidation.UnionValidatingTwice` the same without mentioning the repairer when the
  branches are union-free: no earlier branch may both fit the output and edit it.
- The outbox can be listed per agent, but an acknowledgement names no agent: anyone's removes
  anyone's event (`AgentIsolation.AcknowledgementCrossesAgents`). `OthersOutboxEffect` says exactly
  when a request of others changes an agent's view, `OutboxViewOverRuns` what that leaves of
  isolation over whole runs.
- The two sinks agree only as long as admission turns nobody away: `SinkRefinement.SinksAgree`
  states this as an equivalence.

## Model

| member | source | states |
|---|---|---|
| ArgumentValidator.CastTo | rust/src/tools.rs:171-228 | a cast makes a value of the declared kind from one that is not, saying the same in another form (booleans are spelled by their text, numbers equal what the text parses to within range, only objects become arrays), and a value is left alone only when it says nothing of that kind |
| ArgumentValidator.Unwrap | rust/src/tools.rs:202-226 | an envelope with the single key item or items becomes the array in it, or the array of the one value in it; any other object the array of itself |
| ValidatorLaws.EnvelopeStandsFor | rust/src/tools.rs:202-226 | under type array an item or items envelope has the verdict and value of the array in it, or of the array of the one value in it, with the flag raised |
| ValidatorLaws.LoneObjectStandsFor | rust/src/tools.rs:202-226 | under type array any other object has the verdict and value of the array of it alone, with the flag raised |
| ValidatorLaws.TextStandsFor | rust/src/tools.rs:171-200 | a text under type boolean, number or integer has the verdict and value of what it says, with the flag raised |
| ValidatorLaws.MissingStandsForDefault | rust/src/tools.rs:230-242 | leaving out a member that has a default has the verdict and value of passing the default, with the flag raised |
| ValidatorLaws.UnionIgnoresSiblings | rust/src/tools.rs:150-169 | a union depends on its branches alone; anyOf means what oneOf does and counts only where there is no oneOf |
| ValidatorLaws.BrokenUnionHides | rust/src/tools.rs:150-169 | a oneOf that is not an array is no union and still hides anyOf |
| ValidatorLaws.WrongTypedKeywordIgnored | rust/src/tools.rs:171-341 | a type, properties, required or enum of the wrong JSON type might as well be absent |
| ValidatorLaws.AcceptedMeans | rust/src/tools.rs:244-341 | what an accepted value is like, keyword by keyword: its type, the enum, required keys, trimmed extras, present defaults, conforming members and elements |
| ValidatorLaws.ScalarsAccepted | rust/src/tools.rs:326-335 | a value that is what a scalar type asks for is accepted as it is |
| ArgumentValidator.Filled | rust/src/tools.rs:230-242 | default injection changes nothing present, adds only declared defaults, and leaves none missing |
| ArgumentConformance.RepairedConforms | rust/src/tools.rs:143-342 | soundness: whatever validation accepts, its output satisfies the separately written, repair-free conformance relation, for every schema including unions |
| ArgumentConformance.AcceptingBranch | rust/src/tools.rs:150-169 | a union answers as its first accepting branch run on the original value; the branches tried before it refuse that value |
| ArgumentConformance.RepairFlagExact | rust/src/tools.rs:134-141 | the repaired flag is raised if and only if the value changed, for every schema |
| RepairRetraction.FixedPoints | rust/src/tools.rs:143-342 | a value comes back unchanged and unflagged exactly when it conforms and every default is already there, unions included |
| RepairRetraction.UnionFreeOutputAtRest | rust/src/tools.rs:171-341 | on union-free schemas every accepted output already holds its defaults at every depth |
| RepairRetraction.RestsWhenSettled | rust/src/tools.rs:143-342 | for every schema the output is at rest exactly when the input settles, a condition that only unions can fail |
| RepairRetraction.ValidatingTwice | rust/src/tools.rs:143-342 | validating twice equals validating once if and only if the input settles: at every union met, the branch that answered answers again for its own output or the one taking over changes nothing; always so on union-free schemas |
| RepairRetraction.UnionRevalidationDiffers | rust/src/tools.rs:150-169 | a concrete union schema and input on which a second validation changes the value again |
| RepairFactors.RepairIsEditThenCheck | rust/src/tools.rs:143-342 | on union-free schemas the fused pass equals editing the whole value first and then testing plain conformance: verdict, value and flag |
| UnionRevalidation.UnionIsFirstFit | rust/src/tools.rs:150-169 | a union of union-free branches validates by the first branch whose edit of the value conforms: verdict, value and flag |
| UnionRevalidation.UnionValidatingTwice | rust/src/tools.rs:150-169 | under such a union validating twice equals validating once if and only if no earlier branch both fits the output and edits it; the repairer is not mentioned |
| UnionRevalidation.UnionSettles | rust/src/tools.rs:150-169 | the same is what settling asks of such a union anywhere inside a schema |
| InPlaceValidation.ValidateToolArguments | rust/src/tools.rs:134-141 | the entry point computes the order-free result, its accepted value conforms, and its flag is exact |
| InPlaceValidation.ValidateValue | rust/src/tools.rs:143-342 | the step-by-step rewriting of one value computes the order-free result |
| InPlaceValidation.TryBranches | rust/src/tools.rs:150-169 | probing branches one by one computes the first accepting branch |
| InPlaceValidation.Prepare | rust/src/tools.rs:171-242 | casting and default injection in place give the prepared value and its flag |
| InPlaceValidation.InjectDefaults | rust/src/tools.rs:230-242 | one pass over the declared properties, in any order, adds exactly the missing defaults and flags iff one was missing |
| InPlaceValidation.ValidateShape | rust/src/tools.rs:244-335 | the type rules with their recursion compute the order-free check |
| InPlaceValidation.ValidateFields | rust/src/tools.rs:247-308 | extras first, then required, then declared properties, in any key order, computes the order-free object rule |
| InPlaceValidation.HandleKeys | rust/src/tools.rs:264-307 | one sweep over keys keeps, checks or trims each and accumulates the flag |
| InPlaceValidation.HoldsRequired | rust/src/tools.rs:288-294 | true exactly when every string member of required is a key |
| InPlaceValidation.ValidateElements | rust/src/tools.rs:309-324 | rewriting elements in order computes the order-free array rule |
| ToolBatch.ExecuteTools | rust/src/tools.rs:344-401 | exactly one result per call, in order and under its id, a success exactly when the name is known, the arguments repairable, the start succeeds and the session ends unsuspended, and otherwise the error of its own cause; tools start exactly for known names with repairable arguments, in order, each on its repaired arguments, which conform |
| ToolBatch.ExecuteOne | rust/src/tools.rs:349-371 | one call's answer explained by its cause, and a launch exactly when the name is known and the arguments repairable, on the repaired, conforming arguments |
| ToolBatch.OneExplanation | rust/src/tools.rs:349-398 | exactly one answer explains a call |
| ToolBatch.Drain | rust/src/tools.rs:372-398 | a finished text is the ordered projections of all chunks and then the final text; a suspension or a failed step is an error |
| ToolBatch.StreamedText | rust/src/tools.rs:372-392 | a session of text chunks finishes with its texts joined and then the final text |
| CandidateLedger.Find | rust/src/memory.rs:623-625 | the first entry held under the agent's candidate id, or proof that there is none |
| CandidateLedger.Duplicate | rust/src/memory.rs:655-657 | a reason exactly when some pending or accepted entry of the agent holds the payload |
| CandidateSinks.FindEntry | rust/src/memory.rs:512-514 | the search loop computes the first match |
| CandidateSinks.FindDuplicate | rust/src/memory.rs:655-657 | the filter and first-reason loop computes the duplicate rule |
| CandidateSinks.RetainOthers | rust/src/memory.rs:551-552 | the retain loop keeps the other events in order |
| CandidateSinks.FileSink.Submit | rust/src/memory.rs:618-679 | submit against the file: the ledger's answer, and the file rewritten exactly when the ledger changed; a corrupt file is an error and stays as it is |
| CandidateSinks.FileSink.Resolve | rust/src/memory.rs:503-536 | resolve against the file, likewise |
| CandidateSinks.FileSink.AckOutbox | rust/src/memory.rs:547-557 | acknowledgement against the file, likewise |
| CandidateSinks.ServedAsHandled | rust/src/memory.rs:559-592 | a file that is not decodable, of another version or with a zero counter is an error and stays as it is; no file is the empty ledger; the file is rewritten exactly when the ledger changed |
| CandidateSinks.WritesAreReadable | rust/src/memory.rs:559-574 | every written snapshot can be read back as the served ledger |
| CandidateSinks.InMemorySink.Submit | rust/src/memory.rs:838-885 | the in-process sink's loops compute its submit function |
| LedgerRuns.StepKeepsInv | rust/src/memory.rs:503-679 | every request keeps identities, payloads, receipts, counters, numbers and the announcement fold in order |
| LedgerRuns.RunKeepsInv | rust/src/memory.rs:503-679 | so does every run from the empty ledger |
| LedgerRuns.Deduplication | rust/src/memory.rs:618-679 | in every reachable ledger an agent's candidate id names at most one entry, and a payload is pending or accepted in at most one |
| LedgerRuns.OpensReview | rust/src/memory.rs:785-791 | a submission is held exactly when its id is new, admission passes it and no live entry has its payload; a rejected one does not block |
| LedgerRuns.AttemptsAreRefusals | rust/src/memory.rs:638-653 | in every reachable ledger the verification attempts are exactly the submissions answered with an admission refusal so far, in order, with the reasons given, under increasing numbers |
| LedgerRuns.CounterConservation | rust/src/memory.rs:686-698 | event numbers are accounted for by receipts and decisions, and by waiting, acknowledged and attempt records; outbox numbers increase and are never shared with an attempt |
| LedgerRuns.AckExact | rust/src/memory.rs:547-557 | in every reachable ledger an acknowledgement takes out exactly the one event of its number, the others staying in order, or reports that there is none; nothing else changes |
| LedgerRuns.OutboxFidelity | rust/src/memory.rs:692-698 | folding all announcements ever made rebuilds exactly the held candidates and their current receipts, one announcement while pending and two once decided; the outbox is the unacknowledged rest |
| Redelivery.RunEvolves | rust/src/memory.rs:515-527 | entries are never dropped, reordered or re-identified; only a pending receipt changes, once, keeping its number |
| Redelivery.SafeRedelivery | rust/src/memory.rs:623-628 | a held candidate resubmitted after any requests gets its current receipt under its original number and changes nothing, whatever admission says now |
| Redelivery.LostAcknowledgement | rust/src/memory.rs:266-274 | the sink contract: a submission answered as pending is answered with its current receipt under the same number when redelivered |
| Redelivery.NumbersIdentify | rust/src/memory.rs:623-677 | over every run two answers share a receipt number only if both are about one and the same held entry |
| Redelivery.RefusalsAreNotHeld | rust/src/memory.rs:629-666 | over every run a refusal's number is never answered again; repeated at once the submission is refused for the same reason under the next number |
| AgentIsolation.OwnSubmit | rust/src/memory.rs:618-679 | one agent's submit, seen through its own entries and without numbers, is the submit of a private ledger |
| AgentIsolation.OwnResolve | rust/src/memory.rs:503-536 | likewise for resolve |
| AgentIsolation.OthersInvisible | rust/src/memory.rs:494-557 | requests of others leave an agent's entries alone |
| AgentIsolation.OthersOutboxEffect | rust/src/memory.rs:538-557 | a request of others changes an agent's outbox view if and only if it acknowledges one of its events, and then removes just that number |
| AgentIsolation.AcknowledgementCrossesAgents | rust/src/memory.rs:547-557 | a reachable ledger where one acknowledgement empties another agent's outbox view |
| AgentIsolation.NonInterference | rust/src/memory.rs:503-679 | over every interleaving an agent's entries and the answers to its submissions and decisions are those of a private ledger fed only its own requests |
| AgentIsolation.ListingOverRuns | rust/src/memory.rs:494-501 | after any run, listing for an agent answers its own entries and no other's, those of a private ledger fed only its own requests; listing for nobody answers all, in order |
| AgentIsolation.NoticesNonInterference | rust/src/memory.rs:692-698 | over every interleaving what is announced to an agent is what a private ledger fed only its own requests announces |
| AgentIsolation.OutboxViewOverRuns | rust/src/memory.rs:538-557 | over every run an agent's outbox view is its private announcements in order, less the acknowledged numbers |
| AgentIsolation.OutboxListingOverRuns | rust/src/memory.rs:538-545 | after any run, the outbox for an agent answers its own waiting events and no other's, its private announcements less the acknowledged numbers; for nobody, all waiting events |
| AgentIsolation.OthersCannotChangeAnswers | rust/src/memory.rs:494-679 | dropping every other agent's requests and every acknowledgement changes none of its answers |
| SinkRefinement.SubmitAgrees | rust/src/memory.rs:838-885 | coupled sinks return the same receipt exactly when admission does not intervene, and stay coupled |
| SinkRefinement.SinksAgree | rust/src/memory.rs:803-885 | from their initial states the sinks return identical receipts, numbers included, if and only if no submission is turned away at admission |
| LedgerProtocol.StepKeepsReplay | rust/src/memory.rs:576-613 | what the process inside publishes is what the sequential ledger would hold |
| LedgerProtocol.RunKeepsInv | rust/src/memory.rs:594-613 | mutual exclusion, current snapshots, sequential file and well-ordered calls over every run |
| LedgerLinearizability.Linearizable | rust/src/memory.rs:594-613 | under any interleaving and failures the file is the committed requests applied in commit order, every commit answers what that run answers, and at most one process is past the lock |
| LedgerLinearizability.ReturnsWereCommitted | rust/src/memory.rs:594-613 | a returned response was committed, as that response, between its own call's invocation and return |
| LedgerLinearizability.CommitOrderRespectsCalls | rust/src/memory.rs:594-613 | a call that returned before another was invoked was committed before it |
| LedgerLinearizability.ErrorsCommitNothing | rust/src/memory.rs:594-613 | a call that reports an error was not committed |
| LedgerLinearizability.LockRespected | rust/src/memory.rs:598-612 | no step of another process, a time-out included, removes the lock or disturbs the process inside |
| LedgerLinearizability.StaleLockBlocks | rust/src/memory.rs:598-612 | once a lock is left behind nothing is ever committed again |
| LedgerLinearizability.WhenStale | rust/src/memory.rs:610-612 | a step leaves a lock behind exactly when the process inside dies there or cannot remove it |
| LedgerLinearizability.StaleRuns | rust/src/memory.rs:594-613 | a run ends with a lock left behind exactly when one of its steps was such a one |
| LedgerLinearizability.RecoverableExactly | rust/src/memory.rs:559-613 | at any point of any run, any process can still get any request committed if and only if no lock was left behind and the file was not damaged |
| LedgerLinearizability.StaleExactlyWhenLost | rust/src/memory.rs:594-613 | from no file on, a lock is left behind if and only if no continuation ever commits again |
| LedgerLinearizability.DamageIsNeverOverwritten | rust/src/memory.rs:559-574 | under any interleaving a damaged file stays as it is, nothing is committed and every call that returns reports an error |
| LedgerLinearizability.RestartDoesNotRecover | rust/src/memory.rs:594-613 | concrete runs from the start that leave the lock behind |
| LedgerLinearizability.FileIsSequentialLedger | rust/src/memory.rs:559-592 | every reachable file decodes to the ledger of its committed requests, so all run invariants hold of it |
| LedgerLinearizability.CrashSafeRedelivery | rust/src/memory.rs:266-274 | a submission committed by a process that died before answering is answered, when any process redelivers it, with the receipt the ledger then holds, under the same number |
| AttemptLoop.DrainBody | rust/src/harness_loop.rs:621-664 | everything up to the first break is relayed in order but for end marks, whose last one counts; nodes are collected; a break is reported exactly when there is one |
| AttemptLoop.RunBody | rust/src/harness_loop.rs:605-664 | each attempt is prepared from the original request and the previous verdict alone; it fails exactly when it cannot be prepared, breaks or never says it is done |
| AttemptLoop.RunErrorsAnyCase | rust/src/harness_loop.rs:757-762 | a run status is an error in any spelling of error, invalid_arg or user_abort and in nothing else |
| AttemptLoop.Decide | rust/src/harness_loop.rs:668-742 | judging and the stop policy: error, outcome or another try; an error exactly when the judge gives no verdict or the pass hook refuses |
| AttemptLoop.OneAttempt | rust/src/harness_loop.rs:604-743 | one pass of the loop extends the account by one faithful attempt, ends the run, or fails it with exactly the events up to the error |
| AttemptLoop.Stream | rust/src/harness_loop.rs:596-745 | a run without error yields exactly the trace of a faithful chain of attempts that goes on until it may not; a failed one yields exactly the events up to its error and never completes |
| AttemptTrace.Run | rust/src/harness_loop.rs:585-594 | running to completion returns the outcome of the one completed account, and none exactly when the run ends in an error |
| AttemptTrace.CausesOfFailure | rust/src/harness_loop.rs:605-708 | a run ends in an error exactly when its next attempt cannot be prepared, its body breaks or leaves no end mark, the judge gives no verdict, or the pass hook refuses |
| AttemptTrace.NoErrorBeforeOutcome | rust/src/harness_loop.rs:596-745 | a run that ends with an outcome has no error on its way, and every open chain of attempts is a proper part of it |
| AttemptTrace.OneAccount | rust/src/harness_loop.rs:596-745 | whether a run ends with an outcome or in an error, and with which attempts, is determined by the policies, and never both |
| AttemptTrace.TraceShape | rust/src/harness_loop.rs:604-743 | Judging is numbered from one, Retrying follows every failed verdict but a final one, run errors are not judged, exactly one Completed comes last, and the events of all bodies are relayed in order, each but the end marks |
| AttemptTrace.AttemptsFromOriginal | rust/src/harness_loop.rs:604-706 | every attempt is prepared from the original request and the previous verdict alone, ends with its last end mark, and is judged on the original goal and criteria and its own result |
| AttemptTrace.OutcomeReportsAnnouncedNodes | rust/src/harness_loop.rs:647-650 | the outcome reports exactly the nodes its trace announced, in order |
| AttemptTrace.OutcomeMeaning | rust/src/harness_loop.rs:665-740 | what each outcome kind means, the attempt cap, no attempt after the token limit, totals cut off at the type maximum |
| AttemptTrace.RunDetermined | rust/src/harness_loop.rs:596-745 | the policies determine the run: there is only one account of it |
| AttemptTrace.ContinueSessionKeepsGoal | rust/src/harness_loop.rs:376-391 | every attempt keeps session and goal and sees just the previous feedback |
| AttemptTrace.FreshFeedbackDoesNotAccumulate | rust/src/harness_loop.rs:393-419 | an attempt's goal is the original plus at most the previous feedback under its own number |
| SignalDelivery.GatewayReceiver.ClaimSignal | rust/src/signals.rs:181-214 | with nothing pending a claim carries the very signal received, the ids given and attempt 1; a free pending delivery is leased again as it is; a leased one grants nothing |
| SignalDelivery.GatewayReceiver.AckSignal | rust/src/signals.rs:216-226 | an acknowledgement clears the delivery exactly when it names it under its current lease |
| SignalDelivery.GatewayReceiver.NackSignal | rust/src/signals.rs:228-241 | giving back frees the lease exactly then, and keeps the delivery |
| SignalDelivery.DeliveryInOrder | rust/src/signals.rs:179-241 | over every run the signals the channel yielded are those acknowledged, unaltered and in order, then at most the pending one; one lease at most, carrying the latest; tokens are settled in the order issued |
| SignalDelivery.SettlesExactlyLatest | rust/src/signals.rs:216-241 | a settlement succeeds exactly when it names the latest claim and that claim is unsettled |
| SignalDelivery.ClaimsNumbered | rust/src/signals.rs:204-213 | with fresh ids the claims of a delivery share ids and signal and count 1, 2, 3 up to saturation |
| SignalDelivery.StaleTokenNeverSettles | rust/src/signals.rs:216-241 | with fresh ids a superseded or settled token never succeeds, and no token settles twice |
| Tokenizer.Flush | rust/src/memory.rs:1065-1078 | a segment adds its lowered form and, with Han characters, its bigrams |
| Tokenizer.MemoryTerms | rust/src/memory.rs:1062-1088 | the one-pass loop computes exactly the terms of the maximal alphanumeric runs |
| Tokenizer.TermsPlainly | rust/src/memory.rs:1062-1093 | a term is the lowered form of a maximal run or, if that has a Han character, two neighbouring characters of it, and nothing else is |
| Tokenizer.TermsOfJoin | rust/src/memory.rs:1062-1088 | the terms of a text joined at a separator are the terms of both parts |
| MemorySearch.SearchableTerms | rust/src/memory.rs:1004-1006 | a record's terms are those of its name, description and content |
| MemorySearch.CandidateMembers | rust/src/memory.rs:990-1015 | the filtered list holds exactly the eligible records with their overlap and position |
| MemorySearch.RankingIsRanking | rust/src/memory.rs:1017-1026 | the answer has as many eligible records as asked for or available, in order, and all left out rank strictly after all returned |
| MemorySearch.RankingUnique | rust/src/memory.rs:1017-1026 | any list with those properties is the list returned |
| MemorySearch.Collect | rust/src/memory.rs:990-1015 | the filter pass computes the eligible records |
| MemorySearch.RankingRecalls | rust/src/memory.rs:990-1031 | the answer in the records' own fields: every recall qualifies, they come by shared terms, recency and position, and a qualifying record is left out only of a full answer that precedes it |
| MemorySearch.InMemoryStore.Search | rust/src/memory.rs:978-1033 | search returns that answer, with scores moved into 0 to 1, and changes nobody's records |
| MemorySearch.UpsertInto | rust/src/memory.rs:947-955 | the position search and replacement compute the upsert |
| MemorySearch.UpsertKeepsKeys | rust/src/memory.rs:942-957 | storing replaces the first record of the key or appends, keeps every other record in place, and keeps unique keys unique |
| MemorySearch.InMemoryStore.Put | rust/src/memory.rs:942-957 | put upserts for one agent and leaves the others alone |

## Left out

- The kernel crate (journal, checkpoints, workflow graph, governance, compaction), the Node, Python and WASM facades, providers and runners.
- Attestation checks, signatures and digest functions: a submission carries its digest and its admission verdict.
- The text of ids (`receipt:`, `outbox:`, `verification:` before the number), the 64-bit limit of the ledger counters, and separate clock readings within one request.
- Ledger operations cancelled by dropping their future: a directory creation or rename already handed to the operating system may still happen afterwards; a death here stops the process at once.
- JSON encoding of the ledger file, fsync and the private temporary file: a publish replaces the file atomically or fails before doing so.
- `FileMemoryCandidateSink::list` and `outbox` as methods: they appear as requests of the ledger and of the protocol only.
- Error texts and paths of the validator, and the partially rewritten value a failed validation leaves behind: callers discard it.
- Tool sessions and attempt bodies that never end, and the wording of tool error results.
- `SignalGateway` scheduling and the channel's own buffering: what a receive yields is an input.
- NaN confidences and scores: confidences are reals.
- `MemoryLease`, `PermissionManager`, `WorkingMemory`, `memory_fetch_recall`, `HybridJudge`, `FreshWithDigest`, record deletion and recall bookkeeping: one-branch facts that would only add easy members.
