/** The in-process sink answers as the durable one does: exactly as long as admission turns nobody
    away. */
module SinkRefinement {
  import opened Wrappers
  import opened CandidateLedger
  import opened CandidateSinks

  /** Same held candidates, and the durable counter one ahead. */
  ghost predicate Coupled(l: Ledger, m: MemoryState) {
    && l.nextReceipt == m.nextReceipt + 1
    && |m.held| == |l.entries|
    && forall i | 0 <= i < |l.entries| ::
         m.held[i] == Held(l.entries[i].agentId, l.entries[i].candidate, l.entries[i].payloadDigest, l.entries[i].receipt)
  }

  lemma {:induction false} FindAgrees(entries: seq<Entry>, held: seq<Held>, agentId: string, candidateId: string)
    requires |held| == |entries|
    requires forall i | 0 <= i < |entries| :: HeldAs(held[i], agentId, candidateId) == Names(entries[i], agentId, candidateId)
    ensures FindHeld(held, agentId, candidateId) == Find(entries, agentId, candidateId)
  {
    if held != [] && !HeldAs(held[0], agentId, candidateId) {
      assert forall i | 0 <= i < |entries| - 1 :: entries[1..][i] == entries[i + 1] && held[1..][i] == held[i + 1];
      FindAgrees(entries[1..], held[1..], agentId, candidateId);
    }
  }

  lemma {:induction false} DuplicateAgrees(entries: seq<Entry>, held: seq<Held>, agentId: string, digest: string)
    requires |held| == |entries|
    requires forall i | 0 <= i < |entries| ::
               held[i].agentId == entries[i].agentId && held[i].payloadDigest == entries[i].payloadDigest && held[i].receipt == entries[i].receipt
    ensures HeldDuplicate(held, agentId, digest) == Duplicate(entries, agentId, digest)
  {
    if held != [] {
      DuplicateAgrees(entries[1..], held[1..], agentId, digest);
    }
  }

  /** Whether the durable sink would turn this submission away at admission: its id is unknown, so the
      verdict is consulted, and the verdict is a refusal. */
  predicate TurnedAway(l: Ledger, s: Request)
    requires s.Submit?
  {
    Find(l.entries, s.agentId, s.candidate.candidateId).None? && s.refusal.Some?
  }

  /** Coupled sinks give the same receipt exactly when admission does not intervene, and then stay
      coupled. */
  lemma {:induction false} SubmitAgrees(l: Ledger, m: MemoryState, s: Request)
    requires s.Submit? && Coupled(l, m)
    ensures var durable, local := Serve(l, s), MemorySubmit(m, s.agentId, s.candidate, s.digest);
            && (durable.response == Answered(local.receipt) <==> !TurnedAway(l, s))
            && (!TurnedAway(l, s) ==> Coupled(durable.ledger, local.state))
  {
    FindAgrees(l.entries, m.held, s.agentId, s.candidate.candidateId);
    DuplicateAgrees(l.entries, m.held, s.agentId, s.digest);
  }

  ghost predicate AllSubmissions(requests: seq<Request>) {
    forall i | 0 <= i < |requests| :: requests[i].Submit?
  }

  function DurableReceipts(l: Ledger, submissions: seq<Request>): seq<Response>
    decreases |submissions|
  {
    if submissions == [] then []
    else [Serve(l, submissions[0]).response] + DurableReceipts(Serve(l, submissions[0]).ledger, submissions[1..])
  }

  function LocalReceipts(m: MemoryState, submissions: seq<Request>): seq<Response>
    requires AllSubmissions(submissions)
    decreases |submissions|
  {
    if submissions == [] then []
    else
      var s := submissions[0];
      var local := MemorySubmit(m, s.agentId, s.candidate, s.digest);
      [Answered(local.receipt)] + LocalReceipts(local.state, submissions[1..])
  }

  /** No submission of the list is turned away at admission when the durable sink serves it. */
  predicate NobodyTurnedAway(l: Ledger, submissions: seq<Request>)
    requires AllSubmissions(submissions)
    decreases |submissions|
  {
    submissions == [] ||
    (!TurnedAway(l, submissions[0]) && NobodyTurnedAway(Serve(l, submissions[0]).ledger, submissions[1..]))
  }

  lemma {:induction false} ReceiptsAgreeFrom(l: Ledger, m: MemoryState, submissions: seq<Request>)
    requires AllSubmissions(submissions) && Coupled(l, m)
    ensures DurableReceipts(l, submissions) == LocalReceipts(m, submissions) <==> NobodyTurnedAway(l, submissions)
    decreases |submissions|
  {
    if submissions != [] {
      var s := submissions[0];
      SubmitAgrees(l, m, s);
      var durable, local := Serve(l, s), MemorySubmit(m, s.agentId, s.candidate, s.digest);
      var ds, ls := DurableReceipts(l, submissions), LocalReceipts(m, submissions);
      assert ds[0] == durable.response && ls[0] == Answered(local.receipt);
      assert ds[1..] == DurableReceipts(durable.ledger, submissions[1..]) && ls[1..] == LocalReceipts(local.state, submissions[1..]);
      if !TurnedAway(l, s) {
        ReceiptsAgreeFrom(durable.ledger, local.state, submissions[1..]);
        assert ds == [ds[0]] + ds[1..] && ls == [ls[0]] + ls[1..];
      }
    }
  }

  /** From their initial states the two sinks return identical receipts, one for one and numbers
      included, if and only if no submission is turned away at admission; in particular whenever every
      submission passes it. */
  lemma {:induction false} SinksAgree(submissions: seq<Request>)
    requires AllSubmissions(submissions)
    ensures DurableReceipts(EMPTY, submissions) == LocalReceipts(MemoryState([], 0), submissions) <==> NobodyTurnedAway(EMPTY, submissions)
    ensures (forall i | 0 <= i < |submissions| :: submissions[i].refusal.None?) ==>
              DurableReceipts(EMPTY, submissions) == LocalReceipts(MemoryState([], 0), submissions)
  {
    ReceiptsAgreeFrom(EMPTY, MemoryState([], 0), submissions);
    if forall i | 0 <= i < |submissions| :: submissions[i].refusal.None? {
      AdmittedAreNotTurnedAway(EMPTY, submissions);
    }
  }

  lemma {:induction false} AdmittedAreNotTurnedAway(l: Ledger, submissions: seq<Request>)
    requires AllSubmissions(submissions) && forall i | 0 <= i < |submissions| :: submissions[i].refusal.None?
    ensures NobodyTurnedAway(l, submissions)
    decreases |submissions|
  {
    if submissions != [] {
      AdmittedAreNotTurnedAway(Serve(l, submissions[0]).ledger, submissions[1..]);
    }
  }
}
