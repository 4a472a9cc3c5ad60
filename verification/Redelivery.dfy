/** Redelivering a held candidate is safe, whatever happened in between. */
module Redelivery {
  import opened Wrappers
  import opened CandidateLedger
  import LedgerRuns

  /** How an entry may evolve: only a pending receipt changes, once, and it keeps its number. */
  ghost predicate Evolves(before: Entry, after: Entry) {
    && after.agentId == before.agentId && after.candidate == before.candidate
    && after.payloadDigest == before.payloadDigest && after.createdAt == before.createdAt
    && after.receipt.receiptId == before.receipt.receiptId
    && (!before.receipt.Pending? ==> after == before)
  }

  ghost predicate AllEvolve(before: seq<Entry>, after: seq<Entry>) {
    |before| <= |after| && forall i | 0 <= i < |before| :: Evolves(before[i], after[i])
  }

  lemma {:induction false} StepEvolves(l: Ledger, request: Request)
    ensures AllEvolve(l.entries, Serve(l, request).ledger.entries)
    ensures request.Submit? ==> l.entries <= Serve(l, request).ledger.entries
  {
  }

  /** Entries are never dropped, reordered or re-identified; accepted and rejected are absorbing. */
  lemma {:induction false} RunEvolves(l: Ledger, requests: seq<Request>)
    ensures AllEvolve(l.entries, Exec(l, requests).entries)
    decreases |requests|
  {
    if requests != [] {
      var last := |requests| - 1;
      RunEvolves(l, requests[..last]);
      StepEvolves(Exec(l, requests[..last]), requests[last]);
    }
  }

  lemma {:induction false} FoundStays(before: seq<Entry>, after: seq<Entry>, agentId: string, candidateId: string)
    requires AllEvolve(before, after) && Find(before, agentId, candidateId).Some?
    ensures Find(after, agentId, candidateId) == Find(before, agentId, candidateId)
  {
    var i := Find(before, agentId, candidateId).value;
    assert Names(after[i], agentId, candidateId);
    forall j | 0 <= j < i
      ensures !Names(after[j], agentId, candidateId)
    {
      assert !Names(before[j], agentId, candidateId);
    }
  }

  /** Once held, a candidate resubmitted with the same id, payload and source after any requests
      whatever gets its current receipt under its original number and changes nothing, even if the
      verifier would refuse it now; and a decided receipt never changes again. */
  lemma {:induction false} SafeRedelivery(l: Ledger, agentId: string, c: Candidate, digest: string, requests: seq<Request>,
      refusal: Option<AttestationCode>, now: nat)
    requires var held := Find(l.entries, agentId, c.candidateId);
             held.Some? && l.entries[held.value].payloadDigest == digest && l.entries[held.value].candidate.source == c.source
    ensures var index := Find(l.entries, agentId, c.candidateId).value;
            var held := l.entries[index].receipt;
            var later := Exec(l, requests);
            var served := Serve(later, Submit(agentId, c, digest, refusal, now));
            && served.ledger == later
            && Find(later.entries, agentId, c.candidateId) == Some(index)
            && served.response == Answered(later.entries[index].receipt)
            && served.response.receipt.receiptId == held.receiptId
            && (!held.Pending? ==> served.response.receipt == held)
  {
    RunEvolves(l, requests);
    FoundStays(l.entries, Exec(l, requests).entries, agentId, c.candidateId);
  }

  /** The receipt the ledger holds for an agent's candidate. */
  function CurrentReceipt(l: Ledger, agentId: string, candidateId: string): Option<Receipt> {
    match Find(l.entries, agentId, candidateId)
    case None => None
    case Some(i) => Some(l.entries[i].receipt)
  }

  /** The contract as a client sees it: a submission answered as pending, its acknowledgement lost, is
      answered with its current receipt, under the same number, when redelivered after any other
      requests. */
  lemma {:induction false} LostAcknowledgement(l: Ledger, agentId: string, c: Candidate, digest: string, refusal: Option<AttestationCode>, now: nat,
      requests: seq<Request>, refusalLater: Option<AttestationCode>, later: nat)
    requires Serve(l, Submit(agentId, c, digest, refusal, now)).response.receipt.Pending?
    ensures var first := Serve(l, Submit(agentId, c, digest, refusal, now));
            var since := Exec(first.ledger, requests);
            var again := Serve(since, Submit(agentId, c, digest, refusalLater, later));
            && again.ledger == since
            && again.response.Answered? && CurrentReceipt(since, agentId, c.candidateId) == Some(again.response.receipt)
            && again.response.receipt.receiptId == first.response.receipt.receiptId
  {
    var first := Serve(l, Submit(agentId, c, digest, refusal, now));
    var held := Find(l.entries, agentId, c.candidateId);
    if held.None? {
      assert Names(first.ledger.entries[|l.entries|], agentId, c.candidateId);
      assert forall i | 0 <= i < |l.entries| :: !Names(first.ledger.entries[i], agentId, c.candidateId);
    }
    SafeRedelivery(first.ledger, agentId, c, digest, requests, refusalLater, later);
  }

  // ---------------------------------------------------------------- receipt numbers

  /** Whom a request that can be answered with a receipt is about. */
  predicate Concerns(request: Request, e: Entry) {
    || (request.Submit? && Names(e, request.agentId, request.candidate.candidateId))
    || (request.Resolve? && Names(e, request.agentId, request.candidateId))
  }

  /** The entry at `k` carries the number, and the request is about it. */
  predicate Carries(entries: seq<Entry>, k: nat, number: nat, request: Request) {
    k < |entries| && entries[k].receipt.receiptId == number && Concerns(request, entries[k])
  }

  /** A refusal: a new number handed out, nothing held for it. */
  predicate Refused(l: Ledger, request: Request) {
    var after := Serve(l, request).ledger;
    request.Submit? && after.nextReceipt > l.nextReceipt && after.entries == l.entries
  }

  /** An answer's number is either freshly minted for a refusal, or that of a held entry the request is
      about. */
  lemma {:induction false} AnswerSource(l: Ledger, request: Request) returns (k: nat)
    requires LedgerRuns.ReceiptsMinted(l.entries, l.nextReceipt) && Serve(l, request).response.Answered?
    ensures var after := Serve(l, request).ledger;
            var number := Serve(l, request).response.receipt.receiptId;
            && number < after.nextReceipt
            && (Refused(l, request) ==> number == l.nextReceipt)
            && (!Refused(l, request) ==> Carries(after.entries, k, number, request))
            && (number < l.nextReceipt ==> Carries(l.entries, k, number, request))
  {
    var candidateId := if request.Submit? then request.candidate.candidateId else request.candidateId;
    var held := Find(l.entries, request.agentId, candidateId);
    k := if held.Some? then held.value else |l.entries|;
  }

  /** Numbers only grow: what is held later under an old number was held then. */
  lemma {:induction false} OldNumbersOldEntries(l: Ledger, requests: seq<Request>)
    ensures var later := Exec(l, requests);
            l.nextReceipt <= later.nextReceipt
            && forall k | |l.entries| <= k < |later.entries| :: later.entries[k].receipt.receiptId >= l.nextReceipt
    decreases |requests|
  {
    if requests != [] {
      var last := |requests| - 1;
      OldNumbersOldEntries(l, requests[..last]);
      RunEvolves(l, requests[..last]);
      StepEvolves(Exec(l, requests[..last]), requests[last]);
    }
  }

  function ResponseAt(requests: seq<Request>, i: nat): Response
    requires i < |requests|
  {
    Serve(Exec(EMPTY, requests[..i]), requests[i]).response
  }

  lemma {:induction false} ExecResumes(requests: seq<Request>, i: nat)
    requires i < |requests|
    ensures Exec(EMPTY, requests[..i + 1]) == Serve(Exec(EMPTY, requests[..i]), requests[i]).ledger
    ensures Exec(EMPTY, requests) == Exec(Exec(EMPTY, requests[..i + 1]), requests[i + 1..])
  {
    assert requests[..i + 1][..i] == requests[..i];
    assert requests == requests[..i + 1] + requests[i + 1..];
    ExecSplit(EMPTY, requests[..i + 1], requests[i + 1..]);
  }

  /** Two answers under one number, any requests apart. */
  lemma {:induction false} SameNumberSameEntry(before: Ledger, first: Request, between: seq<Request>, second: Request) returns (k: nat)
    requires var after := Serve(before, first).ledger;
             var later := Exec(after, between);
             && LedgerRuns.ReceiptsMinted(before.entries, before.nextReceipt)
             && LedgerRuns.ReceiptsMinted(after.entries, after.nextReceipt)
             && LedgerRuns.ReceiptsMinted(later.entries, later.nextReceipt)
             && Serve(before, first).response.Answered? && Serve(later, second).response.Answered?
             && Serve(before, first).response.receipt.receiptId == Serve(later, second).response.receipt.receiptId
    ensures !Refused(before, first)
    ensures var after := Serve(before, first).ledger;
            var number := Serve(before, first).response.receipt.receiptId;
            Carries(after.entries, k, number, first) && Carries(Exec(after, between).entries, k, number, second)
  {
    var after := Serve(before, first).ledger;
    var later, number := Exec(after, between), Serve(before, first).response.receipt.receiptId;
    var original := AnswerSource(before, first);
    k := AnswerSource(later, second);
    OldNumbersOldEntries(after, between);
    RunEvolves(after, between);
    assert k < |after.entries| && Evolves(after.entries[k], later.entries[k]);
    OneEntryPerNumber(before, first, after, number, original, k);
  }

  /** Receipt numbers identify candidates: over every run, if two answers carry the same number then
      the first was no refusal, and both are about one and the same entry, which was held under that
      number from the first answer on. So the number of a refusal never comes back. */
  lemma {:induction false} NumbersIdentify(requests: seq<Request>, i: nat, j: nat) returns (k: nat)
    requires i < j < |requests| && ResponseAt(requests, i).Answered? && ResponseAt(requests, j).Answered?
    requires ResponseAt(requests, i).receipt.receiptId == ResponseAt(requests, j).receipt.receiptId
    ensures !Refused(Exec(EMPTY, requests[..i]), requests[i])
    ensures var number := ResponseAt(requests, i).receipt.receiptId;
            && Carries(Exec(EMPTY, requests[..i + 1]).entries, k, number, requests[i])
            && Carries(Exec(EMPTY, requests[..j]).entries, k, number, requests[j])
  {
    LedgerRuns.ReachableMinted(requests[..i]);
    LedgerRuns.ReachableMinted(requests[..i + 1]);
    LedgerRuns.ReachableMinted(requests[..j]);
    assert requests[..j][..i + 1] == requests[..i + 1] && requests[..j][..i] == requests[..i];
    ExecResumes(requests[..j], i);
    k := SameNumberSameEntry(Exec(EMPTY, requests[..i]), requests[i], requests[..j][i + 1..], requests[j]);
  }

  lemma {:induction false} OneEntryPerNumber(before: Ledger, request: Request, after: Ledger, number: nat, first: nat, k: nat)
    requires LedgerRuns.ReceiptsMinted(before.entries, before.nextReceipt) && LedgerRuns.ReceiptsMinted(after.entries, after.nextReceipt)
    requires after == Serve(before, request).ledger
    requires Refused(before, request) ==> number == before.nextReceipt
    requires !Refused(before, request) ==> Carries(after.entries, first, number, request)
    requires k < |after.entries| && after.entries[k].receipt.receiptId == number
    ensures !Refused(before, request) && first == k
  {
  }

  /** A refused submission is not held: repeated at once it is refused again for the same reason under
      the next number, and no request after it is ever answered under its number again. */
  lemma {:induction false} RefusalsAreNotHeld(requests: seq<Request>, i: nat)
    requires i < |requests| && Refused(Exec(EMPTY, requests[..i]), requests[i])
    ensures var refusal := ResponseAt(requests, i);
            && refusal.Answered? && refusal.receipt.Rejected?
            && (forall j | i < j < |requests| && ResponseAt(requests, j).Answered? ::
                  ResponseAt(requests, j).receipt.receiptId != refusal.receipt.receiptId)
            && (i + 1 < |requests| && requests[i + 1] == requests[i] ==>
                  ResponseAt(requests, i + 1) == Answered(refusal.receipt.(receiptId := refusal.receipt.receiptId + 1)))
  {
    var refusal := ResponseAt(requests, i);
    forall j | i < j < |requests| && ResponseAt(requests, j).Answered?
      ensures ResponseAt(requests, j).receipt.receiptId != refusal.receipt.receiptId
    {
      if ResponseAt(requests, j).receipt.receiptId == refusal.receipt.receiptId {
        var k := NumbersIdentify(requests, i, j);
      }
    }
    ExecResumes(requests, i);
    RefusedAgain(Exec(EMPTY, requests[..i]), requests[i]);
  }

  lemma {:induction false} RefusedAgain(l: Ledger, request: Request)
    requires Refused(l, request)
    ensures var first := Serve(l, request);
            && first.response.Answered? && first.response.receipt.Rejected?
            && Serve(first.ledger, request).response == Answered(first.response.receipt.(receiptId := first.response.receipt.receiptId + 1))
  {
  }
}
