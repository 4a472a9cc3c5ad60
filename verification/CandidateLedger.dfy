/** The memory-candidate ledger: its stored state, and what each request does to it. Payload digests,
    the admission verdict and the clock reach the ledger from outside, so they are part of a
    request. Receipt, outbox and verification ids are numbers here. */
module CandidateLedger {
  import opened Wrappers

  datatype Source = ChildRequest | ModelProposal

  /** Why admission refuses a candidate's claimed origin. */
  datatype AttestationCode =
    | AttestationMissing
    | AttestationVerifierUnconfigured
    | AttestationIssuerUntrusted
    | AttestationScopeMismatch
    | AttestationCandidateMismatch
    | AttestationSourceMismatch
    | AttestationDigestMismatch
    | AttestationNotYetValid
    | AttestationExpired
    | AttestationSignatureInvalid
    | HostVerifiedRequiresHostAuthor

  function Label(code: AttestationCode): (s: string)
    ensures s != PENDING_REVIEW && s != REMEMBERED && s != CONFLICT
  {
    match code
    case AttestationMissing => "attestation_missing"
    case AttestationVerifierUnconfigured => "attestation_verifier_unconfigured"
    case AttestationIssuerUntrusted => "attestation_issuer_untrusted"
    case AttestationScopeMismatch => "attestation_scope_mismatch"
    case AttestationCandidateMismatch => "attestation_candidate_mismatch"
    case AttestationSourceMismatch => "attestation_source_mismatch"
    case AttestationDigestMismatch => "attestation_digest_mismatch"
    case AttestationNotYetValid => "attestation_not_yet_valid"
    case AttestationExpired => "attestation_expired"
    case AttestationSignatureInvalid => "attestation_signature_invalid"
    case HostVerifiedRequiresHostAuthor => "host_verified_requires_host_author"
  }

  const CONFLICT := "candidate_conflict"
  const PENDING_REVIEW := "already_pending_review"
  const REMEMBERED := "already_remembered"

  datatype Candidate = Candidate(candidateId: string, source: Source, record: string, attestation: Option<string>)

  datatype Receipt =
    | Pending(candidateId: string, receiptId: nat)
    | Accepted(candidateId: string, receiptId: nat, recordRef: string, digest: string)
    | Rejected(candidateId: string, receiptId: nat, reasonCode: string)

  datatype Resolution = Accept(recordRef: string, digest: string) | Reject(reasonCode: string)

  datatype Entry = Entry(agentId: string, candidate: Candidate, payloadDigest: string, receipt: Receipt, createdAt: nat, updatedAt: nat)

  datatype EventKind = CandidateSubmitted | CandidateAccepted | CandidateRejected

  datatype Event = Event(number: nat, kind: EventKind, agentId: string, candidateId: string, receipt: Receipt, occurredAt: nat)

  datatype Attempt = Attempt(number: nat, agentId: string, candidateId: string, reasonCode: string, attestation: Option<string>, occurredAt: nat)

  datatype Ledger = Ledger(nextReceipt: nat, nextEvent: nat, entries: seq<Entry>, outbox: seq<Event>, attempts: seq<Attempt>)

  const EMPTY := Ledger(1, 1, [], [], [])

  datatype Request =
    | Submit(agentId: string, candidate: Candidate, digest: string, refusal: Option<AttestationCode>, now: nat)
    | Resolve(agentId: string, candidateId: string, resolution: Resolution, now: nat)
    | AckOutbox(number: nat)
    | ListEntries(owner: Option<string>)
    | ListOutbox(owner: Option<string>)

  datatype Response =
    | Answered(receipt: Receipt)
    | UnknownCandidate
    | Acked(removed: bool)
    | Entries(entries: seq<Entry>)
    | Events(events: seq<Event>)

  datatype Served = Served(ledger: Ledger, response: Response)

  // ---------------------------------------------------------------- lookups

  predicate Names(e: Entry, agentId: string, candidateId: string) {
    e.agentId == agentId && e.candidate.candidateId == candidateId
  }

  /** The first entry held under the agent's candidate id. */
  function Find(entries: seq<Entry>, agentId: string, candidateId: string): (r: Option<nat>)
    ensures r.Some? ==> r.value < |entries| && Names(entries[r.value], agentId, candidateId)
    ensures r.Some? ==> forall i | 0 <= i < r.value :: !Names(entries[i], agentId, candidateId)
    ensures r.None? ==> forall i | 0 <= i < |entries| :: !Names(entries[i], agentId, candidateId)
  {
    FindFrom(entries, agentId, candidateId, 0)
  }

  function FindFrom(entries: seq<Entry>, agentId: string, candidateId: string, from: nat): (r: Option<nat>)
    requires from <= |entries|
    ensures r.Some? ==> from <= r.value < |entries| && Names(entries[r.value], agentId, candidateId)
    ensures r.Some? ==> forall i | from <= i < r.value :: !Names(entries[i], agentId, candidateId)
    ensures r.None? ==> forall i | from <= i < |entries| :: !Names(entries[i], agentId, candidateId)
    decreases |entries| - from
  {
    if from == |entries| then None
    else if Names(entries[from], agentId, candidateId) then Some(from)
    else FindFrom(entries, agentId, candidateId, from + 1)
  }

  /** A rejected proposal may be made again; a pending or accepted one may not. */
  function DuplicateReason(held: Receipt): Option<string> {
    match held
    case Pending(_, _) => Some(PENDING_REVIEW)
    case Accepted(_, _, _, _) => Some(REMEMBERED)
    case Rejected(_, _, _) => None
  }

  predicate Blocks(e: Entry, agentId: string, digest: string) {
    e.agentId == agentId && e.payloadDigest == digest && DuplicateReason(e.receipt).Some?
  }

  /** The reason given by the first entry that already holds the agent's payload. */
  function Duplicate(entries: seq<Entry>, agentId: string, digest: string): (r: Option<string>)
    ensures r.Some? <==> exists i | 0 <= i < |entries| :: Blocks(entries[i], agentId, digest)
    ensures r.Some? ==> r.value == PENDING_REVIEW || r.value == REMEMBERED
  {
    if entries == [] then None
    else if Blocks(entries[0], agentId, digest) then DuplicateReason(entries[0].receipt)
    else
      assert forall i | 1 <= i < |entries| :: entries[i] == entries[1..][i - 1];
      Duplicate(entries[1..], agentId, digest)
  }

  // ---------------------------------------------------------------- requests

  /** A new outbox event under the next event number. */
  function Append(l: Ledger, kind: EventKind, agentId: string, receipt: Receipt, now: nat): Ledger {
    l.(nextEvent := l.nextEvent + 1,
       outbox := l.outbox + [Event(l.nextEvent, kind, agentId, receipt.candidateId, receipt, now)])
  }

  /** A refusal minted under a fresh receipt number and announced in the outbox; nothing is held. */
  function Refuse(l: Ledger, agentId: string, candidateId: string, reason: string, now: nat): Served {
    var receipt := Rejected(candidateId, l.nextReceipt, reason);
    Served(Append(l.(nextReceipt := l.nextReceipt + 1), CandidateRejected, agentId, receipt, now), Answered(receipt))
  }

  /** Identity first, then admission, then the payload rule. */
  function ServeSubmit(l: Ledger, agentId: string, c: Candidate, digest: string, refusal: Option<AttestationCode>, now: nat): Served {
    var held := Find(l.entries, agentId, c.candidateId);
    if held.Some? then
      var e := l.entries[held.value];
      if e.payloadDigest == digest && e.candidate.source == c.source then Served(l, Answered(e.receipt))
      else Refuse(l, agentId, c.candidateId, CONFLICT, now)
    else if refusal.Some? then
      var reason := Label(refusal.value);
      var attempt := Attempt(l.nextEvent, agentId, c.candidateId, reason, c.attestation, now);
      Served(l.(nextReceipt := l.nextReceipt + 1, nextEvent := l.nextEvent + 1, attempts := l.attempts + [attempt]),
             Answered(Rejected(c.candidateId, l.nextReceipt, reason)))
    else
      match Duplicate(l.entries, agentId, digest)
      case Some(reason) => Refuse(l, agentId, c.candidateId, reason, now)
      case None =>
        var receipt := Pending(c.candidateId, l.nextReceipt);
        var entry := Entry(agentId, c, digest, receipt, now, now);
        Served(Append(l.(nextReceipt := l.nextReceipt + 1, entries := l.entries + [entry]), CandidateSubmitted, agentId, receipt, now),
               Answered(receipt))
  }

  function Decided(held: Receipt, candidateId: string, resolution: Resolution): Receipt {
    match resolution
    case Accept(recordRef, digest) => Accepted(candidateId, held.receiptId, recordRef, digest)
    case Reject(reasonCode) => Rejected(candidateId, held.receiptId, reasonCode)
  }

  function ServeResolve(l: Ledger, agentId: string, candidateId: string, resolution: Resolution, now: nat): Served {
    var held := Find(l.entries, agentId, candidateId);
    if held.None? then Served(l, UnknownCandidate)
    else
      var e := l.entries[held.value];
      if !e.receipt.Pending? then Served(l, Answered(e.receipt))
      else
        var receipt := Decided(e.receipt, candidateId, resolution);
        var kind := if receipt.Accepted? then CandidateAccepted else CandidateRejected;
        var entries := l.entries[held.value := e.(receipt := receipt, updatedAt := now)];
        Served(Append(l.(entries := entries), kind, agentId, receipt, now), Answered(receipt))
  }

  /** The outbox without every event of one number, the others in order. */
  function Without(events: seq<Event>, number: nat): (r: seq<Event>)
    ensures |r| <= |events|
  {
    if events == [] then []
    else if events[0].number == number then Without(events[1..], number)
    else [events[0]] + Without(events[1..], number)
  }

  lemma {:induction false} NothingWithout(outbox: seq<Event>, number: nat)
    requires |Without(outbox, number)| == |outbox|
    ensures Without(outbox, number) == outbox
  {
    if outbox != [] {
      NothingWithout(outbox[1..], number);
    }
  }

  lemma {:induction false} WithoutUnchanged(events: seq<Event>, number: nat)
    ensures Without(events, number) == events <==> forall e | e in events :: e.number != number
  {
    if events != [] {
      WithoutUnchanged(events[1..], number);
      assert forall e :: e in events <==> e == events[0] || e in events[1..];
      if events[0].number != number {
        assert Without(events, number)[1..] == Without(events[1..], number);
      } else {
        assert events[0] in events && |Without(events, number)| < |events|;
      }
    }
  }

  function EntriesOf(entries: seq<Entry>, owner: Option<string>): seq<Entry>
  {
    if entries == [] then []
    else if owner.None? || entries[0].agentId == owner.value then [entries[0]] + EntriesOf(entries[1..], owner)
    else EntriesOf(entries[1..], owner)
  }

  function EventsOf(events: seq<Event>, owner: Option<string>): seq<Event>
  {
    if events == [] then []
    else if owner.None? || events[0].agentId == owner.value then [events[0]] + EventsOf(events[1..], owner)
    else EventsOf(events[1..], owner)
  }

  function Serve(l: Ledger, request: Request): Served {
    match request
    case Submit(agentId, c, digest, refusal, now) => ServeSubmit(l, agentId, c, digest, refusal, now)
    case Resolve(agentId, candidateId, resolution, now) => ServeResolve(l, agentId, candidateId, resolution, now)
    case AckOutbox(number) =>
      var outbox := Without(l.outbox, number);
      Served(l.(outbox := outbox), Acked(|outbox| != |l.outbox|))
    case ListEntries(owner) => Served(l, Entries(EntriesOf(l.entries, owner)))
    case ListOutbox(owner) => Served(l, Events(EventsOf(l.outbox, owner)))
  }

  /** The ledger after a list of requests, served one after another. */
  function Exec(l: Ledger, requests: seq<Request>): Ledger
    decreases |requests|
  {
    if requests == [] then l
    else
      var last := |requests| - 1;
      Serve(Exec(l, requests[..last]), requests[last]).ledger
  }

  lemma {:induction false} ExecSplit(l: Ledger, a: seq<Request>, b: seq<Request>)
    ensures Exec(l, a + b) == Exec(Exec(l, a), b)
    decreases |b|
  {
    if b == [] {
      assert a + b == a;
    } else {
      var init := b[..|b| - 1];
      assert (a + b)[..|a + b| - 1] == a + init;
      ExecSplit(l, a, init);
    }
  }
}
