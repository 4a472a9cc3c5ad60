/** The two sinks as objects. The durable one reads its snapshot, edits it and writes it back; the
    in-process one edits its list of held candidates. Both are proved against the ledger's request
    functions. */
module CandidateSinks {
  import opened Wrappers
  import opened CandidateLedger

  // ---------------------------------------------------------------- the durable sink

  /** The ledger file: absent, not decodable, or a decoded snapshot. */
  datatype Stored = Missing | Unreadable | Snapshot(version: nat, ledger: Ledger)

  /** A missing file is an empty ledger; a corrupt one is an error, never an empty ledger. */
  function ReadState(file: Stored): Option<Ledger> {
    match file
    case Missing => Some(EMPTY)
    case Unreadable => None
    case Snapshot(version, ledger) =>
      if version != 1 || ledger.nextReceipt == 0 || ledger.nextEvent == 0 then None else Some(ledger)
  }

  datatype StoredServed = StoredServed(file: Stored, response: Option<Response>)

  /** One request against the file: no response means an error. The file is rewritten only when the
      ledger changed. */
  function ServeStored(file: Stored, request: Request): StoredServed {
    match ReadState(file)
    case None => StoredServed(file, None)
    case Some(ledger) =>
      var served := Serve(ledger, request);
      StoredServed(if served.ledger == ledger then file else Snapshot(1, served.ledger), Some(served.response))
  }

  /** A file no ledger can be read from: not decodable, of another version, or with a zero counter. */
  predicate Damaged(file: Stored) {
    || file.Unreadable?
    || (file.Snapshot? && (file.version != 1 || file.ledger.nextReceipt == 0 || file.ledger.nextEvent == 0))
  }

  /** What a request may do with the file: a damaged one is an error and stays as it is; otherwise the
      ledger in it, the empty one if there is no file, serves the request, and is written back if it
      changed. */
  ghost predicate Handles(before: Stored, request: Request, after: Stored, response: Option<Response>) {
    if Damaged(before) then after == before && response == None
    else
      var ledger := if before.Missing? then Ledger(1, 1, [], [], []) else before.ledger;
      var served := Serve(ledger, request);
      && response == Some(served.response)
      && (if served.ledger == ledger then after == before else after == Snapshot(1, served.ledger))
  }

  lemma {:induction false} ServedAsHandled(file: Stored, request: Request)
    ensures Handles(file, request, ServeStored(file, request).file, ServeStored(file, request).response)
    ensures Damaged(file) <==> ReadState(file).None?
  {
  }

  /** What the file holds can always be read back: only readable snapshots are ever written. */
  lemma {:induction false} WritesAreReadable(file: Stored, request: Request)
    requires ReadState(file).Some?
    ensures ReadState(ServeStored(file, request).file) == Some(Serve(ReadState(file).value, request).ledger)
  {
  }

  method FindEntry(entries: seq<Entry>, agentId: string, candidateId: string) returns (r: Option<nat>)
    ensures r == Find(entries, agentId, candidateId)
  {
    for i := 0 to |entries|
      invariant FindFrom(entries, agentId, candidateId, 0) == FindFrom(entries, agentId, candidateId, i)
    {
      if Names(entries[i], agentId, candidateId) {
        return Some(i);
      }
    }
    return None;
  }

  method FindDuplicate(entries: seq<Entry>, agentId: string, digest: string) returns (r: Option<string>)
    ensures r == Duplicate(entries, agentId, digest)
  {
    for i := 0 to |entries|
      invariant Duplicate(entries, agentId, digest) == Duplicate(entries[i..], agentId, digest)
    {
      assert entries[i..][1..] == entries[i + 1..];
      if entries[i].agentId == agentId && entries[i].payloadDigest == digest {
        var reason := DuplicateReason(entries[i].receipt);
        if reason.Some? {
          return reason;
        }
      }
    }
    return None;
  }

  method RetainOthers(events: seq<Event>, number: nat) returns (retained: seq<Event>)
    ensures retained == Without(events, number)
  {
    retained := [];
    for i := 0 to |events|
      invariant Without(events, number) == retained + Without(events[i..], number)
    {
      assert events[i..][1..] == events[i + 1..];
      if events[i].number != number {
        retained := retained + [events[i]];
      }
    }
  }

  class FileSink {
    var file: Stored

    constructor (file: Stored)
      ensures this.file == file
    {
      this.file := file;
    }

    method Submit(agentId: string, candidate: Candidate, digest: string, refusal: Option<AttestationCode>, now: nat) returns (r: Option<Receipt>)
      modifies this
      ensures var served := ServeStored(old(file), Request.Submit(agentId, candidate, digest, refusal, now));
              && file == served.file
              && (r.Some? <==> served.response.Some?)
              && (r.Some? ==> served.response == Some(Answered(r.value)))
      ensures Handles(old(file), Request.Submit(agentId, candidate, digest, refusal, now), file, if r.Some? then Some(Answered(r.value)) else None)
    {
      ServedAsHandled(file, Request.Submit(agentId, candidate, digest, refusal, now));
      var read := ReadState(file);
      if read.None? {
        return None;
      }
      var state := read.value;
      var held := FindEntry(state.entries, agentId, candidate.candidateId);
      var receiptId := state.nextReceipt;
      var receipt;
      if held.Some? {
        var existing := state.entries[held.value];
        if existing.payloadDigest == digest && existing.candidate.source == candidate.source {
          return Some(existing.receipt);
        }
        state := state.(nextReceipt := receiptId + 1);
        receipt := Rejected(candidate.candidateId, receiptId, CONFLICT);
        state := Append(state, CandidateRejected, agentId, receipt, now);
      } else if refusal.Some? {
        state := state.(nextReceipt := receiptId + 1);
        receipt := Rejected(candidate.candidateId, receiptId, Label(refusal.value));
        var attempt := Attempt(state.nextEvent, agentId, candidate.candidateId, Label(refusal.value), candidate.attestation, now);
        state := state.(attempts := state.attempts + [attempt]);
        state := state.(nextEvent := state.nextEvent + 1);
      } else {
        var duplicate := FindDuplicate(state.entries, agentId, digest);
        state := state.(nextReceipt := receiptId + 1);
        if duplicate.Some? {
          receipt := Rejected(candidate.candidateId, receiptId, duplicate.value);
          state := Append(state, CandidateRejected, agentId, receipt, now);
        } else {
          receipt := Pending(candidate.candidateId, receiptId);
          state := state.(entries := state.entries + [Entry(agentId, candidate, digest, receipt, now, now)]);
          state := Append(state, CandidateSubmitted, agentId, receipt, now);
        }
      }
      file := Snapshot(1, state);
      return Some(receipt);
    }

    method Resolve(agentId: string, candidateId: string, resolution: Resolution, now: nat) returns (r: Option<Response>)
      modifies this
      ensures StoredServed(file, r) == ServeStored(old(file), Request.Resolve(agentId, candidateId, resolution, now))
      ensures Handles(old(file), Request.Resolve(agentId, candidateId, resolution, now), file, r)
    {
      ServedAsHandled(file, Request.Resolve(agentId, candidateId, resolution, now));
      var read := ReadState(file);
      if read.None? {
        return None;
      }
      var state := read.value;
      var index := FindEntry(state.entries, agentId, candidateId);
      if index.None? {
        return Some(UnknownCandidate);
      }
      var entry := state.entries[index.value];
      if !entry.receipt.Pending? {
        return Some(Answered(entry.receipt));
      }
      var receipt := match resolution
        case Accept(recordRef, digest) => Accepted(candidateId, entry.receipt.receiptId, recordRef, digest)
        case Reject(reasonCode) => Rejected(candidateId, entry.receipt.receiptId, reasonCode);
      state := state.(entries := state.entries[index.value := entry.(receipt := receipt, updatedAt := now)]);
      state := Append(state, if receipt.Accepted? then CandidateAccepted else CandidateRejected, agentId, receipt, now);
      file := Snapshot(1, state);
      return Some(Answered(receipt));
    }

    method AckOutbox(number: nat) returns (r: Option<Response>)
      modifies this
      ensures StoredServed(file, r) == ServeStored(old(file), Request.AckOutbox(number))
      ensures Handles(old(file), Request.AckOutbox(number), file, r)
    {
      ServedAsHandled(file, Request.AckOutbox(number));
      var read := ReadState(file);
      if read.None? {
        return None;
      }
      var state := read.value;
      var retained := RetainOthers(state.outbox, number);
      if |retained| == |state.outbox| {
        NothingWithout(state.outbox, number);
        return Some(Acked(false));
      }
      state := state.(outbox := retained);
      file := Snapshot(1, state);
      return Some(Acked(true));
    }
  }

  // ---------------------------------------------------------------- the in-process sink

  datatype Held = Held(agentId: string, candidate: Candidate, payloadDigest: string, receipt: Receipt)

  datatype MemoryState = MemoryState(held: seq<Held>, nextReceipt: nat)

  datatype MemoryServed = MemoryServed(state: MemoryState, receipt: Receipt)

  predicate HeldAs(h: Held, agentId: string, candidateId: string) {
    h.agentId == agentId && h.candidate.candidateId == candidateId
  }

  function FindHeld(held: seq<Held>, agentId: string, candidateId: string): (r: Option<nat>)
    ensures r.Some? ==> r.value < |held|
  {
    if held == [] then None
    else if HeldAs(held[0], agentId, candidateId) then Some(0)
    else match FindHeld(held[1..], agentId, candidateId)
      case None => None
      case Some(i) => Some(i + 1)
  }

  function HeldDuplicate(held: seq<Held>, agentId: string, digest: string): Option<string> {
    if held == [] then None
    else if held[0].agentId == agentId && held[0].payloadDigest == digest && DuplicateReason(held[0].receipt).Some? then
      DuplicateReason(held[0].receipt)
    else HeldDuplicate(held[1..], agentId, digest)
  }

  /** The in-process sink's counter holds the last minted number, so it mints before it reads. */
  function MemorySubmit(s: MemoryState, agentId: string, c: Candidate, digest: string): MemoryServed {
    var minted := s.nextReceipt + 1;
    var i := FindHeld(s.held, agentId, c.candidateId);
    if i.Some? then
      var existing := s.held[i.value];
      if existing.payloadDigest == digest && existing.candidate.source == c.source then MemoryServed(s, existing.receipt)
      else MemoryServed(s.(nextReceipt := minted), Rejected(c.candidateId, minted, CONFLICT))
    else
      match HeldDuplicate(s.held, agentId, digest)
      case Some(reason) => MemoryServed(s.(nextReceipt := minted), Rejected(c.candidateId, minted, reason))
      case None =>
        var receipt := Pending(c.candidateId, minted);
        MemoryServed(MemoryState(s.held + [Held(agentId, c, digest, receipt)], minted), receipt)
  }

  class InMemorySink {
    var held: seq<Held>
    var nextReceipt: nat

    constructor ()
      ensures MemoryState(held, nextReceipt) == MemoryState([], 0)
    {
      held, nextReceipt := [], 0;
    }

    method Submit(agentId: string, candidate: Candidate, digest: string) returns (receipt: Receipt)
      modifies this
      ensures MemoryServed(MemoryState(held, nextReceipt), receipt)
           == MemorySubmit(MemoryState(old(held), old(nextReceipt)), agentId, candidate, digest)
    {
      ghost var was := MemoryState(held, nextReceipt);
      for i := 0 to |held|
        invariant held == was.held && nextReceipt == was.nextReceipt
        invariant FindHeld(held, agentId, candidate.candidateId)
               == match FindHeld(held[i..], agentId, candidate.candidateId) case None => None case Some(j) => Some(i + j)
      {
        assert held[i..][1..] == held[i + 1..];
        if HeldAs(held[i], agentId, candidate.candidateId) {
          if held[i].payloadDigest == digest && held[i].candidate.source == candidate.source {
            return held[i].receipt;
          }
          nextReceipt := nextReceipt + 1;
          return Rejected(candidate.candidateId, nextReceipt, CONFLICT);
        }
      }
      for i := 0 to |held|
        invariant held == was.held && nextReceipt == was.nextReceipt
        invariant HeldDuplicate(held, agentId, digest) == HeldDuplicate(held[i..], agentId, digest)
      {
        assert held[i..][1..] == held[i + 1..];
        if held[i].agentId == agentId && held[i].payloadDigest == digest {
          var reason := DuplicateReason(held[i].receipt);
          if reason.Some? {
            nextReceipt := nextReceipt + 1;
            return Rejected(candidate.candidateId, nextReceipt, reason.value);
          }
        }
      }
      nextReceipt := nextReceipt + 1;
      receipt := Pending(candidate.candidateId, nextReceipt);
      held := held + [Held(agentId, candidate, digest, receipt)];
    }
  }
}
