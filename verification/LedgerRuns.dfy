/** What every run of the ledger keeps, from the empty ledger on: unique identities, conserved
    counters, and an outbox from which the whole review state can be rebuilt. */
module LedgerRuns {
  import opened Wrappers
  import opened CandidateLedger

  /** A ledger together with everything it ever announced and the numbers acknowledged so far. */
  datatype History = History(ledger: Ledger, emitted: seq<Event>, acked: seq<nat>)

  const START := History(EMPTY, [], [])

  /** The events one request adds to the outbox; an acknowledgement adds none. */
  function Emits(l: Ledger, request: Request): seq<Event> {
    var after := Serve(l, request).ledger;
    if request.AckOutbox? || |after.outbox| < |l.outbox| then [] else after.outbox[|l.outbox|..]
  }

  function Step(h: History, request: Request): History {
    var served := Serve(h.ledger, request);
    History(served.ledger, h.emitted + Emits(h.ledger, request),
            if served.response == Acked(true) then h.acked + [request.number] else h.acked)
  }

  function Run(requests: seq<Request>): History
    decreases |requests|
  {
    if requests == [] then START
    else Step(Run(requests[..|requests| - 1]), requests[|requests| - 1])
  }

  // ---------------------------------------------------------------- the invariant

  /** At most one entry per agent and candidate id. */
  ghost predicate IdentitiesUnique(entries: seq<Entry>) {
    forall i, j | 0 <= i < j < |entries| :: !Names(entries[j], entries[i].agentId, entries[i].candidate.candidateId)
  }

  /** At most one pending or accepted entry per agent and payload. */
  ghost predicate LivePayloadsUnique(entries: seq<Entry>) {
    forall i, j | 0 <= i < j < |entries| && DuplicateReason(entries[i].receipt).Some? ::
      !Blocks(entries[j], entries[i].agentId, entries[i].payloadDigest)
  }

  /** Receipts carry their own candidate's id and pairwise different, already minted numbers. */
  ghost predicate ReceiptsMinted(entries: seq<Entry>, nextReceipt: nat) {
    && (forall i | 0 <= i < |entries| :: entries[i].receipt.candidateId == entries[i].candidate.candidateId)
    && (forall i | 0 <= i < |entries| :: entries[i].receipt.receiptId < nextReceipt)
    && (forall i, j | 0 <= i < j < |entries| :: entries[i].receipt.receiptId != entries[j].receipt.receiptId)
  }

  function Decisions(entries: seq<Entry>): nat {
    if entries == [] then 0
    else Decisions(entries[..|entries| - 1]) + if entries[|entries| - 1].receipt.Pending? then 0 else 1
  }

  ghost predicate Increasing(events: seq<Event>) {
    forall i, j | 0 <= i < j < |events| :: events[i].number < events[j].number
  }

  /** Announcement numbers increase, stay below the counter, and are never shared with an attempt. */
  ghost predicate NumbersFresh(h: History) {
    && Increasing(h.emitted)
    && (forall i | 0 <= i < |h.emitted| :: h.emitted[i].number < h.ledger.nextEvent)
    && (forall i | 0 <= i < |h.ledger.attempts| :: h.ledger.attempts[i].number < h.ledger.nextEvent)
    && (forall i | 0 <= i < |h.acked| :: h.acked[i] < h.ledger.nextEvent)
    && (forall i, j | 0 <= i < |h.emitted| && 0 <= j < |h.ledger.attempts| :: h.emitted[i].number != h.ledger.attempts[j].number)
  }

  function KindFor(r: Receipt): EventKind {
    if r.Pending? then CandidateSubmitted else if r.Accepted? then CandidateAccepted else CandidateRejected
  }

  /** Every announcement is typed by the receipt it carries and names that receipt's candidate. */
  ghost predicate Truthful(events: seq<Event>) {
    forall i | 0 <= i < |events| :: events[i].kind == KindFor(events[i].receipt) && events[i].candidateId == events[i].receipt.candidateId
  }

  /** The announcements nobody acknowledged, in order. */
  function Unacked(emitted: seq<Event>, acked: seq<nat>): seq<Event> {
    if emitted == [] then []
    else
      var last := emitted[|emitted| - 1];
      Unacked(emitted[..|emitted| - 1], acked) + if last.number in acked then [] else [last]
  }

  ghost predicate CountersBalance(h: History) {
    && h.ledger.nextEvent == h.ledger.nextReceipt + Decisions(h.ledger.entries)
    && h.ledger.nextEvent == 1 + |h.emitted| + |h.ledger.attempts|
    && |h.emitted| == |h.ledger.outbox| + |h.acked|
  }

  /** The review state of one held candidate. */
  datatype Review = Review(agentId: string, candidateId: string, receipt: Receipt)

  function ReviewsOf(entries: seq<Entry>): (r: seq<Review>)
    ensures |r| == |entries|
    ensures forall i | 0 <= i < |r| :: r[i] == Review(entries[i].agentId, entries[i].candidate.candidateId, entries[i].receipt)
  {
    seq(|entries|, i requires 0 <= i < |entries| =>
                     Review(entries[i].agentId, entries[i].candidate.candidateId, entries[i].receipt))
  }

  /** A consumer's fold: a submission opens a review, any later event rewrites the review that carries
      its receipt number, and events under unknown numbers change nothing. */
  function Consume(reviews: seq<Review>, e: Event): (r: seq<Review>)
    ensures !e.kind.CandidateSubmitted? ==> |r| == |reviews|
  {
    if e.kind.CandidateSubmitted? then reviews + [Review(e.agentId, e.candidateId, e.receipt)]
    else seq(|reviews|, i requires 0 <= i < |reviews| =>
                          if reviews[i].receipt.receiptId == e.receipt.receiptId then reviews[i].(receipt := e.receipt) else reviews[i])
  }

  function Rebuild(emitted: seq<Event>): seq<Review> {
    if emitted == [] then []
    else Consume(Rebuild(emitted[..|emitted| - 1]), emitted[|emitted| - 1])
  }

  function Announcements(emitted: seq<Event>, receiptId: nat): nat {
    if emitted == [] then 0
    else Announcements(emitted[..|emitted| - 1], receiptId) + if emitted[|emitted| - 1].receipt.receiptId == receiptId then 1 else 0
  }

  /** One announcement while pending, two once decided, none for a number not minted yet. */
  ghost predicate AnnouncedOnceEach(h: History) {
    && (forall i | 0 <= i < |h.ledger.entries| ::
          Announcements(h.emitted, h.ledger.entries[i].receipt.receiptId) == if h.ledger.entries[i].receipt.Pending? then 1 else 2)
    && (forall n | n >= h.ledger.nextReceipt :: Announcements(h.emitted, n) == 0)
  }

  ghost predicate EntriesInv(entries: seq<Entry>, nextReceipt: nat) {
    && IdentitiesUnique(entries)
    && LivePayloadsUnique(entries)
    && ReceiptsMinted(entries, nextReceipt)
  }

  ghost predicate TraceInv(h: History) {
    && NumbersFresh(h)
    && CountersBalance(h)
    && Truthful(h.emitted)
    && h.ledger.outbox == Unacked(h.emitted, h.acked)
    && Rebuild(h.emitted) == ReviewsOf(h.ledger.entries)
    && AnnouncedOnceEach(h)
  }

  ghost predicate Inv(h: History) {
    EntriesInv(h.ledger.entries, h.ledger.nextReceipt) && TraceInv(h)
  }

  // ---------------------------------------------------------------- one announcement

  lemma {:induction false} AnnounceUnacked(emitted: seq<Event>, e: Event, acked: seq<nat>)
    requires e.number !in acked
    ensures Unacked(emitted + [e], acked) == Unacked(emitted, acked) + [e]
  {
    assert (emitted + [e])[..|emitted|] == emitted;
  }

  lemma {:induction false} AnnounceReview(emitted: seq<Event>, e: Event)
    ensures Rebuild(emitted + [e]) == Consume(Rebuild(emitted), e)
  {
    assert (emitted + [e])[..|emitted|] == emitted;
  }

  lemma {:induction false} AnnounceCount(emitted: seq<Event>, e: Event, n: nat)
    ensures Announcements(emitted + [e], n) == Announcements(emitted, n) + if e.receipt.receiptId == n then 1 else 0
  {
    assert (emitted + [e])[..|emitted|] == emitted;
  }

  /** The history after one more announcement. */
  function Announced(h: History, e: Event, nextReceipt: nat, entries: seq<Entry>): History {
    History(Ledger(nextReceipt, h.ledger.nextEvent + 1, entries, h.ledger.outbox + [e], h.ledger.attempts), h.emitted + [e], h.acked)
  }

  lemma {:induction false} AnnouncementKeepsNumbers(h: History, e: Event, nextReceipt: nat, entries: seq<Entry>)
    requires NumbersFresh(h) && e.number == h.ledger.nextEvent
    ensures NumbersFresh(Announced(h, e, nextReceipt, entries))
  {
  }

  ghost predicate CountAfter(h: History, e: Event, entry: Entry) {
    Announcements(h.emitted, entry.receipt.receiptId) + (if e.receipt.receiptId == entry.receipt.receiptId then 1 else 0)
    == if entry.receipt.Pending? then 1 else 2
  }

  lemma {:induction false} AnnouncementKeepsCounts(h: History, e: Event, nextReceipt: nat, entries: seq<Entry>)
    requires AnnouncedOnceEach(h) && e.receipt.receiptId < nextReceipt && nextReceipt >= h.ledger.nextReceipt
    requires forall i | 0 <= i < |entries| :: CountAfter(h, e, entries[i])
    ensures AnnouncedOnceEach(Announced(h, e, nextReceipt, entries))
  {
    var after := Announced(h, e, nextReceipt, entries);
    forall i | 0 <= i < |entries|
      ensures Announcements(after.emitted, entries[i].receipt.receiptId) == if entries[i].receipt.Pending? then 1 else 2
    {
      AnnounceCount(h.emitted, e, entries[i].receipt.receiptId);
      assert CountAfter(h, e, entries[i]);
    }
    forall n: nat | n >= nextReceipt
      ensures Announcements(after.emitted, n) == 0
    {
      AnnounceCount(h.emitted, e, n);
    }
  }

  /** One more announcement keeps the trace side of the invariant, given what it means for the
      entries. */
  lemma {:induction false} AnnouncementKeepsTrace(h: History, e: Event, nextReceipt: nat, entries: seq<Entry>)
    requires TraceInv(h) && e.number == h.ledger.nextEvent && nextReceipt >= h.ledger.nextReceipt
    requires e.number + 1 == nextReceipt + Decisions(entries) && e.receipt.receiptId < nextReceipt
    requires e.kind == KindFor(e.receipt) && e.candidateId == e.receipt.candidateId
    requires Consume(Rebuild(h.emitted), e) == ReviewsOf(entries)
    requires forall i | 0 <= i < |entries| :: CountAfter(h, e, entries[i])
    ensures TraceInv(Announced(h, e, nextReceipt, entries))
  {
    AnnounceUnacked(h.emitted, e, h.acked);
    AnnounceReview(h.emitted, e);
    AnnouncementKeepsNumbers(h, e, nextReceipt, entries);
    AnnouncementKeepsCounts(h, e, nextReceipt, entries);
  }

  lemma {:induction false} DecisionsAppend(entries: seq<Entry>, e: Entry)
    ensures Decisions(entries + [e]) == Decisions(entries) + if e.receipt.Pending? then 0 else 1
  {
    assert (entries + [e])[..|entries|] == entries;
  }

  lemma {:induction false} DecisionsUpdate(entries: seq<Entry>, i: nat, e: Entry)
    requires i < |entries| && entries[i].receipt.Pending? && !e.receipt.Pending?
    ensures Decisions(entries[i := e]) == Decisions(entries) + 1
  {
    var last := |entries| - 1;
    if i < last {
      assert entries[i := e][..last] == entries[..last][i := e];
      DecisionsUpdate(entries[..last], i, e);
    } else {
      assert entries[i := e][..last] == entries[..last];
    }
  }

  // ---------------------------------------------------------------- one request

  /** Appending one event to the outbox is announcing it. */
  lemma {:induction false} StepAnnounces(h: History, request: Request, e: Event, nextReceipt: nat, entries: seq<Entry>, response: Response)
    requires !request.AckOutbox? && !response.Acked?
    requires Serve(h.ledger, request) == Served(Announced(h, e, nextReceipt, entries).ledger, response)
    ensures Step(h, request) == Announced(h, e, nextReceipt, entries)
  {
  }

  /** A refusal's event carries a number no held receipt has, so it disturbs no review. */
  lemma {:induction false} RefusalDisturbsNoReview(entries: seq<Entry>, nextReceipt: nat, e: Event)
    requires ReceiptsMinted(entries, nextReceipt) && e.receipt.receiptId == nextReceipt && e.kind.CandidateRejected?
    ensures Consume(ReviewsOf(entries), e) == ReviewsOf(entries)
  {
  }

  lemma {:induction false} RefusalCounts(h: History, e: Event)
    requires AnnouncedOnceEach(h) && ReceiptsMinted(h.ledger.entries, h.ledger.nextReceipt)
    requires e.receipt.receiptId == h.ledger.nextReceipt
    ensures forall i | 0 <= i < |h.ledger.entries| :: CountAfter(h, e, h.ledger.entries[i])
  {
  }

  lemma {:induction false} RefusalKeepsTrace(h: History, e: Event)
    requires TraceInv(h) && ReceiptsMinted(h.ledger.entries, h.ledger.nextReceipt)
    requires e.number == h.ledger.nextEvent && e.receipt.receiptId == h.ledger.nextReceipt
    requires e.kind.CandidateRejected? && e.receipt.Rejected? && e.candidateId == e.receipt.candidateId
    ensures TraceInv(Announced(h, e, h.ledger.nextReceipt + 1, h.ledger.entries))
  {
    RefusalDisturbsNoReview(h.ledger.entries, h.ledger.nextReceipt, e);
    RefusalCounts(h, e);
    AnnouncementKeepsTrace(h, e, h.ledger.nextReceipt + 1, h.ledger.entries);
  }

  lemma {:induction false} RefusalKeepsInv(h: History, request: Request, candidateId: string, reason: string, now: nat)
    requires Inv(h) && request.Submit?
    requires Serve(h.ledger, request) == Refuse(h.ledger, request.agentId, candidateId, reason, now)
    ensures Inv(Step(h, request))
  {
    var receipt := Rejected(candidateId, h.ledger.nextReceipt, reason);
    var e := Event(h.ledger.nextEvent, CandidateRejected, request.agentId, candidateId, receipt, now);
    StepAnnounces(h, request, e, h.ledger.nextReceipt + 1, h.ledger.entries, Answered(receipt));
    RefusalKeepsTrace(h, e);
  }

  /** A verification attempt takes the next event number and leaves the announcements alone. */
  lemma {:induction false} AttemptKeepsTrace(h: History, attempt: Attempt)
    requires TraceInv(h) && attempt.number == h.ledger.nextEvent
    ensures TraceInv(History(h.ledger.(nextReceipt := h.ledger.nextReceipt + 1, nextEvent := h.ledger.nextEvent + 1,
                                       attempts := h.ledger.attempts + [attempt]), h.emitted, h.acked))
  {
    var after := History(h.ledger.(nextReceipt := h.ledger.nextReceipt + 1, nextEvent := h.ledger.nextEvent + 1,
                                   attempts := h.ledger.attempts + [attempt]), h.emitted, h.acked);
    assert NumbersFresh(after) && CountersBalance(after) && AnnouncedOnceEach(after);
  }

  lemma {:induction false} AttemptKeepsInv(h: History, request: Request)
    requires Inv(h) && request.Submit? && request.refusal.Some?
    requires Find(h.ledger.entries, request.agentId, request.candidate.candidateId).None?
    ensures Inv(Step(h, request))
  {
    var c := request.candidate;
    assert Emits(h.ledger, request) == [];
    assert h.emitted + [] == h.emitted;
    AttemptKeepsTrace(h, Attempt(h.ledger.nextEvent, request.agentId, c.candidateId, Label(request.refusal.value), c.attestation, request.now));
  }

  lemma {:induction false} SubmissionKeepsEntries(entries: seq<Entry>, nextReceipt: nat, entry: Entry)
    requires EntriesInv(entries, nextReceipt)
    requires Find(entries, entry.agentId, entry.candidate.candidateId).None?
    requires Duplicate(entries, entry.agentId, entry.payloadDigest).None?
    requires entry.receipt == Pending(entry.candidate.candidateId, nextReceipt)
    ensures EntriesInv(entries + [entry], nextReceipt + 1)
  {
  }

  lemma {:induction false} SubmissionCounts(h: History, entries: seq<Entry>, e: Event)
    requires AnnouncedOnceEach(h) && ReceiptsMinted(h.ledger.entries, h.ledger.nextReceipt)
    requires |entries| == |h.ledger.entries| + 1 && entries[..|h.ledger.entries|] == h.ledger.entries
    requires entries[|h.ledger.entries|].receipt.Pending?
    requires entries[|h.ledger.entries|].receipt.receiptId == e.receipt.receiptId == h.ledger.nextReceipt
    ensures forall i | 0 <= i < |entries| :: CountAfter(h, e, entries[i])
  {
    forall i | 0 <= i < |entries|
      ensures CountAfter(h, e, entries[i])
    {
      if i < |h.ledger.entries| {
        assert entries[i] == h.ledger.entries[i];
      }
    }
  }

  lemma {:induction false} SubmissionOpensReview(entries: seq<Entry>, entry: Entry, e: Event)
    requires e.kind.CandidateSubmitted? && Review(e.agentId, e.candidateId, e.receipt) == Review(entry.agentId, entry.candidate.candidateId, entry.receipt)
    ensures Consume(ReviewsOf(entries), e) == ReviewsOf(entries + [entry])
  {
  }

  /** What a new entry means for the totals and the fold. */
  lemma {:induction false} SubmissionAccounts(h: History, entries: seq<Entry>, entry: Entry, e: Event)
    requires CountersBalance(h) && Rebuild(h.emitted) == ReviewsOf(h.ledger.entries)
    requires entries == h.ledger.entries + [entry] && entry.receipt == Pending(entry.candidate.candidateId, h.ledger.nextReceipt)
    requires e == Event(h.ledger.nextEvent, CandidateSubmitted, entry.agentId, entry.candidate.candidateId, entry.receipt, entry.createdAt)
    ensures e.number + 1 == h.ledger.nextReceipt + 1 + Decisions(entries)
    ensures Consume(Rebuild(h.emitted), e) == ReviewsOf(entries)
  {
    DecisionsAppend(h.ledger.entries, entry);
    SubmissionOpensReview(h.ledger.entries, entry, e);
  }

  lemma {:induction false} SubmissionKeepsTrace(h: History, entries: seq<Entry>, entry: Entry, e: Event)
    requires TraceInv(h) && ReceiptsMinted(h.ledger.entries, h.ledger.nextReceipt)
    requires entries == h.ledger.entries + [entry] && entry.receipt == Pending(entry.candidate.candidateId, h.ledger.nextReceipt)
    requires e == Event(h.ledger.nextEvent, CandidateSubmitted, entry.agentId, entry.candidate.candidateId, entry.receipt, entry.createdAt)
    ensures TraceInv(Announced(h, e, h.ledger.nextReceipt + 1, entries))
  {
    SubmissionAccounts(h, entries, entry, e);
    SubmissionCounts(h, entries, e);
    AnnouncementKeepsTrace(h, e, h.ledger.nextReceipt + 1, entries);
  }

  /** Serving a new submission is announcing it. */
  lemma {:induction false} SubmissionStep(h: History, request: Request, entry: Entry, e: Event)
    requires request.Submit? && request.refusal.None?
    requires Find(h.ledger.entries, request.agentId, request.candidate.candidateId).None?
    requires Duplicate(h.ledger.entries, request.agentId, request.digest).None?
    requires entry == Entry(request.agentId, request.candidate, request.digest, Pending(request.candidate.candidateId, h.ledger.nextReceipt), request.now, request.now)
    requires e == Event(h.ledger.nextEvent, CandidateSubmitted, entry.agentId, entry.candidate.candidateId, entry.receipt, entry.createdAt)
    ensures Step(h, request) == Announced(h, e, h.ledger.nextReceipt + 1, h.ledger.entries + [entry])
  {
    StepAnnounces(h, request, e, h.ledger.nextReceipt + 1, h.ledger.entries + [entry], Answered(entry.receipt));
  }

  lemma {:induction false} SubmissionKeepsInv(h: History, request: Request)
    requires Inv(h) && request.Submit? && request.refusal.None?
    requires Find(h.ledger.entries, request.agentId, request.candidate.candidateId).None?
    requires Duplicate(h.ledger.entries, request.agentId, request.digest).None?
    ensures Inv(Step(h, request))
  {
    var receipt := Pending(request.candidate.candidateId, h.ledger.nextReceipt);
    var entry := Entry(request.agentId, request.candidate, request.digest, receipt, request.now, request.now);
    var e := Event(h.ledger.nextEvent, CandidateSubmitted, entry.agentId, entry.candidate.candidateId, entry.receipt, entry.createdAt);
    SubmissionStep(h, request, entry, e);
    SubmissionKeepsTrace(h, h.ledger.entries + [entry], entry, e);
    SubmissionKeepsEntries(h.ledger.entries, h.ledger.nextReceipt, entry);
  }

  /** A decision keeps an entry's identity and receipt number and never opens a live payload. */
  lemma {:induction false} DecisionKeepsEntries(entries: seq<Entry>, nextReceipt: nat, i: nat, receipt: Receipt, now: nat)
    requires EntriesInv(entries, nextReceipt) && i < |entries| && entries[i].receipt.Pending?
    requires receipt.receiptId == entries[i].receipt.receiptId && receipt.candidateId == entries[i].receipt.candidateId
    ensures EntriesInv(entries[i := entries[i].(receipt := receipt, updatedAt := now)], nextReceipt)
  {
  }

  /** A decision rewrites exactly the review that carries its receipt number. */
  lemma {:induction false} DecisionRewritesOneReview(entries: seq<Entry>, nextReceipt: nat, i: nat, entry: Entry, e: Event)
    requires ReceiptsMinted(entries, nextReceipt) && i < |entries| && !e.kind.CandidateSubmitted?
    requires e.receipt == entry.receipt && entry.receipt.receiptId == entries[i].receipt.receiptId
    requires entry.agentId == entries[i].agentId && entry.candidate == entries[i].candidate
    ensures Consume(ReviewsOf(entries), e) == ReviewsOf(entries[i := entry])
  {
  }

  lemma {:induction false} DecisionCounts(h: History, i: nat, entries: seq<Entry>, e: Event)
    requires AnnouncedOnceEach(h) && ReceiptsMinted(h.ledger.entries, h.ledger.nextReceipt)
    requires i < |h.ledger.entries| && h.ledger.entries[i].receipt.Pending? && |entries| == |h.ledger.entries|
    requires !entries[i].receipt.Pending? && entries[i].receipt.receiptId == e.receipt.receiptId == h.ledger.entries[i].receipt.receiptId
    requires forall j | 0 <= j < |entries| && j != i :: entries[j] == h.ledger.entries[j]
    ensures forall j | 0 <= j < |entries| :: CountAfter(h, e, entries[j])
  {
    forall j | 0 <= j < |entries|
      ensures CountAfter(h, e, entries[j])
    {
      assert Announcements(h.emitted, h.ledger.entries[j].receipt.receiptId) == if h.ledger.entries[j].receipt.Pending? then 1 else 2;
    }
  }

  lemma {:induction false} DecisionKeepsTrace(h: History, i: nat, entry: Entry, e: Event)
    requires TraceInv(h) && ReceiptsMinted(h.ledger.entries, h.ledger.nextReceipt)
    requires i < |h.ledger.entries| && h.ledger.entries[i].receipt.Pending? && !entry.receipt.Pending?
    requires entry.agentId == h.ledger.entries[i].agentId && entry.candidate == h.ledger.entries[i].candidate
    requires entry.receipt.receiptId == h.ledger.entries[i].receipt.receiptId
    requires e.number == h.ledger.nextEvent && e.receipt == entry.receipt
    requires e.kind == KindFor(e.receipt) && e.candidateId == e.receipt.candidateId
    ensures TraceInv(Announced(h, e, h.ledger.nextReceipt, h.ledger.entries[i := entry]))
  {
    DecisionsUpdate(h.ledger.entries, i, entry);
    DecisionRewritesOneReview(h.ledger.entries, h.ledger.nextReceipt, i, entry, e);
    DecisionCounts(h, i, h.ledger.entries[i := entry], e);
    AnnouncementKeepsTrace(h, e, h.ledger.nextReceipt, h.ledger.entries[i := entry]);
  }

  /** Serving a decision is announcing it. */
  lemma {:induction false} DecisionStep(h: History, request: Request, i: nat, entry: Entry, e: Event)
    requires request.Resolve? && Find(h.ledger.entries, request.agentId, request.candidateId) == Some(i) && h.ledger.entries[i].receipt.Pending?
    requires entry == h.ledger.entries[i].(receipt := Decided(h.ledger.entries[i].receipt, request.candidateId, request.resolution), updatedAt := request.now)
    requires e == Event(h.ledger.nextEvent, KindFor(entry.receipt), request.agentId, request.candidateId, entry.receipt, request.now)
    ensures Step(h, request) == Announced(h, e, h.ledger.nextReceipt, h.ledger.entries[i := entry])
  {
    StepAnnounces(h, request, e, h.ledger.nextReceipt, h.ledger.entries[i := entry], Answered(entry.receipt));
  }

  lemma {:induction false} DecisionKeepsInv(h: History, request: Request, i: nat)
    requires Inv(h) && request.Resolve?
    requires Find(h.ledger.entries, request.agentId, request.candidateId) == Some(i) && h.ledger.entries[i].receipt.Pending?
    ensures Inv(Step(h, request))
  {
    var receipt := Decided(h.ledger.entries[i].receipt, request.candidateId, request.resolution);
    var entry := h.ledger.entries[i].(receipt := receipt, updatedAt := request.now);
    var e := Event(h.ledger.nextEvent, KindFor(entry.receipt), request.agentId, request.candidateId, entry.receipt, request.now);
    DecisionStep(h, request, i, entry, e);
    DecisionKeepsTrace(h, i, entry, e);
    DecisionKeepsEntries(h.ledger.entries, h.ledger.nextReceipt, i, receipt, request.now);
  }

  lemma {:induction false} WithoutAppend(a: seq<Event>, b: seq<Event>, number: nat)
    ensures Without(a + b, number) == Without(a, number) + Without(b, number)
  {
    if a == [] {
      assert a + b == b;
    } else {
      assert (a + b)[1..] == a[1..] + b;
      WithoutAppend(a[1..], b, number);
    }
  }

  lemma {:induction false} AckFilters(emitted: seq<Event>, acked: seq<nat>, number: nat)
    ensures Unacked(emitted, acked + [number]) == Without(Unacked(emitted, acked), number)
  {
    if emitted != [] {
      var init, last := emitted[..|emitted| - 1], emitted[|emitted| - 1];
      AckFilters(init, acked, number);
      WithoutAppend(Unacked(init, acked), if last.number in acked then [] else [last], number);
    }
  }

  lemma {:induction false} UnackedMembers(emitted: seq<Event>, acked: seq<nat>)
    ensures forall e :: e in Unacked(emitted, acked) <==> e in emitted && e.number !in acked
  {
    if emitted != [] {
      UnackedMembers(emitted[..|emitted| - 1], acked);
      assert emitted == emitted[..|emitted| - 1] + [emitted[|emitted| - 1]];
    }
  }

  lemma {:induction false} UnackedIncreasing(emitted: seq<Event>, acked: seq<nat>)
    requires Increasing(emitted)
    ensures Increasing(Unacked(emitted, acked))
  {
    if emitted != [] {
      var init, last := emitted[..|emitted| - 1], emitted[|emitted| - 1];
      UnackedIncreasing(init, acked);
      UnackedMembers(init, acked);
      var u := Unacked(init, acked);
      forall i | 0 <= i < |u|
        ensures u[i].number < last.number
      {
        assert u[i] in init;
      }
    }
  }

  /** Event numbers are unique in the outbox, so an acknowledgement removes exactly one event. */
  lemma {:induction false} AckRemovesOne(outbox: seq<Event>, number: nat)
    requires Increasing(outbox)
    ensures |Without(outbox, number)| == |outbox| - if exists e | e in outbox :: e.number == number then 1 else 0
  {
    if outbox != [] {
      AckRemovesOne(outbox[1..], number);
      assert forall e :: e in outbox <==> e == outbox[0] || e in outbox[1..];
      if outbox[0].number == number {
        assert forall e | e in outbox[1..] :: e.number != number;
        assert outbox[0] in outbox;
      }
    }
  }

  lemma {:induction false} AckedKeepsTrace(h: History, number: nat)
    requires TraceInv(h) && |Without(h.ledger.outbox, number)| != |h.ledger.outbox|
    ensures TraceInv(History(h.ledger.(outbox := Without(h.ledger.outbox, number)), h.emitted, h.acked + [number]))
  {
    AckFilters(h.emitted, h.acked, number);
    UnackedIncreasing(h.emitted, h.acked);
    UnackedMembers(h.emitted, h.acked);
    AckRemovesOne(h.ledger.outbox, number);
    var e :| e in h.ledger.outbox && e.number == number;
    assert e in h.emitted;
  }

  /** A request that leaves the ledger alone leaves the history alone. */
  lemma {:induction false} IdleStep(h: History, request: Request)
    requires Serve(h.ledger, request).ledger == h.ledger && Serve(h.ledger, request).response != Acked(true)
    ensures Step(h, request) == h
  {
    assert h.emitted + [] == h.emitted;
  }

  lemma {:induction false} AckKeepsInv(h: History, request: Request)
    requires Inv(h) && request.AckOutbox?
    ensures Inv(Step(h, request))
  {
    if |Without(h.ledger.outbox, request.number)| == |h.ledger.outbox| {
      NothingWithout(h.ledger.outbox, request.number);
      IdleStep(h, request);
    } else {
      assert h.emitted + [] == h.emitted;
      AckedKeepsTrace(h, request.number);
    }
  }

  lemma {:induction false} SubmitKeepsInv(h: History, request: Request)
    requires Inv(h) && request.Submit?
    ensures Inv(Step(h, request))
  {
    var held := Find(h.ledger.entries, request.agentId, request.candidate.candidateId);
    var duplicate := Duplicate(h.ledger.entries, request.agentId, request.digest);
    if held.Some? {
      var e := h.ledger.entries[held.value];
      if e.payloadDigest == request.digest && e.candidate.source == request.candidate.source {
        IdleStep(h, request);
      } else {
        RefusalKeepsInv(h, request, request.candidate.candidateId, CONFLICT, request.now);
      }
    } else if request.refusal.Some? {
      AttemptKeepsInv(h, request);
    } else if duplicate.Some? {
      RefusalKeepsInv(h, request, request.candidate.candidateId, duplicate.value, request.now);
    } else {
      SubmissionKeepsInv(h, request);
    }
  }

  lemma {:induction false} StepKeepsInv(h: History, request: Request)
    requires Inv(h)
    ensures Inv(Step(h, request))
  {
    match request {
      case Submit(_, _, _, _, _) => SubmitKeepsInv(h, request);
      case Resolve(agentId, candidateId, _, _) =>
        var held := Find(h.ledger.entries, agentId, candidateId);
        if held.Some? && h.ledger.entries[held.value].receipt.Pending? {
          DecisionKeepsInv(h, request, held.value);
        } else {
          IdleStep(h, request);
        }
      case AckOutbox(_) => AckKeepsInv(h, request);
      case ListEntries(_) => IdleStep(h, request);
      case ListOutbox(_) => IdleStep(h, request);
    }
  }

  /** Every run keeps every part of the invariant. */
  lemma {:induction false} RunKeepsInv(requests: seq<Request>)
    ensures Inv(Run(requests)) && Run(requests).ledger == Exec(EMPTY, requests)
  {
    if requests != [] {
      RunKeepsInv(requests[..|requests| - 1]);
      StepKeepsInv(Run(requests[..|requests| - 1]), requests[|requests| - 1]);
    }
  }

  // ---------------------------------------------------------------- the properties, one by one

  /** In every reachable ledger an agent's candidate id names at most one entry, and an agent's
      payload is pending or accepted in at most one entry. */
  lemma {:induction false} Deduplication(requests: seq<Request>)
    ensures var entries := Exec(EMPTY, requests).entries;
            && (forall i, j | 0 <= i < |entries| && 0 <= j < |entries| && entries[i].agentId == entries[j].agentId
                  && entries[i].candidate.candidateId == entries[j].candidate.candidateId :: i == j)
            && (forall i, j | 0 <= i < |entries| && 0 <= j < |entries| && entries[i].agentId == entries[j].agentId
                  && entries[i].payloadDigest == entries[j].payloadDigest
                  && !entries[i].receipt.Rejected? && !entries[j].receipt.Rejected? :: i == j)
  {
    RunKeepsInv(requests);
    var entries := Exec(EMPTY, requests).entries;
    assert IdentitiesUnique(entries) && LivePayloadsUnique(entries);
    forall i, j | 0 <= i < j < |entries| && entries[i].agentId == entries[j].agentId
      ensures entries[i].candidate.candidateId != entries[j].candidate.candidateId
      ensures entries[i].payloadDigest == entries[j].payloadDigest ==> entries[i].receipt.Rejected? || entries[j].receipt.Rejected?
    {
      assert !Names(entries[j], entries[i].agentId, entries[i].candidate.candidateId);
      if !entries[i].receipt.Rejected? {
        assert DuplicateReason(entries[i].receipt).Some?;
        assert !Blocks(entries[j], entries[i].agentId, entries[i].payloadDigest);
      }
    }
  }

  /** Exactly when a submission opens a review: its id is new to the agent, admission lets it through,
      and no pending or accepted entry of the agent holds its payload. A rejected one does not block. */
  lemma {:induction false} OpensReview(l: Ledger, agentId: string, c: Candidate, digest: string, refusal: Option<AttestationCode>, now: nat)
    ensures var served := Serve(l, Submit(agentId, c, digest, refusal, now));
            |served.ledger.entries| > |l.entries| <==>
              && refusal.None?
              && (forall i | 0 <= i < |l.entries| && l.entries[i].agentId == agentId ::
                    && l.entries[i].candidate.candidateId != c.candidateId
                    && (l.entries[i].payloadDigest == digest ==> l.entries[i].receipt.Rejected?))
  {
    var held := Find(l.entries, agentId, c.candidateId);
    if held.None? {
      assert forall i | 0 <= i < |l.entries| :: !Names(l.entries[i], agentId, c.candidateId);
      if Duplicate(l.entries, agentId, digest).Some? {
        var i :| 0 <= i < |l.entries| && Blocks(l.entries[i], agentId, digest);
      } else {
        assert forall i | 0 <= i < |l.entries| :: !Blocks(l.entries[i], agentId, digest);
      }
    }
  }

  /** What a verification attempt records, its number aside. */
  datatype Refusal = Refusal(agentId: string, candidateId: string, reasonCode: string, attestation: Option<string>, occurredAt: nat)

  function RefusalsIn(attempts: seq<Attempt>): seq<Refusal> {
    seq(|attempts|, i requires 0 <= i < |attempts| =>
                      Refusal(attempts[i].agentId, attempts[i].candidateId, attempts[i].reasonCode, attempts[i].attestation, attempts[i].occurredAt))
  }

  /** A submission answered with a newly numbered rejection for none of the ledger's own reasons. */
  predicate TurnedAway(l: Ledger, request: Request) {
    var answer := Serve(l, request).response;
    && request.Submit? && answer.Answered? && answer.receipt.Rejected? && answer.receipt.receiptId == l.nextReceipt
    && answer.receipt.reasonCode !in {CONFLICT, PENDING_REVIEW, REMEMBERED}
  }

  /** The submissions of a run that were turned away, in order, as the answers tell it. */
  function RefusalsAnswered(requests: seq<Request>): seq<Refusal> {
    if requests == [] then []
    else
      var before, last := requests[..|requests| - 1], requests[|requests| - 1];
      var l := Exec(EMPTY, before);
      RefusalsAnswered(before)
      + if TurnedAway(l, last)
        then [Refusal(last.agentId, last.candidate.candidateId, Serve(l, last).response.receipt.reasonCode, last.candidate.attestation, last.now)]
        else []
  }

  /** Verification attempts are written exactly for submissions refused at admission. */
  lemma {:induction false} AttemptStep(l: Ledger, request: Request)
    requires ReceiptsMinted(l.entries, l.nextReceipt)
    ensures var served := Serve(l, request);
            if TurnedAway(l, request) then
              served.ledger.attempts == l.attempts
                + [Attempt(l.nextEvent, request.agentId, request.candidate.candidateId, served.response.receipt.reasonCode, request.candidate.attestation, request.now)]
            else served.ledger.attempts == l.attempts
    ensures Serve(l, request).ledger.nextEvent >= l.nextEvent + if TurnedAway(l, request) then 1 else 0
  {
  }

  /** In every reachable ledger the verification attempts are exactly the submissions answered with an
      admission refusal so far, in order, each with the reason its client was given, under increasing
      numbers. Conflicts and duplicates leave none. */
  lemma {:induction false} AttemptsAreRefusals(requests: seq<Request>)
    ensures var l := Exec(EMPTY, requests);
            && RefusalsIn(l.attempts) == RefusalsAnswered(requests)
            && (forall i, j | 0 <= i < j < |l.attempts| :: l.attempts[i].number < l.attempts[j].number)
            && (forall i | 0 <= i < |l.attempts| :: l.attempts[i].number < l.nextEvent)
  {
    if requests != [] {
      var before, last := requests[..|requests| - 1], requests[|requests| - 1];
      AttemptsAreRefusals(before);
      ReachableMinted(before);
      AttemptStep(Exec(EMPTY, before), last);
      assert Exec(EMPTY, requests) == Serve(Exec(EMPTY, before), last).ledger;
    }
  }

  /** The announcements of a run grow by what its last request emits. */
  lemma {:induction false} EmittedGrows(requests: seq<Request>)
    requires requests != []
    ensures var before := requests[..|requests| - 1];
            Run(requests).emitted == Run(before).emitted + Emits(Exec(EMPTY, before), requests[|requests| - 1])
  {
    RunKeepsInv(requests[..|requests| - 1]);
  }

  lemma {:induction false} ReachableMinted(requests: seq<Request>)
    ensures ReceiptsMinted(Exec(EMPTY, requests).entries, Exec(EMPTY, requests).nextReceipt)
  {
    RunKeepsInv(requests);
  }

  /** Counters are conserved over every run: receipts and decisions account for every event number,
      and so do waiting, acknowledged and refused-at-admission ones. */
  lemma {:induction false} CounterConservation(requests: seq<Request>)
    ensures var h := Run(requests);
            && h.ledger == Exec(EMPTY, requests)
            && h.ledger.nextEvent == h.ledger.nextReceipt + Decisions(h.ledger.entries)
            && h.ledger.nextEvent - 1 == |h.ledger.outbox| + |h.acked| + |h.ledger.attempts|
            && Increasing(h.ledger.outbox)
            && (forall i, j | 0 <= i < |h.ledger.outbox| && 0 <= j < |h.ledger.attempts| ::
                  h.ledger.outbox[i].number != h.ledger.attempts[j].number)
  {
    RunKeepsInv(requests);
    var h := Run(requests);
    UnackedIncreasing(h.emitted, h.acked);
    UnackedMembers(h.emitted, h.acked);
    forall i, j | 0 <= i < |h.ledger.outbox| && 0 <= j < |h.ledger.attempts|
      ensures h.ledger.outbox[i].number != h.ledger.attempts[j].number
    {
      assert h.ledger.outbox[i] in h.emitted;
    }
  }

  /** In every reachable ledger an acknowledgement takes away exactly the one event of that number, or
      reports that there is none. */
  lemma {:induction false} AckExact(requests: seq<Request>, number: nat)
    ensures var before := Exec(EMPTY, requests);
            var served := Serve(before, AckOutbox(number));
            var present := exists e | e in before.outbox :: e.number == number;
            && served.response == Acked(present)
            && (if present then exists i | 0 <= i < |before.outbox| :: TakesAway(before.outbox, i, number, served.ledger.outbox)
                else served.ledger.outbox == before.outbox)
            && served.ledger == before.(outbox := served.ledger.outbox)
  {
    RunKeepsInv(requests);
    var outbox := Exec(EMPTY, requests).outbox;
    UnackedIncreasing(Run(requests).emitted, Run(requests).acked);
    AckRemovesOne(outbox, number);
    if e :| e in outbox && e.number == number {
      var i := AckTakesAway(outbox, number);
    } else {
      NothingWithout(outbox, number);
    }
  }

  /** The event at `i`, and it alone, is gone. */
  ghost predicate TakesAway(outbox: seq<Event>, i: nat, number: nat, after: seq<Event>)
    requires i < |outbox|
  {
    outbox[i].number == number && after == outbox[..i] + outbox[i + 1..]
  }

  lemma {:induction false} AckTakesAway(outbox: seq<Event>, number: nat) returns (i: nat)
    requires Increasing(outbox) && exists e | e in outbox :: e.number == number
    ensures i < |outbox| && TakesAway(outbox, i, number, Without(outbox, number))
  {
    i :| 0 <= i < |outbox| && outbox[i].number == number;
    WithoutMiddle(outbox[..i], outbox[i], outbox[i + 1..]);
    assert outbox == outbox[..i] + [outbox[i]] + outbox[i + 1..];
  }

  lemma {:induction false} WithoutMiddle(before: seq<Event>, e: Event, after: seq<Event>)
    requires forall x | x in before || x in after :: x.number != e.number
    ensures Without(before + [e] + after, e.number) == before + after
  {
    WithoutAppend(before + [e], after, e.number);
    WithoutAppend(before, [e], e.number);
    WithoutUnchanged(before, e.number);
    WithoutUnchanged(after, e.number);
    assert Without([e], e.number) == [];
  }

  /** Over every run, a consumer that folds all announcements rebuilds exactly the held candidates with
      their current receipts; refusals leave no trace in that fold. The outbox is what it has not
      acknowledged yet. */
  lemma {:induction false} OutboxFidelity(requests: seq<Request>)
    ensures var h := Run(requests);
            && Rebuild(h.emitted) == ReviewsOf(h.ledger.entries)
            && h.ledger.outbox == Unacked(h.emitted, h.acked)
            && Truthful(h.emitted)
            && (forall i | 0 <= i < |h.ledger.entries| ::
                  Announcements(h.emitted, h.ledger.entries[i].receipt.receiptId) == if h.ledger.entries[i].receipt.Pending? then 1 else 2)
  {
    RunKeepsInv(requests);
  }
}
