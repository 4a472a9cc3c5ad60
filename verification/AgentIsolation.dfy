/** Agents do not interfere: what one agent sees of the shared ledger is what a private ledger, fed
    only that agent's requests, would show it. Receipt and event numbers come from shared counters
    and are left out of the view. */
module AgentIsolation {
  import opened Wrappers
  import opened CandidateLedger
  import LedgerRuns

  datatype Status = InReview | Remembered(recordRef: string, digest: string) | Declined(reasonCode: string)

  function StatusOf(r: Receipt): Status {
    match r
    case Pending(_, _) => InReview
    case Accepted(_, _, recordRef, digest) => Remembered(recordRef, digest)
    case Rejected(_, _, reasonCode) => Declined(reasonCode)
  }

  datatype Item = Item(candidate: Candidate, payloadDigest: string, status: Status, createdAt: nat, updatedAt: nat)

  function ItemOf(e: Entry): Item {
    Item(e.candidate, e.payloadDigest, StatusOf(e.receipt), e.createdAt, e.updatedAt)
  }

  /** One agent's entries, in order, without receipt numbers. */
  function ViewOf(entries: seq<Entry>, agentId: string): seq<Item> {
    if entries == [] then []
    else if entries[0].agentId == agentId then [ItemOf(entries[0])] + ViewOf(entries[1..], agentId)
    else ViewOf(entries[1..], agentId)
  }

  datatype Answer = Answer(candidateId: string, status: Status) | NoSuchCandidate

  function AnswerOf(r: Response): Answer
    requires r.Answered? || r.UnknownCandidate?
  {
    if r.Answered? then Answer(r.receipt.candidateId, StatusOf(r.receipt)) else NoSuchCandidate
  }

  // ---------------------------------------------------------------- the private ledger

  function Position(view: seq<Item>, candidateId: string): (r: Option<nat>)
    ensures r.Some? ==> r.value < |view|
  {
    if view == [] then None
    else if view[0].candidate.candidateId == candidateId then Some(0)
    else match Position(view[1..], candidateId)
      case None => None
      case Some(k) => Some(k + 1)
  }

  function Taken(view: seq<Item>, digest: string): Option<string> {
    if view == [] then None
    else if view[0].payloadDigest == digest && !view[0].status.Declined? then
      Some(if view[0].status.InReview? then PENDING_REVIEW else REMEMBERED)
    else Taken(view[1..], digest)
  }

  datatype Shown = Shown(view: seq<Item>, answer: Answer)

  predicate OwnRequest(request: Request, agentId: string) {
    (request.Submit? || request.Resolve?) && request.agentId == agentId
  }

  function ServePrivately(view: seq<Item>, request: Request): Shown
    requires request.Submit? || request.Resolve?
  {
    match request
    case Submit(_, c, digest, refusal, now) =>
      var k := Position(view, c.candidateId);
      if k.Some? then
        if view[k.value].payloadDigest == digest && view[k.value].candidate.source == c.source
        then Shown(view, Answer(c.candidateId, view[k.value].status))
        else Shown(view, Answer(c.candidateId, Declined(CONFLICT)))
      else if refusal.Some? then Shown(view, Answer(c.candidateId, Declined(Label(refusal.value))))
      else if Taken(view, digest).Some? then Shown(view, Answer(c.candidateId, Declined(Taken(view, digest).value)))
      else Shown(view + [Item(c, digest, InReview, now, now)], Answer(c.candidateId, InReview))
    case Resolve(_, candidateId, resolution, now) =>
      var k := Position(view, candidateId);
      if k.None? then Shown(view, NoSuchCandidate)
      else if !view[k.value].status.InReview? then Shown(view, Answer(candidateId, view[k.value].status))
      else
        var status := match resolution case Accept(recordRef, digest) => Remembered(recordRef, digest) case Reject(code) => Declined(code);
        Shown(view[k.value := view[k.value].(status := status, updatedAt := now)], Answer(candidateId, status))
  }

  // ---------------------------------------------------------------- views of lookups and edits

  lemma {:induction false} ViewAppend(a: seq<Entry>, b: seq<Entry>, agentId: string)
    ensures ViewOf(a + b, agentId) == ViewOf(a, agentId) + ViewOf(b, agentId)
  {
    if a == [] {
      assert a + b == b;
    } else {
      assert (a + b)[1..] == a[1..] + b;
      ViewAppend(a[1..], b, agentId);
    }
  }

  lemma {:induction false} TakenIsDuplicate(entries: seq<Entry>, agentId: string, digest: string)
    ensures Taken(ViewOf(entries, agentId), digest) == Duplicate(entries, agentId, digest)
  {
    if entries != [] {
      TakenIsDuplicate(entries[1..], agentId, digest);
      if entries[0].agentId == agentId {
        assert ViewOf(entries, agentId)[1..] == ViewOf(entries[1..], agentId);
      }
    }
  }

  lemma {:induction false} NotInView(entries: seq<Entry>, agentId: string, candidateId: string)
    requires forall i | 0 <= i < |entries| :: !Names(entries[i], agentId, candidateId)
    ensures Position(ViewOf(entries, agentId), candidateId).None?
  {
    if entries != [] {
      assert forall i | 0 <= i < |entries| - 1 :: entries[1..][i] == entries[i + 1];
      NotInView(entries[1..], agentId, candidateId);
      assert !Names(entries[0], agentId, candidateId);
      if entries[0].agentId == agentId {
        assert ViewOf(entries, agentId)[1..] == ViewOf(entries[1..], agentId);
      }
    }
  }

  lemma {:induction false} PositionAppend(a: seq<Item>, b: seq<Item>, candidateId: string)
    requires Position(a, candidateId).None? && b != [] && b[0].candidate.candidateId == candidateId
    ensures Position(a + b, candidateId) == Some(|a|)
  {
    if a == [] {
      assert a + b == b;
    } else {
      assert (a + b)[1..] == a[1..] + b;
      PositionAppend(a[1..], b, candidateId);
    }
  }

  /** A view around one of the agent's own entries. */
  lemma {:induction false} ViewAround(before: seq<Entry>, e: Entry, after: seq<Entry>, agentId: string)
    requires e.agentId == agentId
    ensures ViewOf(before + [e] + after, agentId) == ViewOf(before, agentId) + [ItemOf(e)] + ViewOf(after, agentId)
  {
    ViewAppend(before + [e], after, agentId);
    ViewAppend(before, [e], agentId);
    assert ViewOf([e], agentId) == [ItemOf(e)];
  }

  /** The entry found in the ledger is the item found in the view, and editing one edits the other. */
  lemma {:induction false} FoundInView(entries: seq<Entry>, agentId: string, candidateId: string, edited: Entry)
    requires Find(entries, agentId, candidateId).Some? && edited.agentId == agentId
    ensures var i := Find(entries, agentId, candidateId).value;
            var view := ViewOf(entries, agentId);
            var k := Position(view, candidateId);
            && k.Some? && view[k.value] == ItemOf(entries[i])
            && ViewOf(entries[i := edited], agentId) == view[k.value := ItemOf(edited)]
  {
    var i := Find(entries, agentId, candidateId).value;
    var before, after := entries[..i], entries[i + 1..];
    assert entries == before + [entries[i]] + after && entries[i := edited] == before + [edited] + after;
    ViewAround(before, entries[i], after, agentId);
    ViewAround(before, edited, after, agentId);
    NotInView(before, agentId, candidateId);
    var a, b := ViewOf(before, agentId), [ItemOf(entries[i])] + ViewOf(after, agentId);
    PositionAppend(a, b, candidateId);
    assert ViewOf(entries, agentId) == a + b;
  }

  // ---------------------------------------------------------------- one request

  lemma {:induction false} OwnSubmit(l: Ledger, request: Request)
    requires request.Submit? && ReceiptsNameCandidates(l.entries)
    ensures var served := Serve(l, request);
            Shown(ViewOf(served.ledger.entries, request.agentId), AnswerOf(served.response))
            == ServePrivately(ViewOf(l.entries, request.agentId), request)
  {
    var agentId, c := request.agentId, request.candidate;
    TakenIsDuplicate(l.entries, agentId, request.digest);
    var held := Find(l.entries, agentId, c.candidateId);
    if held.Some? {
      FoundInView(l.entries, agentId, c.candidateId, l.entries[held.value]);
    } else {
      NotInView(l.entries, agentId, c.candidateId);
      var entry := Entry(agentId, c, request.digest, Pending(c.candidateId, l.nextReceipt), request.now, request.now);
      ViewAppend(l.entries, [entry], agentId);
      assert ViewOf([entry], agentId) == [ItemOf(entry)];
    }
  }

  lemma {:induction false} OwnResolve(l: Ledger, request: Request)
    requires request.Resolve? && ReceiptsNameCandidates(l.entries)
    ensures var served := Serve(l, request);
            Shown(ViewOf(served.ledger.entries, request.agentId), AnswerOf(served.response))
            == ServePrivately(ViewOf(l.entries, request.agentId), request)
  {
    var held := Find(l.entries, request.agentId, request.candidateId);
    if held.Some? {
      var e := l.entries[held.value];
      var edited := e.(receipt := Decided(e.receipt, request.candidateId, request.resolution), updatedAt := request.now);
      FoundInView(l.entries, request.agentId, request.candidateId, edited);
    } else {
      NotInView(l.entries, request.agentId, request.candidateId);
    }
  }

  lemma {:induction false} EditInvisible(entries: seq<Entry>, i: nat, edited: Entry, agentId: string)
    requires i < |entries| && edited.agentId == entries[i].agentId != agentId
    ensures ViewOf(entries[i := edited], agentId) == ViewOf(entries, agentId)
  {
    if i == 0 {
      assert entries[i := edited][1..] == entries[1..];
    } else {
      assert entries[i := edited][1..] == entries[1..][i - 1 := edited];
      EditInvisible(entries[1..], i - 1, edited, agentId);
    }
  }

  /** Another agent's request, or an acknowledgement or listing, leaves the agent's entries alone. */
  lemma {:induction false} OthersInvisible(l: Ledger, request: Request, agentId: string)
    requires !OwnRequest(request, agentId)
    ensures ViewOf(Serve(l, request).ledger.entries, agentId) == ViewOf(l.entries, agentId)
  {
    var after := Serve(l, request).ledger;
    if request.Submit? && |after.entries| > |l.entries| {
      ViewAppend(l.entries, [after.entries[|l.entries|]], agentId);
    } else if request.Resolve? && Find(l.entries, request.agentId, request.candidateId).Some? {
      var i := Find(l.entries, request.agentId, request.candidateId).value;
      assert after.entries == l.entries[i := after.entries[i]];
      EditInvisible(l.entries, i, after.entries[i], agentId);
    }
  }

  /** What others can do to an agent's outbox view: an acknowledgement names no agent, so anyone's takes
      away the agent's event of that number; nothing else takes or adds any. */
  lemma {:induction false} OthersOutboxEffect(l: Ledger, request: Request, agentId: string)
    requires !OwnRequest(request, agentId)
    ensures var view := EventsOf(l.outbox, Some(agentId));
            var after := EventsOf(Serve(l, request).ledger.outbox, Some(agentId));
            && after == (if request.AckOutbox? then Without(view, request.number) else view)
            && (after == view <==> !(request.AckOutbox? && exists e | e in view :: e.number == request.number))
  {
    var after := Serve(l, request).ledger;
    if request.AckOutbox? {
      ViewWithout(l.outbox, request.number, agentId);
      WithoutUnchanged(EventsOf(l.outbox, Some(agentId)), request.number);
    } else if |after.outbox| > |l.outbox| {
      var e := after.outbox[|l.outbox|];
      assert after.outbox == l.outbox + [e];
      OutboxAppend(l.outbox, [e], agentId);
    }
  }

  lemma {:induction false} ViewWithout(outbox: seq<Event>, number: nat, agentId: string)
    ensures EventsOf(Without(outbox, number), Some(agentId)) == Without(EventsOf(outbox, Some(agentId)), number)
  {
    if outbox != [] {
      ViewWithout(outbox[1..], number, agentId);
    }
  }

  /** It does happen: with the events of two agents waiting, one acknowledgement that says nothing of
      who sends it empties the first agent's outbox view. */
  lemma {:induction false} AcknowledgementCrossesAgents(alice: string, bob: string, c: Candidate, digest: string, now: nat) returns (requests: seq<Request>)
    requires alice != bob
    ensures requests == [Submit(alice, c, digest, None, now), Submit(bob, c, digest, None, now)]
    ensures var l := Exec(EMPTY, requests);
            && |EventsOf(l.outbox, Some(alice))| == 1 == |EventsOf(l.outbox, Some(bob))|
            && EventsOf(Serve(l, AckOutbox(1)).ledger.outbox, Some(alice)) == []
            && EventsOf(Serve(l, AckOutbox(1)).ledger.outbox, Some(bob)) == EventsOf(l.outbox, Some(bob))
  {
    var first, second := Submit(alice, c, digest, None, now), Submit(bob, c, digest, None, now);
    requests := [first, second];
    var one := Serve(EMPTY, first).ledger;
    var a := NewcomerAnnounced(EMPTY, first);
    var b := NewcomerAnnounced(one, second);
    assert requests[..1][..0] == [];
    assert Exec(EMPTY, requests[..1]) == one;
    assert Exec(EMPTY, requests).outbox == [a, b];
    assert [a, b][1..] == [b] && [b][1..] == [];
    assert EventsOf([b], Some(alice)) == [] && EventsOf([b], Some(bob)) == [b];
    assert Without([b], 1) == [b] && Without([a, b], 1) == [b];
  }

  lemma {:induction false} NewcomerAnnounced(l: Ledger, request: Request) returns (e: Event)
    requires request.Submit? && request.refusal.None? && forall i | 0 <= i < |l.entries| :: l.entries[i].agentId != request.agentId
    ensures var after := Serve(l, request).ledger;
            && after.outbox == l.outbox + [e] && e.agentId == request.agentId && e.number == l.nextEvent
            && after.nextEvent == l.nextEvent + 1
            && |after.entries| == |l.entries| + 1 && after.entries[..|l.entries|] == l.entries
            && after.entries[|l.entries|].agentId == request.agentId
  {
    e := Event(l.nextEvent, CandidateSubmitted, request.agentId, request.candidate.candidateId, Pending(request.candidate.candidateId, l.nextReceipt), request.now);
  }

  lemma {:induction false} OutboxAppend(a: seq<Event>, b: seq<Event>, agentId: string)
    ensures EventsOf(a + b, Some(agentId)) == EventsOf(a, Some(agentId)) + EventsOf(b, Some(agentId))
  {
    if a == [] {
      assert a + b == b;
    } else {
      assert (a + b)[1..] == a[1..] + b;
      OutboxAppend(a[1..], b, agentId);
    }
  }

  ghost predicate ReceiptsNameCandidates(entries: seq<Entry>) {
    forall i | 0 <= i < |entries| :: entries[i].receipt.candidateId == entries[i].candidate.candidateId
  }

  lemma {:induction false} ReceiptsKeepNames(requests: seq<Request>)
    ensures ReceiptsNameCandidates(Exec(EMPTY, requests).entries)
  {
    if requests != [] {
      ReceiptsKeepNames(requests[..|requests| - 1]);
    }
  }

  // ---------------------------------------------------------------- whole runs

  function Own(requests: seq<Request>, agentId: string): (r: seq<Request>)
    ensures forall i | 0 <= i < |r| :: OwnRequest(r[i], agentId)
  {
    if requests == [] then []
    else
      var before, last := Own(requests[..|requests| - 1], agentId), requests[|requests| - 1];
      if OwnRequest(last, agentId) then before + [last] else before
  }

  /** The answers the agent gets in the shared ledger, in order. */
  function AnswersTo(requests: seq<Request>, agentId: string): seq<Answer> {
    if requests == [] then []
    else
      var before, last := requests[..|requests| - 1], requests[|requests| - 1];
      if OwnRequest(last, agentId) then AnswersTo(before, agentId) + [AnswerOf(Serve(Exec(EMPTY, before), last).response)]
      else AnswersTo(before, agentId)
  }

  datatype Session = Session(view: seq<Item>, answers: seq<Answer>)

  /** The same requests on a private ledger. */
  function ExecPrivately(requests: seq<Request>): Session
    requires forall i | 0 <= i < |requests| :: requests[i].Submit? || requests[i].Resolve?
  {
    if requests == [] then Session([], [])
    else
      var before := ExecPrivately(requests[..|requests| - 1]);
      var shown := ServePrivately(before.view, requests[|requests| - 1]);
      Session(shown.view, before.answers + [shown.answer])
  }

  lemma {:induction false} OwnStep(before: seq<Request>, last: Request, agentId: string)
    requires OwnRequest(last, agentId)
    ensures Own(before + [last], agentId) == Own(before, agentId) + [last]
    ensures ExecPrivately(Own(before, agentId) + [last]) ==
            var shown := ServePrivately(ExecPrivately(Own(before, agentId)).view, last);
            Session(shown.view, ExecPrivately(Own(before, agentId)).answers + [shown.answer])
  {
    assert (before + [last])[..|before|] == before;
    assert (Own(before, agentId) + [last])[..|Own(before, agentId)|] == Own(before, agentId);
  }

  /** Over every interleaving, an agent sees the entries and gets the answers of a private ledger that
      served only its own requests. */
  lemma {:induction false} NonInterference(requests: seq<Request>, agentId: string)
    ensures Session(ViewOf(Exec(EMPTY, requests).entries, agentId), AnswersTo(requests, agentId)) == ExecPrivately(Own(requests, agentId))
  {
    if requests != [] {
      var before, last := requests[..|requests| - 1], requests[|requests| - 1];
      assert requests == before + [last];
      NonInterference(before, agentId);
      if OwnRequest(last, agentId) {
        ReceiptsKeepNames(before);
        OwnStep(before, last, agentId);
        if last.Submit? {
          OwnSubmit(Exec(EMPTY, before), last);
        } else {
          OwnResolve(Exec(EMPTY, before), last);
        }
      } else {
        OthersInvisible(Exec(EMPTY, before), last, agentId);
      }
    }
  }

  // ---------------------------------------------------------------- what listing shows

  function ItemsIn(entries: seq<Entry>): (r: seq<Item>)
    ensures |r| == |entries|
  {
    seq(|entries|, i requires 0 <= i < |entries| => ItemOf(entries[i]))
  }

  lemma {:induction false} ListedItems(entries: seq<Entry>, agentId: string)
    ensures ItemsIn(EntriesOf(entries, Some(agentId))) == ViewOf(entries, agentId)
  {
    if entries != [] {
      var rest := EntriesOf(entries[1..], Some(agentId));
      ListedItems(entries[1..], agentId);
      assert ItemsIn([entries[0]] + rest) == [ItemOf(entries[0])] + ItemsIn(rest);
    }
  }

  lemma {:induction false} ListedEntries(entries: seq<Entry>, agentId: string)
    ensures forall e :: e in EntriesOf(entries, Some(agentId)) <==> e in entries && e.agentId == agentId
    ensures EntriesOf(entries, None) == entries
  {
    if entries != [] {
      ListedEntries(entries[1..], agentId);
      assert forall e :: e in entries <==> e == entries[0] || e in entries[1..];
    }
  }

  lemma {:induction false} ListedEvents(events: seq<Event>, agentId: string)
    ensures forall e :: e in EventsOf(events, Some(agentId)) <==> e in events && e.agentId == agentId
    ensures EventsOf(events, None) == events
  {
    if events != [] {
      ListedEvents(events[1..], agentId);
      assert forall e :: e in events <==> e == events[0] || e in events[1..];
    }
  }

  /** What `list` answers after any run. For one agent: its own entries and no other's, with their
      current receipts, and they are those of a private ledger fed only its own requests. For nobody
      in particular: all entries, in order. Either way nothing changes. */
  lemma {:induction false} ListingOverRuns(requests: seq<Request>, agentId: string)
    ensures var l := Exec(EMPTY, requests);
            var own := Serve(l, ListEntries(Some(agentId)));
            && own.ledger == l && own.response.Entries?
            && ItemsIn(own.response.entries) == ExecPrivately(Own(requests, agentId)).view
            && (forall e :: e in own.response.entries <==> e in l.entries && e.agentId == agentId)
            && Serve(l, ListEntries(None)) == Served(l, Entries(l.entries))
  {
    NonInterference(requests, agentId);
    ListedEntries(Exec(EMPTY, requests).entries, agentId);
    ListedItems(Exec(EMPTY, requests).entries, agentId);
  }

  // ---------------------------------------------------------------- what is announced to an agent

  /** An announcement without its numbers. */
  datatype Notice = Notice(kind: EventKind, candidateId: string, status: Status, occurredAt: nat)

  function NoticesIn(events: seq<Event>): (r: seq<Notice>)
    ensures |r| == |events|
  {
    seq(|events|, i requires 0 <= i < |events| =>
                    Notice(events[i].kind, events[i].candidateId, StatusOf(events[i].receipt), events[i].occurredAt))
  }

  function KindOf(status: Status): EventKind {
    match status
    case InReview => CandidateSubmitted
    case Remembered(_, _) => CandidateAccepted
    case Declined(_) => CandidateRejected
  }

  /** What a private ledger announces for one request: its answer, unless nothing happened or admission
      refused. */
  function NoticePrivately(view: seq<Item>, request: Request): seq<Notice>
    requires request.Submit? || request.Resolve?
  {
    var shown := ServePrivately(view, request);
    var silent := match request
      case Submit(_, c, digest, refusal, _) =>
        var k := Position(view, c.candidateId);
        if k.Some? then view[k.value].payloadDigest == digest && view[k.value].candidate.source == c.source else refusal.Some?
      case Resolve(_, candidateId, _, _) =>
        var k := Position(view, candidateId);
        k.None? || !view[k.value].status.InReview?;
    if silent || shown.answer.NoSuchCandidate? then []
    else [Notice(KindOf(shown.answer.status), shown.answer.candidateId, shown.answer.status, request.now)]
  }

  function NoticesPrivately(requests: seq<Request>): seq<Notice>
    requires forall i | 0 <= i < |requests| :: requests[i].Submit? || requests[i].Resolve?
  {
    if requests == [] then []
    else
      var before, last := requests[..|requests| - 1], requests[|requests| - 1];
      NoticesPrivately(before) + NoticePrivately(ExecPrivately(before).view, last)
  }

  lemma {:induction false} OwnSubmitAnnounces(l: Ledger, request: Request)
    requires request.Submit? && ReceiptsNameCandidates(l.entries)
    ensures NoticesIn(EventsOf(LedgerRuns.Emits(l, request), Some(request.agentId)))
         == NoticePrivately(ViewOf(l.entries, request.agentId), request)
  {
    var agentId, c := request.agentId, request.candidate;
    TakenIsDuplicate(l.entries, agentId, request.digest);
    var held := Find(l.entries, agentId, c.candidateId);
    if held.Some? {
      FoundInView(l.entries, agentId, c.candidateId, l.entries[held.value]);
    } else {
      NotInView(l.entries, agentId, c.candidateId);
    }
    OneEvent(l, request, agentId);
  }

  lemma {:induction false} OwnResolveAnnounces(l: Ledger, request: Request)
    requires request.Resolve? && ReceiptsNameCandidates(l.entries)
    ensures NoticesIn(EventsOf(LedgerRuns.Emits(l, request), Some(request.agentId)))
         == NoticePrivately(ViewOf(l.entries, request.agentId), request)
  {
    var held := Find(l.entries, request.agentId, request.candidateId);
    if held.Some? {
      FoundInView(l.entries, request.agentId, request.candidateId, l.entries[held.value]);
    } else {
      NotInView(l.entries, request.agentId, request.candidateId);
    }
    OneEvent(l, request, request.agentId);
  }

  /** A request announces at most one event, and to the agent it is made for. */
  lemma {:induction false} OneEvent(l: Ledger, request: Request, agentId: string)
    ensures var emits := LedgerRuns.Emits(l, request);
            && |emits| <= 1
            && (|emits| == 1 ==> (request.Submit? || request.Resolve?) && emits[0].agentId == request.agentId)
            && EventsOf(emits, Some(agentId)) == if OwnRequest(request, agentId) then emits else []
  {
    var emits := LedgerRuns.Emits(l, request);
    if |emits| == 1 {
      assert emits[1..] == [] && emits == [emits[0]];
    }
  }

  lemma {:induction false} OwnAnnounces(before: seq<Request>, last: Request, agentId: string)
    requires OwnRequest(last, agentId)
    ensures NoticesIn(EventsOf(LedgerRuns.Emits(Exec(EMPTY, before), last), Some(agentId)))
         == NoticePrivately(ExecPrivately(Own(before, agentId)).view, last)
  {
    ReceiptsKeepNames(before);
    NonInterference(before, agentId);
    if last.Submit? {
      OwnSubmitAnnounces(Exec(EMPTY, before), last);
    } else {
      OwnResolveAnnounces(Exec(EMPTY, before), last);
    }
  }

  lemma {:induction false} OwnNotices(before: seq<Request>, last: Request, agentId: string)
    requires OwnRequest(last, agentId)
    ensures NoticesPrivately(Own(before, agentId) + [last])
         == NoticesPrivately(Own(before, agentId)) + NoticePrivately(ExecPrivately(Own(before, agentId)).view, last)
  {
    assert (Own(before, agentId) + [last])[..|Own(before, agentId)|] == Own(before, agentId);
  }

  /** Over every interleaving, what is announced to an agent is what a private ledger fed only its own
      requests announces. */
  lemma {:induction false} NoticesNonInterference(requests: seq<Request>, agentId: string)
    ensures NoticesIn(EventsOf(LedgerRuns.Run(requests).emitted, Some(agentId))) == NoticesPrivately(Own(requests, agentId))
  {
    if requests != [] {
      var before, last := requests[..|requests| - 1], requests[|requests| - 1];
      NoticesNonInterference(before, agentId);
      StepNotices(requests, agentId);
      if OwnRequest(last, agentId) {
        OwnAnnounces(before, last, agentId);
        OwnNotices(before, last, agentId);
      } else {
        OneEvent(Exec(EMPTY, before), last, agentId);
      }
    }
  }

  /** The last request adds its own announcements to those before it. */
  lemma {:induction false} StepNotices(requests: seq<Request>, agentId: string)
    requires requests != []
    ensures var before, last := requests[..|requests| - 1], requests[|requests| - 1];
            var earlier := EventsOf(LedgerRuns.Run(before).emitted, Some(agentId));
            var added := EventsOf(LedgerRuns.Emits(Exec(EMPTY, before), last), Some(agentId));
            NoticesIn(EventsOf(LedgerRuns.Run(requests).emitted, Some(agentId))) == NoticesIn(earlier) + NoticesIn(added)
  {
    var before, last := requests[..|requests| - 1], requests[|requests| - 1];
    var emits := LedgerRuns.Emits(Exec(EMPTY, before), last);
    LedgerRuns.EmittedGrows(requests);
    OutboxAppend(LedgerRuns.Run(before).emitted, emits, agentId);
    NoticesAppend(EventsOf(LedgerRuns.Run(before).emitted, Some(agentId)), EventsOf(emits, Some(agentId)));
  }

  lemma {:induction false} NoticesAppend(a: seq<Event>, b: seq<Event>)
    ensures NoticesIn(a + b) == NoticesIn(a) + NoticesIn(b)
  {
  }

  lemma {:induction false} ViewExtends(events: seq<Event>, e: Event, agentId: string)
    ensures EventsOf(events + [e], Some(agentId)) == EventsOf(events, Some(agentId)) + if e.agentId == agentId then [e] else []
  {
    OutboxAppend(events, [e], agentId);
    assert [e][1..] == [];
  }

  lemma {:induction false} UnackedExtends(events: seq<Event>, e: Event, acked: seq<nat>)
    ensures LedgerRuns.Unacked(events + [e], acked) == LedgerRuns.Unacked(events, acked) + if e.number in acked then [] else [e]
  {
    assert (events + [e])[..|events|] == events;
  }

  lemma {:induction false} UnackedOf(emitted: seq<Event>, acked: seq<nat>, agentId: string)
    ensures EventsOf(LedgerRuns.Unacked(emitted, acked), Some(agentId)) == LedgerRuns.Unacked(EventsOf(emitted, Some(agentId)), acked)
  {
    if emitted != [] {
      var init, last := emitted[..|emitted| - 1], emitted[|emitted| - 1];
      assert emitted == init + [last];
      UnackedOf(init, acked, agentId);
      ViewExtends(init, last, agentId);
      UnackedExtends(init, last, acked);
      UnackedExtends(EventsOf(init, Some(agentId)), last, acked);
      ViewExtends(LedgerRuns.Unacked(init, acked), last, agentId);
      if last.agentId != agentId {
        assert EventsOf(init, Some(agentId)) + [] == EventsOf(init, Some(agentId));
      }
      if last.number in acked {
        assert LedgerRuns.Unacked(init, acked) + [] == LedgerRuns.Unacked(init, acked);
      }
    }
  }

  /** So over every run an agent's outbox view is the announcements of its private ledger, in order,
      less those whose number someone acknowledged: acknowledgements are the only interference. */
  lemma {:induction false} OutboxViewOverRuns(requests: seq<Request>, agentId: string)
    ensures var h := LedgerRuns.Run(requests);
            var announced := EventsOf(h.emitted, Some(agentId));
            && h.ledger == Exec(EMPTY, requests)
            && NoticesIn(announced) == NoticesPrivately(Own(requests, agentId))
            && EventsOf(h.ledger.outbox, Some(agentId)) == LedgerRuns.Unacked(announced, h.acked)
  {
    var h := LedgerRuns.Run(requests);
    LedgerRuns.RunKeepsInv(requests);
    NoticesNonInterference(requests, agentId);
    UnackedOf(h.emitted, h.acked, agentId);
  }

  /** What `outbox` answers after any run. For one agent: its own waiting events and no other's, which
      are the announcements of its private ledger, in order, less the acknowledged numbers. For nobody
      in particular: all waiting events, in order. */
  lemma {:induction false} OutboxListingOverRuns(requests: seq<Request>, agentId: string)
    ensures var h := LedgerRuns.Run(requests);
            var own := Serve(h.ledger, ListOutbox(Some(agentId)));
            && own.ledger == h.ledger == Exec(EMPTY, requests) && own.response.Events?
            && (forall e :: e in own.response.events <==> e in h.emitted && e.number !in h.acked && e.agentId == agentId)
            && (exists announced :: WaitingOf(announced, NoticesPrivately(Own(requests, agentId)), h.acked, own.response.events))
            && Serve(h.ledger, ListOutbox(None)) == Served(h.ledger, Events(h.ledger.outbox))
  {
    var l := LedgerRuns.Run(requests).ledger;
    OutboxAnswer(l, agentId);
    WaitingMembers(requests, agentId);
    WaitingAnnounced(requests, agentId);
  }

  lemma {:induction false} OutboxAnswer(l: Ledger, agentId: string)
    ensures Serve(l, ListOutbox(Some(agentId))) == Served(l, Events(EventsOf(l.outbox, Some(agentId))))
    ensures Serve(l, ListOutbox(None)) == Served(l, Events(l.outbox))
  {
    ListedEvents(l.outbox, agentId);
  }

  lemma {:induction false} WaitingAnnounced(requests: seq<Request>, agentId: string)
    ensures var h := LedgerRuns.Run(requests);
            && h.ledger == Exec(EMPTY, requests)
            && exists announced ::
                 WaitingOf(announced, NoticesPrivately(Own(requests, agentId)), h.acked, EventsOf(h.ledger.outbox, Some(agentId)))
  {
    var h := LedgerRuns.Run(requests);
    OutboxViewOverRuns(requests, agentId);
    assert WaitingOf(EventsOf(h.emitted, Some(agentId)), NoticesPrivately(Own(requests, agentId)), h.acked, EventsOf(h.ledger.outbox, Some(agentId)));
  }

  /** Events that carry these notices, less the acknowledged ones. */
  ghost predicate WaitingOf(announced: seq<Event>, notices: seq<Notice>, acked: seq<nat>, waiting: seq<Event>) {
    NoticesIn(announced) == notices && waiting == LedgerRuns.Unacked(announced, acked)
  }

  lemma {:induction false} WaitingMembers(requests: seq<Request>, agentId: string)
    ensures var h := LedgerRuns.Run(requests);
            forall e :: e in EventsOf(h.ledger.outbox, Some(agentId)) <==> e in h.emitted && e.number !in h.acked && e.agentId == agentId
  {
    var h := LedgerRuns.Run(requests);
    LedgerRuns.OutboxFidelity(requests);
    UnackedListed(h.emitted, h.acked, agentId);
  }

  lemma {:induction false} UnackedListed(emitted: seq<Event>, acked: seq<nat>, agentId: string)
    ensures forall e :: e in EventsOf(LedgerRuns.Unacked(emitted, acked), Some(agentId))
                        <==> e in emitted && e.number !in acked && e.agentId == agentId
  {
    ListedEvents(LedgerRuns.Unacked(emitted, acked), agentId);
    LedgerRuns.UnackedMembers(emitted, acked);
  }

  /** So dropping every other agent's requests, and every acknowledgement, changes none of its answers. */
  lemma {:induction false} OthersCannotChangeAnswers(requests: seq<Request>, agentId: string)
    ensures AnswersTo(Own(requests, agentId), agentId) == AnswersTo(requests, agentId)
    ensures ViewOf(Exec(EMPTY, Own(requests, agentId)).entries, agentId) == ViewOf(Exec(EMPTY, requests).entries, agentId)
  {
    NonInterference(requests, agentId);
    NonInterference(Own(requests, agentId), agentId);
    OwnOfOwn(requests, agentId);
  }

  lemma {:induction false} OwnOfOwn(requests: seq<Request>, agentId: string)
    ensures Own(Own(requests, agentId), agentId) == Own(requests, agentId)
  {
    if requests != [] {
      var before, last := requests[..|requests| - 1], requests[|requests| - 1];
      OwnOfOwn(before, agentId);
      if OwnRequest(last, agentId) {
        assert Own(requests, agentId)[..|Own(before, agentId)|] == Own(before, agentId);
      }
    }
  }
}
