/** Leased delivery of external signals: claim, acknowledge, give back. The channel's answers and the
    random ids are inputs of a call. */
module SignalDelivery {
  import opened Wrappers
  import opened Limits

  datatype Signal = Signal(source: string, kind: string, payload: string)

  datatype PendingDelivery = PendingDelivery(deliveryId: string, signalId: string, attempt: nat, lease: Option<string>, signal: Signal)

  datatype SignalClaim = SignalClaim(deliveryId: string, leaseToken: string, signalId: string, attempt: nat, signal: Signal)

  datatype Receipt = Receipt(deliveryId: string, leaseToken: string)

  /** `received` is what the channel yields if it is asked: a signal, or nothing when the receiver
      lagged or the channel closed. The three ids are what the id generator yields. */
  datatype Call =
    | Claim(received: Option<Signal>, deliveryId: string, signalId: string, token: string)
    | Ack(receipt: Receipt)
    | Nack(receipt: Receipt)

  // ---------------------------------------------------------------- one call

  /** The delivery a claim works on: the pending one, or the next signal from the channel. */
  function Offered(pending: Option<PendingDelivery>, call: Call): Option<PendingDelivery>
    requires call.Claim?
  {
    if pending.Some? then pending
    else match call.received
      case None => None
      case Some(signal) => Some(PendingDelivery(call.deliveryId, call.signalId, 0, None, signal))
  }

  predicate Grants(pending: Option<PendingDelivery>, call: Call)
    requires call.Claim?
  {
    Offered(pending, call).Some? && Offered(pending, call).value.lease.None?
  }

  /** The delivery once leased under a new token, its attempt counter saturating. */
  function Leased(d: PendingDelivery, token: string): PendingDelivery {
    d.(attempt := if d.attempt < MAX_U32 then d.attempt + 1 else d.attempt, lease := Some(token))
  }

  function ClaimOf(d: PendingDelivery, token: string): SignalClaim {
    SignalClaim(d.deliveryId, token, d.signalId, d.attempt, d.signal)
  }

  /** Whether a receipt names the pending delivery under its current lease. */
  predicate Matches(pending: Option<PendingDelivery>, receipt: Receipt) {
    pending.Some? && pending.value.deliveryId == receipt.deliveryId && pending.value.lease == Some(receipt.leaseToken)
  }

  class GatewayReceiver {
    var pending: Option<PendingDelivery>

    constructor ()
      ensures pending.None?
    {
      pending := None;
    }

    method ClaimSignal(received: Option<Signal>, deliveryId: string, signalId: string, token: string) returns (claim: Option<SignalClaim>)
      modifies this
      ensures var call := Claim(received, deliveryId, signalId, token);
              if Grants(old(pending), call) then
                var d := Leased(Offered(old(pending), call).value, token);
                pending == Some(d) && claim == Some(ClaimOf(d, token))
              else pending == old(pending) && claim == None
      ensures old(pending).None? && received.Some? ==> claim == Some(SignalClaim(deliveryId, token, signalId, 1, received.value))
      ensures old(pending).None? && received.None? ==> claim == None && pending == None
      ensures old(pending).Some? && old(pending).value.lease.None? ==>
                var d := old(pending).value;
                claim.Some? && claim.value.deliveryId == d.deliveryId && claim.value.signalId == d.signalId && claim.value.signal == d.signal
                && claim.value.leaseToken == token
    {
      if pending.None? {
        if received.None? {
          return None;
        }
        pending := Some(PendingDelivery(deliveryId, signalId, 0, None, received.value));
      }
      var d := pending.value;
      if d.lease.Some? {
        return None;
      }
      var attempt := if d.attempt < MAX_U32 then d.attempt + 1 else d.attempt;
      pending := Some(d.(attempt := attempt, lease := Some(token)));
      return Some(SignalClaim(d.deliveryId, token, d.signalId, attempt, d.signal));
    }

    method AckSignal(receipt: Receipt) returns (matched: bool)
      modifies this
      ensures matched == Matches(old(pending), receipt)
      ensures pending == if matched then None else old(pending)
    {
      matched := pending.Some? && pending.value.deliveryId == receipt.deliveryId && pending.value.lease == Some(receipt.leaseToken);
      if matched {
        pending := None;
      }
    }

    method NackSignal(receipt: Receipt) returns (matched: bool)
      modifies this
      ensures matched == Matches(old(pending), receipt)
      ensures pending == if matched then Some(old(pending).value.(lease := None)) else old(pending)
    {
      if pending.None? {
        return false;
      }
      var d := pending.value;
      if d.deliveryId != receipt.deliveryId || d.lease != Some(receipt.leaseToken) {
        return false;
      }
      pending := Some(d.(lease := None));
      return true;
    }
  }

  // ---------------------------------------------------------------- runs

  /** The receiver and what it has done: signals taken from the channel, signals acknowledged, claims
      granted, and lease tokens settled by a successful ack or nack. */
  datatype Trace = Trace(pending: Option<PendingDelivery>, taken: seq<Signal>, acked: seq<Signal>, claims: seq<SignalClaim>, settled: seq<string>)

  function Step(t: Trace, call: Call): Trace {
    match call
    case Claim(received, _, _, token) =>
      if !Grants(t.pending, call) then t
      else
        var d := Leased(Offered(t.pending, call).value, token);
        Trace(Some(d), if t.pending.None? then t.taken + [d.signal] else t.taken, t.acked, t.claims + [ClaimOf(d, token)], t.settled)
    case Ack(receipt) =>
      if !Matches(t.pending, receipt) then t
      else Trace(None, t.taken, t.acked + [t.pending.value.signal], t.claims, t.settled + [receipt.leaseToken])
    case Nack(receipt) =>
      if !Matches(t.pending, receipt) then t
      else Trace(Some(t.pending.value.(lease := None)), t.taken, t.acked, t.claims, t.settled + [receipt.leaseToken])
  }

  function Run(calls: seq<Call>): Trace {
    if calls == [] then Trace(None, [], [], [], [])
    else Step(Run(calls[..|calls| - 1]), calls[|calls| - 1])
  }

  /** The tokens of the granted claims, in the order they were issued. */
  function Tokens(claims: seq<SignalClaim>): (r: seq<string>)
    ensures |r| == |claims| && forall i | 0 <= i < |r| :: r[i] == claims[i].leaseToken
  {
    seq(|claims|, i requires 0 <= i < |claims| => claims[i].leaseToken)
  }

  function Leases(pending: Option<PendingDelivery>): nat {
    if pending.Some? && pending.value.lease.Some? then 1 else 0
  }

  /** How many claims went to one delivery. */
  function ClaimsOf(claims: seq<SignalClaim>, deliveryId: string): nat {
    if claims == [] then 0
    else ClaimsOf(claims[..|claims| - 1], deliveryId) + if claims[|claims| - 1].deliveryId == deliveryId then 1 else 0
  }

  /** Signals taken are those acknowledged, in order, then at most the pending one; tokens are settled
      in the order they were issued, all but at most the latest. */
  ghost predicate Orderly(t: Trace) {
    && t.taken == t.acked + (if t.pending.Some? then [t.pending.value.signal] else [])
    && |t.claims| == |t.settled| + Leases(t.pending)
    && Tokens(t.claims) == t.settled + (if Leases(t.pending) == 1 then [t.pending.value.lease.value] else [])
    && (Leases(t.pending) == 1 ==>
          t.claims[|t.claims| - 1].deliveryId == t.pending.value.deliveryId && t.claims[|t.claims| - 1].signal == t.pending.value.signal)
  }

  lemma {:induction false} StepOrderly(t: Trace, call: Call)
    requires Orderly(t)
    ensures Orderly(Step(t, call))
  {
    var u := Step(t, call);
    if call.Claim? && Grants(t.pending, call) {
      assert Tokens(u.claims) == Tokens(t.claims) + [call.token];
    } else if !call.Claim? && Matches(t.pending, call.receipt) {
      assert Tokens(t.claims) == t.settled + [call.receipt.leaseToken];
    }
  }

  /** The signals the channel yielded to claims that found nothing pending, in order. */
  function Arrivals(calls: seq<Call>): seq<Signal> {
    if calls == [] then []
    else
      var before, last := calls[..|calls| - 1], calls[|calls| - 1];
      Arrivals(before) + if last.Claim? && Run(before).pending.None? && last.received.Some? then [last.received.value] else []
  }

  lemma {:induction false} RunOrderly(calls: seq<Call>)
    ensures Orderly(Run(calls))
  {
    if calls != [] {
      RunOrderly(calls[..|calls| - 1]);
      StepOrderly(Run(calls[..|calls| - 1]), calls[|calls| - 1]);
    }
  }

  lemma {:induction false} TakenAsArrived(calls: seq<Call>)
    ensures Run(calls).taken == Arrivals(calls)
  {
    if calls != [] {
      TakenAsArrived(calls[..|calls| - 1]);
      StepTakes(Run(calls[..|calls| - 1]), calls[|calls| - 1]);
    }
  }

  lemma {:induction false} StepTakes(t: Trace, call: Call)
    ensures Step(t, call).taken == t.taken + if call.Claim? && t.pending.None? && call.received.Some? then [call.received.value] else []
  {
  }

  /** Over every run: the signals the channel yielded are, in its order, those acknowledged and then at
      most the pending one, so none is lost, altered, repeated or reordered; at most one lease is
      outstanding, and its claim carries the latest arrival; and settled tokens are exactly the issued
      ones, in order, minus at most the latest. */
  lemma {:induction false} DeliveryInOrder(calls: seq<Call>)
    ensures var t := Run(calls);
            && Orderly(t)
            && Arrivals(calls) == t.acked + (if t.pending.Some? then [t.pending.value.signal] else [])
            && (Leases(t.pending) == 1 ==> t.claims[|t.claims| - 1].signal == Arrivals(calls)[|Arrivals(calls)| - 1])
  {
    RunOrderly(calls);
    TakenAsArrived(calls);
  }

  /** A settlement succeeds exactly when it names the latest claim and that claim is not settled yet. */
  lemma {:induction false} SettlesExactlyLatest(calls: seq<Call>, receipt: Receipt)
    ensures var t := Run(calls);
            Matches(t.pending, receipt) <==>
              && |t.settled| < |t.claims|
              && receipt == Receipt(t.claims[|t.claims| - 1].deliveryId, t.claims[|t.claims| - 1].leaseToken)
  {
    RunOrderly(calls);
    var t := Run(calls);
    if |t.settled| < |t.claims| {
      assert Tokens(t.claims)[|t.claims| - 1] == t.pending.value.lease.value;
    }
  }

  // ---------------------------------------------------------------- fresh ids

  /** No token and no delivery id is generated twice. */
  ghost predicate FreshIds(calls: seq<Call>) {
    forall i, j | 0 <= i < j < |calls| && calls[i].Claim? && calls[j].Claim? ::
      calls[i].token != calls[j].token && calls[i].deliveryId != calls[j].deliveryId
  }

  ghost predicate TokenGenerated(calls: seq<Call>, token: string) {
    exists i | 0 <= i < |calls| :: calls[i].Claim? && calls[i].token == token
  }

  ghost predicate DeliveryGenerated(calls: seq<Call>, deliveryId: string) {
    exists i | 0 <= i < |calls| :: calls[i].Claim? && calls[i].deliveryId == deliveryId
  }

  /** Every id in use came from some call. */
  ghost predicate Generated(calls: seq<Call>, t: Trace) {
    && (forall k | 0 <= k < |t.claims| :: TokenGenerated(calls, t.claims[k].leaseToken))
    && (forall k | 0 <= k < |t.claims| :: DeliveryGenerated(calls, t.claims[k].deliveryId))
    && (t.pending.Some? ==> DeliveryGenerated(calls, t.pending.value.deliveryId))
  }

  /** Each claim's number is one more than the earlier claims of its delivery, saturating. */
  ghost predicate CountsUp(claims: seq<SignalClaim>) {
    forall k | 0 <= k < |claims| :: claims[k].attempt == Capped(1 + ClaimsOf(claims[..k], claims[k].deliveryId), MAX_U32)
  }

  ghost predicate TokensDistinct(claims: seq<SignalClaim>) {
    forall j, k | 0 <= j < k < |claims| :: claims[j].leaseToken != claims[k].leaseToken
  }

  ghost predicate SameDelivery(claims: seq<SignalClaim>, deliveryId: string, signalId: string, signal: Signal) {
    forall k | 0 <= k < |claims| && claims[k].deliveryId == deliveryId :: claims[k].signalId == signalId && claims[k].signal == signal
  }

  /** Claims of one delivery share its ids and signal and count up. */
  ghost predicate Numbered(t: Trace) {
    && CountsUp(t.claims)
    && TokensDistinct(t.claims)
    && (forall k | 0 <= k < |t.claims| :: SameDelivery(t.claims, t.claims[k].deliveryId, t.claims[k].signalId, t.claims[k].signal))
    && (t.pending.Some? ==> Continues(t.claims, t.pending.value))
  }

  /** A delivery that carries on the claims made of it so far. */
  ghost predicate Continues(claims: seq<SignalClaim>, d: PendingDelivery) {
    d.attempt == Capped(ClaimsOf(claims, d.deliveryId), MAX_U32) && SameDelivery(claims, d.deliveryId, d.signalId, d.signal)
  }

  lemma {:induction false} NeverClaimed(claims: seq<SignalClaim>, deliveryId: string)
    requires forall k | 0 <= k < |claims| :: claims[k].deliveryId != deliveryId
    ensures ClaimsOf(claims, deliveryId) == 0
  {
    if claims != [] {
      NeverClaimed(claims[..|claims| - 1], deliveryId);
    }
  }

  lemma {:induction false} ClaimCounted(claims: seq<SignalClaim>, c: SignalClaim)
    requires CountsUp(claims) && c.attempt == Capped(1 + ClaimsOf(claims, c.deliveryId), MAX_U32)
    ensures CountsUp(claims + [c]) && ClaimsOf(claims + [c], c.deliveryId) == 1 + ClaimsOf(claims, c.deliveryId)
  {
    var all := claims + [c];
    assert all[..|claims|] == claims;
    forall k | 0 <= k < |all|
      ensures all[k].attempt == Capped(1 + ClaimsOf(all[..k], all[k].deliveryId), MAX_U32)
    {
      if k < |claims| {
        assert all[..k] == claims[..k];
      }
    }
  }

  lemma {:induction false} GrantNumbered(t: Trace, d: PendingDelivery, c: SignalClaim)
    requires Numbered(t) && Continues(t.claims, d)
    requires forall k | 0 <= k < |t.claims| :: t.claims[k].leaseToken != c.leaseToken
    requires c == ClaimOf(Leased(d, c.leaseToken), c.leaseToken)
    ensures Numbered(t.(pending := Some(Leased(d, c.leaseToken)), claims := t.claims + [c]))
  {
    ClaimCounted(t.claims, c);
    ClaimShared(t.claims, c);
  }

  lemma {:induction false} ClaimShared(claims: seq<SignalClaim>, c: SignalClaim)
    requires forall k | 0 <= k < |claims| :: SameDelivery(claims, claims[k].deliveryId, claims[k].signalId, claims[k].signal)
    requires SameDelivery(claims, c.deliveryId, c.signalId, c.signal)
    ensures var all := claims + [c];
            && (forall k | 0 <= k < |all| :: SameDelivery(all, all[k].deliveryId, all[k].signalId, all[k].signal))
            && SameDelivery(all, c.deliveryId, c.signalId, c.signal)
  {
    var all := claims + [c];
    forall k | 0 <= k < |all|
      ensures SameDelivery(all, all[k].deliveryId, all[k].signalId, all[k].signal)
    {
      if k < |claims| {
        assert SameDelivery(claims, claims[k].deliveryId, claims[k].signalId, claims[k].signal);
      }
    }
  }

  lemma {:induction false} StepGenerated(calls: seq<Call>, call: Call, t: Trace)
    requires Generated(calls, t)
    ensures Generated(calls + [call], Step(t, call))
  {
    var all := calls + [call];
    assert all[|calls|] == call && forall i | 0 <= i < |calls| :: all[i] == calls[i];
    assert forall token | TokenGenerated(calls, token) :: TokenGenerated(all, token);
    assert forall id | DeliveryGenerated(calls, id) :: DeliveryGenerated(all, id);
  }

  /** A fresh call's ids are on no earlier claim. */
  lemma {:induction false} FreshIsNew(calls: seq<Call>, call: Call, t: Trace, k: nat)
    requires Generated(calls, t) && FreshIds(calls + [call]) && call.Claim? && k < |t.claims|
    ensures t.claims[k].leaseToken != call.token && t.claims[k].deliveryId != call.deliveryId
  {
    var all := calls + [call];
    assert TokenGenerated(calls, t.claims[k].leaseToken) && DeliveryGenerated(calls, t.claims[k].deliveryId);
    var i :| 0 <= i < |calls| && calls[i].Claim? && calls[i].token == t.claims[k].leaseToken;
    var j :| 0 <= j < |calls| && calls[j].Claim? && calls[j].deliveryId == t.claims[k].deliveryId;
    assert all[i] == calls[i] && all[j] == calls[j] && all[|calls|] == call;
  }

  lemma {:induction false} StepNumbered(calls: seq<Call>, call: Call, t: Trace)
    requires Generated(calls, t) && Numbered(t) && FreshIds(calls + [call])
    ensures Numbered(Step(t, call))
  {
    if call.Claim? && Grants(t.pending, call) {
      forall k | 0 <= k < |t.claims|
        ensures t.claims[k].leaseToken != call.token && t.claims[k].deliveryId != call.deliveryId
      {
        FreshIsNew(calls, call, t, k);
      }
      var d := Offered(t.pending, call).value;
      if t.pending.None? {
        NeverClaimed(t.claims, d.deliveryId);
      }
      GrantNumbered(t, d, ClaimOf(Leased(d, call.token), call.token));
    }
  }

  /** With fresh ids, over every run: the claims of one delivery share their ids and signal and are
      numbered 1, 2, 3, ... up to saturation, and no token is ever issued twice. */
  lemma {:induction false} ClaimsNumbered(calls: seq<Call>)
    requires FreshIds(calls)
    ensures Generated(calls, Run(calls)) && Numbered(Run(calls))
  {
    if calls != [] {
      var before := calls[..|calls| - 1];
      ClaimsNumbered(before);
      assert calls == before + [calls[|calls| - 1]];
      StepGenerated(before, calls[|calls| - 1], Run(before));
      StepNumbered(before, calls[|calls| - 1], Run(before));
    }
  }

  lemma {:induction false} SettledAreIssued(t: Trace)
    requires Orderly(t)
    ensures |t.settled| <= |t.claims| && forall i | 0 <= i < |t.settled| :: t.settled[i] == t.claims[i].leaseToken
  {
    assert forall i | 0 <= i < |t.settled| :: t.settled[i] == Tokens(t.claims)[i];
  }

  /** With fresh ids, a token settles at most once, and one superseded by a later claim or already
      settled never succeeds again. */
  lemma {:induction false} StaleTokenNeverSettles(calls: seq<Call>, receipt: Receipt, k: nat)
    requires FreshIds(calls)
    requires k < |Run(calls).claims| && receipt.leaseToken == Run(calls).claims[k].leaseToken
    requires k < |Run(calls).claims| - 1 || receipt.leaseToken in Run(calls).settled
    ensures !Matches(Run(calls).pending, receipt)
    ensures forall i, j | 0 <= i < j < |Run(calls).settled| :: Run(calls).settled[i] != Run(calls).settled[j]
  {
    RunOrderly(calls);
    ClaimsNumbered(calls);
    SettlesExactlyLatest(calls, receipt);
    SettledAreIssued(Run(calls));
  }
}
