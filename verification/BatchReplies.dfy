/** How the reply to one batch settles its requests
    (packages/node/src/ethereum/ethers/json-rpc-batch-provider.ts, the promise chain of `runRequests`). */
module BatchReplies {
  import opened Collections

  datatype Request = Request(id: int, methodName: string, params: string)

  datatype RpcError = RpcError(message: Option<string>, code: int)

  /** One element of the reply; `Garbage` is null, whose properties cannot be read. */
  datatype Payload = Garbage | Payload(id: Option<int>, result: Option<string>, error: Option<RpcError>)

  datatype Reply =
    | NotArray(isNull: bool, errorMessage: Option<string>)
    | Results(payloads: seq<Payload>)
    | TransportFailure(error: string)

  datatype Reason =
    | InvalidResponse
    | RateLimited(reported: Option<string>)
    | MissingPayload(id: int)
    | ServerError(message: string, code: int)
    | Thrown
    | Transport(error: string)

  datatype Settlement = Resolved(value: Option<string>) | Rejected(reason: Reason)

  const CHAIN_ID_METHOD := "eth_chainId"

  // ---------- reading the reply ----------

  /** The last payload that bears the id. */
  function Lookup(payloads: seq<Payload>, id: int): (p: Option<Payload>)
    ensures p.Some? ==> p.value.Payload? && p.value.id == Some(id)
  {
    if payloads == [] then None
    else
      var last := payloads[|payloads| - 1];
      if last.Payload? && last.id == Some(id) then Some(last) else Lookup(payloads[..|payloads| - 1], id)
  }

  predicate HasGarbage(payloads: seq<Payload>) {
    exists i :: 0 <= i < |payloads| && payloads[i].Garbage?
  }

  /** The special reply of a rate-limited server. */
  predicate IsSingleNullId(payloads: seq<Payload>) {
    |payloads| == 1 && payloads[0].Payload? && payloads[0].id.None?
  }

  /** The requests are settled one by one from the payloads. */
  predicate IsRegular(reply: Reply) {
    reply.Results? && !HasGarbage(reply.payloads) && !IsSingleNullId(reply.payloads)
  }

  /** Reading the message of an error without one throws. */
  predicate Throws(payloads: seq<Payload>, r: Request) {
    var p := Lookup(payloads, r.id);
    p.Some? && p.value.error.Some? && p.value.error.value.message.None?
  }

  function Verdict(payloads: seq<Payload>, r: Request): Settlement
    requires !Throws(payloads, r)
  {
    match Lookup(payloads, r.id)
    case Some(Payload(_, result, None)) => Resolved(result)
    case Some(Payload(_, _, Some(e))) => Rejected(ServerError(e.message.value, e.code))
    case _ => Rejected(MissingPayload(r.id))
  }

  /** Index of the first request whose payload throws, or the length of the batch. */
  function FirstThrow(payloads: seq<Payload>, batch: seq<Request>): (k: nat)
    ensures k <= |batch|
    ensures forall i :: 0 <= i < k ==> !Throws(payloads, batch[i])
    ensures k < |batch| ==> Throws(payloads, batch[k])
  {
    if batch == [] || Throws(payloads, batch[0]) then 0 else 1 + FirstThrow(payloads, batch[1..])
  }

  /** How many requests of the batch are settled from their own payload. */
  function Answered(reply: Reply, batch: seq<Request>): (k: nat)
    ensures k <= |batch|
  {
    if IsRegular(reply) then FirstThrow(reply.payloads, batch) else 0
  }

  /** The settlement of the i-th request of the batch. */
  function SettlementOf(reply: Reply, batch: seq<Request>, i: nat): Settlement
    requires i < |batch|
  {
    match reply
    case NotArray(_, _) => Rejected(InvalidResponse)
    case TransportFailure(error) => Rejected(Transport(error))
    case Results(payloads) =>
      if IsSingleNullId(payloads) then
        Rejected(RateLimited(if payloads[0].error.Some? then payloads[0].error.value.message else None))
      else if i < Answered(reply, batch) then Verdict(payloads, batch[i])
      else Rejected(Thrown)
  }

  // ---------- settling promises ----------

  /** Settling a settled promise does nothing. */
  function Settle(settled: map<int, Settlement>, id: int, s: Settlement): map<int, Settlement> {
    if id in settled then settled else settled[id := s]
  }

  function SettlePrefix(settled: map<int, Settlement>, reply: Reply, batch: seq<Request>, n: nat): map<int, Settlement>
    requires n <= |batch|
  {
    if n == 0 then settled
    else Settle(SettlePrefix(settled, reply, batch, n - 1), batch[n - 1].id, SettlementOf(reply, batch, n - 1))
  }

  predicate DistinctIds(batch: seq<Request>) {
    forall i, j :: 0 <= i < j < |batch| ==> batch[i].id != batch[j].id
  }

  predicate Unsettled(settled: map<int, Settlement>, batch: seq<Request>) {
    forall i :: 0 <= i < |batch| ==> batch[i].id !in settled
  }

  /** Earlier settlements stand. */
  lemma {:induction false} SettlePrefixKeeps(settled: map<int, Settlement>, reply: Reply, batch: seq<Request>,
                                             n: nat, id: int)
    requires n <= |batch| && id in settled
    ensures id in SettlePrefix(settled, reply, batch, n) && SettlePrefix(settled, reply, batch, n)[id] == settled[id]
  {
    if n > 0 {
      SettlePrefixKeeps(settled, reply, batch, n - 1, id);
    }
  }

  lemma {:induction false} SettlePrefixDomain(settled: map<int, Settlement>, reply: Reply, batch: seq<Request>,
                                              n: nat, id: int)
    requires n <= |batch|
    ensures id in SettlePrefix(settled, reply, batch, n) <==>
      id in settled || exists i :: 0 <= i < n && batch[i].id == id
  {
    if n > 0 {
      SettlePrefixDomain(settled, reply, batch, n - 1, id);
    }
  }

  lemma {:induction false} SettlePrefixValues(settled: map<int, Settlement>, reply: Reply, batch: seq<Request>,
                                              n: nat, i: nat)
    requires i < n <= |batch| && DistinctIds(batch) && Unsettled(settled, batch)
    ensures batch[i].id in SettlePrefix(settled, reply, batch, n)
    ensures SettlePrefix(settled, reply, batch, n)[batch[i].id] == SettlementOf(reply, batch, i)
  {
    if i < n - 1 {
      SettlePrefixValues(settled, reply, batch, n - 1, i);
    } else {
      SettlePrefixDomain(settled, reply, batch, n - 1, batch[i].id);
    }
  }

  /** Nothing else is settled, and the first n requests are, each with its own settlement. */
  lemma SettlePrefixSettles(settled: map<int, Settlement>, reply: Reply, batch: seq<Request>, n: nat)
    requires n <= |batch|
    ensures forall id :: id in SettlePrefix(settled, reply, batch, n) <==>
      id in settled || exists i :: 0 <= i < n && batch[i].id == id
    ensures DistinctIds(batch) && Unsettled(settled, batch) ==>
      forall i :: 0 <= i < n ==> SettlePrefix(settled, reply, batch, n)[batch[i].id] == SettlementOf(reply, batch, i)
  {
    forall id
      ensures id in SettlePrefix(settled, reply, batch, n) <==>
        id in settled || exists i :: 0 <= i < n && batch[i].id == id
    {
      SettlePrefixDomain(settled, reply, batch, n, id);
    }
    if DistinctIds(batch) && Unsettled(settled, batch) {
      forall i: nat | i < n
        ensures SettlePrefix(settled, reply, batch, n)[batch[i].id] == SettlementOf(reply, batch, i)
      {
        SettlePrefixValues(settled, reply, batch, n, i);
      }
    }
  }

  // ---------- what a settlement says ----------

  /** Position i holds the last payload bearing the id. */
  predicate IsLastFor(payloads: seq<Payload>, i: nat, id: int) {
    && i < |payloads| && Bears(payloads[i], id)
    && forall j :: i < j < |payloads| ==> !Bears(payloads[j], id)
  }

  predicate Bears(p: Payload, id: int) {
    p.Payload? && p.id == Some(id)
  }

  lemma {:induction false} LookupIsLast(payloads: seq<Payload>, id: int)
    ensures Lookup(payloads, id).None? ==> forall i :: 0 <= i < |payloads| ==> !Bears(payloads[i], id)
    ensures Lookup(payloads, id).Some? ==>
      exists i: nat :: IsLastFor(payloads, i, id) && payloads[i] == Lookup(payloads, id).value
  {
    if payloads != [] {
      var front, last := payloads[..|payloads| - 1], payloads[|payloads| - 1];
      LookupIsLast(front, id);
      if Bears(last, id) {
        assert IsLastFor(payloads, |payloads| - 1, id);
      } else if Lookup(payloads, id).Some? {
        var i: nat :| IsLastFor(front, i, id) && front[i] == Lookup(front, id).value;
        assert IsLastFor(payloads, i, id) && payloads[i] == Lookup(payloads, id).value;
      }
    }
  }

  /** Main result: a request resolves only with the result of the last payload bearing its own id,
      and only when that payload reports no error. */
  lemma ResolvedMeansOwnPayload(reply: Reply, batch: seq<Request>, i: nat)
    requires i < |batch| && SettlementOf(reply, batch, i).Resolved?
    ensures reply.Results?
    ensures exists k: nat :: IsLastFor(reply.payloads, k, batch[i].id)
                          && reply.payloads[k].error.None?
                          && reply.payloads[k].result == SettlementOf(reply, batch, i).value
  {
    LookupIsLast(reply.payloads, batch[i].id);
  }

  lemma {:induction false} LastIsLookedUp(payloads: seq<Payload>, k: nat, id: int)
    requires IsLastFor(payloads, k, id)
    ensures Lookup(payloads, id) == Some(payloads[k])
  {
    LookupIsLast(payloads, id);
  }

  /** The result of a payload without error, or else its error. */
  predicate SettledBy(p: Payload, s: Settlement)
    requires p.Payload?
  {
    if p.error.None? then s == Resolved(p.result)
    else
      var e := p.error.value;
      e.message.Some? && s == Rejected(ServerError(e.message.value, e.code))
  }

  predicate ErrsWithoutMessage(p: Payload)
    requires p.Payload?
  {
    p.error.Some? && p.error.value.message.None?
  }

  /** Main result: in a regular reply, before the first payload that throws, a request is rejected
      as missing iff no payload bears its id, and otherwise settled by the last one that does. */
  lemma RegularSettlements(reply: Reply, batch: seq<Request>, i: nat)
    requires IsRegular(reply) && i < Answered(reply, batch)
    ensures SettlementOf(reply, batch, i) == Rejected(MissingPayload(batch[i].id))
       <==> forall k :: 0 <= k < |reply.payloads| ==> !Bears(reply.payloads[k], batch[i].id)
    ensures forall k: nat :: IsLastFor(reply.payloads, k, batch[i].id) ==>
      SettledBy(reply.payloads[k], SettlementOf(reply, batch, i))
  {
    LookupIsLast(reply.payloads, batch[i].id);
    assert !Throws(reply.payloads, batch[i]);
    forall k: nat | IsLastFor(reply.payloads, k, batch[i].id)
      ensures Lookup(reply.payloads, batch[i].id) == Some(reply.payloads[k])
    {
      LastIsLookedUp(reply.payloads, k, batch[i].id);
    }
  }

  /** The first request not settled from its payload is the one whose payload has an error without
      message; it and all later ones are rejected with the exception. */
  lemma ThrowingSettlements(reply: Reply, batch: seq<Request>, i: nat)
    requires IsRegular(reply) && Answered(reply, batch) <= i < |batch|
    ensures SettlementOf(reply, batch, i) == Rejected(Thrown)
    ensures exists k: nat ::
      IsLastFor(reply.payloads, k, batch[Answered(reply, batch)].id) && ErrsWithoutMessage(reply.payloads[k])
  {
    LookupIsLast(reply.payloads, batch[Answered(reply, batch)].id);
  }

  // ---------- what the reply reports about batch sizes ----------

  predicate OccursAt(s: string, part: string, i: nat) {
    i + |part| <= |s| && s[i..i + |part|] == part
  }

  predicate Contains(s: string, part: string) {
    exists i :: 0 <= i <= |s| && OccursAt(s, part, i)
  }

  /** The error messages by which servers complain about large batches. */
  predicate IsSizeComplaint(message: string) {
    || message == "Batch size limit exceeded"
    || message == "exceeded project rate limit"
    || Contains(message, "Failed to buffer the request body")
    || Contains(message, "Too Many Requests")
    || Contains(message, "Request Entity Too Large")
  }

  predicate Complains(payloads: seq<Payload>, r: Request)
    requires !Throws(payloads, r)
  {
    var v := Verdict(payloads, r);
    v.Rejected? && v.reason.ServerError? && IsSizeComplaint(v.reason.message)
  }

  /** One failure for each complaint among the first n requests. */
  function Complaints(payloads: seq<Payload>, batch: seq<Request>, n: nat): (r: seq<bool>)
    requires n <= FirstThrow(payloads, batch)
    ensures |r| <= n && forall i :: 0 <= i < |r| ==> !r[i]
  {
    if n == 0 then []
    else Complaints(payloads, batch, n - 1) + (if Complains(payloads, batch[n - 1]) then [false] else [])
  }

  predicate ComplainsAt(payloads: seq<Payload>, batch: seq<Request>, i: nat) {
    var stop := FirstThrow(payloads, batch);
    i < stop && Complains(payloads, batch[i])
  }

  function IndicesOf(p: nat -> bool, n: nat): set<nat> {
    set i: nat | i < n && p(i)
  }

  lemma OneMoreIndex(p: nat -> bool, n: nat)
    ensures |IndicesOf(p, n + 1)| == |IndicesOf(p, n)| + (if p(n) then 1 else 0)
  {
    if p(n) {
      assert IndicesOf(p, n + 1) == IndicesOf(p, n) + {n};
    } else {
      assert IndicesOf(p, n + 1) == IndicesOf(p, n);
    }
  }

  /** The requests among the first n that are answered with a complaint about the size. */
  function ComplaintIndices(payloads: seq<Payload>, batch: seq<Request>, n: nat): set<nat>
    requires n <= FirstThrow(payloads, batch)
  {
    IndicesOf((i: nat) => ComplainsAt(payloads, batch, i), n)
  }

  lemma {:induction false} ComplaintsCount(payloads: seq<Payload>, batch: seq<Request>, n: nat)
    requires n <= FirstThrow(payloads, batch)
    ensures |Complaints(payloads, batch, n)| == |ComplaintIndices(payloads, batch, n)|
  {
    if n > 0 {
      ComplaintsCount(payloads, batch, n - 1);
      OneMoreIndex((i: nat) => ComplainsAt(payloads, batch, i), n - 1);
    }
  }

  /** A regular reply reports one failure for each request answered with a complaint about the size,
      then one success unless a payload threw. */
  lemma RegularOutcomes(reply: Reply, batch: seq<Request>)
    requires IsRegular(reply)
    ensures var stop, outcomes := Answered(reply, batch), OutcomesOf(reply, batch);
      var failures := |ComplaintIndices(reply.payloads, batch, stop)|;
      && |outcomes| == failures + (if stop == |batch| then 1 else 0)
      && (forall i :: 0 <= i < failures ==> !outcomes[i])
      && (stop == |batch| ==> outcomes[failures])
  {
    ComplaintsCount(reply.payloads, batch, Answered(reply, batch));
  }

  /** The outcomes reported to the size adjustment, in order. */
  function OutcomesOf(reply: Reply, batch: seq<Request>): seq<bool> {
    match reply
    case NotArray(isNull, message) =>
      if !isNull && message == Some("Batch size is too large") then [false] else []
    case TransportFailure(_) => []
    case Results(payloads) =>
      if IsSingleNullId(payloads) then [false]
      else if HasGarbage(payloads) then []
      else
        var k := FirstThrow(payloads, batch);
        Complaints(payloads, batch, k) + (if k == |batch| then [true] else [])
  }

  /** A text contains a part iff the part stands somewhere in it. */
  lemma ContainsExactly(s: string, part: string)
    ensures Contains(s, part) <==> exists before, after :: s == before + part + after
  {
    if Contains(s, part) {
      var i :| 0 <= i <= |s| && OccursAt(s, part, i);
      assert s == s[..i] + part + s[i + |part|..];
    }
    if before, after :| s == before + part + after {
      assert OccursAt(s, part, |before|);
    }
  }

  /** The complaints are two exact messages and three texts inside of any message. */
  lemma ComplaintsExactly(message: string)
    ensures IsSizeComplaint(message)
       <==> || message in {"Batch size limit exceeded", "exceeded project rate limit"}
            || exists before, part, after ::
                 && part in {"Failed to buffer the request body", "Too Many Requests", "Request Entity Too Large"}
                 && message == before + part + after
  {
    ContainsExactly(message, "Failed to buffer the request body");
    ContainsExactly(message, "Too Many Requests");
    ContainsExactly(message, "Request Entity Too Large");
  }

  /** Main result: a reply that is not regular rejects every request of its batch, for one reason that says
      what came back, and reports a failure to the size adjustment only when it is about the size or the rate. */
  lemma IrregularReplies(reply: Reply, batch: seq<Request>, i: nat)
    requires i < |batch| && !IsRegular(reply)
    ensures SettlementOf(reply, batch, i).Rejected?
    ensures var reason, outcomes := SettlementOf(reply, batch, i).reason, OutcomesOf(reply, batch);
      match reply
      case TransportFailure(error) => reason == Transport(error) && outcomes == []
      case NotArray(isNull, message) =>
        && reason == InvalidResponse && |outcomes| <= 1 && true !in outcomes
        && (false in outcomes <==> !isNull && message == Some("Batch size is too large"))
      case Results(payloads) =>
        if |payloads| == 1 && payloads[0].Payload? then
          && payloads[0].id == None && outcomes == [false]
          && reason == RateLimited(if payloads[0].error.Some? then payloads[0].error.value.message else None)
        else
          Payload.Garbage in payloads && reason == Thrown && outcomes == []
  {
  }

  // ---------- the chain-id cache ----------

  /** The cache after the first n requests: each resolved chain-id request overwrites it. */
  function ChainIdAfter(cache: Option<string>, payloads: seq<Payload>, batch: seq<Request>, n: nat): Option<string>
    requires n <= FirstThrow(payloads, batch)
  {
    if n == 0 then cache
    else
      var v := Verdict(payloads, batch[n - 1]);
      if batch[n - 1].methodName == CHAIN_ID_METHOD && v.Resolved? then v.value
      else ChainIdAfter(cache, payloads, batch, n - 1)
  }

  function CacheAfter(cache: Option<string>, reply: Reply, batch: seq<Request>): Option<string> {
    if IsRegular(reply) then ChainIdAfter(cache, reply.payloads, batch, FirstThrow(reply.payloads, batch)) else cache
  }

  predicate GivesChainId(payloads: seq<Payload>, r: Request)
    requires !Throws(payloads, r)
  {
    r.methodName == CHAIN_ID_METHOD && Verdict(payloads, r).Resolved?
  }

  /** The cache ends as the result of the last chain-id request resolved, or unchanged without one. */
  lemma {:induction false} CacheIsLastChainId(cache: Option<string>, payloads: seq<Payload>, batch: seq<Request>,
                                              n: nat, i: nat)
    requires n <= FirstThrow(payloads, batch)
    ensures (forall j :: 0 <= j < n ==> !GivesChainId(payloads, batch[j])) ==>
      ChainIdAfter(cache, payloads, batch, n) == cache
    ensures i < n && GivesChainId(payloads, batch[i])
            && (forall j :: i < j < n ==> !GivesChainId(payloads, batch[j])) ==>
      ChainIdAfter(cache, payloads, batch, n) == Verdict(payloads, batch[i]).value
  {
    if n > 0 {
      CacheIsLastChainId(cache, payloads, batch, n - 1, i);
    }
  }

  /** A cached chain id is old or the result of a chain-id request of this batch. */
  lemma {:induction false} ChainIdHasOrigin(cache: Option<string>, payloads: seq<Payload>, batch: seq<Request>, n: nat)
    requires n <= FirstThrow(payloads, batch)
    ensures ChainIdAfter(cache, payloads, batch, n) == cache
      || exists i :: 0 <= i < n && batch[i].methodName == CHAIN_ID_METHOD
           && Verdict(payloads, batch[i]) == Resolved(ChainIdAfter(cache, payloads, batch, n))
  {
    if n > 0 {
      ChainIdHasOrigin(cache, payloads, batch, n - 1);
    }
  }

  predicate ResolvesChainId(reply: Reply, batch: seq<Request>, i: nat) {
    i < |batch| && batch[i].methodName == "eth_chainId" && SettlementOf(reply, batch, i).Resolved?
  }

  /** Main result: after any reply the cache is the result of the last chain-id request that the reply resolves, and
      unchanged if it resolves none. */
  lemma CacheExactly(cache: Option<string>, reply: Reply, batch: seq<Request>, i: nat)
    ensures (forall j: nat :: !ResolvesChainId(reply, batch, j)) ==> CacheAfter(cache, reply, batch) == cache
    ensures ResolvesChainId(reply, batch, i) && (forall j: nat :: i < j ==> !ResolvesChainId(reply, batch, j)) ==>
      CacheAfter(cache, reply, batch) == SettlementOf(reply, batch, i).value
  {
    if IsRegular(reply) {
      var stop := FirstThrow(reply.payloads, batch);
      forall j: nat
        ensures ResolvesChainId(reply, batch, j) <==> j < stop && GivesChainId(reply.payloads, batch[j])
      {
      }
      CacheIsLastChainId(cache, reply.payloads, batch, stop, i);
    }
  }
}
