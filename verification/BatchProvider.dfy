/** The provider object of packages/node/src/ethereum/ethers/json-rpc-batch-provider.ts, its methods
    proved against the steps of `BatchProtocol`. */
module BatchProvider {
  import opened Collections
  import opened AdaptiveSize
  import opened BatchReplies
  import opened BatchProtocol

  class JsonRpcBatchProvider {
    var batchSize: int
    var successfulBatchCount: nat
    var failedBatchCount: nat
    var pendingBatchAggregator: bool // whether the timer is set
    var pendingBatch: Option<seq<Request>>
    var chainIdCache: Option<string>
    var nextId: int
    var promises: map<int, Settlement> // the settled ones

    ghost const firstId: int
    ghost var sent: seq<Request>
    ghost var dispatched: seq<seq<Request>>
    ghost var replies: map<nat, Reply>
    ghost var configured: int
    ghost var outcomes: seq<bool>
    ghost var lowest: int
    ghost var highest: int
    ghost var history: seq<Event>

    ghost function SizeFields(): Sizes
      reads this
    {
      Sizes(batchSize, successfulBatchCount, failedBatchCount)
    }

    ghost function Now(): State
      reads this
    {
      State(SizeFields(), nextId, pendingBatch, pendingBatchAggregator, chainIdCache, promises,
            firstId, sent, dispatched, replies, configured, outcomes, lowest, highest)
    }

    /** The object is in the state that the protocol reaches by the events so far. */
    ghost predicate Valid()
      reads this
    {
      Now() == Run(Initial(firstId), history)
    }

    constructor (firstId: int)
      ensures Valid() && history == [] && this.firstId == firstId
      ensures batchSize == 1 && successfulBatchCount == failedBatchCount == 0
      ensures pendingBatch.None? && !pendingBatchAggregator && chainIdCache.None? && promises == map[] && sent == []
    {
      batchSize, successfulBatchCount, failedBatchCount := 1, 0, 0;
      pendingBatchAggregator, pendingBatch, chainIdCache := false, None, None;
      nextId, promises := firstId, map[];
      this.firstId, sent, dispatched, replies := firstId, [], [], map[];
      configured, outcomes, lowest, highest := 1, [], 1, 1;
      history := [];
    }

    /** What holds of the object whenever no method is running. */
    lemma Guarantees()
      requires Valid()
      ensures QueueInvariant(Now()) && SettledExactly(Now()) && CacheIsGenuine(Now())
    {
      QueueOverEveryRun(firstId, history);
      SettlementOverEveryRun(firstId, history);
      CacheOverEveryRun(firstId, history);
    }

    method SetBatchSize(size: int)
      requires Valid()
      modifies this
      ensures Valid() && history == old(history) + [Configure(size)]
    {
      batchSize := size;
      NoteConfigured(size);
      Record(Configure(size));
    }

    /** The history fields of a newly configured size. */
    ghost method NoteConfigured(size: int)
      requires batchSize == size
      modifies this`configured, this`outcomes, this`lowest, this`highest
      ensures configured == size && outcomes == Unfinished(old(outcomes))
      ensures lowest == Min(old(lowest), size) && highest == Max(old(highest), size)
    {
      configured, outcomes, lowest, highest := size, Unfinished(outcomes), Min(lowest, size), Max(highest, size);
    }

    /** Appends an event whose effect is already in place. */
    ghost method Record(e: Event)
      requires Now() == Step(Run(Initial(firstId), history), e)
      modifies this`history
      ensures Valid() && history == old(history) + [e]
    {
      assert (history + [e])[..|history|] == history;
      history := history + [e];
    }

    /** Returns the cached chain id, or the id of the request whose promise the caller waits for. */
    method Send(methodName: string, params: string) returns (cached: Option<string>, id: int)
      requires Valid()
      modifies this
      ensures Valid() && history == old(history) + [BatchProtocol.Send(methodName, params)]
      ensures cached == (if methodName == CHAIN_ID_METHOD then old(chainIdCache) else None)
      ensures cached.None? ==> id == old(nextId) && id !in old(promises)
    {
      FreshId();
      if methodName == CHAIN_ID_METHOD && chainIdCache.Some? {
        Record(BatchProtocol.Send(methodName, params));
        return chainIdCache, nextId;
      }
      var request := Request(nextId, methodName, params);
      Enqueue(request);
      if |pendingBatch.value| > batchSize {
        FlushPending();
      }
      Record(BatchProtocol.Send(methodName, params));
      return None, request.id;
    }

    method Enqueue(request: Request)
      modifies this`nextId, this`pendingBatch, this`pendingBatchAggregator, this`sent
      ensures Now() == Enqueued(old(Now()), request)
    {
      nextId := nextId + 1;
      if pendingBatch.None? {
        pendingBatch := Some([]);
      }
      pendingBatch := Some(pendingBatch.value + [request]);
      sent := sent + [request];
      if !pendingBatchAggregator {
        pendingBatchAggregator := true;
      }
    }

    /** An id not handed out yet belongs to no settled promise. */
    lemma FreshId()
      requires Valid()
      ensures nextId !in promises
    {
      Guarantees();
      assert |Flatten(dispatched)| <= |sent|;
    }

    /** `flush`, also as the last step of `send`, before the invariant is back in place. */
    method FlushPending()
      modifies this`pendingBatch, this`pendingBatchAggregator, this`dispatched
      ensures Now() == FlushStep(old(Now()))
    {
      if pendingBatchAggregator {
        RunRequests();
      }
    }

    method Flush()
      requires Valid()
      modifies this
      ensures Valid() && history == old(history) + [Event.Flush]
    {
      FlushPending();
      Record(Event.Flush);
    }

    /** The callback of the timer. */
    method TimerFires()
      requires Valid() && pendingBatchAggregator
      modifies this
      ensures Valid() && history == old(history) + [Event.TimerFires]
    {
      RunRequests();
      Record(Event.TimerFires);
    }

    /** Hands the pending batch to the network and clears it for new requests. */
    method RunRequests()
      modifies this`pendingBatch, this`pendingBatchAggregator, this`dispatched
      ensures Now() == Dispatch(old(Now()))
    {
      var batch := if pendingBatch.Some? then pendingBatch.value else [];
      pendingBatch := None;
      pendingBatchAggregator := false;
      dispatched := dispatched + [batch];
    }

    method AdjustBatchSize(success: bool)
      modifies this`batchSize, this`successfulBatchCount, this`failedBatchCount
      ensures SizeFields() == Adjust(old(SizeFields()), success)
    {
      if success {
        successfulBatchCount := successfulBatchCount + 1;
      } else {
        failedBatchCount := failedBatchCount + 1;
      }
      var totalBatches := successfulBatchCount + failedBatchCount;
      if totalBatches % INTERVAL == 0 {
        var successRate := successfulBatchCount as real / totalBatches as real;
        if successRate < 0.9 && batchSize > 1 {
          batchSize := batchSize - 1;
        } else if successRate > 0.95 && batchSize < MAX_ADAPTED {
          batchSize := batchSize + 1;
        }
        successfulBatchCount, failedBatchCount := 0, 0;
      }
    }

    /** Resolves or rejects one promise; only the first time counts. */
    method SettlePromise(id: int, s: Settlement)
      modifies this`promises
      ensures promises == Settle(old(promises), id, s)
    {
      if id !in promises {
        promises := promises[id := s];
      }
    }

    /** Rejects the whole batch; requests settled before keep their settlement. */
    method RejectAll(batch: seq<Request>, reply: Reply, ghost start: nat, reason: Reason)
      requires start <= |batch|
      requires forall i :: start <= i < |batch| ==> SettlementOf(reply, batch, i) == Rejected(reason)
      requires forall i :: 0 <= i < start ==> batch[i].id in promises
      modifies this`promises
      ensures promises == SettlePrefixFrom(old(promises), reply, batch, start, |batch|)
    {
      var i := 0;
      while i < |batch|
        invariant 0 <= i <= |batch|
        invariant promises == SettlePrefixFrom(old(promises), reply, batch, start, Max(start, i))
        invariant forall k :: 0 <= k < start ==> batch[k].id in promises
      {
        SettlePromise(batch[i].id, Rejected(reason));
        i := i + 1;
      }
    }

    /** The `.then` and `.catch` of a dispatched batch. */
    method OnReply(batch: seq<Request>, ghost index: nat, reply: Reply)
      requires Valid() && InFlight(Now(), index) && batch == dispatched[index]
      modifies this
      ensures Valid() && history == old(history) + [ReplyArrives(index, reply)]
    {
      HandleReply(batch, reply);
      outcomes := outcomes + OutcomesOf(reply, batch);
      replies := replies[index := reply];
      Record(ReplyArrives(index, reply));
    }

    method HandleReply(batch: seq<Request>, reply: Reply)
      modifies this`promises, this`batchSize, this`successfulBatchCount, this`failedBatchCount, this`chainIdCache
      ensures promises == SettlePrefix(old(promises), reply, batch, |batch|)
      ensures SizeFields() == AdjustAll(old(SizeFields()), OutcomesOf(reply, batch))
      ensures chainIdCache == CacheAfter(old(chainIdCache), reply, batch)
    {
      SettlePrefixFromZero(promises, reply, batch, |batch|);
      AdjustAllOne(SizeFields(), false);
      match reply {
        case TransportFailure(error) =>
          RejectAll(batch, reply, 0, Transport(error));
        case NotArray(isNull, errorMessage) =>
          RejectAll(batch, reply, 0, InvalidResponse);
          if !isNull && errorMessage == Some("Batch size is too large") {
            AdjustBatchSize(false);
          }
        case Results(payloads) =>
          if IsSingleNullId(payloads) {
            var reported := if payloads[0].error.Some? then payloads[0].error.value.message else None;
            RejectAll(batch, reply, 0, RateLimited(reported));
            AdjustBatchSize(false);
          } else {
            var thrown, resultMap := IndexResults(payloads);
            if thrown {
              RejectAll(batch, reply, 0, Thrown);
            } else {
              SettleEach(batch, reply, resultMap);
            }
          }
      }
    }

    /** The `reduce` over the payloads: the last one wins; reading a null payload throws. */
    method IndexResults(payloads: seq<Payload>) returns (thrown: bool, resultMap: map<int, Payload>)
      ensures thrown <==> HasGarbage(payloads)
      ensures !thrown ==> forall id :: (if id in resultMap then Some(resultMap[id]) else None) == Lookup(payloads, id)
    {
      thrown, resultMap := false, map[];
      var i := 0;
      while i < |payloads|
        invariant 0 <= i <= |payloads|
        invariant forall k :: 0 <= k < i ==> !payloads[k].Garbage?
        invariant forall id :: (if id in resultMap then Some(resultMap[id]) else None) == Lookup(payloads[..i], id)
      {
        var payload := payloads[i];
        if payload.Garbage? {
          return true, resultMap;
        }
        assert payloads[..i + 1][..i] == payloads[..i];
        if payload.id.Some? {
          resultMap := resultMap[payload.id.value := payload];
        }
        i := i + 1;
      }
      assert payloads[..i] == payloads;
    }

    /** The `.catch` of a loop that threw at request i: only the requests from there on are still open. */
    method RejectRest(batch: seq<Request>, reply: Reply, ghost before: map<int, Settlement>, ghost i: nat)
      requires i <= |batch| && promises == SettlePrefix(before, reply, batch, i)
      requires forall k :: i <= k < |batch| ==> SettlementOf(reply, batch, k) == Rejected(Thrown)
      modifies this`promises
      ensures promises == SettlePrefix(before, reply, batch, |batch|)
    {
      SettlePrefixSettles(before, reply, batch, i);
      SettlePrefixSplits(before, reply, batch, i, |batch|);
      RejectAll(batch, reply, i, Thrown);
    }

    /** A server error; a complaint about size or rate counts as a failure. */
    method RejectWithError(id: int, message: string, code: int)
      modifies this`promises, this`batchSize, this`successfulBatchCount, this`failedBatchCount
      ensures promises == Settle(old(promises), id, Rejected(ServerError(message, code)))
      ensures SizeFields() == if IsSizeComplaint(message) then Adjust(old(SizeFields()), false) else old(SizeFields())
    {
      if IsSizeComplaint(message) {
        AdjustBatchSize(false);
      }
      SettlePromise(id, Rejected(ServerError(message, code)));
    }

    /** A result; that of a chain-id request is cached. */
    method ResolveWith(request: Request, result: Option<string>)
      modifies this`promises, this`chainIdCache
      ensures promises == Settle(old(promises), request.id, Resolved(result))
      ensures chainIdCache == if request.methodName == CHAIN_ID_METHOD then result else old(chainIdCache)
    {
      if request.methodName == CHAIN_ID_METHOD {
        chainIdCache := result;
      }
      SettlePromise(request.id, Resolved(result));
    }

    /** Settles one request from its own payload, unless reading the error message throws. */
    method SettleOne(request: Request, ghost payloads: seq<Payload>, resultMap: map<int, Payload>)
      returns (thrown: bool)
      requires (if request.id in resultMap then Some(resultMap[request.id]) else None) == Lookup(payloads, request.id)
      modifies this`promises, this`batchSize, this`successfulBatchCount, this`failedBatchCount, this`chainIdCache
      ensures thrown <==> Throws(payloads, request)
      ensures thrown ==>
        promises == old(promises) && SizeFields() == old(SizeFields()) && chainIdCache == old(chainIdCache)
      ensures !thrown ==>
        && promises == Settle(old(promises), request.id, Verdict(payloads, request))
        && SizeFields() == (if Complains(payloads, request) then Adjust(old(SizeFields()), false)
                            else old(SizeFields()))
        && chainIdCache == if GivesChainId(payloads, request) then Verdict(payloads, request).value
                           else old(chainIdCache)
    {
      thrown := false;
      if request.id !in resultMap {
        SettlePromise(request.id, Rejected(MissingPayload(request.id)));
      } else if resultMap[request.id].error.Some? {
        var error := resultMap[request.id].error.value;
        if error.message.None? {
          return true;
        }
        RejectWithError(request.id, error.message.value, error.code);
      } else {
        ResolveWith(request, resultMap[request.id].result);
      }
    }

    /** The loop that settles each request from its own payload, and the `.catch` when it throws. */
    method SettleEach(batch: seq<Request>, reply: Reply, resultMap: map<int, Payload>)
      requires IsRegular(reply)
      requires forall id :: (if id in resultMap then Some(resultMap[id]) else None) == Lookup(reply.payloads, id)
      modifies this`promises, this`batchSize, this`successfulBatchCount, this`failedBatchCount, this`chainIdCache
      ensures promises == SettlePrefix(old(promises), reply, batch, |batch|)
      ensures SizeFields() == AdjustAll(old(SizeFields()), OutcomesOf(reply, batch))
      ensures chainIdCache == CacheAfter(old(chainIdCache), reply, batch)
    {
      ghost var stop := FirstThrow(reply.payloads, batch);
      var i := 0;
      while i < |batch|
        invariant 0 <= i <= stop
        invariant promises == SettlePrefix(old(promises), reply, batch, i)
        invariant SizeFields() == AdjustAll(old(SizeFields()), Complaints(reply.payloads, batch, i))
        invariant chainIdCache == ChainIdAfter(old(chainIdCache), reply.payloads, batch, i)
      {
        var thrown := SettleOne(batch[i], reply.payloads, resultMap);
        if thrown {
          ThrowEnds(reply, batch, i);
          RejectRest(batch, reply, old(promises), i);
          return;
        }
        SettledOneMore(old(promises), old(chainIdCache), reply, batch, i);
        ComplaintsOneMore(old(SizeFields()), reply.payloads, batch, i);
        i := i + 1;
      }
      AdjustBatchSize(true);
      AdjustAllOneMore(old(SizeFields()), Complaints(reply.payloads, batch, i), true);
    }
  }

  // ---------- helpers of the loops ----------

  /** Settlements of the requests from `start` to `n`. */
  function SettlePrefixFrom(settled: map<int, Settlement>, reply: Reply, batch: seq<Request>, start: nat, n: nat)
    : map<int, Settlement>
    requires start <= n <= |batch|
  {
    if n == start then settled
    else
      var before := SettlePrefixFrom(settled, reply, batch, start, n - 1);
      Settle(before, batch[n - 1].id, SettlementOf(reply, batch, n - 1))
  }

  lemma {:induction false} SettlePrefixSplits(settled: map<int, Settlement>, reply: Reply, batch: seq<Request>,
                                              start: nat, n: nat)
    requires start <= n <= |batch|
    ensures SettlePrefixFrom(SettlePrefix(settled, reply, batch, start), reply, batch, start, n)
         == SettlePrefix(settled, reply, batch, n)
  {
    if n > start {
      SettlePrefixSplits(settled, reply, batch, start, n - 1);
    }
  }

  lemma {:induction false} SettlePrefixFromZero(settled: map<int, Settlement>, reply: Reply, batch: seq<Request>,
                                                n: nat)
    requires n <= |batch|
    ensures SettlePrefixFrom(settled, reply, batch, 0, n) == SettlePrefix(settled, reply, batch, n)
  {
    SettlePrefixSplits(settled, reply, batch, 0, n);
  }

  lemma SettledOneMore(settled: map<int, Settlement>, cache: Option<string>, reply: Reply,
                       batch: seq<Request>, i: nat)
    requires IsRegular(reply) && i < FirstThrow(reply.payloads, batch)
    ensures var v := Verdict(reply.payloads, batch[i]);
      && SettlePrefix(settled, reply, batch, i + 1) == Settle(SettlePrefix(settled, reply, batch, i), batch[i].id, v)
      && ChainIdAfter(cache, reply.payloads, batch, i + 1)
         == if GivesChainId(reply.payloads, batch[i]) then v.value else ChainIdAfter(cache, reply.payloads, batch, i)
  {
  }

  /** When the first payload throws, what was done so far is what the reply reports and caches. */
  lemma {:induction false} ThrowEnds(reply: Reply, batch: seq<Request>, i: nat)
    requires IsRegular(reply) && i < |batch|
    requires i <= FirstThrow(reply.payloads, batch) && Throws(reply.payloads, batch[i])
    ensures i == FirstThrow(reply.payloads, batch) && OutcomesOf(reply, batch) == Complaints(reply.payloads, batch, i)
    ensures forall k :: i <= k < |batch| ==> SettlementOf(reply, batch, k) == Rejected(Thrown)
  {
  }

  lemma ComplaintsOneMore(s: Sizes, payloads: seq<Payload>, batch: seq<Request>, i: nat)
    requires i < FirstThrow(payloads, batch)
    ensures var before := AdjustAll(s, Complaints(payloads, batch, i));
      AdjustAll(s, Complaints(payloads, batch, i + 1))
      == if Complains(payloads, batch[i]) then Adjust(before, false) else before
  {
    var reported := Complaints(payloads, batch, i);
    assert reported + [] == reported;
    AdjustAllOneMore(s, reported, false);
  }

  lemma {:induction false} AdjustAllOneMore(s: Sizes, outcomes: seq<bool>, o: bool)
    ensures AdjustAll(s, outcomes + [o]) == Adjust(AdjustAll(s, outcomes), o)
  {
  }

  lemma {:induction false} AdjustAllOne(s: Sizes, o: bool)
    ensures AdjustAll(s, [o]) == Adjust(s, o)
  {
  }
}
