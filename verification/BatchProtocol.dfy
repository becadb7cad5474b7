/** The batching provider as a state machine: requests are sent, batches are dispatched by a timer
    or a full batch, replies arrive in any order. */
module BatchProtocol {
  import opened Collections
  import opened AdaptiveSize
  import opened BatchReplies

  /** The fields of the provider, the promises, and the history of the run: `sent`, `dispatched`,
      `replies` (by batch), the outcomes since the size was last configured, and the extreme sizes
      configured so far. */
  datatype State = State(
    sizes: Sizes, nextId: int, pending: Option<seq<Request>>, timer: bool, chainId: Option<string>,
    settled: map<int, Settlement>,
    firstId: int, sent: seq<Request>, dispatched: seq<seq<Request>>, replies: map<nat, Reply>,
    configured: int, outcomes: seq<bool>, lowest: int, highest: int)

  function Initial(firstId: int): State {
    State(Sizes(1, 0, 0), firstId, None, false, None, map[], firstId, [], [], map[], 1, [], 1, 1)
  }

  datatype Event =
    | Configure(size: int)
    | Send(methodName: string, params: string)
    | Flush
    | TimerFires
    | ReplyArrives(batch: nat, reply: Reply)

  function PendingOf(s: State): seq<Request> {
    if s.pending.Some? then s.pending.value else []
  }

  /** `setBatchSize`. */
  function ConfigureStep(s: State, size: int): State {
    s.(sizes := s.sizes.(batchSize := size), configured := size, outcomes := Unfinished(s.outcomes),
       lowest := Min(s.lowest, size), highest := Max(s.highest, size))
  }

  /** `runRequests` up to the network call. */
  function Dispatch(s: State): State {
    s.(pending := None, timer := false, dispatched := s.dispatched + [PendingOf(s)])
  }

  function FlushStep(s: State): State {
    if s.timer then Dispatch(s) else s
  }

  predicate Cached(s: State, methodName: string) {
    methodName == CHAIN_ID_METHOD && s.chainId.Some?
  }

  /** The request waits in the pending batch, and the timer runs. */
  function Enqueued(s: State, r: Request): State {
    s.(nextId := s.nextId + 1, pending := Some(PendingOf(s) + [r]), timer := true, sent := s.sent + [r])
  }

  function SendStep(s: State, methodName: string, params: string): State {
    if Cached(s, methodName) then s
    else
      var s' := Enqueued(s, Request(s.nextId, methodName, params));
      if |PendingOf(s')| > s.sizes.batchSize then FlushStep(s') else s'
  }

  /** A dispatched batch whose reply, or failure, has not arrived. */
  predicate InFlight(s: State, b: nat) {
    b < |s.dispatched| && b !in s.replies
  }

  function ReplyStep(s: State, b: nat, reply: Reply): State
    requires InFlight(s, b)
  {
    var batch := s.dispatched[b];
    var outcomes := OutcomesOf(reply, batch);
    s.(settled := SettlePrefix(s.settled, reply, batch, |batch|),
       sizes := AdjustAll(s.sizes, outcomes),
       outcomes := s.outcomes + outcomes,
       chainId := CacheAfter(s.chainId, reply, batch),
       replies := s.replies[b := reply])
  }

  /** One event; events that cannot happen leave the state alone. */
  function Step(s: State, e: Event): State {
    match e
    case Configure(size) => ConfigureStep(s, size)
    case Send(methodName, params) => SendStep(s, methodName, params)
    case Flush => FlushStep(s)
    case TimerFires => if s.timer then Dispatch(s) else s
    case ReplyArrives(b, reply) => if InFlight(s, b) then ReplyStep(s, b, reply) else s
  }

  function Run(s: State, es: seq<Event>): State {
    if es == [] then s else Step(Run(s, es[..|es| - 1]), es[|es| - 1])
  }

  // ---------- the queue ----------

  function Flatten(bs: seq<seq<Request>>): seq<Request> {
    if bs == [] then [] else Flatten(bs[..|bs| - 1]) + bs[|bs| - 1]
  }

  function MaxSize(s: State): int {
    Max(MAX_ADAPTED, s.highest)
  }

  /** Nothing is lost, duplicated or reordered on the way from `send` to the network. */
  predicate FifoConservation(s: State) {
    Flatten(s.dispatched) + PendingOf(s) == s.sent
  }

  predicate ConsecutiveIds(s: State) {
    s.nextId == s.firstId + |s.sent| && forall i :: 0 <= i < |s.sent| ==> s.sent[i].id == s.firstId + i
  }

  predicate TimerIffPending(s: State) {
    (s.timer <==> s.pending.Some?) && (s.pending.Some? ==> s.pending.value != [])
  }

  predicate BatchesBounded(s: State) {
    && |PendingOf(s)| <= MaxSize(s)
    && forall b :: 0 <= b < |s.dispatched| ==> 1 <= |s.dispatched[b]| <= MaxSize(s) + 1
  }

  predicate SizesWindowed(s: State) {
    && s.sizes == SizesAfter(s.configured, s.outcomes)
    && s.lowest <= s.configured <= s.highest
    && s.lowest <= 1
  }

  predicate QueueInvariant(s: State) {
    FifoConservation(s) && ConsecutiveIds(s) && TimerIffPending(s) && BatchesBounded(s) && SizesWindowed(s)
  }

  lemma {:induction false} DispatchExtendsFlatten(bs: seq<seq<Request>>, batch: seq<Request>)
    ensures Flatten(bs + [batch]) == Flatten(bs) + batch
  {
  }

  /** Configured sizes bound the batch size at every moment. */
  lemma BatchSizeBounds(s: State)
    requires SizesWindowed(s)
    ensures s.lowest <= s.sizes.batchSize <= MaxSize(s)
  {
    SizeStaysInBounds(s.configured, s.outcomes);
  }

  lemma DispatchKeepsQueue(s: State)
    requires FifoConservation(s) && ConsecutiveIds(s) && SizesWindowed(s)
    requires 1 <= |PendingOf(s)| <= MaxSize(s) + 1
    requires forall b :: 0 <= b < |s.dispatched| ==> 1 <= |s.dispatched[b]| <= MaxSize(s) + 1
    ensures QueueInvariant(Dispatch(s))
  {
  }

  lemma EnqueuedKeepsOrder(s: State, r: Request)
    requires QueueInvariant(s) && r.id == s.nextId
    ensures var s' := Enqueued(s, r);
      FifoConservation(s') && ConsecutiveIds(s') && SizesWindowed(s') && TimerIffPending(s')
  {
    var s' := Enqueued(s, r);
    assert Flatten(s'.dispatched) + PendingOf(s') == Flatten(s.dispatched) + PendingOf(s) + [r];
  }

  lemma SendKeepsQueue(s: State, methodName: string, params: string)
    requires QueueInvariant(s)
    ensures QueueInvariant(SendStep(s, methodName, params))
  {
    if !Cached(s, methodName) {
      var s' := Enqueued(s, Request(s.nextId, methodName, params));
      EnqueuedKeepsOrder(s, Request(s.nextId, methodName, params));
      BatchSizeBounds(s);
      if |PendingOf(s')| > s.sizes.batchSize {
        DispatchKeepsQueue(s');
      }
    }
  }

  lemma StepKeepsQueue(s: State, e: Event)
    requires QueueInvariant(s)
    ensures QueueInvariant(Step(s, e))
  {
    match e {
      case Configure(size) => ConfigureCarriesWindow(s.configured, size, s.outcomes);
      case Send(methodName, params) => SendKeepsQueue(s, methodName, params);
      case Flush => if s.timer { DispatchKeepsQueue(s); }
      case TimerFires => if s.timer { DispatchKeepsQueue(s); }
      case ReplyArrives(b, reply) =>
        if InFlight(s, b) {
          AdjustAllIsWindowed(s.configured, s.outcomes, OutcomesOf(reply, s.dispatched[b]));
        }
    }
  }

  /** Main result: over every interleaving, dispatched batches followed by the pending one are the
      requests in send order with consecutive ids, the timer is set exactly when a non-empty batch
      is pending, batches respect the configured bound, and the size is its windowed specification. */
  lemma {:induction false} QueueOverEveryRun(firstId: int, es: seq<Event>)
    ensures QueueInvariant(Run(Initial(firstId), es))
  {
    if es != [] {
      QueueOverEveryRun(firstId, es[..|es| - 1]);
      StepKeepsQueue(Run(Initial(firstId), es[..|es| - 1]), es[|es| - 1]);
    }
  }

  /** With one configured size b of at least 1 the size stays in 1..max(10, b), and every batch
      has between 1 and max(10, b) + 1 requests, also when the size shrank while it was pending. */
  lemma {:induction false} ConfiguredOnceBounds(firstId: int, b: int, es: seq<Event>)
    requires b >= 1 && forall i :: 0 <= i < |es| ==> !es[i].Configure?
    ensures var s := Run(Initial(firstId), [Configure(b)] + es);
      && 1 <= s.sizes.batchSize <= Max(10, b)
      && forall k :: 0 <= k < |s.dispatched| ==> 1 <= |s.dispatched[k]| <= Max(10, b) + 1
  {
    QueueOverEveryRun(firstId, [Configure(b)] + es);
    ExtremesOfOneConfigure(firstId, b, es);
    BatchSizeBounds(Run(Initial(firstId), [Configure(b)] + es));
  }

  lemma {:induction false} ExtremesOfOneConfigure(firstId: int, b: int, es: seq<Event>)
    requires b >= 1 && forall i :: 0 <= i < |es| ==> !es[i].Configure?
    ensures var s := Run(Initial(firstId), [Configure(b)] + es); s.lowest == 1 && s.highest == b
  {
    var all := [Configure(b)] + es;
    if es == [] {
      assert all[..0] == [] && all[0] == Configure(b);
    } else {
      ExtremesOfOneConfigure(firstId, b, es[..|es| - 1]);
      assert all[..|all| - 1] == [Configure(b)] + es[..|es| - 1];
      assert all[|all| - 1] == es[|es| - 1];
    }
  }

  // ---------- settlements ----------

  /** The requests dispatched before batch b. */
  function Offset(bs: seq<seq<Request>>, b: nat): nat
    requires b <= |bs|
  {
    if b == 0 then 0 else Offset(bs, b - 1) + |bs[b - 1]|
  }

  lemma {:induction false} OffsetOfPrefix(bs: seq<seq<Request>>, batch: seq<Request>, b: nat)
    requires b <= |bs|
    ensures Offset(bs + [batch], b) == Offset(bs, b)
  {
    if b > 0 {
      OffsetOfPrefix(bs, batch, b - 1);
    }
  }

  lemma {:induction false} OffsetIsMonotone(bs: seq<seq<Request>>, b: nat, c: nat)
    requires b < c <= |bs|
    ensures Offset(bs, b) + |bs[b]| <= Offset(bs, c)
  {
    if b + 1 < c {
      OffsetIsMonotone(bs, b, c - 1);
    }
  }

  lemma {:induction false} FlattenAt(bs: seq<seq<Request>>, b: nat, i: nat)
    requires b < |bs| && i < |bs[b]|
    ensures Offset(bs, b) + i < |Flatten(bs)| == Offset(bs, |bs|)
    ensures Flatten(bs)[Offset(bs, b) + i] == bs[b][i]
  {
    var front, last := bs[..|bs| - 1], bs[|bs| - 1];
    assert bs == front + [last];
    OffsetOfPrefix(front, last, |front|);
    FlattenLength(front);
    if b < |front| {
      FlattenAt(front, b, i);
      OffsetOfPrefix(front, last, b);
    }
  }

  lemma {:induction false} FlattenLength(bs: seq<seq<Request>>)
    ensures |Flatten(bs)| == Offset(bs, |bs|)
  {
    if bs != [] {
      var front, last := bs[..|bs| - 1], bs[|bs| - 1];
      FlattenLength(front);
      assert bs == front + [last];
      OffsetOfPrefix(front, last, |front|);
    }
  }

  /** Ids tell dispatched requests apart, across batches too. */
  lemma IdsAreUnique(s: State, b: nat, i: nat, c: nat, j: nat)
    requires FifoConservation(s) && ConsecutiveIds(s)
    requires b < |s.dispatched| && i < |s.dispatched[b]| && c < |s.dispatched| && j < |s.dispatched[c]|
    ensures s.dispatched[b][i].id == s.dispatched[c][j].id ==> b == c && i == j
  {
    FlattenAt(s.dispatched, b, i);
    FlattenAt(s.dispatched, c, j);
    if b < c { OffsetIsMonotone(s.dispatched, b, c); }
    if c < b { OffsetIsMonotone(s.dispatched, c, b); }
    assert s.sent[Offset(s.dispatched, b) + i] == s.dispatched[b][i];
    assert s.sent[Offset(s.dispatched, c) + j] == s.dispatched[c][j];
  }

  /** Every request of an answered batch is settled as its reply says, and no other request is. */
  predicate SettledExactly(s: State) {
    && (forall b :: b in s.replies ==> b < |s.dispatched|)
    && (forall b, i :: 0 <= b < |s.dispatched| && 0 <= i < |s.dispatched[b]| ==>
          if b in s.replies then
            s.dispatched[b][i].id in s.settled
            && s.settled[s.dispatched[b][i].id] == SettlementOf(s.replies[b], s.dispatched[b], i)
          else s.dispatched[b][i].id !in s.settled)
    && (forall id :: id in s.settled ==> s.firstId <= id < s.firstId + |Flatten(s.dispatched)|)
  }

  lemma ReplyKeepsSettled(s: State, b: nat, reply: Reply)
    requires FifoConservation(s) && ConsecutiveIds(s) && SettledExactly(s) && InFlight(s, b)
    ensures SettledExactly(ReplyStep(s, b, reply))
  {
    var batch, s' := s.dispatched[b], ReplyStep(s, b, reply);
    assert DistinctIds(batch) by {
      forall i, j | 0 <= i < j < |batch|
        ensures batch[i].id != batch[j].id
      {
        IdsAreUnique(s, b, i, b, j);
      }
    }
    SettlePrefixSettles(s.settled, reply, batch, |batch|);
    forall c, j | 0 <= c < |s.dispatched| && 0 <= j < |s.dispatched[c]|
      ensures var id := s.dispatched[c][j].id;
        if c in s'.replies then id in s'.settled && s'.settled[id] == SettlementOf(s'.replies[c], s.dispatched[c], j)
        else id !in s'.settled
    {
      var id := s.dispatched[c][j].id;
      if c in s.replies {
        SettlePrefixKeeps(s.settled, reply, batch, |batch|, id);
      } else if c != b && exists i :: 0 <= i < |batch| && batch[i].id == id {
        var i :| 0 <= i < |batch| && batch[i].id == id;
        IdsAreUnique(s, b, i, c, j);
        assert false;
      }
    }
    forall id | id in s'.settled
      ensures s.firstId <= id < s.firstId + |Flatten(s.dispatched)|
    {
      if id !in s.settled {
        var i :| 0 <= i < |batch| && batch[i].id == id;
        FlattenAt(s.dispatched, b, i);
        assert s.sent[Offset(s.dispatched, b) + i] == batch[i];
      }
    }
  }

  lemma DispatchKeepsSettled(s: State)
    requires FifoConservation(s) && ConsecutiveIds(s) && SettledExactly(s)
    ensures SettledExactly(Dispatch(s))
  {
    var batch := PendingOf(s);
    DispatchExtendsFlatten(s.dispatched, batch);
    forall i | 0 <= i < |batch|
      ensures batch[i].id !in s.settled
    {
      assert s.sent[|Flatten(s.dispatched)| + i] == batch[i];
    }
  }

  lemma StepKeepsSettled(s: State, e: Event)
    requires QueueInvariant(s) && SettledExactly(s)
    ensures SettledExactly(Step(s, e))
  {
    match e {
      case Configure(size) =>
      case Send(methodName, params) =>
        if !Cached(s, methodName) {
          var r := Request(s.nextId, methodName, params);
          var s' := Enqueued(s, r);
          assert Flatten(s'.dispatched) + PendingOf(s') == Flatten(s.dispatched) + PendingOf(s) + [r];
          DispatchKeepsSettled(s');
        }
      case Flush => DispatchKeepsSettled(s);
      case TimerFires => DispatchKeepsSettled(s);
      case ReplyArrives(b, reply) => if InFlight(s, b) { ReplyKeepsSettled(s, b, reply); }
    }
  }

  /** Main result: over every interleaving, all requests of answered batches are settled, each
      exactly as its own reply says, and nothing else is. */
  lemma {:induction false} SettlementOverEveryRun(firstId: int, es: seq<Event>)
    ensures SettledExactly(Run(Initial(firstId), es))
  {
    if es != [] {
      SettlementOverEveryRun(firstId, es[..|es| - 1]);
      QueueOverEveryRun(firstId, es[..|es| - 1]);
      StepKeepsSettled(Run(Initial(firstId), es[..|es| - 1]), es[|es| - 1]);
    }
  }

  /** A settlement, once made, stands for the rest of the run. */
  lemma {:induction false} FirstSettlementStands(s: State, es: seq<Event>, id: int)
    requires id in s.settled
    ensures id in Run(s, es).settled && Run(s, es).settled[id] == s.settled[id]
  {
    if es != [] {
      var before, e := Run(s, es[..|es| - 1]), es[|es| - 1];
      FirstSettlementStands(s, es[..|es| - 1], id);
      if e.ReplyArrives? && InFlight(before, e.batch) {
        var batch := before.dispatched[e.batch];
        SettlePrefixKeeps(before.settled, e.reply, batch, |batch|, id);
      }
    }
  }

  // ---------- the chain-id cache ----------

  /** The cache holds a chain id that the server gave to a chain-id request of this run. */
  predicate CacheIsGenuine(s: State) {
    s.chainId.Some? ==>
      exists b, i :: 0 <= b < |s.dispatched| && 0 <= i < |s.dispatched[b]| && b in s.replies
        && s.dispatched[b][i].methodName == CHAIN_ID_METHOD
        && SettlementOf(s.replies[b], s.dispatched[b], i) == Resolved(s.chainId)
  }

  lemma ReplyKeepsCache(s: State, b: nat, reply: Reply)
    requires CacheIsGenuine(s) && InFlight(s, b)
    ensures CacheIsGenuine(ReplyStep(s, b, reply))
  {
    var s' := ReplyStep(s, b, reply);
    if s'.chainId.Some? {
      if s'.chainId == s.chainId {
        var c, j :| 0 <= c < |s.dispatched| && 0 <= j < |s.dispatched[c]| && c in s.replies
          && s.dispatched[c][j].methodName == CHAIN_ID_METHOD
          && SettlementOf(s.replies[c], s.dispatched[c], j) == Resolved(s.chainId);
        assert c in s'.replies && s'.dispatched[c][j].methodName == CHAIN_ID_METHOD;
      } else {
        var batch := s.dispatched[b];
        var k := FirstThrow(reply.payloads, batch);
        ChainIdHasOrigin(s.chainId, reply.payloads, batch, k);
        var i :| 0 <= i < k && batch[i].methodName == CHAIN_ID_METHOD
          && Verdict(reply.payloads, batch[i]) == Resolved(s'.chainId);
        assert b in s'.replies && s'.dispatched[b][i].methodName == CHAIN_ID_METHOD;
      }
    }
  }

  lemma OtherStepsKeepCache(s: State, e: Event)
    requires CacheIsGenuine(s) && !e.ReplyArrives?
    ensures CacheIsGenuine(Step(s, e))
  {
    var s' := Step(s, e);
    assert s'.chainId == s.chainId && s'.replies == s.replies;
    assert s.dispatched <= s'.dispatched;
    if s.chainId.Some? {
      var c, j :| 0 <= c < |s.dispatched| && 0 <= j < |s.dispatched[c]| && c in s.replies
        && s.dispatched[c][j].methodName == CHAIN_ID_METHOD
        && SettlementOf(s.replies[c], s.dispatched[c], j) == Resolved(s.chainId);
      assert s'.dispatched[c][j].methodName == CHAIN_ID_METHOD;
    }
  }

  /** Main result: a chain id answered from the cache was once the settlement of a chain-id request. */
  lemma {:induction false} CacheOverEveryRun(firstId: int, es: seq<Event>)
    ensures CacheIsGenuine(Run(Initial(firstId), es))
  {
    if es != [] {
      var before, e := Run(Initial(firstId), es[..|es| - 1]), es[|es| - 1];
      CacheOverEveryRun(firstId, es[..|es| - 1]);
      if e.ReplyArrives? {
        if InFlight(before, e.batch) { ReplyKeepsCache(before, e.batch, e.reply); }
      } else {
        OtherStepsKeepCache(before, e);
      }
    }
  }

  // ---------- every event has its effect ----------

  /** After this nothing waits: every request so far was handed to the network. */
  predicate NothingWaits(s: State) {
    Flatten(s.dispatched) == s.sent && s.pending.None? && !s.timer
  }

  /** Main result: whenever the timer fires, and whenever the provider is flushed, everything sent so far has
      been dispatched. */
  lemma {:induction false} TimerAndFlushSendEverything(firstId: int, es: seq<Event>)
    ensures NothingWaits(Run(Initial(firstId), es + [TimerFires]))
    ensures NothingWaits(Run(Initial(firstId), es + [Flush]))
    ensures Run(Initial(firstId), es + [TimerFires]).sent == Run(Initial(firstId), es).sent
    ensures Run(Initial(firstId), es + [Flush]).sent == Run(Initial(firstId), es).sent
  {
    assert (es + [TimerFires])[..|es|] == es && (es + [Flush])[..|es|] == es;
    QueueOverEveryRun(firstId, es);
    var s := Run(Initial(firstId), es);
    DispatchExtendsFlatten(s.dispatched, PendingOf(s));
    assert s.sent + [] == s.sent;
  }

  /** Main result: a request that the cache does not answer joins the sent ones under the next id; it is
      dispatched at once, with all requests waiting, if and only if these exceed the batch size with it, and
      otherwise waits with the timer set. A request that the cache answers changes nothing. */
  lemma {:induction false} SendExactly(firstId: int, es: seq<Event>, methodName: string, params: string)
    ensures var before, after := Run(Initial(firstId), es), Run(Initial(firstId), es + [Send(methodName, params)]);
      if methodName == CHAIN_ID_METHOD && before.chainId.Some? then after == before
      else
        && after.sent == before.sent + [Request(before.nextId, methodName, params)]
        && (NothingWaits(after) <==> |PendingOf(before)| + 1 > before.sizes.batchSize)
        && (!NothingWaits(after) ==>
              after.timer && after.dispatched == before.dispatched && |PendingOf(after)| == |PendingOf(before)| + 1)
  {
    var e := Send(methodName, params);
    assert (es + [e])[..|es|] == es;
    QueueOverEveryRun(firstId, es);
    QueueOverEveryRun(firstId, es + [e]);
    var before := Run(Initial(firstId), es);
    if !Cached(before, methodName) {
      var s' := Enqueued(before, Request(before.nextId, methodName, params));
      DispatchExtendsFlatten(s'.dispatched, PendingOf(s'));
      assert Flatten(before.dispatched) + PendingOf(s') == s'.sent;
    }
  }

  /** The requests of a run that the cache did not answer when they were sent. */
  function UncachedSends(s: State, es: seq<Event>): seq<(string, string)> {
    if es == [] then []
    else
      var front, last := es[..|es| - 1], es[|es| - 1];
      UncachedSends(s, front)
      + (if last.Send? && !Cached(Run(s, front), last.methodName) then [(last.methodName, last.params)] else [])
  }

  lemma {:induction false} FirstIdStays(s: State, es: seq<Event>)
    ensures Run(s, es).firstId == s.firstId
  {
    if es != [] {
      FirstIdStays(s, es[..|es| - 1]);
    }
  }

  lemma OnlySendsSend(s: State, e: Event)
    requires !e.Send?
    ensures Step(s, e).sent == s.sent
  {
  }

  /** Main result: the requests sent over a run are exactly those, in order. */
  lemma {:induction false} SentOverEveryRun(firstId: int, es: seq<Event>)
    ensures var sent, sends := Run(Initial(firstId), es).sent, UncachedSends(Initial(firstId), es);
      |sent| == |sends| && forall i :: 0 <= i < |sent| ==> sent[i] == Request(firstId + i, sends[i].0, sends[i].1)
  {
    if es != [] {
      var front, last := es[..|es| - 1], es[|es| - 1];
      SentOverEveryRun(firstId, front);
      QueueOverEveryRun(firstId, front);
      assert es == front + [last];
      FirstIdStays(Initial(firstId), front);
      var before := Run(Initial(firstId), front);
      if last.Send? {
        SendExactly(firstId, front, last.methodName, last.params);
        assert before.nextId == firstId + |before.sent|;
      } else {
        OnlySendsSend(before, last);
      }
    }
  }

  /** Main result: a reply settles every request of its batch that is still open, is remembered as the batch's
      reply, and is the only thing reported to the size adjustment; a second reply changes nothing. */
  lemma {:induction false} ReplyExactly(firstId: int, es: seq<Event>, b: nat, reply: Reply)
    ensures var before, after := Run(Initial(firstId), es), Run(Initial(firstId), es + [ReplyArrives(b, reply)]);
      if b >= |before.dispatched| || b in before.replies then after == before
      else
        && after.replies == before.replies[b := reply]
        && (forall i :: 0 <= i < |before.dispatched[b]| ==>
              var id := before.dispatched[b][i].id;
              id !in before.settled && id in after.settled
              && after.settled[id] == SettlementOf(reply, before.dispatched[b], i))
        && after.chainId == CacheAfter(before.chainId, reply, before.dispatched[b])
        && after.outcomes == before.outcomes + OutcomesOf(reply, before.dispatched[b])
        && after.sizes == SizesAfter(before.configured, after.outcomes)
        && after.sent == before.sent && after.dispatched == before.dispatched && after.pending == before.pending
  {
    var e := ReplyArrives(b, reply);
    assert (es + [e])[..|es|] == es;
    SettlementOverEveryRun(firstId, es);
    SettlementOverEveryRun(firstId, es + [e]);
    QueueOverEveryRun(firstId, es + [e]);
  }

  /** Configuring sets the size and keeps the counters of the unfinished window, and the queue. */
  lemma {:induction false} ConfigureExactly(firstId: int, es: seq<Event>, size: int)
    ensures var before, after := Run(Initial(firstId), es), Run(Initial(firstId), es + [Configure(size)]);
      && after.sizes == before.sizes.(batchSize := size)
      && after.sent == before.sent && after.dispatched == before.dispatched && after.pending == before.pending
      && after.settled == before.settled && after.timer == before.timer && after.chainId == before.chainId
  {
    assert (es + [Configure(size)])[..|es|] == es;
  }
}
