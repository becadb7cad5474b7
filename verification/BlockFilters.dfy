/** The handler filters of packages/node/src/ethereum/block.ethereum.ts: what a handler
    accepts of the logs and transactions of a block. */
module BlockFilters {
  import opened Collections
  import opened Strings
  import opened Datasources

  const NOT_NULL_FILTER := "!null"

  datatype Log = Log(address: string, topics: seq<string>)

  datatype Transaction = Transaction(from: Option<string>, to: Option<string>, input: string)

  // ---------- transactions ----------

  predicate IsPrefixOf(a: string, b: string) {
    |a| <= |b| && b[..|a|] == a
  }

  function FilterTransactions(h: Hashing, tx: Transaction, filter: Option<TxFilter>, address: Field): bool {
    if filter.None? then true
    else
      var f := filter.value;
      if f.to.Null? && tx.to.Some? then false
      else if Truthy(f.to) && !StringNormalizedEq(f.to.s, tx.to) then false
      else if Truthy(f.from) && !StringNormalizedEq(f.from.s, tx.from) then false
      else if Truthy(address) && f.to.Undefined? && !StringNormalizedEq(address.s, tx.to) then false
      else if f.func.Null? || f.func == Str("0x") then tx.input == "0x"
      else f.func.Undefined? || IsPrefixOf(FunctionToSighash(h, f.func.s), tx.input)
  }

  // ---------- logs ----------

  const MAX_TOPICS: nat := 4

  /** The topics a filter looks at: the first four; none when it has no topic list. */
  function FilterTopics(filter: Option<LogFilter>): (ts: seq<Field>)
    ensures |ts| <= MAX_TOPICS
  {
    if filter.None? || filter.value.topics.None? then []
    else filter.value.topics.value[..Min(|filter.value.topics.value|, MAX_TOPICS)]
  }

  predicate IsNotNull(f: Field) {
    f == Str(NOT_NULL_FILTER)
  }

  predicate HasTopic(log: Log, i: nat) {
    i < |log.topics| && log.topics[i] != ""
  }

  /** How the topic loop ends when it starts at position i. */
  function TopicsVerdict(h: Hashing, log: Log, ts: seq<Field>, i: nat): Result<bool>
    requires i <= |ts|
    decreases |ts| - i
  {
    if i == |ts| then Ok(true)
    else if !Truthy(ts[i]) then TopicsVerdict(h, log, ts, i + 1)
    else if !HasTopic(log, i) then Ok(false)
    else if IsNotNull(ts[i]) then Ok(true)
    else
      var eq := HexStringEq(EventToTopic(h, ts[i].s), log.topics[i]);
      if eq == Ok(true) then TopicsVerdict(h, log, ts, i + 1) else eq
  }

  function LogVerdict(h: Hashing, log: Log, filter: Option<LogFilter>, address: Field): Result<bool> {
    if Truthy(address) && !StringNormalizedEq(address.s, Some(log.address)) then Ok(false)
    else TopicsVerdict(h, log, FilterTopics(filter), 0)
  }

  method FilterLogs(cache: SignatureCache, log: Log, filter: Option<LogFilter>, address: Field)
    returns (r: Result<bool>)
    requires cache.Valid()
    modifies cache`topics
    ensures cache.Valid()
    ensures r == LogVerdict(cache.hashing, log, filter, address)
  {
    if Truthy(address) && !StringNormalizedEq(address.s, Some(log.address)) {
      return Ok(false);
    }
    if filter.None? {
      return Ok(true);
    }
    if filter.value.topics.Some? {
      var topics := filter.value.topics.value;
      var i := 0;
      while i < Min(|topics|, MAX_TOPICS)
        invariant 0 <= i <= Min(|topics|, MAX_TOPICS)
        invariant cache.Valid()
        invariant TopicsVerdict(cache.hashing, log, FilterTopics(filter), 0)
               == TopicsVerdict(cache.hashing, log, FilterTopics(filter), i)
      {
        var topic := topics[i];
        assert topic == FilterTopics(filter)[i];
        if !Truthy(topic) {
          i := i + 1;
          continue;
        }
        if !HasTopic(log, i) {
          return Ok(false);
        }
        if IsNotNull(topic) {
          return Ok(true);
        }
        var wanted := cache.Topic(topic.s);
        var eq := HexStringEq(wanted, log.topics[i]);
        if eq != Ok(true) {
          return eq;
        }
        i := i + 1;
      }
    }
    r := Ok(true);
  }

  // ---------- what the topic loop decides, without the loop ----------

  /** Position of the first `!null` at or after i, or the length: where the loop stops looking. */
  function FirstNotNull(ts: seq<Field>, i: nat): (j: nat)
    requires i <= |ts|
    ensures i <= j <= |ts|
    ensures forall k :: i <= k < j ==> !IsNotNull(ts[k])
    ensures j < |ts| ==> IsNotNull(ts[j])
    decreases |ts| - i
  {
    if i == |ts| || IsNotNull(ts[i]) then i else FirstNotNull(ts, i + 1)
  }

  predicate TopicEquals(h: Hashing, log: Log, t: Field, i: nat) {
    Truthy(t) ==> HasTopic(log, i) && HexStringEq(EventToTopic(h, t.s), log.topics[i]) == Ok(true)
  }

  predicate TopicsAccepted(h: Hashing, log: Log, ts: seq<Field>, i: nat)
    requires i <= |ts|
  {
    var stop := FirstNotNull(ts, i);
    && (forall k :: i <= k < stop ==> TopicEquals(h, log, ts[k], k))
    && (stop < |ts| ==> HasTopic(log, stop))
  }

  /** The loop accepts iff every topic before the first `!null` is equal and that one is present;
      later topics are never looked at. */
  lemma {:induction false} TopicsVerdictMeans(h: Hashing, log: Log, ts: seq<Field>, i: nat)
    requires i <= |ts|
    ensures TopicsVerdict(h, log, ts, i) == Ok(true) <==> TopicsAccepted(h, log, ts, i)
    decreases |ts| - i
  {
    if i < |ts| && !IsNotNull(ts[i]) {
      TopicsVerdictMeans(h, log, ts, i + 1);
      var stop := FirstNotNull(ts, i);
      assert stop == FirstNotNull(ts, i + 1);
      if TopicEquals(h, log, ts[i], i) && TopicsAccepted(h, log, ts, i + 1) {
        assert TopicsAccepted(h, log, ts, i);
      }
    }
  }

  /** The loop throws iff it reaches a topic that is present but cannot be compared as hex. */
  lemma {:induction false} TopicsErrorExactly(h: Hashing, log: Log, ts: seq<Field>, i: nat)
    requires i <= |ts|
    ensures TopicsVerdict(h, log, ts, i).Err?
       <==> exists k ::
              && i <= k < FirstNotNull(ts, i) && Truthy(ts[k]) && HasTopic(log, k)
              && HexStringEq(EventToTopic(h, ts[k].s), log.topics[k]).Err?
              && forall j :: i <= j < k ==> TopicEquals(h, log, ts[j], j)
    decreases |ts| - i
  {
    if i < |ts| && !IsNotNull(ts[i]) {
      TopicsErrorExactly(h, log, ts, i + 1);
      assert FirstNotNull(ts, i) == FirstNotNull(ts, i + 1);
      if TopicEquals(h, log, ts[i], i) {
        if k :| && i + 1 <= k < FirstNotNull(ts, i + 1) && Truthy(ts[k]) && HasTopic(log, k)
                && HexStringEq(EventToTopic(h, ts[k].s), log.topics[k]).Err?
                && forall j :: i + 1 <= j < k ==> TopicEquals(h, log, ts[j], j) {
          assert forall j :: i <= j < k ==> TopicEquals(h, log, ts[j], j);
        }
      }
    }
  }

  /** Topics after the fourth are never looked at, and the first four are. */
  lemma FourTopicsAreLookedAt(ts: seq<Field>)
    ensures FilterTopics(Some(LogFilter(Some(ts)))) == if |ts| <= 4 then ts else ts[..4]
  {
  }

  // ---------- handlers ----------

  predicate HandlerAcceptsLog(h: Hashing, hd: Handler, address: Field, log: Log) {
    hd.EventHandler? && LogVerdict(h, log, hd.logFilter, address) == Ok(true)
  }

  predicate HandlerAcceptsTx(h: Hashing, hd: Handler, address: Field, tx: Transaction) {
    hd.CallHandler? && FilterTransactions(h, tx, hd.txFilter, address)
  }

  lemma {:induction false} JsonTopicsSameVerdict(h: Hashing, log: Log, ts: seq<Field>, us: seq<Field>, i: nat)
    requires i <= |ts| == |us|
    requires forall k :: 0 <= k < |ts| ==> JsonElement(ts[k]) == JsonElement(us[k])
    ensures TopicsVerdict(h, log, ts, i) == TopicsVerdict(h, log, us, i)
    decreases |ts| - i
  {
    if i < |ts| {
      JsonTopicsSameVerdict(h, log, ts, us, i + 1);
    }
  }

  lemma SameKeySameTopics(hd: Handler, hd': Handler)
    requires KeyOf(hd) == KeyOf(hd') && hd.EventHandler?
    ensures hd'.EventHandler?
    ensures var ts, us := FilterTopics(hd.logFilter), FilterTopics(hd'.logFilter);
      |ts| == |us| && forall k :: 0 <= k < |ts| ==> JsonElement(ts[k]) == JsonElement(us[k])
  {
  }

  /** Handlers that land in one group accept the same logs and transactions, whatever the address. */
  lemma SameKeySameFilter(h: Hashing, hd: Handler, hd': Handler, address: Field)
    requires KeyOf(hd) == KeyOf(hd')
    ensures forall log :: HandlerAcceptsLog(h, hd, address, log) <==> HandlerAcceptsLog(h, hd', address, log)
    ensures forall tx :: HandlerAcceptsTx(h, hd, address, tx) <==> HandlerAcceptsTx(h, hd', address, tx)
  {
    forall log
      ensures HandlerAcceptsLog(h, hd, address, log) <==> HandlerAcceptsLog(h, hd', address, log)
    {
      if hd.EventHandler? {
        SameKeySameTopics(hd, hd');
        JsonTopicsSameVerdict(h, log, FilterTopics(hd.logFilter), FilterTopics(hd'.logFilter), 0);
      }
    }
  }
}
