/** packages/node/src/indexer/dictionary/v2/ethDictionaryV2.ts: handlers become one V2 query. */
module DictionaryV2 {
  import opened Collections
  import opened Strings
  import opened Datasources
  import opened BlockFilters
  import opened Dictionary
  import opened DictionaryV1

  function ApplyAddresses(addresses: seq<Field>, limit: int): seq<string> {
    if Narrowing(addresses, limit) then LowerAll(ValidAddresses(addresses)) else []
  }

  // ---------- conditions of one handler ----------

  function AssignTo(value: Field): seq<Option<string>> {
    match value
    case Undefined => []
    case Null => [None]
    case Str(s) => [Some(ToLower(s))]
  }

  function AssignAll(addresses: seq<string>): (r: seq<Option<string>>)
    ensures |r| == |addresses| && forall i :: 0 <= i < |r| ==> r[i] == Some(ToLower(addresses[i]))
  {
    seq(|addresses|, i requires 0 <= i < |addresses| => Some(ToLower(addresses[i])))
  }

  function Present<T>(list: seq<T>): Option<seq<T>> {
    if list == [] then None else Some(list)
  }

  /** The recipients: the merged addresses, or else the filter's own `to`. */
  function Recipients(filter: Option<TxFilter>, options: seq<string>): seq<Option<string>> {
    if options != [] then AssignAll(options) else if filter.Some? then AssignTo(filter.value.to) else []
  }

  function CallConditions(h: Hashing, filter: Option<TxFilter>, addresses: seq<Field>, limit: int): TxConditions {
    TxConditions(
      Present(Recipients(filter, ApplyAddresses(addresses, limit))),
      Present(if filter.Some? && Truthy(filter.value.from) then [ToLower(filter.value.from.s)] else []),
      Present(if filter.Some? && Truthy(filter.value.func)
              then [FunctionToSighash(h, filter.value.func.s)] else []))
  }

  /** `!null` is not supported by V2 and becomes the empty list. */
  function TopicList(h: Hashing, t: Field): Option<seq<string>> {
    if !Truthy(t) then None
    else if IsNotNull(t) then Some([])
    else Some([EventToTopic(h, t.s)])
  }

  function TopicLists(h: Hashing, ts: seq<Field>): (r: seq<Option<seq<string>>>)
    ensures |r| == MAX_TOPICS
    ensures forall i :: 0 <= i < MAX_TOPICS ==> r[i] == if i < |ts| then TopicList(h, ts[i]) else None
  {
    seq(MAX_TOPICS, i requires 0 <= i < MAX_TOPICS => if i < |ts| then TopicList(h, ts[i]) else None)
  }

  function EventConditions(h: Hashing, filter: Option<LogFilter>, addresses: seq<Field>, limit: int): LogConditions {
    LogConditions(ApplyAddresses(addresses, limit), TopicLists(h, FilterTopics(filter)))
  }

  // ---------- groups ----------

  datatype GroupConditions = Stop | Skip | OfLog(log: LogConditions) | OfTx(tx: TxConditions)

  /** A call or event handler that nothing narrows is skipped, where V1 gives up on the dictionary. */
  function ConditionsOf(h: Hashing, g: Group, limit: int): GroupConditions {
    if !g.handler.HasFilter() && g.addresses == [] then Stop
    else match g.handler
    case BlockHandler(_, filter) =>
      if filter.None? || filter.value.modulo.None? then Stop else Skip
    case CallHandler(_, filter) =>
      if (filter.Some? && !filter.value.AllUndefined()) || ValidAddresses(g.addresses) != []
      then OfTx(CallConditions(h, filter, g.addresses, limit))
      else Skip
    case EventHandler(_, filter) =>
      if (filter.Some? && filter.value.topics.Some? && filter.value.topics.value != [])
         || ValidAddresses(g.addresses) != []
      then OfLog(EventConditions(h, filter, g.addresses, limit))
      else Skip
  }

  function GroupsConditions(h: Hashing, gs: seq<Group>, limit: int): (r: seq<GroupConditions>)
    ensures |r| == |gs|
  {
    if gs == [] then []
    else GroupsConditions(h, gs[..|gs| - 1], limit) + [ConditionsOf(h, gs[|gs| - 1], limit)]
  }

  lemma {:induction false} ConditionsAt(h: Hashing, gs: seq<Group>, limit: int, i: nat)
    requires i < |gs|
    ensures GroupsConditions(h, gs, limit)[i] == ConditionsOf(h, gs[i], limit)
  {
    if i < |gs| - 1 {
      ConditionsAt(h, gs[..|gs| - 1], limit, i);
    }
  }

  /** The two lists the builder pushes to. */
  datatype Conditions = Conditions(logs: seq<LogConditions>, transactions: seq<TxConditions>) {
    function Push(r: GroupConditions): Conditions {
      match r
      case OfLog(log) => this.(logs := logs + [log])
      case OfTx(tx) => this.(transactions := transactions + [tx])
      case _ => this
    }
  }

  /** What the first n groups push. */
  function Collected(cs: seq<GroupConditions>, n: nat): Conditions
    requires n <= |cs|
  {
    if n == 0 then Conditions([], []) else Collected(cs, n - 1).Push(cs[n - 1])
  }

  function Sanitise(c: Conditions): V2Query {
    V2Query(
      if c.logs == [] then None else Some(Uniq(c.logs)),
      if c.transactions == [] then None else Some(Uniq(c.transactions)))
  }

  predicate NeverStops(cs: seq<GroupConditions>) {
    forall i :: 0 <= i < |cs| ==> !cs[i].Stop?
  }

  function V2QueryOfConditions(cs: seq<GroupConditions>): V2Query {
    if NeverStops(cs) then Sanitise(Collected(cs, |cs|)) else EMPTY_V2
  }

  function V2QueryOfGroups(h: Hashing, gs: seq<Group>, limit: int): V2Query {
    V2QueryOfConditions(GroupsConditions(h, gs, limit))
  }

  function QueryV2(h: Hashing, dss: seq<Datasource>, limit: int): V2Query {
    V2QueryOfGroups(h, GroupedDataSources(dss), limit)
  }

  // ---------- the imperative builder ----------

  method CollectRecipients(filter: Option<TxFilter>, options: seq<string>) returns (toArray: seq<Option<string>>)
    ensures toArray == Recipients(filter, options)
  {
    toArray := [];
    if options == [] {
      if filter.Some? {
        toArray := toArray + AssignTo(filter.value.to);
      }
    } else {
      for i := 0 to |options|
        invariant |toArray| == i
        invariant forall k :: 0 <= k < i ==> toArray[k] == Some(ToLower(options[k]))
      {
        toArray := toArray + [Some(ToLower(options[i]))];
      }
      assert toArray == AssignAll(options);
    }
  }

  method CallFilterToCondition(cache: SignatureCache, filter: Option<TxFilter>, addresses: seq<Field>, limit: int)
    returns (c: TxConditions)
    requires cache.Valid()
    modifies cache`sighashes
    ensures cache.Valid()
    ensures c == CallConditions(cache.hashing, filter, addresses, limit)
  {
    var fromArray: seq<string> := [];
    var funcArray: seq<string> := [];
    if filter.Some? && Truthy(filter.value.from) {
      fromArray := fromArray + [ToLower(filter.value.from.s)];
    }
    var toArray := CollectRecipients(filter, ApplyAddresses(addresses, limit));
    if filter.Some? && Truthy(filter.value.func) {
      var sighash := cache.Sighash(filter.value.func.s);
      funcArray := funcArray + [sighash];
    }
    assert fromArray == if filter.Some? && Truthy(filter.value.from) then [ToLower(filter.value.from.s)] else [];
    assert funcArray == if filter.Some? && Truthy(filter.value.func)
                        then [FunctionToSighash(cache.hashing, filter.value.func.s)] else [];
    c := TxConditions(None, None, None);
    if toArray != [] {
      c := c.(to := Some(toArray));
    }
    if fromArray != [] {
      c := c.(from := Some(fromArray));
    }
    if funcArray != [] {
      c := c.(data := Some(funcArray));
    }
  }

  method EventFilterToCondition(cache: SignatureCache, filter: Option<LogFilter>, addresses: seq<Field>, limit: int)
    returns (c: LogConditions)
    requires cache.Valid()
    modifies cache`topics
    ensures cache.Valid()
    ensures c == EventConditions(cache.hashing, filter, addresses, limit)
  {
    c := LogConditions(ApplyAddresses(addresses, limit), seq(MAX_TOPICS, _ => None));
    ghost var ts := FilterTopics(filter);
    if filter.Some? && filter.value.topics.Some? {
      var topics := filter.value.topics.value;
      var i := 0;
      while i < Min(|topics|, MAX_TOPICS)
        invariant 0 <= i <= Min(|topics|, MAX_TOPICS) == |ts|
        invariant cache.Valid()
        invariant c.address == ApplyAddresses(addresses, limit) && |c.topics| == MAX_TOPICS
        invariant forall k :: 0 <= k < MAX_TOPICS ==>
          c.topics[k] == if k < i then TopicList(cache.hashing, ts[k]) else None
      {
        var topic := topics[i];
        if Truthy(topic) {
          if IsNotNull(topic) {
            c := c.(topics := c.topics[i := Some([])]);
          } else {
            var value := cache.Topic(topic.s);
            c := c.(topics := c.topics[i := Some([value])]);
          }
        }
        i := i + 1;
      }
    }
    assert c.topics == TopicLists(cache.hashing, ts);
  }

  method BuildQueryEntry(cache: SignatureCache, dataSources: seq<Datasource>, limit: int)
    returns (query: V2Query)
    requires cache.Valid()
    modifies cache
    ensures cache.Valid()
    ensures query == QueryV2(cache.hashing, dataSources, limit)
  {
    query := BuildFromGroups(cache, GroupedDataSources(dataSources), limit);
  }

  /** The switch on one grouped handler. */
  method BuildGroup(cache: SignatureCache, g: Group, limit: int) returns (r: GroupConditions)
    requires cache.Valid()
    modifies cache
    ensures cache.Valid()
    ensures r == ConditionsOf(cache.hashing, g, limit)
  {
    var handler, addresses := g.handler, g.addresses;
    if !handler.HasFilter() && addresses == [] {
      return Stop;
    }
    match handler {
      case BlockHandler(_, filter) =>
        if filter.None? || filter.value.modulo.None? {
          return Stop;
        }
      case CallHandler(_, filter) =>
        if (filter.Some? && !filter.value.AllUndefined()) || ValidAddresses(addresses) != [] {
          var c := CallFilterToCondition(cache, filter, addresses, limit);
          return OfTx(c);
        }
      case EventHandler(_, filter) =>
        if (filter.Some? && filter.value.topics.Some? && filter.value.topics.value != [])
           || ValidAddresses(addresses) != [] {
          var c := EventFilterToCondition(cache, filter, addresses, limit);
          return OfLog(c);
        }
    }
    return Skip;
  }

  /** One step of the loop below. */
  method BuildGroupAt(cache: SignatureCache, groups: seq<Group>, i: nat, limit: int) returns (r: GroupConditions)
    requires cache.Valid() && i < |groups|
    modifies cache
    ensures cache.Valid()
    ensures r == GroupsConditions(cache.hashing, groups, limit)[i]
  {
    r := BuildGroup(cache, groups[i], limit);
    ConditionsAt(cache.hashing, groups, limit, i);
  }

  /** The loop over the grouped handlers. */
  method BuildFromGroups(cache: SignatureCache, groups: seq<Group>, limit: int) returns (query: V2Query)
    requires cache.Valid()
    modifies cache
    ensures cache.Valid()
    ensures query == V2QueryOfGroups(cache.hashing, groups, limit)
  {
    var conditions := Conditions([], []);
    ghost var cs := GroupsConditions(cache.hashing, groups, limit);
    var i := 0;
    while i < |groups|
      invariant 0 <= i <= |groups|
      invariant cache.Valid()
      invariant forall k :: 0 <= k < i ==> !cs[k].Stop?
      invariant conditions == Collected(cs, i)
    {
      var r := BuildGroupAt(cache, groups, i, limit);
      assert r == cs[i];
      if r.Stop? {
        return EMPTY_V2;
      }
      conditions := conditions.Push(r);
      i := i + 1;
    }
    query := Sanitise(conditions);
  }
}
