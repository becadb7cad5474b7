/** packages/node/src/indexer/dictionary/v1/ethDictionaryV1.ts: handlers become V1 query entries. */
module DictionaryV1 {
  import opened Collections
  import opened Strings
  import opened Datasources
  import opened BlockFilters
  import opened Dictionary

  // ---------- addresses ----------

  function LowerAll(ss: seq<string>): (r: seq<string>)
    ensures |r| == |ss| && forall i :: 0 <= i < |r| ==> r[i] == ToLower(ss[i])
  {
    seq(|ss|, i requires 0 <= i < |ss| => ToLower(ss[i]))
  }

  /** The addresses narrow the query: there are some, not too many, and none is missing. */
  predicate Narrowing(addresses: seq<Field>, limit: int) {
    addresses != [] && |addresses| <= limit && forall i :: 0 <= i < |addresses| ==> Truthy(addresses[i])
  }

  function AddressConditions(addresses: seq<Field>, limit: int, field: Column): seq<Condition> {
    if !Narrowing(addresses, limit) then []
    else
      var valid := LowerAll(ValidAddresses(addresses));
      if |addresses| == 1 then [Condition(field, Text(valid[0]), EqualTo)]
      else [Condition(field, Texts(valid), In)]
  }

  // ---------- event handlers ----------

  function TopicCondition(h: Hashing, t: Field, i: nat): Condition
    requires Truthy(t)
  {
    if IsNotNull(t) then Condition(Topic(i), Flag(false), IsNull)
    else Condition(Topic(i), Text(EventToTopic(h, t.s)), EqualTo)
  }

  /** The conditions of the first n topics. */
  function TopicConditions(h: Hashing, ts: seq<Field>, n: nat): seq<Condition>
    requires n <= |ts|
  {
    if n == 0 then []
    else
      TopicConditions(h, ts, n - 1)
      + (if Truthy(ts[n - 1]) then [TopicCondition(h, ts[n - 1], n - 1)] else [])
  }

  function EventEntry(h: Hashing, filter: Option<LogFilter>, addresses: seq<Field>, limit: int): QueryEntry {
    var ts := FilterTopics(filter);
    QueryEntry(EvmLogs, AddressConditions(addresses, limit, Address) + TopicConditions(h, ts, |ts|))
  }

  // ---------- call handlers ----------

  function FromConditions(f: TxFilter): seq<Condition> {
    if Truthy(f.from) then [Condition(From, Text(ToLower(f.from.s)), EqualTo)] else []
  }

  function ToConditions(f: TxFilter): seq<Condition> {
    if Truthy(f.to) then [Condition(To, Text(ToLower(f.to.s)), EqualTo)]
    else if f.to.Null? then [Condition(To, Flag(true), IsNull)]
    else []
  }

  function FunctionConditions(h: Hashing, f: TxFilter): seq<Condition> {
    if f.func.Null? || f.func == Str("0x") then [Condition(Func, Flag(true), IsNull)]
    else if Truthy(f.func) then [Condition(Func, Text(FunctionToSighash(h, f.func.s)), EqualTo)]
    else []
  }

  function CallEntry(h: Hashing, filter: Option<TxFilter>, addresses: seq<Field>, limit: int): QueryEntry {
    var toAddress := AddressConditions(addresses, limit, To);
    QueryEntry(EvmTransactions,
      if filter.None? then toAddress
      else
        toAddress + FromConditions(filter.value)
        + (if toAddress == [] then ToConditions(filter.value) else [])
        + FunctionConditions(h, filter.value))
  }

  // ---------- groups ----------

  datatype GroupResult = Unusable | NoEntry | Entry(entry: QueryEntry)

  function GroupEntry(h: Hashing, g: Group, limit: int): GroupResult {
    if !g.handler.HasFilter() && g.addresses == [] then Unusable
    else match g.handler
    case BlockHandler(_, filter) =>
      if filter.None? || filter.value.modulo.None? then Unusable else NoEntry
    case CallHandler(_, filter) =>
      if (filter.None? || filter.value.AllUndefined()) && ValidAddresses(g.addresses) == [] then Unusable
      else Entry(CallEntry(h, filter, g.addresses, limit))
    case EventHandler(_, filter) =>
      if (filter.None? || filter.value.topics.None? || filter.value.topics.value == [])
         && ValidAddresses(g.addresses) == []
      then Unusable
      else Entry(EventEntry(h, filter, g.addresses, limit))
  }

  function GroupResults(h: Hashing, gs: seq<Group>, limit: int): (r: seq<GroupResult>)
    ensures |r| == |gs|
  {
    if gs == [] then []
    else GroupResults(h, gs[..|gs| - 1], limit) + [GroupEntry(h, gs[|gs| - 1], limit)]
  }

  lemma {:induction false} ResultAt(h: Hashing, gs: seq<Group>, limit: int, i: nat)
    requires i < |gs|
    ensures GroupResults(h, gs, limit)[i] == GroupEntry(h, gs[i], limit)
  {
    if i < |gs| - 1 {
      ResultAt(h, gs[..|gs| - 1], limit, i);
    }
  }

  /** The entries among the first n results. */
  function EntriesOf(rs: seq<GroupResult>, n: nat): seq<QueryEntry>
    requires n <= |rs|
  {
    if n == 0 then []
    else if rs[n - 1].Entry? then EntriesOf(rs, n - 1) + [rs[n - 1].entry]
    else EntriesOf(rs, n - 1)
  }

  predicate Usable(rs: seq<GroupResult>) {
    forall i :: 0 <= i < |rs| ==> !rs[i].Unusable?
  }

  // ---------- deduplication ----------

  function Rank(c: Column): nat {
    match c
    case Address => 0
    case From => 1
    case Func => 2
    case To => 3
    case Topic(i) => 4 + i
  }

  function InsertByField(c: Condition, sorted: seq<Condition>): (r: seq<Condition>)
    ensures multiset(r) == multiset(sorted) + multiset{c}
  {
    if sorted == [] || Rank(c.field) < Rank(sorted[|sorted| - 1].field) then
      if sorted == [] then [c]
      else
        var r := InsertByField(c, sorted[..|sorted| - 1]) + [sorted[|sorted| - 1]];
        assert sorted == sorted[..|sorted| - 1] + [sorted[|sorted| - 1]];
        r
    else
      sorted + [c]
  }

  /** lodash's stable `sortBy` on the field name. */
  function SortByField(cs: seq<Condition>): (r: seq<Condition>)
    ensures multiset(r) == multiset(cs)
  {
    if cs == [] then []
    else
      assert cs == cs[..|cs| - 1] + [cs[|cs| - 1]];
      InsertByField(cs[|cs| - 1], SortByField(cs[..|cs| - 1]))
  }

  predicate SortedByField(cs: seq<Condition>) {
    forall i, j :: 0 <= i < j < |cs| ==> Rank(cs[i].field) <= Rank(cs[j].field)
  }

  lemma {:induction false} InsertKeepsSorted(c: Condition, sorted: seq<Condition>)
    requires SortedByField(sorted)
    ensures SortedByField(InsertByField(c, sorted))
  {
    if sorted != [] && Rank(c.field) < Rank(sorted[|sorted| - 1].field) {
      var front, last := sorted[..|sorted| - 1], sorted[|sorted| - 1];
      InsertKeepsSorted(c, front);
      var r := InsertByField(c, front);
      forall i | 0 <= i < |r|
        ensures Rank(r[i].field) <= Rank(last.field)
      {
        assert r[i] in multiset(r);
        assert r[i] in multiset(front) || r[i] == c;
      }
    }
  }

  lemma {:induction false} SortIsSorted(cs: seq<Condition>)
    ensures SortedByField(SortByField(cs))
  {
    if cs != [] {
      SortIsSorted(cs[..|cs| - 1]);
      InsertKeepsSorted(cs[|cs| - 1], SortByField(cs[..|cs| - 1]));
    }
  }

  predicate DistinctFields(cs: seq<Condition>) {
    forall i, j :: 0 <= i < j < |cs| ==> cs[i].field != cs[j].field
  }

  lemma SortedLastIsSame(a: seq<Condition>, b: seq<Condition>)
    requires multiset(a) == multiset(b) && a != [] && |a| == |b|
    requires SortedByField(a) && SortedByField(b) && DistinctFields(a)
    ensures a[|a| - 1] == b[|b| - 1]
  {
    var n := |a| - 1;
    assert a[n] in multiset(b) && b[n] in multiset(a);
    var i :| 0 <= i < |b| && b[i] == a[n];
    var j :| 0 <= j < |a| && a[j] == b[n];
  }

  lemma SameBagFronts<T>(a: seq<T>, b: seq<T>)
    requires multiset(a) == multiset(b) && a != [] && |a| == |b| && a[|a| - 1] == b[|b| - 1]
    ensures multiset(a[..|a| - 1]) == multiset(b[..|b| - 1])
  {
    assert a == a[..|a| - 1] + [a[|a| - 1]] && b == b[..|b| - 1] + [b[|b| - 1]];
    assert multiset(a[..|a| - 1]) == multiset(a) - multiset{a[|a| - 1]};
  }

  lemma {:induction false} SortedIsCanonical(a: seq<Condition>, b: seq<Condition>)
    requires multiset(a) == multiset(b) && |a| == |b|
    requires SortedByField(a) && SortedByField(b) && DistinctFields(a)
    ensures a == b
  {
    if a != [] {
      SortedLastIsSame(a, b);
      SameBagFronts(a, b);
      SortedIsCanonical(a[..|a| - 1], b[..|b| - 1]);
      assert a == a[..|a| - 1] + [a[|a| - 1]] && b == b[..|b| - 1] + [b[|b| - 1]];
    }
  }

  /** The key ignores the order of conditions on different fields, so such duplicates are removed. */
  lemma SameConditionsSameKey(a: QueryEntry, b: QueryEntry)
    requires a.entity == b.entity && DistinctFields(a.conditions)
    ensures multiset(a.conditions) == multiset(b.conditions) <==> EntryKey(a) == EntryKey(b)
  {
    var x, y := SortByField(a.conditions), SortByField(b.conditions);
    SortIsSorted(a.conditions);
    SortIsSorted(b.conditions);
    SortKeepsDistinctFields(a.conditions);
    if multiset(a.conditions) == multiset(b.conditions) {
      assert |x| == |multiset(x)| && |y| == |multiset(y)|;
      SortedIsCanonical(x, y);
    }
  }

  lemma {:induction false} InsertKeepsDistinct(c: Condition, sorted: seq<Condition>)
    requires DistinctFields(sorted) && forall i :: 0 <= i < |sorted| ==> sorted[i].field != c.field
    ensures DistinctFields(InsertByField(c, sorted))
  {
    if sorted != [] && Rank(c.field) < Rank(sorted[|sorted| - 1].field) {
      var front, last := sorted[..|sorted| - 1], sorted[|sorted| - 1];
      InsertKeepsDistinct(c, front);
      var r := InsertByField(c, front);
      forall i | 0 <= i < |r|
        ensures r[i].field != last.field
      {
        assert r[i] in multiset(r);
        assert r[i] in multiset(front) || r[i] == c;
      }
    }
  }

  lemma {:induction false} SortKeepsDistinctFields(cs: seq<Condition>)
    requires DistinctFields(cs)
    ensures DistinctFields(SortByField(cs))
  {
    if cs != [] {
      var front, last := cs[..|cs| - 1], cs[|cs| - 1];
      SortKeepsDistinctFields(front);
      var sorted := SortByField(front);
      forall i | 0 <= i < |sorted|
        ensures sorted[i].field != last.field
      {
        assert sorted[i] in multiset(front);
      }
      InsertKeepsDistinct(last, sorted);
    }
  }

  function EntryKey(e: QueryEntry): (Entity, seq<Condition>) {
    (e.entity, SortByField(e.conditions))
  }

  lemma {:induction false} TopicConditionFields(h: Hashing, ts: seq<Field>, n: nat)
    requires n <= |ts|
    ensures DistinctFields(TopicConditions(h, ts, n))
    ensures forall c :: c in TopicConditions(h, ts, n) ==> c.field.Topic? && c.field.index < n
  {
    if n > 0 {
      TopicConditionFields(h, ts, n - 1);
    }
  }

  lemma EventEntryHasDistinctFields(h: Hashing, filter: Option<LogFilter>, addresses: seq<Field>, limit: int)
    ensures DistinctFields(EventEntry(h, filter, addresses, limit).conditions)
  {
    var ts := FilterTopics(filter);
    var byAddress, byTopic := AddressConditions(addresses, limit, Address), TopicConditions(h, ts, |ts|);
    TopicConditionFields(h, ts, |ts|);
    assert forall i :: 0 <= i < |byTopic| ==> byTopic[i] in byTopic;
    assert forall i :: 0 <= i < |byAddress| ==> byAddress[i].field == Address;
  }

  lemma AppendingKeepsDistinct(cs: seq<Condition>, last: seq<Condition>, field: Column)
    requires DistinctFields(cs) && |last| <= 1 && (last != [] ==> last[0].field == field)
    requires last != [] ==> forall c :: c in cs ==> c.field != field
    ensures DistinctFields(cs + last)
  {
  }

  lemma CallEntryHasDistinctFields(h: Hashing, filter: Option<TxFilter>, addresses: seq<Field>, limit: int)
    ensures DistinctFields(CallEntry(h, filter, addresses, limit).conditions)
  {
    if filter.Some? {
      var f, toAddress := filter.value, AddressConditions(addresses, limit, To);
      var to := if toAddress == [] then ToConditions(f) else [];
      var front := toAddress + FromConditions(f) + to;
      AppendingKeepsDistinct(toAddress, FromConditions(f), From);
      AppendingKeepsDistinct(toAddress + FromConditions(f), to, To);
      assert forall c :: c in front ==> c.field == To || c.field == From;
      AppendingKeepsDistinct(front, FunctionConditions(h, f), Func);
    }
  }

  /** Built entries test each field once, so two of them are duplicates exactly when they have the same
      conditions in any order. */
  lemma {:induction false} BuiltEntriesSameKeyExactly(h: Hashing, g: Group, g': Group, limit: int)
    requires GroupEntry(h, g, limit).Entry? && GroupEntry(h, g', limit).Entry?
    ensures var a, b := GroupEntry(h, g, limit).entry, GroupEntry(h, g', limit).entry;
      EntryKey(a) == EntryKey(b)
      <==> a.entity == b.entity && multiset(a.conditions) == multiset(b.conditions)
  {
    var a, b := GroupEntry(h, g, limit).entry, GroupEntry(h, g', limit).entry;
    if g.handler.CallHandler? {
      CallEntryHasDistinctFields(h, g.handler.txFilter, g.addresses, limit);
    } else {
      EventEntryHasDistinctFields(h, g.handler.logFilter, g.addresses, limit);
    }
    if a.entity == b.entity {
      SameConditionsSameKey(a, b);
    }
  }

  /** Entries with one key select the same records: the order of conditions is irrelevant. */
  lemma SameKeySameMatches(a: QueryEntry, b: QueryEntry, r: Record)
    requires EntryKey(a) == EntryKey(b)
    ensures EntryMatches(a, r) == EntryMatches(b, r)
  {
    assert multiset(a.conditions) == multiset(b.conditions);
    assert forall c :: c in a.conditions <==> c in multiset(a.conditions);
    assert forall c :: c in b.conditions <==> c in multiset(b.conditions);
    assert AllHold(a.conditions, r) <==> forall c :: c in a.conditions ==> Holds(c, r);
    assert AllHold(b.conditions, r) <==> forall c :: c in b.conditions ==> Holds(c, r);
  }

  /** Deduplication leaves the selected records unchanged. */
  lemma {:induction false} UniqKeepsMatches(q: seq<QueryEntry>, r: Record)
    ensures QueryMatches(UniqBy(q, EntryKey), r) <==> QueryMatches(q, r)
  {
    var u := UniqBy(q, EntryKey);
    if QueryMatches(q, r) {
      var i :| 0 <= i < |q| && EntryMatches(q[i], r);
      var kept := UniqByKeepsKey(q, EntryKey, q[i]);
      SameKeySameMatches(kept, q[i], r);
      var k :| 0 <= k < |u| && u[k] == kept;
      assert EntryMatches(u[k], r);
    }
    if QueryMatches(u, r) {
      var k :| 0 <= k < |u| && EntryMatches(u[k], r);
      UniqByInventsNothing(q, EntryKey, u[k]);
      var i :| 0 <= i < |q| && q[i] == u[k];
      assert EntryMatches(q[i], r);
    }
  }

  /** The whole query: empty when some group cannot use the dictionary. */
  function QueryOfResults(rs: seq<GroupResult>): seq<QueryEntry> {
    if Usable(rs) then UniqBy(EntriesOf(rs, |rs|), EntryKey) else []
  }

  function QueryOfGroups(h: Hashing, gs: seq<Group>, limit: int): seq<QueryEntry> {
    QueryOfResults(GroupResults(h, gs, limit))
  }

  function V1Query(h: Hashing, dss: seq<Datasource>, limit: int): seq<QueryEntry> {
    QueryOfGroups(h, GroupedDataSources(dss), limit)
  }

  // ---------- the imperative builder ----------

  /** The list of conditions that the source's helpers push to and rewrite in place. */
  class ConditionList {
    var items: seq<Condition>

    constructor ()
      ensures items == []
    {
      items := [];
    }

    method Push(c: Condition)
      modifies this
      ensures items == old(items) + [c]
    {
      items := items + [c];
    }

    method ApplyAddresses(addresses: seq<Field>, limit: int)
      modifies this
      ensures items == old(items) + AddressConditions(addresses, limit, Address)
    {
      if addresses == [] || |addresses| > limit || exists i :: 0 <= i < |addresses| && !Truthy(addresses[i]) {
        return;
      }
      var filterAddresses := LowerAll(ValidAddresses(addresses));
      if |addresses| == 1 {
        Push(Condition(Address, Text(filterAddresses[0]), EqualTo));
      } else {
        Push(Condition(Address, Texts(filterAddresses), In));
      }
    }

    /** The loop over the topics of an event filter. */
    method PushTopics(cache: SignatureCache, topics: seq<Field>)
      requires cache.Valid()
      modifies this, cache`topics
      ensures cache.Valid()
      ensures items == old(items) + TopicConditions(cache.hashing, topics, |topics|)
    {
      var i := 0;
      while i < |topics|
        invariant 0 <= i <= |topics|
        invariant cache.Valid()
        invariant items == old(items) + TopicConditions(cache.hashing, topics, i)
      {
        var topic := topics[i];
        ghost var before := items;
        ghost var added := if Truthy(topic) then [TopicCondition(cache.hashing, topic, i)] else [];
        if Truthy(topic) {
          if IsNotNull(topic) {
            Push(Condition(Topic(i), Flag(false), IsNull));
          } else {
            var value := cache.Topic(topic.s);
            Push(Condition(Topic(i), Text(value), EqualTo));
          }
        }
        assert items == before + added;
        assert before + added == old(items) + (TopicConditions(cache.hashing, topics, i) + added);
        i := i + 1;
      }
    }

    method RenameAddressToTo()
      modifies this
      ensures |items| == |old(items)|
      ensures forall i :: 0 <= i < |items| ==>
        items[i] == if old(items)[i].field.Address? then old(items)[i].(field := To) else old(items)[i]
    {
      var i := 0;
      while i < |items|
        invariant 0 <= i <= |items| == |old(items)|
        invariant forall k :: 0 <= k < i ==>
          items[k] == if old(items)[k].field.Address? then old(items)[k].(field := To) else old(items)[k]
        invariant forall k :: i <= k < |items| ==> items[k] == old(items)[k]
      {
        if items[i].field.Address? {
          items := items[i := items[i].(field := To)];
        }
        i := i + 1;
      }
    }
  }

  method EventFilterToQueryEntry(cache: SignatureCache, filter: Option<LogFilter>, addresses: seq<Field>, limit: int)
    returns (entry: QueryEntry)
    requires cache.Valid()
    modifies cache`topics
    ensures cache.Valid()
    ensures entry == EventEntry(cache.hashing, filter, addresses, limit)
  {
    var conditions := new ConditionList();
    conditions.ApplyAddresses(addresses, limit);
    assert conditions.items == AddressConditions(addresses, limit, Address);
    conditions.PushTopics(cache, FilterTopics(filter));
    entry := QueryEntry(EvmLogs, conditions.items);
  }

  method CallFilterToQueryEntry(cache: SignatureCache, filter: Option<TxFilter>, addresses: seq<Field>, limit: int)
    returns (entry: QueryEntry)
    requires cache.Valid()
    modifies cache`sighashes
    ensures cache.Valid()
    ensures entry == CallEntry(cache.hashing, filter, addresses, limit)
  {
    var conditions := new ConditionList();
    conditions.ApplyAddresses(addresses, limit);
    conditions.RenameAddressToTo();
    ghost var toAddress := AddressConditions(addresses, limit, To);
    assert conditions.items == toAddress;
    if filter.None? {
      return QueryEntry(EvmTransactions, conditions.items);
    }
    var f := filter.value;
    if Truthy(f.from) {
      conditions.Push(Condition(From, Text(ToLower(f.from.s)), EqualTo));
    }
    assert conditions.items == toAddress + FromConditions(f);
    assert (exists i :: 0 <= i < |conditions.items| && conditions.items[i].field.To?) <==> toAddress != [] by {
      if toAddress != [] {
        assert conditions.items[0].field.To?;
      }
    }
    if !exists i :: 0 <= i < |conditions.items| && conditions.items[i].field.To? {
      if Truthy(f.to) {
        conditions.Push(Condition(To, Text(ToLower(f.to.s)), EqualTo));
      } else if f.to.Null? {
        conditions.Push(Condition(To, Flag(true), IsNull));
      }
    }
    assert conditions.items == toAddress + FromConditions(f) + (if toAddress == [] then ToConditions(f) else []);
    if f.func.Null? || f.func == Str("0x") {
      conditions.Push(Condition(Func, Flag(true), IsNull));
    } else if Truthy(f.func) {
      var value := cache.Sighash(f.func.s);
      conditions.Push(Condition(Func, Text(value), EqualTo));
    }
    entry := QueryEntry(EvmTransactions, conditions.items);
  }

  method BuildQueryEntries(cache: SignatureCache, dataSources: seq<Datasource>, limit: int)
    returns (query: seq<QueryEntry>)
    requires cache.Valid()
    modifies cache
    ensures cache.Valid()
    ensures query == V1Query(cache.hashing, dataSources, limit)
  {
    query := BuildFromGroups(cache, GroupedDataSources(dataSources), limit);
  }

  /** The switch on one grouped handler. */
  method BuildGroup(cache: SignatureCache, g: Group, limit: int) returns (r: GroupResult)
    requires cache.Valid()
    modifies cache
    ensures cache.Valid()
    ensures r == GroupEntry(cache.hashing, g, limit)
  {
    var handler, addresses := g.handler, g.addresses;
    if !handler.HasFilter() && addresses == [] {
      return Unusable;
    }
    match handler {
      case BlockHandler(_, filter) =>
        if filter.None? || filter.value.modulo.None? {
          return Unusable;
        }
        return NoEntry;
      case CallHandler(_, filter) =>
        if (filter.None? || filter.value.AllUndefined()) && ValidAddresses(addresses) == [] {
          return Unusable;
        }
        var entry := CallFilterToQueryEntry(cache, filter, addresses, limit);
        return Entry(entry);
      case EventHandler(_, filter) =>
        if (filter.None? || filter.value.topics.None? || filter.value.topics.value == [])
           && ValidAddresses(addresses) == [] {
          return Unusable;
        }
        var entry := EventFilterToQueryEntry(cache, filter, addresses, limit);
        return Entry(entry);
    }
  }

  /** One step of the loop below. */
  method BuildGroupAt(cache: SignatureCache, groups: seq<Group>, i: nat, limit: int) returns (r: GroupResult)
    requires cache.Valid() && i < |groups|
    modifies cache
    ensures cache.Valid()
    ensures r == GroupResults(cache.hashing, groups, limit)[i]
  {
    r := BuildGroup(cache, groups[i], limit);
    ResultAt(cache.hashing, groups, limit, i);
  }

  /** The loop over the grouped handlers, which gives up at the first unusable one. */
  method BuildFromGroups(cache: SignatureCache, groups: seq<Group>, limit: int)
    returns (query: seq<QueryEntry>)
    requires cache.Valid()
    modifies cache
    ensures cache.Valid()
    ensures query == QueryOfGroups(cache.hashing, groups, limit)
  {
    var queryEntries: seq<QueryEntry> := [];
    ghost var rs := GroupResults(cache.hashing, groups, limit);
    var i := 0;
    while i < |groups|
      invariant 0 <= i <= |groups|
      invariant cache.Valid()
      invariant forall k :: 0 <= k < i ==> !rs[k].Unusable?
      invariant queryEntries == EntriesOf(rs, i)
    {
      var r := BuildGroupAt(cache, groups, i, limit);
      assert r == rs[i];
      if r.Unusable? {
        return [];
      }
      if r.Entry? {
        queryEntries := queryEntries + [r.entry];
      }
      i := i + 1;
    }
    query := UniqBy(queryEntries, EntryKey);
  }
}
