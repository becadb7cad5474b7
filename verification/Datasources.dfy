/** Datasources, their handlers and the grouping of packages/node/src/indexer/dictionary/utils.ts. */
module Datasources {
  import opened Collections

  /** A JavaScript property that may be absent, null or a string. */
  datatype Field = Undefined | Null | Str(s: string)

  predicate Truthy(f: Field) {
    f.Str? && f.s != ""
  }

  datatype LogFilter = LogFilter(topics: Option<seq<Field>>)

  datatype TxProperty = FromProperty | ToProperty | FunctionProperty

  /** `written` lists the properties in the order the manifest has them, the order
      in which `JSON.stringify` prints them. */
  datatype TxFilter = TxFilter(from: Field, to: Field, func: Field, written: seq<TxProperty>) {
    function Get(p: TxProperty): Field {
      match p
      case FromProperty => from
      case ToProperty => to
      case FunctionProperty => func
    }

    /** `Object.values(filter).filter((v) => v !== undefined).length` is zero. */
    predicate AllUndefined() {
      from.Undefined? && to.Undefined? && func.Undefined?
    }
  }

  /** `rest` is the JSON text of the other properties of a block filter. */
  datatype BlockFilter = BlockFilter(modulo: Option<int>, rest: string)

  datatype Handler =
    | BlockHandler(name: string, blockFilter: Option<BlockFilter>)
    | CallHandler(name: string, txFilter: Option<TxFilter>)
    | EventHandler(name: string, logFilter: Option<LogFilter>)
  {
    predicate HasFilter() {
      match this
      case BlockHandler(_, filter) => filter.Some?
      case CallHandler(_, filter) => filter.Some?
      case EventHandler(_, filter) => filter.Some?
    }
  }

  datatype Datasource = Datasource(address: Field, handlers: seq<Handler>)

  // ---------- the grouping key ----------

  /** What `kind:JSON.stringify(filter)` tells apart: undefined properties are dropped,
      undefined array elements are printed as null, properties keep their order. */
  datatype HandlerKey =
    | BlockKey(blockFilter: Option<BlockFilter>)
    | CallKey(txFilter: Option<TxFilter>)
    | EventKey(logFilter: Option<LogFilter>)

  function JsonElement(f: Field): Field {
    if f.Undefined? then Null else f
  }

  function JsonElements(fs: seq<Field>): (r: seq<Field>)
    ensures |r| == |fs| && forall i :: 0 <= i < |fs| ==> r[i] == JsonElement(fs[i])
  {
    seq(|fs|, i requires 0 <= i < |fs| => JsonElement(fs[i]))
  }

  function Defined(f: TxFilter, ps: seq<TxProperty>): seq<TxProperty> {
    if ps == [] then []
    else (if f.Get(ps[0]).Undefined? then [] else [ps[0]]) + Defined(f, ps[1..])
  }

  function KeyOf(h: Handler): HandlerKey {
    match h
    case BlockHandler(_, filter) => BlockKey(filter)
    case CallHandler(_, None) => CallKey(None)
    case CallHandler(_, Some(f)) => CallKey(Some(f.(written := Defined(f, f.written))))
    case EventHandler(_, None) => EventKey(None)
    case EventHandler(_, Some(LogFilter(None))) => EventKey(Some(LogFilter(None)))
    case EventHandler(_, Some(LogFilter(Some(ts)))) => EventKey(Some(LogFilter(Some(JsonElements(ts)))))
  }

  /** What the text `kind:JSON.stringify(filter)` tells of two handlers, said without keys: the same kind, and
      filters that print alike. Names are not part of it. */
  predicate FiltersPrintAlike(hd: Handler, hd': Handler) {
    match (hd, hd')
    case (BlockHandler(_, f), BlockHandler(_, f')) => f == f'
    case (CallHandler(_, None), CallHandler(_, None)) => true
    case (CallHandler(_, Some(f)), CallHandler(_, Some(f'))) =>
      f.from == f'.from && f.to == f'.to && f.func == f'.func && Defined(f, f.written) == Defined(f', f'.written)
    case (EventHandler(_, None), EventHandler(_, None)) => true
    case (EventHandler(_, Some(f)), EventHandler(_, Some(f'))) =>
      || (f.topics.None? && f'.topics.None?)
      || (&& f.topics.Some? && f'.topics.Some? && |f.topics.value| == |f'.topics.value|
          && forall i :: 0 <= i < |f.topics.value| ==>
               f.topics.value[i] == f'.topics.value[i] || !(f.topics.value[i].Str? || f'.topics.value[i].Str?))
    case _ => false
  }

  /** Main result: two handlers have one key exactly when their filters print alike. */
  lemma KeysAgreeExactly(hd: Handler, hd': Handler)
    ensures KeyOf(hd) == KeyOf(hd') <==> FiltersPrintAlike(hd, hd')
  {
    if hd.EventHandler? && hd'.EventHandler? && hd.logFilter.Some? && hd'.logFilter.Some?
       && hd.logFilter.value.topics.Some? && hd'.logFilter.value.topics.Some? {
      var ts, us := hd.logFilter.value.topics.value, hd'.logFilter.value.topics.value;
      if JsonElements(ts) == JsonElements(us) {
        assert forall i :: 0 <= i < |ts| ==> JsonElement(ts[i]) == JsonElements(us)[i];
      }
      if FiltersPrintAlike(hd, hd') {
        assert JsonElements(ts) == JsonElements(us);
      }
    }
  }

  // ---------- grouping ----------

  datatype Pair = Pair(address: Field, handler: Handler)

  datatype KeyedPairs = Bucket(key: HandlerKey, members: seq<Pair>)

  /** A group of `groupBy` always has a member. */
  type Bucket = b: KeyedPairs | b.members != []
    witness KeyedPairs.Bucket(EventKey(None), [Pair(Undefined, EventHandler("", None))])

  datatype Group = Group(handler: Handler, addresses: seq<Field>)

  function PairsOf(ds: Datasource): (ps: seq<Pair>)
    ensures |ps| == |ds.handlers|
    ensures forall i :: 0 <= i < |ps| ==> ps[i] == Pair(ds.address, ds.handlers[i])
  {
    seq(|ds.handlers|, i requires 0 <= i < |ds.handlers| => Pair(ds.address, ds.handlers[i]))
  }

  function Pairs(dss: seq<Datasource>): seq<Pair> {
    if dss == [] then [] else PairsOf(dss[0]) + Pairs(dss[1..])
  }

  function AddToBuckets(buckets: seq<Bucket>, p: Pair): seq<Bucket> {
    if buckets == [] then
      [Bucket(KeyOf(p.handler), [p])]
    else if buckets[0].key == KeyOf(p.handler) then
      [buckets[0].(members := buckets[0].members + [p])] + buckets[1..]
    else
      [buckets[0]] + AddToBuckets(buckets[1..], p)
  }

  /** lodash's `groupBy` followed by `Object.values`. */
  function GroupBy(ps: seq<Pair>): seq<Bucket> {
    if ps == [] then [] else AddToBuckets(GroupBy(ps[..|ps| - 1]), ps[|ps| - 1])
  }

  function AddressesOf(ps: seq<Pair>): (r: seq<Field>)
    ensures |r| == |ps| && forall i :: 0 <= i < |r| ==> r[i] == ps[i].address
  {
    seq(|ps|, i requires 0 <= i < |ps| => ps[i].address)
  }

  function BucketsToGroups(buckets: seq<Bucket>): (r: seq<Group>)
    ensures |r| == |buckets|
    ensures forall i :: 0 <= i < |r| ==>
      r[i] == Group(buckets[i].members[0].handler, Uniq(AddressesOf(buckets[i].members)))
  {
    seq(|buckets|, i requires 0 <= i < |buckets| =>
      Group(buckets[i].members[0].handler, Uniq(AddressesOf(buckets[i].members))))
  }

  function GroupedDataSources(dss: seq<Datasource>): seq<Group> {
    BucketsToGroups(GroupBy(Pairs(dss)))
  }

  function ValidAddresses(addresses: seq<Field>): (r: seq<string>)
    ensures (forall i :: 0 <= i < |addresses| ==> Truthy(addresses[i])) ==>
      |r| == |addresses| && forall i :: 0 <= i < |r| ==> addresses[i] == Str(r[i])
    ensures r == [] <==> forall a :: a in addresses ==> !Truthy(a)
  {
    if addresses == [] then []
    else (if Truthy(addresses[0]) then [addresses[0].s] else []) + ValidAddresses(addresses[1..])
  }

  // ---------- grouping is an order-preserving partition ----------

  /** The pairs with one key, in their original order. */
  function WithKey(ps: seq<Pair>, k: HandlerKey): (r: seq<Pair>)
    ensures forall p :: p in r ==> p in ps && KeyOf(p.handler) == k
  {
    if ps == [] then []
    else
      var last := ps[|ps| - 1];
      WithKey(ps[..|ps| - 1], k) + (if KeyOf(last.handler) == k then [last] else [])
  }

  /** What the fold builds, said directly: one bucket for each distinct key. */
  ghost predicate IsPartition(ps: seq<Pair>, buckets: seq<Bucket>) {
    && (forall i :: 0 <= i < |buckets| ==> buckets[i].members == WithKey(ps, buckets[i].key))
    && (forall i, j :: 0 <= i < j < |buckets| ==> buckets[i].key != buckets[j].key)
    && (forall p :: p in ps ==> exists i :: 0 <= i < |buckets| && buckets[i].key == KeyOf(p.handler))
  }

  lemma {:induction false} AddToBucketsEffect(buckets: seq<Bucket>, p: Pair) returns (at: nat)
    requires forall i, j :: 0 <= i < j < |buckets| ==> buckets[i].key != buckets[j].key
    ensures at <= |buckets|
    ensures forall i :: 0 <= i < at ==> buckets[i].key != KeyOf(p.handler)
    ensures at < |buckets| ==> buckets[at].key == KeyOf(p.handler)
    ensures at < |buckets| ==>
      AddToBuckets(buckets, p) == buckets[at := buckets[at].(members := buckets[at].members + [p])]
    ensures at == |buckets| ==> AddToBuckets(buckets, p) == buckets + [Bucket(KeyOf(p.handler), [p])]
  {
    if buckets == [] || buckets[0].key == KeyOf(p.handler) {
      at := 0;
    } else {
      var rest := AddToBucketsEffect(buckets[1..], p);
      at := rest + 1;
    }
  }

  lemma {:induction false} WithKeyFindsAll(ps: seq<Pair>, p: Pair)
    requires p in ps
    ensures p in WithKey(ps, KeyOf(p.handler))
  {
    if p in ps[..|ps| - 1] {
      WithKeyFindsAll(ps[..|ps| - 1], p);
    }
  }

  lemma {:induction false} WithKeyOfExtended(ps: seq<Pair>, p: Pair, k: HandlerKey)
    ensures WithKey(ps + [p], k) == WithKey(ps, k) + (if KeyOf(p.handler) == k then [p] else [])
  {
  }

  lemma {:induction false} AbsentKeyHasNoPairs(ps: seq<Pair>, k: HandlerKey)
    requires forall q :: q in ps ==> KeyOf(q.handler) != k
    ensures WithKey(ps, k) == []
  {
    if ps != [] {
      AbsentKeyHasNoPairs(ps[..|ps| - 1], k);
    }
  }

  lemma {:induction false} AddKeepsMembers(ps: seq<Pair>, p: Pair, before: seq<Bucket>, i: nat)
    requires IsPartition(ps, before)
    requires i < |AddToBuckets(before, p)|
    ensures var bucket := AddToBuckets(before, p)[i]; bucket.members == WithKey(ps + [p], bucket.key)
  {
    var at := AddToBucketsEffect(before, p);
    WithKeyOfExtended(ps, p, AddToBuckets(before, p)[i].key);
    if i == at == |before| {
      AbsentKeyHasNoPairs(ps, KeyOf(p.handler));
    }
  }

  lemma {:induction false} AddKeepsPartition(ps: seq<Pair>, p: Pair, before: seq<Bucket>)
    requires IsPartition(ps, before)
    ensures IsPartition(ps + [p], AddToBuckets(before, p))
  {
    var at := AddToBucketsEffect(before, p);
    var after := AddToBuckets(before, p);
    forall i | 0 <= i < |after|
      ensures after[i].members == WithKey(ps + [p], after[i].key)
    {
      AddKeepsMembers(ps, p, before, i);
    }
    forall q | q in ps + [p]
      ensures exists i :: 0 <= i < |after| && after[i].key == KeyOf(q.handler)
    {
      if q in ps {
        var i :| 0 <= i < |before| && before[i].key == KeyOf(q.handler);
        assert after[i].key == KeyOf(q.handler);
      } else {
        assert after[at].key == KeyOf(q.handler);
      }
    }
  }

  /** Main result: every pair lands in exactly one group, that of its key, in order. */
  lemma {:induction false} GroupByIsPartition(ps: seq<Pair>)
    ensures IsPartition(ps, GroupBy(ps))
  {
    if ps != [] {
      GroupByIsPartition(ps[..|ps| - 1]);
      AddKeepsPartition(ps[..|ps| - 1], ps[|ps| - 1], GroupBy(ps[..|ps| - 1]));
      assert ps == ps[..|ps| - 1] + [ps[|ps| - 1]];
    }
  }

  /** Position of the first pair with the key, or the number of pairs. */
  function FirstAt(ps: seq<Pair>, k: HandlerKey): (n: nat)
    ensures n <= |ps|
    ensures n < |ps| <==> exists p :: p in ps && KeyOf(p.handler) == k
  {
    if ps == [] || KeyOf(ps[0].handler) == k then 0 else 1 + FirstAt(ps[1..], k)
  }

  lemma {:induction false} FirstAtOfExtended(ps: seq<Pair>, p: Pair, k: HandlerKey)
    ensures FirstAt(ps, k) < |ps| ==> FirstAt(ps + [p], k) == FirstAt(ps, k)
    ensures FirstAt(ps, k) == |ps| && KeyOf(p.handler) == k ==> FirstAt(ps + [p], k) == |ps|
  {
    if ps != [] {
      assert (ps + [p])[1..] == ps[1..] + [p];
      FirstAtOfExtended(ps[1..], p, k);
    }
  }

  function BucketKeys(buckets: seq<Bucket>): (r: seq<HandlerKey>)
    ensures |r| == |buckets| && forall i :: 0 <= i < |r| ==> r[i] == buckets[i].key
  {
    seq(|buckets|, i requires 0 <= i < |buckets| => buckets[i].key)
  }

  /** The keys all occur, and are listed in the order of their first occurrences. */
  predicate InFirstOrder(ps: seq<Pair>, ks: seq<HandlerKey>) {
    && (forall i :: 0 <= i < |ks| ==> FirstAt(ps, ks[i]) < |ps|)
    && (forall i, j :: 0 <= i < j < |ks| ==> FirstAt(ps, ks[i]) < FirstAt(ps, ks[j]))
  }

  lemma {:induction false} ExtendedOrder(ps: seq<Pair>, p: Pair, ks: seq<HandlerKey>)
    requires InFirstOrder(ps, ks)
    ensures InFirstOrder(ps + [p], ks)
    ensures FirstAt(ps, KeyOf(p.handler)) == |ps| ==> InFirstOrder(ps + [p], ks + [KeyOf(p.handler)])
  {
    FirstAtOfExtended(ps, p, KeyOf(p.handler));
    forall i | 0 <= i < |ks|
      ensures FirstAt(ps + [p], ks[i]) == FirstAt(ps, ks[i])
    {
      FirstAtOfExtended(ps, p, ks[i]);
    }
  }

  lemma {:induction false} AddToBucketsKeys(buckets: seq<Bucket>, p: Pair)
    ensures var ks, k := BucketKeys(buckets), KeyOf(p.handler);
      BucketKeys(AddToBuckets(buckets, p)) == if k in ks then ks else ks + [k]
  {
    if buckets != [] {
      AddToBucketsKeys(buckets[1..], p);
      assert BucketKeys(buckets) == [buckets[0].key] + BucketKeys(buckets[1..]);
      if buckets[0].key != KeyOf(p.handler) {
        var rest := AddToBuckets(buckets[1..], p);
        assert BucketKeys([buckets[0]] + rest) == [buckets[0].key] + BucketKeys(rest);
      }
    }
  }

  lemma {:induction false} GroupedKeysOccur(ps: seq<Pair>, k: HandlerKey)
    ensures k in BucketKeys(GroupBy(ps)) <==> FirstAt(ps, k) < |ps|
  {
    if ps != [] {
      var front, p := ps[..|ps| - 1], ps[|ps| - 1];
      assert ps == front + [p];
      GroupedKeysOccur(front, k);
      AddToBucketsKeys(GroupBy(front), p);
    }
  }

  /** Groups come in the order in which their keys first occur. */
  lemma {:induction false} GroupByKeepsFirstOrder(ps: seq<Pair>)
    ensures InFirstOrder(ps, BucketKeys(GroupBy(ps)))
  {
    if ps != [] {
      var front, p := ps[..|ps| - 1], ps[|ps| - 1];
      assert ps == front + [p];
      GroupByKeepsFirstOrder(front);
      ExtendedOrder(front, p, BucketKeys(GroupBy(front)));
      GroupedKeysOccur(front, KeyOf(p.handler));
      AddToBucketsKeys(GroupBy(front), p);
    }
  }

  lemma {:induction false} PairsAreHandlers(dss: seq<Datasource>, p: Pair)
    ensures p in Pairs(dss) <==> exists ds :: ds in dss && ds.address == p.address && p.handler in ds.handlers
  {
    if dss != [] {
      PairsAreHandlers(dss[1..], p);
      assert dss == [dss[0]] + dss[1..];
      assert p in PairsOf(dss[0]) <==> dss[0].address == p.address && p.handler in dss[0].handlers by {
        if dss[0].address == p.address && p.handler in dss[0].handlers {
          var i :| 0 <= i < |dss[0].handlers| && dss[0].handlers[i] == p.handler;
          assert PairsOf(dss[0])[i] == p;
        }
      }
      if ds :| ds in dss && ds.address == p.address && p.handler in ds.handlers {
        assert ds == dss[0] || ds in dss[1..];
      }
    }
  }

  predicate GroupHolds(g: Group, p: Pair) {
    KeyOf(g.handler) == KeyOf(p.handler) && p.address in g.addresses
  }

  lemma AddressIsListed(members: seq<Pair>, p: Pair)
    requires p in members
    ensures p.address in Uniq(AddressesOf(members))
  {
  }

  /** Every datasource/handler pair is found in a group. */
  lemma PairHasGroup(dss: seq<Datasource>, p: Pair) returns (g: Group)
    requires p in Pairs(dss)
    ensures g in GroupedDataSources(dss) && GroupHolds(g, p)
  {
    var buckets := GroupBy(Pairs(dss));
    GroupByIsPartition(Pairs(dss));
    var i :| 0 <= i < |buckets| && buckets[i].key == KeyOf(p.handler);
    g := GroupedDataSources(dss)[i];
    assert g == Group(buckets[i].members[0].handler, Uniq(AddressesOf(buckets[i].members)));
    assert buckets[i].members[0] in buckets[i].members;
    WithKeyFindsAll(Pairs(dss), p);
    AddressIsListed(buckets[i].members, p);
  }

  /** Every address a group lists comes from a datasource that has a handler with the group's key. */
  lemma GroupAddressHasPair(dss: seq<Datasource>, g: Group, a: Field) returns (p: Pair)
    requires g in GroupedDataSources(dss) && a in g.addresses
    ensures p in Pairs(dss) && p.address == a && GroupHolds(g, p)
  {
    var buckets := GroupBy(Pairs(dss));
    GroupByIsPartition(Pairs(dss));
    var i :| 0 <= i < |buckets| && GroupedDataSources(dss)[i] == g;
    assert buckets[i].members[0] in buckets[i].members;
    var k :| 0 <= k < |buckets[i].members| && AddressesOf(buckets[i].members)[k] == a;
    p := buckets[i].members[k];
    assert p in buckets[i].members;
  }

  /** A group's own handler is one of the datasources' handlers, under an address the group lists. */
  lemma GroupHandlerHasPair(dss: seq<Datasource>, g: Group) returns (p: Pair)
    requires g in GroupedDataSources(dss)
    ensures p in Pairs(dss) && p.handler == g.handler && p.address in g.addresses
  {
    var buckets := GroupBy(Pairs(dss));
    GroupByIsPartition(Pairs(dss));
    var i :| 0 <= i < |buckets| && GroupedDataSources(dss)[i] == g;
    p := buckets[i].members[0];
    assert p in buckets[i].members;
    assert AddressesOf(buckets[i].members)[0] == p.address;
  }

  /** Groups have distinct keys, and list addresses, at least one, without repeats. */
  lemma GroupsAreDistinct(dss: seq<Datasource>)
    ensures var gs := GroupedDataSources(dss);
      && (forall i, j :: 0 <= i < j < |gs| ==> KeyOf(gs[i].handler) != KeyOf(gs[j].handler))
      && (forall g :: g in gs ==> g.addresses != [])
      && (forall g :: g in gs ==> forall i, j :: 0 <= i < j < |g.addresses| ==> g.addresses[i] != g.addresses[j])
  {
    var buckets := GroupBy(Pairs(dss));
    GroupByIsPartition(Pairs(dss));
    forall i | 0 <= i < |buckets|
      ensures KeyOf(GroupedDataSources(dss)[i].handler) == buckets[i].key
    {
      assert buckets[i].members[0] in buckets[i].members;
    }
  }

  /** A group has the handler of the first pair with its key, and lists the addresses of the pairs with that
      key in the order of their first occurrences. */
  lemma GroupExactly(dss: seq<Datasource>, g: Group)
    requires g in GroupedDataSources(dss)
    ensures var members := WithKey(Pairs(dss), KeyOf(g.handler));
      && members != [] && g.handler == members[0].handler && g.addresses == Uniq(AddressesOf(members))
  {
    var buckets := GroupBy(Pairs(dss));
    GroupByIsPartition(Pairs(dss));
    var i :| 0 <= i < |buckets| && GroupedDataSources(dss)[i] == g;
    assert buckets[i].members[0] in buckets[i].members;
  }
}
