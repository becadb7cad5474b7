/** Whole projects: from a list of datasources, through grouping, address merging and
    deduplication, to the records the dictionary returns. */
module ProjectCoverage {
  import opened Collections
  import opened Strings
  import opened Datasources
  import opened BlockFilters
  import opened Dictionary
  import opened DictionaryV1
  import opened DictionaryV2
  import opened CoverageV1
  import opened CoverageV2

  // ---------- what the project wants ----------

  ghost predicate LogWanted(h: Hashing, dss: seq<Datasource>, log: Log) {
    exists ds, hd :: ds in dss && hd in ds.handlers && HandlerAcceptsLog(h, hd, ds.address, log)
  }

  ghost predicate TxWanted(h: Hashing, dss: seq<Datasource>, tx: Transaction) {
    exists ds, hd :: ds in dss && hd in ds.handlers && HandlerAcceptsTx(h, hd, ds.address, tx)
  }

  /** Some group holds the accepting handler: the grouped view of what is wanted. */
  lemma WantedLogHasGroup(h: Hashing, dss: seq<Datasource>, log: Log) returns (g: Group, a: Field)
    requires LogWanted(h, dss, log)
    ensures g in GroupedDataSources(dss) && a in g.addresses && HandlerAcceptsLog(h, g.handler, a, log)
  {
    var ds, hd :| ds in dss && hd in ds.handlers && HandlerAcceptsLog(h, hd, ds.address, log);
    var p := Pair(ds.address, hd);
    PairsAreHandlers(dss, p);
    g := PairHasGroup(dss, p);
    a := ds.address;
    SameKeySameFilter(h, hd, g.handler, a);
  }

  lemma WantedTxHasGroup(h: Hashing, dss: seq<Datasource>, tx: Transaction) returns (g: Group, a: Field)
    requires TxWanted(h, dss, tx)
    ensures g in GroupedDataSources(dss) && a in g.addresses && HandlerAcceptsTx(h, g.handler, a, tx)
  {
    var ds, hd :| ds in dss && hd in ds.handlers && HandlerAcceptsTx(h, hd, ds.address, tx);
    var p := Pair(ds.address, hd);
    PairsAreHandlers(dss, p);
    g := PairHasGroup(dss, p);
    a := ds.address;
    SameKeySameFilter(h, hd, g.handler, a);
  }

  lemma GroupAcceptanceIsWanted(h: Hashing, dss: seq<Datasource>, g: Group, a: Field)
    requires g in GroupedDataSources(dss) && a in g.addresses
    ensures forall log :: HandlerAcceptsLog(h, g.handler, a, log) ==> LogWanted(h, dss, log)
    ensures forall tx :: HandlerAcceptsTx(h, g.handler, a, tx) ==> TxWanted(h, dss, tx)
  {
    var p := GroupAddressHasPair(dss, g, a);
    PairsAreHandlers(dss, p);
    var ds :| ds in dss && ds.address == p.address && p.handler in ds.handlers;
    SameKeySameFilter(h, g.handler, p.handler, a);
  }

  // ---------- from groups to queries ----------

  lemma {:induction false} EntryIsKept(rs: seq<GroupResult>, n: nat, i: nat)
    requires i < n <= |rs| && rs[i].Entry?
    ensures rs[i].entry in EntriesOf(rs, n)
  {
    if i < n - 1 {
      EntryIsKept(rs, n - 1, i);
    }
  }

  lemma {:induction false} EntryHasGroup(rs: seq<GroupResult>, n: nat, e: QueryEntry) returns (i: nat)
    requires n <= |rs| && e in EntriesOf(rs, n)
    ensures i < n && rs[i] == Entry(e)
  {
    if rs[n - 1] == Entry(e) {
      i := n - 1;
    } else {
      i := EntryHasGroup(rs, n - 1, e);
    }
  }

  predicate GroupMatches(h: Hashing, g: Group, limit: int, r: Record) {
    GroupEntry(h, g, limit).Entry? && EntryMatches(GroupEntry(h, g, limit).entry, r)
  }

  /** Whether a project's V1 query uses the dictionary at all. */
  predicate UsableV1(h: Hashing, dss: seq<Datasource>, limit: int) {
    Usable(GroupResults(h, GroupedDataSources(dss), limit))
  }

  /** A usable query selects a record iff some group's own entry does. */
  lemma QueryMatchesIffGroupDoes(h: Hashing, dss: seq<Datasource>, limit: int, r: Record)
    requires UsableV1(h, dss, limit)
    ensures QueryMatches(V1Query(h, dss, limit), r)
       <==> exists g :: g in GroupedDataSources(dss) && GroupMatches(h, g, limit, r)
  {
    var gs := GroupedDataSources(dss);
    var rs := GroupResults(h, gs, limit);
    var es := EntriesOf(rs, |rs|);
    UniqKeepsMatches(es, r);
    if QueryMatches(es, r) {
      var k :| 0 <= k < |es| && EntryMatches(es[k], r);
      var i := EntryHasGroup(rs, |rs|, es[k]);
      ResultAt(h, gs, limit, i);
      assert gs[i] in gs && GroupMatches(h, gs[i], limit, r);
    }
    if g :| g in gs && GroupMatches(h, g, limit, r) {
      var i :| 0 <= i < |gs| && gs[i] == g;
      ResultAt(h, gs, limit, i);
      EntryIsKept(rs, |rs|, i);
      var k :| 0 <= k < |es| && es[k] == rs[i].entry;
      assert EntryMatches(es[k], r);
    }
  }

  lemma MatchedQueryHasGroup(h: Hashing, dss: seq<Datasource>, limit: int, r: Record) returns (g: Group)
    requires UsableV1(h, dss, limit) && QueryMatches(V1Query(h, dss, limit), r)
    ensures g in GroupedDataSources(dss) && GroupMatches(h, g, limit, r)
    ensures r.LogRecord? ==> g.handler.EventHandler?
    ensures r.TxRecord? ==> g.handler.CallHandler?
  {
    QueryMatchesIffGroupDoes(h, dss, limit, r);
    g :| g in GroupedDataSources(dss) && GroupMatches(h, g, limit, r);
  }

  /** In a usable query every event or call group has an entry. */
  lemma UsableGroupHasEntry(h: Hashing, dss: seq<Datasource>, limit: int, g: Group)
    requires UsableV1(h, dss, limit) && g in GroupedDataSources(dss)
    ensures g.handler.EventHandler? ==>
      GroupEntry(h, g, limit) == Entry(EventEntry(h, g.handler.logFilter, g.addresses, limit))
    ensures g.handler.CallHandler? ==>
      GroupEntry(h, g, limit) == Entry(CallEntry(h, g.handler.txFilter, g.addresses, limit))
  {
    var gs := GroupedDataSources(dss);
    var i :| 0 <= i < |gs| && gs[i] == g;
    ResultAt(h, gs, limit, i);
    assert !GroupResults(h, gs, limit)[i].Unusable?;
  }

  lemma GroupLogIsSelected(h: Hashing, dss: seq<Datasource>, limit: int, g: Group, log: Log)
    requires UsableV1(h, dss, limit) && g in GroupedDataSources(dss) && g.handler.EventHandler?
    requires EntryMatches(EventEntry(h, g.handler.logFilter, g.addresses, limit), RecordOfLog(log))
    ensures QueryMatches(V1Query(h, dss, limit), RecordOfLog(log))
  {
    UsableGroupHasEntry(h, dss, limit, g);
    assert GroupMatches(h, g, limit, RecordOfLog(log));
    QueryMatchesIffGroupDoes(h, dss, limit, RecordOfLog(log));
  }

  lemma GroupTxIsSelected(h: Hashing, dss: seq<Datasource>, limit: int, g: Group, tx: Transaction)
    requires UsableV1(h, dss, limit) && g in GroupedDataSources(dss) && g.handler.CallHandler?
    requires EntryMatches(CallEntry(h, g.handler.txFilter, g.addresses, limit), RecordOfTx(tx))
    ensures QueryMatches(V1Query(h, dss, limit), RecordOfTx(tx))
  {
    UsableGroupHasEntry(h, dss, limit, g);
    assert GroupMatches(h, g, limit, RecordOfTx(tx));
    QueryMatchesIffGroupDoes(h, dss, limit, RecordOfTx(tx));
  }

  lemma V1EntryHasGroup(h: Hashing, dss: seq<Datasource>, limit: int, e: QueryEntry) returns (g: Group)
    requires e in V1Query(h, dss, limit)
    ensures g in GroupedDataSources(dss) && GroupEntry(h, g, limit) == Entry(e)
  {
    var gs := GroupedDataSources(dss);
    var rs := GroupResults(h, gs, limit);
    UniqByInventsNothing(EntriesOf(rs, |rs|), EntryKey, e);
    var i := EntryHasGroup(rs, |rs|, e);
    ResultAt(h, gs, limit, i);
    g := gs[i];
  }

  /** Main result: no two entries of a query have the same entity and, in any order, the same conditions; kept are
      the entries of the groups, in group order, that repeat no earlier one. */
  lemma V1QueryHasNoDuplicates(h: Hashing, dss: seq<Datasource>, limit: int, i: nat, j: nat)
    requires i < j < |V1Query(h, dss, limit)|
    ensures var a, b := V1Query(h, dss, limit)[i], V1Query(h, dss, limit)[j];
      a.entity != b.entity || multiset(a.conditions) != multiset(b.conditions)
    ensures var entries := EntriesOf(GroupResults(h, GroupedDataSources(dss), limit), |GroupedDataSources(dss)|);
      var ps := Firsts(entries, EntryKey, |entries|);
      j < |ps| && V1Query(h, dss, limit)[i] == entries[ps[i]] && V1Query(h, dss, limit)[j] == entries[ps[j]]
  {
    var q := V1Query(h, dss, limit);
    var entries := EntriesOf(GroupResults(h, GroupedDataSources(dss), limit), |GroupedDataSources(dss)|);
    UniqByExactly(entries, EntryKey, |entries|);
    assert entries[..|entries|] == entries;
    assert EntryKey(q[i]) != EntryKey(q[j]);
    var g := V1EntryHasGroup(h, dss, limit, q[i]);
    var g' := V1EntryHasGroup(h, dss, limit, q[j]);
    BuiltEntriesSameKeyExactly(h, g, g', limit);
  }

  // ---------- V1 ----------

  predicate FaithfulGroup(h: Hashing, g: Group, limit: int) {
    match g.handler
    case BlockHandler(_, _) => true
    case CallHandler(_, filter) => forall a :: a in g.addresses ==> FaithfulCall(h, filter, g.addresses, limit, a)
    case EventHandler(_, filter) =>
      FaithfulTopics(h, FilterTopics(filter)) || forall a :: a in g.addresses ==> HopelessAddress(a)
  }

  lemma AcceptedLogHasAddress(h: Hashing, hd: Handler, a: Field, log: Log)
    requires WellFormedLog(log) && HandlerAcceptsLog(h, hd, a, log)
    ensures !HopelessAddress(a)
  {
  }

  predicate SoundGroup(h: Hashing, g: Group, limit: int) {
    |g.addresses| <= limit && (g.handler.CallHandler? ==> SoundCall(h, g.handler.txFilter, g.addresses, limit))
  }

  /** Main result: with faithful event groups, the V1 query is either unused or misses no wanted log. */
  lemma V1CoversLogs(h: Hashing, dss: seq<Datasource>, limit: int, log: Log)
    requires WellFormedLog(log) && LogWanted(h, dss, log)
    requires forall g :: g in GroupedDataSources(dss) && g.handler.EventHandler? ==> FaithfulGroup(h, g, limit)
    ensures V1Query(h, dss, limit) == [] || QueryMatches(V1Query(h, dss, limit), RecordOfLog(log))
  {
    if V1Query(h, dss, limit) != [] {
      var g, a := WantedLogHasGroup(h, dss, log);
      assert FaithfulGroup(h, g, limit);
      AcceptedLogHasAddress(h, g.handler, a, log);
      TopicsVerdictMeans(h, log, FilterTopics(g.handler.logFilter), 0);
      FaithfulTopicsMissNothing(h, FilterTopics(g.handler.logFilter), log);
      EventEntryMeans(h, g.handler.logFilter, g.addresses, limit, log);
      GroupLogIsSelected(h, dss, limit, g, log);
    }
  }

  /** Main result: the same for transactions and call groups. */
  lemma V1CoversTransactions(h: Hashing, dss: seq<Datasource>, limit: int, tx: Transaction)
    requires ProperHashing(h) && WellFormedTx(tx) && TxWanted(h, dss, tx)
    requires forall g :: g in GroupedDataSources(dss) && g.handler.CallHandler? ==> FaithfulGroup(h, g, limit)
    ensures V1Query(h, dss, limit) == [] || QueryMatches(V1Query(h, dss, limit), RecordOfTx(tx))
  {
    if V1Query(h, dss, limit) != [] {
      var g, a := WantedTxHasGroup(h, dss, tx);
      CallCoverageIsExact(h, g.handler.txFilter, g.addresses, limit, a);
      GroupTxIsSelected(h, dss, limit, g, tx);
    }
  }

  lemma SelectedLogIsWanted(h: Hashing, dss: seq<Datasource>, limit: int, g: Group, log: Log)
    requires WellFormedLog(log) && g in GroupedDataSources(dss) && |g.addresses| <= limit
    requires GroupMatches(h, g, limit, RecordOfLog(log))
    ensures LogWanted(h, dss, log)
  {
    GroupsAreDistinct(dss);
    var filter := g.handler.logFilter;
    EventEntryMeans(h, filter, g.addresses, limit, log);
    SelectedTopicsAreAccepted(h, FilterTopics(filter), log);
    TopicsVerdictMeans(h, log, FilterTopics(filter), 0);
    var i: nat;
    if Narrowing(g.addresses, limit) {
      i :| i < |g.addresses| && ToLower(g.addresses[i].s) == ToLower(log.address);
    } else {
      i :| i < |g.addresses| && !Truthy(g.addresses[i]);
    }
    assert HandlerAcceptsLog(h, g.handler, g.addresses[i], log);
    GroupAcceptanceIsWanted(h, dss, g, g.addresses[i]);
  }

  /** Within the address limit a used V1 query selects no log that is not wanted, faithful or not. */
  lemma V1SelectsOnlyWantedLogs(h: Hashing, dss: seq<Datasource>, limit: int, log: Log)
    requires WellFormedLog(log) && UsableV1(h, dss, limit)
    requires forall g :: g in GroupedDataSources(dss) && g.handler.EventHandler? ==> |g.addresses| <= limit
    ensures QueryMatches(V1Query(h, dss, limit), RecordOfLog(log)) ==> LogWanted(h, dss, log)
  {
    if QueryMatches(V1Query(h, dss, limit), RecordOfLog(log)) {
      var g := MatchedQueryHasGroup(h, dss, limit, RecordOfLog(log));
      SelectedLogIsWanted(h, dss, limit, g, log);
    }
  }

  /** Main result: within the address limit a used V1 query selects exactly the wanted logs. */
  lemma V1IsExactForLogs(h: Hashing, dss: seq<Datasource>, limit: int, log: Log)
    requires WellFormedLog(log) && V1Query(h, dss, limit) != []
    requires forall g :: g in GroupedDataSources(dss) && g.handler.EventHandler? ==>
      FaithfulGroup(h, g, limit) && |g.addresses| <= limit
    ensures QueryMatches(V1Query(h, dss, limit), RecordOfLog(log)) <==> LogWanted(h, dss, log)
  {
    if QueryMatches(V1Query(h, dss, limit), RecordOfLog(log)) {
      V1SelectsOnlyWantedLogs(h, dss, limit, log);
    }
    if LogWanted(h, dss, log) {
      V1CoversLogs(h, dss, limit, log);
    }
  }

  lemma SelectedTxIsWanted(h: Hashing, dss: seq<Datasource>, limit: int, g: Group, tx: Transaction)
    requires ProperHashing(h) && WellFormedTx(tx)
    requires g in GroupedDataSources(dss) && SoundGroup(h, g, limit)
    requires GroupMatches(h, g, limit, RecordOfTx(tx))
    ensures TxWanted(h, dss, tx)
  {
    GroupsAreDistinct(dss);
    var filter := g.handler.txFilter;
    CallEntryMeans(h, filter, g.addresses, limit, tx);
    SoundCallSelectsOnlyAccepted(h, filter, g.addresses, limit, tx);
    var i :| 0 <= i < |g.addresses| && FilterTransactions(h, tx, filter, g.addresses[i]);
    GroupAcceptanceIsWanted(h, dss, g, g.addresses[i]);
    assert HandlerAcceptsTx(h, g.handler, g.addresses[i], tx);
  }

  lemma V1SelectsOnlyWantedTransactions(h: Hashing, dss: seq<Datasource>, limit: int, tx: Transaction)
    requires ProperHashing(h) && WellFormedTx(tx) && UsableV1(h, dss, limit)
    requires forall g :: g in GroupedDataSources(dss) && g.handler.CallHandler? ==> SoundGroup(h, g, limit)
    ensures QueryMatches(V1Query(h, dss, limit), RecordOfTx(tx)) ==> TxWanted(h, dss, tx)
  {
    if QueryMatches(V1Query(h, dss, limit), RecordOfTx(tx)) {
      var g := MatchedQueryHasGroup(h, dss, limit, RecordOfTx(tx));
      SelectedTxIsWanted(h, dss, limit, g, tx);
    }
  }

  /** Main result: within the address limit a used V1 query selects exactly the wanted transactions,
      including groups that mix datasources with and without an address. */
  lemma V1IsExactForTransactions(h: Hashing, dss: seq<Datasource>, limit: int, tx: Transaction)
    requires ProperHashing(h) && WellFormedTx(tx) && V1Query(h, dss, limit) != []
    requires forall g :: g in GroupedDataSources(dss) && g.handler.CallHandler? ==>
      FaithfulGroup(h, g, limit) && SoundGroup(h, g, limit)
    ensures QueryMatches(V1Query(h, dss, limit), RecordOfTx(tx)) <==> TxWanted(h, dss, tx)
  {
    if QueryMatches(V1Query(h, dss, limit), RecordOfTx(tx)) {
      V1SelectsOnlyWantedTransactions(h, dss, limit, tx);
    }
    if TxWanted(h, dss, tx) {
      V1CoversTransactions(h, dss, limit, tx);
    }
  }

  // ---------- manifests ----------

  /** Conditions on one handler of the manifest, checkable without grouping. */
  predicate RegularHandler(h: Hashing, address: Field, hd: Handler) {
    match hd
    case BlockHandler(_, _) => true
    case EventHandler(_, filter) => FaithfulTopics(h, FilterTopics(filter))
    case CallHandler(_, filter) =>
      && filter.Some?
      && filter.value.to != Str("") && filter.value.func != Str("")
      && (Truthy(address) ==> filter.value.to.Undefined?)
      && (TestsSelector(filter.value) ==> |FunctionToSighash(h, filter.value.func.s)| == SIGHASH_LENGTH)
  }

  predicate RegularEvents(h: Hashing, dss: seq<Datasource>) {
    forall i, k :: 0 <= i < |dss| && 0 <= k < |dss[i].handlers| && dss[i].handlers[k].EventHandler? ==>
      RegularHandler(h, dss[i].address, dss[i].handlers[k])
  }

  predicate RegularCalls(h: Hashing, dss: seq<Datasource>) {
    forall i, k :: 0 <= i < |dss| && 0 <= k < |dss[i].handlers| && dss[i].handlers[k].CallHandler? ==>
      RegularHandler(h, dss[i].address, dss[i].handlers[k])
  }

  /** Regular handlers of one kind make the groups of that kind faithful, sound within the limit,
      and wider under V2. */
  lemma RegularManifest(h: Hashing, dss: seq<Datasource>, limit: int, g: Group)
    requires g in GroupedDataSources(dss)
    requires g.handler.EventHandler? ==> RegularEvents(h, dss)
    requires g.handler.CallHandler? ==> RegularCalls(h, dss)
    ensures FaithfulGroup(h, g, limit) && WiderGroup(h, g, limit) && FaithfulGroupV2(h, g, limit)
    ensures |g.addresses| <= limit ==> SoundGroup(h, g, limit)
  {
    if !g.handler.BlockHandler? {
      var p := GroupHandlerHasPair(dss, g);
      PairsAreHandlers(dss, p);
      var ds :| ds in dss && ds.address == p.address && p.handler in ds.handlers;
      assert RegularHandler(h, ds.address, p.handler);
    }
  }

  // ---------- V2 ----------

  predicate WiderGroup(h: Hashing, g: Group, limit: int) {
    g.handler.CallHandler? ==> WiderCall(h, g.handler.txFilter, g.addresses, limit)
  }

  predicate FaithfulGroupV2(h: Hashing, g: Group, limit: int) {
    match g.handler
    case BlockHandler(_, _) => true
    case CallHandler(_, filter) => forall a :: a in g.addresses ==> FaithfulCallV2(h, filter, g.addresses, limit, a)
    case EventHandler(_, filter) =>
      FaithfulTopicsV2(h, FilterTopics(filter)) || forall a :: a in g.addresses ==> HopelessAddress(a)
  }

  // ---------- groups that V2 keeps, drops and stops at ----------

  predicate KeptEvent(g: Group) {
    && g.handler.EventHandler?
    && (|| (g.handler.logFilter.Some? && g.handler.logFilter.value.topics.Some?
            && g.handler.logFilter.value.topics.value != [])
        || exists i :: 0 <= i < |g.addresses| && Truthy(g.addresses[i]))
  }

  predicate KeptCall(g: Group) {
    && g.handler.CallHandler?
    && (|| (g.handler.txFilter.Some? && !g.handler.txFilter.value.AllUndefined())
        || exists i :: 0 <= i < |g.addresses| && Truthy(g.addresses[i]))
  }

  /** A block handler without `modulo`. */
  predicate Stops(g: Group) {
    g.handler.BlockHandler? && (g.handler.blockFilter.None? || g.handler.blockFilter.value.modulo.None?)
  }

  /** V2 leaves the group out where V1 would stop using the dictionary. */
  predicate Dropped(g: Group) {
    !g.handler.BlockHandler? && !KeptEvent(g) && !KeptCall(g)
  }

  lemma ConditionsByKind(h: Hashing, g: Group, limit: int)
    requires g.addresses != []
    ensures ConditionsOf(h, g, limit).OfLog? <==> KeptEvent(g)
    ensures ConditionsOf(h, g, limit).OfTx? <==> KeptCall(g)
    ensures ConditionsOf(h, g, limit).Stop? <==> Stops(g)
  {
  }

  lemma {:induction false} LogConditionsKept(cs: seq<GroupConditions>, n: nat, i: nat)
    requires i < n <= |cs| && cs[i].OfLog?
    ensures cs[i].log in Collected(cs, n).logs
  {
    if i < n - 1 {
      LogConditionsKept(cs, n - 1, i);
    }
  }

  lemma {:induction false} TxConditionsKept(cs: seq<GroupConditions>, n: nat, i: nat)
    requires i < n <= |cs| && cs[i].OfTx?
    ensures cs[i].tx in Collected(cs, n).transactions
  {
    if i < n - 1 {
      TxConditionsKept(cs, n - 1, i);
    }
  }

  /** Whether a project's V2 query runs through all groups. */
  predicate UsableV2(h: Hashing, dss: seq<Datasource>, limit: int) {
    NeverStops(GroupsConditions(h, GroupedDataSources(dss), limit))
  }

  predicate ConditionsMatch(h: Hashing, g: Group, limit: int, r: Record) {
    match ConditionsOf(h, g, limit)
    case OfLog(c) => LogConditionsMatch(c, r)
    case OfTx(c) => TxConditionsMatch(c, r)
    case _ => false
  }

  lemma MatchingGroupMatchesV2(h: Hashing, dss: seq<Datasource>, limit: int, g: Group, r: Record)
    requires UsableV2(h, dss, limit)
    requires g in GroupedDataSources(dss) && ConditionsMatch(h, g, limit, r)
    ensures V2Matches(QueryV2(h, dss, limit), r)
  {
    var gs, q := GroupedDataSources(dss), QueryV2(h, dss, limit);
    var cs := GroupsConditions(h, gs, limit);
    var i :| 0 <= i < |gs| && gs[i] == g;
    ConditionsAt(h, gs, limit, i);
    if cs[i].OfLog? {
      LogConditionsKept(cs, |cs|, i);
      assert cs[i].log in q.logs.value;
    } else {
      TxConditionsKept(cs, |cs|, i);
      assert cs[i].tx in q.transactions.value;
    }
  }

  /** A group with a V1 entry also has V2 conditions, and V1 and V2 stop at the same groups or V1 earlier. */
  lemma EntryHasConditions(h: Hashing, g: Group, limit: int)
    ensures ConditionsOf(h, g, limit).Stop? ==> GroupEntry(h, g, limit).Unusable?
    ensures GroupEntry(h, g, limit).Entry? <==> ConditionsOf(h, g, limit).OfLog? || ConditionsOf(h, g, limit).OfTx?
    ensures GroupEntry(h, g, limit).Unusable? <==> ConditionsOf(h, g, limit).Stop? || Dropped(g)
  {
  }

  /** V2 never returns the empty query while V1 uses the dictionary. */
  lemma V1UsableMeansV2NeverStops(h: Hashing, dss: seq<Datasource>, limit: int)
    requires V1Query(h, dss, limit) != []
    ensures UsableV2(h, dss, limit)
  {
    var gs := GroupedDataSources(dss);
    forall i | 0 <= i < |gs|
      ensures !GroupsConditions(h, gs, limit)[i].Stop?
    {
      ResultAt(h, gs, limit, i);
      assert !GroupResults(h, gs, limit)[i].Unusable?;
      ConditionsAt(h, gs, limit, i);
      EntryHasConditions(h, gs[i], limit);
    }
  }

  lemma MatchingLogConditions(h: Hashing, g: Group, limit: int, log: Log)
    requires GroupMatches(h, g, limit, RecordOfLog(log))
    ensures ConditionsMatch(h, g, limit, RecordOfLog(log))
  {
    EntryHasConditions(h, g, limit);
    EventConditionsAreWider(h, g.handler.logFilter, g.addresses, limit, log);
  }

  lemma MatchingTxConditions(h: Hashing, g: Group, limit: int, tx: Transaction)
    requires ProperHashing(h) && WellFormedTx(tx) && WiderGroup(h, g, limit)
    requires GroupMatches(h, g, limit, RecordOfTx(tx))
    ensures ConditionsMatch(h, g, limit, RecordOfTx(tx))
  {
    EntryHasConditions(h, g, limit);
    CallConditionsAreWiderExactly(h, g.handler.txFilter, g.addresses, limit);
  }

  /** Main result: V2 selects every log that V1 selects. */
  lemma V2IsNeverNarrowerForLogs(h: Hashing, dss: seq<Datasource>, limit: int, log: Log)
    requires V1Query(h, dss, limit) != []
    ensures QueryMatches(V1Query(h, dss, limit), RecordOfLog(log)) ==>
      V2Matches(QueryV2(h, dss, limit), RecordOfLog(log))
  {
    V1UsableMeansV2NeverStops(h, dss, limit);
    if QueryMatches(V1Query(h, dss, limit), RecordOfLog(log)) {
      var g := MatchedQueryHasGroup(h, dss, limit, RecordOfLog(log));
      MatchingLogConditions(h, g, limit, log);
      MatchingGroupMatchesV2(h, dss, limit, g, RecordOfLog(log));
    }
  }

  /** Main result: V2 selects every transaction that V1 selects, unless a call handler sets `to: ''`. */
  lemma V2IsNeverNarrowerForTransactions(h: Hashing, dss: seq<Datasource>, limit: int, tx: Transaction)
    requires ProperHashing(h) && WellFormedTx(tx)
    requires V1Query(h, dss, limit) != []
    requires forall g :: g in GroupedDataSources(dss) && g.handler.CallHandler? ==> WiderGroup(h, g, limit)
    ensures QueryMatches(V1Query(h, dss, limit), RecordOfTx(tx)) ==> V2Matches(QueryV2(h, dss, limit), RecordOfTx(tx))
  {
    V1UsableMeansV2NeverStops(h, dss, limit);
    if QueryMatches(V1Query(h, dss, limit), RecordOfTx(tx)) {
      var g := MatchedQueryHasGroup(h, dss, limit, RecordOfTx(tx));
      MatchingTxConditions(h, g, limit, tx);
      MatchingGroupMatchesV2(h, dss, limit, g, RecordOfTx(tx));
    }
  }

  /** Whenever V1 uses the dictionary, so does V2. */
  lemma V2IsUsedToo(h: Hashing, dss: seq<Datasource>, limit: int)
    requires V1Query(h, dss, limit) != []
    ensures QueryV2(h, dss, limit) != EMPTY_V2
  {
    V1UsableMeansV2NeverStops(h, dss, limit);
    var gs := GroupedDataSources(dss);
    var rs, cs := GroupResults(h, gs, limit), GroupsConditions(h, gs, limit);
    var e := V1Query(h, dss, limit)[0];
    UniqByInventsNothing(EntriesOf(rs, |rs|), EntryKey, e);
    var i := EntryHasGroup(rs, |rs|, e);
    ResultAt(h, gs, limit, i);
    EntryHasConditions(h, gs[i], limit);
    ConditionsAt(h, gs, limit, i);
    if cs[i].OfLog? {
      LogConditionsKept(cs, |cs|, i);
    } else {
      TxConditionsKept(cs, |cs|, i);
    }
  }

  /** Main result: a used V2 query alone misses no wanted log, provided it drops no event group. */
  lemma V2CoversLogs(h: Hashing, dss: seq<Datasource>, limit: int, log: Log)
    requires WellFormedLog(log) && LogWanted(h, dss, log) && UsableV2(h, dss, limit)
    requires forall g :: g in GroupedDataSources(dss) && g.handler.EventHandler? ==>
      FaithfulGroupV2(h, g, limit) && !Dropped(g)
    ensures V2Matches(QueryV2(h, dss, limit), RecordOfLog(log))
  {
    var g, a := WantedLogHasGroup(h, dss, log);
    assert FaithfulGroupV2(h, g, limit) && !Dropped(g);
    AcceptedLogHasAddress(h, g.handler, a, log);
    TopicsVerdictMeans(h, log, FilterTopics(g.handler.logFilter), 0);
    FaithfulTopicsMissNothingV2(h, FilterTopics(g.handler.logFilter), log);
    EventConditionsMean(h, g.handler.logFilter, g.addresses, limit, log);
    KeptConditions(h, dss, limit, g);
    MatchingGroupMatchesV2(h, dss, limit, g, RecordOfLog(log));
  }

  /** Main result: the same for transactions and call groups. */
  lemma V2CoversTransactions(h: Hashing, dss: seq<Datasource>, limit: int, tx: Transaction)
    requires ProperHashing(h) && WellFormedTx(tx) && TxWanted(h, dss, tx) && UsableV2(h, dss, limit)
    requires forall g :: g in GroupedDataSources(dss) && g.handler.CallHandler? ==>
      FaithfulGroupV2(h, g, limit) && !Dropped(g)
    ensures V2Matches(QueryV2(h, dss, limit), RecordOfTx(tx))
  {
    var g, a := WantedTxHasGroup(h, dss, tx);
    assert FaithfulGroupV2(h, g, limit) && !Dropped(g);
    CallCoverageIsExactV2(h, g.handler.txFilter, g.addresses, limit, a);
    KeptConditions(h, dss, limit, g);
    MatchingGroupMatchesV2(h, dss, limit, g, RecordOfTx(tx));
  }

  lemma KeptConditions(h: Hashing, dss: seq<Datasource>, limit: int, g: Group)
    requires UsableV2(h, dss, limit) && g in GroupedDataSources(dss)
    requires !g.handler.BlockHandler? && !Dropped(g)
    ensures g.handler.EventHandler? ==>
      ConditionsOf(h, g, limit) == OfLog(EventConditions(h, g.handler.logFilter, g.addresses, limit))
    ensures g.handler.CallHandler? ==>
      ConditionsOf(h, g, limit) == OfTx(CallConditions(h, g.handler.txFilter, g.addresses, limit))
  {
  }

  lemma {:induction false} LogHasGroup(cs: seq<GroupConditions>, n: nat, c: LogConditions) returns (i: nat)
    requires n <= |cs| && c in Collected(cs, n).logs
    ensures i < n && cs[i] == OfLog(c)
  {
    if cs[n - 1] == OfLog(c) {
      i := n - 1;
    } else {
      i := LogHasGroup(cs, n - 1, c);
    }
  }

  lemma {:induction false} TxHasGroup(cs: seq<GroupConditions>, n: nat, c: TxConditions) returns (i: nat)
    requires n <= |cs| && c in Collected(cs, n).transactions
    ensures i < n && cs[i] == OfTx(c)
  {
    if cs[n - 1] == OfTx(c) {
      i := n - 1;
    } else {
      i := TxHasGroup(cs, n - 1, c);
    }
  }

  lemma MatchedV2HasGroup(h: Hashing, dss: seq<Datasource>, limit: int, r: Record) returns (g: Group)
    requires UsableV2(h, dss, limit) && V2Matches(QueryV2(h, dss, limit), r)
    ensures g in GroupedDataSources(dss) && ConditionsMatch(h, g, limit, r)
  {
    var gs, q := GroupedDataSources(dss), QueryV2(h, dss, limit);
    var cs := GroupsConditions(h, gs, limit);
    if q.logs.Some? && exists i :: 0 <= i < |q.logs.value| && LogConditionsMatch(q.logs.value[i], r) {
      var k :| 0 <= k < |q.logs.value| && LogConditionsMatch(q.logs.value[k], r);
      assert q.logs.value[k] in Collected(cs, |cs|).logs;
      var i := LogHasGroup(cs, |cs|, q.logs.value[k]);
      ConditionsAt(h, gs, limit, i);
      g := gs[i];
    } else {
      var k :| 0 <= k < |q.transactions.value| && TxConditionsMatch(q.transactions.value[k], r);
      assert q.transactions.value[k] in Collected(cs, |cs|).transactions;
      var i := TxHasGroup(cs, |cs|, q.transactions.value[k]);
      ConditionsAt(h, gs, limit, i);
      g := gs[i];
    }
  }

  /** A V2 query that runs through all groups selects a record iff the conditions of some group do. */
  lemma V2MatchesIffGroupDoes(h: Hashing, dss: seq<Datasource>, limit: int, r: Record)
    requires UsableV2(h, dss, limit)
    ensures V2Matches(QueryV2(h, dss, limit), r)
       <==> exists g :: g in GroupedDataSources(dss) && ConditionsMatch(h, g, limit, r)
  {
    if V2Matches(QueryV2(h, dss, limit), r) {
      var g := MatchedV2HasGroup(h, dss, limit, r);
    }
    if g :| g in GroupedDataSources(dss) && ConditionsMatch(h, g, limit, r) {
      MatchingGroupMatchesV2(h, dss, limit, g, r);
    }
  }

  // ---------- results about manifests ----------

  /** Main result, about manifests only: with regular event handlers no wanted log is missed, by V1
      when it uses the dictionary, and then by V2 as well. */
  lemma {:induction false} RegularEventsAreCovered(h: Hashing, dss: seq<Datasource>, limit: int, log: Log)
    requires WellFormedLog(log) && RegularEvents(h, dss)
    ensures V1Query(h, dss, limit) != [] && LogWanted(h, dss, log) ==>
      QueryMatches(V1Query(h, dss, limit), RecordOfLog(log)) && V2Matches(QueryV2(h, dss, limit), RecordOfLog(log))
  {
    forall g | g in GroupedDataSources(dss) && g.handler.EventHandler?
      ensures FaithfulGroup(h, g, limit)
    {
      RegularManifest(h, dss, limit, g);
    }
    if V1Query(h, dss, limit) != [] && LogWanted(h, dss, log) {
      V1CoversLogs(h, dss, limit, log);
      V2IsNeverNarrowerForLogs(h, dss, limit, log);
    }
  }

  /** Main result: the same for regular call handlers and transactions. */
  lemma RegularCallsAreCovered(h: Hashing, dss: seq<Datasource>, limit: int, tx: Transaction)
    requires ProperHashing(h) && WellFormedTx(tx) && RegularCalls(h, dss)
    ensures V1Query(h, dss, limit) != [] && TxWanted(h, dss, tx) ==>
      QueryMatches(V1Query(h, dss, limit), RecordOfTx(tx)) && V2Matches(QueryV2(h, dss, limit), RecordOfTx(tx))
  {
    forall g | g in GroupedDataSources(dss) && g.handler.CallHandler?
      ensures FaithfulGroup(h, g, limit) && WiderGroup(h, g, limit)
    {
      RegularManifest(h, dss, limit, g);
    }
    if V1Query(h, dss, limit) != [] && TxWanted(h, dss, tx) {
      V1CoversTransactions(h, dss, limit, tx);
      V2IsNeverNarrowerForTransactions(h, dss, limit, tx);
    }
  }

  /** A block handler without `modulo` wants every block, and no query is used. */
  lemma BlockHandlerDisablesQueries(h: Hashing, dss: seq<Datasource>, limit: int, ds: Datasource, hd: Handler)
    requires ds in dss && hd in ds.handlers && hd.BlockHandler?
    requires hd.blockFilter.None? || hd.blockFilter.value.modulo.None?
    ensures V1Query(h, dss, limit) == [] && QueryV2(h, dss, limit) == EMPTY_V2
  {
    PairsAreHandlers(dss, Pair(ds.address, hd));
    var g := PairHasGroup(dss, Pair(ds.address, hd));
    var gs := GroupedDataSources(dss);
    var i :| 0 <= i < |gs| && gs[i] == g;
    ResultAt(h, gs, limit, i);
    assert GroupResults(h, gs, limit)[i].Unusable?;
    ConditionsAt(h, gs, limit, i);
    assert GroupsConditions(h, gs, limit)[i].Stop?;
  }
}
