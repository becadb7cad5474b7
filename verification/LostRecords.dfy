/** Exactly when a project loses records that some handler wants: groups can make up for each other, so
    the question is about all groups together. */
module LostRecords {
  import opened Collections
  import opened Strings
  import opened FreshValues
  import opened Datasources
  import opened BlockFilters
  import opened Dictionary
  import opened DictionaryV1
  import opened DictionaryV2
  import opened CoverageV1
  import opened CoverageV2
  import opened ProjectCoverage
  import opened DroppedHandlers

  // ---------- the log that is hardest to select ----------

  /** The handler accepts some log under `a`. */
  predicate HopefulEvent(h: Hashing, g: Group, a: Field) {
    && g.handler.EventHandler? && a in g.addresses
    && !HopelessAddress(a) && !Hopeless(h, FilterTopics(g.handler.logFilter))
  }

  /** One more than the position of the last topic tested among the first n. */
  function LastTested(ts: seq<Field>, n: nat): (m: nat)
    requires n <= |ts|
    ensures m <= n && (forall i :: m <= i < n ==> !Truthy(ts[i])) && (m > 0 ==> Truthy(ts[m - 1]))
  {
    if n == 0 || Truthy(ts[n - 1]) then n else LastTested(ts, n - 1)
  }

  /** The topics that a log must have for the filter to accept it. */
  function NeededTopics(ts: seq<Field>): (n: nat)
    ensures n <= |ts|
  {
    var stop := FirstNotNull(ts, 0);
    if stop < |ts| then stop + 1 else LastTested(ts, |ts|)
  }

  predicate Tested(ts: seq<Field>, i: nat) {
    i < FirstNotNull(ts, 0) && Truthy(ts[i])
  }

  /** The log with no more topics than needed, `address` and `topic` standing where the filter tests none. */
  function HardestLog(h: Hashing, ts: seq<Field>, a: Field, address: string, topic: string): (log: Log)
    requires |ts| <= MAX_TOPICS && !HopelessAddress(a) && IsAddress(address) && IsCanonicalTopic(topic)
    ensures WellFormedLog(log)
  {
    Log(if Truthy(a) then AddressFor(a) else address,
        seq(NeededTopics(ts), i requires 0 <= i < NeededTopics(ts) =>
          if Tested(ts, i) then WitnessTopic(h, ts[i]) else topic))
  }

  lemma HardestLogIsAccepted(h: Hashing, g: Group, a: Field, address: string, topic: string)
    requires ProperHashing(h) && HopefulEvent(h, g, a) && IsAddress(address) && IsCanonicalTopic(topic)
    ensures HandlerAcceptsLog(h, g.handler, a, HardestLog(h, FilterTopics(g.handler.logFilter), a, address, topic))
  {
    var ts := FilterTopics(g.handler.logFilter);
    var log := HardestLog(h, ts, a, address, topic);
    forall i | 0 <= i < FirstNotNull(ts, 0) && Truthy(ts[i])
      ensures TopicEquals(h, log, ts[i], i)
    {
      TopicIsHex(h, ts[i]);
      CanonicaliseDenotesTheSame(EventToTopic(h, ts[i].s));
    }
    assert TopicsAccepted(h, log, ts, 0);
    TopicsVerdictMeans(h, log, ts, 0);
    if Truthy(a) {
      AddressForEquals(a);
    }
  }

  /** Accepted logs have the topics needed, and there the values tested. */
  lemma AcceptedTopics(h: Hashing, ts: seq<Field>, log: Log)
    requires WellFormedLog(log) && TopicsAccepted(h, log, ts, 0)
    ensures |log.topics| >= NeededTopics(ts)
    ensures forall i :: 0 <= i < |ts| && Tested(ts, i) ==> i < |log.topics| && log.topics[i] == WitnessTopic(h, ts[i])
  {
    var stop := FirstNotNull(ts, 0);
    if stop == |ts| && NeededTopics(ts) > 0 {
      assert TopicEquals(h, log, ts[NeededTopics(ts) - 1], NeededTopics(ts) - 1);
    }
    forall i | 0 <= i < |ts| && Tested(ts, i)
      ensures i < |log.topics| && log.topics[i] == WitnessTopic(h, ts[i])
    {
      assert TopicEquals(h, log, ts[i], i);
      OnlyCanonicalEquals(EventToTopic(h, ts[i].s), log.topics[i]);
    }
  }

  lemma OnlyCanonicalEquals(t: string, topic: string)
    requires IsCanonicalTopic(topic) && HexStringEq(t, topic) == Ok(true)
    ensures !ExceedsTopic(t) && topic == Canonicalise(t)
  {
    if ExceedsTopic(t) {
      OversizedNeverEqual(t, topic);
    }
    var c := Canonicalise(t);
    CanonicaliseDenotesTheSame(t);
    CanonicalIsHex(c);
    HexStringEqIsNumericEquality(t, topic);
    HexStringEqIsNumericEquality(t, c);
    HexStringEqIsNumericEquality(c, topic);
    CanonicalTopicsCompareAsStrings(c, topic);
  }

  // ---------- logs ----------

  /** The merged addresses allow every record to `a`. */
  predicate AddressesCover(addresses: seq<Field>, limit: int, a: Field) {
    Narrowing(addresses, limit) ==> Truthy(a) && Listed(addresses, a.s)
  }

  /** The filter `ts` accepts only logs with this topic. */
  predicate Fixes(h: Hashing, ts: seq<Field>, i: nat, topic: string) {
    i < |ts| && Tested(ts, i) && WitnessTopic(h, ts[i]) == topic
  }

  /** The V1 entry of `g'` selects every log that `g` accepts under `a`. */
  predicate CoversLogs(h: Hashing, g: Group, a: Field, g': Group, limit: int) {
    && g'.handler.EventHandler? && AddressesCover(g'.addresses, limit, a)
    && g.handler.EventHandler?
    && var ts, us := FilterTopics(g.handler.logFilter), FilterTopics(g'.handler.logFilter);
       forall i :: 0 <= i < |us| && Truthy(us[i]) ==>
         i < NeededTopics(ts) && (IsNotNull(us[i]) || Fixes(h, ts, i, EventToTopic(h, us[i].s)))
  }

  /** The V2 conditions of `g'` do; they do not test `!null`. */
  predicate CoversLogsV2(h: Hashing, g: Group, a: Field, g': Group, limit: int) {
    && KeptEvent(g') && AddressesCover(g'.addresses, limit, a)
    && g.handler.EventHandler?
    && var ts, us := FilterTopics(g.handler.logFilter), FilterTopics(g'.handler.logFilter);
       forall i :: 0 <= i < |us| && Truthy(us[i]) && !IsNotNull(us[i]) ==> Fixes(h, ts, i, EventToTopic(h, us[i].s))
  }

  lemma AddressesCoverExactly(addresses: seq<Field>, limit: int, a: Field, address: string)
    requires Truthy(a) ==> StringNormalizedEq(a.s, Some(address))
    requires !Truthy(a) ==> forall i :: 0 <= i < |addresses| ==> TextOf(addresses[i]) != ToLower(address)
    ensures AddressesCover(addresses, limit, a) <==> AddressAllowed(addresses, limit, Some(address))
  {
  }

  lemma CoveringSelectsLogs(h: Hashing, g: Group, a: Field, g': Group, limit: int, log: Log)
    requires WellFormedLog(log) && HandlerAcceptsLog(h, g.handler, a, log) && CoversLogs(h, g, a, g', limit)
    ensures EntryMatches(EventEntry(h, g'.handler.logFilter, g'.addresses, limit), RecordOfLog(log))
  {
    TopicsVerdictMeans(h, log, FilterTopics(g.handler.logFilter), 0);
    AcceptedTopics(h, FilterTopics(g.handler.logFilter), log);
    EventEntryMeans(h, g'.handler.logFilter, g'.addresses, limit, log);
  }

  lemma CoveringSelectsLogsV2(h: Hashing, g: Group, a: Field, g': Group, limit: int, log: Log)
    requires WellFormedLog(log) && HandlerAcceptsLog(h, g.handler, a, log) && CoversLogsV2(h, g, a, g', limit)
    ensures LogConditionsMatch(EventConditions(h, g'.handler.logFilter, g'.addresses, limit), RecordOfLog(log))
  {
    TopicsVerdictMeans(h, log, FilterTopics(g.handler.logFilter), 0);
    AcceptedTopics(h, FilterTopics(g.handler.logFilter), log);
    EventConditionsMean(h, g'.handler.logFilter, g'.addresses, limit, log);
  }

  /** What selects the hardest log selects every log that the handler accepts. */
  lemma SelectingHardestCovers(h: Hashing, g: Group, a: Field, g': Group, limit: int,
                               address: string, topic: string)
    requires HopefulEvent(h, g, a) && g'.handler.EventHandler?
    requires IsAddress(address) && ToLower(address) == address && Untested(g', address)
    requires IsCanonicalTopic(topic) && forall i :: 0 <= i < MAX_TOPICS ==> TopicAt(h, g'.handler, i) != topic
    ensures var log := HardestLog(h, FilterTopics(g.handler.logFilter), a, address, topic);
      var entry := EventEntry(h, g'.handler.logFilter, g'.addresses, limit);
      var conditions := EventConditions(h, g'.handler.logFilter, g'.addresses, limit);
      && (EntryMatches(entry, RecordOfLog(log)) ==> CoversLogs(h, g, a, g', limit))
      && (KeptEvent(g') && LogConditionsMatch(conditions, RecordOfLog(log)) ==> CoversLogsV2(h, g, a, g', limit))
  {
    var ts, us := FilterTopics(g.handler.logFilter), FilterTopics(g'.handler.logFilter);
    var log := HardestLog(h, ts, a, address, topic);
    EventEntryMeans(h, g'.handler.logFilter, g'.addresses, limit, log);
    EventConditionsMean(h, g'.handler.logFilter, g'.addresses, limit, log);
    if Truthy(a) {
      AddressForEquals(a);
    }
    assert forall i :: 0 <= i < |g'.addresses| ==> g'.addresses[i] in g'.addresses;
    AddressesCoverExactly(g'.addresses, limit, a, log.address);
    forall i | 0 <= i < |us| && Truthy(us[i]) && !IsNotNull(us[i])
      ensures i < |log.topics| && log.topics[i] == EventToTopic(h, us[i].s) ==>
        Fixes(h, ts, i, EventToTopic(h, us[i].s))
    {
      assert TopicAt(h, g'.handler, i) == EventToTopic(h, us[i].s);
    }
    if TopicsSelected(h, us, log) {
      assert forall i :: 0 <= i < |us| ==> TopicSelected(h, us[i], i, log);
    }
  }

  /** V1 uses the dictionary and misses a wanted log. */
  ghost predicate V1MissesLogs(h: Hashing, dss: seq<Datasource>, limit: int) {
    && V1Query(h, dss, limit) != []
    && exists log ::
         WellFormedLog(log) && LogWanted(h, dss, log) && !QueryMatches(V1Query(h, dss, limit), RecordOfLog(log))
  }

  /** V1 stops at no group. */
  predicate V1RunsThrough(dss: seq<Datasource>) {
    forall g :: g in GroupedDataSources(dss) ==> !Stops(g) && !Dropped(g)
  }

  lemma UsableV1Exactly(h: Hashing, dss: seq<Datasource>, limit: int)
    ensures UsableV1(h, dss, limit) <==> V1RunsThrough(dss)
  {
    var gs := GroupedDataSources(dss);
    GroupsAreDistinct(dss);
    forall i | 0 <= i < |gs|
      ensures GroupResults(h, gs, limit)[i].Unusable? <==> Stops(gs[i]) || Dropped(gs[i])
    {
      assert gs[i] in gs;
      ResultAt(h, gs, limit, i);
      EntryHasConditions(h, gs[i], limit);
      ConditionsByKind(h, gs[i], limit);
    }
  }

  predicate LogsUncovered(h: Hashing, dss: seq<Datasource>, limit: int, g: Group, a: Field) {
    && HopefulEvent(h, g, a)
    && forall g' :: g' in GroupedDataSources(dss) ==> !CoversLogs(h, g, a, g', limit)
  }

  lemma MissedLogIsUncovered(h: Hashing, dss: seq<Datasource>, limit: int, log: Log) returns (g: Group, a: Field)
    requires WellFormedLog(log) && LogWanted(h, dss, log) && UsableV1(h, dss, limit)
    requires !QueryMatches(V1Query(h, dss, limit), RecordOfLog(log))
    ensures g in GroupedDataSources(dss) && LogsUncovered(h, dss, limit, g, a)
  {
    g, a := WantedLogHasGroup(h, dss, log);
    AcceptedMeansHopefulEvent(h, g, a, log);
    forall g' | g' in GroupedDataSources(dss)
      ensures !CoversLogs(h, g, a, g', limit)
    {
      if CoversLogs(h, g, a, g', limit) {
        CoveringSelectsLogs(h, g, a, g', limit, log);
        GroupLogIsSelected(h, dss, limit, g', log);
      }
    }
  }

  lemma AcceptedMeansHopefulEvent(h: Hashing, g: Group, a: Field, log: Log)
    requires WellFormedLog(log) && a in g.addresses && HandlerAcceptsLog(h, g.handler, a, log)
    ensures HopefulEvent(h, g, a)
  {
    var ts := FilterTopics(g.handler.logFilter);
    AcceptedLogHasAddress(h, g.handler, a, log);
    TopicsVerdictMeans(h, log, ts, 0);
    forall i | 0 <= i < |ts| && Tested(ts, i)
      ensures !(IsHexString(EventToTopic(h, ts[i].s)) && ExceedsTopic(EventToTopic(h, ts[i].s)))
    {
      assert TopicEquals(h, log, ts[i], i);
      OnlyCanonicalEquals(EventToTopic(h, ts[i].s), log.topics[i]);
    }
  }

  lemma UncoveredLosesALog(h: Hashing, dss: seq<Datasource>, limit: int, g: Group, a: Field)
    requires ProperHashing(h) && FitsArray(dss) && UsableV1(h, dss, limit)
    requires g in GroupedDataSources(dss) && LogsUncovered(h, dss, limit, g, a)
    ensures V1MissesLogs(h, dss, limit)
  {
    var ts := FilterTopics(g.handler.logFilter);
    var address := FreshAddress(dss);
    var topic := FreshTopic(h, dss);
    var log := HardestLog(h, ts, a, address, topic);
    HardestLogIsAccepted(h, g, a, address, topic);
    GroupAcceptanceIsWanted(h, dss, g, a);
    UsableIsUsed(h, dss, limit, g);
    if QueryMatches(V1Query(h, dss, limit), RecordOfLog(log)) {
      var g' := MatchedQueryHasGroup(h, dss, limit, RecordOfLog(log));
      UsableGroupHasEntry(h, dss, limit, g');
      SelectingHardestCovers(h, g, a, g', limit, address, topic);
      assert false;
    }
  }

  lemma UsableIsUsed(h: Hashing, dss: seq<Datasource>, limit: int, g: Group)
    requires UsableV1(h, dss, limit) && g in GroupedDataSources(dss) && !g.handler.BlockHandler?
    ensures V1Query(h, dss, limit) != []
  {
    var gs := GroupedDataSources(dss);
    var rs := GroupResults(h, gs, limit);
    UsableGroupHasEntry(h, dss, limit, g);
    var i :| 0 <= i < |gs| && gs[i] == g;
    ResultAt(h, gs, limit, i);
    EntryIsKept(rs, |rs|, i);
    var kept := UniqByKeepsKey(EntriesOf(rs, |rs|), EntryKey, rs[i].entry);
  }

  /** Main result: a project loses logs under V1 if and only if V1 stops at no group and some handler, under
      some address, accepts logs that no group's entry covers. */
  lemma V1LosesLogsExactly(h: Hashing, dss: seq<Datasource>, limit: int)
    requires ProperHashing(h) && FitsArray(dss)
    ensures V1MissesLogs(h, dss, limit)
       <==> V1RunsThrough(dss) && exists g, a :: g in GroupedDataSources(dss) && LogsUncovered(h, dss, limit, g, a)
  {
    UsableV1Exactly(h, dss, limit);
    if V1MissesLogs(h, dss, limit) {
      var log :| WellFormedLog(log) && LogWanted(h, dss, log)
        && !QueryMatches(V1Query(h, dss, limit), RecordOfLog(log));
      var g, a := MissedLogIsUncovered(h, dss, limit, log);
    }
    if V1RunsThrough(dss) {
      if g, a :| g in GroupedDataSources(dss) && LogsUncovered(h, dss, limit, g, a) {
        UncoveredLosesALog(h, dss, limit, g, a);
      }
    }
  }

  predicate LogsUncoveredV2(h: Hashing, dss: seq<Datasource>, limit: int, g: Group, a: Field) {
    && HopefulEvent(h, g, a)
    && forall g' :: g' in GroupedDataSources(dss) ==> !CoversLogsV2(h, g, a, g', limit)
  }

  lemma MissedLogIsUncoveredV2(h: Hashing, dss: seq<Datasource>, limit: int, log: Log)
    returns (g: Group, a: Field)
    requires WellFormedLog(log) && LogWanted(h, dss, log) && UsableV2(h, dss, limit)
    requires !V2Matches(QueryV2(h, dss, limit), RecordOfLog(log))
    ensures g in GroupedDataSources(dss) && LogsUncoveredV2(h, dss, limit, g, a)
  {
    g, a := WantedLogHasGroup(h, dss, log);
    AcceptedMeansHopefulEvent(h, g, a, log);
    forall g' | g' in GroupedDataSources(dss)
      ensures !CoversLogsV2(h, g, a, g', limit)
    {
      if CoversLogsV2(h, g, a, g', limit) {
        CoveringSelectsLogsV2(h, g, a, g', limit, log);
        KeptConditions(h, dss, limit, g');
        MatchingGroupMatchesV2(h, dss, limit, g', RecordOfLog(log));
      }
    }
  }

  lemma UncoveredLosesALogV2(h: Hashing, dss: seq<Datasource>, limit: int, g: Group, a: Field)
    requires ProperHashing(h) && FitsArray(dss) && QueryV2(h, dss, limit) != EMPTY_V2
    requires g in GroupedDataSources(dss) && LogsUncoveredV2(h, dss, limit, g, a)
    ensures MissesLogs(h, dss, limit)
  {
    var ts := FilterTopics(g.handler.logFilter);
    var address := FreshAddress(dss);
    var topic := FreshTopic(h, dss);
    var log := HardestLog(h, ts, a, address, topic);
    HardestLogIsAccepted(h, g, a, address, topic);
    GroupAcceptanceIsWanted(h, dss, g, a);
    if V2Matches(QueryV2(h, dss, limit), RecordOfLog(log)) {
      var g' := MatchedV2HasGroup(h, dss, limit, RecordOfLog(log));
      GroupsAreDistinct(dss);
      ConditionsByKind(h, g', limit);
      SelectingHardestCovers(h, g, a, g', limit, address, topic);
      assert false;
    }
  }

  /** Main result: the same for V2, whatever the handlers, dropped or not. */
  lemma V2LosesLogsExactly(h: Hashing, dss: seq<Datasource>, limit: int)
    requires ProperHashing(h) && FitsArray(dss)
    ensures MissesLogs(h, dss, limit)
       <==> KeepsOn(dss) && exists g, a :: g in GroupedDataSources(dss) && LogsUncoveredV2(h, dss, limit, g, a)
  {
    V2IsUsedExactly(h, dss, limit);
    UsableV2Exactly(h, dss, limit);
    if MissesLogs(h, dss, limit) {
      var log :| WellFormedLog(log) && LogWanted(h, dss, log) && !V2Matches(QueryV2(h, dss, limit), RecordOfLog(log));
      var g, a := MissedLogIsUncoveredV2(h, dss, limit, log);
    }
    if KeepsOn(dss) {
      if g, a :| g in GroupedDataSources(dss) && LogsUncoveredV2(h, dss, limit, g, a) {
        UncoveredLosesALogV2(h, dss, limit, g, a);
      }
    }
  }

  // ---------- the transaction that is hardest to select ----------

  predicate HopefulCall(h: Hashing, g: Group, a: Field) {
    && g.handler.CallHandler? && a in g.addresses
    && (g.handler.txFilter.Some? ==> !HopelessCall(h, g.handler.txFilter.value, a))
  }

  /** The only recipient that the handler accepts under `a`, if it tests for one. */
  function RecipientOf(hd: Handler, a: Field): Field {
    if hd.CallHandler? && hd.txFilter.Some? && hd.txFilter.value.to.Undefined? && Truthy(a) then a else ToOf(hd)
  }

  /** The input passes the filter's test of the function. */
  predicate PassesFunction(h: Hashing, filter: Option<TxFilter>, input: string) {
    && IsLowerHex(input)
    && (filter.Some? ==>
          var f := filter.value;
          if TestsSelector(f) then IsPrefixOf(FunctionToSighash(h, f.func.s), input)
          else f.func.Undefined? || input == "0x")
  }

  /** `address` stands where the filter tests no sender or recipient. */
  function HardestTx(h: Hashing, g: Group, a: Field, address: string, input: string): (tx: Transaction)
    requires HopefulCall(h, g, a) && IsAddress(address) && IsLowerHex(input)
    ensures WellFormedTx(tx)
  {
    var from, to := FromOf(g.handler), RecipientOf(g.handler, a);
    Transaction(
      Some(if Truthy(from) then AddressFor(from) else address),
      if to.Null? then None else Some(if Truthy(to) then AddressFor(to) else address),
      input)
  }

  lemma HardestTxIsAccepted(h: Hashing, g: Group, a: Field, address: string, input: string)
    requires HopefulCall(h, g, a) && IsAddress(address) && PassesFunction(h, g.handler.txFilter, input)
    ensures HandlerAcceptsTx(h, g.handler, a, HardestTx(h, g, a, address, input))
  {
  }

  lemma AcceptedMeansHopefulCall(h: Hashing, g: Group, a: Field, tx: Transaction)
    requires ProperHashing(h) && WellFormedTx(tx) && a in g.addresses && HandlerAcceptsTx(h, g.handler, a, tx)
    ensures HopefulCall(h, g, a) && PassesFunction(h, g.handler.txFilter, tx.input)
  {
  }

  // ---------- transactions ----------

  predicate SenderCovers(from: Field, from': Field) {
    Truthy(from') ==> Truthy(from) && ToLower(from.s) == ToLower(from'.s)
  }

  /** A test of `to'` passes whenever the recipient is `to`; V2 tests an empty string too. */
  predicate RecipientCovers(to: Field, to': Field) {
    && (Truthy(to') ==> Truthy(to) && ToLower(to.s) == ToLower(to'.s))
    && (to'.Null? ==> to.Null?)
  }

  /** The V1 entry of `g'` selects every transaction with this input that `g` accepts under `a`. */
  predicate CoversCalls(h: Hashing, g: Group, a: Field, g': Group, limit: int, input: string) {
    && g'.handler.CallHandler? && AddressesCover(g'.addresses, limit, RecipientOf(g.handler, a))
    && (g'.handler.txFilter.Some? ==>
          var f' := g'.handler.txFilter.value;
          && SenderCovers(FromOf(g.handler), f'.from)
          && (!Narrowing(g'.addresses, limit) ==> RecipientCovers(RecipientOf(g.handler, a), f'.to))
          && FunctionSelected(h, f', Transaction(None, None, input)))
  }

  /** The input that every accepted input starts with. */
  function LeastInput(h: Hashing, filter: Option<TxFilter>): string {
    if filter.Some? then SuitedInput(h, filter.value) else "0x"
  }

  /** The V2 conditions of `g'` select every transaction that `g` accepts under `a`. */
  predicate CoversCallsV2(h: Hashing, g: Group, a: Field, g': Group, limit: int) {
    && KeptCall(g') && AddressesCover(g'.addresses, limit, RecipientOf(g.handler, a))
    && g.handler.CallHandler?
    && (g'.handler.txFilter.Some? ==>
          var f' := g'.handler.txFilter.value;
          && SenderCovers(FromOf(g.handler), f'.from)
          && (!Narrowing(g'.addresses, limit) ==> f'.to != Str("") && RecipientCovers(RecipientOf(g.handler, a), f'.to))
          && FunctionSelectedV2(h, f', Transaction(None, None, LeastInput(h, g.handler.txFilter))))
  }

  lemma LeastInputIsPrefix(h: Hashing, filter: Option<TxFilter>, input: string, part: string)
    requires PassesFunction(h, filter, input) && IsPrefixOf(part, LeastInput(h, filter))
    ensures IsPrefixOf(part, input)
  {
  }

  lemma AcceptedParties(h: Hashing, g: Group, a: Field, tx: Transaction)
    requires HandlerAcceptsTx(h, g.handler, a, tx)
    ensures var from, to := FromOf(g.handler), RecipientOf(g.handler, a);
      && (Truthy(from) ==> StringNormalizedEq(from.s, tx.from))
      && (Truthy(to) && g.handler.txFilter.Some? ==> StringNormalizedEq(to.s, tx.to))
      && (to.Null? ==> tx.to.None?)
  {
  }

  lemma CoveringSelectsCalls(h: Hashing, g: Group, a: Field, g': Group, limit: int, tx: Transaction)
    requires HandlerAcceptsTx(h, g.handler, a, tx) && CoversCalls(h, g, a, g', limit, tx.input)
    ensures EntryMatches(CallEntry(h, g'.handler.txFilter, g'.addresses, limit), RecordOfTx(tx))
  {
    AcceptedParties(h, g, a, tx);
    CallEntryMeans(h, g'.handler.txFilter, g'.addresses, limit, tx);
    assert CallSelected(h, g'.handler.txFilter, g'.addresses, limit, tx);
  }

  lemma CoveringSelectsCallsV2(h: Hashing, g: Group, a: Field, g': Group, limit: int, tx: Transaction)
    requires ProperHashing(h) && WellFormedTx(tx) && a in g.addresses && HandlerAcceptsTx(h, g.handler, a, tx)
    requires CoversCallsV2(h, g, a, g', limit)
    ensures TxConditionsMatch(CallConditions(h, g'.handler.txFilter, g'.addresses, limit), RecordOfTx(tx))
  {
    AcceptedMeansHopefulCall(h, g, a, tx);
    AcceptedParties(h, g, a, tx);
    if g'.handler.txFilter.Some? && Truthy(g'.handler.txFilter.value.func) {
      var part := FunctionToSighash(h, g'.handler.txFilter.value.func.s);
      LeastInputIsPrefix(h, g.handler.txFilter, tx.input, part);
    }
    CallConditionsMean(h, g'.handler.txFilter, g'.addresses, limit, tx);
    assert CallSelectedV2(h, g'.handler.txFilter, g'.addresses, limit, tx);
  }

  lemma SelectingHardestCoversCalls(h: Hashing, g: Group, a: Field, g': Group, limit: int,
                                    address: string, input: string)
    requires HopefulCall(h, g, a) && g'.handler.CallHandler? && IsLowerHex(input)
    requires IsAddress(address) && ToLower(address) == address && Untested(g', address)
    ensures var tx := HardestTx(h, g, a, address, input);
      var entry := CallEntry(h, g'.handler.txFilter, g'.addresses, limit);
      var conditions := CallConditions(h, g'.handler.txFilter, g'.addresses, limit);
      && (EntryMatches(entry, RecordOfTx(tx)) ==> CoversCalls(h, g, a, g', limit, input))
      && (KeptCall(g') && input == LeastInput(h, g.handler.txFilter)
          && TxConditionsMatch(conditions, RecordOfTx(tx)) ==>
            CoversCallsV2(h, g, a, g', limit))
  {
    var tx := HardestTx(h, g, a, address, input);
    var from, to := FromOf(g.handler), RecipientOf(g.handler, a);
    CallEntryMeans(h, g'.handler.txFilter, g'.addresses, limit, tx);
    CallConditionsMean(h, g'.handler.txFilter, g'.addresses, limit, tx);
    if Truthy(from) {
      AddressForEquals(from);
    }
    if Truthy(to) {
      AddressForEquals(to);
    }
    assert forall i :: 0 <= i < |g'.addresses| ==> g'.addresses[i] in g'.addresses;
    if tx.to.Some? {
      AddressesCoverExactly(g'.addresses, limit, to, tx.to.value);
    }
  }

  ghost predicate V1MissesTransactions(h: Hashing, dss: seq<Datasource>, limit: int) {
    && V1Query(h, dss, limit) != []
    && exists tx :: WellFormedTx(tx) && TxWanted(h, dss, tx) && !QueryMatches(V1Query(h, dss, limit), RecordOfTx(tx))
  }

  /** With this input, the group accepts transactions under `a` that no group's entry covers. Inputs longer
      than a selector add nothing, so only short ones are looked at, and the tested selector itself. */
  predicate CallsUncovered(h: Hashing, dss: seq<Datasource>, limit: int, g: Group, a: Field, input: string) {
    && HopefulCall(h, g, a) && PassesFunction(h, g.handler.txFilter, input)
    && (|input| <= SIGHASH_LENGTH || input == LeastInput(h, g.handler.txFilter))
    && forall g' :: g' in GroupedDataSources(dss) ==> !CoversCalls(h, g, a, g', limit, input)
  }

  /** The shortest input that passes the filter's test and has the same selector. */
  function ShortInput(h: Hashing, filter: Option<TxFilter>, input: string): (short: string)
    requires ProperHashing(h) && PassesFunction(h, filter, input)
    ensures |short| <= SIGHASH_LENGTH || short == LeastInput(h, filter)
  {
    if |LeastInput(h, filter)| >= SIGHASH_LENGTH then LeastInput(h, filter)
    else input[..Min(|input|, SIGHASH_LENGTH)]
  }

  lemma ShortInputSuffices(h: Hashing, filter: Option<TxFilter>, input: string)
    requires ProperHashing(h) && PassesFunction(h, filter, input)
    ensures PassesFunction(h, filter, ShortInput(h, filter, input))
    ensures Selector(ShortInput(h, filter, input)) == Selector(input)
    ensures ShortInput(h, filter, input) == "0x" <==> input == "0x"
  {
    var short, least := ShortInput(h, filter, input), LeastInput(h, filter);
    assert IsPrefixOf(least, input);
    assert short == input[..|short|];
    if |least| >= SIGHASH_LENGTH {
      assert least[..SIGHASH_LENGTH] == input[..|least|][..SIGHASH_LENGTH] == input[..SIGHASH_LENGTH];
    } else {
      assert short[..|short|] == short == input[..Min(|input|, SIGHASH_LENGTH)];
    }
    assert |short| >= 2 && short[..2] == input[..2];
    forall i | 0 <= i < |short[2..]|
      ensures IsHexDigit(short[2..][i]) && LowerChar(short[2..][i]) == short[2..][i]
    {
      assert short[2..][i] == input[2..][i];
    }
  }

  lemma SameSelectorSameCover(h: Hashing, g: Group, a: Field, g': Group, limit: int, x: string, y: string)
    requires Selector(x) == Selector(y) && (x == "0x" <==> y == "0x")
    ensures CoversCalls(h, g, a, g', limit, x) <==> CoversCalls(h, g, a, g', limit, y)
  {
  }

  lemma MissedTxIsUncovered(h: Hashing, dss: seq<Datasource>, limit: int, tx: Transaction)
    returns (g: Group, a: Field, input: string)
    requires ProperHashing(h) && WellFormedTx(tx) && TxWanted(h, dss, tx) && UsableV1(h, dss, limit)
    requires !QueryMatches(V1Query(h, dss, limit), RecordOfTx(tx))
    ensures g in GroupedDataSources(dss) && CallsUncovered(h, dss, limit, g, a, input)
  {
    g, a := WantedTxHasGroup(h, dss, tx);
    AcceptedMeansHopefulCall(h, g, a, tx);
    input := ShortInput(h, g.handler.txFilter, tx.input);
    ShortInputSuffices(h, g.handler.txFilter, tx.input);
    forall g' | g' in GroupedDataSources(dss)
      ensures !CoversCalls(h, g, a, g', limit, input)
    {
      SameSelectorSameCover(h, g, a, g', limit, input, tx.input);
      if CoversCalls(h, g, a, g', limit, tx.input) {
        CoveringSelectsCalls(h, g, a, g', limit, tx);
        GroupTxIsSelected(h, dss, limit, g', tx);
      }
    }
  }

  lemma UncoveredLosesATx(h: Hashing, dss: seq<Datasource>, limit: int, g: Group, a: Field, input: string)
    requires FitsArray(dss) && UsableV1(h, dss, limit)
    requires g in GroupedDataSources(dss) && CallsUncovered(h, dss, limit, g, a, input)
    ensures V1MissesTransactions(h, dss, limit)
  {
    var address := FreshAddress(dss);
    var tx := HardestTx(h, g, a, address, input);
    HardestTxIsAccepted(h, g, a, address, input);
    GroupAcceptanceIsWanted(h, dss, g, a);
    UsableIsUsed(h, dss, limit, g);
    if QueryMatches(V1Query(h, dss, limit), RecordOfTx(tx)) {
      var g' := MatchedQueryHasGroup(h, dss, limit, RecordOfTx(tx));
      UsableGroupHasEntry(h, dss, limit, g');
      SelectingHardestCoversCalls(h, g, a, g', limit, address, input);
      assert false;
    }
  }

  /** Main result: a project loses transactions under V1 if and only if V1 stops at no group and some handler,
      under some address and for some input, accepts transactions that no group's entry covers. */
  lemma V1LosesTransactionsExactly(h: Hashing, dss: seq<Datasource>, limit: int)
    requires ProperHashing(h) && FitsArray(dss)
    ensures V1MissesTransactions(h, dss, limit)
       <==> && V1RunsThrough(dss)
            && exists g, a, input :: g in GroupedDataSources(dss) && CallsUncovered(h, dss, limit, g, a, input)
  {
    UsableV1Exactly(h, dss, limit);
    if V1MissesTransactions(h, dss, limit) {
      var tx :| WellFormedTx(tx) && TxWanted(h, dss, tx) && !QueryMatches(V1Query(h, dss, limit), RecordOfTx(tx));
      var g, a, input := MissedTxIsUncovered(h, dss, limit, tx);
    }
    if V1RunsThrough(dss) {
      if g, a, input :| g in GroupedDataSources(dss) && CallsUncovered(h, dss, limit, g, a, input) {
        UncoveredLosesATx(h, dss, limit, g, a, input);
      }
    }
  }

  predicate CallsUncoveredV2(h: Hashing, dss: seq<Datasource>, limit: int, g: Group, a: Field) {
    && HopefulCall(h, g, a)
    && forall g' :: g' in GroupedDataSources(dss) ==> !CoversCallsV2(h, g, a, g', limit)
  }

  lemma MissedTxIsUncoveredV2(h: Hashing, dss: seq<Datasource>, limit: int, tx: Transaction)
    returns (g: Group, a: Field)
    requires ProperHashing(h) && WellFormedTx(tx) && TxWanted(h, dss, tx) && UsableV2(h, dss, limit)
    requires !V2Matches(QueryV2(h, dss, limit), RecordOfTx(tx))
    ensures g in GroupedDataSources(dss) && CallsUncoveredV2(h, dss, limit, g, a)
  {
    g, a := WantedTxHasGroup(h, dss, tx);
    AcceptedMeansHopefulCall(h, g, a, tx);
    forall g' | g' in GroupedDataSources(dss)
      ensures !CoversCallsV2(h, g, a, g', limit)
    {
      if CoversCallsV2(h, g, a, g', limit) {
        CoveringSelectsCallsV2(h, g, a, g', limit, tx);
        KeptConditions(h, dss, limit, g');
        MatchingGroupMatchesV2(h, dss, limit, g', RecordOfTx(tx));
      }
    }
  }

  lemma UncoveredLosesATxV2(h: Hashing, dss: seq<Datasource>, limit: int, g: Group, a: Field)
    requires ProperHashing(h) && FitsArray(dss) && QueryV2(h, dss, limit) != EMPTY_V2
    requires g in GroupedDataSources(dss) && CallsUncoveredV2(h, dss, limit, g, a)
    ensures MissesTransactions(h, dss, limit)
  {
    var address := FreshAddress(dss);
    var input := LeastInput(h, g.handler.txFilter);
    LeastInputPasses(h, g, a);
    var tx := HardestTx(h, g, a, address, input);
    HardestTxIsAccepted(h, g, a, address, input);
    GroupAcceptanceIsWanted(h, dss, g, a);
    if V2Matches(QueryV2(h, dss, limit), RecordOfTx(tx)) {
      var g' := MatchedV2HasGroup(h, dss, limit, RecordOfTx(tx));
      GroupsAreDistinct(dss);
      ConditionsByKind(h, g', limit);
      SelectingHardestCoversCalls(h, g, a, g', limit, address, input);
      assert false;
    }
  }

  lemma LeastInputPasses(h: Hashing, g: Group, a: Field)
    requires HopefulCall(h, g, a)
    ensures PassesFunction(h, g.handler.txFilter, LeastInput(h, g.handler.txFilter))
  {
  }

  /** Main result: the same for V2, where one input decides, whatever the handlers, dropped or not. */
  lemma V2LosesTransactionsExactly(h: Hashing, dss: seq<Datasource>, limit: int)
    requires ProperHashing(h) && FitsArray(dss)
    ensures MissesTransactions(h, dss, limit)
       <==> KeepsOn(dss) && exists g, a :: g in GroupedDataSources(dss) && CallsUncoveredV2(h, dss, limit, g, a)
  {
    V2IsUsedExactly(h, dss, limit);
    UsableV2Exactly(h, dss, limit);
    if MissesTransactions(h, dss, limit) {
      var tx :| WellFormedTx(tx) && TxWanted(h, dss, tx) && !V2Matches(QueryV2(h, dss, limit), RecordOfTx(tx));
      var g, a := MissedTxIsUncoveredV2(h, dss, limit, tx);
    }
    if KeepsOn(dss) {
      if g, a :| g in GroupedDataSources(dss) && CallsUncoveredV2(h, dss, limit, g, a) {
        UncoveredLosesATxV2(h, dss, limit, g, a);
      }
    }
  }
}
