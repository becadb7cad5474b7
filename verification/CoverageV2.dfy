/** What a V2 query selects, compared with V1 and with the handlers' own filters. */
module CoverageV2 {
  import opened Collections
  import opened Strings
  import opened Datasources
  import opened BlockFilters
  import opened Dictionary
  import opened DictionaryV1
  import opened DictionaryV2
  import opened CoverageV1

  // ---------- meaning of the conditions ----------

  lemma AddressListMeans(addresses: seq<Field>, limit: int, address: string)
    ensures Allows(ApplyAddresses(addresses, limit), ToLower(address))
       <==> AddressAllowed(addresses, limit, Some(address))
  {
  }

  predicate TopicsSelectedV2(h: Hashing, ts: seq<Field>, log: Log) {
    forall i :: 0 <= i < |ts| && Truthy(ts[i]) && !IsNotNull(ts[i]) ==>
      i < |log.topics| && log.topics[i] == EventToTopic(h, ts[i].s)
  }

  lemma EventConditionsMean(h: Hashing, filter: Option<LogFilter>, addresses: seq<Field>, limit: int, log: Log)
    ensures LogConditionsMatch(EventConditions(h, filter, addresses, limit), RecordOfLog(log))
       <==> AddressAllowed(addresses, limit, Some(log.address)) && TopicsSelectedV2(h, FilterTopics(filter), log)
  {
  }

  predicate ToSelectedV2(f: TxFilter, tx: Transaction) {
    (f.to.Str? ==> StringNormalizedEq(f.to.s, tx.to)) && (f.to.Null? ==> tx.to.None?)
  }

  predicate FunctionSelectedV2(h: Hashing, f: TxFilter, tx: Transaction) {
    Truthy(f.func) ==> IsPrefixOf(FunctionToSighash(h, f.func.s), tx.input)
  }

  predicate CallSelectedV2(h: Hashing, filter: Option<TxFilter>, addresses: seq<Field>, limit: int, tx: Transaction) {
    && AddressAllowed(addresses, limit, tx.to)
    && (filter.Some? ==>
          && FromSelected(filter.value, tx)
          && (!Narrowing(addresses, limit) ==> ToSelectedV2(filter.value, tx))
          && FunctionSelectedV2(h, filter.value, tx))
  }

  lemma ToListMeans(addresses: seq<Field>, limit: int, to: Option<string>)
    requires Narrowing(addresses, limit)
    ensures ApplyAddresses(addresses, limit) != []
    ensures LowerOption(to) in AssignAll(ApplyAddresses(addresses, limit)) <==> AddressAllowed(addresses, limit, to)
  {
    var options := ApplyAddresses(addresses, limit);
    assert forall i :: 0 <= i < |addresses| ==> options[i] == ToLower(addresses[i].s);
    forall i | 0 <= i < |options|
      ensures AssignAll(options)[i] == Some(options[i])
    {
      ToLowerIdempotent(addresses[i].s);
    }
    if to.Some? && Listed(addresses, to.value) {
      var i :| 0 <= i < |addresses| && ToLower(addresses[i].s) == ToLower(to.value);
      assert AssignAll(options)[i] == LowerOption(to);
    }
  }

  lemma CallConditionsMean(h: Hashing, filter: Option<TxFilter>, addresses: seq<Field>, limit: int, tx: Transaction)
    ensures TxConditionsMatch(CallConditions(h, filter, addresses, limit), RecordOfTx(tx))
       <==> CallSelectedV2(h, filter, addresses, limit, tx)
  {
    var c, r := CallConditions(h, filter, addresses, limit), RecordOfTx(tx);
    if Narrowing(addresses, limit) {
      ToListMeans(addresses, limit, tx.to);
    }
    var byTo := c.to.Some? ==> Allows(c.to.value, r.to);
    var toSelected := filter.Some? && !Narrowing(addresses, limit) ==> ToSelectedV2(filter.value, tx);
    assert byTo <==> AddressAllowed(addresses, limit, tx.to) && toSelected;
    var byData := c.data.Some? && c.data.value != [] ==>
      exists i :: 0 <= i < |c.data.value| && IsPrefixOf(c.data.value[i], r.input);
    assert byData <==> (filter.Some? ==> FunctionSelectedV2(h, filter.value, tx)) by {
      if filter.Some? && Truthy(filter.value.func) {
        assert c.data.value[0] == FunctionToSighash(h, filter.value.func.s);
      }
    }
  }

  // ---------- V2 against V1, handler by handler ----------

  lemma EventConditionsAreWider(h: Hashing, filter: Option<LogFilter>, addresses: seq<Field>, limit: int, log: Log)
    requires EntryMatches(EventEntry(h, filter, addresses, limit), RecordOfLog(log))
    ensures LogConditionsMatch(EventConditions(h, filter, addresses, limit), RecordOfLog(log))
  {
    EventEntryMeans(h, filter, addresses, limit, log);
    EventConditionsMean(h, filter, addresses, limit, log);
    var ts := FilterTopics(filter);
    assert forall i :: 0 <= i < |ts| ==> TopicSelected(h, ts[i], i, log);
  }

  /** `to: ''` is no condition in V1 but an unmatchable one in V2; that shows if V1 selects anything. */
  predicate WiderCall(h: Hashing, filter: Option<TxFilter>, addresses: seq<Field>, limit: int) {
    filter.None? || Narrowing(addresses, limit) || filter.value.to != Str("")
    || !SelectsSome(h, filter.value, addresses, limit)
  }

  lemma WiderCallSelectsMore(h: Hashing, filter: Option<TxFilter>, addresses: seq<Field>, limit: int,
                             tx: Transaction)
    requires ProperHashing(h) && WellFormedTx(tx) && WiderCall(h, filter, addresses, limit)
    requires CallSelected(h, filter, addresses, limit, tx)
    ensures CallSelectedV2(h, filter, addresses, limit, tx)
  {
  }

  lemma NarrowerCallMissesATx(h: Hashing, filter: Option<TxFilter>, addresses: seq<Field>, limit: int)
    returns (tx: Transaction)
    requires ProperHashing(h) && !WiderCall(h, filter, addresses, limit)
    ensures WellFormedTx(tx)
    ensures CallSelected(h, filter, addresses, limit, tx) && !CallSelectedV2(h, filter, addresses, limit, tx)
  {
    tx := SelectedTx(h, filter.value, None);
    SelectedTxIsSelected(h, filter.value, None);
  }

  /** Main result: V2 selects every transaction that V1 selects for a handler if and only if
      the handler does not test for an empty `to` that V1 ignores, or V1 selects none. */
  lemma CallConditionsAreWiderExactly(h: Hashing, filter: Option<TxFilter>, addresses: seq<Field>, limit: int)
    requires ProperHashing(h)
    ensures (forall tx :: WellFormedTx(tx) && EntryMatches(CallEntry(h, filter, addresses, limit), RecordOfTx(tx))
                ==> TxConditionsMatch(CallConditions(h, filter, addresses, limit), RecordOfTx(tx)))
       <==> WiderCall(h, filter, addresses, limit)
  {
    if WiderCall(h, filter, addresses, limit) {
      forall tx | WellFormedTx(tx) && EntryMatches(CallEntry(h, filter, addresses, limit), RecordOfTx(tx))
        ensures TxConditionsMatch(CallConditions(h, filter, addresses, limit), RecordOfTx(tx))
      {
        CallEntryMeans(h, filter, addresses, limit, tx);
        CallConditionsMean(h, filter, addresses, limit, tx);
        WiderCallSelectsMore(h, filter, addresses, limit, tx);
      }
    } else {
      var tx := NarrowerCallMissesATx(h, filter, addresses, limit);
      CallEntryMeans(h, filter, addresses, limit, tx);
      CallConditionsMean(h, filter, addresses, limit, tx);
    }
  }

  // ---------- V2 against the filters: exactly when nothing is missed ----------

  predicate FaithfulTopicsV2(h: Hashing, ts: seq<Field>) {
    var stop := FirstNotNull(ts, 0);
    || Hopeless(h, ts)
    || (&& (forall i :: 0 <= i < stop && Truthy(ts[i]) ==> IsCanonicalTopic(EventToTopic(h, ts[i].s)))
        && (forall i :: stop < i < |ts| ==> !Truthy(ts[i]) || IsNotNull(ts[i])))
  }

  lemma FaithfulTopicsMissNothingV2(h: Hashing, ts: seq<Field>, log: Log)
    requires WellFormedLog(log) && FaithfulTopicsV2(h, ts)
    requires TopicsAccepted(h, log, ts, 0)
    ensures TopicsSelectedV2(h, ts, log)
  {
    var stop := FirstNotNull(ts, 0);
    forall i | 0 <= i < stop && Truthy(ts[i])
      ensures log.topics[i] == EventToTopic(h, ts[i].s)
    {
      assert TopicEquals(h, log, ts[i], i);
      var t := EventToTopic(h, ts[i].s);
      HexStringEqIsNumericEquality(t, log.topics[i]);
      if ExceedsTopic(t) {
        OversizedNeverEqual(t, log.topics[i]);
      }
      if IsCanonicalTopic(t) {
        CanonicalTopicsCompareAsStrings(t, log.topics[i]);
      }
    }
  }

  lemma UnfaithfulTopicsMissALogV2(h: Hashing, ts: seq<Field>, address: string) returns (log: Log)
    requires ProperHashing(h) && |ts| <= MAX_TOPICS && !FaithfulTopicsV2(h, ts) && IsAddress(address)
    ensures WellFormedLog(log) && log.address == address
    ensures TopicsAccepted(h, log, ts, 0) && !TopicsSelectedV2(h, ts, log)
  {
    var stop := FirstNotNull(ts, 0);
    if HasOddTopic(h, ts) {
      log := OddTopicLog(h, ts, address);
    } else {
      log := WitnessLog(h, ts, stop + 1, address);
      WitnessIsAccepted(h, ts, log);
      var i :| stop < i < |ts| && Truthy(ts[i]) && !IsNotNull(ts[i]);
      assert i >= |log.topics|;
    }
  }

  lemma EventCoverageIsExactV2(h: Hashing, filter: Option<LogFilter>, addresses: seq<Field>, limit: int, a: Field)
    requires ProperHashing(h) && a in addresses
    ensures (forall log :: WellFormedLog(log) && LogVerdict(h, log, filter, a) == Ok(true)
                ==> LogConditionsMatch(EventConditions(h, filter, addresses, limit), RecordOfLog(log)))
       <==> HopelessAddress(a) || FaithfulTopicsV2(h, FilterTopics(filter))
  {
    var ts := FilterTopics(filter);
    if HopelessAddress(a) {
      forall log | WellFormedLog(log)
        ensures LogVerdict(h, log, filter, a) != Ok(true)
      {
        HopelessNeverEqual(a, log.address);
      }
    } else if FaithfulTopicsV2(h, ts) {
      forall log | WellFormedLog(log) && LogVerdict(h, log, filter, a) == Ok(true)
        ensures LogConditionsMatch(EventConditions(h, filter, addresses, limit), RecordOfLog(log))
      {
        TopicsVerdictMeans(h, log, ts, 0);
        FaithfulTopicsMissNothingV2(h, ts, log);
        EventConditionsMean(h, filter, addresses, limit, log);
      }
    } else {
      var log := UnfaithfulTopicsMissALogV2(h, ts, AddressFor(a));
      if Truthy(a) {
        AddressForEquals(a);
      }
      TopicsVerdictMeans(h, log, ts, 0);
      EventConditionsMean(h, filter, addresses, limit, log);
      assert LogVerdict(h, log, filter, a) == Ok(true);
    }
  }

  /** V2 tests inputs by prefix, as the filter does, so only `to` can go wrong. */
  predicate FaithfulCallV2(h: Hashing, filter: Option<TxFilter>, addresses: seq<Field>, limit: int, a: Field) {
    if filter.None? then !Narrowing(addresses, limit)
    else
      var f := filter.value;
      || HopelessCall(h, f, a)
      || (if Narrowing(addresses, limit) then f.to.Undefined? || (Truthy(f.to) && Listed(addresses, f.to.s))
          else f.to != Str(""))
  }

  lemma FaithfulCallMissesNothingV2(h: Hashing, filter: Option<TxFilter>, addresses: seq<Field>,
                                    limit: int, a: Field, tx: Transaction)
    requires ProperHashing(h) && a in addresses && WellFormedTx(tx)
    requires FaithfulCallV2(h, filter, addresses, limit, a)
    requires FilterTransactions(h, tx, filter, a)
    ensures CallSelectedV2(h, filter, addresses, limit, tx)
  {
  }

  lemma UnfaithfulCallMissesATxV2(h: Hashing, filter: Option<TxFilter>, addresses: seq<Field>,
                                  limit: int, a: Field)
    returns (tx: Transaction)
    requires ProperHashing(h) && a in addresses && !FaithfulCallV2(h, filter, addresses, limit, a)
    ensures WellFormedTx(tx)
    ensures FilterTransactions(h, tx, filter, a) && !CallSelectedV2(h, filter, addresses, limit, tx)
  {
    if filter.None? {
      tx := Transaction(Some(ZeroAddress()), None, "0x");
    } else {
      var f, input := filter.value, SuitedInput(h, filter.value);
      assert input[..|input|] == input;
      AcceptedTxIsAccepted(h, f, a, input);
      tx := AcceptedTx(h, f, a, input);
      NamedIsListed(f.to, addresses, tx.to);
    }
  }

  lemma CallCoverageIsExactV2(h: Hashing, filter: Option<TxFilter>, addresses: seq<Field>, limit: int, a: Field)
    requires ProperHashing(h) && a in addresses
    ensures (forall tx :: WellFormedTx(tx) && FilterTransactions(h, tx, filter, a)
                ==> TxConditionsMatch(CallConditions(h, filter, addresses, limit), RecordOfTx(tx)))
       <==> FaithfulCallV2(h, filter, addresses, limit, a)
  {
    if FaithfulCallV2(h, filter, addresses, limit, a) {
      forall tx | WellFormedTx(tx) && FilterTransactions(h, tx, filter, a)
        ensures TxConditionsMatch(CallConditions(h, filter, addresses, limit), RecordOfTx(tx))
      {
        CallConditionsMean(h, filter, addresses, limit, tx);
        FaithfulCallMissesNothingV2(h, filter, addresses, limit, a, tx);
      }
    } else {
      var tx := UnfaithfulCallMissesATxV2(h, filter, addresses, limit, a);
      CallConditionsMean(h, filter, addresses, limit, tx);
    }
  }
}
