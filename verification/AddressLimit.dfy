/** What the address limit of the dictionary query means for the records selected, by V1 and by V2. */
module AddressLimit {
  import opened Collections
  import opened Strings
  import opened Datasources
  import opened BlockFilters
  import opened Dictionary
  import opened DictionaryV1
  import opened DictionaryV2
  import opened CoverageV1
  import opened CoverageV2

  /** Too many addresses, none at all, or one that is missing: the query cannot be narrowed by them. */
  predicate NotNarrowed(addresses: seq<Field>, limit: int) {
    || |addresses| == 0 || |addresses| > limit
    || exists i :: 0 <= i < |addresses| && (!addresses[i].Str? || addresses[i].s == "")
  }

  /** Main result: beyond the address limit, or with an address missing, the address of a log does not matter. */
  lemma LogAddressDoesNotMatter(h: Hashing, filter: Option<LogFilter>, addresses: seq<Field>, limit: int,
                                log: Log, address: string)
    requires NotNarrowed(addresses, limit)
    ensures var other := log.(address := address);
      && (EntryMatches(EventEntry(h, filter, addresses, limit), RecordOfLog(log))
          <==> EntryMatches(EventEntry(h, filter, addresses, limit), RecordOfLog(other)))
      && (LogConditionsMatch(EventConditions(h, filter, addresses, limit), RecordOfLog(log))
          <==> LogConditionsMatch(EventConditions(h, filter, addresses, limit), RecordOfLog(other)))
  {
    var other := log.(address := address);
    EventEntryMeans(h, filter, addresses, limit, log);
    EventEntryMeans(h, filter, addresses, limit, other);
    EventConditionsMean(h, filter, addresses, limit, log);
    EventConditionsMean(h, filter, addresses, limit, other);
    assert !Narrowing(addresses, limit);
    assert TopicsSelected(h, FilterTopics(filter), log) <==> TopicsSelected(h, FilterTopics(filter), other) by {
      assert forall t, i :: TopicSelected(h, t, i, log) <==> TopicSelected(h, t, i, other);
    }
  }

  /** Main result: and of a transaction only the filter's own `to` is tested. */
  lemma OnlyOwnRecipientMatters(h: Hashing, filter: Option<TxFilter>, addresses: seq<Field>, limit: int,
                                tx: Transaction)
    requires NotNarrowed(addresses, limit)
    ensures EntryMatches(CallEntry(h, filter, addresses, limit), RecordOfTx(tx))
       <==> (filter.Some? ==>
               && FromSelected(filter.value, tx) && FunctionSelected(h, filter.value, tx)
               && ToSelected(filter.value, tx))
    ensures TxConditionsMatch(CallConditions(h, filter, addresses, limit), RecordOfTx(tx))
       <==> (filter.Some? ==>
               && FromSelected(filter.value, tx) && FunctionSelectedV2(h, filter.value, tx)
               && ToSelectedV2(filter.value, tx))
  {
    CallEntryMeans(h, filter, addresses, limit, tx);
    CallConditionsMean(h, filter, addresses, limit, tx);
    assert !Narrowing(addresses, limit);
  }

  predicate IsListed(addresses: seq<Field>, address: Option<string>) {
    && address.Some?
    && exists i :: 0 <= i < |addresses| && addresses[i].Str? && ToLower(addresses[i].s) == ToLower(address.value)
  }

  /** Main result: within the limit and with no address missing, only records of listed addresses are selected,
      and of those all that pass the other conditions; the filter's own `to` is not tested then. */
  lemma OnlyListedAreSelected(h: Hashing, logFilter: Option<LogFilter>, txFilter: Option<TxFilter>,
                              addresses: seq<Field>, limit: int, log: Log, tx: Transaction)
    requires !NotNarrowed(addresses, limit)
    ensures EntryMatches(EventEntry(h, logFilter, addresses, limit), RecordOfLog(log))
       <==> IsListed(addresses, Some(log.address)) && TopicsSelected(h, FilterTopics(logFilter), log)
    ensures LogConditionsMatch(EventConditions(h, logFilter, addresses, limit), RecordOfLog(log))
       <==> IsListed(addresses, Some(log.address)) && TopicsSelectedV2(h, FilterTopics(logFilter), log)
    ensures EntryMatches(CallEntry(h, txFilter, addresses, limit), RecordOfTx(tx))
       <==> && IsListed(addresses, tx.to)
            && (txFilter.Some? ==> FromSelected(txFilter.value, tx) && FunctionSelected(h, txFilter.value, tx))
    ensures TxConditionsMatch(CallConditions(h, txFilter, addresses, limit), RecordOfTx(tx))
       <==> && IsListed(addresses, tx.to)
            && (txFilter.Some? ==> FromSelected(txFilter.value, tx) && FunctionSelectedV2(h, txFilter.value, tx))
  {
    EventEntryMeans(h, logFilter, addresses, limit, log);
    EventConditionsMean(h, logFilter, addresses, limit, log);
    CallEntryMeans(h, txFilter, addresses, limit, tx);
    CallConditionsMean(h, txFilter, addresses, limit, tx);
    assert Narrowing(addresses, limit);
    assert Listed(addresses, log.address) <==> IsListed(addresses, Some(log.address));
    assert tx.to.Some? ==> (Listed(addresses, tx.to.value) <==> IsListed(addresses, tx.to));
  }

  /** The condition itself: one address is tested for equality, several for membership, in lower case and in the
      order of the group. */
  lemma AddressConditionExactly(addresses: seq<Field>, limit: int, field: Column)
    ensures var cs := AddressConditions(addresses, limit, field);
      if NotNarrowed(addresses, limit) then cs == []
      else if |addresses| == 1 then cs == [Condition(field, Text(ToLower(addresses[0].s)), EqualTo)]
      else
        && |cs| == 1 && cs[0].field == field && cs[0].matcher.In? && cs[0].value.Texts?
        && |cs[0].value.ss| == |addresses|
        && forall i :: 0 <= i < |addresses| ==> cs[0].value.ss[i] == ToLower(addresses[i].s)
  {
    var valid := ValidAddresses(addresses);
    if !NotNarrowed(addresses, limit) {
      assert forall i :: 0 <= i < |addresses| ==> Truthy(addresses[i]);
      assert forall i :: 0 <= i < |addresses| ==> addresses[i] == Str(valid[i]);
    }
  }
}
