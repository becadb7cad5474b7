/** Whether grouping handlers, merging their addresses and removing duplicate entries changes what a
    V1 query selects: compared with one entry for each handler and address. */
module GroupingPreservation {
  import opened Collections
  import opened Strings
  import opened Datasources
  import opened BlockFilters
  import opened Dictionary
  import opened DictionaryV1
  import opened CoverageV1
  import opened FreshValues
  import opened ProjectCoverage
  import opened OwnEntries
  import opened ForgottenAddresses

  // ---------- logs ----------

  /** Merged addresses allow what some address alone allows. */
  lemma MergedAddressesAllow(addresses: seq<Field>, limit: int, to: Option<string>)
    requires addresses != [] && |addresses| <= limit
    ensures AddressAllowed(addresses, limit, to)
       <==> exists i :: 0 <= i < |addresses| && AddressAllowed([addresses[i]], limit, to)
  {
    forall i | 0 <= i < |addresses|
      ensures AddressAllowed([addresses[i]], limit, to)
         <==> (Truthy(addresses[i]) ==> to.Some? && ToLower(addresses[i].s) == ToLower(to.value))
    {
      assert [addresses[i]][0] == addresses[i];
    }
  }

  lemma GroupEntrySelectsOwnLogs(h: Hashing, g: Group, limit: int, log: Log)
    requires g.handler.EventHandler? && g.addresses != [] && |g.addresses| <= limit
    ensures EntryMatches(EventEntry(h, g.handler.logFilter, g.addresses, limit), RecordOfLog(log))
       <==> exists i :: 0 <= i < |g.addresses| && OwnEntryMatchesLog(h, g.handler, g.addresses[i], limit, log)
  {
    MergedAddressesAllow(g.addresses, limit, Some(log.address));
    EventEntryMeans(h, g.handler.logFilter, g.addresses, limit, log);
    forall i | 0 <= i < |g.addresses|
      ensures OwnEntryMatchesLog(h, g.handler, g.addresses[i], limit, log)
         <==> && AddressAllowed([g.addresses[i]], limit, Some(log.address))
              && TopicsSelected(h, FilterTopics(g.handler.logFilter), log)
    {
      EventEntryMeans(h, g.handler.logFilter, [g.addresses[i]], limit, log);
    }
  }

  /** Main result: within the limit, grouping, address merging and deduplication never change the
      selected logs, whatever the manifest and whatever the log. */
  lemma GroupingKeepsSelectedLogs(h: Hashing, dss: seq<Datasource>, limit: int, log: Log)
    requires UsableV1(h, dss, limit)
    requires forall g :: g in GroupedDataSources(dss) && g.handler.EventHandler? ==> |g.addresses| <= limit
    ensures QueryMatches(V1Query(h, dss, limit), RecordOfLog(log)) <==> OwnEntriesSelectLog(h, dss, limit, log)
  {
    GroupsAreDistinct(dss);
    if QueryMatches(V1Query(h, dss, limit), RecordOfLog(log)) {
      var g := MatchedQueryHasGroup(h, dss, limit, RecordOfLog(log));
      UsableGroupHasEntry(h, dss, limit, g);
      GroupEntrySelectsOwnLogs(h, g, limit, log);
      var i :| 0 <= i < |g.addresses| && OwnEntryMatchesLog(h, g.handler, g.addresses[i], limit, log);
      GroupHasOwnLogEntry(h, dss, limit, g, g.addresses[i], log);
    }
    if OwnEntriesSelectLog(h, dss, limit, log) {
      var g, a := OwnLogEntryHasGroup(h, dss, limit, log);
      GroupEntrySelectsOwnLogs(h, g, limit, log);
      GroupLogIsSelected(h, dss, limit, g, log);
    }
  }

  // ---------- transactions ----------

  ghost predicate AllForgottenMadeUp(h: Hashing, dss: seq<Datasource>, limit: int) {
    forall g, a :: g in GroupedDataSources(dss) && a in g.addresses && Forgotten(h, g, limit, a) ==>
      exists g' :: g' in GroupedDataSources(dss) && MakesUpFor(h, g', limit, g.handler.txFilter.value, a)
  }

  lemma SelectedTxIsOwn(h: Hashing, dss: seq<Datasource>, limit: int, tx: Transaction)
    requires UsableV1(h, dss, limit)
    requires forall g :: g in GroupedDataSources(dss) && g.handler.CallHandler? ==> |g.addresses| <= limit
    ensures QueryMatches(V1Query(h, dss, limit), RecordOfTx(tx)) ==> OwnEntriesSelectTx(h, dss, limit, tx)
  {
    if QueryMatches(V1Query(h, dss, limit), RecordOfTx(tx)) {
      GroupsAreDistinct(dss);
      var g := MatchedQueryHasGroup(h, dss, limit, RecordOfTx(tx));
      UsableGroupHasEntry(h, dss, limit, g);
      var a := MergedTxIsOwn(h, g, limit, tx);
      GroupHasOwnTxEntry(h, dss, limit, g, a, tx);
    }
  }

  lemma OwnTxIsSelected(h: Hashing, dss: seq<Datasource>, limit: int, tx: Transaction)
    requires UsableV1(h, dss, limit) && WellFormedTx(tx)
    requires forall g :: g in GroupedDataSources(dss) && g.handler.CallHandler? ==> |g.addresses| <= limit
    requires AllForgottenMadeUp(h, dss, limit) && OwnEntriesSelectTx(h, dss, limit, tx)
    ensures QueryMatches(V1Query(h, dss, limit), RecordOfTx(tx))
  {
    GroupsAreDistinct(dss);
    var g, a := OwnTxEntryHasGroup(h, dss, limit, tx);
    if Forgotten(h, g, limit, a) {
      var g' :| g' in GroupedDataSources(dss) && MakesUpFor(h, g', limit, g.handler.txFilter.value, a);
      MakesUpSelects(h, g, g', limit, a, tx);
      GroupTxIsSelected(h, dss, limit, g', tx);
    } else {
      OwnTxIsKept(h, g, limit, a, tx);
      GroupTxIsSelected(h, dss, limit, g, tx);
    }
  }

  lemma ForgottenIsMadeUp(h: Hashing, dss: seq<Datasource>, limit: int, g: Group, a: Field) returns (g': Group)
    requires ProperHashing(h) && UsableV1(h, dss, limit) && FitsArray(dss) && limit >= 1
    requires g in GroupedDataSources(dss) && a in g.addresses && Forgotten(h, g, limit, a)
    requires forall tx :: WellFormedTx(tx) && OwnEntriesSelectTx(h, dss, limit, tx) ==>
      QueryMatches(V1Query(h, dss, limit), RecordOfTx(tx))
    ensures g' in GroupedDataSources(dss) && MakesUpFor(h, g', limit, g.handler.txFilter.value, a)
  {
    var f := g.handler.txFilter.value;
    var from := FreshAddress(dss);
    var input := FreshSelector(h, dss);
    var tx := ForgottenTx(h, f, a, from, input);
    ForgottenTxIsOwn(h, g, limit, a, from, input);
    GroupHasOwnTxEntry(h, dss, limit, g, a, tx);
    g' := MatchedQueryHasGroup(h, dss, limit, RecordOfTx(tx));
    UsableGroupHasEntry(h, dss, limit, g');
    SelectingForgottenMakesUp(h, f, g', limit, a, from, input);
  }

  /** Main result: within the limit, grouping, address merging and deduplication leave the selected
      transactions unchanged if and only if for each forgotten address some group makes up. */
  lemma GroupingKeepsSelectedTransactionsExactly(h: Hashing, dss: seq<Datasource>, limit: int)
    requires ProperHashing(h) && UsableV1(h, dss, limit) && FitsArray(dss)
    requires forall g :: g in GroupedDataSources(dss) && g.handler.CallHandler? ==> |g.addresses| <= limit
    ensures (forall tx :: WellFormedTx(tx) ==>
              (QueryMatches(V1Query(h, dss, limit), RecordOfTx(tx)) <==> OwnEntriesSelectTx(h, dss, limit, tx)))
       <==> AllForgottenMadeUp(h, dss, limit)
  {
    GroupsAreDistinct(dss);
    forall tx | QueryMatches(V1Query(h, dss, limit), RecordOfTx(tx))
      ensures OwnEntriesSelectTx(h, dss, limit, tx)
    {
      SelectedTxIsOwn(h, dss, limit, tx);
    }
    if AllForgottenMadeUp(h, dss, limit) {
      forall tx | WellFormedTx(tx) && OwnEntriesSelectTx(h, dss, limit, tx)
        ensures QueryMatches(V1Query(h, dss, limit), RecordOfTx(tx))
      {
        OwnTxIsSelected(h, dss, limit, tx);
      }
    } else if forall tx :: WellFormedTx(tx) ==>
                (QueryMatches(V1Query(h, dss, limit), RecordOfTx(tx)) <==> OwnEntriesSelectTx(h, dss, limit, tx)) {
      forall g, a | g in GroupedDataSources(dss) && a in g.addresses && Forgotten(h, g, limit, a)
        ensures exists g' :: g' in GroupedDataSources(dss) && MakesUpFor(h, g', limit, g.handler.txFilter.value, a)
      {
        var g' := ForgottenIsMadeUp(h, dss, limit, g, a);
      }
      assert false;
    }
  }
}
