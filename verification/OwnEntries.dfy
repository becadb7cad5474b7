/** One V1 entry for each handler and address: what a query would be without grouping. */
module OwnEntries {
  import opened Collections
  import opened Strings
  import opened Datasources
  import opened BlockFilters
  import opened Dictionary
  import opened DictionaryV1
  import opened CoverageV1

  /** The entry that a handler would get without grouping selects the record. */
  predicate OwnEntryMatchesLog(h: Hashing, hd: Handler, a: Field, limit: int, log: Log) {
    hd.EventHandler? && EntryMatches(EventEntry(h, hd.logFilter, [a], limit), RecordOfLog(log))
  }

  predicate OwnEntryMatchesTx(h: Hashing, hd: Handler, a: Field, limit: int, tx: Transaction) {
    hd.CallHandler? && EntryMatches(CallEntry(h, hd.txFilter, [a], limit), RecordOfTx(tx))
  }

  ghost predicate OwnEntriesSelectLog(h: Hashing, dss: seq<Datasource>, limit: int, log: Log) {
    exists ds, hd :: ds in dss && hd in ds.handlers && OwnEntryMatchesLog(h, hd, ds.address, limit, log)
  }

  ghost predicate OwnEntriesSelectTx(h: Hashing, dss: seq<Datasource>, limit: int, tx: Transaction) {
    exists ds, hd :: ds in dss && hd in ds.handlers && OwnEntryMatchesTx(h, hd, ds.address, limit, tx)
  }

  // ---------- handlers of one group ----------

  lemma SameKeySameLogEntry(h: Hashing, hd: Handler, hd': Handler, a: Field, limit: int, log: Log)
    requires KeyOf(hd) == KeyOf(hd')
    ensures OwnEntryMatchesLog(h, hd, a, limit, log) <==> OwnEntryMatchesLog(h, hd', a, limit, log)
  {
    if hd.EventHandler? {
      SameKeySameTopics(hd, hd');
      EventEntryMeans(h, hd.logFilter, [a], limit, log);
      EventEntryMeans(h, hd'.logFilter, [a], limit, log);
      var ts, us := FilterTopics(hd.logFilter), FilterTopics(hd'.logFilter);
      assert forall i :: 0 <= i < |ts| ==> JsonElement(ts[i]) == JsonElement(us[i]);
    }
  }

  lemma SameKeySameTxEntry(h: Hashing, hd: Handler, hd': Handler, a: Field, limit: int, tx: Transaction)
    requires KeyOf(hd) == KeyOf(hd')
    ensures OwnEntryMatchesTx(h, hd, a, limit, tx) <==> OwnEntryMatchesTx(h, hd', a, limit, tx)
  {
    if hd.CallHandler? {
      CallEntryMeans(h, hd.txFilter, [a], limit, tx);
      CallEntryMeans(h, hd'.txFilter, [a], limit, tx);
    }
  }

  lemma OwnLogEntryHasGroup(h: Hashing, dss: seq<Datasource>, limit: int, log: Log) returns (g: Group, a: Field)
    requires OwnEntriesSelectLog(h, dss, limit, log)
    ensures g in GroupedDataSources(dss) && a in g.addresses && OwnEntryMatchesLog(h, g.handler, a, limit, log)
  {
    var ds, hd :| ds in dss && hd in ds.handlers && OwnEntryMatchesLog(h, hd, ds.address, limit, log);
    PairsAreHandlers(dss, Pair(ds.address, hd));
    g := PairHasGroup(dss, Pair(ds.address, hd));
    a := ds.address;
    SameKeySameLogEntry(h, hd, g.handler, a, limit, log);
  }

  lemma OwnTxEntryHasGroup(h: Hashing, dss: seq<Datasource>, limit: int, tx: Transaction) returns (g: Group, a: Field)
    requires OwnEntriesSelectTx(h, dss, limit, tx)
    ensures g in GroupedDataSources(dss) && a in g.addresses && OwnEntryMatchesTx(h, g.handler, a, limit, tx)
  {
    var ds, hd :| ds in dss && hd in ds.handlers && OwnEntryMatchesTx(h, hd, ds.address, limit, tx);
    PairsAreHandlers(dss, Pair(ds.address, hd));
    g := PairHasGroup(dss, Pair(ds.address, hd));
    a := ds.address;
    SameKeySameTxEntry(h, hd, g.handler, a, limit, tx);
  }

  lemma GroupHasOwnLogEntry(h: Hashing, dss: seq<Datasource>, limit: int, g: Group, a: Field, log: Log)
    requires g in GroupedDataSources(dss) && a in g.addresses && OwnEntryMatchesLog(h, g.handler, a, limit, log)
    ensures OwnEntriesSelectLog(h, dss, limit, log)
  {
    var p := GroupAddressHasPair(dss, g, a);
    PairsAreHandlers(dss, p);
    var ds :| ds in dss && ds.address == p.address && p.handler in ds.handlers;
    SameKeySameLogEntry(h, g.handler, p.handler, a, limit, log);
  }

  lemma GroupHasOwnTxEntry(h: Hashing, dss: seq<Datasource>, limit: int, g: Group, a: Field, tx: Transaction)
    requires g in GroupedDataSources(dss) && a in g.addresses && OwnEntryMatchesTx(h, g.handler, a, limit, tx)
    ensures OwnEntriesSelectTx(h, dss, limit, tx)
  {
    var p := GroupAddressHasPair(dss, g, a);
    PairsAreHandlers(dss, p);
    var ds :| ds in dss && ds.address == p.address && p.handler in ds.handlers;
    SameKeySameTxEntry(h, g.handler, p.handler, a, limit, tx);
  }
}
