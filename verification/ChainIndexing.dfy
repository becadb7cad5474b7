/** From queries to handler calls: whether indexing only the blocks that the dictionary selects makes the
    calls that indexing every block would make. */
module ChainIndexing {
  import opened Collections
  import opened Strings
  import opened Datasources
  import opened BlockFilters
  import opened Dictionary
  import opened DictionaryV1
  import opened DictionaryV2
  import opened CoverageV1
  import opened ProjectCoverage
  import opened DroppedHandlers
  import opened LostRecords
  import opened BlockIndexing

  // ---------- indexing a chain ----------

  datatype Fetched = Fetched(hash: string, txs: seq<RawTx>, logs: seq<RawLog>)

  predicate WellFormedBlock(f: Fetched) {
    && OfThisBlock(f.hash, f.logs)
    && (forall i :: 0 <= i < |f.logs| ==> WellFormedLog(f.logs[i].content))
    && (forall i :: 0 <= i < |f.txs| ==> WellFormedTx(f.txs[i].content))
  }

  predicate WellFormedChain(chain: seq<Fetched>) {
    forall i :: 0 <= i < |chain| ==> WellFormedBlock(chain[i])
  }

  /** The filters that decide on a handler call; those of block handlers are arbitrary. */
  function HandlerFilters(h: Hashing, blockPasses: (Handler, Block) -> bool): Filter {
    (hd: Handler, ds: IndexDs, data: Data) =>
      match data
      case LogData(l) => HandlerAcceptsLog(h, hd, ds.source.address, l.content)
      case TxData(t) => HandlerAcceptsTx(h, hd, ds.source.address, t.tx.content)
      case BlockData(b) => blockPasses(hd, b)
  }

  function Runtimes(dss: seq<Datasource>): (r: seq<IndexDs>)
    ensures |r| == |dss| && forall i :: 0 <= i < |r| ==> r[i] == IndexDs(true, dss[i])
  {
    seq(|dss|, i requires 0 <= i < |dss| => IndexDs(true, dss[i]))
  }

  function CallsOfBlock(passes: Filter, dss: seq<Datasource>, f: Fetched): seq<HandlerCall> {
    BlockCalls(passes, Runtimes(dss), FullBlockOf(f.hash, f.txs, f.logs))
  }

  function Indexer(passes: Filter, dss: seq<Datasource>): Fetched -> seq<HandlerCall> {
    f => CallsOfBlock(passes, dss, f)
  }

  function ChainCalls(index: Fetched -> seq<HandlerCall>, chain: seq<Fetched>): seq<HandlerCall> {
    if chain == [] then [] else ChainCalls(index, chain[..|chain| - 1]) + index(chain[|chain| - 1])
  }

  /** The dictionary returns a block for any of its records that the query selects. */
  predicate Selected(selects: Record -> bool, f: Fetched) {
    || (exists i :: 0 <= i < |f.logs| && selects(RecordOfLog(f.logs[i].content)))
    || (exists i :: 0 <= i < |f.txs| && selects(RecordOfTx(f.txs[i].content)))
  }

  function SelectedBlocks(selects: Record -> bool, chain: seq<Fetched>): seq<Fetched> {
    if chain == [] then []
    else
      var last := chain[|chain| - 1];
      SelectedBlocks(selects, chain[..|chain| - 1]) + (if Selected(selects, last) then [last] else [])
  }

  // ---------- when an item leads to no call ----------

  predicate Silent(passes: Filter, kind: Kind, data: Data, dss: seq<IndexDs>) {
    forall d, i :: 0 <= d < |dss| && 0 <= i < |dss[d].source.handlers| && KindOf(dss[d].source.handlers[i]) == kind ==>
      !passes(dss[d].source.handlers[i], dss[d], data)
  }

  lemma {:induction false} SilentHandlers(passes: Filter, kind: Kind, data: Data, d: nat, ds: IndexDs, n: nat)
    requires n <= |ds.source.handlers|
    ensures IndexData(passes, kind, data, d, ds, n) == []
       <==> forall i :: 0 <= i < n && KindOf(ds.source.handlers[i]) == kind ==> !passes(ds.source.handlers[i], ds, data)
  {
    if n > 0 {
      SilentHandlers(passes, kind, data, d, ds, n - 1);
    }
  }

  lemma {:induction false} SilentExactly(passes: Filter, kind: Kind, data: Data, dss: seq<IndexDs>, n: nat)
    requires n <= |dss|
    ensures CallsFor(passes, kind, data, dss, n) == [] <==> Silent(passes, kind, data, dss[..n])
  {
    if n > 0 {
      SilentExactly(passes, kind, data, dss, n - 1);
      SilentHandlers(passes, kind, data, n - 1, dss[n - 1], |dss[n - 1].source.handlers|);
      assert forall d :: 0 <= d < n - 1 ==> dss[..n][d] == dss[..n - 1][d];
      assert dss[..n][n - 1] == dss[n - 1];
    }
  }

  lemma {:induction false} SilentLogs(passes: Filter, dss: seq<IndexDs>, logs: seq<RawLog>)
    requires forall l :: l in logs ==> Silent(passes, EventKind, LogData(l), dss)
    ensures LogCalls(passes, dss, logs) == []
  {
    if logs != [] {
      SilentLogs(passes, dss, logs[..|logs| - 1]);
      assert dss[..|dss|] == dss;
      SilentExactly(passes, EventKind, LogData(logs[|logs| - 1]), dss, |dss|);
    }
  }

  lemma {:induction false} SilentTxs(passes: Filter, dss: seq<IndexDs>, txs: seq<FullTx>)
    requires forall t :: t in txs ==> Silent(passes, CallKind, TxData(t), dss)
    requires forall t, l :: t in txs && l in t.logs ==> Silent(passes, EventKind, LogData(l), dss)
    ensures TxCalls(passes, dss, txs) == []
  {
    if txs != [] {
      var tx := txs[|txs| - 1];
      SilentTxs(passes, dss, txs[..|txs| - 1]);
      assert dss[..|dss|] == dss;
      SilentExactly(passes, CallKind, TxData(tx), dss, |dss|);
      SilentLogs(passes, dss, tx.logs);
    }
  }

  lemma LogSilentExactly(h: Hashing, blockPasses: (Handler, Block) -> bool, dss: seq<Datasource>, l: RawLog)
    ensures Silent(HandlerFilters(h, blockPasses), EventKind, LogData(l), Runtimes(dss))
       <==> !LogWanted(h, dss, l.content)
  {
  }

  lemma TxSilentExactly(h: Hashing, blockPasses: (Handler, Block) -> bool, dss: seq<Datasource>, t: FullTx)
    ensures Silent(HandlerFilters(h, blockPasses), CallKind, TxData(t), Runtimes(dss))
       <==> !TxWanted(h, dss, t.tx.content)
  {
  }

  // ---------- selected blocks suffice ----------

  predicate NoBlockHandlers(dss: seq<Datasource>) {
    forall d, i :: 0 <= d < |dss| && 0 <= i < |dss[d].handlers| ==> !dss[d].handlers[i].BlockHandler?
  }

  /** The selection misses no wanted record. */
  ghost predicate Complete(h: Hashing, dss: seq<Datasource>, selects: Record -> bool) {
    && (forall log :: WellFormedLog(log) && LogWanted(h, dss, log) ==> selects(RecordOfLog(log)))
    && (forall tx :: WellFormedTx(tx) && TxWanted(h, dss, tx) ==> selects(RecordOfTx(tx)))
  }

  ghost predicate SelectionSuffices(h: Hashing, blockPasses: (Handler, Block) -> bool, dss: seq<Datasource>,
                                    selects: Record -> bool) {
    forall chain :: WellFormedChain(chain) ==>
      ChainCalls(Indexer(HandlerFilters(h, blockPasses), dss), SelectedBlocks(selects, chain))
      == ChainCalls(Indexer(HandlerFilters(h, blockPasses), dss), chain)
  }

  lemma UnselectedBlockIsSilent(h: Hashing, blockPasses: (Handler, Block) -> bool, dss: seq<Datasource>,
                                selects: Record -> bool, f: Fetched)
    requires NoBlockHandlers(dss) && Complete(h, dss, selects)
    requires WellFormedBlock(f) && !Selected(selects, f)
    ensures CallsOfBlock(HandlerFilters(h, blockPasses), dss, f) == []
  {
    var passes, ids, full := HandlerFilters(h, blockPasses), Runtimes(dss), WithLogs(f.txs, f.logs);
    forall l | l in f.logs
      ensures Silent(passes, EventKind, LogData(l), ids)
    {
      LogSilentExactly(h, blockPasses, dss, l);
    }
    forall t | t in full
      ensures Silent(passes, CallKind, TxData(t), ids)
      ensures forall l :: l in t.logs ==> Silent(passes, EventKind, LogData(l), ids)
    {
      var i :| 0 <= i < |full| && full[i] == t;
      assert t.tx == f.txs[i];
      TxSilentExactly(h, blockPasses, dss, t);
      forall l | l in t.logs
        ensures l in f.logs
      {
        LogsOfTxAreLogs(f.logs, f.txs[i].hash, l);
      }
    }
    SilentLogs(passes, ids, f.logs);
    SilentTxs(passes, ids, full);
    assert ids[..|ids|] == ids;
    SilentExactly(passes, BlockKind, BlockData(FullBlockOf(f.hash, f.txs, f.logs)), ids, |ids|);
  }

  lemma {:induction false} LogsOfTxAreLogs(logs: seq<RawLog>, hash: string, l: RawLog)
    requires l in LogsOfTx(logs, hash)
    ensures l in logs
  {
    if l in LogsOfTx(logs[..|logs| - 1], hash) {
      LogsOfTxAreLogs(logs[..|logs| - 1], hash, l);
    }
  }

  lemma {:induction false} SilentBlocksDropOut(index: Fetched -> seq<HandlerCall>, selects: Record -> bool,
                                               chain: seq<Fetched>)
    requires forall i :: 0 <= i < |chain| && !Selected(selects, chain[i]) ==> index(chain[i]) == []
    ensures ChainCalls(index, SelectedBlocks(selects, chain)) == ChainCalls(index, chain)
  {
    if chain != [] {
      var front, last := chain[..|chain| - 1], chain[|chain| - 1];
      SilentBlocksDropOut(index, selects, front);
      var kept := SelectedBlocks(selects, front);
      if Selected(selects, last) {
        assert (kept + [last])[..|kept|] == kept;
      } else {
        assert kept + [] == kept && ChainCalls(index, front) + index(last) == ChainCalls(index, front);
      }
    }
  }

  lemma {:induction false} CompleteSelectionKeepsCalls(h: Hashing, blockPasses: (Handler, Block) -> bool,
                                                       dss: seq<Datasource>,
                                                       selects: Record -> bool, chain: seq<Fetched>)
    requires NoBlockHandlers(dss) && Complete(h, dss, selects) && WellFormedChain(chain)
    ensures ChainCalls(Indexer(HandlerFilters(h, blockPasses), dss), SelectedBlocks(selects, chain))
         == ChainCalls(Indexer(HandlerFilters(h, blockPasses), dss), chain)
  {
    forall i | 0 <= i < |chain| && !Selected(selects, chain[i])
      ensures CallsOfBlock(HandlerFilters(h, blockPasses), dss, chain[i]) == []
    {
      UnselectedBlockIsSilent(h, blockPasses, dss, selects, chain[i]);
    }
    SilentBlocksDropOut(Indexer(HandlerFilters(h, blockPasses), dss), selects, chain);
  }

  lemma OneBlockChain(passes: Filter, dss: seq<Datasource>, selects: Record -> bool, f: Fetched)
    requires !Selected(selects, f) && CallsOfBlock(passes, dss, f) != []
    ensures ChainCalls(Indexer(passes, dss), SelectedBlocks(selects, [f])) != ChainCalls(Indexer(passes, dss), [f])
  {
  }

  lemma MissedLogLosesCalls(h: Hashing, blockPasses: (Handler, Block) -> bool, dss: seq<Datasource>,
                            selects: Record -> bool, log: Log)
    requires WellFormedLog(log) && LogWanted(h, dss, log) && !selects(RecordOfLog(log))
    ensures !SelectionSuffices(h, blockPasses, dss, selects)
  {
    var l := RawLog("", "", log);
    var f := Fetched("", [], [l]);
    var passes, ids := HandlerFilters(h, blockPasses), Runtimes(dss);
    LogSilentExactly(h, blockPasses, dss, l);
    assert ids[..|ids|] == ids;
    SilentExactly(passes, EventKind, LogData(l), ids, |ids|);
    assert LogCalls(passes, ids, [l])
        == LogCalls(passes, ids, [l][..0]) + CallsFor(passes, EventKind, LogData(l), ids, |ids|);
    OneBlockChain(passes, dss, selects, f);
    assert WellFormedChain([f]);
  }

  lemma MissedTxLosesCalls(h: Hashing, blockPasses: (Handler, Block) -> bool, dss: seq<Datasource>,
                           selects: Record -> bool, tx: Transaction)
    requires WellFormedTx(tx) && TxWanted(h, dss, tx) && !selects(RecordOfTx(tx))
    ensures !SelectionSuffices(h, blockPasses, dss, selects)
  {
    var raw := RawTx("", tx);
    var f := Fetched("", [raw], []);
    var passes, ids, full := HandlerFilters(h, blockPasses), Runtimes(dss), WithLogs([raw], []);
    TxSilentExactly(h, blockPasses, dss, full[0]);
    assert ids[..|ids|] == ids;
    SilentExactly(passes, CallKind, TxData(full[0]), ids, |ids|);
    assert TxCalls(passes, ids, full) != [];
    OneBlockChain(passes, dss, selects, f);
    assert WellFormedChain([f]);
  }

  /** Main result: for a project without block handlers, indexing the selected blocks of any chain makes
      exactly the calls of indexing all its blocks, if and only if the selection misses no wanted record. */
  lemma SelectionSufficesExactly(h: Hashing, blockPasses: (Handler, Block) -> bool, dss: seq<Datasource>,
                                 selects: Record -> bool)
    requires NoBlockHandlers(dss)
    ensures SelectionSuffices(h, blockPasses, dss, selects) <==> Complete(h, dss, selects)
  {
    if Complete(h, dss, selects) {
      forall chain | WellFormedChain(chain) {
        CompleteSelectionKeepsCalls(h, blockPasses, dss, selects, chain);
      }
    } else if log :| WellFormedLog(log) && LogWanted(h, dss, log) && !selects(RecordOfLog(log)) {
      MissedLogLosesCalls(h, blockPasses, dss, selects, log);
    } else {
      var tx :| WellFormedTx(tx) && TxWanted(h, dss, tx) && !selects(RecordOfTx(tx));
      MissedTxLosesCalls(h, blockPasses, dss, selects, tx);
    }
  }

  function V1Selects(h: Hashing, dss: seq<Datasource>, limit: int): Record -> bool {
    var query := V1Query(h, dss, limit);
    r => QueryMatches(query, r)
  }

  function V2Selects(h: Hashing, dss: seq<Datasource>, limit: int): Record -> bool {
    var query := QueryV2(h, dss, limit);
    r => V2Matches(query, r)
  }

  /** Main result: with a used dictionary, a project without block handlers is indexed as if every block
      were fetched, if and only if its query misses no wanted log or transaction. */
  lemma DictionarySufficesExactly(h: Hashing, blockPasses: (Handler, Block) -> bool, dss: seq<Datasource>,
                                  limit: int)
    requires NoBlockHandlers(dss)
    ensures V1Query(h, dss, limit) != [] ==>
      (SelectionSuffices(h, blockPasses, dss, V1Selects(h, dss, limit))
       <==> !V1MissesLogs(h, dss, limit) && !V1MissesTransactions(h, dss, limit))
    ensures QueryV2(h, dss, limit) != EMPTY_V2 ==>
      (SelectionSuffices(h, blockPasses, dss, V2Selects(h, dss, limit))
       <==> !MissesLogs(h, dss, limit) && !MissesTransactions(h, dss, limit))
  {
    SelectionSufficesExactly(h, blockPasses, dss, V1Selects(h, dss, limit));
    SelectionSufficesExactly(h, blockPasses, dss, V2Selects(h, dss, limit));
  }

  /** Main result: a regular project without block handlers is indexed correctly from either dictionary,
      whenever V1 uses it. */
  lemma {:induction false} RegularProjectsAreIndexed(h: Hashing, blockPasses: (Handler, Block) -> bool,
                                                     dss: seq<Datasource>, limit: int)
    requires ProperHashing(h) && NoBlockHandlers(dss)
    requires RegularEvents(h, dss) && RegularCalls(h, dss)
    ensures V1Query(h, dss, limit) != [] ==>
      && SelectionSuffices(h, blockPasses, dss, V1Selects(h, dss, limit))
      && SelectionSuffices(h, blockPasses, dss, V2Selects(h, dss, limit))
  {
    forall log | WellFormedLog(log) && LogWanted(h, dss, log) {
      RegularEventsAreCovered(h, dss, limit, log);
    }
    forall tx | WellFormedTx(tx) && TxWanted(h, dss, tx) {
      RegularCallsAreCovered(h, dss, limit, tx);
    }
    SelectionSufficesExactly(h, blockPasses, dss, V1Selects(h, dss, limit));
    SelectionSufficesExactly(h, blockPasses, dss, V2Selects(h, dss, limit));
  }
}
