/** Full blocks and light blocks: fetching (packages/node/src/ethereum/api.ethereum.ts), dispatch to
    handlers (packages/node/src/indexer/indexer.manager.ts) and the condition under which light
    blocks are used (packages/node/src/utils/project.ts). */
module BlockIndexing {
  import opened Collections
  import opened Strings
  import opened Datasources
  import opened BlockFilters

  // ---------- blocks ----------

  /** `content` is what the handler filters look at. */
  datatype RawLog = RawLog(transactionHash: string, blockHash: string, content: Log)

  datatype RawTx = RawTx(hash: string, content: Transaction)

  datatype FullTx = FullTx(tx: RawTx, logs: seq<RawLog>)

  /** A light block has transaction hashes in place of transactions. */
  datatype BlockTxs = Full(txs: seq<FullTx>) | Light(hashes: seq<string>)

  datatype Block = Block(hash: string, transactions: BlockTxs, logs: seq<RawLog>)

  predicate IsFullBlock(b: Block) {
    b.transactions.Full? && b.transactions.txs != []
  }

  function LogsOfTx(logs: seq<RawLog>, hash: string): (r: seq<RawLog>)
    ensures forall i :: 0 <= i < |r| ==> r[i].transactionHash == hash
  {
    if logs == [] then []
    else
      var last := logs[|logs| - 1];
      LogsOfTx(logs[..|logs| - 1], hash) + (if last.transactionHash == hash then [last] else [])
  }

  function WithLogs(txs: seq<RawTx>, logs: seq<RawLog>): (r: seq<FullTx>)
    ensures |r| == |txs| && forall i :: 0 <= i < |txs| ==> r[i] == FullTx(txs[i], LogsOfTx(logs, txs[i].hash))
  {
    seq(|txs|, i requires 0 <= i < |txs| => FullTx(txs[i], LogsOfTx(logs, txs[i].hash)))
  }

  predicate ForeignLog(blockHash: string, l: RawLog) {
    ToLower(l.blockHash) != ToLower(blockHash)
  }

  /** The block object that `fetchBlock` fills in. */
  class BlockBuilder {
    const hash: string
    var logs: seq<RawLog>
    var transactions: seq<FullTx>

    constructor (hash: string)
      ensures this.hash == hash && logs == [] && transactions == []
    {
      this.hash := hash;
      logs, transactions := [], [];
    }

    /** Fails when the provider returned logs of another block. */
    method Fill(rawTxs: seq<RawTx>, rawLogs: seq<RawLog>) returns (r: Result<Block>)
      modifies this
      ensures r == FetchFull(hash, rawTxs, rawLogs)
      ensures if r.Ok? then logs == rawLogs && transactions == WithLogs(rawTxs, rawLogs)
              else logs == old(logs) && transactions == old(transactions)
    {
      var i := 0;
      while i < |rawLogs|
        invariant 0 <= i <= |rawLogs|
        invariant forall k :: 0 <= k < i ==> !ForeignLog(hash, rawLogs[k])
        invariant logs == old(logs) && transactions == old(transactions)
      {
        if ToLower(rawLogs[i].blockHash) != ToLower(hash) {
          assert rawLogs[i] in rawLogs && ForeignLog(hash, rawLogs[i]);
          return Err(FOREIGN_LOG_ERROR);
        }
        i := i + 1;
      }
      logs := rawLogs;
      transactions := WithLogs(rawTxs, logs);
      r := Ok(Block(hash, Full(transactions), logs));
    }
  }

  function FullBlockOf(hash: string, txs: seq<RawTx>, logs: seq<RawLog>): Block {
    Block(hash, Full(WithLogs(txs, logs)), logs)
  }

  function Hashes(txs: seq<RawTx>): (r: seq<string>)
    ensures |r| == |txs| && forall i :: 0 <= i < |txs| ==> r[i] == txs[i].hash
  {
    seq(|txs|, i requires 0 <= i < |txs| => txs[i].hash)
  }

  function LightBlockOf(hash: string, txs: seq<RawTx>, logs: seq<RawLog>): Block {
    Block(hash, Light(Hashes(txs)), logs)
  }

  const FOREIGN_LOG_ERROR := "Log BlockHash does not match block"

  predicate OfThisBlock(hash: string, logs: seq<RawLog>) {
    forall i :: 0 <= i < |logs| ==> !ForeignLog(hash, logs[i])
  }

  /** The full fetch fails when the provider returned a log of another block. */
  function FetchFull(hash: string, txs: seq<RawTx>, logs: seq<RawLog>): Result<Block> {
    if OfThisBlock(hash, logs) then Ok(FullBlockOf(hash, txs, logs)) else Err(FOREIGN_LOG_ERROR)
  }

  /** The light fetch does not look. */
  function FetchLight(hash: string, txs: seq<RawTx>, logs: seq<RawLog>): Result<Block> {
    Ok(LightBlockOf(hash, txs, logs))
  }

  // ---------- projects ----------

  datatype Kind = BlockKind | CallKind | EventKind

  function KindOf(hd: Handler): Kind {
    match hd
    case BlockHandler(_, _) => BlockKind
    case CallHandler(_, _) => CallKind
    case EventHandler(_, _) => EventKind
  }

  /** `runtime` is false for custom datasources. */
  datatype IndexDs = IndexDs(runtime: bool, source: Datasource)

  predicate ContainsNonEventHandlers(ds: IndexDs) {
    !ds.runtime || exists i :: 0 <= i < |ds.source.handlers| && !ds.source.handlers[i].EventHandler?
  }

  predicate IsOnlyEventHandlers(dataSources: seq<IndexDs>, templates: seq<IndexDs>) {
    && (forall i :: 0 <= i < |dataSources| ==> !ContainsNonEventHandlers(dataSources[i]))
    && (forall i :: 0 <= i < |templates| ==> !ContainsNonEventHandlers(templates[i]))
  }

  // ---------- dispatch ----------

  datatype Data = BlockData(block: Block) | TxData(tx: FullTx) | LogData(log: RawLog)

  datatype HandlerCall = HandlerCall(ds: nat, handler: Handler, data: Data)

  /** `passes` stands for the filters that the base class applies before it calls a handler. */
  type Filter = (Handler, IndexDs, Data) -> bool

  /** `indexData` of the base class: the calls of one datasource's handlers of one kind. */
  function IndexData(passes: Filter, kind: Kind, data: Data, d: nat, ds: IndexDs, n: nat): seq<HandlerCall>
    requires n <= |ds.source.handlers|
  {
    if n == 0 then []
    else
      var hd := ds.source.handlers[n - 1];
      IndexData(passes, kind, data, d, ds, n - 1)
      + (if KindOf(hd) == kind && passes(hd, ds, data) then [HandlerCall(d, hd, data)] else [])
  }

  /** One item offered to the first n datasources in order. */
  function CallsFor(passes: Filter, kind: Kind, data: Data, dss: seq<IndexDs>, n: nat): seq<HandlerCall>
    requires n <= |dss|
  {
    if n == 0 then []
    else
      CallsFor(passes, kind, data, dss, n - 1)
      + IndexData(passes, kind, data, n - 1, dss[n - 1], |dss[n - 1].source.handlers|)
  }

  function LogCalls(passes: Filter, dss: seq<IndexDs>, logs: seq<RawLog>): seq<HandlerCall> {
    if logs == [] then []
    else
      LogCalls(passes, dss, logs[..|logs| - 1])
      + CallsFor(passes, EventKind, LogData(logs[|logs| - 1]), dss, |dss|)
  }

  function TxCalls(passes: Filter, dss: seq<IndexDs>, txs: seq<FullTx>): seq<HandlerCall> {
    if txs == [] then []
    else
      var tx := txs[|txs| - 1];
      TxCalls(passes, dss, txs[..|txs| - 1])
      + CallsFor(passes, CallKind, TxData(tx), dss, |dss|) + LogCalls(passes, dss, tx.logs)
  }

  function BlockCalls(passes: Filter, dss: seq<IndexDs>, b: Block): seq<HandlerCall> {
    if IsFullBlock(b) then
      CallsFor(passes, BlockKind, BlockData(b), dss, |dss|) + TxCalls(passes, dss, b.transactions.txs)
    else LogCalls(passes, dss, b.logs)
  }

  lemma {:induction false} TxCallsOneMore(passes: Filter, dss: seq<IndexDs>, txs: seq<FullTx>, i: nat)
    requires i < |txs|
    ensures TxCalls(passes, dss, txs[..i + 1])
         == TxCalls(passes, dss, txs[..i])
            + CallsFor(passes, CallKind, TxData(txs[i]), dss, |dss|) + LogCalls(passes, dss, txs[i].logs)
  {
    assert txs[..i + 1][..i] == txs[..i];
  }

  /** The indexer, with the handler calls it has made. */
  class IndexerManager {
    const passes: Filter
    var calls: seq<HandlerCall>

    constructor (passes: Filter)
      ensures this.passes == passes && calls == []
    {
      this.passes := passes;
      calls := [];
    }

    method IndexItem(kind: Kind, data: Data, dss: seq<IndexDs>)
      modifies this
      ensures calls == old(calls) + CallsFor(passes, kind, data, dss, |dss|)
    {
      var i := 0;
      while i < |dss|
        invariant 0 <= i <= |dss|
        invariant calls == old(calls) + CallsFor(passes, kind, data, dss, i)
      {
        calls := calls + IndexData(passes, kind, data, i, dss[i], |dss[i].source.handlers|);
        i := i + 1;
      }
    }

    method IndexLogs(logs: seq<RawLog>, dss: seq<IndexDs>)
      modifies this
      ensures calls == old(calls) + LogCalls(passes, dss, logs)
    {
      var i := 0;
      while i < |logs|
        invariant 0 <= i <= |logs|
        invariant calls == old(calls) + LogCalls(passes, dss, logs[..i])
      {
        assert logs[..i + 1][..i] == logs[..i];
        IndexItem(EventKind, LogData(logs[i]), dss);
        i := i + 1;
      }
      assert logs[..i] == logs;
    }

    /** Each transaction, followed by its logs. */
    method IndexTransactions(txs: seq<FullTx>, dss: seq<IndexDs>)
      modifies this
      ensures calls == old(calls) + TxCalls(passes, dss, txs)
    {
      var i := 0;
      while i < |txs|
        invariant 0 <= i <= |txs|
        invariant calls == old(calls) + TxCalls(passes, dss, txs[..i])
      {
        assert txs[..i + 1][..i] == txs[..i];
        IndexItem(CallKind, TxData(txs[i]), dss);
        IndexLogs(txs[i].logs, dss);
        TxCallsOneMore(passes, dss, txs, i);
        i := i + 1;
      }
      assert txs[..i] == txs;
    }

    method IndexBlockData(b: Block, dss: seq<IndexDs>)
      modifies this
      ensures calls == old(calls) + BlockCalls(passes, dss, b)
    {
      if IsFullBlock(b) {
        IndexItem(BlockKind, BlockData(b), dss);
        IndexTransactions(b.transactions.txs, dss);
      } else {
        IndexLogs(b.logs, dss);
      }
    }
  }

  // ---------- event-only projects ----------

  predicate EventOnly(dss: seq<IndexDs>) {
    forall i :: 0 <= i < |dss| ==> !ContainsNonEventHandlers(dss[i])
  }

  /** Datasources of a project whose manifest and templates pass the check for light blocks. */
  ghost predicate OfEventOnlyProject(dss: seq<IndexDs>) {
    exists dataSources, templates ::
      IsOnlyEventHandlers(dataSources, templates) && forall ds :: ds in dss ==> ds in dataSources || ds in templates
  }

  lemma EventOnlyProjects(dss: seq<IndexDs>)
    ensures OfEventOnlyProject(dss) <==> EventOnly(dss)
  {
    if EventOnly(dss) {
      assert IsOnlyEventHandlers(dss, []);
    }
    if OfEventOnlyProject(dss) {
      var dataSources, templates :|
        IsOnlyEventHandlers(dataSources, templates) && forall ds :: ds in dss ==> ds in dataSources || ds in templates;
      forall i | 0 <= i < |dss|
        ensures !ContainsNonEventHandlers(dss[i])
      {
        assert dss[i] in dataSources || dss[i] in templates;
      }
    }
  }

  lemma {:induction false} NoCallsOfOtherKinds(passes: Filter, kind: Kind, data: Data, d: nat, ds: IndexDs, n: nat)
    requires n <= |ds.source.handlers| && !ContainsNonEventHandlers(ds) && !kind.EventKind?
    ensures IndexData(passes, kind, data, d, ds, n) == []
  {
    if n > 0 {
      NoCallsOfOtherKinds(passes, kind, data, d, ds, n - 1);
    }
  }

  lemma {:induction false} NoOtherCalls(passes: Filter, kind: Kind, data: Data, dss: seq<IndexDs>, n: nat)
    requires n <= |dss| && EventOnly(dss) && !kind.EventKind?
    ensures CallsFor(passes, kind, data, dss, n) == []
  {
    if n > 0 {
      NoOtherCalls(passes, kind, data, dss, n - 1);
      NoCallsOfOtherKinds(passes, kind, data, n - 1, dss[n - 1], |dss[n - 1].source.handlers|);
    }
  }

  lemma {:induction false} LogCallsConcat(passes: Filter, dss: seq<IndexDs>, a: seq<RawLog>, b: seq<RawLog>)
    ensures LogCalls(passes, dss, a + b) == LogCalls(passes, dss, a) + LogCalls(passes, dss, b)
  {
    if b == [] {
      assert a + b == a;
    } else {
      assert (a + b)[..|a + b| - 1] == a + b[..|b| - 1];
      LogCallsConcat(passes, dss, a, b[..|b| - 1]);
    }
  }

  /** The logs of a full block in the order in which they are indexed. */
  function Grouped(txs: seq<FullTx>): seq<RawLog> {
    if txs == [] then [] else Grouped(txs[..|txs| - 1]) + txs[|txs| - 1].logs
  }

  lemma {:induction false} EventOnlyTxCalls(passes: Filter, dss: seq<IndexDs>, txs: seq<FullTx>)
    requires EventOnly(dss)
    ensures TxCalls(passes, dss, txs) == LogCalls(passes, dss, Grouped(txs))
  {
    if txs != [] {
      var front, tx := txs[..|txs| - 1], txs[|txs| - 1];
      EventOnlyTxCalls(passes, dss, front);
      NoOtherCalls(passes, CallKind, TxData(tx), dss, |dss|);
      LogCallsConcat(passes, dss, Grouped(front), tx.logs);
      NothingInBetween(LogCalls(passes, dss, Grouped(front)), LogCalls(passes, dss, tx.logs));
    }
  }

  lemma NothingInBetween(a: seq<HandlerCall>, b: seq<HandlerCall>)
    ensures a + [] + b == a + b
  {
  }

  /** In an event-only project a full block leads to the calls for its logs, grouped by transaction. */
  lemma {:induction false} EventOnlyFullBlock(passes: Filter, dss: seq<IndexDs>, hash: string, txs: seq<RawTx>,
                                              logs: seq<RawLog>)
    requires EventOnly(dss)
    ensures BlockCalls(passes, dss, FullBlockOf(hash, txs, logs))
         == LogCalls(passes, dss, if txs == [] then logs else Grouped(WithLogs(txs, logs)))
  {
    var b := FullBlockOf(hash, txs, logs);
    NoOtherCalls(passes, BlockKind, BlockData(b), dss, |dss|);
    EventOnlyTxCalls(passes, dss, WithLogs(txs, logs));
  }
}
