/** Exactly when skipping transactions leaves the handler calls of event-only projects unchanged. */
module LightBlocks {
  import opened Collections
  import opened Strings
  import opened Datasources
  import opened BlockFilters
  import opened BlockIndexing

  // ---------- when grouping by transaction changes nothing ----------

  predicate DistinctHashes(txs: seq<RawTx>) {
    forall i, j :: 0 <= i < j < |txs| ==> txs[i].hash != txs[j].hash
  }

  /** Position of the transaction with this hash, or the number of transactions. */
  function TxIndex(txs: seq<RawTx>, hash: string): (i: nat)
    ensures i <= |txs|
    ensures i < |txs| ==> txs[i].hash == hash
    ensures forall k :: 0 <= k < i ==> txs[k].hash != hash
  {
    if txs == [] || txs[0].hash == hash then 0 else 1 + TxIndex(txs[1..], hash)
  }

  /** Every log belongs to a transaction of the block. */
  predicate Owned(txs: seq<RawTx>, logs: seq<RawLog>) {
    forall i :: 0 <= i < |logs| ==> TxIndex(txs, logs[i].transactionHash) < |txs|
  }

  /** Logs come in the order of their transactions. */
  predicate InTxOrder(txs: seq<RawTx>, logs: seq<RawLog>) {
    forall i, j :: 0 <= i < j < |logs| ==>
      TxIndex(txs, logs[i].transactionHash) <= TxIndex(txs, logs[j].transactionHash)
  }

  lemma WithLogsFront(txs: seq<RawTx>, logs: seq<RawLog>)
    requires txs != []
    ensures WithLogs(txs, logs)[..|txs| - 1] == WithLogs(txs[..|txs| - 1], logs)
  {
  }

  lemma TxIndexOfFront(txs: seq<RawTx>, hash: string)
    requires txs != []
    ensures var front := txs[..|txs| - 1];
      TxIndex(txs, hash) == if TxIndex(front, hash) < |front| then TxIndex(front, hash)
                            else if txs[|front|].hash == hash then |front| else |txs|
  {
  }

  lemma {:induction false} LogsOfTxConcat(a: seq<RawLog>, b: seq<RawLog>, hash: string)
    ensures LogsOfTx(a + b, hash) == LogsOfTx(a, hash) + LogsOfTx(b, hash)
  {
    if b == [] {
      assert a + b == a;
    } else {
      assert (a + b)[..|a + b| - 1] == a + b[..|b| - 1];
      LogsOfTxConcat(a, b[..|b| - 1], hash);
    }
  }

  /** `filter`: the logs of a transaction, all of them and in their order. */
  lemma LogsOfTxExactly(before: seq<RawLog>, l: RawLog, after: seq<RawLog>, hash: string)
    ensures LogsOfTx(before + [l] + after, hash)
         == LogsOfTx(before, hash) + (if l.transactionHash == hash then [l] else []) + LogsOfTx(after, hash)
  {
    LogsOfTxConcat(before + [l], after, hash);
    LogsOfTxConcat(before, [l], hash);
    assert [l][..0] == [];
  }

  /** Main result: a full block is fetched iff every log names its hash, in any letter case; it bears that hash,
      all logs in their order, and the transactions in theirs, each with its own logs. */
  lemma FetchedExactly(hash: string, txs: seq<RawTx>, logs: seq<RawLog>)
    ensures FetchFull(hash, txs, logs).Ok?
       <==> forall i :: 0 <= i < |logs| ==> StringNormalizedEq(logs[i].blockHash, Some(hash))
    ensures FetchFull(hash, txs, logs).Ok? ==>
      var b := FetchFull(hash, txs, logs).value;
      && b.hash == hash && b.logs == logs && b.transactions.Full? && |b.transactions.txs| == |txs|
      && forall i :: 0 <= i < |txs| ==>
           b.transactions.txs[i].tx == txs[i] && b.transactions.txs[i].logs == LogsOfTx(logs, txs[i].hash)
    ensures FetchLight(hash, txs, logs).Ok?
    ensures var b := FetchLight(hash, txs, logs).value;
      && b.hash == hash && b.logs == logs && b.transactions.Light? && |b.transactions.hashes| == |txs|
      && forall i :: 0 <= i < |txs| ==> b.transactions.hashes[i] == txs[i].hash
  {
    assert OfThisBlock(hash, logs)
      <==> forall i :: 0 <= i < |logs| ==> StringNormalizedEq(logs[i].blockHash, Some(hash));
  }

  lemma {:induction false} AllOfOneTx(logs: seq<RawLog>, hash: string)
    requires forall i :: 0 <= i < |logs| ==> logs[i].transactionHash == hash
    ensures LogsOfTx(logs, hash) == logs
  {
    if logs != [] {
      AllOfOneTx(logs[..|logs| - 1], hash);
    }
  }

  lemma {:induction false} NoneOfOneTx(logs: seq<RawLog>, hash: string)
    requires forall i :: 0 <= i < |logs| ==> logs[i].transactionHash != hash
    ensures LogsOfTx(logs, hash) == []
  {
    if logs != [] {
      NoneOfOneTx(logs[..|logs| - 1], hash);
    }
  }

  lemma {:induction false} GroupedIgnoresOthers(txs: seq<RawTx>, a: seq<RawLog>, b: seq<RawLog>)
    requires forall i, k :: 0 <= i < |b| && 0 <= k < |txs| ==> b[i].transactionHash != txs[k].hash
    ensures Grouped(WithLogs(txs, a + b)) == Grouped(WithLogs(txs, a))
  {
    if txs != [] {
      var front, last := txs[..|txs| - 1], txs[|txs| - 1];
      WithLogsFront(txs, a + b);
      WithLogsFront(txs, a);
      GroupedIgnoresOthers(front, a, b);
      LogsOfTxConcat(a, b, last.hash);
      NoneOfOneTx(b, last.hash);
    }
  }

  /** Where the logs of the last transaction start. */
  function LastTxStart(txs: seq<RawTx>, logs: seq<RawLog>): (n: nat)
    requires txs != []
    ensures n <= |logs|
    ensures forall i :: n <= i < |logs| ==> TxIndex(txs, logs[i].transactionHash) == |txs| - 1
    ensures n > 0 ==> TxIndex(txs, logs[n - 1].transactionHash) != |txs| - 1
  {
    if logs == [] || TxIndex(txs, logs[|logs| - 1].transactionHash) != |txs| - 1 then |logs|
    else LastTxStart(txs, logs[..|logs| - 1])
  }

  lemma {:induction false} EarlierTx(txs: seq<RawTx>, hash: string)
    requires txs != [] && DistinctHashes(txs) && TxIndex(txs, hash) < |txs| - 1
    ensures TxIndex(txs[..|txs| - 1], hash) == TxIndex(txs, hash)
    ensures hash != txs[|txs| - 1].hash
  {
  }

  /** Logs before the start of the last transaction belong to earlier ones. */
  lemma {:induction false} BeforeLastTx(txs: seq<RawTx>, logs: seq<RawLog>, i: nat)
    requires txs != [] && Owned(txs, logs) && InTxOrder(txs, logs)
    requires i < LastTxStart(txs, logs)
    ensures TxIndex(txs, logs[i].transactionHash) < |txs| - 1
  {
  }

  lemma {:induction false} BeforeLastTxIsOrdered(txs: seq<RawTx>, logs: seq<RawLog>, a: seq<RawLog>)
    requires txs != [] && DistinctHashes(txs) && Owned(txs, logs) && InTxOrder(txs, logs)
    requires a == logs[..LastTxStart(txs, logs)]
    ensures Owned(txs[..|txs| - 1], a) && InTxOrder(txs[..|txs| - 1], a)
    ensures forall i :: 0 <= i < |a| ==> a[i].transactionHash != txs[|txs| - 1].hash
  {
    forall i | 0 <= i < |a|
      ensures TxIndex(txs[..|txs| - 1], a[i].transactionHash) == TxIndex(txs, logs[i].transactionHash) < |txs| - 1
      ensures a[i].transactionHash != txs[|txs| - 1].hash
    {
      BeforeLastTx(txs, logs, i);
      EarlierTx(txs, a[i].transactionHash);
    }
  }

  /** Ordered logs split into those of earlier transactions and those of the last one. */
  lemma OrderedLogsSplit(txs: seq<RawTx>, logs: seq<RawLog>) returns (a: seq<RawLog>, b: seq<RawLog>)
    requires txs != [] && DistinctHashes(txs) && Owned(txs, logs) && InTxOrder(txs, logs)
    ensures logs == a + b
    ensures Owned(txs[..|txs| - 1], a) && InTxOrder(txs[..|txs| - 1], a)
    ensures forall i :: 0 <= i < |a| ==> a[i].transactionHash != txs[|txs| - 1].hash
    ensures forall i :: 0 <= i < |b| ==> b[i].transactionHash == txs[|txs| - 1].hash
  {
    var n := LastTxStart(txs, logs);
    a, b := logs[..n], logs[n..];
    BeforeLastTxIsOrdered(txs, logs, a);
    LastTxOwns(txs, logs, b);
  }

  lemma {:induction false} LastTxOwns(txs: seq<RawTx>, logs: seq<RawLog>, b: seq<RawLog>)
    requires txs != [] && b == logs[LastTxStart(txs, logs)..]
    ensures forall i :: 0 <= i < |b| ==> b[i].transactionHash == txs[|txs| - 1].hash
  {
  }

  lemma LastTxAppendsItsLogs(txs: seq<RawTx>, a: seq<RawLog>, b: seq<RawLog>)
    requires txs != [] && DistinctHashes(txs)
    requires Grouped(WithLogs(txs[..|txs| - 1], a)) == a
    requires forall i :: 0 <= i < |a| ==> a[i].transactionHash != txs[|txs| - 1].hash
    requires forall i :: 0 <= i < |b| ==> b[i].transactionHash == txs[|txs| - 1].hash
    ensures Grouped(WithLogs(txs, a + b)) == a + b
  {
    var front, last := txs[..|txs| - 1], txs[|txs| - 1];
    WithLogsFront(txs, a + b);
    GroupedIgnoresOthers(front, a, b);
    LogsOfTxConcat(a, b, last.hash);
    AllOfOneTx(b, last.hash);
    NoneOfOneTx(a, last.hash);
  }

  /** Logs in transaction order are their own grouping. */
  lemma {:induction false} OrderedLogsAreGrouped(txs: seq<RawTx>, logs: seq<RawLog>)
    requires DistinctHashes(txs) && Owned(txs, logs) && InTxOrder(txs, logs)
    ensures Grouped(WithLogs(txs, logs)) == logs
  {
    if txs != [] {
      var a, b := OrderedLogsSplit(txs, logs);
      OrderedLogsAreGrouped(txs[..|txs| - 1], a);
      LastTxAppendsItsLogs(txs, a, b);
    } else {
      assert logs != [] ==> TxIndex(txs, logs[0].transactionHash) < |txs|;
    }
  }

  predicate AllBefore(txs: seq<RawTx>, logs: seq<RawLog>, n: nat) {
    forall i :: 0 <= i < |logs| ==> TxIndex(txs, logs[i].transactionHash) < n
  }

  lemma {:induction false} AppendingLastTxKeepsOrder(txs: seq<RawTx>, g: seq<RawLog>, own: seq<RawLog>, n: nat)
    requires InTxOrder(txs, g) && AllBefore(txs, g, n)
    requires forall i :: 0 <= i < |own| ==> TxIndex(txs, own[i].transactionHash) == n
    ensures InTxOrder(txs, g + own) && AllBefore(txs, g + own, n + 1)
  {
  }

  lemma {:induction false} OwnIndex(txs: seq<RawTx>, n: nat)
    requires DistinctHashes(txs) && n < |txs|
    ensures TxIndex(txs, txs[n].hash) == n
  {
  }

  /** The grouping of any logs is in transaction order, and its logs have an owner. */
  lemma {:induction false} GroupedIsOrdered(txs: seq<RawTx>, logs: seq<RawLog>, n: nat)
    requires DistinctHashes(txs) && n <= |txs|
    ensures InTxOrder(txs, Grouped(WithLogs(txs[..n], logs)))
    ensures AllBefore(txs, Grouped(WithLogs(txs[..n], logs)), n)
  {
    if n > 0 {
      assert txs[..n][..n - 1] == txs[..n - 1] && txs[..n][n - 1] == txs[n - 1];
      WithLogsFront(txs[..n], logs);
      GroupedIsOrdered(txs, logs, n - 1);
      OwnIndex(txs, n - 1);
      AppendingLastTxKeepsOrder(txs, Grouped(WithLogs(txs[..n - 1], logs)), LogsOfTx(logs, txs[n - 1].hash), n - 1);
    }
  }

  /** Grouping by transaction changes nothing exactly when the logs are owned and in order. */
  lemma {:induction false} GroupingIsIdentityExactly(txs: seq<RawTx>, logs: seq<RawLog>)
    requires DistinctHashes(txs)
    ensures Grouped(WithLogs(txs, logs)) == logs <==> Owned(txs, logs) && InTxOrder(txs, logs)
  {
    if Owned(txs, logs) && InTxOrder(txs, logs) {
      OrderedLogsAreGrouped(txs, logs);
    }
    assert txs[..|txs|] == txs;
    GroupedIsOrdered(txs, logs, |txs|);
  }

  // ---------- light against full ----------

  const ALL_LOGS := IndexDs(true, Datasource(Undefined, [EventHandler("handleLog", None)]))

  lemma {:induction false} CatchAllCalls(passes: Filter, logs: seq<RawLog>)
    requires forall hd, ds, data :: passes(hd, ds, data)
    ensures var calls := LogCalls(passes, [ALL_LOGS], logs);
      |calls| == |logs| && forall i :: 0 <= i < |logs| ==> calls[i].data == LogData(logs[i])
  {
    if logs != [] {
      CatchAllCalls(passes, logs[..|logs| - 1]);
      var data := LogData(logs[|logs| - 1]);
      assert IndexData(passes, EventKind, data, 0, ALL_LOGS, 1)
          == IndexData(passes, EventKind, data, 0, ALL_LOGS, 0) + [HandlerCall(0, ALL_LOGS.source.handlers[0], data)];
      assert CallsFor(passes, EventKind, data, [ALL_LOGS], 1)
          == CallsFor(passes, EventKind, data, [ALL_LOGS], 0) + IndexData(passes, EventKind, data, 0, ALL_LOGS, 1);
    }
  }

  /** The calls that a fetched block leads to; a failed fetch fails. */
  function CallsAfter(passes: Filter, dss: seq<IndexDs>, fetched: Result<Block>): Result<seq<HandlerCall>> {
    match fetched
    case Ok(block) => Ok(BlockCalls(passes, dss, block))
    case Err(error) => Err(error)
  }

  ghost predicate SameCallsForAllProjects(hash: string, txs: seq<RawTx>, logs: seq<RawLog>) {
    forall passes: Filter, dss ::
      OfEventOnlyProject(dss) ==>
        CallsAfter(passes, dss, FetchFull(hash, txs, logs)) == CallsAfter(passes, dss, FetchLight(hash, txs, logs))
  }

  /** The logs of a full block in the order in which its indexing reaches them. */
  function IndexedLogs(txs: seq<RawTx>, logs: seq<RawLog>): seq<RawLog> {
    if txs == [] then logs else Grouped(WithLogs(txs, logs))
  }

  lemma {:induction false} SameLogsSameCalls(hash: string, txs: seq<RawTx>, logs: seq<RawLog>)
    requires OfThisBlock(hash, logs) && IndexedLogs(txs, logs) == logs
    ensures SameCallsForAllProjects(hash, txs, logs)
  {
    forall passes: Filter, dss | OfEventOnlyProject(dss)
      ensures CallsAfter(passes, dss, FetchFull(hash, txs, logs))
           == CallsAfter(passes, dss, FetchLight(hash, txs, logs))
    {
      EventOnlyProjects(dss);
      EventOnlyFullBlock(passes, dss, hash, txs, logs);
    }
  }

  /** A handler that accepts every log sees the logs in the order in which they are indexed. */
  lemma {:induction false} SameCallsSameLogs(hash: string, txs: seq<RawTx>, logs: seq<RawLog>)
    requires SameCallsForAllProjects(hash, txs, logs)
    ensures OfThisBlock(hash, logs) && IndexedLogs(txs, logs) == logs
  {
    var passes: Filter := (_, _, _) => true;
    var dss, indexed := [ALL_LOGS], IndexedLogs(txs, logs);
    assert EventOnly(dss);
    EventOnlyProjects(dss);
    assert CallsAfter(passes, dss, FetchFull(hash, txs, logs)) == CallsAfter(passes, dss, FetchLight(hash, txs, logs));
    EventOnlyFullBlock(passes, dss, hash, txs, logs);
    CatchAllCalls(passes, logs);
    CatchAllCalls(passes, indexed);
    forall i | 0 <= i < |logs|
      ensures indexed[i] == logs[i]
    {
      assert LogCalls(passes, dss, logs)[i].data == LogData(indexed[i]);
    }
  }

  /** Main result: skipping transactions leaves the sequence of handler calls of every event-only
      project unchanged if and only if all logs are of this block, and it has no transactions or each
      log belongs to one of them and the logs follow their order. */
  lemma {:induction false} LightRefinesFullExactly(hash: string, txs: seq<RawTx>, logs: seq<RawLog>)
    requires DistinctHashes(txs)
    ensures SameCallsForAllProjects(hash, txs, logs)
       <==> OfThisBlock(hash, logs) && (txs == [] || (Owned(txs, logs) && InTxOrder(txs, logs)))
  {
    GroupingIsIdentityExactly(txs, logs);
    if OfThisBlock(hash, logs) && IndexedLogs(txs, logs) == logs {
      SameLogsSameCalls(hash, txs, logs);
    } else if SameCallsForAllProjects(hash, txs, logs) {
      SameCallsSameLogs(hash, txs, logs);
    }
  }

  // ---------- without the ordering ----------

  lemma {:induction false} LogCallsWithout(passes: Filter, dss: seq<IndexDs>, logs: seq<RawLog>, k: nat)
    requires k < |logs|
    ensures multiset(LogCalls(passes, dss, logs)) == multiset(LogCalls(passes, dss, logs[..k] + logs[k + 1..]))
                                                   + multiset(CallsFor(passes, EventKind, LogData(logs[k]), dss, |dss|))
  {
    var before, after := logs[..k], logs[k + 1..];
    assert logs == (before + [logs[k]]) + after;
    LogCallsConcat(passes, dss, before + [logs[k]], after);
    LogCallsConcat(passes, dss, before, after);
    assert (before + [logs[k]])[..k] == before;
  }

  lemma {:induction false} LogCallsDependOnBag(passes: Filter, dss: seq<IndexDs>, a: seq<RawLog>, b: seq<RawLog>)
    requires multiset(a) == multiset(b)
    ensures multiset(LogCalls(passes, dss, a)) == multiset(LogCalls(passes, dss, b))
    decreases |a|
  {
    if a == [] {
      assert |multiset(b)| == 0;
    } else {
      var k := SameBagHas(a, b);
      LogCallsWithout(passes, dss, b, k);
      LogCallsDependOnBag(passes, dss, a[..|a| - 1], b[..k] + b[k + 1..]);
    }
  }

  lemma {:induction false} SameBagHas(a: seq<RawLog>, b: seq<RawLog>) returns (k: nat)
    requires a != [] && multiset(a) == multiset(b)
    ensures k < |b| && b[k] == a[|a| - 1]
    ensures multiset(a[..|a| - 1]) == multiset(b[..k] + b[k + 1..])
  {
    var last := a[|a| - 1];
    assert a == a[..|a| - 1] + [last];
    assert last in multiset(b);
    k :| 0 <= k < |b| && b[k] == last;
    assert b == b[..k] + [last] + b[k + 1..];
    assert multiset(b) == multiset(b[..k] + b[k + 1..]) + multiset{last};
    assert multiset(a[..|a| - 1]) == multiset(a) - multiset{last};
    assert multiset(b[..k] + b[k + 1..]) == multiset(b) - multiset{last};
  }

  lemma {:induction false} GroupedBag(txs: seq<RawTx>, logs: seq<RawLog>)
    requires DistinctHashes(txs) && Owned(txs, logs)
    ensures multiset(Grouped(WithLogs(txs, logs))) == multiset(logs)
  {
    if logs == [] {
      GroupedOfNone(txs);
    } else {
      var front, last := logs[..|logs| - 1], logs[|logs| - 1];
      assert logs == front + [last];
      GroupedBag(txs, front);
      GroupedGrows(txs, front, last);
    }
  }

  lemma {:induction false} GroupedOfNone(txs: seq<RawTx>)
    ensures Grouped(WithLogs(txs, [])) == []
  {
    if txs != [] {
      WithLogsFront(txs, []);
      GroupedOfNone(txs[..|txs| - 1]);
    }
  }

  function OneIf(c: bool, l: RawLog): multiset<RawLog> {
    if c then multiset{l} else multiset{}
  }

  lemma {:induction false} LogsOfTxGrows(logs: seq<RawLog>, l: RawLog, hash: string)
    ensures multiset(LogsOfTx(logs + [l], hash)) == multiset(LogsOfTx(logs, hash)) + OneIf(l.transactionHash == hash, l)
  {
    assert (logs + [l])[..|logs|] == logs;
  }

  lemma {:induction false} GroupedSnoc(txs: seq<RawTx>, logs: seq<RawLog>)
    requires txs != []
    ensures multiset(Grouped(WithLogs(txs, logs)))
         == multiset(Grouped(WithLogs(txs[..|txs| - 1], logs))) + multiset(LogsOfTx(logs, txs[|txs| - 1].hash))
  {
    WithLogsFront(txs, logs);
  }

  lemma OneIfEither(p: bool, q: bool, l: RawLog)
    requires !(p && q)
    ensures OneIf(p, l) + OneIf(q, l) == OneIf(p || q, l)
  {
  }

  lemma RegroupBags<T>(a: multiset<T>, b: multiset<T>, c: multiset<T>, d: multiset<T>)
    ensures (a + b) + (c + d) == (a + c) + (b + d)
  {
  }

  lemma {:induction false} GroupedGrows(txs: seq<RawTx>, logs: seq<RawLog>, l: RawLog)
    requires DistinctHashes(txs)
    ensures multiset(Grouped(WithLogs(txs, logs + [l])))
         == multiset(Grouped(WithLogs(txs, logs))) + OneIf(TxIndex(txs, l.transactionHash) < |txs|, l)
  {
    if txs != [] {
      var front, hash := txs[..|txs| - 1], txs[|txs| - 1].hash;
      var inFront, isLast := TxIndex(front, l.transactionHash) < |front|, l.transactionHash == hash;
      GroupedSnoc(txs, logs + [l]);
      GroupedSnoc(txs, logs);
      GroupedGrows(front, logs, l);
      LogsOfTxGrows(logs, l, hash);
      TxIndexOfFront(txs, l.transactionHash);
      OneIfEither(inFront, isLast, l);
      RegroupBags(multiset(Grouped(WithLogs(front, logs))), OneIf(inFront, l),
                  multiset(LogsOfTx(logs, hash)), OneIf(isLast, l));
    }
  }

  /** Grouping drops exactly the logs that no transaction owns. */
  lemma {:induction false} GroupedLosesOrphans(txs: seq<RawTx>, logs: seq<RawLog>)
    requires DistinctHashes(txs)
    ensures |Grouped(WithLogs(txs, logs))| <= |logs|
    ensures |Grouped(WithLogs(txs, logs))| == |logs| ==> Owned(txs, logs)
  {
    if logs == [] {
      GroupedOfNone(txs);
    } else {
      var front, last := logs[..|logs| - 1], logs[|logs| - 1];
      assert logs == front + [last];
      GroupedLosesOrphans(txs, front);
      GroupedGrows(txs, front, last);
      assert |Grouped(WithLogs(txs, logs))| == |multiset(Grouped(WithLogs(txs, logs)))|;
      assert |Grouped(WithLogs(txs, front))| == |multiset(Grouped(WithLogs(txs, front)))|;
    }
  }

  ghost predicate SameBag(passes: Filter, dss: seq<IndexDs>, hash: string, txs: seq<RawTx>, logs: seq<RawLog>) {
    var full := CallsAfter(passes, dss, FetchFull(hash, txs, logs));
    var light := CallsAfter(passes, dss, FetchLight(hash, txs, logs));
    full.Ok? && light.Ok? && multiset(full.value) == multiset(light.value)
  }

  ghost predicate SameBagForAllProjects(hash: string, txs: seq<RawTx>, logs: seq<RawLog>) {
    forall passes: Filter, dss :: OfEventOnlyProject(dss) ==> SameBag(passes, dss, hash, txs, logs)
  }

  lemma {:induction false} OwnedLogsSameBag(hash: string, txs: seq<RawTx>, logs: seq<RawLog>)
    requires DistinctHashes(txs) && OfThisBlock(hash, logs) && (txs == [] || Owned(txs, logs))
    ensures SameBagForAllProjects(hash, txs, logs)
  {
    forall passes: Filter, dss | OfEventOnlyProject(dss)
      ensures SameBag(passes, dss, hash, txs, logs)
    {
      EventOnlyProjects(dss);
      EventOnlyFullBlock(passes, dss, hash, txs, logs);
      if txs != [] {
        GroupedBag(txs, logs);
        LogCallsDependOnBag(passes, dss, Grouped(WithLogs(txs, logs)), logs);
      }
    }
  }

  lemma {:induction false} SameBagSameCount(hash: string, txs: seq<RawTx>, logs: seq<RawLog>)
    requires SameBagForAllProjects(hash, txs, logs)
    ensures OfThisBlock(hash, logs) && |IndexedLogs(txs, logs)| == |logs|
  {
    var passes: Filter := (_, _, _) => true;
    assert EventOnly([ALL_LOGS]);
    EventOnlyProjects([ALL_LOGS]);
    assert SameBag(passes, [ALL_LOGS], hash, txs, logs);
    CatchAllCount(passes, hash, txs, logs);
  }

  lemma {:induction false} CatchAllCount(passes: Filter, hash: string, txs: seq<RawTx>, logs: seq<RawLog>)
    requires forall hd, ds, data :: passes(hd, ds, data)
    requires EventOnly([ALL_LOGS])
    requires SameBag(passes, [ALL_LOGS], hash, txs, logs)
    ensures OfThisBlock(hash, logs) && |IndexedLogs(txs, logs)| == |logs|
  {
    EventOnlyFullBlock(passes, [ALL_LOGS], hash, txs, logs);
    CatchAllCalls(passes, logs);
    CatchAllCalls(passes, IndexedLogs(txs, logs));
    SameBagSameLength(LogCalls(passes, [ALL_LOGS], IndexedLogs(txs, logs)), LogCalls(passes, [ALL_LOGS], logs));
  }

  lemma {:induction false} SameBagSameLength(a: seq<HandlerCall>, b: seq<HandlerCall>)
    requires multiset(a) == multiset(b)
    ensures |a| == |b|
  {
    assert |multiset(a)| == |a| && |multiset(b)| == |b|;
  }

  /** Main result: in any log order, light and full forms make the same calls, counted with
      multiplicity, if and only if all logs are of this block and none lacks its transaction. */
  lemma {:induction false} LightKeepsCallsExactly(hash: string, txs: seq<RawTx>, logs: seq<RawLog>)
    requires DistinctHashes(txs)
    ensures SameBagForAllProjects(hash, txs, logs) <==> OfThisBlock(hash, logs) && (txs == [] || Owned(txs, logs))
  {
    if OfThisBlock(hash, logs) && (txs == [] || Owned(txs, logs)) {
      OwnedLogsSameBag(hash, txs, logs);
    } else if SameBagForAllProjects(hash, txs, logs) {
      SameBagSameCount(hash, txs, logs);
      GroupedLosesOrphans(txs, logs);
    }
  }

  // ---------- what a handler cannot see ----------

  /** The getter `transaction` of a formatted log: it searches the transactions of the log's block, which
      are plain hashes in a light block. */
  function TransactionSeen(b: Block, l: RawLog): Option<FullTx> {
    match b.transactions
    case Light(_) => None
    case Full(txs) => FindTx(txs, l.transactionHash)
  }

  function FindTx(txs: seq<FullTx>, hash: string): (r: Option<FullTx>)
    ensures r.None? <==> forall i :: 0 <= i < |txs| ==> txs[i].tx.hash != hash
    ensures r.Some? ==> r.value in txs && r.value.tx.hash == hash
  {
    if txs == [] then None else if txs[0].tx.hash == hash then Some(txs[0]) else FindTx(txs[1..], hash)
  }

  /** What a handler cannot see of a light block: a log of it has no transaction, while in the full block
      it has one whenever the block does, and that transaction lists the log. */
  lemma LightLogsLoseTheirTransaction(hash: string, txs: seq<RawTx>, logs: seq<RawLog>, l: RawLog)
    requires l in logs
    ensures TransactionSeen(LightBlockOf(hash, txs, logs), l) == None
    ensures var seen := TransactionSeen(FullBlockOf(hash, txs, logs), l);
      && (seen.Some? <==> exists tx :: tx in txs && tx.hash == l.transactionHash)
      && (seen.Some? ==> seen.value.tx in txs && l in seen.value.logs)
  {
    var full := WithLogs(txs, logs);
    var seen := TransactionSeen(FullBlockOf(hash, txs, logs), l);
    if tx :| tx in txs && tx.hash == l.transactionHash {
      var i :| 0 <= i < |txs| && txs[i] == tx;
      assert full[i].tx.hash == l.transactionHash;
    }
    if seen.Some? {
      var i :| 0 <= i < |full| && full[i] == seen.value;
      LogsOfTxHas(logs, l, l.transactionHash);
    }
  }

  lemma {:induction false} LogsOfTxHas(logs: seq<RawLog>, l: RawLog, hash: string)
    requires l in logs && l.transactionHash == hash
    ensures l in LogsOfTx(logs, hash)
  {
    if l != logs[|logs| - 1] {
      LogsOfTxHas(logs[..|logs| - 1], l, hash);
    }
  }
}
