/** Which handler calls a block leads to, and in which order, said of a flat schedule of its items. */
module CallOrder {
  import opened Collections
  import opened Datasources
  import opened BlockFilters
  import opened BlockIndexing

  // ---------- one item ----------

  function KindOfData(data: Data): Kind {
    match data
    case BlockData(_) => BlockKind
    case TxData(_) => CallKind
    case LogData(_) => EventKind
  }

  /** The k-th handler of the d-th datasource is of the item's kind and lets it pass. */
  predicate Called(passes: Filter, data: Data, dss: seq<IndexDs>, d: nat, k: nat) {
    && d < |dss| && k < |dss[d].source.handlers|
    && var hd := dss[d].source.handlers[k];
       KindOf(hd) == KindOfData(data) && passes(hd, dss[d], data)
  }

  lemma {:induction false} HandlersCalled(passes: Filter, data: Data, dss: seq<IndexDs>, d: nat, n: nat)
    returns (ks: seq<nat>)
    requires d < |dss| && n <= |dss[d].source.handlers|
    ensures var calls := IndexData(passes, KindOfData(data), data, d, dss[d], n);
      && |calls| == |ks|
      && forall i :: 0 <= i < |ks| ==>
           Called(passes, data, dss, d, ks[i]) && calls[i] == HandlerCall(d, dss[d].source.handlers[ks[i]], data)
    ensures forall i, j :: 0 <= i < j < |ks| ==> ks[i] < ks[j]
    ensures forall k :: k in ks <==> 0 <= k < n && Called(passes, data, dss, d, k)
  {
    ks := [];
    if n > 0 {
      ks := HandlersCalled(passes, data, dss, d, n - 1);
      assert forall i :: 0 <= i < |ks| ==> ks[i] in ks;
      if Called(passes, data, dss, d, n - 1) {
        ks := ks + [n - 1];
      }
    }
  }

  /** Datasource by datasource, and within one handler by handler. */
  predicate Before(p: (nat, nat), q: (nat, nat)) {
    p.0 < q.0 || (p.0 == q.0 && p.1 < q.1)
  }

  /** Main result: an item leads to one call for each handler that lets it pass, datasources in order and the
      handlers of each in order. */
  lemma {:induction false} ItemCallsExactly(passes: Filter, data: Data, dss: seq<IndexDs>, n: nat)
    returns (ps: seq<(nat, nat)>)
    requires n <= |dss|
    ensures var calls := CallsFor(passes, KindOfData(data), data, dss, n);
      && |calls| == |ps|
      && forall i :: 0 <= i < |ps| ==>
           && Called(passes, data, dss, ps[i].0, ps[i].1)
           && calls[i] == HandlerCall(ps[i].0, dss[ps[i].0].source.handlers[ps[i].1], data)
    ensures forall i, j :: 0 <= i < j < |ps| ==> Before(ps[i], ps[j])
    ensures forall d, k :: (d, k) in ps <==> 0 <= d < n && 0 <= k && Called(passes, data, dss, d, k)
  {
    ps := [];
    if n > 0 {
      var front := ItemCallsExactly(passes, data, dss, n - 1);
      var ks := HandlersCalled(passes, data, dss, n - 1, |dss[n - 1].source.handlers|);
      var last: seq<(nat, nat)> := seq(|ks|, i requires 0 <= i < |ks| => (n - 1, ks[i]));
      assert forall i :: 0 <= i < |front| ==> (front[i].0, front[i].1) in front;
      assert forall i :: 0 <= i < |ks| ==> last[i] == (n - 1, ks[i]);
      assert forall d, k :: (d, k) in last <==> d == n - 1 && k in ks;
      ps := front + last;
    }
  }

  lemma ItemCallsHave(passes: Filter, data: Data, dss: seq<IndexDs>, c: HandlerCall)
    ensures c in CallsFor(passes, KindOfData(data), data, dss, |dss|)
       <==> && c.data == data && c.ds < |dss| && c.handler in dss[c.ds].source.handlers
            && KindOf(c.handler) == KindOfData(data) && passes(c.handler, dss[c.ds], data)
  {
    var ps := ItemCallsExactly(passes, data, dss, |dss|);
    var calls := CallsFor(passes, KindOfData(data), data, dss, |dss|);
    if c in calls {
      var i :| 0 <= i < |calls| && calls[i] == c;
      assert Called(passes, data, dss, ps[i].0, ps[i].1);
    }
    if c.data == data && c.ds < |dss| && c.handler in dss[c.ds].source.handlers
       && KindOf(c.handler) == KindOfData(data) && passes(c.handler, dss[c.ds], data) {
      var k :| 0 <= k < |dss[c.ds].source.handlers| && dss[c.ds].source.handlers[k] == c.handler;
      assert (c.ds, k) in ps;
      var i :| 0 <= i < |ps| && ps[i] == (c.ds, k);
      assert calls[i] == c;
    }
  }

  // ---------- the schedule of a block ----------

  function LogItems(logs: seq<RawLog>): (r: seq<Data>)
    ensures |r| == |logs| && forall i :: 0 <= i < |r| ==> r[i] == LogData(logs[i])
  {
    seq(|logs|, i requires 0 <= i < |logs| => LogData(logs[i]))
  }

  function TxItems(txs: seq<FullTx>): seq<Data> {
    if txs == [] then []
    else TxItems(txs[..|txs| - 1]) + [TxData(txs[|txs| - 1])] + LogItems(txs[|txs| - 1].logs)
  }

  /** The items offered to the handlers: a full block, then each transaction with its logs; or just the logs. */
  function Schedule(b: Block): seq<Data> {
    if b.transactions.Full? && b.transactions.txs != [] then [BlockData(b)] + TxItems(b.transactions.txs)
    else LogItems(b.logs)
  }

  /** The place of the k-th transaction among the items of the transactions. */
  function Place(txs: seq<FullTx>, k: nat): nat
    requires k <= |txs|
  {
    if k == 0 then 0 else Place(txs, k - 1) + 1 + |txs[k - 1].logs|
  }

  lemma {:induction false} PlaceInFront(txs: seq<FullTx>, k: nat)
    requires k < |txs|
    ensures Place(txs[..|txs| - 1], k) == Place(txs, k)
  {
    if k > 0 {
      PlaceInFront(txs, k - 1);
    }
  }

  lemma {:induction false} TxItemsLength(txs: seq<FullTx>)
    ensures |TxItems(txs)| == Place(txs, |txs|)
  {
    if txs != [] {
      TxItemsLength(txs[..|txs| - 1]);
      PlaceInFront(txs, |txs| - 1);
    }
  }

  /** Each transaction is followed by its logs, transactions and logs in their order. */
  lemma {:induction false} TxItemsExactly(txs: seq<FullTx>, k: nat)
    requires k < |txs|
    ensures Place(txs, k) + |txs[k].logs| < |TxItems(txs)|
    ensures TxItems(txs)[Place(txs, k)] == TxData(txs[k])
    ensures forall m :: 0 <= m < |txs[k].logs| ==> TxItems(txs)[Place(txs, k) + 1 + m] == LogData(txs[k].logs[m])
  {
    var front := txs[..|txs| - 1];
    TxItemsLength(front);
    PlaceInFront(txs, k);
    if k < |front| {
      TxItemsExactly(front, k);
    }
  }

  /** The calls of a sequence of items. */
  function ItemsCalls(passes: Filter, dss: seq<IndexDs>, items: seq<Data>): seq<HandlerCall> {
    if items == [] then []
    else
      var last := items[|items| - 1];
      ItemsCalls(passes, dss, items[..|items| - 1]) + CallsFor(passes, KindOfData(last), last, dss, |dss|)
  }

  lemma ConcatAssociates<T>(a: seq<T>, b: seq<T>, c: seq<T>)
    ensures a + b + c == a + (b + c)
  {
  }

  lemma {:induction false} ItemsCallsConcat(passes: Filter, dss: seq<IndexDs>, a: seq<Data>, b: seq<Data>)
    ensures ItemsCalls(passes, dss, a + b) == ItemsCalls(passes, dss, a) + ItemsCalls(passes, dss, b)
  {
    if b == [] {
      assert a + b == a;
    } else {
      var front, last := b[..|b| - 1], b[|b| - 1];
      assert (a + b)[..|a + b| - 1] == a + front;
      ItemsCallsConcat(passes, dss, a, front);
      ConcatAssociates(ItemsCalls(passes, dss, a), ItemsCalls(passes, dss, front),
                       CallsFor(passes, KindOfData(last), last, dss, |dss|));
    }
  }

  lemma {:induction false} OneItemCalls(passes: Filter, dss: seq<IndexDs>, data: Data)
    ensures ItemsCalls(passes, dss, [data]) == CallsFor(passes, KindOfData(data), data, dss, |dss|)
  {
    assert [data][..0] == [];
  }

  lemma {:induction false} LogItemsCalls(passes: Filter, dss: seq<IndexDs>, logs: seq<RawLog>)
    ensures ItemsCalls(passes, dss, LogItems(logs)) == LogCalls(passes, dss, logs)
  {
    if logs != [] {
      LogItemsCalls(passes, dss, logs[..|logs| - 1]);
      assert LogItems(logs)[..|logs| - 1] == LogItems(logs[..|logs| - 1]);
    }
  }

  lemma {:induction false} TxItemsCalls(passes: Filter, dss: seq<IndexDs>, txs: seq<FullTx>)
    ensures ItemsCalls(passes, dss, TxItems(txs)) == TxCalls(passes, dss, txs)
  {
    if txs != [] {
      var front, tx := txs[..|txs| - 1], txs[|txs| - 1];
      TxItemsCalls(passes, dss, front);
      ItemsCallsConcat(passes, dss, TxItems(front) + [TxData(tx)], LogItems(tx.logs));
      ItemsCallsConcat(passes, dss, TxItems(front), [TxData(tx)]);
      OneItemCalls(passes, dss, TxData(tx));
      LogItemsCalls(passes, dss, tx.logs);
    }
  }

  /** Main result: the calls of a block are those of its schedule, item by item. */
  lemma {:induction false} CallsFollowSchedule(passes: Filter, dss: seq<IndexDs>, b: Block)
    ensures BlockCalls(passes, dss, b) == ItemsCalls(passes, dss, Schedule(b))
  {
    if IsFullBlock(b) {
      ItemsCallsConcat(passes, dss, [BlockData(b)], TxItems(b.transactions.txs));
      OneItemCalls(passes, dss, BlockData(b));
      TxItemsCalls(passes, dss, b.transactions.txs);
    } else {
      LogItemsCalls(passes, dss, b.logs);
    }
  }

  // ---------- consequences for a block ----------

  lemma {:induction false} ItemsCallsHave(passes: Filter, dss: seq<IndexDs>, items: seq<Data>, c: HandlerCall)
    ensures c in ItemsCalls(passes, dss, items)
       <==> && c.data in items && c.ds < |dss| && c.handler in dss[c.ds].source.handlers
            && KindOf(c.handler) == KindOfData(c.data) && passes(c.handler, dss[c.ds], c.data)
  {
    if items != [] {
      var front, last := items[..|items| - 1], items[|items| - 1];
      ItemsCallsHave(passes, dss, front, c);
      ItemCallsHave(passes, last, dss, c);
      assert items == front + [last];
    }
  }

  lemma {:induction false} TxItemsHave(txs: seq<FullTx>, data: Data)
    ensures data in TxItems(txs)
       <==> match data
            case BlockData(_) => false
            case TxData(tx) => tx in txs
            case LogData(l) => exists tx :: tx in txs && l in tx.logs
  {
    if txs != [] {
      var front, last := txs[..|txs| - 1], txs[|txs| - 1];
      TxItemsHave(front, data);
      assert txs == front + [last];
      assert forall l :: LogData(l) in LogItems(last.logs) <==> l in last.logs by {
        forall l | l in last.logs
          ensures LogData(l) in LogItems(last.logs)
        {
          var i :| 0 <= i < |last.logs| && last.logs[i] == l;
          assert LogItems(last.logs)[i] == LogData(l);
        }
      }
    }
  }

  /** Main result: for a full block a handler is called with the block, with a transaction of it, or with a log
      of one of its transactions, exactly when it is of that kind and lets the item pass. */
  lemma FullBlockCallsExactly(passes: Filter, dss: seq<IndexDs>, b: Block, c: HandlerCall)
    requires IsFullBlock(b)
    ensures c in BlockCalls(passes, dss, b)
       <==> && c.ds < |dss| && c.handler in dss[c.ds].source.handlers && passes(c.handler, dss[c.ds], c.data)
            && match c.data
               case BlockData(block) => c.handler.BlockHandler? && block == b
               case TxData(tx) => c.handler.CallHandler? && tx in b.transactions.txs
               case LogData(l) => c.handler.EventHandler? && exists tx :: tx in b.transactions.txs && l in tx.logs
  {
    CallsFollowSchedule(passes, dss, b);
    ItemsCallsHave(passes, dss, Schedule(b), c);
    TxItemsHave(b.transactions.txs, c.data);
  }

  predicate ForBlock(c: HandlerCall) {
    c.data.BlockData?
  }

  /** Main result: the calls with the block come first, before all calls with transactions and logs. */
  lemma BlockHandlersComeFirst(passes: Filter, dss: seq<IndexDs>, b: Block)
    requires IsFullBlock(b)
    ensures var first := ItemsCalls(passes, dss, [BlockData(b)]);
      var rest := ItemsCalls(passes, dss, TxItems(b.transactions.txs));
      && BlockCalls(passes, dss, b) == first + rest
      && (forall c :: c in first ==> ForBlock(c)) && (forall c :: c in rest ==> !ForBlock(c))
  {
    var items := TxItems(b.transactions.txs);
    CallsFollowSchedule(passes, dss, b);
    ItemsCallsConcat(passes, dss, [BlockData(b)], items);
    forall c
      ensures c in ItemsCalls(passes, dss, [BlockData(b)]) ==> ForBlock(c)
      ensures c in ItemsCalls(passes, dss, items) ==> !ForBlock(c)
    {
      ItemsCallsHave(passes, dss, [BlockData(b)], c);
      ItemsCallsHave(passes, dss, items, c);
      TxItemsHave(b.transactions.txs, c.data);
    }
  }

  /** Main result: among those, the calls with the k-th transaction come after all calls with earlier
      transactions and their logs, before those with its own logs, and these before all later ones. */
  lemma TransactionsComeInTurn(passes: Filter, dss: seq<IndexDs>, txs: seq<FullTx>, k: nat)
    requires k < |txs|
    ensures ItemsCalls(passes, dss, TxItems(txs))
         == ItemsCalls(passes, dss, TxItems(txs[..k]))
            + ItemsCalls(passes, dss, [TxData(txs[k])]) + ItemsCalls(passes, dss, LogItems(txs[k].logs))
            + ItemsCalls(passes, dss, TxItems(txs[k + 1..]))
  {
    TxItemsSplit(txs, k);
    var earlier, mine, logs, later := TxItems(txs[..k]), [TxData(txs[k])], LogItems(txs[k].logs), TxItems(txs[k + 1..]);
    ItemsCallsConcat(passes, dss, earlier + mine + logs, later);
    ItemsCallsConcat(passes, dss, earlier + mine, logs);
    ItemsCallsConcat(passes, dss, earlier, mine);
  }

  lemma {:induction false} TxItemsSplit(txs: seq<FullTx>, k: nat)
    requires k < |txs|
    ensures TxItems(txs) == TxItems(txs[..k]) + [TxData(txs[k])] + LogItems(txs[k].logs) + TxItems(txs[k + 1..])
  {
    var n := |txs| - 1;
    if k < n {
      TxItemsSplit(txs[..n], k);
      assert txs[..n][..k] == txs[..k] && txs[..n][k + 1..] == txs[k + 1..][..n - k - 1];
    } else {
      assert txs[k + 1..] == [];
    }
  }

  /** Main result: a light block, or a block without transactions, leads to calls with its logs only. */
  lemma LightBlockCallsExactly(passes: Filter, dss: seq<IndexDs>, b: Block, c: HandlerCall)
    requires !IsFullBlock(b)
    ensures c in BlockCalls(passes, dss, b)
       <==> && c.data.LogData? && c.data.log in b.logs && c.handler.EventHandler?
            && c.ds < |dss| && c.handler in dss[c.ds].source.handlers && passes(c.handler, dss[c.ds], c.data)
  {
    CallsFollowSchedule(passes, dss, b);
    ItemsCallsHave(passes, dss, LogItems(b.logs), c);
    if c.data.LogData? && c.data.log in b.logs {
      var i :| 0 <= i < |b.logs| && b.logs[i] == c.data.log;
      assert LogItems(b.logs)[i] == c.data;
    }
  }
}
