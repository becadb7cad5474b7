/** What it costs that V2 drops handlers that nothing narrows, where V1 stops using the dictionary. */
module DroppedHandlers {
  import opened Collections
  import opened Strings
  import opened FreshValues
  import opened Datasources
  import opened BlockFilters
  import opened Dictionary
  import opened DictionaryV1
  import opened DictionaryV2
  import opened CoverageV1
  import opened CoverageV2
  import opened ProjectCoverage

  // ---------- when V2 uses the dictionary ----------

  /** V2 stops at no group, and keeps some. */
  predicate KeepsOn(dss: seq<Datasource>) {
    && (forall g :: g in GroupedDataSources(dss) ==> !Stops(g))
    && exists g :: g in GroupedDataSources(dss) && (KeptEvent(g) || KeptCall(g))
  }

  lemma UsableV2Exactly(h: Hashing, dss: seq<Datasource>, limit: int)
    ensures UsableV2(h, dss, limit) <==> forall g :: g in GroupedDataSources(dss) ==> !Stops(g)
  {
    var gs := GroupedDataSources(dss);
    GroupsAreDistinct(dss);
    forall i | 0 <= i < |gs|
      ensures GroupsConditions(h, gs, limit)[i].Stop? <==> Stops(gs[i])
    {
      assert gs[i] in gs;
      ConditionsAt(h, gs, limit, i);
      ConditionsByKind(h, gs[i], limit);
    }
  }

  lemma KeptMeansUsed(h: Hashing, dss: seq<Datasource>, limit: int, g: Group)
    requires UsableV2(h, dss, limit) && g in GroupedDataSources(dss) && (KeptEvent(g) || KeptCall(g))
    ensures QueryV2(h, dss, limit) != EMPTY_V2
  {
    var gs := GroupedDataSources(dss);
    var cs := GroupsConditions(h, gs, limit);
    GroupsAreDistinct(dss);
    ConditionsByKind(h, g, limit);
    var i :| 0 <= i < |gs| && gs[i] == g;
    ConditionsAt(h, gs, limit, i);
    if KeptEvent(g) {
      LogConditionsKept(cs, |cs|, i);
    } else {
      TxConditionsKept(cs, |cs|, i);
    }
  }

  lemma UsedMeansKept(h: Hashing, dss: seq<Datasource>, limit: int) returns (g: Group)
    requires UsableV2(h, dss, limit) && QueryV2(h, dss, limit) != EMPTY_V2
    ensures g in GroupedDataSources(dss) && (KeptEvent(g) || KeptCall(g))
  {
    var gs := GroupedDataSources(dss);
    var cs := GroupsConditions(h, gs, limit);
    var all := Collected(cs, |cs|);
    GroupsAreDistinct(dss);
    var i: nat;
    if all.logs != [] {
      i := LogHasGroup(cs, |cs|, all.logs[0]);
    } else {
      i := TxHasGroup(cs, |cs|, all.transactions[0]);
    }
    g := gs[i];
    ConditionsAt(h, gs, limit, i);
    ConditionsByKind(h, g, limit);
  }

  /** V2 uses the dictionary exactly when it stops at no group and keeps some. */
  lemma V2IsUsedExactly(h: Hashing, dss: seq<Datasource>, limit: int)
    ensures QueryV2(h, dss, limit) != EMPTY_V2 <==> KeepsOn(dss)
  {
    UsableV2Exactly(h, dss, limit);
    if KeepsOn(dss) {
      var g :| g in GroupedDataSources(dss) && (KeptEvent(g) || KeptCall(g));
      KeptMeansUsed(h, dss, limit, g);
    }
    if QueryV2(h, dss, limit) != EMPTY_V2 {
      var g := UsedMeansKept(h, dss, limit);
    }
  }

  /** Main result: a V2 query has log conditions iff some event group is kept and transaction conditions iff some
      call group is; no list is empty, and none repeats conditions. */
  lemma V2ListsExactly(h: Hashing, dss: seq<Datasource>, limit: int)
    requires UsableV2(h, dss, limit)
    ensures var q, gs := QueryV2(h, dss, limit), GroupedDataSources(dss);
      && (q.logs.Some? <==> exists g :: g in gs && KeptEvent(g))
      && (q.transactions.Some? <==> exists g :: g in gs && KeptCall(g))
      && (q.logs.Some? ==>
            q.logs.value != [] && forall i, j :: 0 <= i < j < |q.logs.value| ==> q.logs.value[i] != q.logs.value[j])
      && (q.transactions.Some? ==>
            var txs := q.transactions.value;
            txs != [] && forall i, j :: 0 <= i < j < |txs| ==> txs[i] != txs[j])
  {
    var gs := GroupedDataSources(dss);
    var cs := GroupsConditions(h, gs, limit);
    var all := Collected(cs, |cs|);
    GroupsAreDistinct(dss);
    forall i | 0 <= i < |gs|
      ensures KeptEvent(gs[i]) ==> all.logs != []
      ensures KeptCall(gs[i]) ==> all.transactions != []
    {
      ConditionsAt(h, gs, limit, i);
      ConditionsByKind(h, gs[i], limit);
      if KeptEvent(gs[i]) {
        LogConditionsKept(cs, |cs|, i);
      }
      if KeptCall(gs[i]) {
        TxConditionsKept(cs, |cs|, i);
      }
    }
    if all.logs != [] {
      var i := LogHasGroup(cs, |cs|, all.logs[0]);
      ConditionsAt(h, gs, limit, i);
      ConditionsByKind(h, gs[i], limit);
    }
    if all.transactions != [] {
      var i := TxHasGroup(cs, |cs|, all.transactions[0]);
      ConditionsAt(h, gs, limit, i);
      ConditionsByKind(h, gs[i], limit);
    }
  }

  // ---------- when a V2 query selects everything ----------

  /** A kept event group that tests neither addresses nor topics. */
  predicate OpenEvent(g: Group, limit: int) {
    && KeptEvent(g) && !Narrowing(g.addresses, limit)
    && var ts := FilterTopics(g.handler.logFilter);
       forall i :: 0 <= i < |ts| ==> !Truthy(ts[i]) || IsNotNull(ts[i])
  }

  /** A kept call group that tests nothing; V2 turns a null function and `0x` into no test. */
  predicate OpenCall(g: Group, limit: int) {
    && KeptCall(g) && !Narrowing(g.addresses, limit)
    && (g.handler.txFilter.Some? ==>
          var f := g.handler.txFilter.value;
          !Truthy(f.from) && f.to.Undefined? && (!Truthy(f.func) || f.func == Str("0x")))
  }

  lemma UntestedIsNotListed(g: Group, limit: int, address: string)
    requires ToLower(address) == address && Untested(g, address)
    ensures AddressAllowed(g.addresses, limit, Some(address)) <==> !Narrowing(g.addresses, limit)
  {
    assert forall i :: 0 <= i < |g.addresses| ==> g.addresses[i] in g.addresses;
  }

  lemma OpenEventSelectsAll(h: Hashing, dss: seq<Datasource>, limit: int, g: Group, log: Log)
    requires UsableV2(h, dss, limit) && g in GroupedDataSources(dss) && OpenEvent(g, limit)
    ensures V2Matches(QueryV2(h, dss, limit), RecordOfLog(log))
  {
    GroupsAreDistinct(dss);
    ConditionsByKind(h, g, limit);
    EventConditionsMean(h, g.handler.logFilter, g.addresses, limit, log);
    MatchingGroupMatchesV2(h, dss, limit, g, RecordOfLog(log));
  }

  /** Only an open group selects a log without topics from an address that the group does not test. */
  lemma SelectingUntestedIsOpen(h: Hashing, g: Group, limit: int, address: string)
    requires g.addresses != [] && ToLower(address) == address && Untested(g, address)
    requires ConditionsMatch(h, g, limit, RecordOfLog(Log(address, [])))
    ensures OpenEvent(g, limit)
  {
    ConditionsByKind(h, g, limit);
    EventConditionsMean(h, g.handler.logFilter, g.addresses, limit, Log(address, []));
    UntestedIsNotListed(g, limit, address);
  }

  /** Constraints never add up to "everything": a usable V2 query selects all logs if and only if some kept
      event group is open. */
  lemma SelectsAllLogsExactly(h: Hashing, dss: seq<Datasource>, limit: int)
    requires FitsArray(dss) && UsableV2(h, dss, limit)
    ensures (forall log :: WellFormedLog(log) ==> V2Matches(QueryV2(h, dss, limit), RecordOfLog(log)))
       <==> exists g :: g in GroupedDataSources(dss) && OpenEvent(g, limit)
  {
    if g :| g in GroupedDataSources(dss) && OpenEvent(g, limit) {
      forall log {
        OpenEventSelectsAll(h, dss, limit, g, log);
      }
    } else {
      var address := FreshAddress(dss);
      var log := Log(address, []);
      if V2Matches(QueryV2(h, dss, limit), RecordOfLog(log)) {
        GroupsAreDistinct(dss);
        var g := MatchedV2HasGroup(h, dss, limit, RecordOfLog(log));
        SelectingUntestedIsOpen(h, g, limit, address);
        assert false;
      }
      assert WellFormedLog(log);
    }
  }

  lemma OpenCallSelectsAll(h: Hashing, dss: seq<Datasource>, limit: int, g: Group, tx: Transaction)
    requires WellFormedTx(tx)
    requires UsableV2(h, dss, limit) && g in GroupedDataSources(dss) && OpenCall(g, limit)
    ensures V2Matches(QueryV2(h, dss, limit), RecordOfTx(tx))
  {
    GroupsAreDistinct(dss);
    ConditionsByKind(h, g, limit);
    assert CallSelectedV2(h, g.handler.txFilter, g.addresses, limit, tx);
    CallConditionsMean(h, g.handler.txFilter, g.addresses, limit, tx);
    MatchingGroupMatchesV2(h, dss, limit, g, RecordOfTx(tx));
  }

  /** Only an open group selects a call without input between addresses that the group does not test. */
  lemma SelectingUntestedCallIsOpen(h: Hashing, g: Group, limit: int, address: string)
    requires ProperHashing(h) && g.addresses != []
    requires address != "" && ToLower(address) == address && Untested(g, address)
    requires ConditionsMatch(h, g, limit, RecordOfTx(Transaction(Some(address), Some(address), "0x")))
    ensures OpenCall(g, limit)
  {
    ConditionsByKind(h, g, limit);
    CallConditionsMean(h, g.handler.txFilter, g.addresses, limit, Transaction(Some(address), Some(address), "0x"));
    UntestedIsNotListed(g, limit, address);
    if g.handler.txFilter.Some? && Truthy(g.handler.txFilter.value.func) {
      var sig := FunctionToSighash(h, g.handler.txFilter.value.func.s);
      SighashIsLong(h, g.handler.txFilter.value.func.s);
      assert "0x"[..|sig|] == sig;
    }
  }

  lemma SelectsAllTransactionsExactly(h: Hashing, dss: seq<Datasource>, limit: int)
    requires ProperHashing(h) && FitsArray(dss) && UsableV2(h, dss, limit)
    ensures (forall tx :: WellFormedTx(tx) ==> V2Matches(QueryV2(h, dss, limit), RecordOfTx(tx)))
       <==> exists g :: g in GroupedDataSources(dss) && OpenCall(g, limit)
  {
    if g :| g in GroupedDataSources(dss) && OpenCall(g, limit) {
      forall tx | WellFormedTx(tx) {
        OpenCallSelectsAll(h, dss, limit, g, tx);
      }
    } else {
      var address := FreshAddress(dss);
      var tx := Transaction(Some(address), Some(address), "0x");
      if V2Matches(QueryV2(h, dss, limit), RecordOfTx(tx)) {
        GroupsAreDistinct(dss);
        var g := MatchedV2HasGroup(h, dss, limit, RecordOfTx(tx));
        SelectingUntestedCallIsOpen(h, g, limit, address);
        assert false;
      }
      assert WellFormedTx(tx);
    }
  }

  // ---------- what dropping a handler costs ----------

  ghost predicate MissesLogs(h: Hashing, dss: seq<Datasource>, limit: int) {
    && QueryV2(h, dss, limit) != EMPTY_V2
    && exists log ::
         WellFormedLog(log) && LogWanted(h, dss, log) && !V2Matches(QueryV2(h, dss, limit), RecordOfLog(log))
  }

  ghost predicate MissesTransactions(h: Hashing, dss: seq<Datasource>, limit: int) {
    && QueryV2(h, dss, limit) != EMPTY_V2
    && exists tx :: WellFormedTx(tx) && TxWanted(h, dss, tx) && !V2Matches(QueryV2(h, dss, limit), RecordOfTx(tx))
  }

  /** Nothing narrows a dropped handler: it wants everything. */
  lemma DroppedWantsEverything(h: Hashing, dss: seq<Datasource>, g: Group)
    requires g in GroupedDataSources(dss)
    ensures g.handler.EventHandler? && Dropped(g) ==> forall log :: LogWanted(h, dss, log)
    ensures g.handler.CallHandler? && Dropped(g) ==> forall tx :: TxWanted(h, dss, tx)
  {
    GroupsAreDistinct(dss);
    var a := g.addresses[0];
    GroupAcceptanceIsWanted(h, dss, g, a);
    assert g.handler.EventHandler? && Dropped(g) ==> forall log :: HandlerAcceptsLog(h, g.handler, a, log);
    assert g.handler.CallHandler? && Dropped(g) ==> forall tx :: HandlerAcceptsTx(h, g.handler, a, tx);
  }

  /** Main result: a dropped event handler makes a project lose logs if and only if V2 stops at no group,
      keeps some, and none of the event groups it keeps is open. */
  lemma DroppedEventExactly(h: Hashing, dss: seq<Datasource>, limit: int, g: Group)
    requires FitsArray(dss) && g in GroupedDataSources(dss) && g.handler.EventHandler? && Dropped(g)
    ensures MissesLogs(h, dss, limit)
       <==> KeepsOn(dss) && forall g' :: g' in GroupedDataSources(dss) ==> !OpenEvent(g', limit)
  {
    DroppedWantsEverything(h, dss, g);
    V2IsUsedExactly(h, dss, limit);
    if KeepsOn(dss) {
      UsableV2Exactly(h, dss, limit);
      SelectsAllLogsExactly(h, dss, limit);
    }
  }

  /** Main result: the same for a dropped call handler. */
  lemma {:induction false} DroppedCallExactly(h: Hashing, dss: seq<Datasource>, limit: int, g: Group)
    requires FitsArray(dss) && ProperHashing(h) && g in GroupedDataSources(dss) && g.handler.CallHandler? && Dropped(g)
    ensures MissesTransactions(h, dss, limit)
       <==> KeepsOn(dss) && forall g' :: g' in GroupedDataSources(dss) ==> !OpenCall(g', limit)
  {
    DroppedWantsEverything(h, dss, g);
    V2IsUsedExactly(h, dss, limit);
    if KeepsOn(dss) {
      UsableV2Exactly(h, dss, limit);
      SelectsAllTransactionsExactly(h, dss, limit);
    }
  }

  /** Main result: with topics faithful for V2, a project loses logs under V2 if and only if V2 drops an
      event group, keeps on, and keeps no open event group. */
  lemma FaithfulV2LosesLogsExactly(h: Hashing, dss: seq<Datasource>, limit: int)
    requires FitsArray(dss)
    requires forall g :: g in GroupedDataSources(dss) && g.handler.EventHandler? ==> FaithfulGroupV2(h, g, limit)
    ensures MissesLogs(h, dss, limit)
       <==> && (exists g :: g in GroupedDataSources(dss) && g.handler.EventHandler? && Dropped(g))
            && KeepsOn(dss) && forall g :: g in GroupedDataSources(dss) ==> !OpenEvent(g, limit)
  {
    if g :| g in GroupedDataSources(dss) && g.handler.EventHandler? && Dropped(g) {
      DroppedEventExactly(h, dss, limit, g);
    } else if MissesLogs(h, dss, limit) {
      V2IsUsedExactly(h, dss, limit);
      UsableV2Exactly(h, dss, limit);
      var log :| WellFormedLog(log) && LogWanted(h, dss, log) && !V2Matches(QueryV2(h, dss, limit), RecordOfLog(log));
      V2CoversLogs(h, dss, limit, log);
      assert false;
    }
  }

  /** Main result: the same for transactions and call handlers faithful for V2. */
  lemma {:induction false} FaithfulV2LosesTransactionsExactly(h: Hashing, dss: seq<Datasource>, limit: int)
    requires FitsArray(dss) && ProperHashing(h)
    requires forall g :: g in GroupedDataSources(dss) && g.handler.CallHandler? ==> FaithfulGroupV2(h, g, limit)
    ensures MissesTransactions(h, dss, limit)
       <==> && (exists g :: g in GroupedDataSources(dss) && g.handler.CallHandler? && Dropped(g))
            && KeepsOn(dss) && forall g :: g in GroupedDataSources(dss) ==> !OpenCall(g, limit)
  {
    if g :| g in GroupedDataSources(dss) && g.handler.CallHandler? && Dropped(g) {
      DroppedCallExactly(h, dss, limit, g);
    } else if MissesTransactions(h, dss, limit) {
      V2IsUsedExactly(h, dss, limit);
      UsableV2Exactly(h, dss, limit);
      var tx :| WellFormedTx(tx) && TxWanted(h, dss, tx) && !V2Matches(QueryV2(h, dss, limit), RecordOfTx(tx));
      V2CoversTransactions(h, dss, limit, tx);
      assert false;
    }
  }

  // ---------- a manifest ----------

  const OPEN_HANDLER := EventHandler("handleAny", None)
  const TOKEN_HANDLER := EventHandler("handleToken", Some(LogFilter(None)))
  /** One handler for any log, and one for the logs of a token. */
  function OpenProject(token: string): seq<Datasource> {
    [Datasource(Undefined, [OPEN_HANDLER]), Datasource(Str(token), [TOKEN_HANDLER])]
  }

  lemma SingletonIsUnique<T>(x: T)
    ensures Uniq([x]) == [x]
  {
    var r := Uniq([x]);
    assert |r| < 2 || r[0] != r[1];
    assert x in [x];
    forall i | 0 <= i < |r|
      ensures r[i] == x
    {
      assert r[i] in [x];
    }
  }

  lemma OpenProjectGroups(token: string)
    ensures FitsArray(OpenProject(token))
    ensures GroupedDataSources(OpenProject(token))
         == [Group(OPEN_HANDLER, [Undefined]), Group(TOKEN_HANDLER, [Str(token)])]
  {
    var dss := OpenProject(token);
    var first, second := Pair(Undefined, OPEN_HANDLER), Pair(Str(token), TOKEN_HANDLER);
    PairsOfTwo(dss, first, second);
    GroupsOfTwo(first, second);
    SingletonIsUnique(Field.Undefined);
    SingletonIsUnique(Str(token));
    assert AddressesOf([first]) == [Undefined] && AddressesOf([second]) == [Str(token)];
  }

  lemma {:induction false} PairsOfTwo(dss: seq<Datasource>, first: Pair, second: Pair)
    requires dss == [Datasource(first.address, [first.handler]), Datasource(second.address, [second.handler])]
    ensures Pairs(dss) == [first, second]
  {
    assert PairsOf(dss[0]) == [first] && PairsOf(dss[1]) == [second];
    assert dss[1..] == [dss[1]] && dss[1..][1..] == [];
    assert Pairs(dss[1..]) == [second] + Pairs([]);
  }

  lemma GroupsOfTwo(first: Pair, second: Pair)
    requires KeyOf(first.handler) != KeyOf(second.handler)
    ensures GroupBy([first, second])
         == [Bucket(KeyOf(first.handler), [first]), Bucket(KeyOf(second.handler), [second])]
  {
    var b0, b1 := Bucket(KeyOf(first.handler), [first]), Bucket(KeyOf(second.handler), [second]);
    assert [first, second][..1] == [first] && [first][..0] == [];
    assert GroupBy([first]) == AddToBuckets(GroupBy([]), first) == [b0];
    assert [b0][1..] == [];
    assert AddToBuckets([b0], second) == [b0] + AddToBuckets([b0][1..], second) == [b0, b1];
  }

  function TokenConditions(h: Hashing, token: string): LogConditions {
    EventConditions(h, TOKEN_HANDLER.logFilter, [Str(token)], 100)
  }

  lemma OpenGroups(h: Hashing, token: string)
    requires token != ""
    ensures GroupEntry(h, Group(OPEN_HANDLER, [Field.Undefined]), 100).Unusable?
    ensures ConditionsOf(h, Group(OPEN_HANDLER, [Field.Undefined]), 100) == Skip
    ensures ConditionsOf(h, Group(TOKEN_HANDLER, [Str(token)]), 100) == OfLog(TokenConditions(h, token))
  {
  }

  lemma SkipThenLog(cs: seq<GroupConditions>, c: LogConditions)
    requires cs == [Skip, OfLog(c)]
    ensures V2QueryOfConditions(cs) == V2Query(Some([c]), None)
  {
    assert Collected(cs, 1).logs == Collected(cs, 0).logs == [];
    assert Collected(cs, 2).logs == [c];
    assert Collected(cs, 1).transactions == Collected(cs, 0).transactions == [];
    assert Collected(cs, 2).transactions == [];
    SingletonIsUnique(c);
  }

  lemma OpenProjectQueries(h: Hashing, token: string)
    requires token != ""
    ensures V1Query(h, OpenProject(token), 100) == []
    ensures QueryV2(h, OpenProject(token), 100) == V2Query(Some([TokenConditions(h, token)]), None)
  {
    OpenProjectGroups(token);
    OpenGroups(h, token);
    var gs := GroupedDataSources(OpenProject(token));
    ResultAt(h, gs, 100, 0);
    assert GroupResults(h, gs, 100)[0].Unusable?;
    assert GroupsConditions(h, gs, 100) == [Skip, OfLog(TokenConditions(h, token))];
    SkipThenLog(GroupsConditions(h, gs, 100), TokenConditions(h, token));
  }

  lemma OpenProjectKeepsOn(token: string)
    requires token != ""
    ensures KeepsOn(OpenProject(token))
    ensures forall g :: g in GroupedDataSources(OpenProject(token)) ==> !OpenEvent(g, 100)
  {
    OpenProjectGroups(token);
    var kept := Group(TOKEN_HANDLER, [Str(token)]);
    assert Truthy(kept.addresses[0]) && KeptEvent(kept) && Narrowing(kept.addresses, 100);
    assert kept in GroupedDataSources(OpenProject(token));
    assert Dropped(Group(OPEN_HANDLER, [Field.Undefined]));
  }

  lemma OpenProjectMissesLogs(h: Hashing, token: string)
    requires token != ""
    ensures MissesLogs(h, OpenProject(token), 100)
  {
    OpenProjectGroups(token);
    OpenProjectKeepsOn(token);
    var dropped := Group(OPEN_HANDLER, [Field.Undefined]);
    assert dropped in GroupedDataSources(OpenProject(token));
    DroppedEventExactly(h, OpenProject(token), 100, dropped);
  }

  lemma OpenProjectIsNotInV1(h: Hashing, token: string)
    requires token != ""
    ensures V1Query(h, OpenProject(token), 100) == []
  {
    OpenProjectQueries(h, token);
  }

  /** A manifest, for any token address: a handler without filter or address turns V1 off, but V2 drops it,
      goes on with the other one, and misses logs the project wants. */
  lemma DroppedHandlerMissesLogs(h: Hashing, token: string)
    requires IsAddress(token)
    ensures V1Query(h, OpenProject(token), 100) == [] && QueryV2(h, OpenProject(token), 100) != EMPTY_V2
    ensures exists log ::
      && WellFormedLog(log) && LogWanted(h, OpenProject(token), log)
      && !V2Matches(QueryV2(h, OpenProject(token), 100), RecordOfLog(log))
  {
    OpenProjectIsNotInV1(h, token);
    OpenProjectMissesLogs(h, token);
  }
}
