/** When the merged entry of a call group selects less than the entries of its addresses would. */
module ForgottenAddresses {
  import opened Collections
  import opened Strings
  import opened Datasources
  import opened BlockFilters
  import opened Dictionary
  import opened DictionaryV1
  import opened CoverageV1
  import opened FreshValues
  import opened OwnEntries

  // ---------- one group ----------

  /** Merging forgets the address `a`: some address of the group is missing, so that the entry tests the
      filter's own `to` in place of the addresses, and that `to` is not `a`, whose own entry selects some. */
  predicate Forgotten(h: Hashing, g: Group, limit: int, a: Field) {
    && g.handler.CallHandler? && g.handler.txFilter.Some? && !Narrowing(g.addresses, limit)
    && Selectable(h, g.handler.txFilter.value) && !HopelessAddress(g.handler.txFilter.value.from)
    && Truthy(a) && !HopelessAddress(a)
    && var to := g.handler.txFilter.value.to;
       to.Null? || (Truthy(to) && ToLower(to.s) != ToLower(a.s))
  }

  lemma OwnTxEntryMeans(h: Hashing, g: Group, limit: int, a: Field, tx: Transaction)
    requires g.handler.CallHandler? && limit >= 1
    ensures OwnEntryMatchesTx(h, g.handler, a, limit, tx) <==>
      var filter := g.handler.txFilter;
      && (Truthy(a) ==> StringNormalizedEq(a.s, tx.to))
      && (filter.Some? ==>
            && FromSelected(filter.value, tx)
            && (Truthy(a) || ToSelected(filter.value, tx))
            && FunctionSelected(h, filter.value, tx))
  {
    CallEntryMeans(h, g.handler.txFilter, [a], limit, tx);
    assert [a][0] == a;
  }

  /** What an address's own entry selects, the merged entry does too, or the address is forgotten. */
  lemma OwnTxIsKept(h: Hashing, g: Group, limit: int, a: Field, tx: Transaction)
    requires WellFormedTx(tx) && g.handler.CallHandler? && a in g.addresses && limit >= 1
    requires OwnEntryMatchesTx(h, g.handler, a, limit, tx) && !Forgotten(h, g, limit, a)
    ensures EntryMatches(CallEntry(h, g.handler.txFilter, g.addresses, limit), RecordOfTx(tx))
  {
    OwnTxEntryMeans(h, g, limit, a, tx);
    CallEntryMeans(h, g.handler.txFilter, g.addresses, limit, tx);
    if g.handler.txFilter.Some? {
      CallEntryMeans(h, g.handler.txFilter, [a], limit, tx);
      SelectedMeansSome(h, g.handler.txFilter.value, [a], limit, tx);
      assert [a][0] == a;
    }
    var i :| 0 <= i < |g.addresses| && g.addresses[i] == a;
    assert Narrowing(g.addresses, limit) ==> Listed(g.addresses, tx.to.value);
  }

  lemma MergedTxIsOwn(h: Hashing, g: Group, limit: int, tx: Transaction) returns (a: Field)
    requires g.handler.CallHandler? && g.addresses != [] && |g.addresses| <= limit
    requires EntryMatches(CallEntry(h, g.handler.txFilter, g.addresses, limit), RecordOfTx(tx))
    ensures a in g.addresses && OwnEntryMatchesTx(h, g.handler, a, limit, tx)
  {
    CallEntryMeans(h, g.handler.txFilter, g.addresses, limit, tx);
    var i: nat;
    if Narrowing(g.addresses, limit) {
      i :| i < |g.addresses| && ToLower(g.addresses[i].s) == ToLower(tx.to.value);
    } else {
      i :| i < |g.addresses| && !Truthy(g.addresses[i]);
    }
    a := g.addresses[i];
    OwnTxEntryMeans(h, g, limit, a, tx);
  }

  /** A transaction to `a` that the filter's other conditions select; sender and input are free where they
      test none. */
  function ForgottenTx(h: Hashing, f: TxFilter, a: Field, from: string, input: string): (tx: Transaction)
    requires Truthy(a) && !HopelessAddress(a) && !HopelessAddress(f.from) && Selectable(h, f)
    requires IsAddress(from) && IsLowerHex(input)
    ensures WellFormedTx(tx)
  {
    Transaction(
      Some(if Truthy(f.from) then AddressFor(f.from) else from),
      Some(AddressFor(a)),
      if f.func.Null? || Truthy(f.func) then SuitedInput(h, f) else input)
  }

  lemma ForgottenTxIsOwn(h: Hashing, g: Group, limit: int, a: Field, from: string, input: string)
    requires ProperHashing(h) && limit >= 1 && Forgotten(h, g, limit, a) && IsAddress(from) && IsLowerHex(input)
    ensures OwnEntryMatchesTx(h, g.handler, a, limit, ForgottenTx(h, g.handler.txFilter.value, a, from, input))
  {
    var f := g.handler.txFilter.value;
    if TestsSelector(f) && f.func.s != "" {
      SighashIsLong(h, f.func.s);
      var sig := FunctionToSighash(h, f.func.s);
      assert sig[..|sig|] == sig;
    }
    if Truthy(f.from) {
      AddressForEquals(f.from);
    }
    AddressForEquals(a);
    OwnTxEntryMeans(h, g, limit, a, ForgottenTx(h, f, a, from, input));
  }

  /** Main result: within the limit, a merged call entry selects what the entries of its addresses select
      together, if and only if no address is forgotten. */
  lemma MergingKeepsTransactionsExactly(h: Hashing, g: Group, limit: int)
    requires ProperHashing(h) && g.handler.CallHandler? && g.addresses != [] && |g.addresses| <= limit
    ensures (forall tx :: WellFormedTx(tx) ==>
              (EntryMatches(CallEntry(h, g.handler.txFilter, g.addresses, limit), RecordOfTx(tx))
               <==> exists a :: a in g.addresses && OwnEntryMatchesTx(h, g.handler, a, limit, tx)))
       <==> forall a :: a in g.addresses ==> !Forgotten(h, g, limit, a)
  {
    forall tx | WellFormedTx(tx) && EntryMatches(CallEntry(h, g.handler.txFilter, g.addresses, limit), RecordOfTx(tx))
      ensures exists a :: a in g.addresses && OwnEntryMatchesTx(h, g.handler, a, limit, tx)
    {
      var a := MergedTxIsOwn(h, g, limit, tx);
    }
    if forall a :: a in g.addresses ==> !Forgotten(h, g, limit, a) {
      forall tx, a | WellFormedTx(tx) && a in g.addresses && OwnEntryMatchesTx(h, g.handler, a, limit, tx)
        ensures EntryMatches(CallEntry(h, g.handler.txFilter, g.addresses, limit), RecordOfTx(tx))
      {
        OwnTxIsKept(h, g, limit, a, tx);
      }
    } else {
      var a :| a in g.addresses && Forgotten(h, g, limit, a);
      var tx := ForgottenTx(h, g.handler.txFilter.value, a, ZeroAddress(), "0x");
      ForgottenTxIsOwn(h, g, limit, a, ZeroAddress(), "0x");
      AddressForEquals(a);
      CallEntryMeans(h, g.handler.txFilter, g.addresses, limit, tx);
    }
  }

  const ALICE := Str(AddressOf('a'))

  const BOB := Str(AddressOf('b'))

  const FORGETFUL_GROUP := Group(
    CallHandler("handleBob", Some(TxFilter(Undefined, BOB, Undefined, [ToProperty]))), [ALICE, Field.Undefined])

  /** A concrete group: a datasource at Alice's address and one without an address share the filter `to: Bob`,
      and the merged entry loses the transactions to Alice that the first one's entry selects. */
  lemma MergingForgetsAnAddress(h: Hashing)
    requires ProperHashing(h)
    ensures var g := FORGETFUL_GROUP;
      exists tx ::
        && WellFormedTx(tx) && OwnEntryMatchesTx(h, g.handler, ALICE, 100, tx)
        && !EntryMatches(CallEntry(h, g.handler.txFilter, g.addresses, 100), RecordOfTx(tx))
  {
    var g := FORGETFUL_GROUP;
    assert g.addresses[1] == Field.Undefined && ToLower(ALICE.s)[2] != ToLower(BOB.s)[2];
    AddressOfNames('a');
    assert Forgotten(h, g, 100, ALICE);
    var tx := ForgottenTx(h, g.handler.txFilter.value, ALICE, ZeroAddress(), "0x");
    ForgottenTxIsOwn(h, g, 100, ALICE, ZeroAddress(), "0x");
    AddressForEquals(ALICE);
    CallEntryMeans(h, g.handler.txFilter, g.addresses, 100, tx);
  }

  // ---------- groups that make up for it ----------

  /** Every input that passes the selector test of `f` passes that of `f'`. */
  predicate FunctionImplied(h: Hashing, f: TxFilter, f': TxFilter) {
    if f'.func.Null? || f'.func == Str("0x") then f.func.Null? || f.func == Str("0x")
    else Truthy(f'.func) ==>
      TestsSelector(f) && f.func.s != "" && FunctionToSighash(h, f.func.s) == FunctionToSighash(h, f'.func.s)
  }

  /** The group's entry makes up for a forgotten address: no condition of it is stricter. */
  predicate MakesUpFor(h: Hashing, g: Group, limit: int, f: TxFilter, a: Field) {
    && Truthy(a) && g.handler.CallHandler? && AddressAllowed(g.addresses, limit, Some(a.s))
    && (g.handler.txFilter.Some? ==>
          var f' := g.handler.txFilter.value;
          && (Truthy(f'.from) ==> Truthy(f.from) && ToLower(f'.from.s) == ToLower(f.from.s))
          && (!Narrowing(g.addresses, limit) ==>
                !f'.to.Null? && (Truthy(f'.to) ==> ToLower(f'.to.s) == ToLower(a.s)))
          && FunctionImplied(h, f, f'))
  }

  lemma MakesUpSelects(h: Hashing, g: Group, g': Group, limit: int, a: Field, tx: Transaction)
    requires Forgotten(h, g, limit, a) && MakesUpFor(h, g', limit, g.handler.txFilter.value, a) && limit >= 1
    requires OwnEntryMatchesTx(h, g.handler, a, limit, tx)
    ensures EntryMatches(CallEntry(h, g'.handler.txFilter, g'.addresses, limit), RecordOfTx(tx))
  {
    OwnTxEntryMeans(h, g, limit, a, tx);
    CallEntryMeans(h, g'.handler.txFilter, g'.addresses, limit, tx);
    assert Narrowing(g'.addresses, limit) ==> Listed(g'.addresses, tx.to.value);
  }

  /** With a sender and an input that no filter tests, one transaction decides whether a group makes up. */
  lemma SelectingForgottenMakesUp(h: Hashing, f: TxFilter, g: Group, limit: int, a: Field,
                                  from: string, input: string)
    requires ProperHashing(h) && g.handler.CallHandler?
    requires Truthy(a) && !HopelessAddress(a) && !HopelessAddress(f.from) && Selectable(h, f)
    requires IsAddress(from) && ToLower(from) == from && Untested(g, from)
    requires IsLowerHex(input) && |input| == SIGHASH_LENGTH && SelectorOf(h, g.handler) != input
    ensures var tx := ForgottenTx(h, f, a, from, input);
      EntryMatches(CallEntry(h, g.handler.txFilter, g.addresses, limit), RecordOfTx(tx)) ==>
        MakesUpFor(h, g, limit, f, a)
  {
    var tx := ForgottenTx(h, f, a, from, input);
    CallEntryMeans(h, g.handler.txFilter, g.addresses, limit, tx);
    AddressForEquals(a);
    if Truthy(f.from) {
      AddressForEquals(f.from);
    }
    if g.handler.txFilter.Some? && FunctionSelected(h, g.handler.txFilter.value, tx) {
      SelectedFunctionIsImplied(h, f, g.handler.txFilter.value, tx, input);
    }
  }

  lemma SelectedFunctionIsImplied(h: Hashing, f: TxFilter, f': TxFilter, tx: Transaction, input: string)
    requires ProperHashing(h) && |input| == SIGHASH_LENGTH
    requires Truthy(f'.func) ==> FunctionToSighash(h, f'.func.s) != input
    requires Selectable(h, f) && tx.input == if f.func.Null? || Truthy(f.func) then SuitedInput(h, f) else input
    requires FunctionSelected(h, f', tx)
    ensures FunctionImplied(h, f, f')
  {
  }
}
