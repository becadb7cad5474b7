/** What a V1 query selects, compared with what the handlers' own filters accept. */
module CoverageV1 {
  import opened Collections
  import opened Strings
  import opened Datasources
  import opened BlockFilters
  import opened Dictionary
  import opened DictionaryV1

  // ---------- meaning of the conditions ----------

  predicate Listed(addresses: seq<Field>, address: string) {
    exists i :: 0 <= i < |addresses| && Truthy(addresses[i]) && ToLower(addresses[i].s) == ToLower(address)
  }

  predicate AddressAllowed(addresses: seq<Field>, limit: int, address: Option<string>) {
    Narrowing(addresses, limit) ==> address.Some? && Listed(addresses, address.value)
  }

  lemma AddressConditionsMean(addresses: seq<Field>, limit: int, field: Column, address: Option<string>, r: Record)
    requires Cell(r, field) == LowerOption(address)
    ensures AllHold(AddressConditions(addresses, limit, field), r) <==> AddressAllowed(addresses, limit, address)
  {
    if Narrowing(addresses, limit) {
      var cs := AddressConditions(addresses, limit, field);
      var valid := LowerAll(ValidAddresses(addresses));
      assert forall i :: 0 <= i < |addresses| ==> valid[i] == ToLower(addresses[i].s);
      assert |cs| == 1;
      assert AllHold(cs, r) <==> Holds(cs[0], r);
      if address.Some? && |addresses| > 1 {
        assert ToLower(address.value) in valid <==> Listed(addresses, address.value) by {
          if Listed(addresses, address.value) {
            var i :| 0 <= i < |addresses| && ToLower(addresses[i].s) == ToLower(address.value);
            assert valid[i] == ToLower(address.value);
          }
        }
      }
    }
  }

  predicate TopicSelected(h: Hashing, t: Field, i: nat, log: Log) {
    Truthy(t) ==> i < |log.topics| && (IsNotNull(t) || log.topics[i] == EventToTopic(h, t.s))
  }

  predicate TopicsSelected(h: Hashing, ts: seq<Field>, log: Log) {
    forall i :: 0 <= i < |ts| ==> TopicSelected(h, ts[i], i, log)
  }

  lemma {:induction false} TopicConditionsMean(h: Hashing, ts: seq<Field>, n: nat, log: Log)
    requires n <= |ts|
    ensures AllHold(TopicConditions(h, ts, n), RecordOfLog(log))
       <==> forall i :: 0 <= i < n ==> TopicSelected(h, ts[i], i, log)
  {
    if n > 0 {
      TopicConditionsMean(h, ts, n - 1, log);
      var last := if Truthy(ts[n - 1]) then [TopicCondition(h, ts[n - 1], n - 1)] else [];
      AllHoldConcat(TopicConditions(h, ts, n - 1), last, RecordOfLog(log));
      if last != [] {
        assert AllHold(last, RecordOfLog(log)) <==> Holds(last[0], RecordOfLog(log));
      }
      assert AllHold(last, RecordOfLog(log)) <==> TopicSelected(h, ts[n - 1], n - 1, log);
    }
  }

  lemma {:induction false} EventEntryMeans(h: Hashing, filter: Option<LogFilter>, addresses: seq<Field>, limit: int,
                                           log: Log)
    ensures EntryMatches(EventEntry(h, filter, addresses, limit), RecordOfLog(log))
       <==> AddressAllowed(addresses, limit, Some(log.address)) && TopicsSelected(h, FilterTopics(filter), log)
  {
    var ts := FilterTopics(filter);
    AddressConditionsMean(addresses, limit, Address, Some(log.address), RecordOfLog(log));
    TopicConditionsMean(h, ts, |ts|, log);
    AllHoldConcat(AddressConditions(addresses, limit, Address), TopicConditions(h, ts, |ts|), RecordOfLog(log));
  }

  predicate FromSelected(f: TxFilter, tx: Transaction) {
    Truthy(f.from) ==> StringNormalizedEq(f.from.s, tx.from)
  }

  predicate ToSelected(f: TxFilter, tx: Transaction) {
    (Truthy(f.to) ==> StringNormalizedEq(f.to.s, tx.to)) && (f.to.Null? ==> tx.to.None?)
  }

  predicate FunctionSelected(h: Hashing, f: TxFilter, tx: Transaction) {
    if f.func.Null? || f.func == Str("0x") then tx.input == "0x"
    else Truthy(f.func) ==> Selector(tx.input) == Some(FunctionToSighash(h, f.func.s))
  }

  predicate CallSelected(h: Hashing, filter: Option<TxFilter>, addresses: seq<Field>, limit: int, tx: Transaction) {
    && AddressAllowed(addresses, limit, tx.to)
    && (filter.Some? ==>
          && FromSelected(filter.value, tx)
          && (!Narrowing(addresses, limit) ==> ToSelected(filter.value, tx))
          && FunctionSelected(h, filter.value, tx))
  }

  lemma SingleConditionsMean(h: Hashing, f: TxFilter, tx: Transaction)
    ensures AllHold(FromConditions(f), RecordOfTx(tx)) <==> FromSelected(f, tx)
    ensures AllHold(ToConditions(f), RecordOfTx(tx)) <==> ToSelected(f, tx)
    ensures AllHold(FunctionConditions(h, f), RecordOfTx(tx)) <==> FunctionSelected(h, f, tx)
  {
    var r := RecordOfTx(tx);
    forall cs: seq<Condition> | |cs| == 1
      ensures AllHold(cs, r) <==> Holds(cs[0], r)
    {
    }
  }

  lemma CallEntryMeans(h: Hashing, filter: Option<TxFilter>, addresses: seq<Field>, limit: int, tx: Transaction)
    ensures EntryMatches(CallEntry(h, filter, addresses, limit), RecordOfTx(tx))
       <==> CallSelected(h, filter, addresses, limit, tx)
  {
    var r := RecordOfTx(tx);
    var toAddress := AddressConditions(addresses, limit, Column.To);
    AddressConditionsMean(addresses, limit, Column.To, tx.to, r);
    if filter.Some? {
      var f := filter.value;
      var to := if toAddress == [] then ToConditions(f) else [];
      SingleConditionsMean(h, f, tx);
      AllHoldConcat(toAddress, FromConditions(f), r);
      AllHoldConcat(toAddress + FromConditions(f), to, r);
      AllHoldConcat(toAddress + FromConditions(f) + to, FunctionConditions(h, f), r);
    }
  }

  // ---------- events: exactly when an entry misses nothing its handler accepts ----------

  /** No 32-byte topic can equal this one, so the handler accepts no log at all. */
  predicate Hopeless(h: Hashing, ts: seq<Field>) {
    exists i :: 0 <= i < FirstNotNull(ts, 0) && Truthy(ts[i])
      && IsHexString(EventToTopic(h, ts[i].s)) && ExceedsTopic(EventToTopic(h, ts[i].s))
  }

  /** Topics up to the first `!null` are signatures or canonical 32-byte hex, and none follows it. */
  predicate FaithfulTopics(h: Hashing, ts: seq<Field>) {
    var stop := FirstNotNull(ts, 0);
    || Hopeless(h, ts)
    || (&& (forall i :: 0 <= i < stop && Truthy(ts[i]) ==> IsCanonicalTopic(EventToTopic(h, ts[i].s)))
        && (forall i :: stop < i < |ts| ==> !Truthy(ts[i])))
  }

  lemma TopicIsHex(h: Hashing, t: Field)
    requires ProperHashing(h) && Truthy(t)
    ensures IsHexString(EventToTopic(h, t.s))
  {
  }

  lemma FaithfulTopicsMissNothing(h: Hashing, ts: seq<Field>, log: Log)
    requires WellFormedLog(log) && FaithfulTopics(h, ts)
    requires TopicsAccepted(h, log, ts, 0)
    ensures TopicsSelected(h, ts, log)
  {
    var stop := FirstNotNull(ts, 0);
    forall i | 0 <= i < stop && Truthy(ts[i])
      ensures TopicSelected(h, ts[i], i, log)
    {
      assert TopicEquals(h, log, ts[i], i);
      var t := EventToTopic(h, ts[i].s);
      HexStringEqIsNumericEquality(t, log.topics[i]);
      if ExceedsTopic(t) {
        OversizedNeverEqual(t, log.topics[i]);
      }
      if IsCanonicalTopic(t) {
        CanonicalTopicsCompareAsStrings(t, log.topics[i]);
      }
    }
  }

  function WitnessTopic(h: Hashing, t: Field): (r: string)
    ensures IsCanonicalTopic(r)
  {
    if Truthy(t) && IsHexString(EventToTopic(h, t.s)) && !ExceedsTopic(EventToTopic(h, t.s))
    then Canonicalise(EventToTopic(h, t.s))
    else PadTopic("")
  }

  function WitnessLog(h: Hashing, ts: seq<Field>, n: nat, address: string): (log: Log)
    requires n <= MAX_TOPICS && IsAddress(address)
    ensures WellFormedLog(log) && |log.topics| == n && log.address == address
    ensures forall i :: 0 <= i < n && i < |ts| ==> log.topics[i] == WitnessTopic(h, ts[i])
  {
    Log(address, seq(n, i requires 0 <= i < n => if i < |ts| then WitnessTopic(h, ts[i]) else PadTopic("")))
  }

  /** A topic before the first `!null` that is not canonical. */
  predicate HasOddTopic(h: Hashing, ts: seq<Field>) {
    exists i :: 0 <= i < FirstNotNull(ts, 0) && Truthy(ts[i]) && !IsCanonicalTopic(EventToTopic(h, ts[i].s))
  }

  /** The witness log is accepted as soon as it has the topics the filter looks at. */
  lemma {:induction false} WitnessIsAccepted(h: Hashing, ts: seq<Field>, log: Log)
    requires ProperHashing(h) && !Hopeless(h, ts) && WellFormedLog(log)
    requires |log.topics| == MAX_TOPICS >= |ts| || |log.topics| == FirstNotNull(ts, 0) + 1
    requires forall i :: 0 <= i < |log.topics| && i < |ts| ==> log.topics[i] == WitnessTopic(h, ts[i])
    ensures TopicsAccepted(h, log, ts, 0)
  {
    var stop := FirstNotNull(ts, 0);
    forall i | 0 <= i < stop && Truthy(ts[i])
      ensures TopicEquals(h, log, ts[i], i)
    {
      TopicIsHex(h, ts[i]);
      CanonicaliseDenotesTheSame(EventToTopic(h, ts[i].s));
    }
  }

  /** A non-canonical topic is accepted in its canonical form, which differs from its text. */
  lemma OddTopicLog(h: Hashing, ts: seq<Field>, address: string) returns (log: Log)
    requires ProperHashing(h) && |ts| <= MAX_TOPICS && !Hopeless(h, ts) && HasOddTopic(h, ts) && IsAddress(address)
    ensures WellFormedLog(log) && log.address == address && TopicsAccepted(h, log, ts, 0)
    ensures exists i :: 0 <= i < |ts| && i < |log.topics| && Truthy(ts[i]) && !IsNotNull(ts[i])
                     && log.topics[i] != EventToTopic(h, ts[i].s)
  {
    log := WitnessLog(h, ts, MAX_TOPICS, address);
    WitnessIsAccepted(h, ts, log);
    var i :| 0 <= i < FirstNotNull(ts, 0) && Truthy(ts[i]) && !IsCanonicalTopic(EventToTopic(h, ts[i].s));
    assert IsCanonicalTopic(log.topics[i]);
  }

  lemma UnfaithfulTopicsMissALog(h: Hashing, ts: seq<Field>, address: string) returns (log: Log)
    requires ProperHashing(h) && |ts| <= MAX_TOPICS && !FaithfulTopics(h, ts) && IsAddress(address)
    ensures WellFormedLog(log) && log.address == address
    ensures TopicsAccepted(h, log, ts, 0) && !TopicsSelected(h, ts, log)
  {
    var stop := FirstNotNull(ts, 0);
    if HasOddTopic(h, ts) {
      log := OddTopicLog(h, ts, address);
      var i :| 0 <= i < |ts| && i < |log.topics| && Truthy(ts[i]) && !IsNotNull(ts[i])
        && log.topics[i] != EventToTopic(h, ts[i].s);
      assert !TopicSelected(h, ts[i], i, log);
    } else {
      log := WitnessLog(h, ts, stop + 1, address);
      WitnessIsAccepted(h, ts, log);
      var i :| stop < i < |ts| && Truthy(ts[i]);
      assert !TopicSelected(h, ts[i], i, log);
    }
  }

  /** What the query selects of the topics, the handler accepts. */
  lemma SelectedTopicsAreAccepted(h: Hashing, ts: seq<Field>, log: Log)
    requires WellFormedLog(log) && TopicsSelected(h, ts, log)
    ensures TopicsAccepted(h, log, ts, 0)
  {
  }

  /** No log or transaction can have this address, so a handler that tests it accepts nothing. */
  predicate HopelessAddress(a: Field) {
    Truthy(a) && !NamesAddress(a.s)
  }

  lemma HopelessNeverEqual(a: Field, address: string)
    requires HopelessAddress(a) && IsAddress(address)
    ensures !StringNormalizedEq(a.s, Some(address))
  {
  }

  /** An address that the field names, or any when it names none. */
  function AddressFor(a: Field): (s: string)
    requires !HopelessAddress(a)
    ensures IsAddress(s)
  {
    if Truthy(a) then ToLower(a.s) else ZeroAddress()
  }

  lemma AddressForEquals(a: Field)
    requires !HopelessAddress(a) && Truthy(a)
    ensures StringNormalizedEq(a.s, Some(AddressFor(a)))
  {
  }

  /** Main result: an event entry misses no log its handler accepts under `a` if and only if the handler's
      topics are faithful or `a` is hopeless, whatever addresses were merged into the entry. */
  lemma EventCoverageIsExact(h: Hashing, filter: Option<LogFilter>, addresses: seq<Field>, limit: int, a: Field)
    requires ProperHashing(h) && a in addresses
    ensures (forall log :: WellFormedLog(log) && LogVerdict(h, log, filter, a) == Ok(true)
                ==> EntryMatches(EventEntry(h, filter, addresses, limit), RecordOfLog(log)))
       <==> HopelessAddress(a) || FaithfulTopics(h, FilterTopics(filter))
  {
    var ts := FilterTopics(filter);
    if HopelessAddress(a) {
      forall log | WellFormedLog(log)
        ensures LogVerdict(h, log, filter, a) != Ok(true)
      {
        HopelessNeverEqual(a, log.address);
      }
    } else if FaithfulTopics(h, ts) {
      forall log | WellFormedLog(log) && LogVerdict(h, log, filter, a) == Ok(true)
        ensures EntryMatches(EventEntry(h, filter, addresses, limit), RecordOfLog(log))
      {
        TopicsVerdictMeans(h, log, ts, 0);
        FaithfulTopicsMissNothing(h, ts, log);
        EventEntryMeans(h, filter, addresses, limit, log);
      }
    } else {
      var log := UnfaithfulTopicsMissALog(h, ts, AddressFor(a));
      if Truthy(a) {
        AddressForEquals(a);
      }
      TopicsVerdictMeans(h, log, ts, 0);
      EventEntryMeans(h, filter, addresses, limit, log);
      assert LogVerdict(h, log, filter, a) == Ok(true);
    }
  }

  // ---------- calls: exactly when an entry misses nothing its handler accepts ----------

  /** The filter tests a selector: a non-null function other than `0x`. */
  predicate TestsSelector(f: TxFilter) {
    f.func.Str? && f.func.s != "0x"
  }

  /** The selector tested is not lower-case hex, which input data always is. */
  predicate HopelessFunction(h: Hashing, f: TxFilter) {
    TestsSelector(f) && !IsLowerHex(FunctionToSighash(h, f.func.s))
  }

  /** No transaction passes all tests of the filter under address `a`. */
  predicate HopelessCall(h: Hashing, f: TxFilter, a: Field) {
    || HopelessFunction(h, f) || HopelessAddress(f.from) || HopelessAddress(f.to)
    || (f.to.Undefined? && HopelessAddress(a))
  }

  predicate FaithfulCall(h: Hashing, filter: Option<TxFilter>, addresses: seq<Field>, limit: int, a: Field) {
    if filter.None? then !Narrowing(addresses, limit)
    else
      var f := filter.value;
      || HopelessCall(h, f, a)
      || (&& (TestsSelector(f) && f.func.s != "" ==> |FunctionToSighash(h, f.func.s)| == SIGHASH_LENGTH)
          && (Narrowing(addresses, limit) ==> f.to.Undefined? || (Truthy(f.to) && Listed(addresses, f.to.s))))
  }

  lemma PrefixOfLowerHex(a: string, b: string)
    requires |a| >= 2 && IsPrefixOf(a, b) && IsLowerHex(b)
    ensures IsLowerHex(a)
  {
  }

  lemma SighashIsLong(h: Hashing, s: string)
    requires ProperHashing(h)
    ensures |FunctionToSighash(h, s)| >= 2
    ensures FunctionToSighash(h, s) == "0x" ==> s == "0x"
  {
  }

  lemma AcceptedMeansHopeful(h: Hashing, f: TxFilter, a: Field, tx: Transaction)
    requires ProperHashing(h) && WellFormedTx(tx) && FilterTransactions(h, tx, Some(f), a)
    ensures !HopelessCall(h, f, a)
  {
  }

  lemma FaithfulCallMissesNothing(h: Hashing, filter: Option<TxFilter>, addresses: seq<Field>, limit: int,
               a: Field, tx: Transaction)
    requires ProperHashing(h) && a in addresses && WellFormedTx(tx)
    requires FaithfulCall(h, filter, addresses, limit, a)
    requires FilterTransactions(h, tx, filter, a)
    ensures CallSelected(h, filter, addresses, limit, tx)
  {
  }

  /** A transaction the filter accepts under address `a`, provided the input suits its function. */
  function AcceptedTx(h: Hashing, f: TxFilter, a: Field, input: string): (tx: Transaction)
    requires !HopelessCall(h, f, a) && IsLowerHex(input)
    ensures WellFormedTx(tx)
  {
    Transaction(
      Some(AddressFor(f.from)),
      if Truthy(f.to) then Some(AddressFor(f.to))
      else if f.to.Undefined? && Truthy(a) then Some(AddressFor(a)) else None,
      input)
  }

  lemma AcceptedTxIsAccepted(h: Hashing, f: TxFilter, a: Field, input: string)
    requires ProperHashing(h) && !HopelessCall(h, f, a) && IsLowerHex(input)
    requires if TestsSelector(f) then IsPrefixOf(FunctionToSighash(h, f.func.s), input)
             else f.func.Undefined? || input == "0x"
    ensures FilterTransactions(h, AcceptedTx(h, f, a, input), Some(f), a)
  {
  }

  function SuitedInput(h: Hashing, f: TxFilter): string {
    if TestsSelector(f) then FunctionToSighash(h, f.func.s) else "0x"
  }

  lemma NamedIsListed(to: Field, addresses: seq<Field>, address: Option<string>)
    requires Truthy(to) && !HopelessAddress(to) ==> address == Some(AddressFor(to))
    ensures Truthy(to) && !HopelessAddress(to) ==> (Listed(addresses, address.value) <==> Listed(addresses, to.s))
  {
  }

  lemma UnfaithfulCallMissesATx(h: Hashing, filter: Option<TxFilter>, addresses: seq<Field>, limit: int, a: Field)
    returns (tx: Transaction)
    requires ProperHashing(h) && a in addresses && !FaithfulCall(h, filter, addresses, limit, a)
    ensures WellFormedTx(tx)
    ensures FilterTransactions(h, tx, filter, a) && !CallSelected(h, filter, addresses, limit, tx)
  {
    if filter.None? {
      tx := Transaction(Some(ZeroAddress()), None, "0x");
    } else {
      var f := filter.value;
      var input := SuitedInput(h, f);
      if TestsSelector(f) && f.func.s != "" && |input| != SIGHASH_LENGTH {
        SighashIsLong(h, f.func.s);
        assert IsLowerHex(input + "0") by {
          assert (input + "0")[..2] == input[..2] && (input + "0")[2..] == input[2..] + "0";
        }
        AcceptedTxIsAccepted(h, f, a, input + "0");
        tx := AcceptedTx(h, f, a, input + "0");
        assert |Selector(tx.input).value| != |input|;
      } else {
        assert input[..|input|] == input;
        AcceptedTxIsAccepted(h, f, a, input);
        tx := AcceptedTx(h, f, a, input);
        NamedIsListed(f.to, addresses, tx.to);
      }
    }
  }

  /** Main result: a call entry misses no transaction its handler accepts if and only if
      the handler is faithful under its address and the addresses merged into the entry. */
  lemma CallCoverageIsExact(h: Hashing, filter: Option<TxFilter>, addresses: seq<Field>, limit: int, a: Field)
    requires ProperHashing(h) && a in addresses
    ensures (forall tx :: WellFormedTx(tx) && FilterTransactions(h, tx, filter, a)
                ==> EntryMatches(CallEntry(h, filter, addresses, limit), RecordOfTx(tx)))
       <==> FaithfulCall(h, filter, addresses, limit, a)
  {
    if FaithfulCall(h, filter, addresses, limit, a) {
      forall tx | WellFormedTx(tx) && FilterTransactions(h, tx, filter, a)
        ensures EntryMatches(CallEntry(h, filter, addresses, limit), RecordOfTx(tx))
      {
        FaithfulCallMissesNothing(h, filter, addresses, limit, a, tx);
        CallEntryMeans(h, filter, addresses, limit, tx);
      }
    } else {
      var tx := UnfaithfulCallMissesATx(h, filter, addresses, limit, a);
      CallEntryMeans(h, filter, addresses, limit, tx);
    }
  }

  // ---------- calls: exactly when an entry selects nothing but what a handler accepts ----------

  /** Some input data passes the entry's test of the function selector. */
  predicate Selectable(h: Hashing, f: TxFilter) {
    TestsSelector(f) && f.func.s != "" ==>
      IsLowerHex(FunctionToSighash(h, f.func.s)) && |FunctionToSighash(h, f.func.s)| <= SIGHASH_LENGTH
  }

  /** Some transaction passes all conditions of the entry. */
  predicate SelectsSome(h: Hashing, f: TxFilter, addresses: seq<Field>, limit: int) {
    && Selectable(h, f) && !HopelessAddress(f.from)
    && (if Narrowing(addresses, limit)
        then exists i :: 0 <= i < |addresses| && !HopelessAddress(addresses[i])
        else !HopelessAddress(f.to))
  }

  predicate SoundCall(h: Hashing, filter: Option<TxFilter>, addresses: seq<Field>, limit: int) {
    || filter.None?
    || !SelectsSome(h, filter.value, addresses, limit)
    || (&& filter.value.func != Str("")
        && (Narrowing(addresses, limit) ==>
              || filter.value.to.Undefined?
              || filter.value.to == Str("")
              || (Truthy(filter.value.to)
                  && forall i :: 0 <= i < |addresses| && !HopelessAddress(addresses[i]) ==>
                       ToLower(addresses[i].s) == ToLower(filter.value.to.s))))
  }

  predicate AcceptedUnderSome(h: Hashing, filter: Option<TxFilter>, addresses: seq<Field>, tx: Transaction) {
    exists i :: 0 <= i < |addresses| && FilterTransactions(h, tx, filter, addresses[i])
  }

  lemma SelectedInputIsLowerHex(tx: Transaction, sig: string)
    requires WellFormedTx(tx) && Selector(tx.input) == Some(sig)
    ensures |sig| >= 2 && IsPrefixOf(sig, tx.input) && IsLowerHex(sig) && |sig| <= SIGHASH_LENGTH
  {
  }

  lemma SelectedMeansSome(h: Hashing, f: TxFilter, addresses: seq<Field>, limit: int, tx: Transaction)
    requires WellFormedTx(tx) && CallSelected(h, Some(f), addresses, limit, tx)
    ensures SelectsSome(h, f, addresses, limit)
  {
  }

  lemma SoundCallSelectsOnlyAccepted(h: Hashing, filter: Option<TxFilter>, addresses: seq<Field>,
                                     limit: int, tx: Transaction)
    requires addresses != [] && |addresses| <= limit
    requires WellFormedTx(tx) && SoundCall(h, filter, addresses, limit)
    requires CallSelected(h, filter, addresses, limit, tx)
    ensures AcceptedUnderSome(h, filter, addresses, tx)
  {
  }

  /** A transaction to the named recipient that the filter's other conditions select. */
  function SelectedTx(h: Hashing, f: TxFilter, to: Option<string>): (tx: Transaction)
    requires Selectable(h, f) && !HopelessAddress(f.from) && (to.Some? ==> IsAddress(to.value))
    ensures WellFormedTx(tx)
  {
    Transaction(Some(AddressFor(f.from)), to, if f.func == Str("") then "0x" else SuitedInput(h, f))
  }

  lemma SelectedTxIsSelected(h: Hashing, f: TxFilter, to: Option<string>)
    requires ProperHashing(h)
    requires Selectable(h, f) && !HopelessAddress(f.from) && (to.Some? ==> IsAddress(to.value))
    ensures FromSelected(f, SelectedTx(h, f, to)) && FunctionSelected(h, f, SelectedTx(h, f, to))
  {
    if Truthy(f.from) {
      AddressForEquals(f.from);
    }
    if TestsSelector(f) && f.func.s != "" {
      var input := SuitedInput(h, f);
      SighashIsLong(h, f.func.s);
      assert input[..|input|] == input;
    }
  }

  lemma UnsoundCallSelectsARejected(h: Hashing, filter: Option<TxFilter>, addresses: seq<Field>, limit: int)
    returns (tx: Transaction)
    requires ProperHashing(h) && !SoundCall(h, filter, addresses, limit)
    ensures WellFormedTx(tx)
    ensures CallSelected(h, filter, addresses, limit, tx) && !AcceptedUnderSome(h, filter, addresses, tx)
  {
    var f := filter.value;
    var to := None;
    if Narrowing(addresses, limit) {
      var i :| 0 <= i < |addresses| && !HopelessAddress(addresses[i]);
      if Truthy(f.to) && exists k :: 0 <= k < |addresses| && !HopelessAddress(addresses[k])
                                      && ToLower(addresses[k].s) != ToLower(f.to.s) {
        i :| 0 <= i < |addresses| && !HopelessAddress(addresses[i]) && ToLower(addresses[i].s) != ToLower(f.to.s);
      }
      to := Some(AddressFor(addresses[i]));
      AddressForEquals(addresses[i]);
      assert Listed(addresses, to.value);
    } else if Truthy(f.to) {
      to := Some(AddressFor(f.to));
      AddressForEquals(f.to);
    }
    tx := SelectedTx(h, f, to);
    SelectedTxIsSelected(h, f, to);
  }

  /** Main result: within the address limit, an entry selects only transactions that its handler
      accepts under some merged address, if and only if the handler is sound. */
  lemma CallSoundnessIsExact(h: Hashing, filter: Option<TxFilter>, addresses: seq<Field>, limit: int)
    requires ProperHashing(h) && addresses != [] && |addresses| <= limit
    ensures (forall tx :: WellFormedTx(tx) && EntryMatches(CallEntry(h, filter, addresses, limit), RecordOfTx(tx))
                ==> AcceptedUnderSome(h, filter, addresses, tx))
       <==> SoundCall(h, filter, addresses, limit)
  {
    if SoundCall(h, filter, addresses, limit) {
      forall tx | WellFormedTx(tx) && EntryMatches(CallEntry(h, filter, addresses, limit), RecordOfTx(tx))
        ensures AcceptedUnderSome(h, filter, addresses, tx)
      {
        CallEntryMeans(h, filter, addresses, limit, tx);
        SoundCallSelectsOnlyAccepted(h, filter, addresses, limit, tx);
      }
    } else {
      var tx := UnsoundCallSelectsARejected(h, filter, addresses, limit);
      CallEntryMeans(h, filter, addresses, limit, tx);
    }
  }
}
