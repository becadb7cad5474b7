/** The dictionary: its records, and which records a V1 or a V2 query selects. */
module Dictionary {
  import opened Collections
  import opened Strings
  import opened BlockFilters

  /** A dictionary stores addresses in lower case. */
  datatype Record =
    | LogRecord(address: string, topics: seq<string>)
    | TxRecord(from: Option<string>, to: Option<string>, input: string)

  function LowerOption(s: Option<string>): Option<string> {
    if s.None? then None else Some(ToLower(s.value))
  }

  function RecordOfLog(log: Log): Record {
    LogRecord(ToLower(log.address), log.topics)
  }

  function RecordOfTx(tx: Transaction): Record {
    TxRecord(LowerOption(tx.from), LowerOption(tx.to), tx.input)
  }

  /** What a node can serve: 20-byte addresses in any letter case, and 32-byte topics and input data in
      lower-case hex. Only the recipient of a transaction can be missing. */
  predicate WellFormedLog(log: Log) {
    && IsAddress(log.address)
    && |log.topics| <= MAX_TOPICS && forall i :: 0 <= i < |log.topics| ==> IsCanonicalTopic(log.topics[i])
  }

  predicate WellFormedTx(tx: Transaction) {
    && tx.from.Some? && IsAddress(tx.from.value)
    && (tx.to.Some? ==> IsAddress(tx.to.value))
    && IsLowerHex(tx.input)
  }

  datatype Column = Address | From | Func | To | Topic(index: nat)

  /** The function selector column: null for empty input. */
  function Selector(input: string): Option<string> {
    if input == "0x" then None else Some(input[..Min(|input|, SIGHASH_LENGTH)])
  }

  function Cell(r: Record, c: Column): Option<string> {
    match r
    case LogRecord(address, topics) =>
      (match c
       case Address => Some(address)
       case Topic(i) => if i < |topics| then Some(topics[i]) else None
       case _ => None)
    case TxRecord(from, to, input) =>
      (match c
       case From => from
       case To => to
       case Func => Selector(input)
       case _ => None)
  }

  // ---------- V1 queries ----------

  datatype Value = Text(s: string) | Texts(ss: seq<string>) | Flag(b: bool)

  datatype Matcher = EqualTo | In | IsNull

  datatype Condition = Condition(field: Column, value: Value, matcher: Matcher)

  datatype Entity = EvmLogs | EvmTransactions

  datatype QueryEntry = QueryEntry(entity: Entity, conditions: seq<Condition>)

  predicate Holds(c: Condition, r: Record) {
    var cell := Cell(r, c.field);
    match c.matcher
    case EqualTo => c.value.Text? && cell == Some(c.value.s)
    case In => c.value.Texts? && cell.Some? && cell.value in c.value.ss
    case IsNull => c.value.Flag? && cell.None? == c.value.b
  }

  predicate AllHold(cs: seq<Condition>, r: Record) {
    forall i :: 0 <= i < |cs| ==> Holds(cs[i], r)
  }

  predicate EntryMatches(e: QueryEntry, r: Record) {
    e.entity.EvmLogs? == r.LogRecord? && AllHold(e.conditions, r)
  }

  predicate QueryMatches(q: seq<QueryEntry>, r: Record) {
    exists i :: 0 <= i < |q| && EntryMatches(q[i], r)
  }

  lemma AllHoldConcat(a: seq<Condition>, b: seq<Condition>, r: Record)
    ensures AllHold(a + b, r) <==> AllHold(a, r) && AllHold(b, r)
  {
    if AllHold(a + b, r) {
      assert forall i :: 0 <= i < |a| ==> (a + b)[i] == a[i];
      assert forall i :: 0 <= i < |b| ==> (a + b)[|a| + i] == b[i];
    }
  }

  // ---------- V2 queries ----------

  /** One list per topic position; an absent or an empty list is no constraint. */
  datatype LogConditions = LogConditions(address: seq<string>, topics: seq<Option<seq<string>>>)

  datatype TxConditions = TxConditions(
    to: Option<seq<Option<string>>>, from: Option<seq<string>>, data: Option<seq<string>>)

  datatype V2Query = V2Query(logs: Option<seq<LogConditions>>, transactions: Option<seq<TxConditions>>)

  const EMPTY_V2 := V2Query(None, None)

  predicate Allows<T(==)>(list: seq<T>, x: T) {
    list == [] || x in list
  }

  predicate LogConditionsMatch(c: LogConditions, r: Record) {
    && r.LogRecord?
    && Allows(c.address, r.address)
    && forall i :: 0 <= i < |c.topics| && c.topics[i].Some? && c.topics[i].value != [] ==>
         i < |r.topics| && r.topics[i] in c.topics[i].value
  }

  predicate TxConditionsMatch(c: TxConditions, r: Record) {
    && r.TxRecord?
    && (c.to.Some? ==> Allows(c.to.value, r.to))
    && (c.from.Some? && c.from.value != [] ==> r.from.Some? && r.from.value in c.from.value)
    && (c.data.Some? && c.data.value != [] ==>
          exists i :: 0 <= i < |c.data.value| && IsPrefixOf(c.data.value[i], r.input))
  }

  predicate V2Matches(q: V2Query, r: Record) {
    || (q.logs.Some? && exists i :: 0 <= i < |q.logs.value| && LogConditionsMatch(q.logs.value[i], r))
    || (q.transactions.Some?
        && exists i :: 0 <= i < |q.transactions.value| && TxConditionsMatch(q.transactions.value[i], r))
  }
}
