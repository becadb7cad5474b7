/** Addresses, selectors and topics that no handler of a project tests: there are more of them than a
    JavaScript array can have elements. */
module FreshValues {
  import opened Collections
  import opened Strings
  import opened Datasources
  import opened BlockFilters

  // ---------- fresh hex strings ----------

  function Pow16(n: nat): (p: nat)
    ensures p > 0
  {
    if n == 0 then 1 else 16 * Pow16(n - 1)
  }

  lemma {:induction false} Pow16Grows(m: nat, n: nat)
    requires m <= n
    ensures Pow16(m) <= Pow16(n)
  {
    if m < n {
      Pow16Grows(m, n - 1);
    }
  }

  function LowerDigit(v: nat): (c: char)
    requires v < 16
    ensures IsHexDigit(c) && DigitValue(c) == v && LowerChar(c) == c
  {
    if v < 10 then ('0' as int + v) as char else ('a' as int + v - 10) as char
  }

  /** The last n hex digits of k. */
  function LowDigits(k: nat, n: nat): (s: string)
    ensures |s| == n && IsLowerHexDigits(s) && IsHexDigits(s)
  {
    if n == 0 then "" else LowDigits(k / 16, n - 1) + [LowerDigit(k % 16)]
  }

  lemma {:induction false} LowDigitsDenote(k: nat, n: nat)
    requires k < Pow16(n)
    ensures DigitsValue(LowDigits(k, n)) == k
  {
    if n > 0 {
      LowDigitsDenote(k / 16, n - 1);
      assert LowDigits(k, n)[..n - 1] == LowDigits(k / 16, n - 1);
    }
  }

  function ValueSet(list: seq<string>): (r: set<nat>)
    ensures |r| <= |list|
    ensures forall s :: s in list && IsHexString(s) ==> HexValue(s) in r
  {
    if list == [] then {}
    else ValueSet(list[1..]) + (if IsHexString(list[0]) then {HexValue(list[0])} else {})
  }

  lemma {:induction false} HasAllBelow(s: set<nat>, n: nat)
    requires forall k :: 0 <= k < n ==> k in s
    ensures |s| >= n
  {
    if n > 0 {
      HasAllBelow(s - {n - 1}, n - 1);
    }
  }

  /** A list shorter than the number of n-digit hex strings leaves one out. */
  lemma FreshHex(list: seq<string>, n: nat) returns (s: string)
    requires |list| < Pow16(n)
    ensures IsLowerHex(s) && IsHexString(s) && |s| == n + 2 && s !in list
  {
    var taken := ValueSet(list);
    if forall k :: 0 <= k < |list| + 1 ==> k in taken {
      HasAllBelow(taken, |list| + 1);
      assert false;
    }
    var k :| 0 <= k < |list| + 1 && k !in taken;
    s := "0x" + LowDigits(k, n);
    LowDigitsDenote(k, n);
    assert s[2..] == LowDigits(k, n);
  }

  // ---------- what a project tests ----------

  const ARRAY_SIZES: nat := 0x1_0000_0000

  /** The flattened handlers fit a JavaScript array, which has fewer than 2^32 elements. */
  predicate FitsArray(dss: seq<Datasource>) {
    |Pairs(dss)| < ARRAY_SIZES
  }

  function TextOf(f: Field): string {
    if f.Str? then ToLower(f.s) else ""
  }

  function FromOf(hd: Handler): Field {
    if hd.CallHandler? && hd.txFilter.Some? then hd.txFilter.value.from else Undefined
  }

  function ToOf(hd: Handler): Field {
    if hd.CallHandler? && hd.txFilter.Some? then hd.txFilter.value.to else Undefined
  }

  function SelectorOf(h: Hashing, hd: Handler): string {
    if hd.CallHandler? && hd.txFilter.Some? && Truthy(hd.txFilter.value.func)
    then FunctionToSighash(h, hd.txFilter.value.func.s)
    else ""
  }

  function TopicAt(h: Hashing, hd: Handler, i: nat): string {
    var ts := if hd.EventHandler? then FilterTopics(hd.logFilter) else [];
    if i < |ts| && Truthy(ts[i]) then EventToTopic(h, ts[i].s) else ""
  }

  function TestedTopics(h: Hashing, ps: seq<Pair>): (r: seq<string>)
    ensures |r| == MAX_TOPICS * |ps|
    ensures forall p, i :: p in ps && 0 <= i < MAX_TOPICS ==> TopicAt(h, p.handler, i) in r
  {
    if ps == [] then []
    else
      var hd := ps[0].handler;
      [TopicAt(h, hd, 0), TopicAt(h, hd, 1), TopicAt(h, hd, 2), TopicAt(h, hd, 3)] + TestedTopics(h, ps[1..])
  }

  /** The group does not test the address. */
  predicate Untested(g: Group, address: string) {
    && (forall a :: a in g.addresses ==> TextOf(a) != address)
    && TextOf(FromOf(g.handler)) != address && TextOf(ToOf(g.handler)) != address
  }

  lemma FreshAddress(dss: seq<Datasource>) returns (address: string)
    requires FitsArray(dss)
    ensures IsAddress(address) && ToLower(address) == address
    ensures forall g :: g in GroupedDataSources(dss) ==> Untested(g, address)
  {
    var ps := Pairs(dss);
    var addresses := seq(|ps|, i requires 0 <= i < |ps| => TextOf(ps[i].address));
    var senders := seq(|ps|, i requires 0 <= i < |ps| => TextOf(FromOf(ps[i].handler)));
    var recipients := seq(|ps|, i requires 0 <= i < |ps| => TextOf(ToOf(ps[i].handler)));
    Pow16Grows(9, ADDRESS_LENGTH - 2);
    assert Pow16(5) == 0x10_0000;
    address := FreshHex(addresses + senders + recipients, ADDRESS_LENGTH - 2);
    assert address !in addresses && address !in senders && address !in recipients;
    assert address == address[..2] + address[2..];
    forall g | g in GroupedDataSources(dss)
      ensures Untested(g, address)
    {
      forall a | a in g.addresses
        ensures TextOf(a) != address
      {
        var p := GroupAddressHasPair(dss, g, a);
        var i :| 0 <= i < |ps| && ps[i] == p;
        assert addresses[i] == TextOf(a);
      }
      var p := GroupHandlerHasPair(dss, g);
      var i :| 0 <= i < |ps| && ps[i] == p;
      assert senders[i] == TextOf(FromOf(g.handler)) && recipients[i] == TextOf(ToOf(g.handler));
    }
  }

  lemma FreshSelector(h: Hashing, dss: seq<Datasource>) returns (selector: string)
    requires FitsArray(dss)
    ensures IsLowerHex(selector) && |selector| == SIGHASH_LENGTH
    ensures forall g :: g in GroupedDataSources(dss) ==> SelectorOf(h, g.handler) != selector
  {
    var ps := Pairs(dss);
    var selectors := seq(|ps|, i requires 0 <= i < |ps| => SelectorOf(h, ps[i].handler));
    assert Pow16(8) == ARRAY_SIZES by {
      assert Pow16(4) == 0x1_0000;
    }
    selector := FreshHex(selectors, SIGHASH_LENGTH - 2);
    forall g | g in GroupedDataSources(dss)
      ensures SelectorOf(h, g.handler) != selector
    {
      var p := GroupHandlerHasPair(dss, g);
      var i :| 0 <= i < |ps| && ps[i] == p;
      assert selectors[i] == SelectorOf(h, g.handler);
    }
  }

  lemma FreshTopic(h: Hashing, dss: seq<Datasource>) returns (topic: string)
    requires FitsArray(dss)
    ensures IsCanonicalTopic(topic)
    ensures forall g, i :: g in GroupedDataSources(dss) && 0 <= i < MAX_TOPICS ==> TopicAt(h, g.handler, i) != topic
  {
    var topics := TestedTopics(h, Pairs(dss));
    Pow16Grows(9, TOPIC_LENGTH - 2);
    assert Pow16(5) == 0x10_0000;
    topic := FreshHex(topics, TOPIC_LENGTH - 2);
    forall g | g in GroupedDataSources(dss)
      ensures forall i :: 0 <= i < MAX_TOPICS ==> TopicAt(h, g.handler, i) != topic
    {
      var p := GroupHandlerHasPair(dss, g);
    }
  }
}
