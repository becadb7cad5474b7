/** Hex strings, case folding and the signature caches of packages/node/src/utils/string.ts. */
module Strings {
  import opened Collections

  // ---------- case folding ----------

  function LowerChar(c: char): char {
    if 'A' <= c <= 'Z' then (c as int + 32) as char else c
  }

  function ToLower(s: string): (r: string)
    ensures |r| == |s| && forall i :: 0 <= i < |s| ==> r[i] == LowerChar(s[i])
  {
    seq(|s|, i requires 0 <= i < |s| => LowerChar(s[i]))
  }

  lemma ToLowerIdempotent(s: string)
    ensures ToLower(ToLower(s)) == ToLower(s)
  {
  }

  function StringNormalizedEq(a: string, b: Option<string>): bool {
    b.Some? && ToLower(a) == ToLower(b.value)
  }

  // ---------- hex strings ----------

  predicate IsHexDigit(c: char) {
    '0' <= c <= '9' || 'a' <= c <= 'f' || 'A' <= c <= 'F'
  }

  predicate IsHexDigits(s: string) {
    forall i :: 0 <= i < |s| ==> IsHexDigit(s[i])
  }

  predicate IsHexString(s: string) {
    |s| >= 2 && s[..2] == "0x" && IsHexDigits(s[2..])
  }

  function StripZeros(s: string): (r: string)
    ensures r == [] || r[0] != '0'
    ensures |r| <= |s| && (IsHexDigits(s) ==> IsHexDigits(r))
  {
    if s != [] && s[0] == '0' then StripZeros(s[1..]) else s
  }

  function HexStripZeros(s: string): string
    requires IsHexString(s)
  {
    "0x" + StripZeros(s[2..])
  }

  /** Compares two hex strings as the source does; anything else is an error. */
  function HexStringEq(a: string, b: string): Result<bool> {
    if !IsHexString(a) || !IsHexString(b) then
      Err("Inputs are not hex strings")
    else
      Ok(StringNormalizedEq(HexStripZeros(a), Some(HexStripZeros(b))))
  }

  // ---------- what hex strings denote ----------

  function DigitValue(c: char): (v: nat)
    requires IsHexDigit(c)
    ensures v < 16
    ensures v == 0 <==> c == '0'
  {
    if '0' <= c <= '9' then c as int - '0' as int
    else if 'a' <= c <= 'f' then c as int - 'a' as int + 10
    else c as int - 'A' as int + 10
  }

  lemma DigitValueInjective(c: char, d: char)
    requires IsHexDigit(c) && IsHexDigit(d)
    ensures DigitValue(c) == DigitValue(d) <==> LowerChar(c) == LowerChar(d)
  {
  }

  /** The natural number a big-endian string of hex digits denotes. */
  function DigitsValue(s: string): nat
    requires IsHexDigits(s)
  {
    if s == [] then 0 else DigitsValue(s[..|s| - 1]) * 16 + DigitValue(s[|s| - 1])
  }

  function HexValue(s: string): nat
    requires IsHexString(s)
  {
    DigitsValue(s[2..])
  }

  lemma {:induction false} LeadingZeroIsWorthless(s: string)
    requires IsHexDigits(s) && s != [] && s[0] == '0'
    ensures IsHexDigits(s[1..]) && DigitsValue(s) == DigitsValue(s[1..])
  {
    if |s| > 1 {
      LeadingZeroIsWorthless(s[..|s| - 1]);
      assert s[..|s| - 1][1..] == s[1..][..|s| - 2];
    }
  }

  lemma {:induction false} StripZerosKeepsValue(s: string)
    requires IsHexDigits(s)
    ensures IsHexDigits(StripZeros(s)) && DigitsValue(StripZeros(s)) == DigitsValue(s)
  {
    if s != [] && s[0] == '0' {
      LeadingZeroIsWorthless(s);
      StripZerosKeepsValue(s[1..]);
    }
  }

  lemma {:induction false} StrippedIsPositive(s: string)
    requires IsHexDigits(s) && s != [] && s[0] != '0'
    ensures DigitsValue(s) > 0
  {
    if |s| > 1 {
      StrippedIsPositive(s[..|s| - 1]);
    }
  }

  /** Without leading zeros, digits are determined by the number, up to letter case. */
  lemma {:induction false} StrippedDigitsAreUnique(a: string, b: string)
    requires IsHexDigits(a) && (a == [] || a[0] != '0')
    requires IsHexDigits(b) && (b == [] || b[0] != '0')
    ensures DigitsValue(a) == DigitsValue(b) <==> ToLower(a) == ToLower(b)
  {
    if a == [] || b == [] {
      if a != [] { StrippedIsPositive(a); }
      if b != [] { StrippedIsPositive(b); }
    } else {
      var a', b' := a[..|a| - 1], b[..|b| - 1];
      StrippedDigitsAreUnique(a', b');
      DigitValueInjective(a[|a| - 1], b[|b| - 1]);
      assert ToLower(a) == ToLower(a') + [LowerChar(a[|a| - 1])];
      assert ToLower(b) == ToLower(b') + [LowerChar(b[|b| - 1])];
    }
  }

  lemma LowerOfPrefixed(s: string)
    ensures ToLower("0x" + s) == "0x" + ToLower(s)
  {
  }

  /** Main result: on hex strings of any length the comparison decides equality of the numbers
      denoted, so padding and letter case never matter; on anything else it is an error. */
  lemma HexStringEqIsNumericEquality(a: string, b: string)
    ensures HexStringEq(a, b).Err? <==> !IsHexString(a) || !IsHexString(b)
    ensures HexStringEq(a, b).Ok? ==> HexStringEq(a, b).value == (HexValue(a) == HexValue(b))
  {
    if IsHexString(a) && IsHexString(b) {
      StripZerosKeepsValue(a[2..]);
      StripZerosKeepsValue(b[2..]);
      StrippedDigitsAreUnique(StripZeros(a[2..]), StripZeros(b[2..]));
      LowerOfPrefixed(StripZeros(a[2..]));
      LowerOfPrefixed(StripZeros(b[2..]));
      assert ("0x" + ToLower(StripZeros(a[2..])))[2..] == ToLower(StripZeros(a[2..]));
      assert ("0x" + ToLower(StripZeros(b[2..])))[2..] == ToLower(StripZeros(b[2..]));
    }
  }

  // ---------- canonical 32-byte topics ----------

  predicate IsLowerHexDigits(s: string) {
    forall i :: 0 <= i < |s| ==> IsHexDigit(s[i]) && LowerChar(s[i]) == s[i]
  }

  predicate IsLowerHex(s: string) {
    |s| >= 2 && s[..2] == "0x" && IsLowerHexDigits(s[2..])
  }

  const TOPIC_LENGTH: nat := 66 // "0x" and 64 digits

  predicate IsCanonicalTopic(s: string) {
    IsLowerHex(s) && |s| == TOPIC_LENGTH
  }

  lemma {:induction false} SameWidthSameValue(a: string, b: string)
    requires IsLowerHexDigits(a) && IsLowerHexDigits(b) && |a| == |b|
    requires DigitsValue(a) == DigitsValue(b)
    ensures a == b
  {
    if a != [] {
      var n := |a| - 1;
      SameWidthSameValue(a[..n], b[..n]);
      DigitValueInjective(a[n], b[n]);
      assert a == a[..n] + [a[n]] && b == b[..n] + [b[n]];
    }
  }

  /** On canonical topics the comparison is plain string equality: the fact that lets a
      dictionary query test with `equalTo` what the handler tests with `hexStringEq`. */
  lemma CanonicalTopicsCompareAsStrings(a: string, b: string)
    requires IsCanonicalTopic(a) && IsCanonicalTopic(b)
    ensures HexStringEq(a, b) == Ok(a == b)
  {
    HexStringEqIsNumericEquality(a, b);
    if HexValue(a) == HexValue(b) {
      SameWidthSameValue(a[2..], b[2..]);
      assert a == a[..2] + a[2..] && b == b[..2] + b[2..];
    }
  }

  /** More than 64 significant digits: no 32-byte topic denotes this number. */
  predicate ExceedsTopic(s: string)
    requires IsHexString(s)
  {
    |StripZeros(s[2..])| > TOPIC_LENGTH - 2
  }

  function Zeros(n: nat): (r: string)
    ensures |r| == n && forall i :: 0 <= i < n ==> r[i] == '0'
  {
    seq(n, _ => '0')
  }

  lemma {:induction false} StripPadding(n: nat, s: string)
    requires s == [] || s[0] != '0'
    ensures StripZeros(Zeros(n) + s) == s
  {
    if n == 0 {
      assert Zeros(0) + s == s;
    } else {
      StripPadding(n - 1, s);
      assert (Zeros(n) + s)[1..] == Zeros(n - 1) + s;
    }
  }

  function PadTopic(digits: string): (r: string)
    requires IsLowerHexDigits(digits) && |digits| <= TOPIC_LENGTH - 2
    ensures IsCanonicalTopic(r)
  {
    var padded := Zeros(TOPIC_LENGTH - 2 - |digits|) + digits;
    assert forall i :: 0 <= i < |padded| ==>
      padded[i] == '0' || padded[i] == digits[i - (TOPIC_LENGTH - 2 - |digits|)];
    assert ("0x" + padded)[2..] == padded;
    "0x" + padded
  }

  lemma LowerOfHexDigits(s: string)
    requires IsHexDigits(s)
    ensures IsLowerHexDigits(ToLower(s))
  {
  }

  /** The canonical topic denoting the same number. */
  function Canonicalise(s: string): (r: string)
    requires IsHexString(s) && !ExceedsTopic(s)
    ensures IsCanonicalTopic(r)
  {
    LowerOfHexDigits(StripZeros(s[2..]));
    PadTopic(ToLower(StripZeros(s[2..])))
  }

  lemma CanonicalIsHex(s: string)
    requires IsLowerHex(s)
    ensures IsHexString(s)
  {
  }

  lemma StripPadTopic(digits: string)
    requires IsLowerHexDigits(digits) && |digits| <= TOPIC_LENGTH - 2
    requires digits == [] || digits[0] != '0'
    ensures IsHexString(PadTopic(digits)) && HexStripZeros(PadTopic(digits)) == "0x" + digits
  {
    CanonicalIsHex(PadTopic(digits));
    var padded := Zeros(TOPIC_LENGTH - 2 - |digits|) + digits;
    assert PadTopic(digits)[2..] == padded;
    StripPadding(TOPIC_LENGTH - 2 - |digits|, digits);
  }

  lemma CanonicaliseDenotesTheSame(s: string)
    requires IsHexString(s) && !ExceedsTopic(s)
    ensures HexStringEq(s, Canonicalise(s)) == Ok(true)
  {
    var stripped := StripZeros(s[2..]);
    LowerOfHexDigits(stripped);
    StripPadTopic(ToLower(stripped));
    LowerOfPrefixed(stripped);
    LowerOfPrefixed(ToLower(stripped));
    ToLowerIdempotent(stripped);
  }

  /** A canonical topic cannot equal a number that does not fit it. */
  lemma OversizedNeverEqual(s: string, topic: string)
    requires IsHexString(s) && ExceedsTopic(s) && IsCanonicalTopic(topic)
    ensures HexStringEq(s, topic) == Ok(false)
  {
  }

  // ---------- addresses ----------

  const ADDRESS_LENGTH: nat := 42 // "0x" and 40 digits

  predicate IsAddress(s: string) {
    IsHexString(s) && |s| == ADDRESS_LENGTH
  }

  function ZeroAddress(): (s: string)
    ensures IsAddress(s)
  {
    "0x" + Zeros(ADDRESS_LENGTH - 2)
  }

  /** The address of forty equal digits. */
  function AddressOf(digit: char): (s: string)
    requires IsHexDigit(digit)
    ensures IsAddress(s) && s[2] == digit
  {
    "0x" + seq(ADDRESS_LENGTH - 2, _ => digit)
  }

  lemma AddressOfNames(digit: char)
    requires IsHexDigit(digit)
    ensures NamesAddress(AddressOf(digit))
  {
  }

  /** Some address equals this text up to letter case. */
  predicate NamesAddress(s: string) {
    IsAddress(ToLower(s))
  }

  lemma OnlyNamesEqualAddresses(s: string, address: string)
    requires IsAddress(address) && ToLower(s) == ToLower(address)
    ensures NamesAddress(s)
  {
  }

  // ---------- signatures and their caches ----------

  /** Keccak hashing of parsed signatures, left uninterpreted. */
  datatype Hashing = Hashing(topicOf: string -> string, sighashOf: string -> string)

  const SIGHASH_LENGTH: nat := 10 // "0x" and 8 digits

  ghost predicate ProperHashing(h: Hashing) {
    && (forall s: string :: IsCanonicalTopic(h.topicOf(s)))
    && (forall s: string :: IsLowerHex(h.sighashOf(s)) && |h.sighashOf(s)| == SIGHASH_LENGTH)
  }

  function EventToTopic(h: Hashing, input: string): string {
    if IsHexString(input) then input else h.topicOf(input)
  }

  function FunctionToSighash(h: Hashing, input: string): string {
    if IsHexString(input) then input else h.sighashOf(input)
  }

  /** Hex input is a topic or a selector already; only signatures are hashed. */
  lemma OnlySignaturesAreHashed(h: Hashing, input: string)
    ensures IsHexString(input) ==> EventToTopic(h, input) == input == FunctionToSighash(h, input)
    ensures !IsHexString(input) ==> EventToTopic(h, input) == h.topicOf(input)
    ensures !IsHexString(input) ==> FunctionToSighash(h, input) == h.sighashOf(input)
  {
  }

  /** The two module-level dictionaries that memoise the hashes. */
  class SignatureCache {
    const hashing: Hashing
    var topics: map<string, string>
    var sighashes: map<string, string>

    ghost predicate Valid()
      reads this
    {
      && (forall k :: k in topics ==> topics[k] == hashing.topicOf(k))
      && (forall k :: k in sighashes ==> sighashes[k] == hashing.sighashOf(k))
    }

    constructor (hashing: Hashing)
      ensures Valid() && this.hashing == hashing && topics == map[] && sighashes == map[]
    {
      this.hashing := hashing;
      topics, sighashes := map[], map[];
    }

    method Topic(input: string) returns (topic: string)
      requires Valid()
      modifies this`topics
      ensures Valid()
      ensures topic == EventToTopic(hashing, input)
      ensures topics == if IsHexString(input) then old(topics) else old(topics)[input := topic]
    {
      if IsHexString(input) {
        return input;
      }
      if input !in topics || topics[input] == "" {
        topics := topics[input := hashing.topicOf(input)];
      }
      topic := topics[input];
      assert topics == old(topics)[input := topic];
    }

    method Sighash(input: string) returns (sighash: string)
      requires Valid()
      modifies this`sighashes
      ensures Valid()
      ensures sighash == FunctionToSighash(hashing, input)
      ensures sighashes == if IsHexString(input) then old(sighashes) else old(sighashes)[input := sighash]
    {
      if IsHexString(input) {
        return input;
      }
      if input !in sighashes || sighashes[input] == "" {
        sighashes := sighashes[input := hashing.sighashOf(input)];
      }
      sighash := sighashes[input];
      assert sighashes == old(sighashes)[input := sighash];
    }
  }
}
