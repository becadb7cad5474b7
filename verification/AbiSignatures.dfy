/** The argument-list printer `inputsToArgs` of
    packages/common-ethereum/src/codegen/codegen-controller.ts, and a parser that inverts it. */
module AbiSignatures {
  import opened Collections
  import opened Strings

  /** An ABI input with or without a `components` property. */
  datatype AbiInput = Simple(abiType: string) | Composite(abiType: string, components: seq<AbiInput>)

  // ---------- printing ----------

  function TypeText(input: AbiInput): string
    decreases input, 1
  {
    if input.Composite? then
      var inner := InputsToArgs(input.components);
      if input.abiType == "tuple[]" then inner + "[]" else inner
    else ToLower(input.abiType)
  }

  function ArgsText(inputs: seq<AbiInput>): string
    decreases inputs, 0
  {
    if inputs == [] then ""
    else if |inputs| == 1 then TypeText(inputs[0])
    else TypeText(inputs[0]) + "," + ArgsText(inputs[1..])
  }

  function InputsToArgs(inputs: seq<AbiInput>): string
    decreases inputs, 1
  {
    "(" + ArgsText(inputs) + ")"
  }

  // ---------- what the text can tell ----------

  /** The type tree up to letter case; of the array suffixes of a tuple only `[]` is kept. */
  datatype TypeTree = Elementary(text: string) | Tuple(parts: seq<TypeTree>, isArray: bool)

  function Shape(input: AbiInput): TypeTree
    decreases input, 1
  {
    if input.Composite? then Tuple(Shapes(input.components), input.abiType == "tuple[]")
    else Elementary(ToLower(input.abiType))
  }

  function Shapes(inputs: seq<AbiInput>): (r: seq<TypeTree>)
    ensures |r| == |inputs|
    decreases inputs, 0
  {
    if inputs == [] then [] else [Shape(inputs[0])] + Shapes(inputs[1..])
  }

  function TreeText(t: TypeTree): string
    decreases t, 1
  {
    match t
    case Elementary(text) => text
    case Tuple(parts, isArray) => "(" + TreesText(parts) + ")" + (if isArray then "[]" else "")
  }

  function TreesText(ts: seq<TypeTree>): string
    decreases ts, 0
  {
    if ts == [] then ""
    else if |ts| == 1 then TreeText(ts[0])
    else TreeText(ts[0]) + "," + TreesText(ts[1..])
  }

  lemma {:induction false} TextOfShape(input: AbiInput)
    ensures TypeText(input) == TreeText(Shape(input))
    decreases input, 1
  {
    if input.Composite? {
      TextOfShapes(input.components);
    }
  }

  /** The printer looks at nothing but the shapes. */
  lemma {:induction false} TextOfShapes(inputs: seq<AbiInput>)
    ensures ArgsText(inputs) == TreesText(Shapes(inputs))
    decreases inputs, 0
  {
    if inputs != [] {
      TextOfShape(inputs[0]);
      TextOfShapes(inputs[1..]);
      assert Shapes(inputs)[1..] == Shapes(inputs[1..]);
    }
  }

  // ---------- printable types ----------

  predicate IsDelimiter(c: char) {
    c == '(' || c == ')' || c == ','
  }

  predicate IsWord(s: string) {
    s != "" && forall i :: 0 <= i < |s| ==> !IsDelimiter(s[i])
  }

  /** Elementary types are non-empty and contain no parentheses or commas. */
  predicate Printable(t: TypeTree)
    decreases t, 1
  {
    match t
    case Elementary(text) => IsWord(text)
    case Tuple(parts, _) => AllPrintable(parts)
  }

  predicate AllPrintable(ts: seq<TypeTree>)
    decreases ts, 0
  {
    ts == [] || (Printable(ts[0]) && AllPrintable(ts[1..]))
  }

  // ---------- parsing ----------

  datatype Parsed<T> = Failure | Success(value: T, rest: string)

  function WordLength(s: string): (n: nat)
    ensures n <= |s| && forall i :: 0 <= i < n ==> !IsDelimiter(s[i])
    ensures n < |s| ==> IsDelimiter(s[n])
  {
    if s == "" || IsDelimiter(s[0]) then 0 else 1 + WordLength(s[1..])
  }

  function ParseType(s: string): (r: Parsed<TypeTree>)
    ensures r.Success? ==> |r.rest| < |s|
    decreases |s|, 0
  {
    if s == "" then Failure
    else if s[0] == '(' then
      match ParseArgs(s[1..])
      case Failure => Failure
      case Success(parts, rest) =>
        if |rest| >= 2 && rest[..2] == "[]" then Success(Tuple(parts, true), rest[2..])
        else Success(Tuple(parts, false), rest)
    else
      var n := WordLength(s);
      if n == 0 then Failure else Success(Elementary(s[..n]), s[n..])
  }

  /** After the opening parenthesis, up to and including the closing one. */
  function ParseArgs(s: string): (r: Parsed<seq<TypeTree>>)
    ensures r.Success? ==> |r.rest| < |s|
    decreases |s|, 2
  {
    if s != "" && s[0] == ')' then Success([], s[1..]) else ParseList(s)
  }

  function ParseList(s: string): (r: Parsed<seq<TypeTree>>)
    ensures r.Success? ==> |r.rest| < |s|
    decreases |s|, 1
  {
    match ParseType(s)
    case Failure => Failure
    case Success(first, rest) =>
      if rest == "" then Failure
      else if rest[0] == ')' then Success([first], rest[1..])
      else if rest[0] == ',' then
        match ParseList(rest[1..])
        case Failure => Failure
        case Success(more, rest') => Success([first] + more, rest')
      else Failure
  }

  /** A whole argument list. */
  function Parse(s: string): Option<seq<TypeTree>> {
    if s == "" || s[0] != '(' then None
    else
      match ParseArgs(s[1..])
      case Failure => None
      case Success(parts, rest) => if rest == "" then Some(parts) else None
  }

  // ---------- the parser inverts the printer ----------

  /** What may follow a type. */
  predicate EndsType(rest: string) {
    rest != "" && (rest[0] == ',' || rest[0] == ')')
  }

  lemma {:induction false} WordLengthOf(word: string, rest: string)
    requires IsWord(word) && EndsType(rest)
    ensures WordLength(word + rest) == |word|
  {
    var n := WordLength(word + rest);
    assert (word + rest)[|word|] == rest[0];
  }

  lemma TextStarts(t: TypeTree)
    requires Printable(t)
    ensures TreeText(t) != "" && TreeText(t)[0] != ')' && TreeText(t)[0] != ','
  {
  }

  lemma {:induction false} ParseTypeText(t: TypeTree, rest: string)
    requires Printable(t) && EndsType(rest)
    ensures ParseType(TreeText(t) + rest) == Success(t, rest)
    decreases t, 1
  {
    var s := TreeText(t) + rest;
    match t {
      case Elementary(text) =>
        WordLengthOf(text, rest);
        assert s[..|text|] == text && s[|text|..] == rest;
      case Tuple(parts, isArray) =>
        var suffix := (if isArray then "[]" else "") + rest;
        ParseArgsText(parts, suffix);
        assert s[1..] == TreesText(parts) + (")" + suffix);
        if isArray {
          assert suffix[..2] == "[]" && suffix[2..] == rest;
        } else {
          assert suffix == rest;
          assert |rest| >= 2 ==> rest[..2][0] != '[';
        }
    }
  }

  lemma {:induction false} ParseArgsText(ts: seq<TypeTree>, rest: string)
    requires AllPrintable(ts)
    ensures ParseArgs(TreesText(ts) + (")" + rest)) == Success(ts, rest)
    decreases ts, 1
  {
    var s := TreesText(ts) + (")" + rest);
    if ts == [] {
      assert s[1..] == rest;
    } else {
      TextStarts(ts[0]);
      assert s[0] == TreeText(ts[0])[0];
      ParseListText(ts, rest);
    }
  }

  lemma {:induction false} ParseListText(ts: seq<TypeTree>, rest: string)
    requires ts != [] && AllPrintable(ts)
    ensures ParseList(TreesText(ts) + (")" + rest)) == Success(ts, rest)
    decreases ts, 0
  {
    var s := TreesText(ts) + (")" + rest);
    if |ts| == 1 {
      ParseTypeText(ts[0], ")" + rest);
      assert (")" + rest)[1..] == rest;
      assert ts == [ts[0]];
    } else {
      var more := TreesText(ts[1..]) + (")" + rest);
      assert s == TreeText(ts[0]) + ("," + more);
      ParseTypeText(ts[0], "," + more);
      assert ("," + more)[1..] == more;
      ParseListText(ts[1..], rest);
      assert ts == [ts[0]] + ts[1..];
    }
  }

  /** Main result: the type trees can be read back from the printed arguments, at any nesting. */
  lemma {:induction false} ArgsCanBeReadBack(inputs: seq<AbiInput>)
    requires AllPrintable(Shapes(inputs))
    ensures Parse(InputsToArgs(inputs)) == Some(Shapes(inputs))
  {
    TextOfShapes(inputs);
    ParseArgsText(Shapes(inputs), "");
    assert InputsToArgs(inputs)[1..] == TreesText(Shapes(inputs)) + (")" + "");
  }

  /** Main result: two argument lists print alike exactly when their shapes agree. */
  lemma {:induction false} SameTextExactly(a: seq<AbiInput>, b: seq<AbiInput>)
    requires AllPrintable(Shapes(a)) && AllPrintable(Shapes(b))
    ensures InputsToArgs(a) == InputsToArgs(b) <==> Shapes(a) == Shapes(b)
  {
    ArgsCanBeReadBack(a);
    ArgsCanBeReadBack(b);
    TextOfShapes(a);
    TextOfShapes(b);
  }

  /** What is lost: fixed-size and nested arrays of tuples print like a plain tuple. */
  lemma FixedTupleArraysClash()
    ensures var word := Simple("uint256");
      var a, b := [Composite("tuple", [word])], [Composite("tuple[2]", [word])];
      a != b && InputsToArgs(a) == InputsToArgs(b)
  {
  }
}
