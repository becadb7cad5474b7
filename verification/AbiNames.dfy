/** Names of overloaded functions and events in generated interfaces: `prepareAbiJob` and
    `joinInputAbiName` of packages/common-ethereum/src/codegen/codegen-controller.ts. */
module AbiNames {
  import opened Collections
  import opened Strings
  import opened AbiSignatures

  /** `kind` is the ABI's `type`: "function", "event" or anything else. */
  datatype AbiItem = AbiItem(kind: string, name: string, inputs: seq<AbiInput>)

  /** What reading an ABI file yields: an array, an artifact with an `abi`, or neither. */
  datatype ReadAbi = Items(items: seq<AbiItem>) | Artifact(abi: seq<AbiItem>) | NoAbi

  datatype Asset = Asset(key: string, content: ReadAbi)

  datatype FunctionProps = FunctionProps(typeName: string, functionName: string)

  datatype RenderProps = RenderProps(name: string, events: seq<string>, functions: seq<FunctionProps>)

  // ---------- names ----------

  function OfKind(items: seq<AbiItem>, kind: string): seq<AbiItem> {
    if items == [] then []
    else
      OfKind(items[..|items| - 1], kind)
      + (if items[|items| - 1].kind == kind then [items[|items| - 1]] else [])
  }

  function NamesOf(items: seq<AbiItem>): (r: seq<string>)
    ensures |r| == |items| && forall i :: 0 <= i < |r| ==> r[i] == items[i].name
  {
    seq(|items|, i requires 0 <= i < |items| => items[i].name)
  }

  /** The names at positions that are not their first: `filter(indexOf(name) !== index)`. */
  function Repeated(names: seq<string>): seq<string> {
    if names == [] then []
    else
      var front, last := names[..|names| - 1], names[|names| - 1];
      Repeated(front) + (if last in front then [last] else [])
  }

  function ReplaceBrackets(s: string): string {
    if |s| < 2 then s
    else if s[..2] == "[]" then "_arr" + ReplaceBrackets(s[2..])
    else [s[0]] + ReplaceBrackets(s[1..])
  }

  function JoinTypes(inputs: seq<AbiInput>): string {
    if inputs == [] then ""
    else
      var first := ToLower(ReplaceBrackets(inputs[0].abiType));
      if |inputs| == 1 then first else first + "_" + JoinTypes(inputs[1..])
  }

  function JoinInputAbiName(item: AbiItem): string {
    item.name + "_" + JoinTypes(item.inputs) + "_"
  }

  function FunctionNameOf(item: AbiItem, repeated: seq<string>): string {
    if item.name in repeated then item.name + InputsToArgs(item.inputs) else item.name
  }

  function TypeNameOf(item: AbiItem, repeated: seq<string>): string {
    if item.name in repeated then JoinInputAbiName(item) else item.name
  }

  function FunctionPropsOf(items: seq<AbiItem>, repeated: seq<string>): (r: seq<FunctionProps>)
    ensures |r| == |items|
    ensures forall i :: 0 <= i < |r| ==>
      r[i] == FunctionProps(TypeNameOf(items[i], repeated), FunctionNameOf(items[i], repeated))
  {
    seq(|items|, i requires 0 <= i < |items| =>
      FunctionProps(TypeNameOf(items[i], repeated), FunctionNameOf(items[i], repeated)))
  }

  function EventNamesOf(items: seq<AbiItem>, repeated: seq<string>): (r: seq<string>)
    ensures |r| == |items| && forall i :: 0 <= i < |r| ==> r[i] == TypeNameOf(items[i], repeated)
  {
    seq(|items|, i requires 0 <= i < |items| => TypeNameOf(items[i], repeated))
  }

  function Render(key: string, items: seq<AbiItem>): RenderProps {
    var functions, events := OfKind(items, "function"), OfKind(items, "event");
    RenderProps(key, EventNamesOf(events, Repeated(NamesOf(events))),
                FunctionPropsOf(functions, Repeated(NamesOf(functions))))
  }

  function ItemsOf(content: ReadAbi): Result<seq<AbiItem>> {
    match content
    case NoAbi => Err("Provided ABI is not a valid ABI or Artifact")
    case Items(items) => if items == [] then Err("Invalid abi is provided") else Ok(items)
    case Artifact(items) => if items == [] then Err("Invalid abi is provided") else Ok(items)
  }

  // ---------- the imperative job ----------

  /** Renders every asset in order, or fails with the error of the first that is invalid. */
  method PrepareAbiJob(sortedAssets: seq<Asset>) returns (r: Result<seq<RenderProps>>)
    ensures r.Ok? <==> forall i :: 0 <= i < |sortedAssets| ==> ItemsOf(sortedAssets[i].content).Ok?
    ensures r.Ok? ==>
      && |r.value| == |sortedAssets|
      && forall i :: 0 <= i < |sortedAssets| ==>
           r.value[i] == Render(sortedAssets[i].key, ItemsOf(sortedAssets[i].content).value)
    ensures r.Err? ==>
      exists i :: 0 <= i < |sortedAssets| && ItemsOf(sortedAssets[i].content) == Err(r.error)
               && forall j :: 0 <= j < i ==> ItemsOf(sortedAssets[j].content).Ok?
  {
    var jobs: seq<RenderProps> := [];
    var i := 0;
    while i < |sortedAssets|
      invariant 0 <= i <= |sortedAssets| && |jobs| == i
      invariant forall k :: 0 <= k < i ==>
        && ItemsOf(sortedAssets[k].content).Ok?
        && jobs[k] == Render(sortedAssets[k].key, ItemsOf(sortedAssets[k].content).value)
    {
      var items := ItemsOf(sortedAssets[i].content);
      if items.Err? {
        return Err(items.error);
      }
      var props := RenderItems(sortedAssets[i].key, items.value);
      jobs := jobs + [props];
      i := i + 1;
    }
    r := Ok(jobs);
  }

  /** One pass over the items of an ABI, pushing functions and events in ABI order. */
  method RenderItems(key: string, items: seq<AbiItem>) returns (props: RenderProps)
    ensures props == Render(key, items)
  {
    var repeatedEvents := Repeated(NamesOf(OfKind(items, "event")));
    var repeatedFunctions := Repeated(NamesOf(OfKind(items, "function")));
    var events: seq<string>, functions: seq<FunctionProps> := [], [];
    var i := 0;
    while i < |items|
      invariant 0 <= i <= |items|
      invariant events == EventNamesOf(OfKind(items[..i], "event"), repeatedEvents)
      invariant functions == FunctionPropsOf(OfKind(items[..i], "function"), repeatedFunctions)
    {
      assert items[..i + 1][..i] == items[..i];
      var item := items[i];
      if item.kind == "function" {
        var typeName, functionName := item.name, item.name;
        if item.name in repeatedFunctions {
          functionName := item.name + InputsToArgs(item.inputs);
          typeName := JoinInputAbiName(item);
        }
        functions := functions + [FunctionProps(typeName, functionName)];
      }
      if item.kind == "event" {
        var name := item.name;
        if item.name in repeatedEvents {
          name := JoinInputAbiName(item);
        }
        events := events + [name];
      }
      i := i + 1;
    }
    assert items[..i] == items;
    props := RenderProps(key, events, functions);
  }

  // ---------- overloads ----------

  lemma {:induction false} RepeatedMeansTwice(names: seq<string>, name: string)
    ensures name in Repeated(names) <==> exists i, j :: 0 <= i < j < |names| && names[i] == name && names[j] == name
  {
    if names != [] {
      var front, last := names[..|names| - 1], names[|names| - 1];
      RepeatedMeansTwice(front, name);
      if name in Repeated(front) {
        var i, j :| 0 <= i < j < |front| && front[i] == name && front[j] == name;
        assert names[i] == name && names[j] == name;
      } else if last in front && last == name {
        var i :| 0 <= i < |front| && front[i] == last;
        assert names[i] == name && names[|names| - 1] == name;
      }
      if i, j :| 0 <= i < j < |names| && names[i] == name && names[j] == name {
        assert front[i] == name;
        if j < |front| {
          assert front[j] == name;
        }
      }
    }
  }

  predicate NameIsPlain(name: string) {
    forall i :: 0 <= i < |name| ==> name[i] != '('
  }

  lemma SplitAtParenthesis(a: string, b: string, x: string, y: string)
    requires NameIsPlain(a) && NameIsPlain(b) && x != "" && y != "" && x[0] == '(' && y[0] == '('
    ensures a + x == b + y <==> a == b && x == y
  {
    if a + x == b + y {
      assert (a + x)[|a|] == '(' && (b + y)[|b|] == '(';
      assert a == (a + x)[..|a|] && b == (b + y)[..|b|];
      assert x == (a + x)[|a|..] && y == (b + y)[|b|..];
    }
  }

  /** Names have no parentheses and argument types are printable. */
  predicate PrintableItems(items: seq<AbiItem>) {
    forall i :: 0 <= i < |items| ==> NameIsPlain(items[i].name) && AllPrintable(Shapes(items[i].inputs))
  }

  predicate SameSignature(a: AbiItem, b: AbiItem) {
    a.name == b.name && Shapes(a.inputs) == Shapes(b.inputs)
  }

  predicate DistinctFunctionNames(props: seq<FunctionProps>) {
    forall i, j :: 0 <= i < j < |props| ==> props[i].functionName != props[j].functionName
  }

  predicate DistinctSignatures(items: seq<AbiItem>) {
    forall i, j :: 0 <= i < j < |items| ==> !SameSignature(items[i], items[j])
  }

  /** Two function items get one name exactly when name and argument types agree. */
  lemma NamesClashExactly(functions: seq<AbiItem>, i: nat, j: nat)
    requires PrintableItems(functions) && i < j < |functions|
    ensures var repeated := Repeated(NamesOf(functions));
      FunctionNameOf(functions[i], repeated) == FunctionNameOf(functions[j], repeated)
      <==> SameSignature(functions[i], functions[j])
  {
    var repeated := Repeated(NamesOf(functions));
    var a, b := functions[i], functions[j];
    var x, y := InputsToArgs(a.inputs), InputsToArgs(b.inputs);
    SameTextExactly(a.inputs, b.inputs);
    SplitAtParenthesis(a.name, b.name, x, y);
    if a.name == b.name {
      RepeatedMeansTwice(NamesOf(functions), a.name);
      assert NamesOf(functions)[i] == a.name && NamesOf(functions)[j] == a.name;
    } else {
      assert (a.name + x)[|a.name|] == '(' && (b.name + y)[|b.name|] == '(';
    }
  }

  lemma PlainNameExactly(functions: seq<AbiItem>, i: nat)
    requires i < |functions|
    ensures FunctionNameOf(functions[i], Repeated(NamesOf(functions))) == functions[i].name
       <==> forall j :: 0 <= j < |functions| && j != i ==> functions[j].name != functions[i].name
  {
    var names, name := NamesOf(functions), functions[i].name;
    RepeatedMeansTwice(names, name);
    assert |name + InputsToArgs(functions[i].inputs)| > |name|;
    if j :| 0 <= j < |functions| && j != i && functions[j].name == name {
      assert names[Min(i, j)] == name && names[Max(i, j)] == name;
    }
    if p, q :| 0 <= p < q < |names| && names[p] == name && names[q] == name {
      assert functions[p].name == name && functions[q].name == name;
    }
  }

  /** Event names and type names are plain exactly when the name occurs once. */
  lemma PlainTypeNameExactly(items: seq<AbiItem>, i: nat)
    requires i < |items|
    ensures TypeNameOf(items[i], Repeated(NamesOf(items))) == items[i].name
       <==> forall j :: 0 <= j < |items| && j != i ==> items[j].name != items[i].name
  {
    PlainNameExactly(items, i);
    assert |JoinInputAbiName(items[i])| > |items[i].name|;
    assert |items[i].name + InputsToArgs(items[i].inputs)| > |items[i].name|;
  }

  predicate HasBrackets(s: string) {
    exists i :: 0 < i < |s| && s[i - 1] == '[' && s[i] == ']'
  }

  lemma {:induction false} ReplacedStart(s: string)
    requires s != ""
    ensures ReplaceBrackets(s) != ""
    ensures ReplaceBrackets(s)[0] == if |s| > 1 && s[..2] == "[]" then '_' else s[0]
  {
  }

  /** The replacement removes every pair of brackets, and only when there is one changes anything. */
  lemma {:induction false} BracketsAreReplaced(s: string)
    ensures !HasBrackets(ReplaceBrackets(s))
    ensures ReplaceBrackets(s) == s <==> !HasBrackets(s)
  {
    if |s| >= 2 {
      ReplacedStart(s);
      ReplacedStart(s[1..]);
      if s[..2] == "[]" {
        assert s[0] == '[' && s[1] == ']';
        BracketsAreReplaced(s[2..]);
      } else {
        BracketsAreReplaced(s[1..]);
      }
    }
  }

  lemma {:induction false} FunctionNamesDistinctExactly(functions: seq<AbiItem>)
    requires PrintableItems(functions)
    ensures DistinctFunctionNames(FunctionPropsOf(functions, Repeated(NamesOf(functions))))
       <==> DistinctSignatures(functions)
  {
    var props := FunctionPropsOf(functions, Repeated(NamesOf(functions)));
    forall i, j | 0 <= i < j < |functions|
      ensures props[i].functionName == props[j].functionName <==> SameSignature(functions[i], functions[j])
    {
      NamesClashExactly(functions, i, j);
    }
  }

  /** Main result: overload names are distinct exactly when the function items differ pairwise in
      name or argument types; there is one for each function, in ABI order, and it is the plain name
      exactly when that name occurs once. */
  lemma {:induction false} OverloadNamesNeverClash(key: string, items: seq<AbiItem>)
    requires PrintableItems(OfKind(items, "function"))
    ensures var functions, props := OfKind(items, "function"), Render(key, items).functions;
      && |props| == |functions|
      && (DistinctFunctionNames(props) <==> DistinctSignatures(functions))
      && forall i :: 0 <= i < |functions| ==>
           (props[i].functionName == functions[i].name
            <==> forall j :: 0 <= j < |functions| && j != i ==> functions[j].name != functions[i].name)
  {
    var functions := OfKind(items, "function");
    FunctionNamesDistinctExactly(functions);
    forall i | 0 <= i < |functions|
      ensures Render(key, items).functions[i].functionName == functions[i].name
         <==> forall j :: 0 <= j < |functions| && j != i ==> functions[j].name != functions[i].name
    {
      PlainNameExactly(functions, i);
    }
  }

  // ---------- what a job contains ----------

  lemma {:induction false} OfKindConcat(items: seq<AbiItem>, more: seq<AbiItem>, kind: string)
    ensures OfKind(items + more, kind) == OfKind(items, kind) + OfKind(more, kind)
  {
    if more != [] {
      OfKindConcat(items, more[..|more| - 1], kind);
      assert (items + more)[..|items + more| - 1] == items + more[..|more| - 1];
    } else {
      assert items + [] == items;
    }
  }

  /** `filter`: the items of the kind, all of them and in ABI order. */
  lemma {:induction false} OfKindExactly(before: seq<AbiItem>, item: AbiItem, after: seq<AbiItem>, kind: string)
    ensures OfKind(before + [item] + after, kind)
         == OfKind(before, kind) + (if item.kind == kind then [item] else []) + OfKind(after, kind)
  {
    OfKindConcat(before + [item], after, kind);
    OfKindConcat(before, [item], kind);
    assert [item][..0] == [];
  }

  /** Every pair of brackets becomes `_arr`, and nothing else changes. */
  lemma {:induction false} BracketsBecomeArr(before: string, after: string)
    ensures ReplaceBrackets(before + "[]" + after) == ReplaceBrackets(before) + "_arr" + ReplaceBrackets(after)
    decreases |before|
  {
    var s := before + "[]" + after;
    if before == [] {
      assert s[..2] == "[]" && s[2..] == after;
    } else if |before| == 1 {
      assert s[1..] == [] + "[]" + after;
      BracketsBecomeArr([], after);
    } else if before[..2] == "[]" {
      assert s[..2] == "[]" && s[2..] == before[2..] + "[]" + after;
      BracketsBecomeArr(before[2..], after);
    } else {
      assert s[..2] == before[..2] && s[1..] == before[1..] + "[]" + after;
      BracketsBecomeArr(before[1..], after);
    }
  }

  lemma {:induction false} JoinTypesStep(first: AbiInput, rest: seq<AbiInput>)
    requires rest != []
    ensures JoinTypes([first] + rest) == ToLower(ReplaceBrackets(first.abiType)) + "_" + JoinTypes(rest)
  {
    assert ([first] + rest)[1..] == rest;
  }

  lemma Regroup(a: string, b: string, c: string, d: string)
    ensures a + b + (c + d) == a + b + c + d
  {
  }

  lemma {:induction false} JoinTypesConcat(a: seq<AbiInput>, b: seq<AbiInput>)
    requires a != [] && b != []
    ensures JoinTypes(a + b) == JoinTypes(a) + ("_" + JoinTypes(b))
  {
    var first, rest := a[0], a[1..];
    var text := ToLower(ReplaceBrackets(first.abiType));
    assert a == [first] + rest;
    if rest == [] {
      assert a + b == [first] + b;
      JoinTypesStep(first, b);
      Regroup(text, "", "_", JoinTypes(b));
    } else {
      assert a + b == [first] + (rest + b);
      JoinTypesStep(first, rest + b);
      JoinTypesStep(first, rest);
      JoinTypesConcat(rest, b);
      Regroup(text, "_", JoinTypes(rest), "_" + JoinTypes(b));
    }
  }

  /** `join`: the lower-cased types, with their brackets replaced and underscores between them. */
  lemma JoinTypesExactly(input: AbiInput, before: seq<AbiInput>, after: seq<AbiInput>)
    ensures JoinTypes([]) == "" && JoinTypes([input]) == ToLower(ReplaceBrackets(input.abiType))
    ensures before != [] && after != [] ==> JoinTypes(before + after) == JoinTypes(before) + ("_" + JoinTypes(after))
  {
    if before != [] && after != [] {
      JoinTypesConcat(before, after);
    }
  }

  predicate OccursOnce(items: seq<AbiItem>, i: nat)
    requires i < |items|
  {
    forall j :: 0 <= j < |items| && j != i ==> items[j].name != items[i].name
  }

  /** The text that tells apart items of one name: the name, the types and underscores. */
  predicate IsJoinedName(item: AbiItem, text: string) {
    text == item.name + "_" + JoinTypes(item.inputs) + "_"
  }

  lemma {:induction false} RepeatedIsNotOnce(items: seq<AbiItem>, i: nat)
    requires i < |items|
    ensures items[i].name in Repeated(NamesOf(items)) <==> !OccursOnce(items, i)
  {
    var names, name := NamesOf(items), items[i].name;
    RepeatedMeansTwice(names, name);
    if !OccursOnce(items, i) {
      var j :| 0 <= j < |items| && j != i && items[j].name == name;
      assert names[Min(i, j)] == name && names[Max(i, j)] == name;
    }
    if p, q :| 0 <= p < q < |names| && names[p] == name && names[q] == name {
      assert items[p].name == name && items[q].name == name;
    }
  }

  /** Main result: a job bears its asset's name, and has one event name for each event item, in ABI order: the
      plain name exactly when it occurs once among the events, and otherwise the joined one. */
  lemma {:induction false} EventsExactly(key: string, items: seq<AbiItem>)
    ensures var events, job := OfKind(items, "event"), Render(key, items);
      && job.name == key && |job.events| == |events|
      && forall i :: 0 <= i < |events| ==>
           && (job.events[i] == events[i].name <==> OccursOnce(events, i))
           && (!OccursOnce(events, i) ==> IsJoinedName(events[i], job.events[i]))
  {
    var events := OfKind(items, "event");
    forall i | 0 <= i < |events|
      ensures events[i].name in Repeated(NamesOf(events)) <==> !OccursOnce(events, i)
      ensures Render(key, items).events[i] == events[i].name <==> OccursOnce(events, i)
    {
      RepeatedIsNotOnce(events, i);
      PlainTypeNameExactly(events, i);
    }
  }

  /** Main result: and one pair of names for each function item, in ABI order: both plain exactly when the name
      occurs once among the functions, and otherwise the joined name and the name with its argument types. */
  lemma {:induction false} FunctionsExactly(key: string, items: seq<AbiItem>)
    ensures var functions, props := OfKind(items, "function"), Render(key, items).functions;
      && |props| == |functions|
      && forall i :: 0 <= i < |functions| ==>
           if OccursOnce(functions, i)
           then props[i] == FunctionProps(functions[i].name, functions[i].name)
           else && IsJoinedName(functions[i], props[i].typeName) && props[i].typeName != functions[i].name
                && props[i].functionName == functions[i].name + InputsToArgs(functions[i].inputs)
  {
    var functions := OfKind(items, "function");
    forall i | 0 <= i < |functions|
      ensures functions[i].name in Repeated(NamesOf(functions)) <==> !OccursOnce(functions, i)
      ensures Render(key, items).functions[i].typeName == functions[i].name <==> OccursOnce(functions, i)
    {
      RepeatedIsNotOnce(functions, i);
      PlainTypeNameExactly(functions, i);
    }
  }

  /** An ABI is read from an array or from an artifact, and must not be empty. */
  lemma AbiIsReadExactly(content: ReadAbi, items: seq<AbiItem>)
    ensures ItemsOf(content) == Ok(items) <==> items != [] && (content == Items(items) || content == Artifact(items))
    ensures ItemsOf(content) == Err("Invalid abi is provided") <==> content == Items([]) || content == Artifact([])
    ensures ItemsOf(content).Err? ==>
      ItemsOf(content).error == "Invalid abi is provided"
      || (content.NoAbi? && ItemsOf(content).error == "Provided ABI is not a valid ABI or Artifact")
  {
  }
}
