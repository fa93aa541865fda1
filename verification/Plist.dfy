// The budgeted plist decoder (src/playCoverCompat.ts:47-100), from parsed XML nodes to values.
module Plist {
  import opened Prelude
  import opened Json

  const MAX_NODES: nat := 10000
  const MAX_DEPTH: nat := 16
  const MAX_SAFE_INTEGER: int := 0x1F_FFFF_FFFF_FFFF

  /** Nodes of an order-preserving parse; `Other` has no element name (processing instructions). */
  datatype XmlNode = Text(text: string) | Element(name: string, children: seq<XmlNode>) | Other

  /** `Number(text)` when that is finite. */
  type NumberReader = string -> Option<real>

  /** The children that have an element name. */
  function Named(children: seq<XmlNode>): (named: seq<XmlNode>)
    ensures forall x :: x in named ==> x in children && x.Element?
  {
    if children == [] then []
    else (if children[0].Element? then [children[0]] else []) + Named(children[1..])
  }

  /** The first text child, or nothing. */
  function TextOf(children: seq<XmlNode>): string {
    if children == [] then ""
    else if children[0].Text? then children[0].text
    else TextOf(children[1..])
  }

  /** Elements at odd positions: the values of a dictionary. */
  function Odd(nodes: seq<XmlNode>): (odd: seq<XmlNode>)
    ensures |odd| == |nodes| / 2
    ensures forall i :: 0 <= i < |odd| ==> odd[i] == nodes[2 * i + 1]
  {
    if |nodes| < 2 then [] else [nodes[1]] + Odd(nodes[2..])
  }

  ghost predicate AreBelow(kids: seq<XmlNode>, parent: XmlNode) {
    forall i :: 0 <= i < |kids| ==> kids[i] < parent
  }

  /** The nodes that the decoder visits below a node. */
  function ValueChildren(node: XmlNode): (kids: seq<XmlNode>)
    ensures AreBelow(kids, node)
  {
    if !node.Element? then []
    else
      var named := Named(node.children);
      assert forall i :: 0 <= i < |named| ==> named[i] in named && named[i] in node.children;
      assert AreBelow(named, node);
      if node.name == "array" then named
      else if node.name == "dict" then Odd(named)
      else []
  }

  // ----- size, height and meaning, without any budget -----

  function Size(node: XmlNode): nat
    decreases node, 1
  {
    1 + SizeOf(ValueChildren(node), node)
  }

  function SizeOf(kids: seq<XmlNode>, parent: XmlNode): nat
    requires AreBelow(kids, parent)
    decreases parent, 0, |kids|
  {
    if kids == [] then 0 else SizeOf(kids[..|kids| - 1], parent) + Size(kids[|kids| - 1])
  }

  /** Depth of the deepest value below the node. */
  function Height(node: XmlNode): nat
    decreases node, 1
  {
    HeightOf(ValueChildren(node), node)
  }

  function HeightOf(kids: seq<XmlNode>, parent: XmlNode): nat
    requires AreBelow(kids, parent)
    decreases parent, 0, |kids|
  {
    if kids == [] then 0 else Max(HeightOf(kids[..|kids| - 1], parent), 1 + Height(kids[|kids| - 1]))
  }

  predicate IsSafeKey(key: string) {
    key != "" && key != "__proto__" && key != "prototype" && key != "constructor"
  }

  predicate IsSafeInteger(n: Option<real>) {
    n.Some? && n.value == n.value.Floor as real && -MAX_SAFE_INTEGER <= n.value.Floor <= MAX_SAFE_INTEGER
  }

  predicate IsKeyNode(node: XmlNode) {
    node.Element? && node.name == "key" && IsSafeKey(TextOf(node.children))
  }

  /** Keys and values alternate. */
  predicate AlternatesKeys(named: seq<XmlNode>) {
    |named| % 2 == 0 && forall i :: 0 <= i < |named| / 2 ==> IsKeyNode(named[2 * i])
  }

  /** What a node requires of itself, its value children apart. */
  predicate IsLocallySound(node: XmlNode, number: NumberReader) {
    node.Element?
    && (|| node.name in {"string", "key", "true", "false", "array"}
        || (node.name == "integer" && IsSafeInteger(number(TextOf(node.children))))
        || (node.name == "real" && number(TextOf(node.children)).Some?)
        || (node.name == "dict" && AlternatesKeys(Named(node.children))))
  }

  predicate IsWellFormed(node: XmlNode, number: NumberReader)
    decreases node
  {
    IsLocallySound(node, number) && forall i :: 0 <= i < |ValueChildren(node)| ==> IsWellFormed(ValueChildren(node)[i], number)
  }

  /** `Object.fromEntries`: later entries win. */
  function FromEntries(named: seq<XmlNode>, values: seq<Json>): Fields
    requires |values| <= |named| / 2
    requires forall i :: 0 <= i < |named| ==> named[i].Element?
  {
    if values == [] then map[]
    else
      var n := |values| - 1;
      FromEntries(named, values[..n])[TextOf(named[2 * n].children) := values[n]]
  }

  function Meaning(node: XmlNode, number: NumberReader): Json
    requires IsWellFormed(node, number)
    decreases node, 1
  {
    match node.name
    case "string" => Str(TextOf(node.children))
    case "key" => Str(TextOf(node.children))
    case "integer" => Num(number(TextOf(node.children)).value)
    case "real" => Num(number(TextOf(node.children)).value)
    case "true" => Bool(true)
    case "false" => Bool(false)
    case "array" => Arr(MeaningOf(ValueChildren(node), node, number))
    case _ => Obj(FromEntries(Named(node.children), MeaningOf(ValueChildren(node), node, number)))
  }

  function MeaningOf(kids: seq<XmlNode>, parent: XmlNode, number: NumberReader): (values: seq<Json>)
    requires AreBelow(kids, parent)
    requires forall i :: 0 <= i < |kids| ==> IsWellFormed(kids[i], number)
    ensures |values| == |kids|
    decreases parent, 0, |kids|
  {
    if kids == [] then []
    else MeaningOf(kids[..|kids| - 1], parent, number) + [Meaning(kids[|kids| - 1], number)]
  }

  // ----- the decoder as the program runs it -----

  class Counter {
    var value: nat

    constructor ()
      ensures value == 0
    {
      value := 0;
    }
  }

  /** The node and its count and depth budgets. */
  ghost predicate Fits(node: XmlNode, number: NumberReader, used: nat, depth: nat) {
    IsWellFormed(node, number) && used + Size(node) <= MAX_NODES && depth + Height(node) <= MAX_DEPTH
  }

  /** The first n value children fit, one after the other. */
  ghost predicate KidsFit(node: XmlNode, number: NumberReader, used: nat, depth: nat, n: nat)
    requires n <= |ValueChildren(node)|
  {
    var kids := ValueChildren(node)[..n];
    && (forall i :: 0 <= i < n ==> IsWellFormed(ValueChildren(node)[i], number))
    && used + 1 + SizeOf(kids, node) <= MAX_NODES
    && depth + HeightOf(kids, node) <= MAX_DEPTH
  }

  lemma KidsFitStep(node: XmlNode, number: NumberReader, used: nat, depth: nat, n: nat)
    requires n < |ValueChildren(node)|
    ensures KidsFit(node, number, used, depth, n + 1)
       <==> KidsFit(node, number, used, depth, n)
            && Fits(ValueChildren(node)[n], number, used + 1 + SizeOf(ValueChildren(node)[..n], node), depth + 1)
    ensures SizeOf(ValueChildren(node)[..n + 1], node) == SizeOf(ValueChildren(node)[..n], node) + Size(ValueChildren(node)[n])
  {
    hide ValueChildren, IsWellFormed, Size, Height;
    var kids := ValueChildren(node);
    assert kids[..n + 1][..n] == kids[..n];
  }

  lemma MeaningStep(node: XmlNode, number: NumberReader, n: nat)
    requires n < |ValueChildren(node)|
    requires forall i :: 0 <= i <= n ==> IsWellFormed(ValueChildren(node)[i], number)
    ensures MeaningOf(ValueChildren(node)[..n + 1], node, number)
         == MeaningOf(ValueChildren(node)[..n], node, number) + [Meaning(ValueChildren(node)[n], number)]
  {
    hide ValueChildren, IsWellFormed, Meaning;
    var kids := ValueChildren(node);
    assert kids[..n + 1][..n] == kids[..n];
  }

  lemma MeaningWhole(node: XmlNode, number: NumberReader)
    requires IsWellFormed(node, number)
    ensures ValueChildren(node)[..|ValueChildren(node)|] == ValueChildren(node)
    ensures node.name == "array" ==> Meaning(node, number) == Arr(MeaningOf(ValueChildren(node), node, number))
    ensures node.name == "dict" ==>
              |ValueChildren(node)| == |Named(node.children)| / 2
              && Meaning(node, number) ==
                   Obj(FromEntries(Named(node.children), MeaningOf(ValueChildren(node), node, number)))
  {
    hide MeaningOf, FromEntries;
  }

  lemma ArrayChildren(node: XmlNode, number: NumberReader)
    requires node.Element? && node.name == "array"
    ensures ValueChildren(node) == Named(node.children)
    ensures IsLocallySound(node, number)
  {
  }

  lemma DictChildren(node: XmlNode, number: NumberReader)
    requires node.Element? && node.name == "dict"
    ensures ValueChildren(node) == Odd(Named(node.children))
    ensures IsLocallySound(node, number) <==> AlternatesKeys(Named(node.children))
  {
  }

  /** If all children fit, so do the first n. */
  lemma {:induction false} KidsFitPrefix(node: XmlNode, number: NumberReader, used: nat, depth: nat, n: nat)
    requires n <= |ValueChildren(node)|
    requires KidsFit(node, number, used, depth, |ValueChildren(node)|)
    ensures KidsFit(node, number, used, depth, n)
    decreases |ValueChildren(node)| - n
  {
    if n < |ValueChildren(node)| {
      KidsFitPrefix(node, number, used, depth, n + 1);
      KidsFitStep(node, number, used, depth, n);
    }
  }

  lemma FitsIff(node: XmlNode, number: NumberReader, used: nat, depth: nat)
    ensures Fits(node, number, used, depth)
       <==> IsLocallySound(node, number) && KidsFit(node, number, used, depth, |ValueChildren(node)|)
    ensures Size(node) == 1 + SizeOf(ValueChildren(node)[..|ValueChildren(node)|], node)
  {
    assert ValueChildren(node)[..|ValueChildren(node)|] == ValueChildren(node);
  }

  lemma NoKidsFit(node: XmlNode, number: NumberReader, used: nat, depth: nat)
    ensures KidsFit(node, number, used, depth, 0) <==> used + 1 <= MAX_NODES && depth <= MAX_DEPTH
    ensures SizeOf(ValueChildren(node)[..0], node) == 0
    ensures MeaningOf([], node, number) == []
  {
    hide ValueChildren;
  }

  lemma KidsFitMeans(node: XmlNode, number: NumberReader, used: nat, depth: nat, n: nat)
    requires n <= |ValueChildren(node)|
    requires KidsFit(node, number, used, depth, n)
    ensures forall i :: 0 <= i < n ==> IsWellFormed(ValueChildren(node)[i], number)
    ensures forall i :: 0 <= i < |ValueChildren(node)| ==> ValueChildren(node)[i] < node
  {
    hide ValueChildren, IsWellFormed, SizeOf, HeightOf;
  }

  lemma FitsMeans(node: XmlNode, number: NumberReader, used: nat, depth: nat)
    requires Fits(node, number, used, depth)
    ensures IsWellFormed(node, number)
  {
    hide IsWellFormed;
  }

  /** Succeeds exactly on well-formed trees within both budgets, and then counts exactly the visited nodes. */
  method PlistValue(node: XmlNode, depth: nat, count: Counter, number: NumberReader) returns (result: Option<Json>)
    modifies count
    ensures result.Some? <==> Fits(node, number, old(count.value), depth)
    ensures result.Some? ==> result.value == Meaning(node, number) && count.value == old(count.value) + Size(node)
    decreases node, 1
  {
    ghost var used := count.value;
    FitsIff(node, number, used, depth);
    count.value := count.value + 1;
    if count.value > MAX_NODES || depth > MAX_DEPTH {
      return None;
    }
    if !node.Element? {
      return None;
    }
    if node.name == "string" || node.name == "key" {
      return Some(Str(TextOf(node.children)));
    }
    if node.name == "integer" {
      var value := number(TextOf(node.children));
      return if IsSafeInteger(value) then Some(Num(value.value)) else None;
    }
    if node.name == "real" {
      var value := number(TextOf(node.children));
      return if value.Some? then Some(Num(value.value)) else None;
    }
    if node.name == "true" {
      return Some(Bool(true));
    }
    if node.name == "false" {
      return Some(Bool(false));
    }
    if node.name == "array" {
      result := ArrayValue(node, depth, count, number, used);
    } else if node.name == "dict" {
      result := DictValue(node, depth, count, number, used);
    } else {
      result := None;
    }
  }

  method ArrayValue(node: XmlNode, depth: nat, count: Counter, number: NumberReader, ghost used: nat) returns (result: Option<Json>)
    requires node.Element? && node.name == "array"
    requires count.value == used + 1 <= MAX_NODES && depth <= MAX_DEPTH
    modifies count
    ensures result.Some? <==> Fits(node, number, used, depth)
    ensures result.Some? ==> result.value == Meaning(node, number) && count.value == used + Size(node)
    decreases node, 0
  {
    hide ValueChildren, Named, IsWellFormed, Meaning, MeaningOf, Size, SizeOf, Height, HeightOf, IsLocallySound, Fits, KidsFit;
    FitsIff(node, number, used, depth);
    ArrayChildren(node, number);
    NoKidsFit(node, number, used, depth);
    var kids := Named(node.children);
    var values: seq<Json> := [];
    for i := 0 to |kids|
      invariant KidsFit(node, number, used, depth, i)
      invariant forall j :: 0 <= j < i ==> IsWellFormed(kids[j], number)
      invariant values == MeaningOf(kids[..i], node, number)
      invariant count.value == used + 1 + SizeOf(kids[..i], node)
    {
      KidsFitStep(node, number, used, depth, i);
      KidsFitMeans(node, number, used, depth, i);
      var value := PlistValue(kids[i], depth + 1, count, number);
      if value.None? {
        if Fits(node, number, used, depth) {
          KidsFitPrefix(node, number, used, depth, i + 1);
        }
        return None;
      }
      KidsFitMeans(node, number, used, depth, i + 1);
      MeaningStep(node, number, i);
      values := values + [value.value];
    }
    FitsMeans(node, number, used, depth);
    MeaningWhole(node, number);
    result := Some(Arr(values));
  }

  lemma NoEntries(children: seq<XmlNode>)
    requires forall i :: 0 <= i < |children| ==> children[i].Element?
    ensures FromEntries(children, []) == map[]
  {
  }

  lemma EntriesStep(children: seq<XmlNode>, values: seq<Json>, value: Json)
    requires |values| < |children| / 2
    requires forall i :: 0 <= i < |children| ==> children[i].Element?
    ensures FromEntries(children, values + [value]) == FromEntries(children, values)[TextOf(children[2 * |values|].children) := value]
  {
    hide TextOf;
    assert (values + [value])[..|values|] == values;
  }

  lemma BadPair(children: seq<XmlNode>, n: nat)
    requires 2 * n < |children|
    requires forall i :: 0 <= i < |children| ==> children[i].Element?
    ensures AlternatesKeys(children) ==> 2 * n + 1 < |children| && IsKeyNode(children[2 * n])
    ensures IsKeyNode(children[2 * n]) <==> children[2 * n].name == "key" && IsSafeKey(TextOf(children[2 * n].children))
  {
    hide TextOf, IsSafeKey;
  }

  lemma AllPairsGood(children: seq<XmlNode>)
    requires |children| % 2 == 0
    requires forall i :: 0 <= i < |children| / 2 ==> IsKeyNode(children[2 * i])
    ensures AlternatesKeys(children)
  {
  }

  method DictValue(node: XmlNode, depth: nat, count: Counter, number: NumberReader, ghost used: nat) returns (result: Option<Json>)
    requires node.Element? && node.name == "dict"
    requires count.value == used + 1 <= MAX_NODES && depth <= MAX_DEPTH
    modifies count
    ensures result.Some? <==> Fits(node, number, used, depth)
    ensures result.Some? ==> result.value == Meaning(node, number) && count.value == used + Size(node)
    decreases node, 0
  {
    hide ValueChildren, Named, IsWellFormed, Meaning, MeaningOf, Size, SizeOf, Height, HeightOf, IsLocallySound, Fits, KidsFit;
    hide Odd, FromEntries, AlternatesKeys, IsKeyNode, TextOf;
    FitsIff(node, number, used, depth);
    DictChildren(node, number);
    NoKidsFit(node, number, used, depth);
    var children := Named(node.children);
    NoEntries(children);
    ghost var kids := ValueChildren(node);
    ghost var values: seq<Json> := [];
    var entries: Fields := map[];
    var index := 0;
    while index < |children|
      invariant index % 2 == 0 && index / 2 <= |kids| && index <= |children|
      invariant forall i :: 0 <= i < index / 2 ==> IsKeyNode(children[2 * i])
      invariant KidsFit(node, number, used, depth, index / 2)
      invariant forall j :: 0 <= j < index / 2 ==> IsWellFormed(kids[j], number)
      invariant values == MeaningOf(kids[..index / 2], node, number)
      invariant entries == FromEntries(children, values)
      invariant count.value == used + 1 + SizeOf(kids[..index / 2], node)
    {
      var keyNode := children[index];
      ghost var n := index / 2;
      BadPair(children, n);
      if keyNode.name != "key" || index + 1 == |children| {
        return None;
      }
      var key := TextOf(keyNode.children);
      if !IsSafeKey(key) {
        return None;
      }
      KidsFitStep(node, number, used, depth, n);
      KidsFitMeans(node, number, used, depth, n);
      var value := PlistValue(children[index + 1], depth + 1, count, number);
      if value.None? {
        if Fits(node, number, used, depth) {
          KidsFitPrefix(node, number, used, depth, n + 1);
        }
        return None;
      }
      KidsFitMeans(node, number, used, depth, n + 1);
      MeaningStep(node, number, n);
      EntriesStep(children, values, value.value);
      entries := entries[key := value.value];
      values := values + [value.value];
      index := index + 2;
    }
    AllPairsGood(children);
    FitsMeans(node, number, used, depth);
    MeaningWhole(node, number);
    result := Some(Obj(entries));
  }

  // ----- what each kind of node means -----

  /** The text of a node is its first text child, whatever stands around it. */
  lemma {:induction false} TextIsFirst(before: seq<XmlNode>, text: string, after: seq<XmlNode>)
    requires forall x :: x in before ==> !x.Text?
    ensures TextOf(before + [Text(text)] + after) == text
    ensures TextOf(before) == ""
  {
    if before == [] {
      assert before + [Text(text)] + after == [Text(text)] + after;
    } else {
      assert before[0] in before;
      TextIsFirst(before[1..], text, after);
      assert (before + [Text(text)] + after)[1..] == before[1..] + [Text(text)] + after;
    }
  }

  lemma NamedStep(a: seq<XmlNode>)
    requires a != []
    ensures Named(a) == (if a[0].Element? then [a[0]] else []) + Named(a[1..])
  {
  }

  /** Filtering keeps exactly the elements, in order. */
  lemma {:induction false} NamedConcat(a: seq<XmlNode>, b: seq<XmlNode>)
    ensures Named(a + b) == Named(a) + Named(b)
  {
    if a == [] {
      assert a + b == b;
    } else {
      hide Named;
      assert (a + b)[1..] == a[1..] + b;
      NamedStep(a);
      NamedStep(a + b);
      NamedConcat(a[1..], b);
      assert Named(a + b) == (if a[0].Element? then [a[0]] else []) + (Named(a[1..]) + Named(b));
    }
  }

  lemma NamedOfOne(x: XmlNode)
    ensures Named([x]) == if x.Element? then [x] else []
  {
    assert [x][1..] == [];
  }

  /** Values without children: texts, numbers that are finite, and safe when whole, and the two truth values. */
  lemma LeafMeans(children: seq<XmlNode>, number: NumberReader)
    ensures var text := TextOf(children);
            && IsWellFormed(Element("string", children), number) && Meaning(Element("string", children), number) == Str(text)
            && IsWellFormed(Element("key", children), number) && Meaning(Element("key", children), number) == Str(text)
            && IsWellFormed(Element("true", children), number) && Meaning(Element("true", children), number) == Bool(true)
            && IsWellFormed(Element("false", children), number) && Meaning(Element("false", children), number) == Bool(false)
            && (IsWellFormed(Element("real", children), number) <==> number(text).Some?)
            && (number(text).Some? ==> Meaning(Element("real", children), number) == Num(number(text).value))
  {
    hide TextOf;
  }

  ghost predicate IsWhole(value: Option<real>, n: int) {
    value == Some(n as real)
  }

  lemma SafeIntegerIff(value: Option<real>)
    ensures IsSafeInteger(value) <==> exists n :: IsWhole(value, n) && -9007199254740991 <= n <= 9007199254740991
  {
    if IsSafeInteger(value) {
      assert IsWhole(value, value.value.Floor);
    }
  }

  lemma IntegerMeans(children: seq<XmlNode>, number: NumberReader)
    ensures var value := number(TextOf(children));
            && (IsWellFormed(Element("integer", children), number) <==>
                  exists n :: IsWhole(value, n) && -9007199254740991 <= n <= 9007199254740991)
            && (IsWellFormed(Element("integer", children), number) ==>
                  value.Some? && Meaning(Element("integer", children), number) == Num(value.value))
  {
    hide TextOf, IsWhole, IsSafeInteger;
    SafeIntegerIff(number(TextOf(children)));
    assert ValueChildren(Element("integer", children)) == [];
    assert IsWellFormed(Element("integer", children), number) <==> IsSafeInteger(number(TextOf(children)));
    if IsSafeInteger(number(TextOf(children))) {
      SafeIsSome(number(TextOf(children)));
    }
  }

  lemma SafeIsSome(value: Option<real>)
    requires IsSafeInteger(value)
    ensures value.Some?
  {
  }

  /** No other element means anything. */
  lemma OnlyKnownElements(node: XmlNode, number: NumberReader)
    requires IsWellFormed(node, number)
    ensures node.Element? && node.name in {"string", "key", "integer", "real", "true", "false", "array", "dict"}
  {
  }

  lemma {:induction false} MeaningAt(kids: seq<XmlNode>, parent: XmlNode, number: NumberReader, i: nat)
    requires AreBelow(kids, parent) && i < |kids|
    requires forall j :: 0 <= j < |kids| ==> IsWellFormed(kids[j], number)
    ensures MeaningOf(kids, parent, number)[i] == Meaning(kids[i], number)
    decreases |kids|
  {
    hide Meaning, IsWellFormed;
    if i < |kids| - 1 {
      MeaningAt(kids[..|kids| - 1], parent, number, i);
    }
  }

  lemma WellFormedIs(node: XmlNode, number: NumberReader)
    ensures IsWellFormed(node, number) <==>
              IsLocallySound(node, number)
              && forall i :: 0 <= i < |ValueChildren(node)| ==> IsWellFormed(ValueChildren(node)[i], number)
  {
  }

  /** An array is well formed iff its elements are, and means the array of their meanings. */
  lemma ArrayMeans(children: seq<XmlNode>, number: NumberReader, i: nat)
    ensures var node := Element("array", children);
            var kids := Named(children);
            && (IsWellFormed(node, number) <==> forall j :: 0 <= j < |kids| ==> IsWellFormed(kids[j], number))
            && (IsWellFormed(node, number) ==>
                  && Meaning(node, number).Arr? && |Meaning(node, number).items| == |kids|
                  && (i < |kids| ==> Meaning(node, number).items[i] == Meaning(kids[i], number)))
  {
    hide Named, ValueChildren, MeaningOf, IsWellFormed, IsLocallySound, Meaning;
    var node := Element("array", children);
    var kids := Named(children);
    ArrayChildren(node, number);
    WellFormedIs(node, number);
    if IsWellFormed(node, number) {
      MeaningWhole(node, number);
      KidsAreBelow(node);
      if i < |kids| {
        MeaningAt(ValueChildren(node), node, number, i);
      }
    }
  }

  lemma KidsAreBelow(node: XmlNode)
    ensures AreBelow(ValueChildren(node), node)
  {
  }

  function KeyAt(named: seq<XmlNode>, i: nat): string
    requires 2 * i < |named|
  {
    if named[2 * i].Element? then TextOf(named[2 * i].children) else ""
  }

  /** A dictionary is well formed iff safe keys and well-formed values alternate. */
  lemma DictIsWellFormedIff(children: seq<XmlNode>, number: NumberReader)
    ensures var named := Named(children);
            IsWellFormed(Element("dict", children), number) <==>
              && |named| % 2 == 0
              && forall i :: 0 <= i < |named| / 2 ==>
                   && named[2 * i].Element? && named[2 * i].name == "key"
                   && KeyAt(named, i) !in {"", "__proto__", "prototype", "constructor"}
                   && IsWellFormed(named[2 * i + 1], number)
  {
    hide Named, TextOf, ValueChildren, IsWellFormed, IsLocallySound;
    var node := Element("dict", children);
    DictChildren(node, number);
    WellFormedIs(node, number);
    var named := Named(children);
    var kids := Odd(named);
    assert forall i :: 0 <= i < |kids| ==> kids[i] == named[2 * i + 1];
    forall i | 0 <= i < |named| / 2
      ensures IsKeyNode(named[2 * i]) <==>
                named[2 * i].Element? && named[2 * i].name == "key" && KeyAt(named, i) !in {"", "__proto__", "prototype", "constructor"}
    {
    }
    if IsWellFormed(node, number) {
      forall i | 0 <= i < |named| / 2 ensures IsKeyNode(named[2 * i]) && IsWellFormed(named[2 * i + 1], number) {
        assert IsWellFormed(kids[i], number);
      }
    }
  }

  ghost predicate AreElements(named: seq<XmlNode>) {
    forall i :: 0 <= i < |named| ==> named[i].Element?
  }

  lemma EntryStep(named: seq<XmlNode>, values: seq<Json>, key: string)
    requires 1 <= |values| <= |named| / 2 && AreElements(named)
    ensures var n := |values| - 1;
            Get(FromEntries(named, values), key) ==
              if KeyAt(named, n) == key then Some(values[n]) else Get(FromEntries(named, values[..n]), key)
  {
    hide TextOf;
    assert named[2 * (|values| - 1)].Element?;
  }

  lemma {:induction false} EntryAt(named: seq<XmlNode>, values: seq<Json>, key: string, i: nat)
    requires i < |values| <= |named| / 2 && AreElements(named)
    requires KeyAt(named, i) == key && forall j :: i < j < |values| ==> KeyAt(named, j) != key
    ensures Get(FromEntries(named, values), key) == Some(values[i])
    decreases |values|
  {
    hide FromEntries, KeyAt, AreElements;
    var n := |values| - 1;
    EntryStep(named, values, key);
    if i < n {
      EntryAt(named, values[..n], key, i);
    }
  }

  lemma {:induction false} NoEntry(named: seq<XmlNode>, values: seq<Json>, key: string)
    requires |values| <= |named| / 2 && AreElements(named)
    requires forall j :: 0 <= j < |values| ==> KeyAt(named, j) != key
    ensures Get(FromEntries(named, values), key) == None
    decreases |values|
  {
    hide KeyAt, AreElements;
    if values != [] {
      EntryStep(named, values, key);
      NoEntry(named, values[..|values| - 1], key);
    }
  }

  lemma DictParts(children: seq<XmlNode>, number: NumberReader)
    requires IsWellFormed(Element("dict", children), number)
    ensures var node := Element("dict", children);
            var kids := ValueChildren(node);
            && AreElements(Named(children)) && AreBelow(kids, node) && |kids| == |Named(children)| / 2
            && (forall j :: 0 <= j < |kids| ==> IsWellFormed(kids[j], number))
            && Meaning(node, number) == Obj(FromEntries(Named(children), MeaningOf(kids, node, number)))
  {
    hide IsWellFormed, Meaning, MeaningOf, FromEntries, Named;
    var node := Element("dict", children);
    MeaningWhole(node, number);
    DictKidsAreSound(node, number);
    NamedAreElements(children);
  }

  lemma NamedAreElements(children: seq<XmlNode>)
    ensures AreElements(Named(children))
  {
    forall i | 0 <= i < |Named(children)| ensures Named(children)[i].Element? {
      assert Named(children)[i] in Named(children);
    }
  }

  lemma DictValueAt(children: seq<XmlNode>, number: NumberReader, i: nat)
    requires 2 * i + 1 < |Named(children)|
    ensures i < |ValueChildren(Element("dict", children))|
    ensures ValueChildren(Element("dict", children))[i] == Named(children)[2 * i + 1]
  {
    hide Named;
    DictChildren(Element("dict", children), number);
  }

  /** A dictionary maps each key to the meaning of the value behind its last occurrence, and holds no other key. */
  lemma DictMeans(children: seq<XmlNode>, number: NumberReader, key: string, i: nat)
    requires IsWellFormed(Element("dict", children), number)
    ensures var named := Named(children);
            var fields := Meaning(Element("dict", children), number);
            && fields.Obj?
            && ((forall j :: 0 <= j < |named| / 2 ==> KeyAt(named, j) != key) ==> key !in fields.fields)
            && (i < |named| / 2 && KeyAt(named, i) == key && (forall j :: i < j < |named| / 2 ==> KeyAt(named, j) != key) ==>
                  IsWellFormed(named[2 * i + 1], number) && Get(fields.fields, key) == Some(Meaning(named[2 * i + 1], number)))
  {
    hide Named, ValueChildren, Meaning, MeaningOf, FromEntries, IsWellFormed, KeyAt, AreElements, AreBelow;
    var node := Element("dict", children);
    var named := Named(children);
    DictParts(children, number);
    var values := MeaningOf(ValueChildren(node), node, number);
    if forall j :: 0 <= j < |named| / 2 ==> KeyAt(named, j) != key {
      NoEntry(named, values, key);
    }
    if i < |named| / 2 && KeyAt(named, i) == key && forall j :: i < j < |named| / 2 ==> KeyAt(named, j) != key {
      EntryAt(named, values, key, i);
      DictValueAt(children, number, i);
      MeaningAt(ValueChildren(node), node, number, i);
    }
  }

  lemma DictKidsAreSound(node: XmlNode, number: NumberReader)
    requires IsWellFormed(node, number)
    ensures forall j :: 0 <= j < |ValueChildren(node)| ==> IsWellFormed(ValueChildren(node)[j], number)
  {
  }

  // ----- the budgets in numbers -----

  const LEAF := Element("true", [])

  lemma NoneNamed()
    ensures Named([]) == []
  {
  }

  lemma {:induction false} NamedOfElements(children: seq<XmlNode>)
    requires forall i :: 0 <= i < |children| ==> children[i].Element?
    ensures Named(children) == children
  {
    hide Named;
    if children == [] {
      NoneNamed();
    } else {
      NamedStep(children);
      NamedOfElements(children[1..]);
      assert children == [children[0]] + children[1..];
    }
  }

  lemma {:induction false} SizeOfLeaves(kids: seq<XmlNode>, parent: XmlNode)
    requires AreBelow(kids, parent) && forall i :: 0 <= i < |kids| ==> kids[i] == LEAF
    ensures SizeOf(kids, parent) == |kids| && HeightOf(kids, parent) <= 1
    decreases |kids|
  {
    if kids != [] {
      assert ValueChildren(LEAF) == [];
      SizeOfLeaves(kids[..|kids| - 1], parent);
    }
  }

  /** An array of n leaves fits a fresh budget iff n is at most 9,999: the array counts too. */
  lemma FlatArrayFitsIff(n: nat, number: NumberReader)
    ensures Fits(Element("array", seq(n, _ => LEAF)), number, 0, 0) <==> n <= 9999
  {
    hide Named, SizeOf, HeightOf, IsWellFormed, ValueChildren, IsLocallySound;
    var leaves := seq(n, _ => LEAF);
    var node := Element("array", leaves);
    NamedOfElements(leaves);
    ArrayChildren(node, number);
    KidsAreBelow(node);
    SizeOfLeaves(ValueChildren(node), node);
    WellFormedIs(node, number);
    LeafMeans([], number);
  }

  function Nested(n: nat): XmlNode {
    if n == 0 then Element("true", []) else Element("array", [Nested(n - 1)])
  }

  lemma {:induction false} NestedIs(n: nat, number: NumberReader)
    ensures IsWellFormed(Nested(n), number) && Size(Nested(n)) == n + 1 && Height(Nested(n)) == n
  {
    if n == 0 {
      assert ValueChildren(Nested(0)) == [];
    } else {
      NestedIs(n - 1, number);
      SingletonArray(Nested(n - 1), number);
    }
  }

  lemma SingletonArray(kid: XmlNode, number: NumberReader)
    requires kid.Element? && IsWellFormed(kid, number)
    ensures var node := Element("array", [kid]);
            IsWellFormed(node, number) && Size(node) == 1 + Size(kid) && Height(node) == 1 + Height(kid)
  {
    hide Named, IsLocallySound, IsWellFormed;
    var node := Element("array", [kid]);
    NamedOfOne(kid);
    ArrayChildren(node, number);
    WellFormedIs(node, number);
    hide ValueChildren;
    KidsAreBelow(node);
    assert [kid][..0] == [];
    OneKid(kid, node);
  }

  lemma OneKid(kid: XmlNode, parent: XmlNode)
    requires AreBelow([kid], parent)
    ensures SizeOf([kid], parent) == Size(kid) && HeightOf([kid], parent) == 1 + Height(kid)
  {
    hide Size, Height;
    assert [kid][..0] == [];
  }

  /** A value inside n arrays fits a fresh budget iff n is at most 16. */
  lemma NestedFitsIff(n: nat, number: NumberReader)
    ensures Fits(Nested(n), number, 0, 0) <==> n <= 16
  {
    NestedIs(n, number);
  }
}
