// Validation of key-mapping profiles (crates/devicehub-core/src/key_mapping.rs).
module KeyMapping {
  import opened Prelude
  import opened Text
  import opened Json

  const HARDWARE_BUTTON_NAMES: seq<string> := ["home", "lock", "volume-up", "volume-down", "mute", "siri", "action"]

  const MAPPING_TYPES: seq<string> :=
    ["touch", "dpad", "SingleTap", "Press", "RepeatTap", "MultipleTap", "Swipe", "DirectionPad", "MouseCastSpell",
     "PadCastSpell", "CancelCast", "Observation", "Fps", "Fire", "RawInput", "Script"]

  const MAX_MAPPINGS: nat := 512
  const MAX_BUNDLES: nat := 32
  const MAX_DIMENSION: nat := 16384

  datatype Resolution = Resolution(width: nat, height: nat)

  datatype Profile = Profile(
    version: nat,
    name: string,
    mappings: seq<Json>,
    bundleIdentifiers: seq<string>,
    targetResolution: Option<Resolution>,
    hardwareBindings: map<string, string>)

  // ----- leaf checks -----

  /** crates/devicehub-core/src/storage.rs:15-29. */
  predicate IsBundleId(id: string) {
    && Utf8Len(id) <= 255
    && '.' in id
    && forall i :: 0 <= i < |Split(id, '.')| ==> IsBundlePart(Split(id, '.')[i])
  }

  predicate IsBundlePart(part: string) {
    part != "" && Utf8Len(part) <= 63 && forall j :: 0 <= j < |part| ==> IsAlphanumeric(part[j]) || part[j] == '-'
  }

  predicate IsProfileName(name: string) {
    && name != "" && Utf8Len(name) <= 80
    && forall i :: 0 <= i < |name| ==> IsAlphanumeric(name[i]) || name[i] == '-' || name[i] == '_'
  }

  predicate IsUnit(n: Option<real>) {
    n.Some? && 0.0 <= n.value <= 1.0
  }

  predicate IsPosition(value: Json) {
    value.Obj? && IsUnit(AsNumber(Get(value.fields, "x"))) && IsUnit(AsNumber(Get(value.fields, "y")))
  }

  predicate HasPosition(item: Json) {
    item.Obj? && "position" in item.fields && IsPosition(item.fields["position"])
  }

  predicate HasValidPositions(m: Fields) {
    && (if "position" in m then IsPosition(m["position"])
        else IsUnit(AsNumber(Get(m, "x"))) && IsUnit(AsNumber(Get(m, "y"))))
    && ("center" in m ==> IsPosition(m["center"]))
    && ("positions" in m ==>
          m["positions"].Arr? && forall i :: 0 <= i < |m["positions"].items| ==> IsPosition(m["positions"].items[i]))
    && ("items" in m ==>
          m["items"].Arr? && forall i :: 0 <= i < |m["items"].items| ==> HasPosition(m["items"].items[i]))
  }

  /** A mapping that the profile accepts, apart from the uniqueness of its id. */
  predicate IsMapping(value: Json) {
    && value.Obj?
    && AsString(Get(value.fields, "id")).Some? && value.fields["id"].s != ""
    && AsString(Get(value.fields, "type")).Some? && IsMappingType(value.fields["type"].s)
    && HasValidPositions(value.fields)
  }

  function IdOf(value: Json): string
    requires IsMapping(value)
  {
    value.fields["id"].s
  }

  predicate IsMappingType(kind: string) {
    kind in MAPPING_TYPES
  }

  // ----- keys bound by a mapping -----

  predicate IsBindingField(name: string) {
    name == "key" || name == "bind" || EndsWith(name, "_bind") || name in {"up", "down", "left", "right"}
  }

  function BoundKeys(value: Json): set<string> {
    match value
    case Arr(items) => set i, key | 0 <= i < |items| && key in BoundKeys(items[i]) :: key
    case Obj(fields) => set name, key | name in fields && IsBindingField(name) && key in BoundKeys(fields[name]) :: key
    case Str(s) => if s == "" then {} else {s}
    case _ => {}
  }

  /** One hop down a value: into an array, or into a field with a binding name. */
  datatype Hop = Index(i: nat) | Field(name: string)

  function Follow(value: Json, hops: seq<Hop>): Option<Json> {
    if hops == [] then Some(value)
    else match (value, hops[0])
      case (Arr(items), Index(i)) => if i < |items| then Follow(items[i], hops[1..]) else None
      case (Obj(fields), Field(name)) =>
        if name in fields && IsBindingField(name) then Follow(fields[name], hops[1..]) else None
      case _ => None
  }

  /** The collected keys are exactly the non-empty strings at the end of some chain of such hops. */
  lemma BoundKeysAreReachable(value: Json, key: string)
    ensures key in BoundKeys(value) <==> key != "" && exists hops :: Follow(value, hops) == Some(Str(key))
  {
    if key in BoundKeys(value) {
      var hops := ReachKey(value, key);
    }
    if hops :| key != "" && Follow(value, hops) == Some(Str(key)) {
      ReachableIsBound(value, key, hops);
    }
  }

  lemma {:induction false} ReachKey(value: Json, key: string) returns (hops: seq<Hop>)
    requires key in BoundKeys(value)
    ensures key != "" && Follow(value, hops) == Some(Str(key))
  {
    match value
    case Arr(items) =>
      var i :| 0 <= i < |items| && key in BoundKeys(items[i]);
      var rest := ReachKey(items[i], key);
      hops := [Index(i)] + rest;
      assert hops[1..] == rest;
    case Obj(fields) =>
      var name :| name in fields && IsBindingField(name) && key in BoundKeys(fields[name]);
      var rest := ReachKey(fields[name], key);
      hops := [Field(name)] + rest;
      assert hops[1..] == rest;
    case Str(s) =>
      hops := [];
  }

  lemma {:induction false} ReachableIsBound(value: Json, key: string, hops: seq<Hop>)
    requires key != "" && Follow(value, hops) == Some(Str(key))
    ensures key in BoundKeys(value)
    decreases |hops|
  {
    if hops != [] {
      match (value, hops[0])
      case (Arr(items), Index(i)) => ReachableIsBound(items[i], key, hops[1..]);
      case (Obj(fields), Field(name)) => ReachableIsBound(fields[name], key, hops[1..]);
    }
  }

  /** Keys under other names are invisible to the validator: a d-pad's `keys` and `up_boost_key` among them. */
  lemma OtherFieldsAreIgnored(fields: Fields, name: string, value: Json)
    requires !IsBindingField(name)
    ensures BoundKeys(Obj(fields[name := value])) == BoundKeys(Obj(fields - {name}))
    ensures !IsBindingField("keys") && !IsBindingField("up_boost_key")
  {
    var more := fields[name := value];
    var fewer := fields - {name};
    forall key | key in BoundKeys(Obj(more)) ensures key in BoundKeys(Obj(fewer)) {
      var n :| n in more && IsBindingField(n) && key in BoundKeys(more[n]);
      BoundInField(fewer, n);
    }
    forall key | key in BoundKeys(Obj(fewer)) ensures key in BoundKeys(Obj(more)) {
      var n :| n in fewer && IsBindingField(n) && key in BoundKeys(fewer[n]);
      BoundInField(more, n);
    }
    assert "up_boost_key"[7..] == "t_key";
  }

  // ----- the declarative meaning of acceptance -----

  ghost predicate Distinct(names: seq<string>) {
    forall i, j :: 0 <= i < j < |names| ==> names[i] != names[j]
  }

  ghost predicate HeaderAccepted(p: Profile) {
    && p.version == 2 && p.name != "" && |p.mappings| <= MAX_MAPPINGS && |p.bundleIdentifiers| <= MAX_BUNDLES
    && (p.bundleIdentifiers == [] <==> p.targetResolution == None)
    && (p.targetResolution.Some? ==>
          1 <= p.targetResolution.value.width <= MAX_DIMENSION && 1 <= p.targetResolution.value.height <= MAX_DIMENSION)
    && p.hardwareBindings.Keys == set name | name in HARDWARE_BUTTON_NAMES
  }

  ghost predicate BundlesAccepted(bundles: seq<string>) {
    Distinct(bundles) && forall i :: 0 <= i < |bundles| ==> IsBundleId(bundles[i])
  }

  ghost predicate MappingsAccepted(mappings: seq<Json>) {
    && (forall i :: 0 <= i < |mappings| ==> IsMapping(mappings[i]))
    && (forall i, j :: 0 <= i < j < |mappings| ==> IdOf(mappings[i]) != IdOf(mappings[j]))
  }

  predicate IsHardwareKey(key: string) {
    Utf8Len(key) <= 64 && forall i :: 0 <= i < |key| ==> IsAlphanumeric(key[i])
  }

  /** Hardware keys are unset, or well formed, bound by no mapping and to no second button. */
  ghost predicate HardwareAccepted(bindings: map<string, string>, mappings: seq<Json>) {
    && (forall name :: name in bindings ==> IsHardwareKey(bindings[name]))
    && (forall name, i :: name in bindings && bindings[name] != "" && 0 <= i < |mappings| ==>
          bindings[name] !in BoundKeys(mappings[i]))
    && (forall a, b :: a in bindings && b in bindings && a != b && bindings[a] != "" ==> bindings[a] != bindings[b])
  }

  ghost predicate Accepted(p: Profile) {
    && HeaderAccepted(p)
    && BundlesAccepted(p.bundleIdentifiers)
    && MappingsAccepted(p.mappings)
    && HardwareAccepted(p.hardwareBindings, p.mappings)
  }

  /** The fields of a mapping that the validator looks at, apart from its bindings. */
  const CHECKED: set<string> := {"id", "type", "position", "x", "y", "center", "positions", "items"}

  lemma UncheckedFieldKeepsMapping(fields: Fields, name: string, value: Json)
    requires name !in CHECKED
    ensures IsMapping(Obj(fields[name := value])) <==> IsMapping(Obj(fields))
    ensures IsMapping(Obj(fields)) ==> IdOf(Obj(fields[name := value])) == IdOf(Obj(fields))
  {
    hide IsMappingType, IsPosition, HasPosition;
  }

  /** One field that is neither checked nor a binding, such as a d-pad's `keys`, never changes the verdict, whatever its keys clash with. */
  lemma IgnoredFieldNeverMatters(p: Profile, i: nat, name: string, value: Json)
    requires i < |p.mappings| && p.mappings[i].Obj? && name !in CHECKED && !IsBindingField(name)
    ensures var other := p.(mappings := p.mappings[i := Obj(p.mappings[i].fields[name := value])]);
            Accepted(other) <==> Accepted(p)
    ensures "keys" !in CHECKED && "up_boost_key" !in CHECKED && !IsBindingField("keys") && !IsBindingField("up_boost_key")
  {
    hide IsMapping, IdOf, BoundKeys, IsHardwareKey, IsBindingField;
    var fields := p.mappings[i].fields;
    var others := p.mappings[i := Obj(fields[name := value])];
    UncheckedFieldKeepsMapping(fields, name, value);
    OtherFieldsAreIgnored(fields, name, value);
    assert forall j :: 0 <= j < |others| ==> (IsMapping(others[j]) <==> IsMapping(p.mappings[j]));
    assert BoundKeys(others[i]) == BoundKeys(p.mappings[i]) by {
      SameWithout(fields, name);
    }
    assert forall j :: 0 <= j < |others| ==> BoundKeys(others[j]) == BoundKeys(p.mappings[j]);
  }

  lemma SameWithout(fields: Fields, name: string)
    requires !IsBindingField(name)
    ensures BoundKeys(Obj(fields - {name})) == BoundKeys(Obj(fields))
  {
    if name in fields {
      assert fields[name := fields[name]] == fields;
      OtherFieldsAreIgnored(fields, name, fields[name]);
    } else {
      assert fields - {name} == fields;
    }
  }

  // ----- the leaf checks in other words -----

  /** A position is an object with two numbers from 0 to 1. */
  lemma PositionIff(value: Json)
    ensures IsPosition(value) <==>
              value.Obj? && exists x: real, y: real ::
                HasNumber(value, "x", x) && HasNumber(value, "y", y) && 0.0 <= x <= 1.0 && 0.0 <= y <= 1.0
  {
    if IsPosition(value) {
      assert HasNumber(value, "x", value.fields["x"].n) && HasNumber(value, "y", value.fields["y"].n);
    }
  }

  ghost predicate HasNumber(value: Json, name: string, n: real) {
    value.Obj? && Get(value.fields, name) == Some(Num(n))
  }

  /** Every place of a mapping is checked: replacing one keeps a valid mapping valid iff the replacement is a position. */
  lemma EveryPlaceIsChecked(m: Fields, v: Json)
    requires HasValidPositions(m)
    ensures HasValidPositions(m["position" := v]) <==> IsPosition(v)
    ensures HasValidPositions(m["center" := v]) <==> IsPosition(v)
    ensures "position" !in m ==> (HasValidPositions(m["x" := v]) <==> v.Num? && 0.0 <= v.n <= 1.0)
    ensures "position" !in m ==> (HasValidPositions(m["y" := v]) <==> v.Num? && 0.0 <= v.n <= 1.0)
  {
    hide IsPosition, HasPosition;
  }

  lemma EveryListedPlaceIsChecked(m: Fields, i: nat, v: Json)
    requires HasValidPositions(m)
    ensures "positions" in m && i < |m["positions"].items| ==>
              (HasValidPositions(m["positions" := Arr(m["positions"].items[i := v])]) <==> IsPosition(v))
    ensures "items" in m && i < |m["items"].items| ==>
              (HasValidPositions(m["items" := Arr(m["items"].items[i := v])])
               <==> v.Obj? && "position" in v.fields && IsPosition(v.fields["position"]))
    ensures HasValidPositions(m["positions" := v]) ==> v.Arr?
    ensures HasValidPositions(m["items" := v]) ==> v.Arr?
  {
    hide IsPosition;
    if "positions" in m && i < |m["positions"].items| {
      assert m["positions"].items[i := v][i] == v;
    }
    if "items" in m && i < |m["items"].items| {
      assert m["items"].items[i := v][i] == v;
    }
  }

  /** A mapping without an id, with an empty one, or without a known type is refused. */
  lemma HeadsAreChecked(m: Fields, v: Json)
    requires IsMapping(Obj(m))
    ensures IsMapping(Obj(m["id" := v])) <==> v.Str? && v.s != ""
    ensures IsMapping(Obj(m["type" := v])) <==> v.Str? && IsMappingType(v.s)
    ensures !IsMapping(Obj(m - {"id"})) && !IsMapping(Obj(m - {"type"}))
  {
    hide IsMappingType, IsPosition, HasPosition;
  }

  /** The sixteen known types, two of them legacy. */
  lemma MappingTypesAre(kind: string)
    ensures IsMappingType(kind) <==>
              kind in {"touch", "dpad", "SingleTap", "Press", "RepeatTap", "MultipleTap", "Swipe", "DirectionPad",
                       "MouseCastSpell", "PadCastSpell", "CancelCast", "Observation", "Fps", "Fire", "RawInput", "Script"}
  {
    assert MAPPING_TYPES[0] == "touch" && MAPPING_TYPES[1] == "dpad" && MAPPING_TYPES[2] == "SingleTap";
    assert MAPPING_TYPES[3] == "Press" && MAPPING_TYPES[4] == "RepeatTap" && MAPPING_TYPES[5] == "MultipleTap";
    assert MAPPING_TYPES[6] == "Swipe" && MAPPING_TYPES[7] == "DirectionPad" && MAPPING_TYPES[8] == "MouseCastSpell";
    assert MAPPING_TYPES[9] == "PadCastSpell" && MAPPING_TYPES[10] == "CancelCast" && MAPPING_TYPES[11] == "Observation";
    assert MAPPING_TYPES[12] == "Fps" && MAPPING_TYPES[13] == "Fire" && MAPPING_TYPES[14] == "RawInput" && MAPPING_TYPES[15] == "Script";
  }

  /** Names with byte limits are plain ASCII, so the limits count characters. */
  lemma HardwareKeyIff(key: string)
    ensures IsHardwareKey(key) <==> |key| <= 64 && forall i :: 0 <= i < |key| ==> key[i] in ALPHANUMERICS
  {
    forall c ensures IsAlphanumeric(c) <==> c in ALPHANUMERICS {
      AlphanumericsAre(c);
    }
    if forall i :: 0 <= i < |key| ==> IsAlphanumeric(key[i]) {
      AsciiLen(key);
    }
  }

  lemma ProfileNameIff(name: string)
    ensures IsProfileName(name) <==> 1 <= |name| <= 80 && forall i :: 0 <= i < |name| ==> name[i] in ALPHANUMERICS + "-_"
  {
    forall c ensures IsAlphanumeric(c) <==> c in ALPHANUMERICS {
      AlphanumericsAre(c);
    }
    assert "-_" == ['-', '_'];
    if forall i :: 0 <= i < |name| ==> IsAlphanumeric(name[i]) || name[i] == '-' || name[i] == '_' {
      AsciiLen(name);
    }
  }

  ghost predicate IsLabel(part: string) {
    1 <= |part| <= 63 && forall i :: 0 <= i < |part| ==> part[i] in ALPHANUMERICS + "-"
  }

  lemma LabelIff(part: string)
    ensures IsBundlePart(part) <==> IsLabel(part)
  {
    forall c ensures IsAlphanumeric(c) <==> c in ALPHANUMERICS {
      AlphanumericsAre(c);
    }
    assert "-" == ['-'];
    if forall i :: 0 <= i < |part| ==> IsAlphanumeric(part[i]) || part[i] == '-' {
      AsciiLen(part);
    }
  }

  /** Bundle identifiers are two or more labels of 1 to 63 characters joined by dots, 255 bytes in all. */
  lemma BundleIdIff(parts: seq<string>)
    requires parts != [] && forall p :: p in parts ==> '.' !in p
    ensures IsBundleId(Join(parts, '.')) <==>
              |parts| >= 2 && Utf8Len(Join(parts, '.')) <= 255 && forall p :: p in parts ==> IsLabel(p)
  {
    hide IsBundlePart, IsLabel, Utf8Len;
    SplitOfJoin(parts, '.');
    DotsJoin(parts);
    forall p ensures IsBundlePart(p) <==> IsLabel(p) {
      LabelIff(p);
    }
    if |parts| == 1 {
      assert Join(parts, '.') == parts[0] && parts[0] in parts;
    }
    assert forall i :: 0 <= i < |parts| ==> parts[i] in parts;
  }

  lemma DotsJoin(parts: seq<string>)
    requires |parts| >= 1
    ensures |parts| >= 2 ==> '.' in Join(parts, '.')
  {
    if |parts| >= 2 {
      assert Join(parts, '.') == parts[0] + ['.'] + Join(parts[1..], '.');
      assert Join(parts, '.')[|parts[0]|] == '.';
    }
  }

  /** The names that lead to bindings, whatever stands before `_bind`. */
  lemma BindingFieldsAre(rest: string)
    ensures IsBindingField("key") && IsBindingField("bind") && IsBindingField(rest + "_bind")
    ensures IsBindingField("up") && IsBindingField("down") && IsBindingField("left") && IsBindingField("right")
    ensures IsBindingField(rest) ==> rest in {"key", "bind", "up", "down", "left", "right"} || |rest| >= 5
    ensures !IsBindingField("x") && !IsBindingField("rebind") && !IsBindingField("bindings")
  {
    assert (rest + "_bind")[|rest|..] == "_bind";
    assert "rebind"[1..] == "ebind" && "ebind"[0] == 'e' && "_bind"[0] == '_';
    assert "bindings"[3..] == "dings" && "dings"[0] == 'd';
    assert "rebind"[0] == 'r' && "bindings"[4] == 'i';
  }

  // ----- the validator as the program runs it -----

  method ValidateProfile(p: Profile) returns (ok: bool)
    ensures ok <==> Accepted(p)
  {
    var header := CheckHeader(p);
    if !header {
      return false;
    }
    var bundles := CheckBundles(p.bundleIdentifiers);
    if !bundles {
      return false;
    }
    var mappings := CheckMappings(p.mappings);
    if !mappings {
      return false;
    }
    var mappingKeys: set<string> := {};
    for i := 0 to |p.mappings|
      invariant forall j :: 0 <= j < i ==> BoundKeys(p.mappings[j]) <= mappingKeys
      invariant forall key :: key in mappingKeys ==> exists j :: 0 <= j < i && key in BoundKeys(p.mappings[j])
    {
      mappingKeys := CollectMappingKeys(p.mappings[i], mappingKeys);
    }
    ok := CheckHardware(p.hardwareBindings, mappingKeys);
    assert forall j :: 0 <= j < |p.mappings| ==> BoundKeys(p.mappings[j]) <= mappingKeys;
  }

  lemma SevenNames()
    ensures var names := set name | name in HARDWARE_BUTTON_NAMES;
            names == {"home", "lock", "volume-up", "volume-down", "mute", "siri", "action"} && |names| == 7
  {
  }

  lemma HardwareNamesCount(keys: set<string>)
    ensures (|keys| == |HARDWARE_BUTTON_NAMES| && forall i :: 0 <= i < |HARDWARE_BUTTON_NAMES| ==> HARDWARE_BUTTON_NAMES[i] in keys)
       <==> keys == set name | name in HARDWARE_BUTTON_NAMES
  {
    SevenNames();
    SameNames(HARDWARE_BUTTON_NAMES, keys);
    assert |HARDWARE_BUTTON_NAMES| == 7;
  }

  lemma SameNames(list: seq<string>, keys: set<string>)
    requires |set name | name in list| == |list|
    ensures (|keys| == |list| && forall i :: 0 <= i < |list| ==> list[i] in keys) <==> keys == set name | name in list
  {
    var names := set name | name in list;
    if |keys| == |list| && forall i :: 0 <= i < |list| ==> list[i] in keys {
      assert names <= keys;
      assert |keys - names| == 0;
    }
  }

  method CheckHeader(p: Profile) returns (ok: bool)
    ensures ok <==> HeaderAccepted(p)
  {
    HardwareNamesCount(p.hardwareBindings.Keys);
    if p.version != 2 || p.name == "" || |p.mappings| > MAX_MAPPINGS
       || |p.hardwareBindings| != |HARDWARE_BUTTON_NAMES|
       || |p.bundleIdentifiers| > MAX_BUNDLES
       || (p.bundleIdentifiers == []) != p.targetResolution.None?
       || (p.targetResolution.Some?
           && (p.targetResolution.value.width == 0 || p.targetResolution.value.height == 0
               || p.targetResolution.value.width > MAX_DIMENSION || p.targetResolution.value.height > MAX_DIMENSION)) {
      return false;
    }
    for i := 0 to |HARDWARE_BUTTON_NAMES|
      invariant forall j :: 0 <= j < i ==> HARDWARE_BUTTON_NAMES[j] in p.hardwareBindings
    {
      if HARDWARE_BUTTON_NAMES[i] !in p.hardwareBindings {
        return false;
      }
    }
    return true;
  }

  method CheckBundles(bundles: seq<string>) returns (ok: bool)
    ensures ok <==> BundlesAccepted(bundles)
  {
    var seen: set<string> := {};
    for i := 0 to |bundles|
      invariant seen == set j | 0 <= j < i :: bundles[j]
      invariant BundlesAccepted(bundles[..i])
    {
      if !IsBundleId(bundles[i]) || bundles[i] in seen {
        return false;
      }
      seen := seen + {bundles[i]};
    }
    assert bundles[..|bundles|] == bundles;
    return true;
  }

  method CheckMappings(mappings: seq<Json>) returns (ok: bool)
    ensures ok <==> MappingsAccepted(mappings)
  {
    hide IsMapping, IdOf;
    var ids: set<string> := {};
    for i := 0 to |mappings|
      invariant forall j :: 0 <= j < i ==> IsMapping(mappings[j]) && IdOf(mappings[j]) in ids
      invariant forall id :: id in ids ==> exists j :: 0 <= j < i && IsMapping(mappings[j]) && IdOf(mappings[j]) == id
      invariant forall j, k :: 0 <= j < k < i ==> IdOf(mappings[j]) != IdOf(mappings[k])
    {
      var id := CheckMapping(mappings[i]);
      if id.None? || id.value in ids {
        return false;
      }
      ids := ids + {id.value};
    }
    return true;
  }

  /** The id of a mapping that passes every check of its own. */
  method CheckMapping(value: Json) returns (id: Option<string>)
    ensures id == if IsMapping(value) then Some(IdOf(value)) else None
  {
    hide HasValidPositions, IsMappingType;
    if !value.Obj? {
      return None;
    }
    id := AsString(Get(value.fields, "id"));
    var kind := AsString(Get(value.fields, "type"));
    if id.None? || id.value == "" || kind.None? || !IsMappingType(kind.value) || !HasValidPositions(value.fields) {
      return None;
    }
  }

  lemma BoundInItem(items: seq<Json>, i: nat)
    requires i < |items|
    ensures BoundKeys(items[i]) <= BoundKeys(Arr(items))
  {
  }

  lemma BoundInField(fields: Fields, name: string)
    requires name in fields && IsBindingField(name)
    ensures BoundKeys(fields[name]) <= BoundKeys(Obj(fields))
  {
  }

  method CollectMappingKeys(value: Json, keys: set<string>) returns (collected: set<string>)
    ensures collected == keys + BoundKeys(value)
    decreases value, 0
  {
    collected := keys;
    match value {
      case Arr(items) =>
        for i := 0 to |items|
          invariant keys <= collected <= keys + BoundKeys(value)
          invariant forall j :: 0 <= j < i ==> BoundKeys(items[j]) <= collected
        {
          BoundInItem(items, i);
          collected := CollectMappingKeys(items[i], collected);
        }
      case Obj(fields) =>
        var left := fields.Keys;
        while left != {}
          invariant left <= fields.Keys
          invariant keys <= collected <= keys + BoundKeys(value)
          invariant forall name :: name in fields && name !in left && IsBindingField(name) ==> BoundKeys(fields[name]) <= collected
          decreases |left|
        {
          var name :| name in left;
          if IsBindingField(name) {
            BoundInField(fields, name);
            collected := CollectMappingKeys(fields[name], collected);
          }
          left := left - {name};
        }
      case Str(s) =>
        if s != "" {
          collected := collected + {s};
        }
      case _ =>
    }
  }

  method CheckHardware(bindings: map<string, string>, mappingKeys: set<string>) returns (ok: bool)
    ensures ok <==>
              && (forall name :: name in bindings ==> IsHardwareKey(bindings[name]))
              && (forall name :: name in bindings && bindings[name] != "" ==> bindings[name] !in mappingKeys)
              && (forall a, b :: a in bindings && b in bindings && a != b && bindings[a] != "" ==> bindings[a] != bindings[b])
  {
    var left := bindings.Keys;
    var hardwareKeys: set<string> := {};
    while left != {}
      invariant left <= bindings.Keys
      invariant hardwareKeys == set name | name in bindings && name !in left && bindings[name] != "" :: bindings[name]
      invariant forall name :: name in bindings && name !in left ==>
                  IsHardwareKey(bindings[name]) && (bindings[name] != "" ==> bindings[name] !in mappingKeys)
      invariant forall a, b :: a in bindings && b in bindings && a !in left && b !in left && a != b && bindings[a] != ""
                  ==> bindings[a] != bindings[b]
      decreases |left|
    {
      var name :| name in left;
      var key := bindings[name];
      if !IsHardwareKey(key) || (key != "" && key in mappingKeys) || (key != "" && key in hardwareKeys) {
        return false;
      }
      if key != "" {
        hardwareKeys := hardwareKeys + {key};
      }
      left := left - {name};
    }
    return true;
  }
}
