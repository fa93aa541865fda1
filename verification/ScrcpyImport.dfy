// Importing scrcpy-mask configurations (src/scrcpyCompat.ts).
module ScrcpyImport {
  import opened Prelude
  import opened Text
  import opened Json
  import opened KeyMapping
  import opened MappingDefaults

  const KEY_MAPPING_TYPES: seq<string> :=
    ["Press", "SingleTap", "RepeatTap", "MultipleTap", "Swipe", "DirectionPad", "MouseCastSpell", "PadCastSpell",
     "CancelCast", "Observation", "Fps", "Fire", "RawInput", "Script"]

  // ----- keys and bindings -----

  const KEY_ALIASES: map<string, string> :=
    map["SuperLeft" := "MetaLeft", "SuperRight" := "MetaRight", "M-Left" := "MouseLeft", "M-Middle" := "MouseMiddle",
        "M-Right" := "MouseRight", "M-Back" := "MouseBack", "M-Forward" := "MouseForward"]

  /** Names that `keyAliases[value]` finds on Object.prototype: they are truthy and not strings. */
  const INHERITED: set<string> :=
    {"constructor", "toString", "toLocaleString", "valueOf", "hasOwnProperty", "isPrototypeOf", "propertyIsEnumerable",
     "__proto__", "__defineGetter__", "__defineSetter__", "__lookupGetter__", "__lookupSetter__"}

  /** `keyIn`: None when the result is not a string. */
  function KeyIn(value: Json): Option<string> {
    if !value.Str? then None
    else
      var s := value.s;
      if s in KEY_ALIASES then Some(KEY_ALIASES[s])
      else if s in INHERITED then None
      else if StartsWith(s, "M-Other-") then Some("MouseOther" + s[8..])
      else if StartsWith(s, "G-Other-") then Some("GamepadOther" + s[8..])
      else if StartsWith(s, "G-") then Some("Gamepad" + s[2..])
      else Some(s)
  }

  /** `/^[A-Za-z0-9]+$/` and at most 64 long. */
  predicate IsKeyName(key: string) {
    1 <= |key| <= 64 && forall i :: 0 <= i < |key| ==> IsAlphanumeric(key[i])
  }

  /** Every element converts to a key name. */
  function BindingKeys(items: seq<Json>): (keys: Option<seq<Json>>)
    ensures keys.Some? ==>
              |keys.value| == |items| && forall i :: 0 <= i < |items| ==> keys.value[i].Str? && IsKeyName(keys.value[i].s)
  {
    if items == [] then Some([])
    else
      var key :- KeyIn(items[0]);
      if !IsKeyName(key) then None
      else
        var rest :- BindingKeys(items[1..]);
        Some([Str(key)] + rest)
  }

  function BindingArray(value: Option<Json>): Option<Json> {
    if value.None? || !value.value.Arr? then None
    else
      var keys :- BindingKeys(value.value.items);
      Some(Arr(keys))
  }

  predicate IsGamepadAxis(value: Option<Json>) {
    value.Some? && value.value.Str?
    && (var s := value.value.s;
        || s in {"LeftStickX", "LeftStickY", "RightStickX", "RightStickY", "LeftZ", "RightZ"}
        || (StartsWith(s, "Other-") && |s| > 6 && (forall i :: 6 <= i < |s| ==> IsDigit(s[i])) && DecimalValue(s[6..]) < 32))
  }

  function DirectionBinding(value: Option<Json>): Option<Json> {
    var raw :- AsObject(value);
    if Get(raw, "type") == Some(Str("JoyStick")) then
      if IsGamepadAxis(Get(raw, "x")) && IsGamepadAxis(Get(raw, "y")) then Some(Obj(raw)) else None
    else if Get(raw, "type") == Some(Str("Button")) then
      var up :- BindingArray(Get(raw, "up"));
      var down :- BindingArray(Get(raw, "down"));
      var left :- BindingArray(Get(raw, "left"));
      var right :- BindingArray(Get(raw, "right"));
      Some(Obj(raw + map["up" := up, "down" := down, "left" := left, "right" := right]))
    else None
  }

  // ----- positions -----

  function PointIn(value: Option<Json>, width: nat, height: nat): (p: Option<(real, real)>)
    requires width > 0 && height > 0
    ensures p.Some? ==> 0.0 <= p.value.0 <= 1.0 && 0.0 <= p.value.1 <= 1.0
  {
    var raw :- AsObject(value);
    var x :- AsNumber(Get(raw, "x"));
    var y :- AsNumber(Get(raw, "y"));
    var w, h := width as real, height as real;
    if x < 0.0 || x > w || y < 0.0 || y > h then None
    else
      FractionIsUnit(x, w);
      FractionIsUnit(y, h);
      Some((x / w, y / h))
  }

  lemma FractionIsUnit(x: real, w: real)
    requires 0.0 <= x <= w && w > 0.0
    ensures 0.0 <= x / w <= 1.0
  {
  }

  function PointJson(value: Option<Json>, width: nat, height: nat): (p: Option<Json>)
    requires width > 0 && height > 0
    ensures p.Some? ==> IsPosition(p.value)
  {
    var p :- PointIn(value, width, height);
    Some(Point(p.0, p.1))
  }

  function Points(items: seq<Json>, width: nat, height: nat): (r: Option<seq<Json>>)
    requires width > 0 && height > 0
    ensures r.Some? ==> |r.value| == |items| && forall i :: 0 <= i < |r.value| ==> IsPosition(r.value[i])
  {
    if items == [] then Some([])
    else
      var first :- PointJson(Some(items[0]), width, height);
      var rest :- Points(items[1..], width, height);
      Some([first] + rest)
  }

  function TapItem(item: Json, width: nat, height: nat): (r: Option<Json>)
    requires width > 0 && height > 0
    ensures r.Some? ==> HasPosition(r.value)
  {
    var value :- AsObject(Some(item));
    var position :- PointJson(Get(value, "position"), width, height);
    var duration :- AsNumber(Get(value, "duration"));
    var wait :- AsNumber(Get(value, "wait"));
    if 1.0 <= duration <= 60000.0 && 0.0 <= wait <= 60000.0 then Some(Obj(value["position" := position])) else None
  }

  function TapItems(items: seq<Json>, width: nat, height: nat): (r: Option<seq<Json>>)
    requires width > 0 && height > 0
    ensures r.Some? ==> |r.value| == |items| && forall i :: 0 <= i < |r.value| ==> HasPosition(r.value[i])
  {
    if items == [] then Some([])
    else
      var first :- TapItem(items[0], width, height);
      var rest :- TapItems(items[1..], width, height);
      Some([first] + rest)
  }

  // ----- one mapping: each optional field is rewritten, or refuses the mapping -----

  function WithBind(m: Fields, raw: Fields, kind: string): Option<Fields> {
    if "bind" !in raw then Some(m)
    else
      var bind :- if kind == "DirectionPad" then DirectionBinding(Get(raw, "bind")) else BindingArray(Get(raw, "bind"));
      Some(m["bind" := bind])
  }

  function WithUpBoost(m: Fields, raw: Fields): Option<Fields> {
    if "up_boost_key" !in raw then Some(m)
    else if raw["up_boost_key"] == Null then Some(m["up_boost_key" := Null])
    else
      var key :- BindingArray(Get(raw, "up_boost_key"));
      Some(m["up_boost_key" := key])
  }

  function WithPositions(m: Fields, raw: Fields, width: nat, height: nat): Option<Fields>
    requires width > 0 && height > 0
  {
    if "positions" !in raw then Some(m)
    else if !raw["positions"].Arr? || !(2 <= |raw["positions"].items| <= 32) then None
    else
      var positions :- Points(raw["positions"].items, width, height);
      Some(m["positions" := Arr(positions)])
  }

  function WithItems(m: Fields, raw: Fields, width: nat, height: nat): Option<Fields>
    requires width > 0 && height > 0
  {
    if "items" !in raw then Some(m)
    else if !raw["items"].Arr? || !(1 <= |raw["items"].items| <= 32) then None
    else
      var items :- TapItems(raw["items"].items, width, height);
      Some(m["items" := Arr(items)])
  }

  function WithCenter(m: Fields, raw: Fields, width: nat, height: nat): Option<Fields>
    requires width > 0 && height > 0
  {
    if "center" !in raw then Some(m)
    else
      var center :- PointJson(Get(raw, "center"), width, height);
      Some(m["center" := center])
  }

  function WithDirections(m: Fields, raw: Fields, kind: string): Option<Fields> {
    if kind == "DirectionPad" then
      var bind :- DirectionBinding(Get(raw, "bind"));
      Some(m["bind" := bind])
    else if kind == "PadCastSpell" then
      var bind :- DirectionBinding(Get(raw, "pad_bind"));
      Some(m["pad_bind" := bind])
    else Some(m)
  }

  /** `raw.pointer_id ?? defaults.pointer_id`, as an integer. */
  function PointerId(raw: Fields, defaults: Fields): Option<int> {
    var given := Get(raw, "pointer_id");
    AsInteger(if given.None? || given.value == Null then Get(defaults, "pointer_id") else given)
  }

  predicate IsContact(id: Option<int>) {
    id.Some? && 0 <= id.value <= 4
  }

  predicate FpsAccepted(raw: Fields, pointerId: Option<int>) {
    var mode := AsObject(Get(raw, "touch_mode"));
    mode.Some?
    && (|| Get(mode.value, "type") == Some(Str("single"))
        || (Get(mode.value, "type") == Some(Str("dual"))
            && IsContact(AsInteger(Get(mode.value, "another_pointer_id")))
            && AsInteger(Get(mode.value, "another_pointer_id")) != pointerId))
  }

  predicate IsImportableType(kind: string) {
    kind != "Press" && kind in KEY_MAPPING_TYPES
  }

  /** The merged fields before any is rewritten. */
  function Merged(raw: Fields, kind: string, position: (real, real), distance: real, uuid: string): Fields {
    var given := AsString(Get(raw, "id"));
    var note := AsString(Get(raw, "note"));
    CreateMapping(kind, position, distance, uuid) + raw
    + map["id" := Str(if given.Some? && given.value != "" then given.value else uuid),
          "note" := Str(if note.Some? then note.value else ""),
          "position" := Point(position.0, position.1)]
  }

  /** `importMapping`; `uuid` is the random id used when the mapping brings none. */
  function ImportMapping(raw: Fields, width: nat, height: nat, uuid: string): Option<Fields>
    requires width > 0 && height > 0
  {
    var kind :- AsString(Get(raw, "type"));
    if !IsImportableType(kind) then None
    else
      var position :- PointIn(Get(raw, "position"), width, height);
      var defaults := CreateMapping(kind, position, Min(width, height) as real, uuid);
      var pointerId := PointerId(raw, defaults);
      if "pointer_id" in raw && !IsContact(pointerId) then None
      else
        var m0 := Merged(raw, kind, position, Min(width, height) as real, uuid);
        var m1 :- WithBind(m0, raw, kind);
        var m2 :- WithUpBoost(m1, raw);
        var m3 :- WithPositions(m2, raw, width, height);
        var m4 :- WithItems(m3, raw, width, height);
        var m5 :- WithCenter(m4, raw, width, height);
        var m6 :- WithDirections(m5, raw, kind);
        if kind == "Fps" && !FpsAccepted(raw, pointerId) then None else Some(m6)
  }

  // ----- the whole configuration -----

  datatype Config = Config(width: nat, height: nat, mappings: seq<Json>)

  function ReadConfig(value: Json): (c: Option<Config>)
    ensures c.Some? ==> 1 <= c.value.width <= 16384 && 1 <= c.value.height <= 16384
  {
    var config :- AsObject(Some(value));
    var size :- AsObject(Get(config, "original_size"));
    var width :- AsInteger(Get(size, "width"));
    var height :- AsInteger(Get(size, "height"));
    if Get(config, "version") != Some(Str("0.0.1")) || "mappings" !in config || !config["mappings"].Arr?
       || width <= 0 || height <= 0 || width > 16384 || height > 16384 then None
    else Some(Config(width, height, config["mappings"].items))
  }

  function ImportOne(value: Json, width: nat, height: nat, uuid: string): Option<Fields>
    requires width > 0 && height > 0
  {
    var raw :- AsObject(Some(value));
    ImportMapping(raw, width, height, uuid)
  }

  /** Importable mappings in order, the first of each id, until 512 are taken. */
  function Imported(values: seq<Json>, width: nat, height: nat, uuids: nat -> string): seq<Json>
    requires width > 0 && height > 0
    decreases |values|
  {
    if values == [] then []
    else
      var n := |values| - 1;
      Take(Imported(values[..n], width, height, uuids), ImportOne(values[n], width, height, uuids(n)))
  }

  function Take(taken: seq<Json>, m: Option<Fields>): seq<Json> {
    if |taken| < 512 && m.Some? && !HasId(taken, Get(m.value, "id")) then taken + [Obj(m.value)] else taken
  }

  lemma ImportedStep(values: seq<Json>, n: nat, width: nat, height: nat, uuids: nat -> string)
    requires width > 0 && height > 0 && n < |values|
    ensures Imported(values[..n + 1], width, height, uuids)
         == Take(Imported(values[..n], width, height, uuids), ImportOne(values[n], width, height, uuids(n)))
  {
    hide ImportOne, Take;
    assert values[..n + 1][..n] == values[..n];
  }

  predicate HasId(taken: seq<Json>, id: Option<Json>) {
    exists i :: 0 <= i < |taken| && taken[i].Obj? && Get(taken[i].fields, "id") == id
  }

  /** `importScrcpyMaskConfig`; None is the thrown error, `uuids(i)` the random id drawn for element i. */
  method ImportScrcpyMaskConfig(value: Json, profileName: string, uuids: nat -> string) returns (result: Option<ImportResult>)
    ensures result.Some? <==> ReadConfig(value).Some?
    ensures result.Some? ==>
              var c := ReadConfig(value).value;
              && result.value.profile == Profile(2, profileName, Imported(c.mappings, c.width, c.height, uuids), [], None, DEFAULT_HARDWARE_BINDINGS)
              && result.value.imported == |result.value.profile.mappings| <= 512
              && result.value.imported + result.value.skipped == |c.mappings|
  {
    hide ImportOne;
    var config := ReadConfig(value);
    if config.None? {
      return None;
    }
    var c := config.value;
    var mappings: seq<Json> := [];
    var ids: set<Option<Json>> := {};
    var skipped := 0;
    for i := 0 to |c.mappings|
      invariant mappings == Imported(c.mappings[..i], c.width, c.height, uuids)
      invariant |mappings| <= 512 && |mappings| + skipped == i
      invariant forall id :: id in ids <==> HasId(mappings, id)
    {
      hide ImportOne, ReadConfig, Get, HasId, Imported;
      ImportedStep(c.mappings, i, c.width, c.height, uuids);
      if |mappings| >= 512 {
        skipped := skipped + 1;
      } else {
        var mapping := ImportOne(c.mappings[i], c.width, c.height, uuids(i));
        if mapping.Some? && Get(mapping.value, "id") !in ids {
          HasIdAppend(mappings, mapping.value);
          ids := ids + {Get(mapping.value, "id")};
          mappings := mappings + [Obj(mapping.value)];
        } else {
          skipped := skipped + 1;
        }
      }
    }
    assert c.mappings[..|c.mappings|] == c.mappings;
    result := Some(ImportResult(
      Profile(2, profileName, mappings, [], None, DEFAULT_HARDWARE_BINDINGS), |mappings|, skipped));
  }

  lemma HasIdAppend(taken: seq<Json>, m: Fields)
    ensures forall id :: HasId(taken + [Obj(m)], id) <==> HasId(taken, id) || id == Get(m, "id")
  {
    var more := taken + [Obj(m)];
    forall id ensures HasId(more, id) <==> HasId(taken, id) || id == Get(m, "id") {
      if HasId(taken, id) {
        var i :| 0 <= i < |taken| && taken[i].Obj? && Get(taken[i].fields, "id") == id;
        assert more[i] == taken[i];
      }
      if id == Get(m, "id") {
        assert more[|taken|] == Obj(m);
      }
    }
  }

  // ----- what is imported is valid -----

  /** The fields `name` apart, both agree. */
  ghost predicate SameExcept(a: Fields, b: Fields, name: string) {
    forall k :: k != name ==> Get(a, k) == Get(b, k)
  }

  lemma BindChangesOnly(m: Fields, raw: Fields, kind: string)
    ensures WithBind(m, raw, kind).Some? ==> SameExcept(m, WithBind(m, raw, kind).value, "bind")
    ensures WithUpBoost(m, raw).Some? ==> SameExcept(m, WithUpBoost(m, raw).value, "up_boost_key")
  {
  }

  lemma DirectionsChangeOnly(m: Fields, raw: Fields, kind: string)
    ensures WithDirections(m, raw, kind).Some? ==>
              var m' := WithDirections(m, raw, kind).value;
              forall k :: k != "bind" && k != "pad_bind" ==> Get(m, k) == Get(m', k)
  {
  }

  lemma PlacesChangeOnly(m: Fields, raw: Fields, width: nat, height: nat)
    requires width > 0 && height > 0
    ensures WithPositions(m, raw, width, height).Some? ==>
              var m' := WithPositions(m, raw, width, height).value;
              SameExcept(m, m', "positions") && (if "positions" in raw then "positions" in m' && ArePositions(m'["positions"]) else m' == m)
    ensures WithItems(m, raw, width, height).Some? ==>
              var m' := WithItems(m, raw, width, height).value;
              SameExcept(m, m', "items") && (if "items" in raw then "items" in m' && AreItems(m'["items"]) else m' == m)
    ensures WithCenter(m, raw, width, height).Some? ==>
              var m' := WithCenter(m, raw, width, height).value;
              SameExcept(m, m', "center") && (if "center" in raw then "center" in m' && IsPosition(m'["center"]) else m' == m)
  {
  }

  /** Places in the merged fields are valid, unless the raw mapping brings its own. */
  lemma MergedPlaces(raw: Fields, kind: string, position: (real, real), distance: real, uuid: string)
    requires 0.0 <= position.0 <= 1.0 && 0.0 <= position.1 <= 1.0
    requires AsString(Get(raw, "type")) == Some(kind) && uuid != ""
    ensures var m := Merged(raw, kind, position, distance, uuid);
            && AsString(Get(m, "id")).Some? && m["id"].s != ""
            && Get(m, "type") == Some(Str(kind))
            && Get(m, "position") == Some(Point(position.0, position.1))
            && ("center" in m && "center" !in raw ==> IsPosition(m["center"]))
            && ("positions" in m && "positions" !in raw ==> ArePositions(m["positions"]))
            && ("items" in m && "items" !in raw ==> AreItems(m["items"]))
  {
    hide CreateMapping;
    CreatedPlaces(kind, position, distance, uuid);
  }

  lemma ImportableTypesAreKnown(kind: string)
    requires IsImportableType(kind)
    ensures IsMappingType(kind)
  {
  }

  /** The fields that the importer may rewrite; all others are merged from the defaults and the original. */
  const REWRITTEN: set<string> := {"bind", "up_boost_key", "positions", "items", "center", "pad_bind"}

  lemma OnlyRewritten(raw: Fields, width: nat, height: nat, uuid: string)
    requires width > 0 && height > 0
    ensures ImportMapping(raw, width, height, uuid).Some? ==>
              var m := ImportMapping(raw, width, height, uuid).value;
              var kind := AsString(Get(raw, "type"));
              var position := PointIn(Get(raw, "position"), width, height);
              && kind.Some? && position.Some?
              && forall k :: k !in REWRITTEN ==>
                   Get(m, k) == Get(Merged(raw, kind.value, position.value, Min(width, height) as real, uuid), k)
  {
    hide CreateMapping, Merged, IsImportableType, FpsAccepted, PointerId;
    hide WithBind, WithUpBoost, WithPositions, WithItems, WithCenter, WithDirections, PointIn, Get;
    if ImportMapping(raw, width, height, uuid).Some? {
      var kind := AsString(Get(raw, "type")).value;
      var position := PointIn(Get(raw, "position"), width, height).value;
      var m0 := Merged(raw, kind, position, Min(width, height) as real, uuid);
      BindChangesOnly(m0, raw, kind);
      var m1 := WithBind(m0, raw, kind).value;
      BindChangesOnly(m1, raw, kind);
      var m2 := WithUpBoost(m1, raw).value;
      PlacesChangeOnly(m2, raw, width, height);
      var m3 := WithPositions(m2, raw, width, height).value;
      PlacesChangeOnly(m3, raw, width, height);
      var m4 := WithItems(m3, raw, width, height).value;
      PlacesChangeOnly(m4, raw, width, height);
      DirectionsChangeOnly(WithCenter(m4, raw, width, height).value, raw, kind);
    }
  }

  /** Center, positions and items of an imported mapping are valid, wherever they come from. */
  lemma RewrittenPlaces(raw: Fields, width: nat, height: nat, uuid: string)
    requires width > 0 && height > 0 && uuid != ""
    ensures ImportMapping(raw, width, height, uuid).Some? ==>
              var m := ImportMapping(raw, width, height, uuid).value;
              && ("center" in m ==> IsPosition(m["center"]))
              && ("positions" in m ==> ArePositions(m["positions"]))
              && ("items" in m ==> AreItems(m["items"]))
  {
    hide CreateMapping, Merged, IsImportableType, FpsAccepted, PointerId;
    hide WithBind, WithUpBoost, WithPositions, WithItems, WithCenter, WithDirections, PointIn;
    hide IsPosition, ArePositions, AreItems;
    if ImportMapping(raw, width, height, uuid).Some? {
      var kind := AsString(Get(raw, "type")).value;
      var position := PointIn(Get(raw, "position"), width, height).value;
      MergedPlaces(raw, kind, position, Min(width, height) as real, uuid);
      var m0 := Merged(raw, kind, position, Min(width, height) as real, uuid);
      BindChangesOnly(m0, raw, kind);
      var m1 := WithBind(m0, raw, kind).value;
      BindChangesOnly(m1, raw, kind);
      var m2 := WithUpBoost(m1, raw).value;
      PlacesChangeOnly(m2, raw, width, height);
      var m3 := WithPositions(m2, raw, width, height).value;
      PlacesChangeOnly(m3, raw, width, height);
      var m4 := WithItems(m3, raw, width, height).value;
      PlacesChangeOnly(m4, raw, width, height);
      var m5 := WithCenter(m4, raw, width, height).value;
      DirectionsChangeOnly(m5, raw, kind);
      var m6 := WithDirections(m5, raw, kind).value;
      assert Get(m6, "center") == Get(m5, "center") && ("center" !in raw ==> Get(m5, "center") == Get(m0, "center"));
      assert Get(m6, "items") == Get(m4, "items") && ("items" !in raw ==> Get(m4, "items") == Get(m0, "items"));
      assert Get(m6, "positions") == Get(m3, "positions") && ("positions" !in raw ==> Get(m3, "positions") == Get(m0, "positions"));
    }
  }

  /** An importable type, a usable id and a position in the frame. */
  ghost predicate HasHead(m: Fields, position: (real, real)) {
    && AsString(Get(m, "id")).Some? && m["id"].s != ""
    && AsString(Get(m, "type")).Some? && IsImportableType(m["type"].s)
    && Get(m, "position") == Some(Point(position.0, position.1))
  }

  lemma ImportableHead(raw: Fields, width: nat, height: nat, uuid: string)
    requires width > 0 && height > 0
    ensures ImportMapping(raw, width, height, uuid).Some? ==>
              AsString(Get(raw, "type")).Some? && IsImportableType(raw["type"].s) && PointIn(Get(raw, "position"), width, height).Some?
  {
    hide IsImportableType, CreateMapping, FpsAccepted, PointerId, Merged, PointIn;
    hide WithBind, WithUpBoost, WithPositions, WithItems, WithCenter, WithDirections;
  }

  lemma ImportedHead(raw: Fields, width: nat, height: nat, uuid: string)
    requires width > 0 && height > 0 && uuid != ""
    ensures ImportMapping(raw, width, height, uuid).Some? ==>
              PointIn(Get(raw, "position"), width, height).Some?
              && HasHead(ImportMapping(raw, width, height, uuid).value, PointIn(Get(raw, "position"), width, height).value)
  {
    hide Merged, IsImportableType, PointIn, IsPosition, ArePositions, AreItems, ImportMapping;
    if ImportMapping(raw, width, height, uuid).Some? {
      ImportableHead(raw, width, height, uuid);
      OnlyRewritten(raw, width, height, uuid);
      var position := PointIn(Get(raw, "position"), width, height).value;
      MergedPlaces(raw, raw["type"].s, position, Min(width, height) as real, uuid);
    }
  }

  /** A mapping that the importer lets through passes every check of the validator. */
  lemma ImportedIsMapping(raw: Fields, width: nat, height: nat, uuid: string)
    requires width > 0 && height > 0 && uuid != ""
    ensures ImportMapping(raw, width, height, uuid).Some? ==> IsMapping(Obj(ImportMapping(raw, width, height, uuid).value))
  {
    hide IsImportableType, IsMappingType, HasValidPositions, IsPosition, ArePositions, AreItems, ImportMapping;
    if ImportMapping(raw, width, height, uuid).Some? {
      ImportedHead(raw, width, height, uuid);
      RewrittenPlaces(raw, width, height, uuid);
      var m := ImportMapping(raw, width, height, uuid).value;
      ImportableTypesAreKnown(m["type"].s);
      PlacesAreValid(m, PointIn(Get(raw, "position"), width, height).value);
    }
  }

  lemma TakeKeepsAccepted(taken: seq<Json>, m: Option<Fields>)
    requires MappingsAccepted(taken) && |taken| <= 512
    requires m.Some? ==> IsMapping(Obj(m.value))
    ensures MappingsAccepted(Take(taken, m)) && |Take(taken, m)| <= 512
  {
    hide HasValidPositions, IsMappingType;
    if |taken| < 512 && m.Some? && !HasId(taken, Get(m.value, "id")) {
      forall i | 0 <= i < |taken| ensures IdOf(taken[i]) != IdOf(Obj(m.value)) {
        assert IsMapping(taken[i]);
        assert Get(taken[i].fields, "id") != Get(m.value, "id");
      }
    }
  }

  lemma {:induction false} ImportedAreAccepted(values: seq<Json>, width: nat, height: nat, uuids: nat -> string)
    requires width > 0 && height > 0
    requires forall i :: uuids(i) != ""
    ensures MappingsAccepted(Imported(values, width, height, uuids))
    ensures |Imported(values, width, height, uuids)| <= 512
    decreases |values|
  {
    hide Take, MappingsAccepted, IsMapping, ImportMapping;
    if values == [] {
      NoMappingsAccepted();
    } else {
      var n := |values| - 1;
      ImportedAreAccepted(values[..n], width, height, uuids);
      var raw := AsObject(Some(values[n]));
      if raw.Some? {
        ImportedIsMapping(raw.value, width, height, uuids(n));
      }
      TakeKeepsAccepted(Imported(values[..n], width, height, uuids), ImportOne(values[n], width, height, uuids(n)));
    }
  }

  // ----- nothing importable is left out -----

  lemma {:induction false} ImportedGrows(values: seq<Json>, n: nat, width: nat, height: nat, uuids: nat -> string)
    requires width > 0 && height > 0 && n <= |values|
    ensures Imported(values[..n], width, height, uuids) <= Imported(values, width, height, uuids)
    decreases |values|
  {
    hide ImportOne, HasId;
    var last := |values| - 1;
    if n == |values| {
      assert values[..n] == values;
    } else {
      assert values[..last][..n] == values[..n];
      ImportedGrows(values[..last], n, width, height, uuids);
    }
  }

  /** Element i is the first importable one with its id. */
  ghost predicate IsFirstOfId(values: seq<Json>, i: nat, width: nat, height: nat, uuids: nat -> string)
    requires width > 0 && height > 0 && i < |values|
  {
    var m := ImportOne(values[i], width, height, uuids(i));
    m.Some? && forall j :: 0 <= j < i ==>
      var other := ImportOne(values[j], width, height, uuids(j));
      other.Some? ==> Get(other.value, "id") != Get(m.value, "id")
  }

  ghost function CountFirsts(values: seq<Json>, n: nat, width: nat, height: nat, uuids: nat -> string): nat
    requires width > 0 && height > 0 && n <= |values|
  {
    if n == 0 then 0
    else CountFirsts(values, n - 1, width, height, uuids) + if IsFirstOfId(values, n - 1, width, height, uuids) then 1 else 0
  }

  /** Until 512 are taken, the ids taken are those of the importable elements so far, and each first one was taken. */
  lemma {:induction false} FirstsAreTaken(values: seq<Json>, n: nat, width: nat, height: nat, uuids: nat -> string)
    requires width > 0 && height > 0 && n <= |values|
    ensures var taken := Imported(values[..n], width, height, uuids);
            && |taken| == Min(512, CountFirsts(values, n, width, height, uuids))
            && (forall i :: 0 <= i < n && ImportOne(values[i], width, height, uuids(i)).Some? ==>
                  |taken| == 512 || HasId(taken, Get(ImportOne(values[i], width, height, uuids(i)).value, "id")))
            && (forall id :: HasId(taken, id) ==>
                  exists i :: 0 <= i < n && ImportOne(values[i], width, height, uuids(i)).Some?
                              && Get(ImportOne(values[i], width, height, uuids(i)).value, "id") == id)
    decreases n
  {
    hide ImportOne, Imported, HasId, Get;
    if n == 0 {
      NothingTaken(values, width, height, uuids);
    } else {
      FirstsAreTaken(values, n - 1, width, height, uuids);
      ImportedStep(values, n - 1, width, height, uuids);
      var before := Imported(values[..n - 1], width, height, uuids);
      var m := ImportOne(values[n - 1], width, height, uuids(n - 1));
      if m.Some? {
        HasIdAppend(before, m.value);
      }
    }
  }

  lemma NothingTaken(values: seq<Json>, width: nat, height: nat, uuids: nat -> string)
    requires width > 0 && height > 0
    ensures Imported(values[..0], width, height, uuids) == []
    ensures forall id :: !HasId([], id)
  {
  }

  /**
   * The imported mappings are the importable ones in order, the first of each id, up to 512: the k-th first one is the
   * k-th mapping, and every importable element has its id among the imported ones unless there are 512.
   */
  lemma ImportIsComplete(values: seq<Json>, i: nat, width: nat, height: nat, uuids: nat -> string)
    requires width > 0 && height > 0 && i < |values|
    ensures var imported := Imported(values, width, height, uuids);
            var k := CountFirsts(values, i, width, height, uuids);
            && |imported| == Min(512, CountFirsts(values, |values|, width, height, uuids))
            && (ImportOne(values[i], width, height, uuids(i)).Some? ==>
                  |imported| == 512 || HasId(imported, Get(ImportOne(values[i], width, height, uuids(i)).value, "id")))
            && (IsFirstOfId(values, i, width, height, uuids) && k < 512 ==>
                  k < |imported| && imported[k] == Obj(ImportOne(values[i], width, height, uuids(i)).value))
  {
    hide ImportOne, Imported, HasId, Get, IsFirstOfId;
    assert values[..|values|] == values;
    FirstsAreTaken(values, |values|, width, height, uuids);
    var k := CountFirsts(values, i, width, height, uuids);
    if IsFirstOfId(values, i, width, height, uuids) && k < 512 {
      FirstIsTaken(values, i, width, height, uuids);
      ImportedGrows(values, i + 1, width, height, uuids);
    }
  }

  lemma FirstIsTaken(values: seq<Json>, i: nat, width: nat, height: nat, uuids: nat -> string)
    requires width > 0 && height > 0 && i < |values|
    requires IsFirstOfId(values, i, width, height, uuids) && CountFirsts(values, i, width, height, uuids) < 512
    ensures Imported(values[..i + 1], width, height, uuids)
         == Imported(values[..i], width, height, uuids) + [Obj(ImportOne(values[i], width, height, uuids(i)).value)]
    ensures |Imported(values[..i], width, height, uuids)| == CountFirsts(values, i, width, height, uuids)
  {
    hide ImportOne, Imported, HasId, Get;
    FirstsAreTaken(values, i, width, height, uuids);
    ImportedStep(values, i, width, height, uuids);
  }

  /** Whatever the configuration, the validator accepts the imported profile, as long as it is given a name. */
  lemma ImportedProfileIsAccepted(value: Json, profileName: string, uuids: nat -> string)
    requires ReadConfig(value).Some?
    requires forall i :: uuids(i) != ""
    ensures var c := ReadConfig(value).value;
            Accepted(Profile(2, profileName, Imported(c.mappings, c.width, c.height, uuids), [], None, DEFAULT_HARDWARE_BINDINGS))
            <==> profileName != ""
  {
    hide Imported, ReadConfig, MappingsAccepted, HardwareAccepted;
    var c := ReadConfig(value).value;
    ImportedAreAccepted(c.mappings, c.width, c.height, uuids);
    DefaultHardwareAccepted(Imported(c.mappings, c.width, c.height, uuids));
  }

  /** A binding is imported whole, element by element, or refused: one bad key refuses it. */
  lemma {:induction false} BindingIsAllOrNothing(items: seq<Json>)
    ensures BindingKeys(items).Some? <==>
              forall i :: 0 <= i < |items| ==> KeyIn(items[i]).Some? && IsKeyName(KeyIn(items[i]).value)
    ensures BindingKeys(items).Some? ==>
              forall i :: 0 <= i < |items| ==> BindingKeys(items).value[i] == Str(KeyIn(items[i]).value)
  {
    hide KeyIn, IsKeyName;
    if items != [] {
      BindingIsAllOrNothing(items[1..]);
      if BindingKeys(items).None? && KeyIn(items[0]).Some? && IsKeyName(KeyIn(items[0]).value) {
        var i :| 0 <= i < |items[1..]| && !(KeyIn(items[1..][i]).Some? && IsKeyName(KeyIn(items[1..][i]).value));
        assert items[i + 1] == items[1..][i];
      }
    }
  }

  // ----- what an imported mapping keeps of the original -----

  /** Normalised positions scale back to the pixels they came from; every pixel inside the frame is taken, no other. */
  lemma PointScalesBack(fields: Fields, width: nat, height: nat)
    requires width > 0 && height > 0
    ensures var p := PointIn(Some(Obj(fields)), width, height);
            var x, y := AsNumber(Get(fields, "x")), AsNumber(Get(fields, "y"));
            && (p.Some? <==> x.Some? && y.Some? && 0.0 <= x.value <= width as real && 0.0 <= y.value <= height as real)
            && (p.Some? ==> p.value.0 * width as real == x.value && p.value.1 * height as real == y.value)
  {
  }

  /** Type, position, a usable id and every field that is not rewritten come through unchanged. */
  lemma ImportedKeepsFields(raw: Fields, width: nat, height: nat, uuid: string)
    requires width > 0 && height > 0
    ensures ImportMapping(raw, width, height, uuid).Some? ==>
              var m := ImportMapping(raw, width, height, uuid).value;
              var position := PointIn(Get(raw, "position"), width, height);
              && (forall k :: k in raw && k !in REWRITTEN && k != "id" && k != "note" && k != "position" ==> Get(m, k) == Some(raw[k]))
              && Get(m, "type") == Get(raw, "type")
              && position.Some? && Get(m, "position") == Some(Point(position.value.0, position.value.1))
              && Get(m, "id") == (if AsString(Get(raw, "id")).Some? && raw["id"] != Str("") then Get(raw, "id") else Some(Str(uuid)))
  {
    hide ImportMapping, PointIn, CreateMapping;
    OnlyRewritten(raw, width, height, uuid);
  }

  /** `value` is the place `raw` in units of the frame. */
  ghost predicate IsScaled(value: Json, raw: Option<Json>, width: nat, height: nat)
    requires width > 0 && height > 0
  {
    PointIn(raw, width, height).Some?
    && value == Point(PointIn(raw, width, height).value.0, PointIn(raw, width, height).value.1)
  }

  lemma {:induction false} PointsAre(items: seq<Json>, width: nat, height: nat)
    requires width > 0 && height > 0
    ensures Points(items, width, height).Some? <==> forall i :: 0 <= i < |items| ==> PointIn(Some(items[i]), width, height).Some?
    ensures Points(items, width, height).Some? ==>
              forall i :: 0 <= i < |items| ==> IsScaled(Points(items, width, height).value[i], Some(items[i]), width, height)
  {
    hide PointIn;
    if items != [] {
      PointsAre(items[1..], width, height);
      if PointIn(Some(items[0]), width, height).Some? && Points(items[1..], width, height).None? {
        var i :| 0 <= i < |items[1..]| && PointIn(Some(items[1..][i]), width, height).None?;
        assert items[i + 1] == items[1..][i];
      }
    }
  }

  /** A tap item keeps everything but its position. */
  ghost predicate IsScaledItem(value: Json, raw: Json, width: nat, height: nat)
    requires width > 0 && height > 0
  {
    raw.Obj? && value.Obj?
    && (forall k :: k != "position" ==> Get(value.fields, k) == Get(raw.fields, k))
    && "position" in value.fields && IsScaled(value.fields["position"], Get(raw.fields, "position"), width, height)
  }

  lemma {:induction false} TapItemsAre(items: seq<Json>, width: nat, height: nat)
    requires width > 0 && height > 0
    ensures TapItems(items, width, height).Some? ==>
              forall i :: 0 <= i < |items| ==> IsScaledItem(TapItems(items, width, height).value[i], items[i], width, height)
  {
    hide PointIn;
    if items != [] {
      TapItemsAre(items[1..], width, height);
    }
  }

  /** Each rewritten place is the original one in units of the frame, in its place, and the counts are within bounds. */
  lemma RewrittenAreScaled(raw: Fields, width: nat, height: nat, uuid: string)
    requires width > 0 && height > 0
    ensures ImportMapping(raw, width, height, uuid).Some? ==>
              var m := ImportMapping(raw, width, height, uuid).value;
              && ("center" in raw ==> "center" in m && IsScaled(m["center"], Some(raw["center"]), width, height))
              && ("positions" in raw ==>
                    raw["positions"].Arr? && "positions" in m && m["positions"].Arr?
                    && 2 <= |m["positions"].items| == |raw["positions"].items| <= 32
                    && forall i :: 0 <= i < |raw["positions"].items| ==>
                         IsScaled(m["positions"].items[i], Some(raw["positions"].items[i]), width, height))
              && ("items" in raw ==>
                    raw["items"].Arr? && "items" in m && m["items"].Arr?
                    && 1 <= |m["items"].items| == |raw["items"].items| <= 32
                    && forall i :: 0 <= i < |raw["items"].items| ==>
                         IsScaledItem(m["items"].items[i], raw["items"].items[i], width, height))
  {
    hide CreateMapping, Merged, IsImportableType, FpsAccepted, PointerId, IsScaled, IsScaledItem;
    hide WithBind, WithUpBoost, WithPositions, WithItems, WithCenter, WithDirections, PointIn;
    if ImportMapping(raw, width, height, uuid).Some? {
      var kind := AsString(Get(raw, "type")).value;
      var m2 := WithUpBoost(WithBind(Merged(raw, kind, PointIn(Get(raw, "position"), width, height).value,
                                            Min(width, height) as real, uuid), raw, kind).value, raw).value;
      var m3 := WithPositions(m2, raw, width, height).value;
      var m4 := WithItems(m3, raw, width, height).value;
      var m5 := WithCenter(m4, raw, width, height).value;
      PlacesChangeOnly(m3, raw, width, height);
      PlacesChangeOnly(m4, raw, width, height);
      DirectionsChangeOnly(m5, raw, kind);
      var m6 := WithDirections(m5, raw, kind).value;
      PlacesAreScaled(m2, raw, width, height);
      PlacesAreScaled(m3, raw, width, height);
      PlacesAreScaled(m4, raw, width, height);
      assert Get(m6, "center") == Get(m5, "center");
      assert Get(m6, "items") == Get(m5, "items") == Get(m4, "items");
      assert Get(m6, "positions") == Get(m5, "positions") == Get(m4, "positions") == Get(m3, "positions");
    }
  }

  lemma PlacesAreScaled(m: Fields, raw: Fields, width: nat, height: nat)
    requires width > 0 && height > 0
    ensures "center" in raw && WithCenter(m, raw, width, height).Some? ==>
              var m' := WithCenter(m, raw, width, height).value;
              "center" in m' && IsScaled(m'["center"], Some(raw["center"]), width, height)
    ensures "positions" in raw && WithPositions(m, raw, width, height).Some? ==>
              var m' := WithPositions(m, raw, width, height).value;
              raw["positions"].Arr? && "positions" in m' && m'["positions"].Arr?
              && 2 <= |m'["positions"].items| == |raw["positions"].items| <= 32
              && forall i :: 0 <= i < |raw["positions"].items| ==>
                   IsScaled(m'["positions"].items[i], Some(raw["positions"].items[i]), width, height)
    ensures "items" in raw && WithItems(m, raw, width, height).Some? ==>
              var m' := WithItems(m, raw, width, height).value;
              raw["items"].Arr? && "items" in m' && m'["items"].Arr?
              && 1 <= |m'["items"].items| == |raw["items"].items| <= 32
              && forall i :: 0 <= i < |raw["items"].items| ==>
                   IsScaledItem(m'["items"].items[i], raw["items"].items[i], width, height)
  {
    hide PointIn, IsScaledItem;
    if "positions" in raw && raw["positions"].Arr? {
      PointsAre(raw["positions"].items, width, height);
    }
    if "items" in raw && raw["items"].Arr? {
      TapItemsAre(raw["items"].items, width, height);
    }
  }

  /** Each direction of a button pad is bound to its own keys; everything else of a binding comes through unchanged. */
  lemma DirectionsStayApart(raw: Fields, direction: string)
    ensures DirectionBinding(Some(Obj(raw))).Some? ==>
              var b := DirectionBinding(Some(Obj(raw))).value;
              b.Obj? && Get(b.fields, direction) ==
                if Get(raw, "type") == Some(Str("Button")) && direction in {"up", "down", "left", "right"}
                then BindingArray(Get(raw, direction)) else Get(raw, direction)
  {
    hide BindingKeys;
  }

  lemma BindingsAre(m: Fields, raw: Fields, kind: string)
    ensures "bind" in raw && kind != "DirectionPad" && WithBind(m, raw, kind).Some? ==>
              Get(WithBind(m, raw, kind).value, "bind") == BindingArray(Get(raw, "bind")) && BindingArray(Get(raw, "bind")).Some?
    ensures "up_boost_key" in raw && raw["up_boost_key"] != Null && WithUpBoost(m, raw).Some? ==>
              Get(WithUpBoost(m, raw).value, "up_boost_key") == BindingArray(Get(raw, "up_boost_key"))
              && BindingArray(Get(raw, "up_boost_key")).Some?
    ensures WithDirections(m, raw, kind).Some? ==>
              var m' := WithDirections(m, raw, kind).value;
              && (if kind == "DirectionPad" then
                    Get(m', "bind") == DirectionBinding(Get(raw, "bind")) && DirectionBinding(Get(raw, "bind")).Some?
                  else Get(m', "bind") == Get(m, "bind"))
              && (kind == "PadCastSpell" ==>
                    Get(m', "pad_bind") == DirectionBinding(Get(raw, "pad_bind")) && DirectionBinding(Get(raw, "pad_bind")).Some?)
  {
    hide DirectionBinding, BindingArray;
  }

  /** Which conversion each binding of an imported mapping went through. */
  lemma RewrittenBindings(raw: Fields, width: nat, height: nat, uuid: string)
    requires width > 0 && height > 0
    ensures ImportMapping(raw, width, height, uuid).Some? ==>
              var m := ImportMapping(raw, width, height, uuid).value;
              var pad := Get(raw, "type") == Some(Str("DirectionPad"));
              && (pad || "bind" in raw ==>
                    Get(m, "bind") == (if pad then DirectionBinding(Get(raw, "bind")) else BindingArray(Get(raw, "bind")))
                    && Get(m, "bind").Some?)
              && (Get(raw, "type") == Some(Str("PadCastSpell")) ==>
                    Get(m, "pad_bind") == DirectionBinding(Get(raw, "pad_bind")) && Get(m, "pad_bind").Some?)
              && ("up_boost_key" in raw && raw["up_boost_key"] != Null ==>
                    Get(m, "up_boost_key") == BindingArray(Get(raw, "up_boost_key")) && Get(m, "up_boost_key").Some?)
  {
    hide CreateMapping, Merged, IsImportableType, FpsAccepted, PointerId, DirectionBinding, BindingArray;
    hide WithBind, WithUpBoost, WithPositions, WithItems, WithCenter, WithDirections, PointIn, Get;
    if ImportMapping(raw, width, height, uuid).Some? {
      var kind := AsString(Get(raw, "type")).value;
      var m0 := Merged(raw, kind, PointIn(Get(raw, "position"), width, height).value, Min(width, height) as real, uuid);
      BindingsAre(m0, raw, kind);
      var m1 := WithBind(m0, raw, kind).value;
      BindingsAre(m1, raw, kind);
      var m2 := WithUpBoost(m1, raw).value;
      BindChangesOnly(m1, raw, kind);
      var m3 := WithPositions(m2, raw, width, height).value;
      var m4 := WithItems(m3, raw, width, height).value;
      var m5 := WithCenter(m4, raw, width, height).value;
      BindingsSurvivePlaces(m2, raw, width, height);
      BindingsAre(m5, raw, kind);
      DirectionsChangeOnly(m5, raw, kind);
    }
  }

  lemma BindingsSurvivePlaces(m: Fields, raw: Fields, width: nat, height: nat)
    requires width > 0 && height > 0
    ensures var m3 := WithPositions(m, raw, width, height);
            m3.Some? ==>
              var m4 := WithItems(m3.value, raw, width, height);
              m4.Some? ==>
                var m5 := WithCenter(m4.value, raw, width, height);
                m5.Some? ==> Get(m5.value, "bind") == Get(m, "bind") && Get(m5.value, "up_boost_key") == Get(m, "up_boost_key")
  {
    hide WithPositions, WithItems, WithCenter;
    var m3 := WithPositions(m, raw, width, height);
    if m3.Some? {
      PlacesChangeOnly(m, raw, width, height);
      PlacesChangeOnly(m3.value, raw, width, height);
      var m4 := WithItems(m3.value, raw, width, height);
      if m4.Some? {
        PlacesChangeOnly(m4.value, raw, width, height);
      }
    }
  }

  /** A pointer id that the original brings is null or one of the five contacts; a dual Fps mapping has two different ones. */
  lemma ImportedContactsAreValid(raw: Fields, width: nat, height: nat, uuid: string)
    requires width > 0 && height > 0
    ensures ImportMapping(raw, width, height, uuid).Some? ==>
              var m := ImportMapping(raw, width, height, uuid).value;
              && ("pointer_id" in raw ==> Get(m, "pointer_id") == Some(Null) || IsContact(AsInteger(Get(m, "pointer_id"))))
              && (Get(m, "type") == Some(Str("Fps")) ==>
                    var mode := AsObject(Get(m, "touch_mode"));
                    && mode.Some?
                    && (Get(mode.value, "type") == Some(Str("single"))
                        || (Get(mode.value, "type") == Some(Str("dual"))
                            && IsContact(AsInteger(Get(mode.value, "another_pointer_id")))
                            && ("pointer_id" in raw && raw["pointer_id"] != Null ==>
                                  AsInteger(Get(mode.value, "another_pointer_id")) != AsInteger(Get(m, "pointer_id"))))))
  {
    hide WithBind, WithUpBoost, WithPositions, WithItems, WithCenter, WithDirections, PointIn, CreateMapping, Merged;
    hide IsImportableType;
    ImportedKeepsFields(raw, width, height, uuid);
  }

  /** Of the pointer ids that a mapping brings, exactly null comes through as something other than a contact: as null. */
  lemma GivenPointerIsContactUnlessNull(raw: Fields, width: nat, height: nat, uuid: string)
    requires width > 0 && height > 0
    ensures ImportMapping(raw, width, height, uuid).Some? && "pointer_id" in raw ==>
              var pointer := Get(ImportMapping(raw, width, height, uuid).value, "pointer_id");
              && pointer == Some(raw["pointer_id"])
              && (IsContact(AsInteger(pointer)) <==> raw["pointer_id"] != Null)
  {
    hide WithBind, WithUpBoost, WithPositions, WithItems, WithCenter, WithDirections, PointIn, CreateMapping, Merged;
    hide IsImportableType, FpsAccepted;
    ImportedKeepsFields(raw, width, height, uuid);
  }

  /** The types whose new mappings have a contact. */
  predicate HasPointer(kind: string) {
    kind !in {"CancelCast", "RawInput", "Script"}
  }

  lemma PointerInParts(distance: real)
    ensures Get(PointerDefaults(), "pointer_id") == Get(RandomDefaults(), "pointer_id") == Some(Num(0.0))
    ensures Get(PadDefaults(distance), "pointer_id") == Some(Num(0.0))
  {
    hide SpreadDefaults, JitterDefaults;
    assert "pointer_id" !in SpreadDefaults() by {
      NoPointerInSpread();
    }
    assert "pointer_id" !in JitterDefaults() by {
      NoPointerInJitter();
    }
  }

  lemma NoPointerInSpread()
    ensures "pointer_id" !in SpreadDefaults()
  {
  }

  lemma NoPointerInJitter()
    ensures "pointer_id" !in JitterDefaults()
  {
  }

  lemma NoPointerInCasts(distance: real)
    ensures "pointer_id" !in CastDefaults(distance)
    ensures "pointer_id" !in PadCastDefaults(distance)
  {
  }

  lemma NoPointerInTimed(kind: string)
    ensures "pointer_id" !in TimedDefaults(kind)
  {
  }

  lemma NoPointerInOthers()
    ensures "pointer_id" !in SensitivityDefaults()
    ensures "pointer_id" !in FpsDefaults()
    ensures "pointer_id" !in ScriptDefaults()
  {
  }

  lemma PointerInPlain(kind: string, distance: real)
    requires IsImportableType(kind)
    ensures Get(PlainDefaults(kind, distance), "pointer_id") == if HasPointer(kind) then Some(Num(0.0)) else None
  {
    hide PointerDefaults, RandomDefaults, PadDefaults, SensitivityDefaults, CastDefaults, PadCastDefaults, FpsDefaults;
    hide ScriptDefaults, TimedDefaults;
    PointerInParts(distance);
    NoPointerInCasts(distance);
    NoPointerInTimed(kind);
    NoPointerInOthers();
  }

  lemma PointerDefault(kind: string, position: (real, real), distance: real, id: string)
    requires IsImportableType(kind)
    ensures Get(CreateMapping(kind, position, distance, id), "pointer_id") == if HasPointer(kind) then Some(Num(0.0)) else None
  {
    hide PlaceDefaults, PlainDefaults, IsImportableType, HasPointer;
    PointerInPlain(kind, distance);
    assert "pointer_id" !in PlaceDefaults(kind, position);
  }

  /** Whether each rewritten field can be rewritten. */
  predicate StepsPass(raw: Fields, kind: string, width: nat, height: nat)
    requires width > 0 && height > 0
  {
    && WithBind(map[], raw, kind).Some?
    && WithUpBoost(map[], raw).Some?
    && WithPositions(map[], raw, width, height).Some?
    && WithItems(map[], raw, width, height).Some?
    && WithCenter(map[], raw, width, height).Some?
    && WithDirections(map[], raw, kind).Some?
  }

  lemma StepIgnoresBuilt(m: Fields, raw: Fields, kind: string, width: nat, height: nat)
    requires width > 0 && height > 0
    ensures WithBind(m, raw, kind).Some? <==> WithBind(map[], raw, kind).Some?
    ensures WithUpBoost(m, raw).Some? <==> WithUpBoost(map[], raw).Some?
    ensures WithPositions(m, raw, width, height).Some? <==> WithPositions(map[], raw, width, height).Some?
    ensures WithItems(m, raw, width, height).Some? <==> WithItems(map[], raw, width, height).Some?
    ensures WithCenter(m, raw, width, height).Some? <==> WithCenter(map[], raw, width, height).Some?
    ensures WithDirections(m, raw, kind).Some? <==> WithDirections(map[], raw, kind).Some?
  {
    hide BindingArray, DirectionBinding, Points, TapItems, PointJson;
  }

  /** The checks are independent: which fields a mapping is refused for does not depend on what has been built so far. */
  lemma ImportedIff(raw: Fields, width: nat, height: nat, uuid: string)
    requires width > 0 && height > 0
    ensures ImportMapping(raw, width, height, uuid).Some? <==>
              var kind := AsString(Get(raw, "type"));
              var position := PointIn(Get(raw, "position"), width, height);
              && kind.Some? && IsImportableType(kind.value) && position.Some?
              && StepsPass(raw, kind.value, width, height)
              && (var defaults := CreateMapping(kind.value, position.value, Min(width, height) as real, uuid);
                  var pointer := PointerId(raw, defaults);
                  ("pointer_id" in raw ==> IsContact(pointer)) && (kind.value == "Fps" ==> FpsAccepted(raw, pointer)))
  {
    hide CreateMapping, Merged, IsImportableType, FpsAccepted, PointerId, PointIn, IsContact, Get, AsString;
    hide WithBind, WithUpBoost, WithPositions, WithItems, WithCenter, WithDirections;
    var kind := AsString(Get(raw, "type"));
    var position := PointIn(Get(raw, "position"), width, height);
    if kind.Some? && position.Some? {
      var m0 := Merged(raw, kind.value, position.value, Min(width, height) as real, uuid);
      StepIgnoresBuilt(m0, raw, kind.value, width, height);
      var m1 := WithBind(m0, raw, kind.value);
      if m1.Some? {
        StepIgnoresBuilt(m1.value, raw, kind.value, width, height);
        var m2 := WithUpBoost(m1.value, raw);
        if m2.Some? {
          StepIgnoresBuilt(m2.value, raw, kind.value, width, height);
          var m3 := WithPositions(m2.value, raw, width, height);
          if m3.Some? {
            StepIgnoresBuilt(m3.value, raw, kind.value, width, height);
            var m4 := WithItems(m3.value, raw, width, height);
            if m4.Some? {
              StepIgnoresBuilt(m4.value, raw, kind.value, width, height);
              var m5 := WithCenter(m4.value, raw, width, height);
              if m5.Some? {
                StepIgnoresBuilt(m5.value, raw, kind.value, width, height);
              }
            }
          }
        }
      }
    }
  }

  lemma StepsIgnorePointer(raw: Fields, kind: string, width: nat, height: nat)
    requires width > 0 && height > 0
    ensures StepsPass(raw, kind, width, height) <==> StepsPass(raw - {"pointer_id"}, kind, width, height)
  {
    hide BindingArray, DirectionBinding, Points, TapItems, PointJson;
  }

  lemma NullPointerIsDefault(raw: Fields, defaults: Fields, kind: string)
    requires Get(raw, "pointer_id") == Some(Null)
    requires Get(defaults, "pointer_id") == if HasPointer(kind) then Some(Num(0.0)) else None
    ensures IsContact(PointerId(raw, defaults)) <==> HasPointer(kind)
    ensures PointerId(raw - {"pointer_id"}, defaults) == PointerId(raw, defaults)
    ensures FpsAccepted(raw - {"pointer_id"}, PointerId(raw, defaults)) <==> FpsAccepted(raw, PointerId(raw, defaults))
  {
    assert (0.0 as real).Floor == 0;
  }

  /** Exactly when a null pointer id is let through: without it the mapping would be imported, and its type has a contact. */
  lemma NullPointerPassesIff(raw: Fields, width: nat, height: nat, uuid: string)
    requires width > 0 && height > 0 && Get(raw, "pointer_id") == Some(Null)
    ensures ImportMapping(raw, width, height, uuid).Some? <==>
              ImportMapping(raw - {"pointer_id"}, width, height, uuid).Some?
              && AsString(Get(raw, "type")).Some? && HasPointer(raw["type"].s)
    ensures ImportMapping(raw, width, height, uuid).Some? ==>
              Get(ImportMapping(raw, width, height, uuid).value, "pointer_id") == Some(Null)
  {
    hide CreateMapping, IsImportableType, FpsAccepted, PointerId, PointIn, IsContact, HasPointer, StepsPass, ImportMapping;
    var rest := raw - {"pointer_id"};
    ImportedIff(raw, width, height, uuid);
    ImportedIff(rest, width, height, uuid);
    GivenPointerIsContactUnlessNull(raw, width, height, uuid);
    assert Get(rest, "type") == Get(raw, "type") && Get(rest, "position") == Get(raw, "position");
    var kind := AsString(Get(raw, "type"));
    var position := PointIn(Get(raw, "position"), width, height);
    if kind.Some? && IsImportableType(kind.value) && position.Some? {
      var defaults := CreateMapping(kind.value, position.value, Min(width, height) as real, uuid);
      PointerDefault(kind.value, position.value, Min(width, height) as real, uuid);
      StepsIgnorePointer(raw, kind.value, width, height);
      NullPointerIsDefault(raw, defaults, kind.value);
    }
  }

  lemma OriginIsTaken(width: nat, height: nat)
    requires width > 0 && height > 0
    ensures PointIn(Some(Point(0.0, 0.0)), width, height).Some?
  {
  }

  lemma NothingToRewrite(raw: Fields, kind: string, width: nat, height: nat)
    requires width > 0 && height > 0
    requires raw.Keys !! REWRITTEN && kind != "DirectionPad" && kind != "PadCastSpell"
    ensures StepsPass(raw, kind, width, height)
  {
  }

  /** A SingleTap mapping with nothing but a type, a position and a null pointer id is imported with the id null. */
  lemma NullPointerStaysNull(uuid: string)
    ensures var raw := map["type" := Str("SingleTap"), "position" := Point(0.0, 0.0), "pointer_id" := Null];
            && ImportMapping(raw, 100, 100, uuid).Some?
            && Get(ImportMapping(raw, 100, 100, uuid).value, "pointer_id") == Some(Null)
  {
    hide CreateMapping, FpsAccepted, ImportMapping, StepsPass, PointIn, PointerId, IsContact;
    var raw := map["type" := Str("SingleTap"), "position" := Point(0.0, 0.0), "pointer_id" := Null];
    ImportedIff(raw, 100, 100, uuid);
    assert KEY_MAPPING_TYPES[1] == "SingleTap";
    var position := PointIn(Get(raw, "position"), 100, 100);
    OriginIsTaken(100, 100);
    NothingToRewrite(raw, "SingleTap", 100, 100);
    var defaults := CreateMapping("SingleTap", position.value, Min(100, 100) as real, uuid);
    PointerDefault("SingleTap", position.value, Min(100, 100) as real, uuid);
    NullPointerIsDefault(raw, defaults, "SingleTap");
    GivenPointerIsContactUnlessNull(raw, 100, 100, uuid);
  }

  // ----- the checks one by one -----

  /** Which configurations are read: the version, an array of mappings and whole dimensions from 1 to 16,384. */
  lemma ReadConfigIff(value: Json)
    ensures ReadConfig(value).Some? <==>
              && value.Obj? && Get(value.fields, "version") == Some(Str("0.0.1"))
              && "mappings" in value.fields && value.fields["mappings"].Arr?
              && (exists width: int, height: int :: IsSize(value, width, height) && 1 <= width <= 16384 && 1 <= height <= 16384)
    ensures ReadConfig(value).Some? ==>
              && IsSize(value, ReadConfig(value).value.width, ReadConfig(value).value.height)
              && ReadConfig(value).value.mappings == value.fields["mappings"].items
  {
    if value.Obj? {
      var size := AsObject(Get(value.fields, "original_size"));
      if size.Some? {
        var width, height := AsInteger(Get(size.value, "width")), AsInteger(Get(size.value, "height"));
        if width.Some? && height.Some? {
          assert IsSize(value, width.value, height.value);
        }
        forall w: int, h: int | IsSize(value, w, h) ensures width == Some(w) && height == Some(h) {
          assert (w as real).Floor == w && (h as real).Floor == h;
        }
      }
    }
  }

  ghost predicate IsSize(value: Json, width: int, height: int) {
    && value.Obj? && "original_size" in value.fields && value.fields["original_size"].Obj?
    && var size := value.fields["original_size"].fields;
       Get(size, "width") == Some(Num(width as real)) && Get(size, "height") == Some(Num(height as real))
  }

  /** The thirteen importable types. */
  lemma ImportableTypes(kind: string)
    ensures IsImportableType(kind) <==>
              kind in {"SingleTap", "RepeatTap", "MultipleTap", "Swipe", "DirectionPad", "MouseCastSpell", "PadCastSpell",
                       "CancelCast", "Observation", "Fps", "Fire", "RawInput", "Script"}
  {
    assert KEY_MAPPING_TYPES[0] == "Press" && KEY_MAPPING_TYPES[1] == "SingleTap" && KEY_MAPPING_TYPES[2] == "RepeatTap";
    assert KEY_MAPPING_TYPES[3] == "MultipleTap" && KEY_MAPPING_TYPES[4] == "Swipe" && KEY_MAPPING_TYPES[5] == "DirectionPad";
    assert KEY_MAPPING_TYPES[6] == "MouseCastSpell" && KEY_MAPPING_TYPES[7] == "PadCastSpell" && KEY_MAPPING_TYPES[8] == "CancelCast";
    assert KEY_MAPPING_TYPES[9] == "Observation" && KEY_MAPPING_TYPES[10] == "Fps" && KEY_MAPPING_TYPES[11] == "Fire";
    assert KEY_MAPPING_TYPES[12] == "RawInput" && KEY_MAPPING_TYPES[13] == "Script";
  }

  /** Prefixes of mouse and gamepad keys are rewritten, whatever follows them. */
  lemma PrefixesAreRewritten(rest: string)
    ensures KeyIn(Str("M-Other-" + rest)) == Some("MouseOther" + rest)
    ensures KeyIn(Str("G-Other-" + rest)) == Some("GamepadOther" + rest)
    ensures !StartsWith(rest, "Other-") ==> KeyIn(Str("G-" + rest)) == Some("Gamepad" + rest)
  {
    var mouse, other, pad := "M-Other-" + rest, "G-Other-" + rest, "G-" + rest;
    assert mouse[..8] == "M-Other-" && mouse[8..] == rest;
    assert other[..8] == "G-Other-" && other[8..] == rest;
    assert pad[..2] == "G-" && pad[2..] == rest;
    assert mouse[1] == '-' && mouse[2] == 'O' && other[1] == '-' && pad[1] == '-' && pad[0] == 'G';
    NotAliased(mouse);
    NotAliased(other);
    NotAliased(pad);
    if StartsWith(pad, "G-Other-") {
      assert pad[2..8] == "G-Other-"[2..8];
      assert rest[..6] == pad[2..8] == "Other-";
    }
  }

  lemma NotAliased(s: string)
    requires |s| >= 2 && s[1] == '-' && (s[0] == 'G' || (s[0] == 'M' && |s| >= 3 && s[2] == 'O'))
    ensures s !in KEY_ALIASES && s !in INHERITED
  {
    assert "SuperLeft"[1] == 'u' && "SuperRight"[1] == 'u';
    assert "M-Left"[2] == 'L' && "M-Middle"[2] == 'M' && "M-Right"[2] == 'R' && "M-Back"[2] == 'B' && "M-Forward"[2] == 'F';
    forall name | name in INHERITED ensures name[1] != '-' {
    }
  }

  /** A key without such a prefix and without an alias is kept, unless it names something every object inherits. */
  lemma OtherKeysAreKept(key: string)
    requires |key| >= 1 && key[0] != 'M' && key[0] != 'G' && key[0] != 'S'
    ensures KeyIn(Str(key)) == if key in INHERITED then None else Some(key)
  {
    assert "SuperLeft"[0] == 'S' && "SuperRight"[0] == 'S';
    assert "M-Left"[0] == 'M' && "M-Middle"[0] == 'M' && "M-Right"[0] == 'M' && "M-Back"[0] == 'M' && "M-Forward"[0] == 'M';
    assert "M-Other-"[0] == 'M' && "G-Other-"[0] == 'G' && "G-"[0] == 'G';
  }

  lemma AliasesAre()
    ensures KeyIn(Str("SuperLeft")) == Some("MetaLeft") && KeyIn(Str("SuperRight")) == Some("MetaRight")
    ensures KeyIn(Str("M-Left")) == Some("MouseLeft") && KeyIn(Str("M-Right")) == Some("MouseRight")
    ensures KeyIn(Str("M-Middle")) == Some("MouseMiddle")
    ensures KeyIn(Str("M-Back")) == Some("MouseBack") && KeyIn(Str("M-Forward")) == Some("MouseForward")
  {
  }

  /** The numbered gamepad axes are those below 32. */
  lemma NumberedAxisIff(n: nat)
    ensures IsGamepadAxis(Some(Str("Other-" + Decimal(n)))) <==> n < 32
  {
    var s := "Other-" + Decimal(n);
    assert s[..6] == "Other-" && s[6..] == Decimal(n);
    forall i | 6 <= i < |s| ensures IsDigit(s[i]) {
      assert s[i] == Decimal(n)[i - 6] && s[i] in Decimal(n);
    }
    DecimalRoundTrip(n);
    assert s[0] == 'O' && "LeftStickX"[0] == 'L' && "LeftStickY"[0] == 'L' && "RightStickX"[0] == 'R' && "RightStickY"[0] == 'R';
    assert "LeftZ"[0] == 'L' && "RightZ"[0] == 'R';
  }

  lemma NamedAxes()
    ensures IsGamepadAxis(Some(Str("LeftStickX"))) && IsGamepadAxis(Some(Str("LeftStickY")))
    ensures IsGamepadAxis(Some(Str("RightStickX"))) && IsGamepadAxis(Some(Str("RightStickY")))
    ensures IsGamepadAxis(Some(Str("LeftZ"))) && IsGamepadAxis(Some(Str("RightZ")))
  {
  }

  /** Which direction bindings are taken: two axes, or four arrays of keys. */
  lemma DirectionBindingIff(value: Option<Json>)
    ensures DirectionBinding(value).Some? <==>
              && value.Some? && value.value.Obj?
              && var raw := value.value.fields;
                 || (Get(raw, "type") == Some(Str("JoyStick")) && IsGamepadAxis(Get(raw, "x")) && IsGamepadAxis(Get(raw, "y")))
                 || (Get(raw, "type") == Some(Str("Button"))
                     && forall d :: d in {"up", "down", "left", "right"} ==> BindingArray(Get(raw, d)).Some?)
  {
    hide BindingArray, IsGamepadAxis;
    assert "up" in {"up", "down", "left", "right"} && "down" in {"up", "down", "left", "right"};
    assert "left" in {"up", "down", "left", "right"} && "right" in {"up", "down", "left", "right"};
    assert "JoyStick"[0] == 'J' && "Button"[0] == 'B';
  }

  ghost predicate IsTapItem(item: Json, width: nat, height: nat)
    requires width > 0 && height > 0
  {
    && item.Obj? && PointIn(Get(item.fields, "position"), width, height).Some?
    && AsNumber(Get(item.fields, "duration")).Some? && 1.0 <= item.fields["duration"].n <= 60000.0
    && AsNumber(Get(item.fields, "wait")).Some? && 0.0 <= item.fields["wait"].n <= 60000.0
  }

  lemma {:induction false} TapItemsIff(items: seq<Json>, width: nat, height: nat)
    requires width > 0 && height > 0
    ensures TapItems(items, width, height).Some? <==> forall i :: 0 <= i < |items| ==> IsTapItem(items[i], width, height)
  {
    hide PointIn, IsTapItem, TapItem;
    if items != [] {
      TapItemIff(items[0], width, height);
      TapItemsIff(items[1..], width, height);
      assert items == [items[0]] + items[1..];
      if forall i :: 0 <= i < |items| ==> IsTapItem(items[i], width, height) {
        forall i | 0 <= i < |items[1..]| ensures IsTapItem(items[1..][i], width, height) {
          assert items[1..][i] == items[i + 1];
        }
      }
    }
  }

  lemma TapItemIff(item: Json, width: nat, height: nat)
    requires width > 0 && height > 0
    ensures TapItem(item, width, height).Some? <==> IsTapItem(item, width, height)
  {
    hide PointIn;
  }

  /** What each rewritten field must be for the mapping to be let through. */
  lemma StepsPassIff(raw: Fields, kind: string, width: nat, height: nat)
    requires width > 0 && height > 0
    ensures StepsPass(raw, kind, width, height) <==>
              && ("bind" in raw && kind != "DirectionPad" ==> BindingArray(Get(raw, "bind")).Some?)
              && (kind == "DirectionPad" ==> DirectionBinding(Get(raw, "bind")).Some?)
              && (kind == "PadCastSpell" ==> DirectionBinding(Get(raw, "pad_bind")).Some?)
              && ("up_boost_key" in raw && raw["up_boost_key"] != Null ==> BindingArray(Get(raw, "up_boost_key")).Some?)
              && ("center" in raw ==> PointIn(Get(raw, "center"), width, height).Some?)
              && ("positions" in raw ==>
                    raw["positions"].Arr? && 2 <= |raw["positions"].items| <= 32
                    && forall i :: 0 <= i < |raw["positions"].items| ==>
                         PointIn(Some(raw["positions"].items[i]), width, height).Some?)
              && ("items" in raw ==>
                    raw["items"].Arr? && 1 <= |raw["items"].items| <= 32
                    && forall i :: 0 <= i < |raw["items"].items| ==> IsTapItem(raw["items"].items[i], width, height))
  {
    hide BindingArray, DirectionBinding, PointIn, IsTapItem;
    assert "DirectionPad"[0] == 'D' && "PadCastSpell"[0] == 'P';
    if "positions" in raw && raw["positions"].Arr? {
      PointsAre(raw["positions"].items, width, height);
    }
    if "items" in raw && raw["items"].Arr? {
      TapItemsIff(raw["items"].items, width, height);
    }
  }

  /** A binding is an array whose keys all convert to 1 to 64 letters and digits. */
  lemma BindingArrayIff(value: Option<Json>)
    ensures BindingArray(value).Some? <==>
              value.Some? && value.value.Arr?
              && forall i :: 0 <= i < |value.value.items| ==>
                   var key := KeyIn(value.value.items[i]);
                   key.Some? && 1 <= |key.value| <= 64 && forall j :: 0 <= j < |key.value| ==> IsAlphanumeric(key.value[j])
    ensures BindingArray(value).Some? ==>
              BindingArray(value).value.Arr? && |BindingArray(value).value.items| == |value.value.items|
              && forall i :: 0 <= i < |value.value.items| ==>
                   BindingArray(value).value.items[i] == Str(KeyIn(value.value.items[i]).value)
  {
    hide KeyIn;
    if value.Some? && value.value.Arr? {
      BindingIsAllOrNothing(value.value.items);
    }
  }

  /** An Fps mapping touches with one contact, or with two different ones. */
  lemma FpsAcceptedIff(raw: Fields, pointer: Option<int>)
    ensures FpsAccepted(raw, pointer) <==>
              && "touch_mode" in raw && raw["touch_mode"].Obj?
              && var mode := raw["touch_mode"].fields;
                 || Get(mode, "type") == Some(Str("single"))
                 || (Get(mode, "type") == Some(Str("dual"))
                     && exists id: int :: 0 <= id <= 4 && Get(mode, "another_pointer_id") == Some(Num(id as real)) && pointer != Some(id))
  {
    if "touch_mode" in raw && raw["touch_mode"].Obj? {
      var mode := raw["touch_mode"].fields;
      var another := AsInteger(Get(mode, "another_pointer_id"));
      if another.Some? {
        assert Get(mode, "another_pointer_id") == Some(Num(another.value as real));
      }
      forall id: int | Get(mode, "another_pointer_id") == Some(Num(id as real)) ensures another == Some(id) {
        assert (id as real).Floor == id;
      }
    }
  }

  /** What a mapping does not bring comes from the defaults of its type; a note that is no text becomes empty. */
  lemma MissingFieldsAreDefaults(raw: Fields, width: nat, height: nat, uuid: string)
    requires width > 0 && height > 0
    ensures ImportMapping(raw, width, height, uuid).Some? ==>
              var m := ImportMapping(raw, width, height, uuid).value;
              var position := PointIn(Get(raw, "position"), width, height);
              && AsString(Get(raw, "type")).Some? && position.Some?
              && (forall k :: k !in raw && k !in REWRITTEN && k !in {"id", "note", "position"} ==>
                    Get(m, k) == Get(CreateMapping(raw["type"].s, position.value, Min(width, height) as real, uuid), k))
              && Get(m, "note") == Some(Str(if AsString(Get(raw, "note")).Some? then raw["note"].s else ""))
  {
    hide ImportMapping, PointIn, CreateMapping, IsImportableType;
    OnlyRewritten(raw, width, height, uuid);
  }

  /** What `WithPositions`, `WithItems`, `WithCenter` and `WithDirections` leave of the fields that a mapping does not bring. */
  lemma PlacesKeepMissing(m: Fields, raw: Fields, kind: string, width: nat, height: nat)
    requires width > 0 && height > 0
    ensures var m3 := WithPositions(m, raw, width, height);
            m3.Some? ==>
              var m4 := WithItems(m3.value, raw, width, height);
              m4.Some? ==>
                var m5 := WithCenter(m4.value, raw, width, height);
                m5.Some? ==>
                  var m6 := WithDirections(m5.value, raw, kind);
                  m6.Some? ==>
                    forall k :: k !in raw && k != "bind" && k != "pad_bind" ==> Get(m6.value, k) == Get(m, k)
  {
    hide WithPositions, WithItems, WithCenter, WithDirections;
    var m3 := WithPositions(m, raw, width, height);
    if m3.Some? {
      PlacesChangeOnly(m, raw, width, height);
      PlacesChangeOnly(m3.value, raw, width, height);
      var m4 := WithItems(m3.value, raw, width, height);
      if m4.Some? {
        PlacesChangeOnly(m4.value, raw, width, height);
        var m5 := WithCenter(m4.value, raw, width, height);
        if m5.Some? {
          DirectionsChangeOnly(m5.value, raw, kind);
        }
      }
    }
  }

  /** A rewritten field that the mapping does not bring is that of the defaults. */
  lemma MissingPlacesAreDefaults(raw: Fields, width: nat, height: nat, uuid: string)
    requires width > 0 && height > 0
    ensures ImportMapping(raw, width, height, uuid).Some? ==>
              var m := ImportMapping(raw, width, height, uuid).value;
              var position := PointIn(Get(raw, "position"), width, height);
              AsString(Get(raw, "type")).Some? && position.Some? &&
              forall k :: k in {"center", "positions", "items", "up_boost_key"} && k !in raw ==>
                   Get(m, k) == Get(CreateMapping(AsString(Get(raw, "type")).value, position.value, Min(width, height) as real, uuid), k)
  {
    hide CreateMapping, IsImportableType, FpsAccepted, PointerId, Merged;
    hide WithPositions, WithItems, WithCenter, WithDirections, WithBind, WithUpBoost, PointIn, Get;
    if ImportMapping(raw, width, height, uuid).Some? {
      var kind := AsString(Get(raw, "type")).value;
      var position := PointIn(Get(raw, "position"), width, height).value;
      var m0 := Merged(raw, kind, position, Min(width, height) as real, uuid);
      var m1 := WithBind(m0, raw, kind).value;
      var m2 := WithUpBoost(m1, raw).value;
      BindKeepsMissing(m0, raw, kind);
      BindKeepsMissing(m1, raw, kind);
      PlacesKeepMissing(m2, raw, kind, width, height);
      MergedDefaults(raw, kind, position, Min(width, height) as real, uuid);
    }
  }

  lemma BindKeepsMissing(m: Fields, raw: Fields, kind: string)
    ensures WithBind(m, raw, kind).Some? ==> forall k :: k !in raw ==> Get(WithBind(m, raw, kind).value, k) == Get(m, k)
    ensures WithUpBoost(m, raw).Some? ==> forall k :: k !in raw ==> Get(WithUpBoost(m, raw).value, k) == Get(m, k)
  {
    hide DirectionBinding, BindingArray;
  }

  lemma MergedDefaults(raw: Fields, kind: string, position: (real, real), distance: real, uuid: string)
    ensures forall k :: k in {"center", "positions", "items", "up_boost_key"} && k !in raw ==>
              Get(Merged(raw, kind, position, distance, uuid), k) == Get(CreateMapping(kind, position, distance, uuid), k)
  {
    hide CreateMapping;
  }
}
