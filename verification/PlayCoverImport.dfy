// Importing PlayCover key maps from a decoded plist (src/playCoverCompat.ts:128-251).
module PlayCoverImport {
  import opened Prelude
  import opened Text
  import opened Json
  import opened KeyMapping
  import opened MappingDefaults
  import MappingEditor

  const MAX_MODELS: nat := 1024

  /** `keyboardCodeForUsage`: the key name of a HID usage. */
  type CodeTable = int -> Option<string>

  datatype Frame = Frame(width: nat, height: nat)

  datatype ModelKind = Tap | Drag | Stick

  // ----- reading one model -----

  function PositionOf(model: Fields): (p: Option<(real, real)>)
    ensures p.Some? ==> 0.0 <= p.value.0 <= 1.0 && 0.0 <= p.value.1 <= 1.0
  {
    var transform :- AsObject(Get(model, "transform"));
    var x :- AsNumber(Get(transform, "xCoord"));
    var y :- AsNumber(Get(transform, "yCoord"));
    if x < 0.0 || x > 1.0 || y < 0.0 || y > 1.0 then None else Some((x, y))
  }

  function BindingOf(model: Fields, field: string, codes: CodeTable): Option<string> {
    var usage :- AsInteger(Get(model, field));
    if -0x1F_FFFF_FFFF_FFFF <= usage <= 0x1F_FFFF_FFFF_FFFF then NonEmptyName(codes(usage)) else None
  }

  /** An empty key name is falsy. */
  function NonEmptyName(code: Option<string>): Option<string> {
    if code == Some("") then None else code
  }

  function Clamp(value: real, minimum: real, maximum: real): real {
    RealMax(minimum, RealMin(maximum, value))
  }

  function RadiusPixels(model: Fields, frame: Frame): real {
    var transform := AsObject(Get(model, "transform"));
    var size := if transform.None? then None else AsNumber(Get(transform.value, "size"));
    var side := Min(frame.width, frame.height) as real;
    Clamp((if size.None? then 10.0 else size.value) / 200.0 * side, 8.0, side * 0.4)
  }

  function IdPrefix(kind: ModelKind): string {
    match kind
    case Tap => "playcover-button-"
    case Drag => "playcover-drag-"
    case Stick => "playcover-joystick-"
  }

  function ModelId(kind: ModelKind, index: nat): string {
    IdPrefix(kind) + Decimal(index)
  }

  function OneKey(key: string): Json {
    Arr([Str(key)])
  }

  /** The fields that the importer overrides, or None when the model is skipped. */
  function Overrides(kind: ModelKind, model: Fields, point: Json, frame: Frame, codes: CodeTable): Option<Fields> {
    match kind
    case Tap =>
      var key :- BindingOf(model, "keyCode", codes);
      Some(map["bind" := OneKey(key)])
    case Drag =>
      var key :- BindingOf(model, "keyCode", codes);
      var radius := Num(RadiusPixels(model, frame));
      Some(map["bind" := OneKey(key), "center" := point, "cast_radius" := radius, "drag_radius" := radius])
    case Stick =>
      var up :- BindingOf(model, "upKeyCode", codes);
      var down :- BindingOf(model, "downKeyCode", codes);
      var left :- BindingOf(model, "leftKeyCode", codes);
      var right :- BindingOf(model, "rightKeyCode", codes);
      var radius := Num(RadiusPixels(model, frame));
      Some(map["bind" := Obj(map["type" := Str("Button"), "up" := OneKey(up), "down" := OneKey(down),
                                 "left" := OneKey(left), "right" := OneKey(right)]),
               "max_offset_x" := radius, "max_offset_y" := radius])
  }

  function TypeOf(kind: ModelKind): string {
    match kind
    case Tap => "Press"
    case Drag => "MouseCastSpell"
    case Stick => "DirectionPad"
  }

  function MappingOf(kind: ModelKind, raw: Json, index: nat, pointer: nat, frame: Frame, codes: CodeTable): Option<Fields> {
    var model :- AsObject(Some(raw));
    var p :- PositionOf(model);
    var overrides :- Overrides(kind, model, Point(p.0, p.1), frame, codes);
    var id := Str(ModelId(kind, index));
    Some(CreateMapping(TypeOf(kind), p, Min(frame.width, frame.height) as real, "")
         + overrides + map["id" := id, "pointer_id" := Num((pointer % 5) as real)])
  }

  // ----- importing -----

  datatype Config = Config(buttons: seq<Json>, drags: seq<Json>, sticks: seq<Json>, mouseAreas: seq<Json>, bundle: Option<string>)

  function ReadArray(config: Fields, name: string): Option<seq<Json>> {
    if name in config && config[name].Arr? then Some(config[name].items) else None
  }

  /** `/^[A-Za-z0-9.-]+$/` and at most 255 long; anything else is dropped. */
  function ReadBundle(value: Option<Json>): (bundle: Option<string>)
    ensures bundle.Some? ==> bundle.value != ""
  {
    var id :- AsString(value);
    if 1 <= |id| <= 255 && forall i :: 0 <= i < |id| ==> IsAlphanumeric(id[i]) || id[i] == '.' || id[i] == '-' then Some(id)
    else None
  }

  function TotalModels(c: Config): nat {
    |c.buttons| + |c.drags| + |c.sticks| + |c.mouseAreas|
  }

  function ReadConfig(value: Json, frame: Frame): (c: Option<Config>)
    ensures c.Some? ==> TotalModels(c.value) <= MAX_MODELS && frame.width > 0 && frame.height > 0
  {
    var config :- AsObject(Some(value));
    var buttons :- ReadArray(config, "buttonModels");
    var drags :- ReadArray(config, "draggableButtonModels");
    var sticks :- ReadArray(config, "joystickModel");
    var mouseAreas :- ReadArray(config, "mouseAreaModel");
    var c := Config(buttons, drags, sticks, mouseAreas, ReadBundle(Get(config, "bundleIdentifier")));
    if Get(config, "version") != Some(Str("2.0.0")) || frame.width == 0 || frame.height == 0 || TotalModels(c) > MAX_MODELS
    then None else Some(c)
  }

  function Append(taken: seq<Json>, m: Option<Fields>): seq<Json> {
    if m.Some? then taken + [Obj(m.value)] else taken
  }

  /** The mappings of one category after those already taken; each takes the next pointer in turn. */
  function Category(kind: ModelKind, models: seq<Json>, taken: seq<Json>, frame: Frame, codes: CodeTable): (r: seq<Json>)
    ensures |taken| <= |r| <= |taken| + |models|
    decreases |models|
  {
    if models == [] then taken
    else
      var n := |models| - 1;
      var before := Category(kind, models[..n], taken, frame, codes);
      Append(before, MappingOf(kind, models[n], n, |before|, frame, codes))
  }

  function Imported(c: Config, frame: Frame, codes: CodeTable): (r: seq<Json>)
    ensures |r| <= |c.buttons| + |c.drags| + |c.sticks|
  {
    Category(Stick, c.sticks, Category(Drag, c.drags, Category(Tap, c.buttons, [], frame, codes), frame, codes), frame, codes)
  }

  function ImportedProfile(c: Config, name: string, frame: Frame, codes: CodeTable): Profile {
    Profile(2, name, Imported(c, frame, codes),
            if c.bundle.Some? then [c.bundle.value] else [],
            if c.bundle.Some? then Some(Resolution(frame.width, frame.height)) else None,
            DEFAULT_HARDWARE_BINDINGS)
  }

  /** The variables that the import closures share. */
  datatype Progress = Progress(mappings: seq<Json>, skipped: nat, pointer: nat)

  method AddModels(kind: ModelKind, models: seq<Json>, before: Progress, frame: Frame, codes: CodeTable) returns (after: Progress)
    requires before.pointer == |before.mappings|
    ensures after.mappings == Category(kind, models, before.mappings, frame, codes)
    ensures after.pointer == |after.mappings|
    ensures |after.mappings| + after.skipped == |before.mappings| + before.skipped + |models|
  {
    var mappings, skipped, pointer := before.mappings, before.skipped, before.pointer;
    for index := 0 to |models|
      invariant mappings == Category(kind, models[..index], before.mappings, frame, codes)
      invariant pointer == |mappings|
      invariant |mappings| + skipped == |before.mappings| + before.skipped + index
    {
      hide MappingOf;
      assert models[..index + 1][..index] == models[..index];
      var mapping := MappingOf(kind, models[index], index, pointer, frame, codes);
      if mapping.None? {
        skipped := skipped + 1;
      } else {
        pointer := pointer + 1;
        mappings := mappings + [Obj(mapping.value)];
      }
    }
    assert models[..|models|] == models;
    after := Progress(mappings, skipped, pointer);
  }

  /** None is the thrown error; every model is either imported or skipped. */
  method ImportPlayCoverConfig(value: Json, name: string, frame: Frame, codes: CodeTable) returns (result: Option<ImportResult>)
    ensures result.Some? <==> ReadConfig(value, frame).Some?
    ensures result.Some? ==>
              var c := ReadConfig(value, frame).value;
              && result.value.profile == ImportedProfile(c, name, frame, codes)
              && result.value.imported == |result.value.profile.mappings|
              && result.value.imported + result.value.skipped == TotalModels(c)
  {
    hide Category;
    var config := ReadConfig(value, frame);
    if config.None? {
      return None;
    }
    var c := config.value;
    var progress := Progress([], 0, 0);
    progress := AddModels(Tap, c.buttons, progress, frame, codes);
    progress := AddModels(Drag, c.drags, progress, frame, codes);
    progress := AddModels(Stick, c.sticks, progress, frame, codes);
    var profile := Profile(2, name, progress.mappings,
                           if c.bundle.Some? then [c.bundle.value] else [],
                           if c.bundle.Some? then Some(Resolution(frame.width, frame.height)) else None,
                           DEFAULT_HARDWARE_BINDINGS);
    result := Some(ImportResult(profile, |progress.mappings|, progress.skipped + |c.mouseAreas|));
  }

  // ----- pointers go round -----

  ghost predicate PointersGoRound(mappings: seq<Json>) {
    forall i :: 0 <= i < |mappings| ==> mappings[i].Obj? && Get(mappings[i].fields, "pointer_id") == Some(Num((i % 5) as real))
  }

  lemma {:induction false} CategoryGoesRound(kind: ModelKind, models: seq<Json>, taken: seq<Json>, frame: Frame, codes: CodeTable)
    requires PointersGoRound(taken)
    ensures PointersGoRound(Category(kind, models, taken, frame, codes))
    decreases |models|
  {
    hide CreateMapping, Overrides, PositionOf;
    if models != [] {
      CategoryGoesRound(kind, models[..|models| - 1], taken, frame, codes);
    }
  }

  /** The i-th imported mapping, of whatever category, gets contact i mod 5. */
  lemma ImportGoesRound(c: Config, frame: Frame, codes: CodeTable)
    ensures PointersGoRound(Imported(c, frame, codes))
  {
    hide Category;
    CategoryGoesRound(Tap, c.buttons, [], frame, codes);
    var taps := Category(Tap, c.buttons, [], frame, codes);
    CategoryGoesRound(Drag, c.drags, taps, frame, codes);
    CategoryGoesRound(Stick, c.sticks, Category(Drag, c.drags, taps, frame, codes), frame, codes);
  }

  /** An imported mapping as the editor sees it: all three types have a pointer id. */
  function EditorView(m: Json): MappingEditor.Mapping {
    var fields := if m.Obj? then m.fields else map[];
    var pointer := AsInteger(Get(fields, "pointer_id"));
    MappingEditor.Mapping(
      if AsString(Get(fields, "id")).Some? then AsString(Get(fields, "id")).value else "",
      MappingEditor.Single(MappingEditor.Position(0.0, 0.0)),
      if pointer.Some? then MappingEditor.Pointer(pointer.value) else MappingEditor.NoContact)
  }

  function EditorViews(mappings: seq<Json>): seq<MappingEditor.Mapping> {
    seq(|mappings|, i requires 0 <= i < |mappings| => EditorView(mappings[i]))
  }

  /** An imported profile uses its contacts evenly, and stays so however it is then edited. */
  lemma ImportedStaysBalanced(c: Config, frame: Frame, codes: CodeTable, edits: seq<MappingEditor.Edit>)
    ensures MappingEditor.Balanced(MappingEditor.Run(EditorViews(Imported(c, frame, codes)), edits))
  {
    hide Imported;
    ImportGoesRound(c, frame, codes);
    var mappings := Imported(c, frame, codes);
    forall i | 0 <= i < |mappings| ensures EditorView(mappings[i]).contact == MappingEditor.Pointer(i % 5) {
      assert ((i % 5) as real).Floor == i % 5;
    }
    MappingEditor.RoundIsBalanced(EditorViews(mappings));
    MappingEditor.EditsKeepBalance(EditorViews(mappings), edits);
  }

  // ----- acceptance by the validator -----

  lemma OverridesPlaces(kind: ModelKind, model: Fields, point: Json, frame: Frame, codes: CodeTable)
    ensures var o := Overrides(kind, model, point, frame, codes);
            o.Some? ==>
              && (forall k :: k in {"id", "type", "position", "positions", "items"} ==> k !in o.value)
              && ("center" in o.value ==> o.value["center"] == point)
  {
    hide BindingOf, RadiusPixels;
  }

  lemma MappingParts(kind: ModelKind, raw: Json, index: nat, pointer: nat, frame: Frame, codes: CodeTable)
    ensures var found := MappingOf(kind, raw, index, pointer, frame, codes);
            found.Some? ==>
              && raw.Obj? && PositionOf(raw.fields).Some?
              && var m := found.value;
                 && Get(m, "id") == Some(Str(ModelId(kind, index))) && Get(m, "type") == Some(Str(TypeOf(kind)))
                 && Get(m, "position") == Some(Point(PositionOf(raw.fields).value.0, PositionOf(raw.fields).value.1))
                 && ("center" in m ==> IsPosition(m["center"]))
                 && ("positions" in m ==> ArePositions(m["positions"]))
                 && ("items" in m ==> AreItems(m["items"]))
  {
    hide Overrides, PositionOf, CreateMapping, ModelId, IsPosition, ArePositions, AreItems, TypeOf;
    var found := MappingOf(kind, raw, index, pointer, frame, codes);
    if found.Some? {
      var p := PositionOf(raw.fields).value;
      OverridesPlaces(kind, raw.fields, Point(p.0, p.1), frame, codes);
      CreatedPlaces(TypeOf(kind), p, Min(frame.width, frame.height) as real, "");
      PointIsPosition(p);
    }
  }

  lemma MappingIsValid(kind: ModelKind, raw: Json, index: nat, pointer: nat, frame: Frame, codes: CodeTable)
    ensures var m := MappingOf(kind, raw, index, pointer, frame, codes);
            m.Some? ==> IsMapping(Obj(m.value)) && IdOf(Obj(m.value)) == ModelId(kind, index)
  {
    hide MappingOf, PositionOf, HasValidPositions, IsMappingType, ModelId, IsPosition, ArePositions, AreItems, TypeOf;
    var found := MappingOf(kind, raw, index, pointer, frame, codes);
    if found.Some? {
      MappingParts(kind, raw, index, pointer, frame, codes);
      PlacesAreValid(found.value, PositionOf(raw.fields).value);
      TypesAreKnown(kind);
      IdIsNotEmpty(kind, index);
    }
  }

  lemma PointIsPosition(p: (real, real))
    requires 0.0 <= p.0 <= 1.0 && 0.0 <= p.1 <= 1.0
    ensures IsPosition(Point(p.0, p.1))
  {
  }

  lemma TypesAreKnown(kind: ModelKind)
    ensures IsMappingType(TypeOf(kind))
  {
  }

  lemma IdIsNotEmpty(kind: ModelKind, index: nat)
    ensures ModelId(kind, index) != ""
  {
  }

  /** Ids tell category and index apart. */
  lemma IdsAreInjective(kind: ModelKind, index: nat, other: ModelKind, otherIndex: nat)
    requires ModelId(kind, index) == ModelId(other, otherIndex)
    ensures kind == other && index == otherIndex
  {
    var a, b := ModelId(kind, index), ModelId(other, otherIndex);
    assert a[10] == IdPrefix(kind)[10] && b[10] == IdPrefix(other)[10];
    assert kind == other;
    assert a[|IdPrefix(kind)|..] == Decimal(index) && b[|IdPrefix(kind)|..] == Decimal(otherIndex);
    DecimalRoundTrip(index);
    DecimalRoundTrip(otherIndex);
  }

  /** Each mapping is valid, and carries the id of a model before `kind` or of one of its first n models. */
  ghost predicate IdsUpTo(mappings: seq<Json>, kinds: set<ModelKind>, kind: ModelKind, n: nat) {
    && MappingsAccepted(mappings)
    && forall i :: 0 <= i < |mappings| ==> ComesFrom(IdOf(mappings[i]), kinds, kind, n)
  }

  ghost predicate ComesFrom(id: string, kinds: set<ModelKind>, kind: ModelKind, n: nat) {
    exists k: ModelKind, index: nat {:trigger ModelId(k, index)} ::
      (k in kinds || (k == kind && index < n)) && id == ModelId(k, index)
  }

  lemma ComesFromMore(id: string, kinds: set<ModelKind>, kind: ModelKind, n: nat, next: ModelKind)
    requires ComesFrom(id, kinds, kind, n)
    ensures ComesFrom(id, kinds, kind, n + 1)
    ensures ComesFrom(id, kinds + {kind}, next, 0)
  {
    var k: ModelKind, index: nat :| (k in kinds || (k == kind && index < n)) && id == ModelId(k, index);
  }

  lemma AppendKeepsIds(mappings: seq<Json>, m: Fields, kinds: set<ModelKind>, kind: ModelKind, n: nat)
    requires IdsUpTo(mappings, kinds, kind, n) && kind !in kinds
    requires IsMapping(Obj(m)) && IdOf(Obj(m)) == ModelId(kind, n)
    ensures IdsUpTo(mappings + [Obj(m)], kinds, kind, n + 1)
  {
    hide IsMapping, IdOf, ModelId;
    forall i | 0 <= i < |mappings| ensures IdOf(mappings[i]) != IdOf(Obj(m)) {
      assert ComesFrom(IdOf(mappings[i]), kinds, kind, n);
      var k: ModelKind, index: nat :| (k in kinds || (k == kind && index < n)) && IdOf(mappings[i]) == ModelId(k, index);
      if ModelId(k, index) == ModelId(kind, n) {
        IdsAreInjective(k, index, kind, n);
      }
    }
    MoreIds(mappings, kinds, kind, n);
    assert ComesFrom(ModelId(kind, n), kinds, kind, n + 1);
  }

  lemma {:induction false} CategoryIsAccepted(
    kind: ModelKind, models: seq<Json>, taken: seq<Json>, kinds: set<ModelKind>, frame: Frame, codes: CodeTable)
    requires IdsUpTo(taken, kinds, kind, 0) && kind !in kinds
    ensures IdsUpTo(Category(kind, models, taken, frame, codes), kinds, kind, |models|)
    decreases |models|
  {
    hide MappingOf, IdsUpTo, IsMapping, IdOf, ModelId;
    if models != [] {
      var n := |models| - 1;
      CategoryIsAccepted(kind, models[..n], taken, kinds, frame, codes);
      var before := Category(kind, models[..n], taken, frame, codes);
      MappingIsValid(kind, models[n], n, |before|, frame, codes);
      var m := MappingOf(kind, models[n], n, |before|, frame, codes);
      if m.Some? {
        AppendKeepsIds(before, m.value, kinds, kind, n);
      } else {
        MoreIds(before, kinds, kind, n);
      }
    }
  }

  lemma MoreIds(mappings: seq<Json>, kinds: set<ModelKind>, kind: ModelKind, n: nat)
    requires IdsUpTo(mappings, kinds, kind, n)
    ensures IdsUpTo(mappings, kinds, kind, n + 1)
  {
    hide IsMapping, IdOf, ModelId;
    forall i | 0 <= i < |mappings|
      ensures ComesFrom(IdOf(mappings[i]), kinds, kind, n + 1) && ComesFrom(IdOf(mappings[i]), kinds + {kind}, kind, 0)
    {
      ComesFromMore(IdOf(mappings[i]), kinds, kind, n, kind);
    }
  }

  lemma NextKind(mappings: seq<Json>, kinds: set<ModelKind>, kind: ModelKind, n: nat, next: ModelKind)
    requires IdsUpTo(mappings, kinds, kind, n)
    ensures IdsUpTo(mappings, kinds + {kind}, next, 0)
  {
    hide IsMapping, IdOf, ModelId;
    forall i | 0 <= i < |mappings|
      ensures ComesFrom(IdOf(mappings[i]), kinds, kind, n + 1) && ComesFrom(IdOf(mappings[i]), kinds + {kind}, next, 0)
    {
      ComesFromMore(IdOf(mappings[i]), kinds, kind, n, next);
    }
  }

  lemma ImportedAreAccepted(c: Config, frame: Frame, codes: CodeTable)
    ensures MappingsAccepted(Imported(c, frame, codes))
  {
    hide Category, MappingsAccepted;
    NoMappingsAccepted();
    var taps := Category(Tap, c.buttons, [], frame, codes);
    CategoryIsAccepted(Tap, c.buttons, [], {}, frame, codes);
    NextKind(taps, {}, Tap, |c.buttons|, Drag);
    var drags := Category(Drag, c.drags, taps, frame, codes);
    CategoryIsAccepted(Drag, c.drags, taps, {} + {Tap}, frame, codes);
    NextKind(drags, {} + {Tap}, Drag, |c.drags|, Stick);
    CategoryIsAccepted(Stick, c.sticks, drags, {} + {Tap} + {Drag}, frame, codes);
  }

  // ----- how many are imported -----

  /** The key codes that a model of each kind must have. */
  function CodeFields(kind: ModelKind): set<string> {
    if kind == Stick then {"upKeyCode", "downKeyCode", "leftKeyCode", "rightKeyCode"} else {"keyCode"}
  }

  /** A model that is not skipped: an object with a place in the frame and a known key for each of its codes. */
  predicate IsImportable(kind: ModelKind, raw: Json, codes: CodeTable) {
    && raw.Obj? && PositionOf(raw.fields).Some?
    && forall field :: field in CodeFields(kind) ==> BindingOf(raw.fields, field, codes).Some?
  }

  function CountImportable(kind: ModelKind, models: seq<Json>, codes: CodeTable): nat {
    if models == [] then 0
    else CountImportable(kind, models[..|models| - 1], codes) + if IsImportable(kind, models[|models| - 1], codes) then 1 else 0
  }

  /** Whether a model is imported does not depend on where it stands or what was imported before. */
  lemma ImportedIffImportable(kind: ModelKind, raw: Json, index: nat, pointer: nat, frame: Frame, codes: CodeTable)
    ensures MappingOf(kind, raw, index, pointer, frame, codes).Some? <==> IsImportable(kind, raw, codes)
  {
    hide BindingOf, PositionOf, CreateMapping, RadiusPixels, ModelId;
  }

  lemma {:induction false} CategoryCount(kind: ModelKind, models: seq<Json>, taken: seq<Json>, frame: Frame, codes: CodeTable)
    ensures |Category(kind, models, taken, frame, codes)| == |taken| + CountImportable(kind, models, codes)
    decreases |models|
  {
    hide MappingOf, IsImportable;
    if models != [] {
      var n := |models| - 1;
      var before := Category(kind, models[..n], taken, frame, codes);
      CategoryCount(kind, models[..n], taken, frame, codes);
      ImportedIffImportable(kind, models[n], n, |before|, frame, codes);
    }
  }

  /** The importable models of a configuration. */
  function CountModels(c: Config, codes: CodeTable): nat {
    CountImportable(Tap, c.buttons, codes) + CountImportable(Drag, c.drags, codes) + CountImportable(Stick, c.sticks, codes)
  }

  lemma ImportedCount(c: Config, frame: Frame, codes: CodeTable)
    ensures |Imported(c, frame, codes)| == CountModels(c, codes)
  {
    hide Category, CountImportable;
    var taps := Category(Tap, c.buttons, [], frame, codes);
    CategoryCount(Tap, c.buttons, [], frame, codes);
    CategoryCount(Drag, c.drags, taps, frame, codes);
    CategoryCount(Stick, c.sticks, Category(Drag, c.drags, taps, frame, codes), frame, codes);
  }

  /**
   * The validator accepts an imported profile exactly when it has a name, the configuration has at most 512
   * importable models, and a bundle identifier, if any, that it would accept, for a frame within its bounds.
   */
  lemma ImportedProfileAcceptedIff(value: Json, name: string, frame: Frame, codes: CodeTable)
    requires ReadConfig(value, frame).Some?
    ensures var c := ReadConfig(value, frame).value;
            Accepted(ImportedProfile(c, name, frame, codes))
            <==> name != "" && CountModels(c, codes) <= 512
                 && (c.bundle.Some? ==> IsBundleId(c.bundle.value) && frame.width <= 16384 && frame.height <= 16384)
  {
    hide ReadConfig, Imported, MappingsAccepted, HardwareAccepted, IsBundleId, CountModels;
    var c := ReadConfig(value, frame).value;
    ImportedAreAccepted(c, frame, codes);
    ImportedCount(c, frame, codes);
    if c.bundle.Some? {
      assert BundlesAccepted([c.bundle.value]) <==> IsBundleId([c.bundle.value][0]);
    }
    DefaultHardwareAccepted(Imported(c, frame, codes));
  }

  // ----- configurations that are imported and then refused -----

  function ConfigValue(buttons: seq<Json>, bundle: Json): Json {
    Obj(map["version" := Str("2.0.0"), "buttonModels" := Arr(buttons), "draggableButtonModels" := Arr([]),
            "joystickModel" := Arr([]), "mouseAreaModel" := Arr([]), "bundleIdentifier" := bundle])
  }

  lemma ConfigIsRead(buttons: seq<Json>, bundle: Json, frame: Frame)
    requires |buttons| <= MAX_MODELS && frame.width > 0 && frame.height > 0
    ensures ReadConfig(ConfigValue(buttons, bundle), frame) == Some(Config(buttons, [], [], [], ReadBundle(Some(bundle))))
  {
    hide ReadBundle;
  }

  /** A button in the corner of the frame, bound to key usage 4. */
  const BUTTON := Obj(map["keyCode" := Num(4.0), "transform" := Obj(map["xCoord" := Num(0.0), "yCoord" := Num(0.0)])])

  lemma ButtonIsImportable(codes: CodeTable)
    requires codes(4).Some? && codes(4) != Some("")
    ensures IsImportable(Tap, BUTTON, codes)
  {
    assert (4.0 as real).Floor == 4;
    assert AsInteger(Get(BUTTON.fields, "keyCode")) == Some(4);
  }

  lemma {:induction false} ButtonsCount(buttons: seq<Json>, codes: CodeTable)
    requires IsImportable(Tap, BUTTON, codes)
    requires forall i :: 0 <= i < |buttons| ==> buttons[i] == BUTTON
    ensures CountImportable(Tap, buttons, codes) == |buttons|
  {
    hide IsImportable;
    if buttons != [] {
      ButtonsCount(buttons[..|buttons| - 1], codes);
    }
  }

  /** 513 buttons are all imported, and refused by the validator. */
  lemma TooManyButtonsAreRefused(name: string, frame: Frame, codes: CodeTable)
    requires frame.width > 0 && frame.height > 0 && codes(4).Some? && codes(4) != Some("")
    ensures var read := ReadConfig(ConfigValue(seq(513, _ => BUTTON), Null), frame);
            && read.Some?
            && |Imported(read.value, frame, codes)| == 513
            && !Accepted(ImportedProfile(read.value, name, frame, codes))
  {
    hide ReadConfig, Imported, Accepted, IsImportable, CountImportable, ConfigValue;
    var buttons := seq(513, _ => BUTTON);
    ConfigIsRead(buttons, Null, frame);
    ButtonIsImportable(codes);
    ButtonsCount(buttons, codes);
    NothingToCount(Drag, codes);
    NothingToCount(Stick, codes);
    var c := ReadConfig(ConfigValue(buttons, Null), frame).value;
    ImportedCount(c, frame, codes);
    ImportedProfileAcceptedIff(ConfigValue(buttons, Null), name, frame, codes);
  }

  lemma NothingToCount(kind: ModelKind, codes: CodeTable)
    ensures CountImportable(kind, [], codes) == 0
  {
  }

  /** A configuration whose bundle identifier has no dot is imported, and refused by the validator. */
  lemma UndottedBundleIsRefused(name: string, frame: Frame, codes: CodeTable)
    requires frame.width > 0 && frame.height > 0
    ensures var read := ReadConfig(ConfigValue([], Str("game")), frame);
            && read.Some? && read.value.bundle == Some("game")
            && !Accepted(ImportedProfile(read.value, name, frame, codes))
  {
    hide ReadConfig, Imported, Accepted, ConfigValue;
    ConfigIsRead([], Str("game"), frame);
    GameIsNoBundleId();
    ImportedProfileAcceptedIff(ConfigValue([], Str("game")), name, frame, codes);
  }

  lemma GameIsNoBundleId()
    ensures ReadBundle(Some(Str("game"))) == Some("game") && !IsBundleId("game")
  {
    var id := "game";
    assert id == ['g', 'a', 'm', 'e'];
    assert forall i :: 0 <= i < |id| ==> IsAlphanumeric(id[i]);
  }

  /** Clamping keeps what is within the bounds; of contradictory bounds the lower one wins. */
  lemma ClampIs(value: real, minimum: real, maximum: real)
    ensures minimum <= Clamp(value, minimum, maximum) <= RealMax(minimum, maximum)
    ensures minimum <= value <= maximum ==> Clamp(value, minimum, maximum) == value
    ensures value <= minimum ==> Clamp(value, minimum, maximum) == minimum
    ensures value >= maximum >= minimum ==> Clamp(value, minimum, maximum) == maximum
  {
  }

  lemma RadiusInBounds(model: Fields, frame: Frame)
    ensures 8.0 <= RadiusPixels(model, frame) <= RealMax(8.0, (Min(frame.width, frame.height) as real) * 0.4)
  {
    hide Clamp;
    var side := Min(frame.width, frame.height) as real;
    var transform := AsObject(Get(model, "transform"));
    var size := if transform.None? then None else AsNumber(Get(transform.value, "size"));
    ClampIs((if size.None? then 10.0 else size.value) / 200.0 * side, 8.0, side * 0.4);
  }

  /** A model comes through at its own place, bound to its own key; a drag is centred there, with a radius in bounds. */
  lemma ModelKeepsPlace(kind: ModelKind, raw: Json, index: nat, pointer: nat, frame: Frame, codes: CodeTable)
    ensures var m := MappingOf(kind, raw, index, pointer, frame, codes);
            m.Some? ==>
              && raw.Obj? && PositionOf(raw.fields).Some?
              && var here := Point(PositionOf(raw.fields).value.0, PositionOf(raw.fields).value.1);
                 var least := Min(frame.width, frame.height) as real;
                 && Get(m.value, "position") == Some(here)
                 && (kind != Stick ==>
                       BindingOf(raw.fields, "keyCode", codes).Some?
                       && Get(m.value, "bind") == Some(OneKey(BindingOf(raw.fields, "keyCode", codes).value)))
                 && (kind == Drag ==>
                       && Get(m.value, "center") == Some(here)
                       && Get(m.value, "cast_radius") == Get(m.value, "drag_radius") == Some(Num(RadiusPixels(raw.fields, frame)))
                       && 8.0 <= RadiusPixels(raw.fields, frame) <= RealMax(8.0, least * 0.4))
  {
    hide BindingOf, PositionOf, CreateMapping, ModelId, RadiusPixels;
    var m := MappingOf(kind, raw, index, pointer, frame, codes);
    if m.Some? {
      var p := PositionOf(raw.fields).value;
      RadiusInBounds(raw.fields, frame);
      CreatedPosition(TypeOf(kind), p, Min(frame.width, frame.height) as real);
    }
  }

  lemma CreatedPosition(kind: string, position: (real, real), distance: real)
    ensures Get(CreateMapping(kind, position, distance, ""), "position") == Some(Point(position.0, position.1))
  {
    hide PlainDefaults, PlaceDefaults;
  }

  function CodeField(direction: string): string {
    direction + "KeyCode"
  }

  /** In an imported joystick each direction leads to the key of its own usage, along the path the validator follows. */
  lemma StickKeysStayApart(raw: Json, index: nat, pointer: nat, frame: Frame, codes: CodeTable, direction: string)
    requires direction in {"up", "down", "left", "right"}
    ensures var m := MappingOf(Stick, raw, index, pointer, frame, codes);
            m.Some? ==>
              raw.Obj? && BindingOf(raw.fields, CodeField(direction), codes).Some?
              && Follow(Obj(m.value), [Field("bind"), Field(direction), Index(0)])
                 == Some(Str(BindingOf(raw.fields, CodeField(direction), codes).value))
  {
    hide BindingOf, PositionOf, CreateMapping, RadiusPixels, ModelId;
    assert "up" + "KeyCode" == "upKeyCode" && "down" + "KeyCode" == "downKeyCode";
    assert "left" + "KeyCode" == "leftKeyCode" && "right" + "KeyCode" == "rightKeyCode";
    var found := MappingOf(Stick, raw, index, pointer, frame, codes);
    if found.Some? {
      var key := OneKey(BindingOf(raw.fields, CodeField(direction), codes).value);
      var bind := found.value["bind"];
      assert bind.Obj? && bind.fields[direction] == key;
      FollowThree(Obj(found.value), bind, key, direction);
    }
  }

  lemma FollowThree(value: Json, bind: Json, keys: Json, direction: string)
    requires value.Obj? && Get(value.fields, "bind") == Some(bind)
    requires bind.Obj? && Get(bind.fields, direction) == Some(keys)
    requires keys.Arr? && |keys.items| == 1
    requires direction in {"up", "down", "left", "right"}
    ensures Follow(value, [Field("bind"), Field(direction), Index(0)]) == Some(keys.items[0])
  {
    var hops := [Field("bind"), Field(direction), Index(0)];
    assert hops[1..] == [Field(direction), Index(0)] && hops[1..][1..] == [Index(0)] && hops[1..][1..][1..] == [];
    assert IsBindingField("bind") && IsBindingField(direction);
    assert Follow(keys, [Index(0)]) == Some(keys.items[0]) by {
      assert [Index(0)][1..] == [];
    }
    assert Follow(bind, [Field(direction), Index(0)]) == Follow(keys, [Index(0)]) by {
      assert [Field(direction), Index(0)][1..] == [Index(0)];
    }
  }

  // ----- reading a configuration, in plain terms -----

  ghost predicate HasNumber(fields: Fields, name: string, n: real) {
    Get(fields, name) == Some(Num(n))
  }

  /** A model's place is its transform's x and y, each from 0 to 1. */
  lemma PositionIff(model: Fields, x: real, y: real)
    ensures PositionOf(model) == Some((x, y)) <==>
              && "transform" in model && model["transform"].Obj?
              && HasNumber(model["transform"].fields, "xCoord", x) && HasNumber(model["transform"].fields, "yCoord", y)
              && 0.0 <= x <= 1.0 && 0.0 <= y <= 1.0
  {
  }

  /** A key is known if its usage is a safe integer to which the table gives a name. */
  lemma BindingIff(model: Fields, field: string, codes: CodeTable, key: string)
    ensures BindingOf(model, field, codes) == Some(key) <==>
              exists usage: int :: IsUsage(model, field, usage) && codes(usage) == Some(key) && key != ""
  {
    var usage := AsInteger(Get(model, field));
    if usage.Some? && -9007199254740991 <= usage.value <= 9007199254740991 {
      assert IsUsage(model, field, usage.value);
    }
    forall u: int | IsUsage(model, field, u) ensures usage == Some(u) {
      assert (u as real).Floor == u;
    }
  }

  ghost predicate IsUsage(model: Fields, field: string, usage: int) {
    Get(model, field) == Some(Num(usage as real)) && -9007199254740991 <= usage <= 9007199254740991
  }

  /** A radius is the size, 10 unless given, as a 200th of the shorter side, clamped to 8 and four tenths of it. */
  lemma RadiusIs(model: Fields, frame: Frame, size: real)
    requires (AsObject(Get(model, "transform")).Some? && Get(model["transform"].fields, "size") == Some(Num(size)))
             || (size == 10.0 && (AsObject(Get(model, "transform")).Some? ==> AsNumber(Get(model["transform"].fields, "size")) == None))
    ensures var side := (if frame.width <= frame.height then frame.width else frame.height) as real;
            RadiusPixels(model, frame) == Clamp(size / 200.0 * side, 8.0, side * 0.4)
  {
    hide Clamp;
  }

  /** Which configurations are read. */
  lemma ReadConfigIff(value: Json, frame: Frame)
    ensures ReadConfig(value, frame).Some? <==>
              && value.Obj? && Get(value.fields, "version") == Some(Str("2.0.0")) && frame.width > 0 && frame.height > 0
              && (forall name :: name in {"buttonModels", "draggableButtonModels", "joystickModel", "mouseAreaModel"} ==>
                    name in value.fields && value.fields[name].Arr?)
              && |value.fields["buttonModels"].items| + |value.fields["draggableButtonModels"].items|
                 + |value.fields["joystickModel"].items| + |value.fields["mouseAreaModel"].items| <= 1024
    ensures ReadConfig(value, frame).Some? ==>
              var c := ReadConfig(value, frame).value;
              && c.buttons == value.fields["buttonModels"].items && c.drags == value.fields["draggableButtonModels"].items
              && c.sticks == value.fields["joystickModel"].items && c.mouseAreas == value.fields["mouseAreaModel"].items
              && c.bundle == ReadBundle(Get(value.fields, "bundleIdentifier"))
  {
    hide ReadBundle;
    var names := {"buttonModels", "draggableButtonModels", "joystickModel", "mouseAreaModel"};
    assert "buttonModels" in names && "draggableButtonModels" in names && "joystickModel" in names && "mouseAreaModel" in names;
  }

  /** A bundle identifier is kept if it is 1 to 255 letters, digits, dots and dashes. */
  lemma ReadBundleIff(id: string)
    ensures ReadBundle(Some(Str(id))) ==
              if 1 <= |id| <= 255 && forall i :: 0 <= i < |id| ==> id[i] in ALPHANUMERICS + ".-" then Some(id) else None
    ensures ReadBundle(None) == None
  {
    forall c ensures IsAlphanumeric(c) <==> c in ALPHANUMERICS {
      AlphanumericsAre(c);
    }
    assert ".-" == ['.', '-'];
  }

  /** Ids are the category and the place in it. */
  lemma IdsAre(index: nat)
    ensures ModelId(Tap, index) == "playcover-button-" + Decimal(index)
    ensures ModelId(Drag, index) == "playcover-drag-" + Decimal(index)
    ensures ModelId(Stick, index) == "playcover-joystick-" + Decimal(index)
  {
  }

  /** Fields that the importer does not set are those of a new mapping of the model's type; sticks reach as far as their radius. */
  lemma OtherFieldsAreDefaults(kind: ModelKind, raw: Json, index: nat, pointer: nat, frame: Frame, codes: CodeTable)
    ensures var m := MappingOf(kind, raw, index, pointer, frame, codes);
            m.Some? ==>
              raw.Obj? && PositionOf(raw.fields).Some? &&
              var typeName := match kind case Tap => "Press" case Drag => "MouseCastSpell" case Stick => "DirectionPad";
              var defaults := CreateMapping(typeName, PositionOf(raw.fields).value, Min(frame.width, frame.height) as real, "");
              && (forall k :: k !in SET ==> Get(m.value, k) == Get(defaults, k))
              && (kind == Stick ==>
                    Get(m.value, "max_offset_x") == Get(m.value, "max_offset_y") == Some(Num(RadiusPixels(raw.fields, frame))))
              && Get(m.value, "pointer_id") == Some(Num((pointer % 5) as real))
  {
    hide BindingOf, PositionOf, CreateMapping, RadiusPixels, ModelId;
  }

  /** The fields that the importer sets. */
  const SET: set<string> := {"bind", "center", "cast_radius", "drag_radius", "max_offset_x", "max_offset_y", "id", "pointer_id"}

  // ----- the order of what is imported -----

  lemma {:induction false} CategoryGrows(kind: ModelKind, models: seq<Json>, n: nat, taken: seq<Json>, frame: Frame, codes: CodeTable)
    requires n <= |models|
    ensures taken <= Category(kind, models[..n], taken, frame, codes) <= Category(kind, models, taken, frame, codes)
    decreases |models|
  {
    hide MappingOf;
    var last := |models| - 1;
    if n == |models| {
      assert models[..n] == models;
      if n > 0 {
        CategoryGrows(kind, models[..last], last, taken, frame, codes);
        assert models[..last][..last] == models[..last];
      }
    } else {
      assert models[..last][..n] == models[..n];
      CategoryGrows(kind, models[..last], n, taken, frame, codes);
    }
  }

  /** Within a category the k-th importable model gives the k-th mapping, after those of the categories before. */
  lemma CategoryInOrder(kind: ModelKind, models: seq<Json>, i: nat, taken: seq<Json>, frame: Frame, codes: CodeTable)
    requires i < |models| && IsImportable(kind, models[i], codes)
    ensures var all := Category(kind, models, taken, frame, codes);
            var k := |taken| + CountImportable(kind, models[..i], codes);
            && taken <= all && k < |all|
            && MappingOf(kind, models[i], i, k, frame, codes).Some?
            && all[k] == Obj(MappingOf(kind, models[i], i, k, frame, codes).value)
  {
    hide MappingOf, IsImportable;
    var before := Category(kind, models[..i], taken, frame, codes);
    CategoryCount(kind, models[..i], taken, frame, codes);
    ImportedIffImportable(kind, models[i], i, |before|, frame, codes);
    assert models[..i + 1][..i] == models[..i];
    CategoryGrows(kind, models, i + 1, taken, frame, codes);
    CategoryGrows(kind, models, |models|, taken, frame, codes);
    assert models[..|models|] == models;
  }

  /** Buttons come first, then drags, then joysticks. */
  lemma CategoriesInOrder(c: Config, frame: Frame, codes: CodeTable)
    ensures var taps := Category(Tap, c.buttons, [], frame, codes);
            var drags := Category(Drag, c.drags, taps, frame, codes);
            taps <= drags <= Imported(c, frame, codes) == Category(Stick, c.sticks, drags, frame, codes)
  {
    hide Category;
    var taps := Category(Tap, c.buttons, [], frame, codes);
    var drags := Category(Drag, c.drags, taps, frame, codes);
    CategoryGrows(Drag, c.drags, |c.drags|, taps, frame, codes);
    CategoryGrows(Stick, c.sticks, |c.sticks|, drags, frame, codes);
  }

  /** A profile holds its bundle identifier together with the frame, or neither. */
  lemma ProfileIs(c: Config, name: string, frame: Frame, codes: CodeTable)
    ensures var p := ImportedProfile(c, name, frame, codes);
            && p.version == 2 && p.name == name
            && (c.bundle == None ==> p.bundleIdentifiers == [] && p.targetResolution == None)
            && (c.bundle.Some? ==>
                  p.bundleIdentifiers == [c.bundle.value] && p.targetResolution == Some(Resolution(frame.width, frame.height)))
            && forall button :: button in p.hardwareBindings ==> p.hardwareBindings[button] == ""
  {
  }
}
