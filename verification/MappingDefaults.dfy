// What a new mapping and a new profile start from (src/types.ts:559-583, 648-655).
module MappingDefaults {
  import opened Prelude
  import opened Text
  import opened Json
  import opened KeyMapping

  const HOOKS := Obj(map["before_script" := Str(""), "after_script" := Str("")])

  const NO_BUTTONS := Obj(map["type" := Str("Button"), "up" := Arr([]), "down" := Arr([]), "left" := Arr([]), "right" := Arr([])])

  /** Fields that hold places, or that every mapping has. */
  const PLACES: set<string> := {"id", "type", "position", "center", "positions", "items"}

  ghost predicate HasNoPlaces(m: Fields) {
    m.Keys !! PLACES
  }

  function PointerDefaults(): (m: Fields)
    ensures HasNoPlaces(m)
  {
    map["bind" := Arr([]), "pointer_id" := Num(0.0)]
  }

  function RandomDefaults(): (m: Fields)
    ensures HasNoPlaces(m)
  {
    PointerDefaults() + map["random_offset_x" := Num(0.0), "random_offset_y" := Num(0.0), "script_hooks" := HOOKS]
  }

  function SensitivityDefaults(): (m: Fields)
    ensures HasNoPlaces(m)
  {
    map["sensitivity_x" := Num(0.8), "sensitivity_y" := Num(0.8)]
  }

  function JitterDefaults(): (m: Fields)
    ensures HasNoPlaces(m)
  {
    map["jitter_offset_x" := Num(0.0), "jitter_offset_y" := Num(0.0), "script_hooks" := HOOKS, "up_boost_key" := Null,
        "up_boost_scale" := Num(1.4)]
  }

  function SpreadDefaults(): (m: Fields)
    ensures HasNoPlaces(m)
  {
    map["enable_randomization" := Bool(false), "initial_duration" := Num(0.0), "random_distance_min_scale" := Num(1.0),
        "random_distance_max_scale" := Num(1.0), "random_offset_x" := Num(0.0), "random_offset_y" := Num(0.0)]
  }

  function ReachDefaults(distance: real): (m: Fields)
    ensures HasNoPlaces(m)
  {
    map["bind" := NO_BUTTONS, "pointer_id" := Num(0.0), "max_offset_x" := Num(distance * 0.1), "max_offset_y" := Num(distance * 0.1)]
  }

  function PadDefaults(distance: real): (m: Fields)
    ensures HasNoPlaces(m)
  {
    ReachDefaults(distance) + SpreadDefaults() + JitterDefaults()
  }

  function CastDefaults(distance: real): (m: Fields)
    ensures HasNoPlaces(m)
  {
    map["cast_no_direction" := Bool(false), "cast_radius" := Num(distance * 0.15), "drag_radius" := Num(distance * 0.1),
        "enable_initial_swipe_randomization" := Bool(false), "horizontal_scale_factor" := Num(7.0),
        "vertical_scale_factor" := Num(10.0), "initial_duration" := Num(0.0), "release_mode" := Str("OnRelease")]
  }

  function PadCastDefaults(distance: real): (m: Fields)
    ensures HasNoPlaces(m)
  {
    map["block_direction_pad" := Bool(false), "drag_radius" := Num(distance * 0.1), "enable_randomization" := Bool(false),
        "pad_bind" := NO_BUTTONS, "release_mode" := Str("OnRelease")]
  }

  function FpsDefaults(): (m: Fields)
    ensures HasNoPlaces(m)
  {
    map["max_offset_x" := Num(0.0), "max_offset_y" := Num(0.0),
        "touch_mode" := Obj(map["type" := Str("single"), "interval" := Num(0.0)])]
  }

  function ScriptDefaults(): (m: Fields)
    ensures HasNoPlaces(m)
  {
    map["bind" := Arr([]), "pressed_script" := Str(""), "released_script" := Str(""), "held_script" := Str(""),
        "interval" := Num(300.0)]
  }

  function TimedDefaults(kind: string): (m: Fields)
    ensures HasNoPlaces(m)
  {
    match kind
    case "SingleTap" => map["duration" := Num(50.0), "sync" := Bool(false)]
    case "RepeatTap" => map["duration" := Num(50.0), "interval" := Num(100.0)]
    case "Swipe" => map["duration" := Num(150.0), "enable_randomization" := Bool(false), "script_hooks" := HOOKS]
    case "CancelCast" => map["bind" := Arr([]), "script_hooks" := HOOKS]
    case "RawInput" => map["bind" := Arr([])]
    case "Observation" => map["max_radius" := Num(0.0)]
    case "Fire" => map["preserve_fps_control" := Bool(true)]
    case _ => map[]
  }

  /** The fields that `createMapping` adds for one type, apart from those holding places. */
  function PlainDefaults(kind: string, distance: real): (m: Fields)
    ensures HasNoPlaces(m)
  {
    var own := TimedDefaults(kind);
    match kind
    case "Swipe" => PointerDefaults() + own
    case "DirectionPad" => PadDefaults(distance)
    case "MouseCastSpell" => RandomDefaults() + CastDefaults(distance)
    case "PadCastSpell" => RandomDefaults() + PadCastDefaults(distance)
    case "CancelCast" => own
    case "Observation" => RandomDefaults() + SensitivityDefaults() + own
    case "Fps" => PointerDefaults() + SensitivityDefaults() + FpsDefaults()
    case "Fire" => RandomDefaults() + SensitivityDefaults() + own
    case "RawInput" => own
    case "Script" => ScriptDefaults()
    case _ => RandomDefaults() + own
  }

  /** The fields holding places, which lie inside the frame when `position` does. */
  function PlaceDefaults(kind: string, position: (real, real)): (m: Fields)
    ensures 0.0 <= position.0 <= 1.0 && 0.0 <= position.1 <= 1.0 ==>
              && ("center" in m ==> IsPosition(m["center"]))
              && ("positions" in m ==> ArePositions(m["positions"]))
              && ("items" in m ==> AreItems(m["items"]))
    ensures m.Keys <= {"center", "positions", "items"}
  {
    var here := Point(position.0, position.1);
    var x := position.0 + 0.15;
    match kind
    case "MultipleTap" => map["items" := Arr([Obj(map["position" := here, "duration" := Num(50.0), "wait" := Num(0.0)])])]
    case "Swipe" => map["positions" := Arr([here, Point(if x < 1.0 then x else 1.0, position.1)])]
    case "MouseCastSpell" => map["center" := Point(0.5, 0.5)]
    case _ => map[]
  }

  predicate ArePositions(value: Json) {
    value.Arr? && forall i :: 0 <= i < |value.items| ==> IsPosition(value.items[i])
  }

  predicate AreItems(value: Json) {
    value.Arr? && forall i :: 0 <= i < |value.items| ==> HasPosition(value.items[i])
  }

  /** `createMapping(type, position, frame)`; `id` is the random UUID it draws. */
  function CreateMapping(kind: string, position: (real, real), distance: real, id: string): Fields {
    map["id" := Str(id), "type" := Str(kind), "note" := Str(""), "position" := Point(position.0, position.1)]
    + PlainDefaults(kind, distance) + PlaceDefaults(kind, position)
  }

  const DEFAULT_HARDWARE_BINDINGS: map<string, string> :=
    map["home" := "", "lock" := "", "volume-up" := "", "volume-down" := "", "mute" := "", "siri" := "", "action" := ""]

  datatype ImportResult = ImportResult(profile: Profile, imported: nat, skipped: nat)

  // ----- facts about them -----

  lemma PlacesAreValid(m: Fields, position: (real, real))
    requires 0.0 <= position.0 <= 1.0 && 0.0 <= position.1 <= 1.0
    requires Get(m, "position") == Some(Point(position.0, position.1))
    requires "center" in m ==> IsPosition(m["center"])
    requires "positions" in m ==> ArePositions(m["positions"])
    requires "items" in m ==> AreItems(m["items"])
    ensures HasValidPositions(m)
  {
  }

  /** A new mapping is of its type, at its position, and all its places are valid. */
  lemma CreatedPlaces(kind: string, position: (real, real), distance: real, id: string)
    requires 0.0 <= position.0 <= 1.0 && 0.0 <= position.1 <= 1.0
    ensures var m := CreateMapping(kind, position, distance, id);
            && Get(m, "id") == Some(Str(id))
            && Get(m, "type") == Some(Str(kind))
            && Get(m, "position") == Some(Point(position.0, position.1))
            && ("center" in m ==> IsPosition(m["center"]))
            && ("positions" in m ==> ArePositions(m["positions"]))
            && ("items" in m ==> AreItems(m["items"]))
  {
    hide PlainDefaults, PlaceDefaults;
  }

  lemma NoMappingsAccepted()
    ensures MappingsAccepted([])
  {
  }

  lemma DefaultHardwareAccepted(mappings: seq<Json>)
    ensures HardwareAccepted(DEFAULT_HARDWARE_BINDINGS, mappings)
    ensures DEFAULT_HARDWARE_BINDINGS.Keys == set name | name in HARDWARE_BUTTON_NAMES
  {
    assert Utf8Len("") == 0;
  }

  // ----- where new mappings reach -----

  lemma PlacesComeLast(kind: string, position: (real, real), distance: real, id: string, k: string)
    ensures k in {"center", "positions", "items"} ==>
              Get(CreateMapping(kind, position, distance, id), k) == Get(PlaceDefaults(kind, position), k)
    ensures k !in PLACES && k != "note" ==>
              Get(CreateMapping(kind, position, distance, id), k) == Get(PlainDefaults(kind, distance), k)
  {
    hide PlainDefaults, PlaceDefaults;
  }

  /** A tap sequence starts with one tap here, a swipe runs 0.15 to the right as far as the frame goes, a spell is centred in it. */
  lemma PlacesOfNew(position: (real, real), distance: real, id: string)
    ensures Get(CreateMapping("MultipleTap", position, distance, id), "items") ==
              Some(Arr([Obj(map["position" := Point(position.0, position.1), "duration" := Num(50.0), "wait" := Num(0.0)])]))
    ensures Get(CreateMapping("Swipe", position, distance, id), "positions") ==
              Some(Arr([Point(position.0, position.1), Point(RealMin(position.0 + 0.15, 1.0), position.1)]))
    ensures Get(CreateMapping("MouseCastSpell", position, distance, id), "center") == Some(Point(0.5, 0.5))
  {
    hide CreateMapping;
    PlacesComeLast("MultipleTap", position, distance, id, "items");
    PlacesComeLast("Swipe", position, distance, id, "positions");
    PlacesComeLast("MouseCastSpell", position, distance, id, "center");
    assert "Swipe"[0] == 'S' && "MultipleTap"[1] == 'u' && "MouseCastSpell"[1] == 'o';
  }

  /** Reaches are fractions of the shorter side of the frame. */
  lemma ReachesScale(distance: real)
    ensures Get(PlainDefaults("DirectionPad", distance), "max_offset_x") == Some(Num(distance * 0.1))
    ensures Get(PlainDefaults("DirectionPad", distance), "max_offset_y") == Some(Num(distance * 0.1))
    ensures Get(PlainDefaults("DirectionPad", distance), "bind") == Some(NO_BUTTONS)
    ensures Get(PlainDefaults("MouseCastSpell", distance), "cast_radius") == Some(Num(distance * 0.15))
    ensures Get(PlainDefaults("MouseCastSpell", distance), "drag_radius") == Some(Num(distance * 0.1))
    ensures Get(PlainDefaults("PadCastSpell", distance), "drag_radius") == Some(Num(distance * 0.1))
  {
    PadReaches(distance);
    CastReaches(distance);
    hide PadDefaults, CastDefaults, PadCastDefaults, RandomDefaults;
  }

  lemma PadReaches(distance: real)
    ensures Get(PadDefaults(distance), "max_offset_x") == Get(PadDefaults(distance), "max_offset_y") == Some(Num(distance * 0.1))
    ensures Get(PadDefaults(distance), "bind") == Some(NO_BUTTONS)
  {
    hide ReachDefaults, SpreadDefaults, JitterDefaults;
    OnlyReachHolds(distance, "max_offset_x");
    OnlyReachHolds(distance, "max_offset_y");
    OnlyReachHolds(distance, "bind");
  }

  lemma OnlyReachHolds(distance: real, k: string)
    requires k in {"max_offset_x", "max_offset_y", "bind"}
    ensures k !in SpreadDefaults() && k !in JitterDefaults()
    ensures Get(ReachDefaults(distance), k) == Some(if k == "bind" then NO_BUTTONS else Num(distance * 0.1))
  {
    NotInSpread(k);
    NotInJitter(k);
    hide SpreadDefaults, JitterDefaults;
  }

  lemma NotInSpread(k: string)
    requires k in {"max_offset_x", "max_offset_y", "bind"}
    ensures k !in SpreadDefaults()
  {
  }

  lemma NotInJitter(k: string)
    requires k in {"max_offset_x", "max_offset_y", "bind"}
    ensures k !in JitterDefaults()
  {
  }

  lemma CastReaches(distance: real)
    ensures Get(CastDefaults(distance), "cast_radius") == Some(Num(distance * 0.15))
    ensures Get(CastDefaults(distance), "drag_radius") == Get(PadCastDefaults(distance), "drag_radius") == Some(Num(distance * 0.1))
  {
  }
}
