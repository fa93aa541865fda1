// Creating and duplicating mappings in the editor (src/mappingEditor.ts:9-31, 113-122) and the
// position and contact accessors it rests on (src/types.ts:585-609, 642-646).
module MappingEditor {
  import opened Prelude

  const CONTACTS: nat := 5

  datatype Position = Position(x: real, y: real)

  datatype TapItem = TapItem(position: Position, duration: real, wait: real)

  /** Where a mapping sits; `Single` covers the legacy types, which hold x and y themselves. */
  datatype Place =
    | Single(position: Position)
    | Taps(position: Position, items: seq<TapItem>)
    | Swipe(position: Position, positions: seq<Position>)

  /** The contact fields of a mapping; a dual one is an Fps mapping in dual touch mode. */
  datatype Contact = Legacy(contactId: int) | Pointer(id: int) | Dual(id: int, another: int) | NoContact

  datatype Mapping = Mapping(id: string, place: Place, contact: Contact)

  // ----- positions -----

  function MappingPosition(m: Mapping): Position {
    match m.place
    case Single(position) => position
    case Taps(position, items) => if items != [] then items[0].position else position
    case Swipe(position, positions) => if positions != [] then positions[0] else position
  }

  function UpdatePosition(m: Mapping, position: Position): Mapping {
    m.(place := match m.place
      case Single(_) => Single(position)
      case Taps(_, items) => Taps(position, if items == [] then [] else items[0 := items[0].(position := position)])
      case Swipe(_, positions) => Swipe(position, if positions == [] then [position] else positions[0 := position]))
  }

  function Offset(p: Position): Position {
    Position(RealMin(1.0, p.x + 0.025), RealMin(1.0, p.y + 0.025))
  }

  ghost predicate InFrame(p: Position) {
    0.0 <= p.x <= 1.0 && 0.0 <= p.y <= 1.0
  }

  ghost predicate PlacesInFrame(m: Mapping) {
    InFrame(m.place.position)
    && (m.place.Taps? ==> forall i :: 0 <= i < |m.place.items| ==> InFrame(m.place.items[i].position))
    && (m.place.Swipe? ==> forall i :: 0 <= i < |m.place.positions| ==> InFrame(m.place.positions[i]))
  }

  /** Position and update form a lens; writing back the position read changes nothing unless the stored copies disagree. */
  lemma PositionLaws(m: Mapping, p: Position, q: Position)
    ensures MappingPosition(UpdatePosition(m, p)) == p
    ensures UpdatePosition(UpdatePosition(m, p), q) == UpdatePosition(m, q)
    ensures UpdatePosition(m, MappingPosition(m)) == m
       <==> m.place.position == MappingPosition(m) && (m.place.Swipe? ==> m.place.positions != [])
  {
    match m.place
    case Single(_) =>
    case Taps(_, items) =>
      if items != [] {
        assert items[0 := items[0].(position := items[0].position)] == items;
        assert items[0 := items[0].(position := p)][0 := items[0].(position := q)] == items[0 := items[0].(position := q)];
      }
    case Swipe(_, positions) =>
      if positions == [] {
        assert [p][0 := q] == [q];
      } else {
        assert positions[0 := positions[0]] == positions;
        assert positions[0 := p][0 := q] == positions[0 := q];
      }
  }

  // ----- contacts -----

  function ContactIds(c: Contact): seq<int> {
    match c
    case Legacy(contactId) => [contactId]
    case Pointer(id) => [id]
    case Dual(id, another) => [id, another]
    case NoContact => []
  }

  function Count(ids: seq<int>, id: int): nat {
    if ids == [] then 0 else Count(ids[..|ids| - 1], id) + if ids[|ids| - 1] == id then 1 else 0
  }

  function Usage(mappings: seq<Mapping>, id: int): nat {
    if mappings == [] then 0
    else Usage(mappings[..|mappings| - 1], id) + Count(ContactIds(mappings[|mappings| - 1].contact), id)
  }

  /** `a` comes before `b` in the order by usage, then by id. */
  predicate Precedes(usageA: nat, a: int, usageB: nat, b: int) {
    usageA < usageB || (usageA == usageB && a < b)
  }

  ghost predicate IsNext(mappings: seq<Mapping>, reserved: set<int>, id: int) {
    && 0 <= id < CONTACTS && id !in reserved
    && forall other :: 0 <= other < CONTACTS && other !in reserved && other != id ==>
         Precedes(Usage(mappings, id), id, Usage(mappings, other), other)
  }

  /** The first id of the filtered, sorted contact list from `start` on. */
  function NextFrom(start: nat, mappings: seq<Mapping>, reserved: set<int>): (id: Option<nat>)
    requires start <= CONTACTS
    ensures id.None? <==> forall other :: start <= other < CONTACTS ==> other in reserved
    ensures id.Some? ==>
              && start <= id.value < CONTACTS && id.value !in reserved
              && forall other :: start <= other < CONTACTS && other !in reserved && other != id.value ==>
                   Precedes(Usage(mappings, id.value), id.value, Usage(mappings, other), other)
    decreases CONTACTS - start
  {
    if start == CONTACTS then None
    else
      var rest := NextFrom(start + 1, mappings, reserved);
      if start in reserved then rest
      else if rest.None? || Usage(mappings, start) <= Usage(mappings, rest.value) then Some(start)
      else rest
  }

  function NextContact(mappings: seq<Mapping>, reserved: set<int>): (id: nat)
    ensures (forall other :: 0 <= other < CONTACTS ==> other in reserved) ==> id == 0
    ensures !(forall other :: 0 <= other < CONTACTS ==> other in reserved) ==> IsNext(mappings, reserved, id)
  {
    var id := NextFrom(0, mappings, reserved);
    if id.None? then 0 else id.value
  }

  lemma CountConcat(a: seq<int>, id: int, last: int)
    ensures Count(a + [last], id) == Count(a, id) + if last == id then 1 else 0
  {
    assert (a + [last])[..|a|] == a;
  }

  method CountUsage(mappings: seq<Mapping>) returns (usage: map<int, nat>)
    ensures forall id :: id in usage <==> 0 <= id < CONTACTS
    ensures forall id :: 0 <= id < CONTACTS ==> usage[id] == Usage(mappings, id)
  {
    usage := map[0 := 0, 1 := 0, 2 := 0, 3 := 0, 4 := 0];
    for i := 0 to |mappings|
      invariant forall id :: id in usage <==> 0 <= id < CONTACTS
      invariant forall id :: 0 <= id < CONTACTS ==> usage[id] == Usage(mappings[..i], id)
    {
      var ids := ContactIds(mappings[i].contact);
      assert mappings[..i + 1][..i] == mappings[..i];
      for j := 0 to |ids|
        invariant forall id :: id in usage <==> 0 <= id < CONTACTS
        invariant forall id :: 0 <= id < CONTACTS ==> usage[id] == Usage(mappings[..i], id) + Count(ids[..j], id)
      {
        hide Usage, Count, ContactIds;
        assert ids[..j + 1] == ids[..j] + [ids[j]];
        forall id ensures Count(ids[..j + 1], id) == Count(ids[..j], id) + if ids[j] == id then 1 else 0 {
          CountConcat(ids[..j], id, ids[j]);
        }
        if ids[j] in usage {
          usage := usage[ids[j] := usage[ids[j]] + 1];
        }
      }
      assert ids[..|ids|] == ids;
    }
    assert mappings[..|mappings|] == mappings;
  }

  /** The head of the contact ids, filtered and sorted by usage and then by id; 0 when all are reserved. */
  method NextContactId(mappings: seq<Mapping>, reserved: set<int>) returns (next: nat)
    ensures next == NextContact(mappings, reserved)
  {
    hide Usage, Count;
    var usage := CountUsage(mappings);
    next := 0;
    var found := false;
    for id := 0 to CONTACTS
      invariant found ==> 0 <= next < id && next !in reserved
      invariant !found ==> next == 0 && forall other :: 0 <= other < id ==> other in reserved
      invariant found ==> forall other :: 0 <= other < id && other !in reserved && other != next ==>
                            Precedes(Usage(mappings, next), next, Usage(mappings, other), other)
    {
      if id !in reserved && (!found || usage[id] < usage[next]) {
        next, found := id, true;
      }
    }
    if found {
      NextIsUnique(mappings, reserved, next, NextContact(mappings, reserved));
    }
  }

  lemma NextIsUnique(mappings: seq<Mapping>, reserved: set<int>, a: int, b: int)
    requires IsNext(mappings, reserved, a) && IsNext(mappings, reserved, b)
    ensures a == b
  {
  }

  // ----- edits -----

  function AssignContactIds(m: Mapping, existing: seq<Mapping>): Mapping {
    match m.contact
    case Legacy(_) => m.(contact := Legacy(NextContact(existing, {})))
    case Pointer(_) => m.(contact := Pointer(NextContact(existing, {})))
    case Dual(_, _) =>
      var first := NextContact(existing, {});
      m.(contact := Dual(first, NextContact(existing, {first})))
    case NoContact => m
  }

  /** `uuid` is the random id drawn for the copy. */
  function Duplicate(source: Mapping, existing: seq<Mapping>, uuid: string): Mapping {
    AssignContactIds(UpdatePosition(source.(id := uuid), Offset(MappingPosition(source))), existing)
  }

  /** A mapping as the editor changes it in place. */
  class EditorMapping {
    var value: Mapping

    constructor (value: Mapping)
      ensures this.value == value
    {
      this.value := value;
    }

    /** `assignContactIds`: the second contact of a dual mapping is chosen after the first is stored. */
    method AssignContacts(existing: seq<Mapping>)
      modifies this
      ensures value == AssignContactIds(old(value), existing)
    {
      match value.contact {
        case Legacy(_) =>
          var next := NextContactId(existing, {});
          value := value.(contact := Legacy(next));
        case Pointer(_) =>
          var next := NextContactId(existing, {});
          value := value.(contact := Pointer(next));
        case Dual(_, another) =>
          var next := NextContactId(existing, {});
          value := value.(contact := Dual(next, another));
          var second := NextContactId(existing, {value.contact.id});
          value := value.(contact := Dual(next, second));
        case NoContact =>
      }
    }
  }

  /** `duplicateEditorMapping`: the source itself is left alone. */
  method DuplicateEditorMapping(source: Mapping, existing: seq<Mapping>, uuid: string) returns (duplicate: Mapping)
    ensures duplicate == Duplicate(source, existing, uuid)
  {
    var copy := new EditorMapping(UpdatePosition(source.(id := uuid), Offset(MappingPosition(source))));
    copy.AssignContacts(existing);
    duplicate := copy.value;
  }

  /** `createEditorMapping`: `created` is what `createMapping` returns. */
  method CreateEditorMapping(created: Mapping, existing: seq<Mapping>) returns (mapping: Mapping)
    ensures existing + [mapping] == Edited(existing, DoCreate(created))
  {
    var fresh' := new EditorMapping(created);
    fresh'.AssignContacts(existing);
    mapping := fresh'.value;
  }

  datatype Edit = DoCreate(created: Mapping) | DoDuplicate(index: nat, uuid: string)

  /** The edited profile: the new mapping goes to the end (src/App.tsx:562-575). */
  function Edited(mappings: seq<Mapping>, edit: Edit): seq<Mapping> {
    match edit
    case DoCreate(created) => mappings + [AssignContactIds(created, mappings)]
    case DoDuplicate(index, uuid) =>
      if index < |mappings| then mappings + [Duplicate(mappings[index], mappings, uuid)] else mappings
  }

  function Run(mappings: seq<Mapping>, edits: seq<Edit>): seq<Mapping>
    decreases |edits|
  {
    if edits == [] then mappings else Edited(Run(mappings, edits[..|edits| - 1]), edits[|edits| - 1])
  }

  /** The five usage counts differ by at most one. */
  ghost predicate Balanced(mappings: seq<Mapping>) {
    forall a, b :: 0 <= a < CONTACTS && 0 <= b < CONTACTS ==> Usage(mappings, a) <= Usage(mappings, b) + 1
  }

  lemma UsageAppend(mappings: seq<Mapping>, m: Mapping, id: int)
    ensures Usage(mappings + [m], id) == Usage(mappings, id) + Count(ContactIds(m.contact), id)
  {
    assert (mappings + [m])[..|mappings|] == mappings;
  }

  lemma CountOne(a: int, id: int)
    ensures Count([a], id) == if a == id then 1 else 0
  {
    CountConcat([], id, a);
    assert [] + [a] == [a];
  }

  lemma CountTwo(a: int, b: int, id: int)
    ensures Count([a, b], id) == (if a == id then 1 else 0) + (if b == id then 1 else 0)
  {
    CountOne(a, id);
    CountConcat([a], id, b);
    assert [a] + [b] == [a, b];
  }

  /** A dual mapping always gets two different contacts. */
  lemma DualContactsDiffer(m: Mapping, existing: seq<Mapping>)
    requires m.contact.Dual?
    ensures var c := AssignContactIds(m, existing).contact;
            c.Dual? && c.id != c.another && IsNext(existing, {}, c.id) && IsNext(existing, {c.id}, c.another)
  {
    assert 0 !in {1} && 1 !in {0};
    var first := NextContact(existing, {});
    var none: set<int> := {};
    assert 0 !in none;
    assert first == 0 ==> 1 !in {first};
    assert first != 0 ==> 0 !in {first};
  }

  lemma OneKeepsBalance(existing: seq<Mapping>, m: Mapping, next: int)
    requires Balanced(existing) && IsNext(existing, {}, next)
    requires forall id :: Count(ContactIds(m.contact), id) == if next == id then 1 else 0
    ensures Balanced(existing + [m])
  {
    hide Usage, Count, ContactIds;
    forall id ensures Usage(existing + [m], id) == Usage(existing, id) + Count(ContactIds(m.contact), id) {
      UsageAppend(existing, m, id);
    }
  }

  lemma TwoKeepBalance(existing: seq<Mapping>, m: Mapping, first: int, second: int)
    requires Balanced(existing) && IsNext(existing, {}, first) && IsNext(existing, {first}, second)
    requires forall id :: Count(ContactIds(m.contact), id) == (if first == id then 1 else 0) + (if second == id then 1 else 0)
    ensures Balanced(existing + [m])
  {
    hide Usage, Count, ContactIds;
    forall id ensures Usage(existing + [m], id) == Usage(existing, id) + Count(ContactIds(m.contact), id) {
      UsageAppend(existing, m, id);
    }
  }

  lemma AssignKeepsBalance(m: Mapping, existing: seq<Mapping>)
    requires Balanced(existing)
    ensures Balanced(existing + [AssignContactIds(m, existing)])
  {
    hide Usage, Count, Balanced;
    var added := AssignContactIds(m, existing);
    var none: set<int> := {};
    assert 0 !in none;
    match m.contact
    case NoContact => UnusedKeepsBalance(existing, added);
    case Dual(_, _) =>
      DualContactsDiffer(m, existing);
      var c := added.contact;
      forall id ensures Count(ContactIds(c), id) == (if c.id == id then 1 else 0) + (if c.another == id then 1 else 0) {
        CountTwo(c.id, c.another, id);
      }
      TwoKeepBalance(existing, added, c.id, c.another);
    case _ =>
      var next := NextContact(existing, {});
      forall id ensures Count(ContactIds(added.contact), id) == if next == id then 1 else 0 {
        CountOne(next, id);
      }
      OneKeepsBalance(existing, added, next);
  }

  lemma UnusedKeepsBalance(existing: seq<Mapping>, m: Mapping)
    requires Balanced(existing) && m.contact == NoContact
    ensures Balanced(existing + [m])
  {
    forall id ensures Usage(existing + [m], id) == Usage(existing, id) {
      UsageAppend(existing, m, id);
    }
  }

  /** Creating and duplicating keep the contacts balanced, whatever the run. */
  lemma {:induction false} EditsKeepBalance(mappings: seq<Mapping>, edits: seq<Edit>)
    requires Balanced(mappings)
    ensures Balanced(Run(mappings, edits))
    decreases |edits|
  {
    if edits != [] {
      var before := Run(mappings, edits[..|edits| - 1]);
      EditsKeepBalance(mappings, edits[..|edits| - 1]);
      match edits[|edits| - 1]
      case DoCreate(created) => AssignKeepsBalance(created, before);
      case DoDuplicate(index, uuid) =>
        if index < |before| {
          var source := before[index];
          AssignKeepsBalance(UpdatePosition(source.(id := uuid), Offset(MappingPosition(source))), before);
        }
    }
  }

  /** A copy differs from its source in id, contacts and first position only, and stays inside the frame. */
  lemma DuplicateMovesOnlyFirstPlace(source: Mapping, existing: seq<Mapping>, uuid: string)
    ensures var d := Duplicate(source, existing, uuid);
            && d.id == uuid
            && MappingPosition(d) == Offset(MappingPosition(source))
            && UpdatePosition(d, MappingPosition(source)).place == UpdatePosition(source, MappingPosition(source)).place
            && (PlacesInFrame(source) ==> PlacesInFrame(d))
  {
    var moved := UpdatePosition(source.(id := uuid), Offset(MappingPosition(source)));
    PositionLaws(source.(id := uuid), Offset(MappingPosition(source)), MappingPosition(source));
    assert Duplicate(source, existing, uuid).place == moved.place;
  }

  // ----- contacts handed out in turn -----

  ghost predicate GoesRound(mappings: seq<Mapping>) {
    forall i :: 0 <= i < |mappings| ==> mappings[i].contact == Pointer(i % CONTACTS)
  }

  lemma {:induction false} RoundUsage(mappings: seq<Mapping>, id: nat)
    requires GoesRound(mappings) && id < CONTACTS
    ensures Usage(mappings, id) == (|mappings| + 4 - id) / 5
  {
    if mappings != [] {
      var n := |mappings| - 1;
      RoundUsage(mappings[..n], id);
      CountOne(n % 5, id);
      RoundStep(n, id);
    }
  }

  lemma RoundStep(n: nat, id: nat)
    requires id < 5
    ensures (n + 5 - id) / 5 == (n + 4 - id) / 5 + if n % 5 == id then 1 else 0
  {
  }

  /** Handing contacts out in turn, as the PlayCover importer does, gives a balanced profile to edit. */
  lemma RoundIsBalanced(mappings: seq<Mapping>)
    requires GoesRound(mappings)
    ensures Balanced(mappings)
  {
    forall a, b | 0 <= a < CONTACTS && 0 <= b < CONTACTS ensures Usage(mappings, a) <= Usage(mappings, b) + 1 {
      RoundUsage(mappings, a);
      RoundUsage(mappings, b);
    }
  }

  // ----- the leaves of an edit -----

  /** A copy moves by 0.025 each way, up to the edge of the frame. */
  lemma OffsetIs(p: Position)
    ensures Offset(p).x == (if p.x + 0.025 <= 1.0 then p.x + 0.025 else 1.0)
    ensures Offset(p).y == (if p.y + 0.025 <= 1.0 then p.y + 0.025 else 1.0)
  {
  }

  /** Moving touches the first place only. */
  lemma UpdateKeepsOthers(m: Mapping, p: Position, i: nat)
    ensures var moved := UpdatePosition(m, p);
            && moved.id == m.id && moved.contact == m.contact && moved.place.position == p
            && (m.place.Single? ==> moved.place.Single?)
            && (m.place.Taps? ==>
                  moved.place.Taps? && |moved.place.items| == |m.place.items|
                  && (i < |m.place.items| ==>
                        moved.place.items[i] == if i == 0 then m.place.items[0].(position := p) else m.place.items[i]))
            && (m.place.Swipe? ==>
                  moved.place.Swipe? && |moved.place.positions| == Max(1, |m.place.positions|)
                  && (0 < i < |m.place.positions| ==> moved.place.positions[i] == m.place.positions[i]))
  {
  }

  /** Assigning contacts keeps the kind of a mapping and everything but its contacts, and gives it the least used. */
  lemma AssignedContacts(m: Mapping, existing: seq<Mapping>)
    ensures var r := AssignContactIds(m, existing);
            && r.id == m.id && r.place == m.place
            && (m.contact.NoContact? ==> r.contact == NoContact)
            && (m.contact.Legacy? ==> r.contact.Legacy? && IsNext(existing, {}, r.contact.contactId))
            && (m.contact.Pointer? ==> r.contact.Pointer? && IsNext(existing, {}, r.contact.id))
            && (m.contact.Dual? ==>
                  r.contact.Dual? && IsNext(existing, {}, r.contact.id) && IsNext(existing, {r.contact.id}, r.contact.another))
  {
    var none: set<int> := {};
    assert 0 !in none;
    if m.contact.Dual? {
      DualContactsDiffer(m, existing);
    }
  }

  function AllIds(mappings: seq<Mapping>): seq<int> {
    if mappings == [] then [] else AllIds(mappings[..|mappings| - 1]) + ContactIds(mappings[|mappings| - 1].contact)
  }

  lemma {:induction false} CountIsMultiplicity(ids: seq<int>, id: int)
    ensures Count(ids, id) == multiset(ids)[id]
  {
    if ids != [] {
      CountIsMultiplicity(ids[..|ids| - 1], id);
      assert ids == ids[..|ids| - 1] + [ids[|ids| - 1]];
    }
  }

  /** Usage is how often a contact occurs among those of all mappings, the second one of dual mappings included. */
  lemma {:induction false} UsageIsMultiplicity(mappings: seq<Mapping>, id: int)
    ensures Usage(mappings, id) == multiset(AllIds(mappings))[id]
  {
    if mappings != [] {
      UsageIsMultiplicity(mappings[..|mappings| - 1], id);
      CountIsMultiplicity(ContactIds(mappings[|mappings| - 1].contact), id);
    }
  }

  lemma ContactsOf(a: int, b: int)
    ensures multiset(ContactIds(Legacy(a))) == multiset(ContactIds(Pointer(a))) == multiset{a}
    ensures multiset(ContactIds(Dual(a, b))) == multiset{a, b} && ContactIds(NoContact) == []
  {
  }
}
